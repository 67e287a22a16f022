/**
 One download attempt for one queue entry. The HTTP exchange and the local
 file writes are outside the model: their results are given as inputs, and
 the attempt's verdict and its effect on the disk are derived from them.
 */
module Executor {
  import Paths
  import Decimal

  type Byte = b: int | 0 <= b < 256

  /** The HTTP status that counts as success. */
  const StatusOK: int := 200

  /** What the GET request for the entry's URL gave back. */
  datatype Transfer = TransportError | Reply(status: int, body: seq<Byte>)

  /**
   What happened when writing the body to the target file: the file could
   not be created, the copy stopped after `kept` bytes, or the whole body
   was written.
   */
  datatype Disk = CreateFailed | CopyFailed(kept: nat) | Written

  /** A file left on disk by the attempt, if any. */
  datatype FileWrite = NoFile | File(path: string, contents: seq<Byte>)

  /** The verdict of an attempt and the file it left behind. */
  datatype Attempt = Attempt(success: bool, file: FileWrite)

  /** The file an entry is saved to: `<index>.jpg` inside its folder. */
  function TargetName(folder: string, index: int): (name: string)
    ensures Paths.HasSuffix(name, ".jpg")
  {
    Paths.Join(folder, Decimal.FormatInt(index) + ".jpg")
  }

  /**
   One attempt. It succeeds exactly when the request raised no error, the
   status is 200, and the file was created and the whole body copied into
   it. No file is touched unless the status is 200; a failed copy leaves
   the bytes written so far.
   */
  function DownloadImage(index: int, url: string, folder: string, transfer: Transfer, disk: Disk): (a: Attempt)
    ensures a.success <==> transfer.Reply? && transfer.status == StatusOK && disk.Written?
    ensures a.success ==> a.file == File(TargetName(folder, index), transfer.body)
    ensures !(transfer.Reply? && transfer.status == StatusOK) ==> a.file == NoFile
    ensures disk.CreateFailed? ==> a.file == NoFile
    ensures a.file.File? ==> a.file.path == TargetName(folder, index) && a.file.contents <= transfer.body
  {
    match transfer
    case TransportError => Attempt(false, NoFile)
    case Reply(status, body) =>
      if status != StatusOK then Attempt(false, NoFile)
      else
        var name := TargetName(folder, index);
        match disk
        case CreateFailed => Attempt(false, NoFile)
        case CopyFailed(kept) =>
          Attempt(false, File(name, body[..if kept < |body| then kept else |body|]))
        case Written => Attempt(true, File(name, body))
  }

  /** The name of an entry's file is the folder, a separator, and `<index>.jpg`. */
  lemma TargetNameShape(folder: string, index: int)
    requires folder != "" && folder[|folder| - 1] != Paths.Sep
    ensures TargetName(folder, index) == folder + [Paths.Sep] + Decimal.FormatInt(index) + ".jpg"
  {
  }

  /** Two entries of one folder never write to the same file. */
  lemma TargetNameInjective(folder: string, i: int, j: int)
    requires TargetName(folder, i) == TargetName(folder, j)
    ensures i == j
  {
    var a := Decimal.FormatInt(i) + ".jpg";
    var b := Decimal.FormatInt(j) + ".jpg";
    JoinCancel(folder, a, b);
    assert a[..|a| - 4] == Decimal.FormatInt(i);
    assert b[..|b| - 4] == Decimal.FormatInt(j);
    Decimal.FormatIntInjective(i, j);
  }

  /** Joining onto the same folder keeps distinct non-empty names distinct. */
  lemma JoinCancel(dir: string, a: string, b: string)
    requires a != "" && b != ""
    requires Paths.Join(dir, a) == Paths.Join(dir, b)
    ensures a == b
  {
    var ja, jb := Paths.Join(dir, a), Paths.Join(dir, b);
    if dir == "" {
    } else if dir[|dir| - 1] == Paths.Sep {
      assert a == ja[|dir|..] && b == jb[|dir|..];
    } else {
      assert a == ja[|dir| + 1..] && b == jb[|dir| + 1..];
    }
  }
}
