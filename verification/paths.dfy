/**
 The path helpers the download engine relies on when it names destination
 folders: Go's `filepath.Base`, `filepath.Ext`, `filepath.Join` and
 `strings.TrimSuffix`, on Unix paths where the only separator is '/'.
 */
module Paths {

  const Sep: char := '/'

  /** `s` ends with `suffix`. */
  predicate HasSuffix(s: string, suffix: string) {
    |suffix| <= |s| && s[|s| - |suffix|..] == suffix
  }

  /** `strings.TrimSuffix`: drops `suffix` from the end of `s` when it is there. */
  function TrimSuffix(s: string, suffix: string): (r: string)
    ensures HasSuffix(s, suffix) ==> r + suffix == s
    ensures !HasSuffix(s, suffix) ==> r == s
  {
    if HasSuffix(s, suffix) then s[..|s| - |suffix|] else s
  }

  /** The path with every trailing separator removed. */
  function TrimTrailingSeps(p: string): (r: string)
    ensures r <= p
    ensures r == "" || r[|r| - 1] != Sep
    ensures forall k :: |r| <= k < |p| ==> p[k] == Sep
  {
    if |p| > 0 && p[|p| - 1] == Sep then TrimTrailingSeps(p[..|p| - 1]) else p
  }

  /** Everything after the last separator of `p` (all of `p` when it has none). */
  function LastElement(p: string): (r: string)
    ensures Sep !in r
    ensures HasSuffix(p, r)
    ensures |r| < |p| ==> p[|p| - |r| - 1] == Sep
  {
    if |p| == 0 || p[|p| - 1] == Sep then ""
    else LastElement(p[..|p| - 1]) + [p[|p| - 1]]
  }

  /**
   `filepath.Base`: the last element of the path after trailing separators are
   stripped; "." for the empty path and "/" for a path made only of separators.
   */
  function Base(p: string): (b: string)
    ensures b != ""
    ensures b == [Sep] || Sep !in b
    ensures p == "" ==> b == "."
    ensures var t := TrimTrailingSeps(p);
            && (p != "" && t == "" ==> b == [Sep])
            && (t != "" ==> HasSuffix(t, b) && (|b| == |t| || t[|t| - |b| - 1] == Sep))
  {
    if p == "" then "."
    else
      var t := TrimTrailingSeps(p);
      if t == "" then [Sep]
      else
        LastElementNonEmpty(t);
        LastElement(t)
  }

  lemma LastElementNonEmpty(p: string)
    requires p != "" && p[|p| - 1] != Sep
    ensures LastElement(p) != ""
  {
  }

  /**
   `filepath.Ext`: the suffix of `p` that starts at the last '.' of its final
   element, or "" when that element has no '.'.
   */
  function Ext(p: string): (e: string)
    ensures HasSuffix(p, e)
    ensures Sep !in e
    ensures e == "" || (e[0] == '.' && '.' !in e[1..])
  {
    if |p| == 0 || p[|p| - 1] == Sep then ""
    else if p[|p| - 1] == '.' then "."
    else
      var e := Ext(p[..|p| - 1]);
      if e == "" then "" else e + [p[|p| - 1]]
  }

  /**
   `filepath.Join` of two elements. Empty elements are skipped and a single
   separator is put between the two.
   */
  function Join(dir: string, name: string): (r: string)
    ensures dir == "" ==> r == name
    ensures name == "" ==> r == dir
    ensures dir != "" && name != "" ==> HasSuffix(r, name) && dir <= r
  {
    if dir == "" then name
    else if name == "" then dir
    else if dir[|dir| - 1] == Sep then dir + name
    else dir + [Sep] + name
  }

  /** The extension is empty exactly when the final element of the path holds no '.'. */
  lemma {:induction false} ExtFindsDot(p: string)
    ensures Ext(p) == "" <==> '.' !in LastElement(p)
    decreases |p|
  {
    if |p| > 0 && p[|p| - 1] != Sep && p[|p| - 1] != '.' {
      var init := p[..|p| - 1];
      ExtFindsDot(init);
      assert LastElement(p) == LastElement(init) + [p[|p| - 1]];
    }
  }

  /** The destination folder name of a source file: its base name without its extension. */
  function FolderName(path: string): string {
    TrimSuffix(Base(path), Ext(path))
  }

  /** The destination folder of a source file under the output root. */
  function FolderPath(outputRoot: string, path: string): string {
    Join(outputRoot, FolderName(path))
  }

  /** A suffix of `p` that holds no separator is a suffix of its last element. */
  lemma {:induction false} SepFreeSuffixOfLastElement(p: string, s: string)
    requires HasSuffix(p, s) && Sep !in s
    ensures HasSuffix(LastElement(p), s)
    decreases |p|
  {
    if |s| == 0 {
    } else {
      assert p[|p| - 1] == s[|s| - 1];
      var p' := p[..|p| - 1];
      var s' := s[..|s| - 1];
      assert p'[|p'| - |s'|..] == s';
      SepFreeSuffixOfLastElement(p', s');
      assert LastElement(p) == LastElement(p') + [p[|p| - 1]];
      var l := LastElement(p');
      assert (l + [p[|p| - 1]])[|l| + 1 - |s|..] == l[|l| - |s'|..] + [p[|p| - 1]];
    }
  }

  /**
   The extension is always a suffix of the base name, so the folder name
   followed by the extension gives the base name back.
   */
  lemma FolderNameRoundTrip(path: string)
    ensures FolderName(path) + Ext(path) == Base(path)
  {
    var e := Ext(path);
    if e != "" {
      assert path[|path| - 1] != Sep;
      assert TrimTrailingSeps(path) == path;
      SepFreeSuffixOfLastElement(path, e);
    }
  }

  /**
   For a `.txt` source file (the only files the download list accepts) the
   folder name is the file name minus ".txt" and is a single path element.
   */
  lemma TxtFolderName(path: string)
    requires HasSuffix(path, ".txt")
    ensures FolderName(path) + ".txt" == Base(path)
    ensures Sep !in FolderName(path)
  {
    FolderNameRoundTrip(path);
    ExtOfTxt(path);
    assert TrimTrailingSeps(path) == path;
    var b := Base(path);
    assert b == LastElement(path);
    assert |b| >= 4 by {
      SepFreeSuffixOfLastElement(path, ".txt");
    }
    assert FolderName(path) <= b;
  }

  /** A path that ends with ".txt" has extension ".txt". */
  lemma ExtOfTxt(p: string)
    requires HasSuffix(p, ".txt")
    ensures Ext(p) == ".txt"
  {
    var n := |p|;
    assert Ext(p[..n - 3]) == "." by {
      assert p[..n - 3][n - 4] == '.';
    }
    ExtGrows(p[..n - 3], p[..n - 2], 't');
    ExtGrows(p[..n - 2], p[..n - 1], 'x');
    ExtGrows(p[..n - 1], p, 't');
  }

  /** Extending the final element by a letter other than '.' extends a non-empty extension by it. */
  lemma ExtGrows(a: string, b: string, c: char)
    requires |b| > 0 && a == b[..|b| - 1] && b[|b| - 1] == c
    requires c != Sep && c != '.' && Ext(a) != ""
    ensures Ext(b) == Ext(a) + [c]
  {
  }

  /** The last element of a directory part followed by a separator-free name is that name. */
  lemma {:induction false} LastElementOfAppend(dir: string, name: string)
    requires dir == "" || dir[|dir| - 1] == Sep
    requires Sep !in name
    ensures LastElement(dir + name) == name
    decreases |name|
  {
    if name != "" {
      var init := name[..|name| - 1];
      assert (dir + name)[..|dir + name| - 1] == dir + init;
      LastElementOfAppend(dir, init);
      assert name == init + [name[|name| - 1]];
    }
  }

  /** The base name of `<dir><name>` is `name` when `name` is a non-empty single element. */
  lemma BaseOfAppend(dir: string, name: string)
    requires dir == "" || dir[|dir| - 1] == Sep
    requires name != "" && Sep !in name
    ensures Base(dir + name) == name
  {
    var path := dir + name;
    assert path[|path| - 1] == name[|name| - 1];
    assert TrimTrailingSeps(path) == path;
    LastElementOfAppend(dir, name);
  }

  /** A source file `<dir><name>.txt` gets the folder name `name`. */
  lemma FolderNameOfTxt(dir: string, name: string)
    requires dir == "" || dir[|dir| - 1] == Sep
    requires Sep !in name
    ensures FolderName(dir + name + ".txt") == name
  {
    var file := name + ".txt";
    var path := dir + file;
    assert dir + name + ".txt" == path;
    assert Sep !in file by {
      assert forall k :: 0 <= k < |file| ==> file[k] == (if k < |name| then name[k] else ".txt"[k - |name|]);
    }
    BaseOfAppend(dir, file);
    assert HasSuffix(path, ".txt") by {
      assert path[|path| - 4..] == file[|file| - 4..] == ".txt";
    }
    TxtFolderName(path);
    var f := FolderName(path);
    assert f + ".txt" == name + ".txt";
    assert f == (f + ".txt")[..|f|] == (name + ".txt")[..|name|] == name;
  }

  /**
   A source file `<dir><name>.txt` gets the folder `<outputRoot>/<name>`,
   whatever directory it sits in.
   */
  lemma FolderOfTxt(outputRoot: string, dir: string, name: string)
    requires outputRoot != "" && outputRoot[|outputRoot| - 1] != Sep
    requires dir == "" || dir[|dir| - 1] == Sep
    requires name != "" && Sep !in name
    ensures FolderPath(outputRoot, dir + name + ".txt") == outputRoot + [Sep] + name
  {
    FolderNameOfTxt(dir, name);
  }
}
