/**
 The whole download run: compile the queue from the selected files, then
 retry pass after pass until the queue is empty. The outcome of every
 attempt comes from the passes given as input, one set of succeeding
 entries per pass.
 */
module Downloader {
  import opened DownloadQueue
  import opened WorkCompiler
  import opened Scheduler
  import Paths

  /** The run state right after compiling: nothing downloaded yet. */
  function Start(outputRoot: string, files: seq<SourceFile>): (r: Run)
    ensures r.downloaded == 0
    ensures r.total == TotalLines(files)
    ensures forall f :: f in r.queue <==>
              exists j :: 0 <= j < |files| && files[j].Readable? && f == Paths.FolderPath(outputRoot, files[j].path)
  {
    CompileTotal(outputRoot, files);
    CompileFolders(outputRoot, files);
    var c := Compile(outputRoot, files);
    Run(c.queue, 0, c.total)
  }

  /**
   The download command: builds the queue, then runs passes until the queue
   is empty or the passes run out. When no two opened files share a
   destination folder, the downloaded counter and the entries still queued
   always add up to the number of URLs read, and an empty queue means every
   URL was downloaded.
   */
  method StartDownload(outputRoot: string, files: seq<SourceFile>, passes: seq<set<Key>>)
    returns (r: Run, used: nat)
    ensures Outcome(r, used) == Drive(Start(outputRoot, files), passes)
    ensures used < |passes| ==> r.queue == map[]
    ensures r.total == TotalLines(files)
    ensures DistinctFolders(Jobs(outputRoot, files)) ==> r.downloaded + Count(r.queue) == TotalLines(files)
    ensures DistinctFolders(Jobs(outputRoot, files)) && r.queue == map[] ==> r.downloaded == TotalLines(files)
  {
    var queue, total := CompileFiles(outputRoot, files);
    ghost var start := Start(outputRoot, files);
    assert Run(queue, 0, total) == start;
    r, used := Schedule(Run(queue, 0, total), passes);
    if DistinctFolders(Jobs(outputRoot, files)) {
      StartAccounted(outputRoot, files);
    }
  }

  /** With distinct destination folders the run starts accounted for. */
  lemma StartAccounted(outputRoot: string, files: seq<SourceFile>)
    requires DistinctFolders(Jobs(outputRoot, files))
    ensures Accounted(Start(outputRoot, files))
  {
    CompileAccounting(outputRoot, files);
  }

  /**
   With distinct destination folders, a run whose every entry succeeds in
   some pass ends with the queue empty and all URLs downloaded.
   */
  lemma CompletesWhenEachEntrySucceeds(outputRoot: string, files: seq<SourceFile>, passes: seq<set<Key>>)
    requires DistinctFolders(Jobs(outputRoot, files))
    requires |passes| > 0
    requires forall k :: k in Entries(Start(outputRoot, files).queue) ==> SucceedsIn(k, passes)
    ensures Drive(Start(outputRoot, files), passes).run.queue == map[]
    ensures Drive(Start(outputRoot, files), passes).run.downloaded == TotalLines(files)
  {
    CompileAccounting(outputRoot, files);
    EventuallyEmpty(Start(outputRoot, files), passes);
  }

  /** A single file that opens fills one folder with its entries. */
  lemma SingleFile(outputRoot: string, path: string, lines: seq<string>)
    ensures Start(outputRoot, [Readable(path, lines)]) ==
              Run(map[Paths.FolderPath(outputRoot, path) := FileEntries(lines)], 0, |NonBlank(lines)|)
  {
    var f := Paths.FolderPath(outputRoot, path);
    var jobs := Jobs(outputRoot, [Readable(path, lines)]);
    assert jobs == [Fill(f, lines)];
    BuildOne(f, lines);
  }

  /**
   Two opened files whose destination folders coincide (the same base name
   in different directories, say) share one folder: the second replaces the
   first's entries, yet the counter counts both. Even after a pass where
   everything succeeds, the run ends with fewer downloads than the total it
   announced.
   */
  lemma DuplicateFolderShortfall(outputRoot: string, pathA: string, linesA: seq<string>, pathB: string, linesB: seq<string>)
    requires Paths.FolderPath(outputRoot, pathA) == Paths.FolderPath(outputRoot, pathB)
    requires NonBlank(linesA) != []
    ensures var files := [Readable(pathA, linesA), Readable(pathB, linesB)];
            var r := Start(outputRoot, files);
            && !DistinctFolders(Jobs(outputRoot, files))
            && r.total == |NonBlank(linesA)| + |NonBlank(linesB)|
            && r.queue == map[Paths.FolderPath(outputRoot, pathB) := FileEntries(linesB)]
            && Drive(r, [Entries(r.queue)]).run.queue == map[]
            && Drive(r, [Entries(r.queue)]).run.downloaded < r.total
  {
    var files := [Readable(pathA, linesA), Readable(pathB, linesB)];
    SharedFolder(outputRoot, files, Paths.FolderPath(outputRoot, pathB));
    Shortfall(Start(outputRoot, files), Paths.FolderPath(outputRoot, pathB), FileEntries(linesB));
  }

  /** Two opened files sharing folder `f`: only the second file's entries survive. */
  lemma SharedFolder(outputRoot: string, files: seq<SourceFile>, f: string)
    requires |files| == 2 && files[0].Readable? && files[1].Readable?
    requires Paths.FolderPath(outputRoot, files[0].path) == f == Paths.FolderPath(outputRoot, files[1].path)
    ensures !DistinctFolders(Jobs(outputRoot, files))
    ensures Compile(outputRoot, files) ==
              Compiled(map[f := FileEntries(files[1].lines)], |NonBlank(files[0].lines)| + |NonBlank(files[1].lines)|)
  {
    PairJobs(outputRoot, files, f);
    BuildTwo(f, files[0].lines, files[1].lines);
  }

  lemma PairJobs(outputRoot: string, files: seq<SourceFile>, f: string)
    requires |files| == 2 && files[0].Readable? && files[1].Readable?
    requires Paths.FolderPath(outputRoot, files[0].path) == f == Paths.FolderPath(outputRoot, files[1].path)
    ensures Jobs(outputRoot, files) == [Fill(f, files[0].lines), Fill(f, files[1].lines)]
  {
    ResolveInto(outputRoot, files[0], f);
    ResolveInto(outputRoot, files[1], f);
    JobsOfTwo(outputRoot, files, Fill(f, files[0].lines), Fill(f, files[1].lines));
  }

  lemma JobsOfTwo(outputRoot: string, files: seq<SourceFile>, a: Job, b: Job)
    requires |files| == 2 && Resolve(outputRoot, files[0]) == a && Resolve(outputRoot, files[1]) == b
    ensures Jobs(outputRoot, files) == [a, b]
  {
  }

  lemma ResolveInto(outputRoot: string, file: SourceFile, f: string)
    requires file.Readable? && Paths.FolderPath(outputRoot, file.path) == f
    ensures Resolve(outputRoot, file) == Fill(f, file.lines)
  {
  }

  /** One pass where everything succeeds takes a single-folder run to |m| downloads. */
  lemma Shortfall(r: Run, f: string, m: map<int, string>)
    requires r.queue == map[f := m] && r.downloaded == 0
    ensures Drive(r, [Entries(r.queue)]).run.queue == map[]
    ensures Drive(r, [Entries(r.queue)]).run.downloaded == |m|
  {
    FolderEntriesSize(f, m);
    assert Entries(r.queue) == FolderEntries(f, m);
    AllSucceedEmpties(r, Entries(r.queue));
    assert Entries(r.queue) * Entries(r.queue) == Entries(r.queue);
  }

  /**
   Blank lines take no index: a file holding two URLs around a blank line
   fills its folder with the URLs at indices 1 and 2 and counts 2.
   */
  lemma BlankLinesSkipped(outputRoot: string, path: string, u: string, v: string)
    requires u != "" && v != ""
    ensures var r := Start(outputRoot, [Readable(path, [u, "", v])]);
            && r.queue == map[Paths.FolderPath(outputRoot, path) := map[1 := u, 2 := v]]
            && r.total == 2
  {
    var lines := [u, "", v];
    SingleFile(outputRoot, path, lines);
    EntriesAround(u, v);
  }

  lemma EntriesAround(u: string, v: string)
    requires u != "" && v != ""
    ensures FileEntries([u, "", v]) == map[1 := u, 2 := v]
    ensures |NonBlank([u, "", v])| == 2
  {
    NonBlankAround(u, v);
    var m := Numbered([u, v]);
    assert m.Keys == {1, 2};
  }

  lemma NonBlankAround(u: string, v: string)
    requires u != "" && v != ""
    ensures NonBlank([u, "", v]) == [u, v]
  {
    var lines := [u, "", v];
    NonBlankStep(lines, 0);
    NonBlankStep(lines, 1);
    NonBlankStep(lines, 2);
    assert lines[..0] == [] && lines[..3] == lines;
  }

  /**
   When no selected file can be opened the queue starts empty, so the
   scheduler loop runs no pass at all and the run ends at once with nothing
   to download.
   */
  lemma NothingOpened(outputRoot: string, files: seq<SourceFile>, passes: seq<set<Key>>)
    requires forall j :: 0 <= j < |files| ==> files[j].Unreadable?
    ensures Start(outputRoot, files).queue == map[]
    ensures Start(outputRoot, files).total == 0
    ensures Drive(Start(outputRoot, files), passes) == Outcome(Start(outputRoot, files), 0)
  {
    var r := Start(outputRoot, files);
    assert r.queue.Keys == {};
    NoReadableLines(files);
  }

  lemma {:induction false} NoReadableLines(files: seq<SourceFile>)
    requires forall j :: 0 <= j < |files| ==> files[j].Unreadable?
    ensures TotalLines(files) == 0
    decreases |files|
  {
    if |files| > 0 {
      NoReadableLines(files[1..]);
    }
  }

  /**
   A file that opens but holds only blank lines leaves an empty folder in
   the queue and adds nothing to the total; the first pass drops the folder
   whatever the oracle says.
   */
  lemma BlankFileDropped(outputRoot: string, path: string, lines: seq<string>, ok: set<Key>)
    requires forall k :: 0 <= k < |lines| ==> lines[k] == ""
    ensures var r := Start(outputRoot, [Readable(path, lines)]);
            && r.queue == map[Paths.FolderPath(outputRoot, path) := map[]]
            && r.total == 0
            && PassResult(r, ok) == Run(map[], 0, 0)
  {
    SingleFile(outputRoot, path, lines);
    AllBlank(lines);
    var r := Start(outputRoot, [Readable(path, lines)]);
    assert Entries(r.queue) == {};
    AllSucceedEmpties(r, ok);
  }

  lemma {:induction false} AllBlank(lines: seq<string>)
    requires forall k :: 0 <= k < |lines| ==> lines[k] == ""
    ensures NonBlank(lines) == []
  {
    if lines != [] {
      AllBlank(lines[..|lines| - 1]);
    }
  }
}
