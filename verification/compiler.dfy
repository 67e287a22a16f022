/**
 The work compiler: turns the selected source files, each already split into
 lines, into the download queue and the total number of files to download.
 Every source file gets one destination folder under the output root, and its
 non-empty lines become entries 1, 2, 3, ... of that folder.
 */
module WorkCompiler {
  import opened DownloadQueue
  import Paths

  /** A selected source file: either it could not be opened, or it was read as lines. */
  datatype SourceFile = Unreadable(path: string) | Readable(path: string, lines: seq<string>)

  /** The queue built for a run together with the run's `totalFiles` counter. */
  datatype Compiled = Compiled(queue: Queue, total: nat)

  /** The URLs of a file: its non-empty lines, in read order. */
  function NonBlank(lines: seq<string>): (urls: seq<string>)
    ensures |urls| <= |lines|
    ensures forall k :: 0 <= k < |urls| ==> urls[k] != ""
  {
    if |lines| == 0 then []
    else
      var last := lines[|lines| - 1];
      NonBlank(lines[..|lines| - 1]) + (if last == "" then [] else [last])
  }

  /** The URLs numbered from 1 in order. */
  function Numbered(urls: seq<string>): (m: map<int, string>)
    ensures forall i :: i in m <==> 1 <= i <= |urls|
    ensures forall i :: 1 <= i <= |urls| ==> m[i] == urls[i - 1]
    ensures |m| == |urls|
  {
    if |urls| == 0 then map[]
    else
      var n := |urls|;
      var prev := Numbered(urls[..n - 1]);
      assert n !in prev;
      prev[n := urls[n - 1]]
  }

  /** The entries one readable file contributes to its folder. */
  function FileEntries(lines: seq<string>): map<int, string> {
    Numbered(NonBlank(lines))
  }

  /**
   Reads one file's lines into its folder's inner map the way the scan loop
   does: a running index that starts at 1 and moves on only after a
   non-empty line has been stored under it. Also returns how many entries
   were added, which the loop adds to `totalFiles`.
   */
  method ScanLines(lines: seq<string>) returns (entries: map<int, string>, added: nat)
    ensures entries == FileEntries(lines)
    ensures added == |NonBlank(lines)|
  {
    entries := map[];
    added := 0;
    var index := 1;
    var j := 0;
    ScanStart(lines);
    while j < |lines|
      invariant j <= |lines|
      invariant Scanned(lines, j, entries, added, index)
    {
      var url := lines[j];
      if url == "" {
        ScanBlank(lines, j, entries, added, index);
      } else {
        ScanUrl(lines, j, entries, added, index);
        entries := entries[index := url];
        added := added + 1;
        index := index + 1;
      }
      j := j + 1;
    }
    ScanDone(lines, entries, added, index);
  }

  /** The scan state after the first `j` lines. */
  ghost predicate Scanned(lines: seq<string>, j: nat, entries: map<int, string>, added: nat, index: int)
    requires j <= |lines|
  {
    && entries == FileEntries(lines[..j])
    && added == |NonBlank(lines[..j])| && index == added + 1
  }

  lemma ScanStart(lines: seq<string>)
    ensures Scanned(lines, 0, map[], 0, 1)
  {
    assert lines[..0] == [];
  }

  lemma ScanDone(lines: seq<string>, entries: map<int, string>, added: nat, index: int)
    requires Scanned(lines, |lines|, entries, added, index)
    ensures entries == FileEntries(lines) && added == |NonBlank(lines)|
  {
    assert lines[..|lines|] == lines;
  }

  lemma ScanBlank(lines: seq<string>, j: nat, entries: map<int, string>, added: nat, index: int)
    requires j < |lines| && lines[j] == "" && Scanned(lines, j, entries, added, index)
    ensures Scanned(lines, j + 1, entries, added, index)
  {
    NonBlankStep(lines, j);
  }

  lemma ScanUrl(lines: seq<string>, j: nat, entries: map<int, string>, added: nat, index: int)
    requires j < |lines| && lines[j] != "" && Scanned(lines, j, entries, added, index)
    ensures Scanned(lines, j + 1, entries[index := lines[j]], added + 1, index + 1)
  {
    var url := lines[j];
    var urls := NonBlank(lines[..j]);
    assert NonBlank(lines[..j + 1]) == urls + [url] by {
      NonBlankStep(lines, j);
    }
    assert entries[index := url] == Numbered(urls + [url]) by {
      NumberedSnoc(urls, url);
    }
  }

  lemma NonBlankStep(lines: seq<string>, j: nat)
    requires j < |lines|
    ensures NonBlank(lines[..j + 1]) == NonBlank(lines[..j]) + (if lines[j] == "" then [] else [lines[j]])
  {
    assert lines[..j + 1][..j] == lines[..j];
  }

  lemma NumberedSnoc(urls: seq<string>, url: string)
    ensures Numbered(urls + [url]) == Numbered(urls)[|urls| + 1 := url]
  {
    assert (urls + [url])[..|urls|] == urls;
  }

  /** The URLs of a prefix of the lines are a prefix of the file's URLs. */
  lemma {:induction false} NonBlankPrefix(lines: seq<string>, j: nat)
    requires j <= |lines|
    ensures NonBlank(lines[..j]) <= NonBlank(lines)
    decreases |lines| - j
  {
    if j < |lines| {
      NonBlankPrefix(lines, j + 1);
      assert lines[..j + 1][..j] == lines[..j];
    } else {
      assert lines[..j] == lines;
    }
  }

  /**
   Line `j` of a file either is blank and takes no index, or is stored
   under one plus the number of non-empty lines before it. So the indices
   follow read order with no gaps.
   */
  lemma LineIndex(lines: seq<string>, j: nat)
    requires j < |lines|
    ensures lines[j] == "" ==> NonBlank(lines[..j + 1]) == NonBlank(lines[..j])
    ensures lines[j] != "" ==>
              var i := |NonBlank(lines[..j])| + 1;
              i in FileEntries(lines) && FileEntries(lines)[i] == lines[j]
  {
    assert lines[..j + 1][..j] == lines[..j];
    NonBlankPrefix(lines, j + 1);
  }

  /** How many lines of the file are non-empty, counted from the front. */
  function CountNonEmpty(lines: seq<string>): nat {
    if |lines| == 0 then 0
    else (if lines[0] == "" then 0 else 1) + CountNonEmpty(lines[1..])
  }

  /** A file has exactly as many URLs as non-empty lines. */
  lemma {:induction false} NonBlankCount(lines: seq<string>)
    ensures |NonBlank(lines)| == CountNonEmpty(lines)
    decreases |lines|
  {
    if |lines| > 0 {
      NonBlankCount(lines[..|lines| - 1]);
      CountSnoc(lines);
    }
  }

  lemma {:induction false} CountSnoc(lines: seq<string>)
    requires |lines| > 0
    ensures CountNonEmpty(lines) ==
              CountNonEmpty(lines[..|lines| - 1]) + (if lines[|lines| - 1] == "" then 0 else 1)
    decreases |lines|
  {
    if |lines| > 1 {
      CountSnoc(lines[1..]);
      assert lines[1..][..|lines| - 2] == lines[..|lines| - 1][1..];
    }
  }

  /**
   The converse of `LineIndex`: the URL at position `i` (index `i + 1`) is a
   non-empty line of the file with exactly `i` non-empty lines before it.
   */
  lemma {:induction false} NonBlankOrigin(lines: seq<string>, i: nat)
    requires i < |NonBlank(lines)|
    ensures exists j :: 0 <= j < |lines| && lines[j] != "" && |NonBlank(lines[..j])| == i && NonBlank(lines)[i] == lines[j]
    decreases |lines|
  {
    var n := |lines| - 1;
    var init := lines[..n];
    if i < |NonBlank(init)| {
      NonBlankOrigin(init, i);
      var j :| 0 <= j < |init| && init[j] != "" && |NonBlank(init[..j])| == i && NonBlank(init)[i] == init[j];
      assert init[..j] == lines[..j];
    } else {
      assert lines[..n] == init;
    }
  }

  /**
   What one source file asks of the queue: nothing when it could not be
   opened, otherwise to fill its destination folder with its lines.
   */
  datatype Job = Skip | Fill(folder: string, lines: seq<string>)

  /** The job of one source file under the output root. */
  function Resolve(outputRoot: string, file: SourceFile): (job: Job)
    ensures job.Fill? <==> file.Readable?
  {
    match file
    case Unreadable(_) => Skip
    case Readable(path, lines) => Fill(Paths.FolderPath(outputRoot, path), lines)
  }

  /** The jobs of all source files, in input order. */
  function Jobs(outputRoot: string, files: seq<SourceFile>): (jobs: seq<Job>)
    ensures |jobs| == |files|
    ensures forall j :: 0 <= j < |files| ==> jobs[j] == Resolve(outputRoot, files[j])
  {
    seq(|files|, j requires 0 <= j < |files| => Resolve(outputRoot, files[j]))
  }

  /** Applies one job to the queue being built. */
  function AddJob(c: Compiled, job: Job): Compiled {
    match job
    case Skip => c
    case Fill(folder, lines) =>
      Compiled(c.queue[folder := FileEntries(lines)], c.total + |NonBlank(lines)|)
  }

  /** How many URLs the jobs carry in all. */
  function Contributed(jobs: seq<Job>): nat {
    if |jobs| == 0 then 0
    else (if jobs[0].Fill? then |NonBlank(jobs[0].lines)| else 0) + Contributed(jobs[1..])
  }

  /** The folders the jobs fill. */
  function Filled(jobs: seq<Job>): set<string> {
    set j | 0 <= j < |jobs| && jobs[j].Fill? :: jobs[j].folder
  }

  /** No later job fills the folder job `j` fills. */
  predicate LastInFolder(jobs: seq<Job>, j: nat)
    requires j < |jobs| && jobs[j].Fill?
  {
    forall k :: j < k < |jobs| && jobs[k].Fill? ==> jobs[k].folder != jobs[j].folder
  }

  /** Every job that no later job overrides has exactly its own entries in `q`. */
  predicate HoldsLast(jobs: seq<Job>, q: Queue) {
    forall j :: 0 <= j < |jobs| && jobs[j].Fill? && LastInFolder(jobs, j) ==>
      jobs[j].folder in q && q[jobs[j].folder] == FileEntries(jobs[j].lines)
  }

  /** No two jobs fill the same folder. */
  predicate DistinctFolders(jobs: seq<Job>) {
    forall j, k :: 0 <= j < k < |jobs| && jobs[j].Fill? && jobs[k].Fill? ==> jobs[j].folder != jobs[k].folder
  }

  /**
   Builds the queue from the jobs in order, starting from an empty queue and
   a zero counter and applying one job after another.
   */
  function Build(jobs: seq<Job>): Compiled
    decreases |jobs|
  {
    if |jobs| == 0 then Compiled(map[], 0)
    else AddJob(Build(jobs[..|jobs| - 1]), jobs[|jobs| - 1])
  }

  /**
   What building promises: the counter is the number of URLs of all jobs,
   the folders are those of the filled jobs, a job's folder holds exactly
   that job's entries unless a later job fills the same folder (which then
   replaces them, while the counter still counts both), and so the queue
   never holds more entries than the counter says.
   */
  lemma {:induction false} BuildFacts(jobs: seq<Job>)
    ensures Build(jobs).total == Contributed(jobs)
    ensures Build(jobs).queue.Keys == Filled(jobs)
    ensures HoldsLast(jobs, Build(jobs).queue)
    ensures Count(Build(jobs).queue) <= Build(jobs).total
    decreases |jobs|
  {
    if |jobs| == 0 {
      assert Filled(jobs) == {};
    } else {
      var init := jobs[..|jobs| - 1];
      BuildFacts(init);
      BuildStep(jobs, Build(init), Build(jobs));
    }
  }

  /** Adding the last job keeps every property `Build` promises. */
  lemma BuildStep(jobs: seq<Job>, prev: Compiled, c: Compiled)
    requires |jobs| > 0
    requires prev.total == Contributed(jobs[..|jobs| - 1])
    requires prev.queue.Keys == Filled(jobs[..|jobs| - 1])
    requires HoldsLast(jobs[..|jobs| - 1], prev.queue)
    requires Count(prev.queue) <= prev.total
    requires c == AddJob(prev, jobs[|jobs| - 1])
    ensures c.total == Contributed(jobs)
    ensures c.queue.Keys == Filled(jobs)
    ensures HoldsLast(jobs, c.queue)
    ensures Count(c.queue) <= c.total
  {
    ContributedSnoc(jobs);
    FilledStep(jobs);
    BuildStepCount(prev, jobs[|jobs| - 1], c);
    BuildStepContents(jobs, prev, c);
  }

  lemma BuildStepCount(prev: Compiled, job: Job, c: Compiled)
    requires Count(prev.queue) <= prev.total
    requires c == AddJob(prev, job)
    ensures Count(c.queue) <= c.total
  {
    if job.Fill? {
      CountAfterInstall(prev.queue, job.folder, FileEntries(job.lines));
    }
  }

  lemma BuildStepContents(jobs: seq<Job>, prev: Compiled, c: Compiled)
    requires |jobs| > 0
    requires prev.queue.Keys == Filled(jobs[..|jobs| - 1])
    requires HoldsLast(jobs[..|jobs| - 1], prev.queue)
    requires c == AddJob(prev, jobs[|jobs| - 1])
    ensures HoldsLast(jobs, c.queue)
  {
    var n := |jobs| - 1;
    forall j | 0 <= j < |jobs| && jobs[j].Fill? && LastInFolder(jobs, j)
      ensures jobs[j].folder in c.queue && c.queue[jobs[j].folder] == FileEntries(jobs[j].lines)
    {
      if j < n {
        EarlierJobKept(jobs, prev, c, j);
      } else {
        LastJobApplied(prev, jobs[n], c);
      }
    }
  }

  lemma LastJobApplied(prev: Compiled, job: Job, c: Compiled)
    requires job.Fill? && c == AddJob(prev, job)
    ensures job.folder in c.queue && c.queue[job.folder] == FileEntries(job.lines)
  {
  }

  /** A job that no later job overrides keeps its entries when the last job is applied. */
  lemma EarlierJobKept(jobs: seq<Job>, prev: Compiled, c: Compiled, j: nat)
    requires j < |jobs| - 1 && jobs[j].Fill? && LastInFolder(jobs, j)
    requires prev.queue.Keys == Filled(jobs[..|jobs| - 1])
    requires HoldsLast(jobs[..|jobs| - 1], prev.queue)
    requires c == AddJob(prev, jobs[|jobs| - 1])
    ensures jobs[j].folder in c.queue && c.queue[jobs[j].folder] == FileEntries(jobs[j].lines)
  {
    var n := |jobs| - 1;
    var init := jobs[..n];
    assert init[j] == jobs[j];
    assert LastInFolder(init, j) by {
      forall k | j < k < |init| && init[k].Fill?
        ensures init[k].folder != init[j].folder
      {
        assert init[k] == jobs[k];
      }
    }
    assert jobs[j].folder in prev.queue;
  }

  /** The folders filled by a list of jobs are those of its first part plus the last job's. */
  lemma FilledStep(jobs: seq<Job>)
    requires |jobs| > 0
    ensures var n := |jobs| - 1;
            Filled(jobs) == Filled(jobs[..n]) + (if jobs[n].Fill? then {jobs[n].folder} else {})
  {
    var n := |jobs| - 1;
    var init := jobs[..n];
    var before := Filled(init);
    var last: set<string> := if jobs[n].Fill? then {jobs[n].folder} else {};
    forall f | f in Filled(jobs)
      ensures f in before + last
    {
      var j :| 0 <= j < |jobs| && jobs[j].Fill? && f == jobs[j].folder;
      if j < n {
        assert init[j] == jobs[j];
      }
    }
    forall f | f in before
      ensures f in Filled(jobs)
    {
      var j :| 0 <= j < n && init[j].Fill? && f == init[j].folder;
      assert jobs[j] == init[j];
    }
  }

  lemma {:induction false} ContributedSnoc(jobs: seq<Job>)
    requires |jobs| > 0
    ensures var last := jobs[|jobs| - 1];
            Contributed(jobs) == Contributed(jobs[..|jobs| - 1]) + (if last.Fill? then |NonBlank(last.lines)| else 0)
    decreases |jobs|
  {
    if |jobs| > 1 {
      ContributedSnoc(jobs[1..]);
      assert jobs[1..][..|jobs| - 2] == jobs[..|jobs| - 1][1..];
    }
  }

  /**
   When no two jobs share a folder, nothing is overwritten: every job's
   folder holds exactly its entries and the queue holds exactly `total`
   entries.
   */
  lemma {:induction false} BuildAccounting(jobs: seq<Job>)
    requires DistinctFolders(jobs)
    ensures Count(Build(jobs).queue) == Build(jobs).total
    ensures forall j :: 0 <= j < |jobs| && jobs[j].Fill? ==>
              jobs[j].folder in Build(jobs).queue && Build(jobs).queue[jobs[j].folder] == FileEntries(jobs[j].lines)
    decreases |jobs|
  {
    if |jobs| > 0 {
      DistinctPrefix(jobs);
      BuildAccounting(jobs[..|jobs| - 1]);
      AccountingStep(jobs);
    }
    DistinctContents(jobs);
  }

  /** With distinct folders no job is overridden, so each keeps its entries. */
  lemma DistinctContents(jobs: seq<Job>)
    requires DistinctFolders(jobs)
    ensures forall j :: 0 <= j < |jobs| && jobs[j].Fill? ==>
              jobs[j].folder in Build(jobs).queue && Build(jobs).queue[jobs[j].folder] == FileEntries(jobs[j].lines)
  {
    BuildFacts(jobs);
    forall j | 0 <= j < |jobs| && jobs[j].Fill?
      ensures LastInFolder(jobs, j)
    {
    }
  }

  /** Dropping the last job keeps folders distinct. */
  lemma DistinctPrefix(jobs: seq<Job>)
    requires |jobs| > 0 && DistinctFolders(jobs)
    ensures DistinctFolders(jobs[..|jobs| - 1])
  {
    var init := jobs[..|jobs| - 1];
    forall j, k | 0 <= j < k < |init| && init[j].Fill? && init[k].Fill?
      ensures init[j].folder != init[k].folder
    {
      assert init[j] == jobs[j] && init[k] == jobs[k];
    }
  }

  /** With distinct folders, the last job adds all of its URLs to the queue. */
  lemma AccountingStep(jobs: seq<Job>)
    requires |jobs| > 0 && DistinctFolders(jobs)
    requires Count(Build(jobs[..|jobs| - 1]).queue) == Build(jobs[..|jobs| - 1]).total
    ensures Count(Build(jobs).queue) == Build(jobs).total
  {
    var n := |jobs| - 1;
    var prev := Build(jobs[..n]);
    BuildSnoc(jobs);
    match jobs[n] {
      case Skip =>
      case Fill(f, lines) =>
        assert f !in prev.queue by {
          LastIsNew(jobs);
        }
        InstallNew(prev, f, lines);
    }
  }

  /** With distinct folders, the last job's folder is not yet in the queue. */
  lemma LastIsNew(jobs: seq<Job>)
    requires |jobs| > 0 && DistinctFolders(jobs) && jobs[|jobs| - 1].Fill?
    ensures jobs[|jobs| - 1].folder !in Build(jobs[..|jobs| - 1]).queue
  {
    var n := |jobs| - 1;
    var init := jobs[..n];
    BuildFacts(init);
    forall j | 0 <= j < |init| && init[j].Fill?
      ensures init[j].folder != jobs[n].folder
    {
      assert init[j] == jobs[j];
    }
    assert jobs[n].folder !in Filled(init);
  }

  /** Filling a new folder adds all of the job's URLs to the count. */
  lemma InstallNew(prev: Compiled, f: string, lines: seq<string>)
    requires f !in prev.queue && Count(prev.queue) == prev.total
    ensures Count(AddJob(prev, Fill(f, lines)).queue) == AddJob(prev, Fill(f, lines)).total
  {
    CountAfterInstall(prev.queue, f, FileEntries(lines));
  }

  /** The queue and `totalFiles` built from the selected files. */
  function Compile(outputRoot: string, files: seq<SourceFile>): Compiled {
    Build(Jobs(outputRoot, files))
  }

  /**
   The compiling loop: each file that opened gets a fresh folder filled by
   scanning its lines, and the counter grows by the URLs it held. It builds
   exactly the queue and counter of `Compile`.
   */
  method CompileFiles(outputRoot: string, files: seq<SourceFile>) returns (queue: Queue, total: nat)
    ensures Compiled(queue, total) == Compile(outputRoot, files)
  {
    queue, total := RunJobs(Jobs(outputRoot, files));
  }

  /**
   The body of the compiling loop once each file's folder is known: a
   skipped file changes nothing, and a filled one installs a fresh inner map
   from its lines and adds their URLs to the counter.
   */
  method RunJobs(jobs: seq<Job>) returns (queue: Queue, total: nat)
    ensures Compiled(queue, total) == Build(jobs)
  {
    queue, total := map[], 0;
    var j := 0;
    assert jobs[..0] == [];
    while j < |jobs|
      invariant j <= |jobs|
      invariant Compiled(queue, total) == Build(jobs[..j])
    {
      BuildPrefixStep(jobs, j);
      match jobs[j] {
        case Skip =>
        case Fill(folder, lines) =>
          var entries, added := ScanLines(lines);
          queue := queue[folder := entries];
          total := total + added;
      }
      j := j + 1;
    }
    assert jobs[..j] == jobs;
  }

  lemma BuildPrefixStep(jobs: seq<Job>, j: nat)
    requires j < |jobs|
    ensures Build(jobs[..j + 1]) == AddJob(Build(jobs[..j]), jobs[j])
  {
    BuildSnoc(jobs[..j + 1]);
    assert jobs[..j + 1][..j] == jobs[..j];
  }

  /** A single job fills its folder with its entries and counts its URLs. */
  lemma BuildOne(f: string, lines: seq<string>)
    ensures Build([Fill(f, lines)]) == Compiled(map[f := FileEntries(lines)], |NonBlank(lines)|)
  {
    assert [Fill(f, lines)][..0] == [];
  }

  /**
   Two jobs for the same folder: the second one's entries replace the
   first's, while the counter counts the URLs of both.
   */
  lemma BuildTwo(f: string, a: seq<string>, b: seq<string>)
    ensures Build([Fill(f, a), Fill(f, b)]) == Compiled(map[f := FileEntries(b)], |NonBlank(a)| + |NonBlank(b)|)
  {
    var jobs := [Fill(f, a), Fill(f, b)];
    var first := Compiled(map[f := FileEntries(a)], |NonBlank(a)|);
    assert Build(jobs) == AddJob(first, Fill(f, b)) by {
      assert jobs[..1] == [Fill(f, a)];
      BuildOne(f, a);
      BuildSnoc(jobs);
    }
    Refill(first, f, b);
  }

  /** Filling a folder again replaces what it held. */
  lemma Refill(c: Compiled, f: string, lines: seq<string>)
    requires c.queue.Keys == {f}
    ensures AddJob(c, Fill(f, lines)) == Compiled(map[f := FileEntries(lines)], c.total + |NonBlank(lines)|)
  {
    assert c.queue[f := FileEntries(lines)] == map[f := FileEntries(lines)];
  }

  lemma BuildSnoc(jobs: seq<Job>)
    requires |jobs| > 0
    ensures Build(jobs) == AddJob(Build(jobs[..|jobs| - 1]), jobs[|jobs| - 1])
  {
  }

  /** How many URLs the readable files hold in all. */
  function TotalLines(files: seq<SourceFile>): nat {
    if |files| == 0 then 0
    else
      (match files[0]
       case Unreadable(_) => 0
       case Readable(_, lines) => |NonBlank(lines)|)
      + TotalLines(files[1..])
  }

  /**
   The counter ends at the number of non-empty lines over all files that
   opened; unopened files add nothing.
   */
  lemma {:induction false} CompileTotal(outputRoot: string, files: seq<SourceFile>)
    ensures Compile(outputRoot, files).total == TotalLines(files)
    decreases |files|
  {
    JobsTotal(outputRoot, files);
    BuildFacts(Jobs(outputRoot, files));
  }

  lemma {:induction false} JobsTotal(outputRoot: string, files: seq<SourceFile>)
    ensures Contributed(Jobs(outputRoot, files)) == TotalLines(files)
    decreases |files|
  {
    if |files| > 0 {
      JobsTotal(outputRoot, files[1..]);
      assert Jobs(outputRoot, files)[1..] == Jobs(outputRoot, files[1..]);
    }
  }

  /**
   Every opened file has its folder, `outputRoot` joined with the file's base
   name minus its extension, in the queue, and no other folder is there.
   */
  lemma CompileFolders(outputRoot: string, files: seq<SourceFile>)
    ensures forall f :: f in Compile(outputRoot, files).queue <==>
              exists j :: 0 <= j < |files| && files[j].Readable? && f == Paths.FolderPath(outputRoot, files[j].path)
  {
    BuildFacts(Jobs(outputRoot, files));
    forall f | f in Filled(Jobs(outputRoot, files))
      ensures exists j :: 0 <= j < |files| && files[j].Readable? && f == Paths.FolderPath(outputRoot, files[j].path)
    {
      FilledFromFile(outputRoot, files, f);
    }
    forall j | 0 <= j < |files| && files[j].Readable?
      ensures Paths.FolderPath(outputRoot, files[j].path) in Filled(Jobs(outputRoot, files))
    {
      FileFilled(outputRoot, files, j);
    }
  }

  lemma FilledFromFile(outputRoot: string, files: seq<SourceFile>, f: string)
    requires f in Filled(Jobs(outputRoot, files))
    ensures exists j :: 0 <= j < |files| && files[j].Readable? && f == Paths.FolderPath(outputRoot, files[j].path)
  {
    var jobs := Jobs(outputRoot, files);
    var j :| 0 <= j < |jobs| && jobs[j].Fill? && f == jobs[j].folder;
    assert files[j].Readable? && f == Paths.FolderPath(outputRoot, files[j].path);
  }

  lemma FileFilled(outputRoot: string, files: seq<SourceFile>, j: nat)
    requires j < |files| && files[j].Readable?
    ensures Paths.FolderPath(outputRoot, files[j].path) in Filled(Jobs(outputRoot, files))
  {
    var jobs := Jobs(outputRoot, files);
    assert jobs[j].Fill? && jobs[j].folder == Paths.FolderPath(outputRoot, files[j].path);
  }

  /**
   With distinct destination folders, each opened file's folder holds
   exactly that file's entries and the queue holds as many entries as the
   counter says.
   */
  lemma CompileAccounting(outputRoot: string, files: seq<SourceFile>)
    requires DistinctFolders(Jobs(outputRoot, files))
    ensures Count(Compile(outputRoot, files).queue) == Compile(outputRoot, files).total
    ensures forall j :: 0 <= j < |files| && files[j].Readable? ==>
              Paths.FolderPath(outputRoot, files[j].path) in Compile(outputRoot, files).queue &&
              Compile(outputRoot, files).queue[Paths.FolderPath(outputRoot, files[j].path)] == FileEntries(files[j].lines)
  {
    var jobs := Jobs(outputRoot, files);
    BuildAccounting(jobs);
    forall j | 0 <= j < |files| && files[j].Readable?
      ensures Paths.FolderPath(outputRoot, files[j].path) in Compile(outputRoot, files).queue &&
              Compile(outputRoot, files).queue[Paths.FolderPath(outputRoot, files[j].path)] == FileEntries(files[j].lines)
    {
      assert jobs[j].Fill? && jobs[j].folder == Paths.FolderPath(outputRoot, files[j].path);
    }
  }
}
