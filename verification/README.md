# Download-queue engine of TXTBatchJPGFetcher, in Dafny

TXTBatchJPGFetcher reads lists of image URLs from `.txt` files. It gives every
list its own folder under an output root and downloads each URL to
`<folder>/<index>.jpg`. It retries failed downloads pass after pass until every
URL has succeeded. This project models the engine behind the download command
(`startDownload` and `downloadImage` in `main.go`) and proves its properties.

- `Paths` (`paths.dfy`) covers the parts of Go's `filepath.Base`, `filepath.Ext`,
  `filepath.Join` and `strings.TrimSuffix` that name a source file's
  destination folder.
- `Decimal` (`decimal.dfy`) is the `%d` rendering of an index.
- `DownloadQueue` (`queue.dfy`) is the queue `folder -> (index -> URL)`. It also
  gives the queue's entries as a set of `(folder, index)` keys and their count.
- `WorkCompiler` (`compiler.dfy`) is the compiling loop:
  - every source file that opens becomes a job for its folder;
  - its non-empty lines become entries 1, 2, 3, ...;
  - `totalFiles` counts them.
- `Executor` (`executor.dfy`) is one download attempt: its verdict and the file
  it leaves behind.
- `Scheduler` (`scheduler.dfy`) is the retry loop:
  - one attempt per entry per pass;
  - removal and counting on success;
  - a folder is dropped after its pass if it is empty;
  - passes repeat until the queue is empty.
- `Downloader` (`downloader.dfy`) puts the compiler and the scheduler together
  as the download command.

The network and the disk are not modelled as actions. Their results are
inputs:
- `Executor.DownloadImage` takes the HTTP outcome and the disk outcome.
- The scheduler takes one set per pass: the `(folder, index)` keys whose attempt
  succeeds in that pass. Each pass attempts every remaining entry exactly once,
  so this set describes the whole pass.

Go does not fix the iteration order of a map. Deleting the current key while
ranging over a map is allowed, and no key is produced twice. So a pass visits
every folder and every index that were present when the pass started, exactly
once each. `Scheduler.RunPass` picks folders and indices in an arbitrary order,
with `:|`. It is proved to end in
`Scheduler.PassResult` whatever order it picks, so a pass's outcome does not
depend on the order.

Three behaviours of `main.go` matter when reading the model:
- A run starts whenever the list of selected files is non-empty (main.go:159).
  It does not matter whether any file opens or holds a URL.
  - When no file opens, the queue is empty before the loop, so
    `for len(downloadQueue) > 0` (main.go:213) runs no pass at all
    (`Downloader.NothingOpened`).
  - When an opened file holds only blank lines, its folder is in the queue
    with no entries, and the first pass drops it (`Downloader.BlankFileDropped`).
- A folder is checked for emptiness only after its pass (main.go:227-229). An
  emptied folder stays in the queue until then.
- The speed figure divides `downloaded` by the elapsed seconds with no guard
  against zero (main.go:261). The progress line is not modelled.

## Model

| member | source | states |
|---|---|---|
| `Paths.FolderNameRoundTrip` | main.go:194 | The folder name followed by the file's extension gives back the file's base name, so only the extension is removed. |
| `Paths.TxtFolderName` | main.go:194 | For a `.txt` file, the folder name is the base name minus ".txt" and contains no separator. |
| `Paths.FolderOfTxt` | main.go:194-195 | `<dir><name>.txt` gets the folder `<outputRoot>/<name>`, whatever directory it sits in. |
| `Paths.Base` | main.go:194 | The base name is the last element of the path once trailing separators are stripped. It is "/" for a path made only of separators and "." for the empty path, and never empty. |
| `Paths.Ext` | main.go:194 | The extension is a suffix of the path. It contains no separator and is either empty or one '.' followed by characters other than '.'. |
| `Paths.ExtFindsDot` | main.go:194 | The extension is empty exactly when the final element of the path holds no '.'. |
| `Paths.ExtOfTxt` | main.go:194 | A path ending in ".txt" has extension ".txt". |
| `Paths.Join` | main.go:195 | Joining keeps the directory as a prefix and the name as a suffix, and an empty element leaves the other unchanged. |
| `Decimal.ParseFormatNat` | main.go:248 | Reading the printed digits of an index back gives the index. |
| `Decimal.FormatIntInjective` | main.go:248 | Distinct indices print differently. |
| `DownloadQueue.CountAfterInstall` | main.go:199 | Installing a fresh inner map raises the entry count by its size when the folder is new, and by at most its size otherwise. |
| `WorkCompiler.NonBlankCount` | main.go:200-206 | A file yields exactly as many URLs as it has non-empty lines, counted independently from the front. |
| `WorkCompiler.NonBlankOrigin` | main.go:198-206 | Every URL at index i + 1 is a non-empty line with exactly i non-empty lines before it. So every index 1..k comes from a line in read order. |
| `WorkCompiler.Numbered` | main.go:198-206 | The URLs are numbered exactly 1..k in read order, with no gaps and no other keys. |
| `WorkCompiler.ScanLines` | main.go:198-207 | The scan loop, with an index that moves on only after a non-blank line, stores exactly the numbered URLs and counts them. |
| `WorkCompiler.LineIndex` | main.go:200-206 | A blank line takes no index. A non-blank line is stored under one plus the number of non-blank lines before it. |
| `WorkCompiler.NonBlankPrefix` | main.go:200-206 | The URLs read so far are a prefix of the file's URLs, so indices follow read order. |
| `WorkCompiler.Resolve` | main.go:185-190 | A file that cannot be opened yields no job, and every file that opens yields one. |
| `WorkCompiler.BuildFacts` | main.go:185-208 | The counter is the sum of all jobs' URLs, and the folders are those of the opened files. Each folder holds its last job's entries. The queue never holds more entries than the counter. |
| `WorkCompiler.BuildTwo` | main.go:199 | A second file for the same folder replaces the first file's entries, yet the counter counts both. |
| `WorkCompiler.BuildAccounting` | main.go:185-208 | With distinct folders, every job's folder holds exactly its entries, and the queue holds exactly `total` entries. |
| `WorkCompiler.RunJobs` | main.go:185-208 | The loop over the files builds the queue and counter that `Build` defines. |
| `WorkCompiler.CompileFiles` | main.go:180-208 | Compiling the selected files gives exactly `Compile`'s queue and counter. |
| `WorkCompiler.CompileTotal` | main.go:181-207 | `totalFiles` is the number of non-blank lines over all files that opened. Unopened files add nothing. |
| `WorkCompiler.CompileFolders` | main.go:185-199 | The queue's folders are exactly the `outputRoot`-joined folder names of the files that opened. |
| `WorkCompiler.CompileAccounting` | main.go:185-208 | With distinct folders, each opened file's folder holds exactly that file's entries, and the queue size equals `totalFiles`. |
| `Executor.DownloadImage` | main.go:237-257 | Success iff there is no transport error, the status is 200, and creation and copy both succeed. Success writes the whole body to `TargetName`. Without a 200 or after a failed create no file is written. A failed copy leaves a prefix of the body. |
| `Executor.TargetName` | main.go:248 | The target file name ends in ".jpg". |
| `Executor.TargetNameShape` | main.go:248 | Under a folder, the target is `<folder>/<index>.jpg`. |
| `Executor.TargetNameInjective` | main.go:248 | Two entries of one folder never write to the same file. |
| `Scheduler.Attempt` | main.go:216-222 | Success removes exactly that key and adds 1 to `downloaded`. Failure changes nothing. `total` and the folder set never change, and accounting is preserved. |
| `Scheduler.DropIfEmpty` | main.go:227-229 | A folder is deleted iff it is present with an empty inner map. Entries, counters and other folders are unchanged. |
| `Scheduler.PassResult` | main.go:214-230 | After a pass, the entries are the old ones minus the successes, and `downloaded` grows by their number. A folder is dropped iff all its entries succeeded, and no empty folder remains. Accounting is preserved. |
| `Scheduler.PassFolder` | main.go:215-229 | After a full pass a folder is empty exactly when every one of its entries succeeded. |
| `Scheduler.RunPass` | main.go:214-230 | The pass loop, visiting folders and indices in any order, ends in `PassResult`. |
| `Scheduler.Drive` | main.go:213-231 | The outer loop stops early only on an empty queue. It keeps `total`, never lowers `downloaded`, and only ever loses entries. With accounting, an empty queue means `downloaded == total`. |
| `Scheduler.Schedule` | main.go:213-231 | The outer loop as a method ends where `Drive` says. |
| `Scheduler.AllSucceedEmpties` | main.go:213-230 | A pass in which every attempt succeeds empties the queue. |
| `Scheduler.NoEntriesNoFolders` | main.go:227-229 | Once every folder is non-empty, no entries means no folders. |
| `Scheduler.EventuallyEmpty` | main.go:213-231 | If every queued entry succeeds in some pass, the queue is empty by the end. |
| `Scheduler.NeverSucceeds` | main.go:213-231 | An entry that never succeeds stays queued through every pass. All passes are used, and `downloaded` stays below `totalFiles`. |
| `Scheduler.TriedCount` | main.go:216-218 | One more attempted entry adds one to the successes exactly when it succeeded. |
| `Downloader.Start` | main.go:180-208 | The run starts with `downloaded` 0 and `totalFiles` the URL count. Its folders are exactly those of the opened files. |
| `Downloader.StartDownload` | main.go:180-231 | The download command ends where `Drive` says, and stops early only on an empty queue. With distinct folders, `downloaded` plus the entries left equals `totalFiles`, and completion means all URLs were downloaded. |
| `Downloader.StartAccounted` | main.go:180-208 | With distinct folders the run starts accounted for. |
| `Downloader.CompletesWhenEachEntrySucceeds` | main.go:180-231 | With distinct folders, if every entry succeeds in some pass, the run ends empty with `downloaded == totalFiles`. |
| `Downloader.SingleFile` | main.go:185-207 | One opened file fills its one folder with its numbered URLs and counts them. |
| `Downloader.DuplicateFolderShortfall` | main.go:194-205 | Two files with the same folder name share one folder. Even after an all-success pass the run ends with `downloaded` below `totalFiles`. |
| `Downloader.SharedFolder` | main.go:194-205 | Two opened files sharing a folder leave only the second file's entries, with both counted. |
| `Downloader.BlankLinesSkipped` | main.go:198-206 | `[u, "", v]` yields entries 1 -> u and 2 -> v and a count of 2. |
| `Downloader.NothingOpened` | main.go:185-213 | When no selected file opens, the queue starts empty and total 0, and the loop runs no pass. |
| `Downloader.BlankFileDropped` | main.go:198-207 | A file of blank lines leaves an empty folder and a count of 0. The first pass drops the folder whatever the outcomes. |

## Left out

- The interactive menu, file-list management and prompts (main.go:24-156). They are user-interface glue.
- The recursive directory walk that collects `.txt` files (main.go:79-115). The model starts from the list of selected files, each already either unreadable or split into lines.
- The empty-list guard and the output-root check and creation (main.go:159-178). The model starts after them, with a cleaned output root.
- `os.MkdirAll` for each folder (main.go:196). Its error is ignored by the code, so it has no effect on the queue or the counters.
- `bufio.Scanner` internals: line splitting, the 64 KiB token limit and read errors. A readable file is given as its lines.
- The fixed delay after every attempt (main.go:224), `startTime`, and the progress line with its throughput (main.go:180, 219, 221, 259-263). Timing and floating point have no effect on the queue.
- Real HTTP and file I/O in `downloadImage`. Their outcomes are inputs (`Transfer`, `Disk`), and the deferred `Close` calls are not modelled.
- Executor.DownloadImage: the `url` parameter is carried but not used, because the fetch result is an input.
- Paths.Join: `filepath.Clean`'s handling of ".", ".." and repeated separators is not modelled. The model joins with a single '/' and covers Unix paths only.
- Scheduler.Drive: the unbounded outer loop is modelled with the list of passes as fuel. A run that never empties is shown to use every given pass (`Scheduler.NeverSucceeds`), not to loop forever.
- Scheduler.RunPass: outcomes are fixed per pass, one set per pass. An attempt's outcome cannot depend on the order within the pass, which is no restriction because each entry is attempted once per pass.
- Downloader.StartDownload: the accounting identity is stated only when no two opened files share a folder. `Downloader.DuplicateFolderShortfall` shows it fails otherwise.
