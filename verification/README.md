# Multi-threaded HTTP downloader: range partitioning and outcome aggregation

This project models the decision logic of `site.ownw.download.Downloader`, a
Java class that downloads one HTTP resource with `threadNumber` threads. Each
thread fetches one byte range and writes it into a shared file that was sized
beforehand. The model covers four things:

- **The constructors' guard.** Both constructors reject a thread count below
  1 with `IllegalArgumentException` (`Download.NewWithPath`,
  `Download.NewForUrl`).
- **The range partitioning.** `blockSize = total / threadNumber`. Chunk 0
  always gets `[0, blockSize-1]` and runs on the calling thread. Chunks
  `1 .. n-1` are spawned in that order, and the last of them absorbs the
  remainder (`Chunking.ChunkAt`, `Chunking.Plan`). The lemmas prove
  contiguity, sortedness, disjointness, the exact set of offsets covered, the
  byte total, and that Java `long` arithmetic cannot overflow.
- **The probe and the run.** A non-200 probe throws `IllegalStateException`
  before the file is sized or any task exists. Otherwise the file is sized to
  the content length and the task list is created (`Download.Download`).
- **The aggregation.** The polling loop decides nothing while a task is still
  running (`Aggregation.Poll`). Once every task is done, the error strings
  are collected in task-list order. If there are any, they are joined with
  `","` into the message of the `IOException`; otherwise the file is returned
  (`Aggregation.Aggregate`, `Download.Settle`).

Modules: `Results` (Option/Result), `Chunking` (ranges and the task plan),
`Aggregation` (error collection, joining, polling) and `Download`
(constructors and `download()`). Connections, files and threads are
parameters. The probe is a `Probe(status, contentLength)` value. Each task's
transfer is a function `worker: Task -> Option<string>` that gives the error
the task ends with, or `None` on success.

## Behaviour of the code worth knowing

- **Last chunk's end.** With two or more threads the last spawned chunk ends
  at `total`, not `total-1` (Downloader.java:77-78). The requested ranges
  therefore cover `[0, total]` and add up to `total + 1` bytes. That is one
  offset past the file sized at Downloader.java:70 (`Chunking.Coverage`,
  `Chunking.BytesRequested`). A server treats a last-byte position at or
  past the end as `length - 1` (section 14.1.2 of RFC 9110). When the file
  has at least one byte per thread, every request is well formed and
  satisfiable, and clamping changes only the last range. The served ranges
  then cover exactly `[0, total-1]` and add up to `total` bytes
  (`Chunking.RequestsSatisfiable`, `Chunking.ServeChangesOnlyLast`,
  `Chunking.ServedOffsets`, `Chunking.ServedBytes`).
- **Small files.** When the file has fewer bytes than threads, `blockSize`
  is 0 and chunk 0 is `[0,-1]`. With two or more threads, every chunk
  except the last is `[0,-1]` and the last chunk is `[0, total]`. With one
  thread (an empty file), the only chunk is `[0,-1]` (`Chunking.SmallFile`).
  `[0,-1]` is not a valid byte range: if it is sent as a Range header, no
  partial content comes back. For an empty file no request is satisfiable
  (`Chunking.SmallFileRequestRejected`).
- **Error order.** Errors come out in task-list order: chunks `1 .. n-1`
  first and chunk 0 last (Downloader.java:84, 89). Chunk 0's error is
  therefore the last one in the message (`Download.MessageInTaskOrder`,
  `Download.ChunkZeroErrorLast`).

## Model

| member | source | states |
|---|---|---|
| Download.NewWithPath | src/main/java/site/ownw/download/Downloader.java:30-37 | succeeds exactly when the thread count is at least 1 and the URL parses; a count below 1 is rejected with the thread-count message before the URL is looked at; an acceptable count with an unparsable URL gives `MalformedUrl`; a success keeps URL, count and save path |
| Download.NewForUrl | src/main/java/site/ownw/download/Downloader.java:39-46 | succeeds exactly when the thread count is at least 1; otherwise the error is the thread-count `IllegalArgumentException`; a success has no save path |
| Download.SaveFileOf | src/main/java/site/ownw/download/Downloader.java:61-65 | the file is the given save path exactly when one was given, and a temporary file otherwise |
| Download.ConstructorsAgree | src/main/java/site/ownw/download/Downloader.java:30-46 | the two constructors accept the same thread counts, and build the same downloader for a parsed URL without a save path |
| Chunking.BlockSize | src/main/java/site/ownw/download/Downloader.java:73 | `blockSize` is the truncated quotient: `blockSize * n <= total < (blockSize + 1) * n` |
| Chunking.ChunkAt | src/main/java/site/ownw/download/Downloader.java:73-88 | every chunk, chunk 0 included, starts at `i*blockSize`; all but the last spawned chunk end at `(i+1)*blockSize - 1`; with two or more threads the last ends at `total` |
| Chunking.Ranges | src/main/java/site/ownw/download/Downloader.java:73-88 | the `n` ranges in chunk order start at offset 0, each ends one byte before the next starts, and the last ends at `total - 1` for one thread and at `total` for more |
| Chunking.ChunkSizes | src/main/java/site/ownw/download/Downloader.java:73-88 | every chunk has `blockSize` bytes, except that with two or more threads the last has `blockSize + total % n + 1`; with one thread the only chunk is `[0, total-1]` |
| Chunking.Contiguous | src/main/java/site/ownw/download/Downloader.java:74-88 | each chunk ends exactly one byte before the next chunk starts |
| Chunking.OrderedDisjoint | src/main/java/site/ownw/download/Downloader.java:74-88 | chunks are sorted by start, an earlier chunk ends before any later one starts, and no offset lies in two chunks |
| Chunking.SmallFile | src/main/java/site/ownw/download/Downloader.java:73-88 | when `total < n`, chunk 0 is `[0,-1]`; with two or more threads every chunk but the last is `[0,-1]` and the last is `[0, total]`; with one thread the only chunk is `[0,-1]` |
| Chunking.Coverage | src/main/java/site/ownw/download/Downloader.java:70-88 | an offset is requested by some chunk iff it lies in `[0, total-1]` for one thread or in `[0, total]` for more; offset `total` lies past the file's end |
| Chunking.BytesRequested | src/main/java/site/ownw/download/Downloader.java:70-88 | the chunk sizes add up to `total` for one thread and to `total + 1` for more |
| Chunking.Serve | src/main/java/site/ownw/download/Downloader.java:76-78 | a server sends partial content exactly for a well-formed, satisfiable request, and what it sends lies inside both the request and the file |
| Chunking.RequestsSatisfiable | src/main/java/site/ownw/download/Downloader.java:73-88 | when `total >= n`, every chunk's request is well formed and starts before the end of the file |
| Chunking.SmallFileRequestRejected | src/main/java/site/ownw/download/Downloader.java:73-88 | when `total < n`, chunk 0 requests `[0,-1]` and gets no partial content; for an empty file no chunk does |
| Chunking.ServeChangesOnlyLast | src/main/java/site/ownw/download/Downloader.java:76-80 | when `total >= n`, every range but the last is served as requested, and the last is served as `[(n-1)*blockSize, total-1]` |
| Chunking.ServedOffsets | src/main/java/site/ownw/download/Downloader.java:70-88 | when `total >= n`, an offset is served to some chunk iff it lies in `[0, total-1]` |
| Chunking.ServedBytes | src/main/java/site/ownw/download/Downloader.java:70-88 | when `total >= n`, each request is served as its entry of the served list, and the served sizes add up to exactly `total` |
| Chunking.BoundsFitInLong | src/main/java/site/ownw/download/Downloader.java:73-80 | for any non-negative `long` length and any `int` thread count, the `int` sum `i + 1` is at most `threadNumber`, and the products `i*blockSize` and `(i+1)*blockSize` and every range bound lie in `[-1, total]`, within the `long` range; nothing wraps |
| Chunking.EvenSplitExample | src/main/java/site/ownw/download/Downloader.java:73-88 | 1000 bytes on 4 threads give `[0,249],[250,499],[500,749],[750,1000]` |
| Chunking.UnevenSplitExample | src/main/java/site/ownw/download/Downloader.java:73-88 | 1001 bytes on 3 threads give `[0,332],[333,665],[666,1001]` |
| Chunking.Spawned | src/main/java/site/ownw/download/Downloader.java:74-86 | the loop creates `n - i` tasks for chunks `i .. n-1`, in increasing chunk order, each with its chunk's range |
| Chunking.Plan | src/main/java/site/ownw/download/Downloader.java:74-90 | exactly `n` tasks; positions `0 .. n-2` hold chunks `1 .. n-1` and the last position holds chunk 0; every chunk index below `n` appears exactly once, each with its own range |
| Aggregation.Errors | src/main/java/site/ownw/download/Downloader.java:94 | the error list is empty iff no report carries an error, and is never longer than the reports |
| Aggregation.ErrorsExactly | src/main/java/site/ownw/download/Downloader.java:94 | every failed report's string is in the error list, and every listed string comes from a report |
| Aggregation.ErrorsAppend | src/main/java/site/ownw/download/Downloader.java:94 | filtering keeps report order: the errors of two report lists, one after the other, are the errors of their concatenation |
| Aggregation.Join | src/main/java/site/ownw/download/Downloader.java:96-99 | the message is as long as the errors plus one separator per gap, and begins with the first error |
| Aggregation.JoinCons | src/main/java/site/ownw/download/Downloader.java:96-99 | the left-to-right builder equals the first error, a separator, and the join of the rest |
| Aggregation.SplitJoin | src/main/java/site/ownw/download/Downloader.java:96-100 | for errors without commas, splitting the message at "," gives back the errors in order |
| Aggregation.JoinPlacesEach | src/main/java/site/ownw/download/Downloader.java:96-99 | error `k` occurs in the message right after the preceding errors and their separators; for the last error this is the end of the message, so no separator trails it |
| Aggregation.Aggregate | src/main/java/site/ownw/download/Downloader.java:94-103 | the verdict is success iff no report carries an error |
| Aggregation.MessageListsEveryError | src/main/java/site/ownw/download/Downloader.java:94-100 | every failed report's string occurs in the failure message, and for comma-free errors the message splits back into exactly the errors |
| Aggregation.DoneReports | src/main/java/site/ownw/download/Downloader.java:92-93 | the done list is as long as the task list iff every task is done, and is then the reports in task order |
| Aggregation.Poll | src/main/java/site/ownw/download/Downloader.java:91-105 | the loop keeps waiting iff some task is still running; once it decides, the verdict is over all reports in task-list order |
| Download.Settle | src/main/java/site/ownw/download/Downloader.java:91-106 | with every task finished, the file is returned iff no report carries an error; otherwise the exception carries the errors joined by "," |
| Download.Download | src/main/java/site/ownw/download/Downloader.java:48-106 | a non-200 probe throws with its status before the file is sized or any task exists; otherwise the file is sized to the content length, the tasks are the plan, the file is returned iff no task fails, and a failure carries the joined errors |
| Download.MessageInTaskOrder | src/main/java/site/ownw/download/Downloader.java:84-100 | the aggregated errors are those of chunks `1 .. n-1` in order, followed by chunk 0's |
| Download.ChunkZeroErrorLast | src/main/java/site/ownw/download/Downloader.java:84-100 | with two threads where chunk 0 fails with "a" and chunk 1 with "b", the message is "b,a" |
| Download.FailureKeepsEveryError | src/main/java/site/ownw/download/Downloader.java:94-100 | a failed download's message holds the error of every failed task |
| Download.SingleThreadDownload | src/main/java/site/ownw/download/Downloader.java:73-90 | with one thread there is one task, chunk 0 for `[0, total-1]`, and the download succeeds iff it does |

## Left out

- HTTP: opening the connection, the GET request, `getResponseCode` and `getContentLengthLong` are foreign calls. The probe's answer is the `Probe` parameter.
- A missing content length (`getContentLengthLong` returns -1) is not modelled. `Probe.contentLength` is a natural number.
- URL parsing (`new URL(url)` and its `MalformedURLException`) is foreign. Its outcome is the `parsed` parameter of `Download.NewWithPath`.
- File handling is filesystem I/O: resolving the save path, naming and creating the temporary file, `RandomAccessFile.setLength` and its `IOException`s. The model records only which file is used (`SaveFile`) and the length it is sized to (`Run.sizedTo`).
- `DownloadFuture` is not part of this model. Its connection, range request, streaming and positioned writes are I/O and concurrency. Each task's result is the `worker` parameter.
- Threads: which chunk runs on the calling thread and which are started, and the busy-spin's memory visibility. Only the task order and the loop's decision on one snapshot (`Aggregation.Poll`) are modelled.
- Download.Download: assumes every task eventually finishes. A task that never finishes makes the source spin forever, and the model does not represent that.
- Connection-error message: the `IllegalStateException` message is kept as the status code. The prefix "连接异常,状态码:" and the decimal rendering of the code are not modelled.
- Chunking.ServedOffsets, Chunking.ServedBytes: the served ranges partition the file only when `total >= n`. For `total < n` the code sends the malformed range `[0,-1]` (and, for an empty file, the unsatisfiable `[0,0]`), and the server's answer (416 or the whole body) depends on `DownloadFuture`, which is not part of this model. `Chunking.SmallFileRequestRejected` records the rejection.
- Logging (`@Slf4j`) has no effect on the outcome.
- Java `long` overflow: integers are unbounded. `Chunking.BoundsFitInLong` shows that no computed value leaves `[-1, total]` for any non-negative length a `long` can hold.
