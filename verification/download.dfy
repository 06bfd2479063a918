/** `Downloader`: its two constructors and the decision logic of `download()`
    — the probe check, the pre-sizing of the file, the task plan and the
    aggregation of the task reports. Connections, files and threads are
    outside the model: the probe's answer and each task's report come in as
    parameters. */
module Download {
  import opened Results
  import opened Chunking
  import opened Aggregation

  /** A parsed URL. Parsing a string into one is outside the model. */
  type Url = string

  /** Message of the `IllegalArgumentException` for a thread count below 1
      ("the number of download threads cannot be less than 1"). */
  const ThreadCountMessage: string := "下载线程数不能小于1"

  /** The only probe status the download accepts (HTTP 200 OK). */
  const HttpOk: int := 200

  /** The exceptions the constructors and `download()` throw. */
  datatype Error =
    | IllegalArgument(message: string)  // thread count below 1
    | MalformedUrl                      // the URL string does not parse
    | ConnectionFailed(status: int)     // probe answered other than 200; the message reads "连接异常,状态码:" then the status
    | DownloadFailed(message: string)   // the joined error strings of the failed tasks

  /** A configured downloader. Every value the constructors return has
      `threadNumber >= 1`. */
  datatype Downloader = Downloader(url: Url, threadNumber: int, savePath: Option<string>)

  /** `Downloader(String url, String savePath, int threadNumber)`. `parsed` is
      what parsing `url` yields (`None` when it is malformed). The thread count
      is checked before the URL is parsed. */
  function NewWithPath(parsed: Option<Url>, savePath: Option<string>, threadNumber: int): (r: Result<Downloader, Error>)
    ensures r.Ok? <==> threadNumber >= 1 && parsed.Some?
    ensures threadNumber < 1 ==> r == Err(IllegalArgument(ThreadCountMessage))
    ensures threadNumber >= 1 && parsed.None? ==> r == Err(MalformedUrl)
    ensures r.Ok? ==> r.value.threadNumber >= 1
    ensures r.Ok? ==> r.value == Downloader(parsed.value, threadNumber, savePath)
  {
    if threadNumber < 1 then Err(IllegalArgument(ThreadCountMessage))
    else
      match parsed
      case None => Err(MalformedUrl)
      case Some(u) => Ok(Downloader(u, threadNumber, savePath))
  }

  /** `Downloader(URL url, int threadNumber)`: no save path, so a temporary
      file is used. */
  function NewForUrl(url: Url, threadNumber: int): (r: Result<Downloader, Error>)
    ensures r.Ok? <==> threadNumber >= 1
    ensures r.Err? ==> r.error == IllegalArgument(ThreadCountMessage)
    ensures r.Ok? ==> r.value.threadNumber >= 1
    ensures r.Ok? ==> r.value == Downloader(url, threadNumber, None)
  {
    if threadNumber < 1 then Err(IllegalArgument(ThreadCountMessage))
    else Ok(Downloader(url, threadNumber, None))
  }

  /** Both constructors accept and reject the same thread counts, and for a
      well-formed URL without a save path they build the same downloader. */
  lemma ConstructorsAgree(url: Url, savePath: Option<string>, threadNumber: int)
    ensures NewWithPath(Some(url), savePath, threadNumber).Ok? == NewForUrl(url, threadNumber).Ok?
    ensures NewWithPath(Some(url), None, threadNumber) == NewForUrl(url, threadNumber)
  {
  }

  /** What the probe request answered: its status and the content length. */
  datatype Probe = Probe(status: int, contentLength: nat)

  /** The file a download writes into and returns. */
  datatype SaveFile = AtPath(path: string) | TempFile

  /** The observable effects of one `download()` call: the length the file
      was sized to (none if it never was), the tasks created in creation
      order, and the file returned or the exception thrown. */
  datatype Run = Run(sizedTo: Option<nat>, tasks: seq<Task>, result: Result<SaveFile, Error>)

  /** The save path when one was given, otherwise a fresh temporary file. */
  function SaveFileOf(d: Downloader): (f: SaveFile)
    ensures f.AtPath? <==> d.savePath.Some?
    ensures f.AtPath? ==> f.path == d.savePath.value
  {
    match d.savePath
    case Some(p) => AtPath(p)
    case None => TempFile
  }

  /** The report each task ends with, in task-list order. */
  function Reports(tasks: seq<Task>, worker: Task -> Option<string>): seq<Option<string>> {
    seq(|tasks|, k requires 0 <= k < |tasks| => worker(tasks[k]))
  }

  /** The snapshot the polling loop sees once every task has finished. */
  function Finished(reports: seq<Option<string>>): seq<TaskState> {
    seq(|reports|, k requires 0 <= k < |reports| => Done(reports[k]))
  }

  /** The end of the polling loop once every task has finished: return the
      file when no report carries an error, otherwise throw the joined errors. */
  function Settle(reports: seq<Option<string>>, file: SaveFile): (r: Result<SaveFile, Error>)
    ensures r.Ok? <==> forall k :: 0 <= k < |reports| ==> reports[k].None?
    ensures r.Ok? ==> r.value == file
    ensures r.Err? ==> r.error == DownloadFailed(Join(Errors(reports)))
  {
    var snapshot := Finished(reports);
    assert seq(|snapshot|, k requires 0 <= k < |snapshot| => snapshot[k].error) == reports;
    match Poll(snapshot)
    case KeepWaiting => assert false; Err(DownloadFailed(""))
    case Decided(AllSucceeded) => Ok(file)
    case Decided(Failed(message)) => Err(DownloadFailed(message))
  }

  /** `download()`. `worker` stands for the tasks' transfers: the error string
      a task ends with, or `None` when it succeeds. A non-200 probe fails
      before the file is sized or any task exists; otherwise the file is sized
      to the content length, the planned tasks all run, and the polling loop
      decides on their reports. */
  function Download(d: Downloader, probe: Probe, worker: Task -> Option<string>): (run: Run)
    requires d.threadNumber >= 1
    ensures probe.status != HttpOk ==> run == Run(None, [], Err(ConnectionFailed(probe.status)))
    ensures probe.status == HttpOk ==>
      run.sizedTo == Some(probe.contentLength) && run.tasks == Plan(probe.contentLength, d.threadNumber)
    ensures run.result.Ok? <==>
      probe.status == HttpOk && forall k :: 0 <= k < |run.tasks| ==> worker(run.tasks[k]).None?
    ensures run.result.Ok? ==> run.result.value == SaveFileOf(d)
    ensures probe.status == HttpOk && run.result.Err? ==>
      Errors(Reports(run.tasks, worker)) != [] &&
      run.result.error == DownloadFailed(Join(Errors(Reports(run.tasks, worker))))
  {
    if probe.status != HttpOk then Run(None, [], Err(ConnectionFailed(probe.status)))
    else
      var total := probe.contentLength;
      var tasks := Plan(total, d.threadNumber);
      var reports := Reports(tasks, worker);
      assert forall k :: 0 <= k < |tasks| ==> reports[k] == worker(tasks[k]);
      Run(Some(total), tasks, Settle(reports, SaveFileOf(d)))
  }

  /** The failure message lists the errors in task-list order: those of the
      spawned chunks 1 .. n-1 first, chunk 0's last. */
  lemma MessageInTaskOrder(d: Downloader, probe: Probe, worker: Task -> Option<string>)
    requires d.threadNumber >= 1 && probe.status == HttpOk
    ensures var total := probe.contentLength;
      Errors(Reports(Download(d, probe, worker).tasks, worker)) ==
        Errors(Reports(Spawned(total, d.threadNumber, 1), worker)) +
        Errors([worker(Task(0, ChunkAt(total, d.threadNumber, 0)))])
  {
    var total := probe.contentLength;
    var spawned := Spawned(total, d.threadNumber, 1);
    var last := Task(0, ChunkAt(total, d.threadNumber, 0));
    assert Reports(Plan(total, d.threadNumber), worker) == Reports(spawned, worker) + [worker(last)];
    ErrorsAppend(Reports(spawned, worker), [worker(last)]);
  }

  /** With two threads where both chunks fail, chunk 1's error comes first:
      the message is "b,a", not the chunk-index order "a,b". */
  lemma ChunkZeroErrorLast()
    ensures Download(Downloader("u", 2, None), Probe(HttpOk, 10),
      (t: Task) => if t.chunk == 0 then Some("a") else Some("b")).result == Err(DownloadFailed("b,a"))
  {
    var worker := (t: Task) => if t.chunk == 0 then Some("a") else Some("b");
    var tasks := Plan(10, 2);
    assert tasks[0].chunk == 1 && tasks[1].chunk == 0;
    var reports := Reports(tasks, worker);
    assert reports == [Some("b"), Some("a")];
    assert Errors(reports) == ["b", "a"] by {
      assert reports[1..] == [Some("a")];
      assert reports[1..][1..] == [];
    }
    assert Join(["b", "a"]) == "b,a" by {
      assert ["b", "a"][..1] == ["b"];
    }
  }

  /** A failed download's message holds the error of every failed task. */
  lemma FailureKeepsEveryError(d: Downloader, probe: Probe, worker: Task -> Option<string>)
    requires d.threadNumber >= 1 && probe.status == HttpOk
    ensures var run := Download(d, probe, worker);
      run.result.Err? ==>
        forall k :: 0 <= k < |run.tasks| && worker(run.tasks[k]).Some? ==>
          exists i :: OccursAt(worker(run.tasks[k]).value, run.result.error.message, i)
  {
    var run := Download(d, probe, worker);
    var reports := Reports(run.tasks, worker);
    if run.result.Err? {
      assert Aggregate(reports).Failed?;
      MessageListsEveryError(reports);
      forall k | 0 <= k < |run.tasks| && worker(run.tasks[k]).Some?
        ensures exists i :: OccursAt(worker(run.tasks[k]).value, run.result.error.message, i)
      {
        assert reports[k] == worker(run.tasks[k]);
      }
    }
  }

  /** With one thread the download is a single task for the whole file,
      `[0, total-1]`, run on the calling thread. */
  lemma SingleThreadDownload(url: Url, savePath: Option<string>, probe: Probe, worker: Task -> Option<string>)
    requires probe.status == HttpOk
    ensures var run := Download(Downloader(url, 1, savePath), probe, worker);
      run.tasks == [Task(0, ChunkRange(0, probe.contentLength - 1))] &&
      (run.result.Ok? <==> worker(Task(0, ChunkRange(0, probe.contentLength - 1))).None?)
  {
    var run := Download(Downloader(url, 1, savePath), probe, worker);
    assert run.tasks[0] == Task(0, ChunkRange(0, probe.contentLength - 1));
  }
}
