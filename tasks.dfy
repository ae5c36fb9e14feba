/**
 * The download task record kept by the backend, the request that creates
 * it, and the status view returned by every endpoint.
 */
module Tasks {
  import opened Wrappers

  /** The values the backend ever stores in `Task.status`. */
  datatype Status = Pending | Downloading | Paused | Canceled | Completed | Error
  {
    /** The string the API reports. */
    function Name(): (r: string)
      ensures |r| >= 5
    {
      match this
      case Pending => "pending"
      case Downloading => "downloading"
      case Paused => "paused"
      case Canceled => "canceled"
      case Completed => "completed"
      case Error => "error"
    }

    /** Pending and downloading tasks take one of the admission slots. */
    predicate IsActive()
    {
      this == Pending || this == Downloading
    }
  }

  /** Two different statuses never report the same string. */
  lemma StatusNameInjective(a: Status, b: Status)
    ensures a.Name() == b.Name() <==> a == b
  {
    if a != b {
      assert a.Name()[0] != b.Name()[0] || a.Name()[1] != b.Name()[1];
    }
  }

  /** The control flag `""`, `"pause"` or `"cancel"` a worker polls. */
  datatype Control = NoControl | PauseRequested | CancelRequested

  datatype StartRequest = StartRequest(url: string, category: string, fmt: string, quality: string)

  /** One download task. Progress and speed are Python floats, kept here as
      exact reals; the lock and the worker thread are not modelled. */
  datatype Task = Task(
    id: string,
    url: string,
    category: string,
    fmt: string,
    quality: string,
    status: Status,
    progress: real,
    title: Option<string>,
    filename: Option<string>,
    filepath: Option<string>,
    message: Option<string>,
    control: Control,
    speed: Option<real>,
    eta: Option<nat>,
    downloadedAt: Option<string>,
    downloadUrl: Option<string>)

  /** The JSON body returned for a task. */
  datatype TaskStatus = TaskStatus(
    id: string,
    url: string,
    title: Option<string>,
    filename: Option<string>,
    status: string,
    progress: real,
    fmt: Option<string>,
    quality: Option<string>,
    filepath: Option<string>,
    message: Option<string>,
    speed: Option<real>,
    eta: Option<nat>,
    downloadedAt: Option<string>,
    downloadUrl: Option<string>)

  /** The public path under which finished files are served. */
  const DownloadsPrefix: string := "/downloads/"

  /** A file name Python treats as present: set and non-empty. */
  predicate Known(f: Option<string>)
  {
    f.Some? && f.value != []
  }

  /** What every operation on a task keeps: progress is a fraction, the file
      name is a bare name, and the download url always points at it. */
  predicate Sound(t: Task)
  {
    && 0.0 <= t.progress <= 1.0
    && (t.filename.None? ==> t.downloadUrl.None?)
    && (t.filename.Some? ==> '/' !in t.filename.value && t.downloadUrl == Some(DownloadsPrefix + t.filename.value))
  }

  /** A fresh task for request `req` under id `tid`. */
  function NewTask(tid: string, req: StartRequest): (t: Task)
    ensures t.id == tid && t.url == req.url && t.category == req.category
    ensures t.fmt == req.fmt && t.quality == req.quality
    ensures t.status == Pending && t.progress == 0.0 && t.control == NoControl
    ensures t.title.None? && t.filename.None? && t.filepath.None? && t.message.None?
    ensures t.speed.None? && t.eta.None? && t.downloadedAt.None? && t.downloadUrl.None?
    ensures Sound(t)
  {
    Task(tid, req.url, req.category, req.fmt, req.quality, Pending, 0.0,
         None, None, None, None, NoControl, None, None, None, None)
  }

  /** The status view of a task: every field but the category and the control
      flag, with the status by its API name. */
  function ToStatus(t: Task): (r: TaskStatus)
    ensures r.id == t.id && r.url == t.url && r.status == t.status.Name()
    ensures r.fmt == Some(t.fmt) && r.quality == Some(t.quality)
    ensures r.progress == t.progress && r.filename == t.filename && r.downloadUrl == t.downloadUrl
    ensures r.title == t.title && r.filepath == t.filepath && r.message == t.message
    ensures r.speed == t.speed && r.eta == t.eta && r.downloadedAt == t.downloadedAt
  {
    TaskStatus(t.id, t.url, t.title, t.filename, t.status.Name(), t.progress,
               Some(t.fmt), Some(t.quality), t.filepath, t.message, t.speed, t.eta,
               t.downloadedAt, t.downloadUrl)
  }
}
