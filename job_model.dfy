/**
  The data model of the job table kept by the downloader: one row per job,
  the candidates a search returns, the outcome of a fetch and the events the
  worker emits to its observers.
 */
module JobModel {

  datatype Option<T> = None | Some(value: T)

  /** The status column of a job row. */
  datatype Status = Pending | Waiting | Queued | Running | Done | Failed | Cancelled | Active

  /**
    One row of the `jobs` table. A NULL `min_length`/`max_length` is written 0
    and a NULL `folder_name` is written "", the values the worker treats alike.
   */
  datatype Job = Job(
    query: string,
    language: string,
    isSeries: bool,
    alwaysSeries: bool,
    minLength: int,
    maxLength: int,
    folderName: string,
    status: Status,
    ytId: Option<string>,
    parentId: Option<int>)

  /** One search result: its item id and its duration in seconds, either of which may be missing. */
  datatype Candidate = Candidate(id: Option<string>, duration: Option<int>)

  /** The arguments of one call to the search adapter. */
  datatype SearchQuery = SearchQuery(query: string, language: string, limit: int)

  /** The arguments of one fetch: the watch URL and the destination folder under the download root. */
  datatype FetchRequest = FetchRequest(url: string, folder: string)

  /**
    How a fetch ended: the progress reports the fetcher passed to the progress
    hook, then either completion or the text of the exception it raised.
   */
  datatype FetchOutcome =
    | Fetched(progress: seq<string>)
    | FetchFailed(progress: seq<string>, error: string)

  /** Events sent to the event sink, by event name: "log", "download_progress" and the two kinds of "job_updated". */
  datatype Event =
    | Log(level: string, msg: string)
    | DownloadProgress(report: string)
    | JobDone(jobId: int)
    | JobFailed(jobId: int, error: string)

  /** The job table, the next row id the store hands out, and the events emitted so far. */
  datatype State = State(jobs: map<int, Job>, nextId: int, log: seq<Event>)

  /** Search results per call depend only on the call's arguments. */
  type Search = SearchQuery -> seq<Candidate>

  /** Fetch outcomes per call depend only on the call's arguments. */
  type Fetch = FetchRequest -> FetchOutcome

  /** Some row of the table already holds item id `y`. */
  predicate HasYtId(jobs: map<int, Job>, y: string)
  {
    exists k :: k in jobs && jobs[k].ytId == Some(y)
  }

  /** No two rows share a non-null item id (the store's uniqueness constraint). */
  predicate UniqueYtIds(jobs: map<int, Job>)
  {
    forall a, b :: a in jobs && b in jobs && a != b && jobs[a].ytId.Some? ==> jobs[a].ytId != jobs[b].ytId
  }

  /** Row ids are positive and all below the next id the store hands out, which is positive too. */
  predicate IdsBelowNext(s: State)
  {
    0 < s.nextId && forall k :: k in s.jobs ==> 0 < k < s.nextId
  }

  /** The invariant every operation of the worker keeps. */
  predicate Wf(s: State)
  {
    UniqueYtIds(s.jobs) && IdsBelowNext(s)
  }

  /** The status changes the worker itself makes; `Cancelled` is only ever set from outside. */
  predicate Transition(from: Status, to: Status)
  {
    match from
    case Pending => to == Waiting || to == Queued || to == Active
    case Queued => to == Running
    case Running => to == Done || to == Failed
    case _ => false
  }

  /**
    Every row of `s` is still in `s'`; its status is kept or takes one
    transition; its item id is only ever filled in where it was NULL; and no
    other field changes.
   */
  predicate FollowsGraph(s: State, s': State)
  {
    forall k :: k in s.jobs ==>
      k in s'.jobs &&
      s'.jobs[k] == s.jobs[k].(status := s'.jobs[k].status, ytId := s'.jobs[k].ytId) &&
      (s'.jobs[k].status == s.jobs[k].status || Transition(s.jobs[k].status, s'.jobs[k].status)) &&
      (s'.jobs[k].ytId == s.jobs[k].ytId || s.jobs[k].ytId.None?)
  }

  /** A step that rewrites only row `id`, by one transition and at most filling in its item id, follows the graph. */
  lemma OneRowFollowsGraph(s: State, s': State, id: int)
    requires s.jobs.Keys <= s'.jobs.Keys && id in s.jobs
    requires forall k :: k in s.jobs && k != id ==> s'.jobs[k] == s.jobs[k]
    requires s'.jobs[id] == s.jobs[id].(status := s'.jobs[id].status, ytId := s'.jobs[id].ytId)
    requires Transition(s.jobs[id].status, s'.jobs[id].status)
    requires s'.jobs[id].ytId == s.jobs[id].ytId || s.jobs[id].ytId.None?
    ensures FollowsGraph(s, s')
  {
  }
}
