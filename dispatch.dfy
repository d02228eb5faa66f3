/**
  The dispatch pass of the worker's cycle: the rows that are queued when the
  pass starts are fetched one by one in id order. Each is marked running,
  fetched, and marked failed or done, with one `job_updated` event at the
  end; the fetcher's progress reports are forwarded as they come.
 */
module Dispatch {
  import opened JobModel
  import opened JobStore

  /** The watch URL the fetcher is given, before the item id. */
  const WatchUrlPrefix := "https://www.youtube.com/watch?v="

  /** The folder used when a row has no folder name. */
  const DefaultFolder := "misc"

  /** The watch URL of an item id; a NULL item id is formatted as the text "None". */
  function WatchUrl(ytId: Option<string>): (url: string)
    ensures |WatchUrlPrefix| <= |url| && url[..|WatchUrlPrefix|] == WatchUrlPrefix
    ensures ytId.Some? ==> url[|WatchUrlPrefix|..] == ytId.value
  {
    WatchUrlPrefix + (if ytId.Some? then ytId.value else "None")
  }

  /** Distinct item ids give distinct watch URLs. */
  lemma WatchUrlInjective(a: string, b: string)
    requires WatchUrl(Some(a)) == WatchUrl(Some(b))
    ensures a == b
  {
  }

  /** The destination folder: the row's folder name, or the default one when it has none. */
  function DestFolder(folderName: string): (folder: string)
    ensures folder != ""
    ensures folderName != "" ==> folder == folderName
  {
    if folderName != "" then folderName else DefaultFolder
  }

  /** The columns the dispatch pass reads for each queued row. */
  datatype QueuedRow = QueuedRow(id: int, ytId: Option<string>, folderName: string)

  predicate IsQueued(j: Job)
  {
    j.status == Queued
  }

  /** The queued rows, ascending by id, as the pass reads them when it starts. */
  function QueuedRows(s: State): (rows: seq<QueuedRow>)
    ensures forall i :: 0 <= i < |rows| ==>
      && rows[i].id in s.jobs && s.jobs[rows[i].id].status == Queued
      && rows[i].ytId == s.jobs[rows[i].id].ytId && rows[i].folderName == s.jobs[rows[i].id].folderName
    ensures forall i, j :: 0 <= i < j < |rows| ==> rows[i].id < rows[j].id
    ensures IdsBelowNext(s) ==> forall k :: k in s.jobs && s.jobs[k].status == Queued ==>
      exists i :: 0 <= i < |rows| && rows[i].id == k
  {
    var ids := Select(s, IsQueued);
    var rows := seq(|ids|, i requires 0 <= i < |ids| => QueuedRow(ids[i], s.jobs[ids[i]].ytId, s.jobs[ids[i]].folderName));
    assert forall k :: k in ids ==> exists i :: 0 <= i < |ids| && ids[i] == k && rows[i].id == k;
    rows
  }

  /** The ids of `rows`, in order. */
  function RowIds(rows: seq<QueuedRow>): (ids: seq<int>)
    ensures |ids| == |rows| && forall i :: 0 <= i < |rows| ==> ids[i] == rows[i].id
  {
    seq(|rows|, i requires 0 <= i < |rows| => rows[i].id)
  }

  /** The fetch made for a row: its watch URL and its destination folder. */
  function RequestFor(row: QueuedRow): FetchRequest
  {
    FetchRequest(WatchUrl(row.ytId), DestFolder(row.folderName))
  }

  /** One `download_progress` event per progress report, in order. */
  function ProgressEvents(reports: seq<string>): seq<Event>
  {
    if reports == [] then [] else [DownloadProgress(reports[0])] + ProgressEvents(reports[1..])
  }

  /** Events reach the log only when an event sink is attached. */
  function Emit(s: State, sink: bool, evs: seq<Event>): State
  {
    if sink then s.(log := s.log + evs) else s
  }

  /** The status a fetch leaves its row in. */
  function FinalStatus(o: FetchOutcome): Status
  {
    if o.FetchFailed? then Failed else Done
  }

  /** The `job_updated` event a fetch ends with. */
  function UpdateEvent(id: int, o: FetchOutcome): (e: Event)
    ensures (e.JobDone? || e.JobFailed?) && e.jobId == id
    ensures e.JobFailed? <==> o.FetchFailed?
  {
    match o
    case Fetched(_) => JobDone(id)
    case FetchFailed(_, error) => JobFailed(id, error)
  }

  /** The first write of a download: the row becomes running. */
  function MarkRunning(s: State, row: QueuedRow): State
  {
    SetStatus(s, row.id, Running)
  }

  /** The rest of a download once the fetch has ended: its progress events, then the final status, then the `job_updated` event. */
  function Finish(s: State, row: QueuedRow, o: FetchOutcome, sink: bool): State
  {
    Emit(SetStatus(Emit(s, sink, ProgressEvents(o.progress)), row.id, FinalStatus(o)), sink, [UpdateEvent(row.id, o)])
  }

  /** Downloading one queued row. */
  function DownloadOne(s: State, row: QueuedRow, fetch: Fetch, sink: bool): State
  {
    Finish(MarkRunning(s, row), row, fetch(RequestFor(row)), sink)
  }

  /** Downloading `rows` in turn. */
  function DispatchFrom(s: State, rows: seq<QueuedRow>, fetch: Fetch, sink: bool): State
    decreases |rows|
  {
    if rows == [] then s else DispatchFrom(DownloadOne(s, rows[0], fetch, sink), rows[1..], fetch, sink)
  }

  /** The dispatch pass: every row queued at its start, ascending by id. */
  function DispatchPass(s: State, fetch: Fetch, sink: bool): State
  {
    DispatchFrom(s, QueuedRows(s), fetch, sink)
  }

  /** A queued row passes through running: each of the two writes is one transition, and it ends done exactly when the fetch did not raise. */
  lemma DownloadOneSteps(s: State, row: QueuedRow, fetch: Fetch, sink: bool)
    requires row.id in s.jobs && s.jobs[row.id].status == Queued
    ensures var mid := MarkRunning(s, row); var r := DownloadOne(s, row, fetch, sink);
      && mid.jobs[row.id].status == Running && FollowsGraph(s, mid)
      && FollowsGraph(mid, r)
      && (r.jobs[row.id].status == Done <==> fetch(RequestFor(row)).Fetched?)
      && (r.jobs[row.id].status == Failed <==> fetch(RequestFor(row)).FetchFailed?)
  {
  }

  /** A `job_updated` event about row `id`. */
  predicate IsUpdateAbout(e: Event, id: int)
  {
    (e.JobDone? || e.JobFailed?) && e.jobId == id
  }

  /** The `job_updated` events about row `id` in `log`, in order. */
  function UpdatesAbout(log: seq<Event>, id: int): seq<Event>
  {
    if log == [] then [] else (if IsUpdateAbout(log[0], id) then [log[0]] else []) + UpdatesAbout(log[1..], id)
  }

  lemma {:induction false} UpdatesAboutConcat(a: seq<Event>, b: seq<Event>, id: int)
    ensures UpdatesAbout(a + b, id) == UpdatesAbout(a, id) + UpdatesAbout(b, id)
  {
    if a == [] {
      assert a + b == b;
    } else {
      assert (a + b)[0] == a[0] && (a + b)[1..] == a[1..] + b;
      UpdatesAboutConcat(a[1..], b, id);
    }
  }

  lemma {:induction false} ProgressHasNoUpdates(reports: seq<string>, id: int)
    ensures UpdatesAbout(ProgressEvents(reports), id) == []
  {
    if reports != [] {
      ProgressHasNoUpdates(reports[1..], id);
      UpdatesAboutConcat([DownloadProgress(reports[0])], ProgressEvents(reports[1..]), id);
    }
  }

  /** One download adds exactly one `job_updated` event about its row, when a sink is attached, and none about any other row. */
  lemma DownloadOneEvents(s: State, row: QueuedRow, fetch: Fetch, sink: bool, id: int)
    ensures var r := DownloadOne(s, row, fetch, sink);
      && s.log <= r.log
      && UpdatesAbout(r.log, id) == UpdatesAbout(s.log, id) +
           (if sink && id == row.id then [UpdateEvent(row.id, fetch(RequestFor(row)))] else [])
  {
    var o := fetch(RequestFor(row));
    var r := DownloadOne(s, row, fetch, sink);
    if sink {
      var progress := ProgressEvents(o.progress);
      assert r.log == s.log + (progress + [UpdateEvent(row.id, o)]);
      UpdatesAboutConcat(s.log, progress + [UpdateEvent(row.id, o)], id);
      UpdatesAboutConcat(progress, [UpdateEvent(row.id, o)], id);
      ProgressHasNoUpdates(o.progress, id);
      assert UpdatesAbout([UpdateEvent(row.id, o)], id) == if id == row.id then [UpdateEvent(row.id, o)] else [];
    } else {
      assert r.log == s.log + [];
    }
  }

  /** With distinct row ids, each row ends in the status its fetch decides, every other row is unchanged, and no row is added. */
  lemma {:induction false} DispatchFromTable(s: State, rows: seq<QueuedRow>, fetch: Fetch, sink: bool)
    requires Distinct(RowIds(rows))
    ensures var r := DispatchFrom(s, rows, fetch, sink);
      && r.jobs.Keys == s.jobs.Keys && r.nextId == s.nextId
      && (forall k :: k in s.jobs && k !in RowIds(rows) ==> r.jobs[k] == s.jobs[k])
      && (forall i :: 0 <= i < |rows| && rows[i].id in s.jobs ==>
            r.jobs[rows[i].id] == s.jobs[rows[i].id].(status := FinalStatus(fetch(RequestFor(rows[i])))))
    decreases |rows|
  {
    if rows != [] {
      var row := rows[0];
      var s1 := DownloadOne(s, row, fetch, sink);
      var r := DispatchFrom(s1, rows[1..], fetch, sink);
      DistinctTail(RowIds(rows));
      assert RowIds(rows)[1..] == RowIds(rows[1..]);
      DispatchFromTable(s1, rows[1..], fetch, sink);
      forall k | k in s.jobs && k !in RowIds(rows)
        ensures r.jobs[k] == s.jobs[k]
      {
        assert k != row.id && k !in RowIds(rows[1..]);
      }
      forall i | 0 <= i < |rows| && rows[i].id in s.jobs
        ensures r.jobs[rows[i].id] == s.jobs[rows[i].id].(status := FinalStatus(fetch(RequestFor(rows[i]))))
      {
        if i > 0 {
          assert rows[i] == rows[1..][i - 1];
          assert rows[i].id != row.id by { assert RowIds(rows)[i] != RowIds(rows)[0]; }
        } else {
          assert row.id !in RowIds(rows[1..]);
        }
      }
    }
  }

  /**
    With distinct row ids, the log only grows, gains exactly one
    `job_updated` event about each row when a sink is attached, and none
    about any other row.
   */
  lemma {:induction false} DispatchFromEvents(s: State, rows: seq<QueuedRow>, fetch: Fetch, sink: bool)
    requires Distinct(RowIds(rows))
    ensures var r := DispatchFrom(s, rows, fetch, sink);
      && s.log <= r.log
      && (forall k :: k !in RowIds(rows) ==> UpdatesAbout(r.log, k) == UpdatesAbout(s.log, k))
      && (forall i :: 0 <= i < |rows| ==>
            UpdatesAbout(r.log, rows[i].id) == UpdatesAbout(s.log, rows[i].id) +
              (if sink then [UpdateEvent(rows[i].id, fetch(RequestFor(rows[i])))] else []))
    decreases |rows|
  {
    if rows != [] {
      var row := rows[0];
      var s1 := DownloadOne(s, row, fetch, sink);
      var r := DispatchFrom(s1, rows[1..], fetch, sink);
      DistinctTail(RowIds(rows));
      assert RowIds(rows)[1..] == RowIds(rows[1..]);
      DispatchFromEvents(s1, rows[1..], fetch, sink);
      DownloadOneEvents(s, row, fetch, sink, row.id);
      forall k | k !in RowIds(rows)
        ensures UpdatesAbout(r.log, k) == UpdatesAbout(s.log, k)
      {
        DownloadOneEvents(s, row, fetch, sink, k);
        assert k != row.id && k !in RowIds(rows[1..]);
      }
      forall i | 0 <= i < |rows|
        ensures UpdatesAbout(r.log, rows[i].id) == UpdatesAbout(s.log, rows[i].id) +
              (if sink then [UpdateEvent(rows[i].id, fetch(RequestFor(rows[i])))] else [])
      {
        DownloadOneEvents(s, row, fetch, sink, rows[i].id);
        if i > 0 {
          assert rows[i] == rows[1..][i - 1];
          assert rows[i].id != row.id by { assert RowIds(rows)[i] != RowIds(rows)[0]; }
        } else {
          assert row.id !in RowIds(rows[1..]);
        }
      }
    }
  }

  /**
    The dispatch pass on the table: every row queued at its start ends done
    or failed as its fetch decides, and no other field of it changes; every
    other row is unchanged; no row is added; item ids stay unique.
   */
  lemma DispatchPassTable(s: State, fetch: Fetch, sink: bool)
    requires Wf(s)
    ensures var r := DispatchPass(s, fetch, sink);
      && Wf(r) && r.jobs.Keys == s.jobs.Keys && r.nextId == s.nextId
      && (forall k :: k in s.jobs && s.jobs[k].status != Queued ==> r.jobs[k] == s.jobs[k])
      && (forall k :: k in s.jobs && s.jobs[k].status == Queued ==>
            r.jobs[k] == s.jobs[k].(status := FinalStatus(fetch(FetchRequest(WatchUrl(s.jobs[k].ytId), DestFolder(s.jobs[k].folderName))))))
  {
    var r := DispatchPass(s, fetch, sink);
    DispatchPassOthers(s, fetch, sink);
    DispatchPassQueued(s, fetch, sink);
    SameItemIdsKeepWf(s, r);
  }

  /** The dispatch pass adds no row and leaves every row that was not queued at its start unchanged. */
  lemma DispatchPassOthers(s: State, fetch: Fetch, sink: bool)
    requires IdsBelowNext(s)
    ensures var r := DispatchPass(s, fetch, sink);
      && r.jobs.Keys == s.jobs.Keys && r.nextId == s.nextId
      && (forall k :: k in s.jobs && s.jobs[k].status != Queued ==> r.jobs[k] == s.jobs[k])
  {
    var rows := QueuedRows(s);
    assert Distinct(RowIds(rows));
    DispatchFromTable(s, rows, fetch, sink);
    forall k | k in s.jobs && s.jobs[k].status != Queued
      ensures k !in RowIds(rows)
    {
    }
  }

  /** Every row queued at the start of the dispatch pass ends done or failed as the fetch of its watch URL and folder decides, with no other field changed. */
  lemma DispatchPassQueued(s: State, fetch: Fetch, sink: bool)
    requires IdsBelowNext(s)
    ensures var r := DispatchPass(s, fetch, sink);
      forall k :: k in s.jobs && s.jobs[k].status == Queued ==>
        k in r.jobs && r.jobs[k] == s.jobs[k].(status := FinalStatus(fetch(FetchRequest(WatchUrl(s.jobs[k].ytId), DestFolder(s.jobs[k].folderName)))))
  {
    var rows := QueuedRows(s);
    var r := DispatchPass(s, fetch, sink);
    assert Distinct(RowIds(rows));
    DispatchFromTable(s, rows, fetch, sink);
    forall k | k in s.jobs && s.jobs[k].status == Queued
      ensures k in r.jobs && r.jobs[k] == s.jobs[k].(status := FinalStatus(fetch(FetchRequest(WatchUrl(s.jobs[k].ytId), DestFolder(s.jobs[k].folderName)))))
    {
      var i :| 0 <= i < |rows| && rows[i].id == k;
      assert RequestFor(rows[i]) == FetchRequest(WatchUrl(s.jobs[k].ytId), DestFolder(s.jobs[k].folderName));
    }
  }

  /**
    The dispatch pass on the event log: events are only appended; each row
    queued at the start gets exactly one `job_updated` event, "done" or
    "failed" with the fetch's error, when a sink is attached; no other row
    gets one; without a sink nothing is emitted.
   */
  lemma DispatchPassEvents(s: State, fetch: Fetch, sink: bool)
    requires Wf(s)
    ensures var r := DispatchPass(s, fetch, sink);
      && s.log <= r.log
      && (!sink ==> r.log == s.log)
      && (forall k :: !(k in s.jobs && s.jobs[k].status == Queued) ==> UpdatesAbout(r.log, k) == UpdatesAbout(s.log, k))
      && (forall k :: k in s.jobs && s.jobs[k].status == Queued ==>
            UpdatesAbout(r.log, k) == UpdatesAbout(s.log, k) +
              (if sink then [UpdateEvent(k, fetch(FetchRequest(WatchUrl(s.jobs[k].ytId), DestFolder(s.jobs[k].folderName))))] else []))
  {
    DispatchFromFrame(s, QueuedRows(s), fetch, sink);
    if !sink {
      DispatchLogWithoutSink(s, QueuedRows(s), fetch);
    }
    DispatchPassEventsOthers(s, fetch, sink);
    DispatchPassEventsQueued(s, fetch, sink);
  }

  /** The dispatch pass sends no `job_updated` event about a row that was not queued at its start. */
  lemma DispatchPassEventsOthers(s: State, fetch: Fetch, sink: bool)
    requires IdsBelowNext(s)
    ensures var r := DispatchPass(s, fetch, sink);
      forall k :: !(k in s.jobs && s.jobs[k].status == Queued) ==> UpdatesAbout(r.log, k) == UpdatesAbout(s.log, k)
  {
    var rows := QueuedRows(s);
    assert Distinct(RowIds(rows));
    DispatchFromEvents(s, rows, fetch, sink);
    forall k | !(k in s.jobs && s.jobs[k].status == Queued)
      ensures k !in RowIds(rows)
    {
    }
  }

  /** Each row queued at the start of the dispatch pass gets exactly one `job_updated` event, as its fetch decides, when a sink is attached. */
  lemma DispatchPassEventsQueued(s: State, fetch: Fetch, sink: bool)
    requires IdsBelowNext(s)
    ensures var r := DispatchPass(s, fetch, sink);
      forall k :: k in s.jobs && s.jobs[k].status == Queued ==>
        UpdatesAbout(r.log, k) == UpdatesAbout(s.log, k) +
          (if sink then [UpdateEvent(k, fetch(FetchRequest(WatchUrl(s.jobs[k].ytId), DestFolder(s.jobs[k].folderName))))] else [])
  {
    var rows := QueuedRows(s);
    var r := DispatchPass(s, fetch, sink);
    assert Distinct(RowIds(rows));
    DispatchFromEvents(s, rows, fetch, sink);
    forall k | k in s.jobs && s.jobs[k].status == Queued
      ensures UpdatesAbout(r.log, k) == UpdatesAbout(s.log, k) +
              (if sink then [UpdateEvent(k, fetch(FetchRequest(WatchUrl(s.jobs[k].ytId), DestFolder(s.jobs[k].folderName))))] else [])
    {
      var i :| 0 <= i < |rows| && rows[i].id == k;
      assert RequestFor(rows[i]) == FetchRequest(WatchUrl(s.jobs[k].ytId), DestFolder(s.jobs[k].folderName));
    }
  }

  /** Downloads add no row, take none away, and only append to the log. */
  lemma {:induction false} DispatchFromFrame(s: State, rows: seq<QueuedRow>, fetch: Fetch, sink: bool)
    ensures var r := DispatchFrom(s, rows, fetch, sink);
      r.jobs.Keys == s.jobs.Keys && r.nextId == s.nextId && s.log <= r.log
    decreases |rows|
  {
    if rows != [] {
      DownloadOneEvents(s, rows[0], fetch, sink, rows[0].id);
      DispatchFromFrame(DownloadOne(s, rows[0], fetch, sink), rows[1..], fetch, sink);
    }
  }

  /** Without a sink the pass emits nothing. */
  lemma {:induction false} DispatchLogWithoutSink(s: State, rows: seq<QueuedRow>, fetch: Fetch)
    ensures DispatchFrom(s, rows, fetch, false).log == s.log
    decreases |rows|
  {
    if rows != [] {
      DispatchLogWithoutSink(DownloadOne(s, rows[0], fetch, false), rows[1..], fetch);
    }
  }

  /** A `job_updated` event, about any row. */
  predicate IsUpdate(e: Event)
  {
    e.JobDone? || e.JobFailed?
  }

  /** The `job_updated` events of `log`, in order. */
  function Updates(log: seq<Event>): seq<Event>
  {
    if log == [] then [] else (if IsUpdate(log[0]) then [log[0]] else []) + Updates(log[1..])
  }

  lemma {:induction false} UpdatesConcat(a: seq<Event>, b: seq<Event>)
    ensures Updates(a + b) == Updates(a) + Updates(b)
  {
    if a == [] {
      assert a + b == b;
    } else {
      assert (a + b)[0] == a[0] && (a + b)[1..] == a[1..] + b;
      UpdatesConcat(a[1..], b);
    }
  }

  lemma {:induction false} ProgressIsNoUpdate(reports: seq<string>)
    ensures Updates(ProgressEvents(reports)) == []
  {
    if reports != [] {
      ProgressIsNoUpdate(reports[1..]);
      UpdatesConcat([DownloadProgress(reports[0])], ProgressEvents(reports[1..]));
    }
  }

  /** The `job_updated` events the downloads of `rows` end with, one per row, in the rows' order. */
  function UpdatesFor(rows: seq<QueuedRow>, fetch: Fetch): (evs: seq<Event>)
    ensures |evs| == |rows|
    ensures forall i :: 0 <= i < |rows| ==> evs[i] == UpdateEvent(rows[i].id, fetch(RequestFor(rows[i])))
    decreases |rows|
  {
    if rows == [] then [] else [UpdateEvent(rows[0].id, fetch(RequestFor(rows[0])))] + UpdatesFor(rows[1..], fetch)
  }

  /** With a sink attached, one download adds exactly its own `job_updated` event to the updates of the log. */
  lemma DownloadOneUpdates(s: State, row: QueuedRow, fetch: Fetch)
    ensures Updates(DownloadOne(s, row, fetch, true).log) == Updates(s.log) + [UpdateEvent(row.id, fetch(RequestFor(row)))]
  {
    var o := fetch(RequestFor(row));
    var progress := ProgressEvents(o.progress);
    assert DownloadOne(s, row, fetch, true).log == s.log + (progress + [UpdateEvent(row.id, o)]);
    UpdatesConcat(s.log, progress + [UpdateEvent(row.id, o)]);
    UpdatesConcat(progress, [UpdateEvent(row.id, o)]);
    ProgressIsNoUpdate(o.progress);
    assert Updates([UpdateEvent(row.id, o)]) == [UpdateEvent(row.id, o)];
  }

  /** With a sink attached, the downloads of `rows` append their `job_updated` events in the order of `rows`. */
  lemma {:induction false} DispatchFromUpdateOrder(s: State, rows: seq<QueuedRow>, fetch: Fetch)
    ensures Updates(DispatchFrom(s, rows, fetch, true).log) == Updates(s.log) + UpdatesFor(rows, fetch)
    decreases |rows|
  {
    if rows != [] {
      var s1 := DownloadOne(s, rows[0], fetch, true);
      DownloadOneUpdates(s, rows[0], fetch);
      DispatchFromUpdateOrder(s1, rows[1..], fetch);
    }
  }

  /**
    The dispatch pass announces the rows in ascending id order: with a sink
    attached, the `job_updated` events it appends are one per row queued at
    its start, each as that row's fetch decides, with strictly increasing
    row ids.
   */
  lemma DispatchPassUpdateOrder(s: State, fetch: Fetch)
    requires IdsBelowNext(s)
    ensures var u := UpdatesFor(QueuedRows(s), fetch);
      && Updates(DispatchPass(s, fetch, true).log) == Updates(s.log) + u
      && (forall i, j :: 0 <= i < j < |u| ==> u[i].jobId < u[j].jobId)
      && (forall k :: k in s.jobs && s.jobs[k].status == Queued <==> exists i :: 0 <= i < |u| && u[i].jobId == k)
  {
    DispatchFromUpdateOrder(s, QueuedRows(s), fetch);
  }

  /**
    Distinct rows with item ids are fetched with distinct requests, so in a
    table with unique item ids no two of them are forced to share an outcome.
   */
  lemma DistinctItemIdsDistinctRequests(s: State, a: int, b: int, fa: string, fb: string)
    requires Wf(s) && a in s.jobs && b in s.jobs && a != b && s.jobs[a].ytId.Some? && s.jobs[b].ytId.Some?
    ensures FetchRequest(WatchUrl(s.jobs[a].ytId), fa) != FetchRequest(WatchUrl(s.jobs[b].ytId), fb)
  {
    if WatchUrl(s.jobs[a].ytId) == WatchUrl(s.jobs[b].ytId) {
      WatchUrlInjective(s.jobs[a].ytId.value, s.jobs[b].ytId.value);
    }
  }
}
