/**
  The worker object itself: it owns the job table, the next row id the
  store will hand out, and the events it has sent to its event sink, and
  runs the resolution pass, the dispatch pass and the series monitor's
  iteration as step-by-step updates of that state. Each method is proved to
  leave exactly the state the pure definitions of the other modules
  describe, and to keep item ids unique.
 */
module Engine {
  import opened JobModel
  import opened DurationFilter
  import opened JobStore
  import R = Resolution
  import D = Dispatch
  import M = SeriesMonitor
  import S = Scheduler

  class Downloader {
    /** The job table, by row id. */
    var jobs: map<int, Job>
    /** The row id the next insert receives. */
    var nextId: int
    /** The events sent to the sink so far. */
    var events: seq<Event>
    /** Whether an event sink is attached; without one no event is sent. */
    const hasSink: bool

    /** The state the pure definitions speak about. */
    function Model(): State
      reads this
    {
      State(jobs, nextId, events)
    }

    /** Item ids are unique and every row id lies below the next one. */
    ghost predicate Valid()
      reads this
    {
      Wf(Model())
    }

    /** A worker over an existing table, with or without an event sink. */
    constructor (initial: map<int, Job>, next: int, sink: bool)
      requires Wf(State(initial, next, []))
      ensures Model() == State(initial, next, []) && hasSink == sink && Valid()
    {
      jobs := initial;
      nextId := next;
      events := [];
      hasSink := sink;
    }

    /** Sends one event, when a sink is attached. */
    method Send(e: Event)
      modifies this
      ensures Model() == D.Emit(old(Model()), hasSink, [e])
    {
      if hasSink {
        events := events + [e];
      }
    }

    /** The progress hook the fetcher calls with each report: it forwards the report as a `download_progress` event. */
    method ProgressHook(report: string)
      modifies this
      ensures Model() == D.Emit(old(Model()), hasSink, [DownloadProgress(report)])
    {
      Send(DownloadProgress(report));
    }

    /** `UPDATE jobs SET status=? WHERE id=?`. */
    method UpdateStatus(id: int, st: Status)
      modifies this
      ensures Model() == SetStatus(old(Model()), id, st)
    {
      if id in jobs {
        jobs := jobs[id := jobs[id].(status := st)];
      }
    }

    /** `INSERT OR IGNORE` of row `j`; `inserted` tells whether a row was added. */
    method InsertJob(j: Job) returns (inserted: bool)
      requires IdsBelowNext(Model())
      modifies this
      ensures Model() == InsertOrIgnore(old(Model()), j)
      ensures inserted <==> Model() != old(Model())
    {
      if j.ytId.Some? && HasYtId(jobs, j.ytId.value) {
        inserted := false;
      } else {
        jobs := jobs[nextId := j];
        nextId := nextId + 1;
        inserted := true;
      }
    }

    /** The insert loop of a series parent: one child row per candidate, in order. */
    method InsertChildRows(p: Job, pid: int, isSeries: bool, cs: seq<Candidate>)
      requires IdsBelowNext(Model())
      modifies this
      ensures Model() == InsertChildren(old(Model()), p, pid, isSeries, cs)
    {
      var i := 0;
      while i < |cs|
        invariant 0 <= i <= |cs| && IdsBelowNext(Model())
        invariant InsertChildren(Model(), p, pid, isSeries, cs[i..]) == InsertChildren(old(Model()), p, pid, isSeries, cs)
      {
        assert cs[i..][1..] == cs[i + 1..];
        var _ := InsertJob(ChildOf(p, pid, isSeries, cs[i]));
        i := i + 1;
      }
      assert cs[i..] == [];
    }

    /**
      Resolving one parent row: search, filter, then mark it waiting, insert
      its children and mark it active, or give it the first survivor's item
      id; `committed` is false when that last update raised, and then nothing
      was written.
     */
    method ResolveParent(pid: int, search: Search) returns (committed: bool)
      requires IdsBelowNext(Model()) && pid in jobs
      modifies this
      ensures var o := R.ResolveParent(old(Model()), pid, search(R.QueryFor(old(jobs[pid]))));
        if committed then o == R.Committed(Model()) else o.UniqueViolation? && Model() == old(Model())
    {
      var p := jobs[pid];
      var candidates := search(R.QueryFor(p));
      var filtered := FilterCandidates(candidates, p.minLength, p.maxLength);
      if filtered == [] {
        UpdateStatus(pid, Waiting);
      } else if p.isSeries {
        InsertChildRows(p, pid, p.isSeries, filtered);
        UpdateStatus(pid, Active);
      } else {
        var v := filtered[0];
        if v.id.Some? && HasYtId(jobs, v.id.value) {
          return false;
        }
        jobs := jobs[pid := p.(ytId := v.id, status := Queued)];
      }
      committed := true;
    }

    /**
      The resolution pass. It reads the unresolved rows once, then resolves
      each in turn; `completed` is false when an update raised, in which case
      the rows before it keep their writes and the rest are not touched.
     */
    method ResolvePass(search: Search) returns (completed: bool)
      requires Valid()
      modifies this
      ensures R.ResolvePass(old(Model()), search) == R.PassResult(Model(), completed)
      ensures Valid()
    {
      ghost var s0 := Model();
      var parents := Select(Model(), R.Unresolved);
      R.ResolveFromWf(s0, parents, search);
      var i := 0;
      while i < |parents|
        invariant 0 <= i <= |parents| && IdsBelowNext(Model()) && s0.jobs.Keys <= jobs.Keys
        invariant R.ResolveFrom(Model(), parents[i..], search) == R.ResolveFrom(s0, parents, search)
      {
        assert parents[i..][0] == parents[i] && parents[i..][1..] == parents[i + 1..];
        var committed := ResolveParent(parents[i], search);
        if !committed {
          return false;
        }
        i := i + 1;
      }
      assert parents[i..] == [];
      completed := true;
    }

    /** Downloading one queued row: mark it running, fetch, forward the progress reports, mark it done or failed, and announce it. */
    method DownloadJob(row: D.QueuedRow, fetch: Fetch)
      modifies this
      ensures Model() == D.DownloadOne(old(Model()), row, fetch, hasSink)
    {
      UpdateStatus(row.id, Running);
      ghost var mid := Model();
      var outcome := fetch(D.RequestFor(row));
      var reports := outcome.progress;
      var i := 0;
      while i < |reports|
        invariant 0 <= i <= |reports|
        invariant D.Emit(Model(), hasSink, D.ProgressEvents(reports[i..])) == D.Emit(mid, hasSink, D.ProgressEvents(reports))
      {
        assert reports[i..][1..] == reports[i + 1..];
        ProgressHook(reports[i]);
        i := i + 1;
      }
      assert reports[i..] == [];
      UpdateStatus(row.id, D.FinalStatus(outcome));
      Send(D.UpdateEvent(row.id, outcome));
    }

    /** The dispatch pass: it reads the queued rows once, then downloads each in id order. */
    method DispatchPass(fetch: Fetch)
      requires Valid()
      modifies this
      ensures Model() == D.DispatchPass(old(Model()), fetch, hasSink)
      ensures Valid()
    {
      ghost var s0 := Model();
      D.DispatchPassTable(s0, fetch, hasSink);
      var queued := D.QueuedRows(Model());
      var i := 0;
      while i < |queued|
        invariant 0 <= i <= |queued|
        invariant D.DispatchFrom(Model(), queued[i..], fetch, hasSink) == D.DispatchFrom(s0, queued, fetch, hasSink)
      {
        assert queued[i..][1..] == queued[i + 1..];
        DownloadJob(queued[i], fetch);
        i := i + 1;
      }
      assert queued[i..] == [];
    }

    /** One iteration of the worker loop: resolve, then dispatch unless an update raised, in which case the error is logged. */
    method RunCycle(search: Search, fetch: Fetch)
      requires Valid()
      modifies this
      ensures Model() == S.Cycle(old(Model()), search, fetch, hasSink)
      ensures Valid()
    {
      ghost var s0 := Model();
      S.CycleKeeps(s0, search, fetch, hasSink);
      var completed := ResolvePass(search);
      if completed {
        DispatchPass(fetch);
      } else {
        Send(Log("error", R.UniqueViolationMessage));
      }
    }

    /**
      One iteration of the monitor of parent row `parentId`: `keepGoing` is
      false when the row is gone, cancelled or not always-series; otherwise
      each candidate of a fresh search that the duration filter admits gets
      an `INSERT OR IGNORE` of a series child.
     */
    method MonitorStep(parentId: int, search: Search) returns (keepGoing: bool)
      requires Valid()
      modifies this
      ensures M.MonitorIteration(old(Model()), parentId, search) == M.MonitorResult(Model(), keepGoing)
      ensures Valid()
    {
      ghost var s0 := Model();
      M.MonitorOnlyInserts(s0, parentId, search);
      if parentId !in jobs {
        return false;
      }
      var p := jobs[parentId];
      if p.status == Cancelled || !p.alwaysSeries {
        return false;
      }
      var candidates := search(M.MonitorQuery(p));
      var i := 0;
      while i < |candidates|
        invariant 0 <= i <= |candidates| && IdsBelowNext(Model())
        invariant M.MonitorInserts(Model(), p, parentId, candidates[i..]) == M.MonitorInserts(s0, p, parentId, candidates)
      {
        var v := candidates[i];
        assert candidates[i..][1..] == candidates[i + 1..];
        if Survives(v, p.minLength, p.maxLength) {
          var _ := InsertJob(ChildOf(p, parentId, true, v));
        }
        i := i + 1;
      }
      assert candidates[i..] == [];
      keepGoing := true;
    }
  }
}
