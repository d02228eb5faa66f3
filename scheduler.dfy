/**
  The worker's loop and the series monitors as steps over one shared table:
  a worker cycle is a resolution pass followed, when no update in it raised,
  by a dispatch pass; a monitor poll is one iteration of the monitor of one
  parent. Any interleaving of these steps keeps item ids unique, never drops
  a row, and never spawns a child of a cancelled parent.
 */
module Scheduler {
  import opened JobModel
  import opened JobStore
  import opened Resolution
  import opened Dispatch
  import opened SeriesMonitor

  /**
    One iteration of the worker loop. When an update of the resolution pass
    raises, the rest of the cycle is skipped: the writes committed so far
    stay, an error is logged when a sink is attached, and nothing is
    dispatched.
   */
  function Cycle(s: State, search: Search, fetch: Fetch, sink: bool): (r: State)
    requires IdsBelowNext(s)
    ensures IdsBelowNext(r) && s.jobs.Keys <= r.jobs.Keys && s.log <= r.log
  {
    var res := ResolvePass(s, search);
    if res.completed then
      DispatchFromFrame(res.state, QueuedRows(res.state), fetch, sink);
      DispatchPass(res.state, fetch, sink)
    else Emit(res.state, sink, [Log("error", UniqueViolationMessage)])
  }

  /** A step of the system: a worker cycle, or one poll of the monitor of parent row `parentId`. */
  datatype Action =
    | WorkerCycle(search: Search, fetch: Fetch)
    | MonitorPoll(parentId: int, monitorSearch: Search)

  function Step(s: State, a: Action, sink: bool): (r: State)
    requires IdsBelowNext(s)
    ensures IdsBelowNext(r) && s.jobs.Keys <= r.jobs.Keys && s.log <= r.log
  {
    match a
    case WorkerCycle(search, fetch) => Cycle(s, search, fetch, sink)
    case MonitorPoll(pid, search) => MonitorIteration(s, pid, search).state
  }

  /** The steps `acts`, in order. */
  function Run(s: State, acts: seq<Action>, sink: bool): (r: State)
    requires IdsBelowNext(s)
    ensures IdsBelowNext(r) && s.jobs.Keys <= r.jobs.Keys && s.log <= r.log
    decreases |acts|
  {
    if acts == [] then s else Run(Step(s, acts[0], sink), acts[1..], sink)
  }

  /**
    A cycle whose resolution raised dispatches nothing: every row that is
    queued when the cycle starts is still queued when it ends, and the error
    is the one event it emits.
   */
  lemma CycleAbortSkipsDispatch(s: State, search: Search, fetch: Fetch, sink: bool)
    requires Wf(s) && !ResolvePass(s, search).completed
    ensures var r := Cycle(s, search, fetch, sink);
      && (forall k :: k in s.jobs && s.jobs[k].status == Queued ==> r.jobs[k] == s.jobs[k])
      && r.log == s.log + (if sink then [Log("error", UniqueViolationMessage)] else [])
  {
    ResolvePassTouchesOnlyUnresolved(s, search);
  }

  /** A cycle that ran through dispatches every row its resolution left queued: each ends done or failed as its fetch decides. */
  lemma CycleCompletesQueued(s: State, search: Search, fetch: Fetch, sink: bool)
    requires Wf(s) && ResolvePass(s, search).completed
    ensures var mid := ResolvePass(s, search).state; var r := Cycle(s, search, fetch, sink);
      forall k :: k in mid.jobs && mid.jobs[k].status == Queued ==>
        k in r.jobs && r.jobs[k].status == FinalStatus(fetch(FetchRequest(WatchUrl(mid.jobs[k].ytId), DestFolder(mid.jobs[k].folderName))))
  {
    var mid := ResolvePass(s, search).state;
    ResolveFromWf(s, Select(s, Unresolved), search);
    assert Cycle(s, search, fetch, sink) == DispatchPass(mid, fetch, sink);
    DispatchPassTable(mid, fetch, sink);
  }

  /** The facts about one step that the lemmas over runs rely on. */
  predicate StepKeeps(s: State, r: State)
  {
    && Wf(r)
    && (forall k :: k in s.jobs ==> k in r.jobs && r.jobs[k].parentId == s.jobs[k].parentId)
    && (forall k :: k in s.jobs && s.jobs[k].status == Cancelled ==> r.jobs[k] == s.jobs[k])
    && (forall k :: k in r.jobs && k !in s.jobs ==>
          r.jobs[k].parentId.Some? && r.jobs[k].parentId.value in s.jobs &&
          s.jobs[r.jobs[k].parentId.value].status != Cancelled)
  }

  /** The resolution pass adds rows only as children of rows it resolved, keeps parent references, and leaves cancelled rows alone. */
  lemma ResolvePassKeeps(s: State, search: Search)
    requires Wf(s)
    ensures StepKeeps(s, ResolvePass(s, search).state)
  {
    var pids := Select(s, Unresolved);
    var m := ResolvePass(s, search).state;
    ResolveFromWf(s, pids, search);
    ResolveFromFollowsGraph(s, pids, search);
    ResolveFromUntouched(s, pids, search);
    ResolveFromWrites(s, pids, search);
    forall k | k in m.jobs && k !in s.jobs
      ensures m.jobs[k].parentId.Some? && m.jobs[k].parentId.value in s.jobs
      ensures s.jobs[m.jobs[k].parentId.value].status != Cancelled
    {
      assert m.jobs[k].parentId.value in pids;
    }
  }

  /** The dispatch pass changes only statuses, and never that of a cancelled row. */
  lemma DispatchPassKeeps(s: State, fetch: Fetch, sink: bool)
    requires Wf(s)
    ensures StepKeeps(s, DispatchPass(s, fetch, sink))
  {
    DispatchPassTable(s, fetch, sink);
  }

  /** Doing `s -> m` and then a step `m -> r` that adds no rows keeps these facts. */
  lemma StepKeepsCompose(s: State, m: State, r: State)
    requires StepKeeps(s, m) && StepKeeps(m, r) && r.jobs.Keys == m.jobs.Keys
    ensures StepKeeps(s, r)
  {
  }

  /**
    What one step does to the rows that were there before it: item ids stay
    unique; a row's parent reference never changes; a cancelled row is left
    alone; and each new row is the child of a row that was there and was not
    cancelled.
   */
  lemma StepSound(s: State, a: Action, sink: bool)
    requires Wf(s)
    ensures StepKeeps(s, Step(s, a, sink))
  {
    match a
    case WorkerCycle(search, fetch) =>
      CycleKeeps(s, search, fetch, sink);
    case MonitorPoll(pid, search) =>
      MonitorOnlyInserts(s, pid, search);
      MonitorStops(s, pid, search);
  }

  /** A worker cycle keeps these facts, whether or not its resolution raised. */
  lemma CycleKeeps(s: State, search: Search, fetch: Fetch, sink: bool)
    requires Wf(s)
    ensures StepKeeps(s, Cycle(s, search, fetch, sink))
  {
    var res := ResolvePass(s, search);
    ResolvePassKeeps(s, search);
    if res.completed {
      var r := DispatchPass(res.state, fetch, sink);
      assert Cycle(s, search, fetch, sink) == r;
      DispatchPassKeeps(res.state, fetch, sink);
      DispatchPassTable(res.state, fetch, sink);
      StepKeepsCompose(s, res.state, r);
    } else {
      var r := Emit(res.state, sink, [Log("error", UniqueViolationMessage)]);
      assert Cycle(s, search, fetch, sink) == r;
      assert r.jobs == res.state.jobs && r.nextId == res.state.nextId;
    }
  }

  /** Dedup: over any sequence of steps, no two rows share an item id. */
  lemma {:induction false} RunKeepsItemIdsUnique(s: State, acts: seq<Action>, sink: bool)
    requires Wf(s)
    ensures Wf(Run(s, acts, sink))
    decreases |acts|
  {
    if acts != [] {
      StepSound(s, acts[0], sink);
      RunKeepsItemIdsUnique(Step(s, acts[0], sink), acts[1..], sink);
    }
  }

  /**
    A cancellation made between steps is final and stops fan-out: once row
    `pid` is cancelled before a step starts, no sequence of whole cycles and
    polls changes it, and no row added afterwards has it as its parent.
    A cancellation that lands inside a cycle or a poll, after its snapshot
    was read, is outside this model.
   */
  lemma {:induction false} CancelledParentSpawnsNothing(s: State, acts: seq<Action>, sink: bool, pid: int)
    requires Wf(s) && pid in s.jobs && s.jobs[pid].status == Cancelled
    ensures var r := Run(s, acts, sink);
      && r.jobs[pid] == s.jobs[pid]
      && forall k :: k in r.jobs && k !in s.jobs ==> r.jobs[k].parentId != Some(pid)
    decreases |acts|
  {
    if acts != [] {
      var s1 := Step(s, acts[0], sink);
      var r := Run(s1, acts[1..], sink);
      StepSound(s, acts[0], sink);
      CancelledParentSpawnsNothing(s1, acts[1..], sink, pid);
      RunKeepsParents(s1, acts[1..], sink);
    }
  }

  /** No sequence of steps changes the parent reference of a row. */
  lemma {:induction false} RunKeepsParents(s: State, acts: seq<Action>, sink: bool)
    requires Wf(s)
    ensures var r := Run(s, acts, sink);
      forall k :: k in s.jobs ==> r.jobs[k].parentId == s.jobs[k].parentId
    decreases |acts|
  {
    if acts != [] {
      StepSound(s, acts[0], sink);
      RunKeepsParents(Step(s, acts[0], sink), acts[1..], sink);
    }
  }

  /**
    A cycle whose resolution raised leaves the worker stuck: the row it
    stopped at is the lowest unresolved row, and resolving it raises again.
   */
  lemma AbortedCycleStaysStuck(s: State, search: Search, fetch: Fetch, sink: bool) returns (pid: int)
    requires IdsBelowNext(s) && !ResolvePass(s, search).completed
    ensures StuckAt(Cycle(s, search, fetch, sink), search, pid)
  {
    var mid := ResolvePass(s, search).state;
    var r := Cycle(s, search, fetch, sink);
    pid := AbortLeavesStuck(s, search);
    assert r == mid.(log := r.log);
    StuckIgnoresLog(mid, search, pid, r.log);
  }

  /** `n` worker cycles with the same search and fetch. */
  function Cycles(search: Search, fetch: Fetch, n: nat): (acts: seq<Action>)
    ensures |acts| == n && forall i :: 0 <= i < n ==> acts[i] == WorkerCycle(search, fetch)
  {
    seq(n, i => WorkerCycle(search, fetch))
  }

  /**
    A stuck worker starves the queue: while the search returns the same
    results, every further cycle raises at the same row before writing, so
    the table never changes again and no queued row is ever dispatched.
   */
  lemma {:induction false} StuckWorkerStarves(s: State, search: Search, fetch: Fetch, sink: bool, pid: int, n: nat)
    requires IdsBelowNext(s) && StuckAt(s, search, pid)
    ensures var r := Run(s, Cycles(search, fetch, n), sink);
      r.jobs == s.jobs && r.nextId == s.nextId && StuckAt(r, search, pid)
    decreases n
  {
    if n > 0 {
      var acts := Cycles(search, fetch, n);
      StuckPassWritesNothing(s, search, pid);
      var s1 := Cycle(s, search, fetch, sink);
      assert s1 == s.(log := s1.log);
      StuckIgnoresLog(s, search, pid, s1.log);
      assert acts[1..] == Cycles(search, fetch, n - 1);
      StuckWorkerStarves(s1, search, fetch, sink, pid, n - 1);
    }
  }
}
