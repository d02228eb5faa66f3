/**
  One iteration of the series monitor kept for an always-series parent: it
  re-reads the parent row, stops when the row is gone, cancelled or no
  longer always-series, and otherwise searches again and inserts a queued
  child for every candidate the duration filter admits, skipping item ids
  already in the table. It never writes the parent row.
 */
module SeriesMonitor {
  import opened JobModel
  import opened DurationFilter
  import opened JobStore

  /** How many results the monitor asks the search adapter for. */
  const MonitorLimit := 20

  /** The search the monitor makes for parent row `p`. */
  function MonitorQuery(p: Job): SearchQuery
  {
    SearchQuery(p.query, p.language, MonitorLimit)
  }

  /** The monitor's insert loop: each candidate the filter admits gets an `INSERT OR IGNORE` of a series child, in search order. */
  function MonitorInserts(s: State, p: Job, pid: int, cs: seq<Candidate>): (r: State)
    requires IdsBelowNext(s)
    ensures IdsBelowNext(r) && r.log == s.log && s.jobs.Keys <= r.jobs.Keys
    decreases |cs|
  {
    if cs == [] then s
    else
      var s1 := if Survives(cs[0], p.minLength, p.maxLength) then InsertOrIgnore(s, ChildOf(p, pid, true, cs[0])) else s;
      MonitorInserts(s1, p, pid, cs[1..])
  }

  /** The monitor's writes, and whether it goes on to sleep and poll again. */
  datatype MonitorResult = MonitorResult(state: State, keepGoing: bool)

  /** One iteration of the monitor for parent row `pid`. */
  function MonitorIteration(s: State, pid: int, search: Search): (r: MonitorResult)
    requires IdsBelowNext(s)
    ensures IdsBelowNext(r.state) && r.state.log == s.log && s.jobs.Keys <= r.state.jobs.Keys
  {
    if pid !in s.jobs then MonitorResult(s, false)
    else
      var p := s.jobs[pid];
      if p.status == Cancelled || !p.alwaysSeries then MonitorResult(s, false)
      else MonitorResult(MonitorInserts(s, p, pid, search(MonitorQuery(p))), true)
  }

  /** The inline filter of the monitor is the shared duration filter: its loop inserts exactly the survivors, in order. */
  lemma {:induction false} MonitorInsertsFiltered(s: State, p: Job, pid: int, cs: seq<Candidate>)
    requires IdsBelowNext(s)
    ensures MonitorInserts(s, p, pid, cs) == InsertChildren(s, p, pid, true, Filtered(cs, p.minLength, p.maxLength))
    decreases |cs|
  {
    if cs != [] {
      var f := Filtered(cs[1..], p.minLength, p.maxLength);
      if Survives(cs[0], p.minLength, p.maxLength) {
        var s1 := InsertOrIgnore(s, ChildOf(p, pid, true, cs[0]));
        MonitorInsertsFiltered(s1, p, pid, cs[1..]);
        assert Filtered(cs, p.minLength, p.maxLength) == [cs[0]] + f;
        assert ([cs[0]] + f)[0] == cs[0] && ([cs[0]] + f)[1..] == f;
      } else {
        MonitorInsertsFiltered(s, p, pid, cs[1..]);
        assert Filtered(cs, p.minLength, p.maxLength) == [] + f == f;
      }
    }
  }

  /** The monitor stops, writing nothing, exactly when the parent row is gone, cancelled, or not always-series. */
  lemma MonitorStops(s: State, pid: int, search: Search)
    requires IdsBelowNext(s)
    ensures var r := MonitorIteration(s, pid, search);
      && (!r.keepGoing <==> pid !in s.jobs || s.jobs[pid].status == Cancelled || !s.jobs[pid].alwaysSeries)
      && (!r.keepGoing ==> r.state == s)
  {
  }

  /**
    The monitor only inserts: every existing row, the parent's included, is
    unchanged; each new row is a queued series child of the parent, copying
    its fields, for a candidate of the parent's search that the filter
    admits; every admitted item id is in the table afterwards; and item ids
    stay unique.
   */
  lemma MonitorOnlyInserts(s: State, pid: int, search: Search)
    requires Wf(s)
    ensures var r := MonitorIteration(s, pid, search).state;
      && Wf(r)
      && (forall k :: k in s.jobs ==> k in r.jobs && r.jobs[k] == s.jobs[k])
      && (forall k :: k in r.jobs && k !in s.jobs ==>
            pid in s.jobs &&
            exists c :: c in search(MonitorQuery(s.jobs[pid])) &&
              Survives(c, s.jobs[pid].minLength, s.jobs[pid].maxLength) &&
              r.jobs[k] == ChildOf(s.jobs[pid], pid, true, c))
      && (MonitorIteration(s, pid, search).keepGoing ==>
            forall c ::
              (c in search(MonitorQuery(s.jobs[pid])) && c.id.Some? && Survives(c, s.jobs[pid].minLength, s.jobs[pid].maxLength))
              ==> HasYtId(r.jobs, c.id.value))
  {
    if MonitorIteration(s, pid, search).keepGoing {
      var p := s.jobs[pid];
      var cands := search(MonitorQuery(p));
      MonitorInsertsFiltered(s, p, pid, cands);
      FilteredMembers(cands, p.minLength, p.maxLength);
      InsertChildrenCovers(s, p, pid, true, Filtered(cands, p.minLength, p.maxLength));
    }
  }

  /**
    Polling again with the same search results, all of which carry an item
    id, inserts nothing more: the parent row is unchanged, so the second
    iteration makes the same search and every admitted id is already there.
   */
  lemma MonitorIdempotent(s: State, pid: int, search: Search)
    requires Wf(s)
    requires pid in s.jobs ==> forall c :: c in search(MonitorQuery(s.jobs[pid])) ==> c.id.Some?
    ensures var r := MonitorIteration(s, pid, search).state;
      MonitorIteration(r, pid, search).state == r
  {
    var r1 := MonitorIteration(s, pid, search);
    if r1.keepGoing {
      var p := s.jobs[pid];
      var cands := search(MonitorQuery(p));
      var f := Filtered(cands, p.minLength, p.maxLength);
      MonitorOnlyInserts(s, pid, search);
      assert r1.state.jobs[pid] == p;
      MonitorInsertsFiltered(s, p, pid, cands);
      MonitorInsertsFiltered(r1.state, p, pid, cands);
      FilteredMembers(cands, p.minLength, p.maxLength);
      InsertChildrenIdempotent(s, p, pid, true, f);
    }
  }
}
