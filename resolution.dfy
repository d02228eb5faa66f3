/**
  The resolution pass of the worker's cycle: every pending row without an
  item id, in id order, is searched for, its candidates are filtered by
  duration, and the row becomes waiting (nothing survives), queued with the
  first survivor's item id (not a series), or active after one child row per
  survivor has been inserted (a series).
 */
module Resolution {
  import opened JobModel
  import opened DurationFilter
  import opened JobStore

  /** How many results the resolution pass asks the search adapter for. */
  const SearchLimit := 10

  /** The error text of the store when an update would repeat an item id. */
  const UniqueViolationMessage := "UNIQUE constraint failed: jobs.yt_id"

  /** The rows the pass takes up: pending, with no item id yet. */
  predicate Unresolved(j: Job)
  {
    j.status == Pending && j.ytId.None?
  }

  /** The search the pass makes for row `j`. */
  function QueryFor(j: Job): SearchQuery
  {
    SearchQuery(j.query, j.language, SearchLimit)
  }

  /** Row `j` holds the item id of one of `cands` that the filter admits under `j`'s own bounds. */
  predicate AdmittedFrom(j: Job, cands: seq<Candidate>)
  {
    exists c :: c in cands && Survives(c, j.minLength, j.maxLength) && j.ytId == c.id
  }

  /** Resolving one parent either commits its writes or stops at an update that breaks item-id uniqueness. */
  datatype ParentOutcome = Committed(state: State) | UniqueViolation

  /** Resolving parent row `pid` against the candidates its search returned. */
  function ResolveParent(s: State, pid: int, cands: seq<Candidate>): (r: ParentOutcome)
    requires IdsBelowNext(s) && pid in s.jobs
    ensures r.Committed? ==> IdsBelowNext(r.state) && r.state.log == s.log && s.jobs.Keys <= r.state.jobs.Keys
  {
    var p := s.jobs[pid];
    var filtered := Filtered(cands, p.minLength, p.maxLength);
    if filtered == [] then
      Committed(SetStatus(s, pid, Waiting))
    else if p.isSeries then
      Committed(SetStatus(InsertChildren(s, p, pid, p.isSeries, filtered), pid, Active))
    else
      var v := filtered[0];
      if v.id.Some? && HasYtId(s.jobs, v.id.value) then UniqueViolation
      else Committed(s.(jobs := s.jobs[pid := p.(ytId := v.id, status := Queued)]))
  }

  /** No candidate survives: the parent becomes waiting, and no row is inserted or otherwise changed. */
  lemma ResolveNoSurvivors(s: State, pid: int, cands: seq<Candidate>)
    requires IdsBelowNext(s) && pid in s.jobs
    requires forall c :: c in cands ==> !Survives(c, s.jobs[pid].minLength, s.jobs[pid].maxLength)
    ensures var r := ResolveParent(s, pid, cands);
      && r.Committed?
      && r.state.nextId == s.nextId && r.state.jobs.Keys == s.jobs.Keys
      && r.state.jobs[pid] == s.jobs[pid].(status := Waiting)
      && forall k :: k in s.jobs && k != pid ==> r.state.jobs[k] == s.jobs[k]
  {
    FilteredEmptyIff(cands, s.jobs[pid].minLength, s.jobs[pid].maxLength);
  }

  /**
    Not a series, some candidate survives: `i` is the first survivor in
    search order; the update raises exactly when its item id is already in
    the table; otherwise the parent takes that item id and becomes queued,
    and no row is inserted or otherwise changed.
   */
  lemma ResolveSingle(s: State, pid: int, cands: seq<Candidate>) returns (i: nat)
    requires IdsBelowNext(s) && pid in s.jobs && !s.jobs[pid].isSeries
    requires exists c :: c in cands && Survives(c, s.jobs[pid].minLength, s.jobs[pid].maxLength)
    ensures i < |cands| && Survives(cands[i], s.jobs[pid].minLength, s.jobs[pid].maxLength)
    ensures forall j :: 0 <= j < i ==> !Survives(cands[j], s.jobs[pid].minLength, s.jobs[pid].maxLength)
    ensures var r := ResolveParent(s, pid, cands);
      && (r.UniqueViolation? <==> cands[i].id.Some? && HasYtId(s.jobs, cands[i].id.value))
      && (r.Committed? ==>
            && r.state.nextId == s.nextId && r.state.jobs.Keys == s.jobs.Keys
            && r.state.jobs[pid] == s.jobs[pid].(ytId := cands[i].id, status := Queued)
            && forall k :: k in s.jobs && k != pid ==> r.state.jobs[k] == s.jobs[k])
  {
    var p := s.jobs[pid];
    FilteredEmptyIff(cands, p.minLength, p.maxLength);
    i := FirstSurvivor(cands, p.minLength, p.maxLength);
  }

  /**
    A series, some candidate survives: the parent becomes active and every
    other existing row is unchanged; each new row is a queued child of the
    parent, copying its fields, for a surviving candidate; every surviving
    item id is in the table afterwards; and the new rows are no more than the
    survivors.
   */
  lemma ResolveSeries(s: State, pid: int, cands: seq<Candidate>)
    requires IdsBelowNext(s) && pid in s.jobs && s.jobs[pid].isSeries
    requires exists c :: c in cands && Survives(c, s.jobs[pid].minLength, s.jobs[pid].maxLength)
    ensures var p := s.jobs[pid]; var r := ResolveParent(s, pid, cands);
      && r.Committed?
      && r.state.jobs[pid] == p.(status := Active)
      && (forall k :: k in s.jobs && k != pid ==> r.state.jobs[k] == s.jobs[k])
      && (forall k :: k in r.state.jobs && k !in s.jobs ==>
            s.nextId <= k < r.state.nextId &&
            exists c :: c in cands && Survives(c, p.minLength, p.maxLength) && r.state.jobs[k] == ChildOf(p, pid, true, c))
      && (forall c :: c in cands && Survives(c, p.minLength, p.maxLength) && c.id.Some? ==> HasYtId(r.state.jobs, c.id.value))
      && r.state.nextId <= s.nextId + |Filtered(cands, p.minLength, p.maxLength)|
  {
    var p := s.jobs[pid];
    var filtered := Filtered(cands, p.minLength, p.maxLength);
    FilteredEmptyIff(cands, p.minLength, p.maxLength);
    FilteredMembers(cands, p.minLength, p.maxLength);
    InsertChildrenCovers(s, p, pid, p.isSeries, filtered);
    var t := InsertChildren(s, p, pid, p.isSeries, filtered);
    var r := SetStatus(t, pid, Active);
    assert ResolveParent(s, pid, cands) == Committed(r);
    forall c | c in cands && Survives(c, p.minLength, p.maxLength) && c.id.Some?
      ensures HasYtId(r.jobs, c.id.value)
    {
      var k :| k in t.jobs && t.jobs[k].ytId == c.id;
      assert r.jobs[k].ytId == t.jobs[k].ytId;
    }
  }

  /**
    What one committed resolution does to the table, in one place: other
    existing rows are unchanged, the parent keeps its search fields, every
    item id it writes is admitted by the filter, new rows are queued children
    of the parent, and the uniqueness invariant and the state graph are kept.
   */
  ghost predicate CommitFrame(s: State, pid: int, cands: seq<Candidate>, r: State)
    requires pid in s.jobs && s.jobs.Keys <= r.jobs.Keys
  {
    var p := s.jobs[pid];
    && (forall k :: k in s.jobs && k != pid ==> r.jobs[k] == s.jobs[k])
    && r.jobs[pid].query == p.query && r.jobs[pid].language == p.language
    && r.jobs[pid].minLength == p.minLength && r.jobs[pid].maxLength == p.maxLength
    && (r.jobs[pid].ytId != p.ytId ==> AdmittedFrom(r.jobs[pid], cands))
    && (forall k :: k in r.jobs && k !in s.jobs ==>
          && r.jobs[k].status == Queued && r.jobs[k].parentId == Some(pid)
          && r.jobs[k].query == p.query && r.jobs[k].language == p.language
          && AdmittedFrom(r.jobs[k], cands))
    && (Unresolved(p) ==> FollowsGraph(s, r))
    && (Wf(s) ==> Wf(r))
  }

  lemma FrameNoSurvivors(s: State, pid: int, cands: seq<Candidate>)
    requires IdsBelowNext(s) && pid in s.jobs
    requires forall c :: c in cands ==> !Survives(c, s.jobs[pid].minLength, s.jobs[pid].maxLength)
    ensures ResolveParent(s, pid, cands).Committed?
    ensures CommitFrame(s, pid, cands, ResolveParent(s, pid, cands).state)
  {
    ResolveNoSurvivors(s, pid, cands);
  }

  /** A series resolution keeps item ids unique: the inserts do, and the status update changes no item id. */
  lemma SeriesKeepsWf(s: State, pid: int, cands: seq<Candidate>)
    requires Wf(s) && pid in s.jobs && s.jobs[pid].isSeries
    requires exists c :: c in cands && Survives(c, s.jobs[pid].minLength, s.jobs[pid].maxLength)
    ensures ResolveParent(s, pid, cands).Committed? && Wf(ResolveParent(s, pid, cands).state)
  {
    var p := s.jobs[pid];
    var filtered := Filtered(cands, p.minLength, p.maxLength);
    FilteredEmptyIff(cands, p.minLength, p.maxLength);
    var t := InsertChildren(s, p, pid, p.isSeries, filtered);
    var r := SetStatus(t, pid, Active);
    assert ResolveParent(s, pid, cands) == Committed(r);
    assert UniqueYtIds(t.jobs);
    assert forall k :: k in t.jobs ==> r.jobs[k].ytId == t.jobs[k].ytId;
  }

  /** Every row a series resolution adds is a queued child of the parent, with its search fields, holding an admitted item id. */
  lemma SeriesChildrenAdmitted(s: State, pid: int, cands: seq<Candidate>)
    requires IdsBelowNext(s) && pid in s.jobs && s.jobs[pid].isSeries
    requires exists c :: c in cands && Survives(c, s.jobs[pid].minLength, s.jobs[pid].maxLength)
    ensures ResolveParent(s, pid, cands).Committed?
    ensures var p := s.jobs[pid]; var r := ResolveParent(s, pid, cands).state;
      forall k :: k in r.jobs && k !in s.jobs ==>
        && r.jobs[k].status == Queued && r.jobs[k].parentId == Some(pid)
        && r.jobs[k].query == p.query && r.jobs[k].language == p.language
        && AdmittedFrom(r.jobs[k], cands)
  {
    var p := s.jobs[pid];
    ResolveSeries(s, pid, cands);
    var r := ResolveParent(s, pid, cands).state;
    forall k | k in r.jobs && k !in s.jobs
      ensures r.jobs[k].status == Queued && r.jobs[k].parentId == Some(pid)
      ensures r.jobs[k].query == p.query && r.jobs[k].language == p.language
      ensures AdmittedFrom(r.jobs[k], cands)
    {
      var c :| c in cands && Survives(c, p.minLength, p.maxLength) && r.jobs[k] == ChildOf(p, pid, true, c);
      assert Survives(c, r.jobs[k].minLength, r.jobs[k].maxLength) && r.jobs[k].ytId == c.id;
    }
  }

  lemma FrameSeries(s: State, pid: int, cands: seq<Candidate>)
    requires IdsBelowNext(s) && pid in s.jobs && s.jobs[pid].isSeries
    requires exists c :: c in cands && Survives(c, s.jobs[pid].minLength, s.jobs[pid].maxLength)
    ensures ResolveParent(s, pid, cands).Committed?
    ensures CommitFrame(s, pid, cands, ResolveParent(s, pid, cands).state)
  {
    var p := s.jobs[pid];
    ResolveSeries(s, pid, cands);
    SeriesChildrenAdmitted(s, pid, cands);
    var r := ResolveParent(s, pid, cands).state;
    if Unresolved(p) {
      assert r.jobs[pid] == p.(status := Active, ytId := p.ytId);
      OneRowFollowsGraph(s, r, pid);
    }
    if Wf(s) {
      SeriesKeepsWf(s, pid, cands);
    }
  }

  lemma FrameSingle(s: State, pid: int, cands: seq<Candidate>)
    requires IdsBelowNext(s) && pid in s.jobs && !s.jobs[pid].isSeries && ResolveParent(s, pid, cands).Committed?
    requires exists c :: c in cands && Survives(c, s.jobs[pid].minLength, s.jobs[pid].maxLength)
    ensures CommitFrame(s, pid, cands, ResolveParent(s, pid, cands).state)
  {
    var i := ResolveSingle(s, pid, cands);
    var r := ResolveParent(s, pid, cands).state;
    assert AdmittedFrom(r.jobs[pid], cands) by {
      assert cands[i] in cands;
    }
    if Wf(s) && cands[i].id.Some? {
      forall a, b | a in r.jobs && b in r.jobs && a != b && r.jobs[a].ytId.Some?
        ensures r.jobs[a].ytId != r.jobs[b].ytId
      {
        if a == pid {
          assert !(s.jobs[b].ytId == cands[i].id);
        } else if b == pid {
          assert !(s.jobs[a].ytId == cands[i].id);
        }
      }
    }
  }

  /** One committed resolution keeps `CommitFrame`. */
  lemma ResolveParentFrame(s: State, pid: int, cands: seq<Candidate>)
    requires IdsBelowNext(s) && pid in s.jobs && ResolveParent(s, pid, cands).Committed?
    ensures var p := s.jobs[pid]; var r := ResolveParent(s, pid, cands).state;
      && (forall k :: k in s.jobs && k != pid ==> r.jobs[k] == s.jobs[k])
      && r.jobs[pid].query == p.query && r.jobs[pid].language == p.language
      && r.jobs[pid].minLength == p.minLength && r.jobs[pid].maxLength == p.maxLength
      && (r.jobs[pid].ytId != p.ytId ==> AdmittedFrom(r.jobs[pid], cands))
      && (forall k :: k in r.jobs && k !in s.jobs ==>
            && r.jobs[k].status == Queued && r.jobs[k].parentId == Some(pid)
            && r.jobs[k].query == p.query && r.jobs[k].language == p.language
            && AdmittedFrom(r.jobs[k], cands))
      && (Unresolved(p) ==> FollowsGraph(s, r))
      && (Wf(s) ==> Wf(r))
  {
    var p := s.jobs[pid];
    if forall c :: c in cands ==> !Survives(c, p.minLength, p.maxLength) {
      FrameNoSurvivors(s, pid, cands);
    } else if p.isSeries {
      FrameSeries(s, pid, cands);
    } else {
      FrameSingle(s, pid, cands);
    }
  }

  /** The writes of one resolution pass, the flag telling whether it ran to the end without raising. */
  datatype PassResult = PassResult(state: State, completed: bool)

  /** Resolving the parents `pids` in turn, each against its own search, stopping at the first that raises. */
  function ResolveFrom(s: State, pids: seq<int>, search: Search): (r: PassResult)
    requires IdsBelowNext(s) && forall k :: k in pids ==> k in s.jobs
    ensures IdsBelowNext(r.state) && r.state.log == s.log && s.jobs.Keys <= r.state.jobs.Keys
    decreases |pids|
  {
    if pids == [] then PassResult(s, true)
    else
      match ResolveParent(s, pids[0], search(QueryFor(s.jobs[pids[0]])))
      case UniqueViolation => PassResult(s, false)
      case Committed(s') => ResolveFrom(s', pids[1..], search)
  }

  /** The resolution pass: every unresolved row, ascending by id. */
  function ResolvePass(s: State, search: Search): (r: PassResult)
    requires IdsBelowNext(s)
    ensures IdsBelowNext(r.state) && r.state.log == s.log && s.jobs.Keys <= r.state.jobs.Keys
  {
    ResolveFrom(s, Select(s, Unresolved), search)
  }

  /** Rows outside `pids` are not touched. */
  lemma {:induction false} ResolveFromUntouched(s: State, pids: seq<int>, search: Search)
    requires IdsBelowNext(s) && forall k :: k in pids ==> k in s.jobs
    ensures forall k :: k in s.jobs && k !in pids ==> ResolveFrom(s, pids, search).state.jobs[k] == s.jobs[k]
    decreases |pids|
  {
    if pids != [] {
      var pid := pids[0];
      var o := ResolveParent(s, pid, search(QueryFor(s.jobs[pid])));
      if o.Committed? {
        ResolveParentFrame(s, pid, search(QueryFor(s.jobs[pid])));
        ResolveFromUntouched(o.state, pids[1..], search);
      }
    }
  }

  /** The pass keeps item ids unique. */
  lemma {:induction false} ResolveFromWf(s: State, pids: seq<int>, search: Search)
    requires Wf(s) && forall k :: k in pids ==> k in s.jobs
    ensures Wf(ResolveFrom(s, pids, search).state)
    decreases |pids|
  {
    if pids != [] {
      var pid := pids[0];
      var o := ResolveParent(s, pid, search(QueryFor(s.jobs[pid])));
      if o.Committed? {
        ResolveParentFrame(s, pid, search(QueryFor(s.jobs[pid])));
        ResolveFromWf(o.state, pids[1..], search);
      }
    }
  }

  /** Every row the pass writes an item id into, new or old, holds a candidate its own search returned and the filter admits; new rows are queued children of a parent in `pids`. */
  lemma {:induction false} ResolveFromWrites(s: State, pids: seq<int>, search: Search)
    requires IdsBelowNext(s) && Distinct(pids) && forall k :: k in pids ==> k in s.jobs
    ensures var r := ResolveFrom(s, pids, search).state;
      forall k :: k in r.jobs && (k !in s.jobs || r.jobs[k].ytId != s.jobs[k].ytId) ==>
        && AdmittedFrom(r.jobs[k], search(QueryFor(r.jobs[k])))
        && (k !in s.jobs ==> r.jobs[k].status == Queued && r.jobs[k].parentId.Some? && r.jobs[k].parentId.value in pids)
    decreases |pids|
  {
    if pids != [] {
      var pid := pids[0];
      var cands := search(QueryFor(s.jobs[pid]));
      var o := ResolveParent(s, pid, cands);
      if o.Committed? {
        var s1 := o.state;
        var r := ResolveFrom(s1, pids[1..], search).state;
        ResolveParentFrame(s, pid, cands);
        DistinctTail(pids);
        ResolveFromWrites(s1, pids[1..], search);
        ResolveFromUntouched(s1, pids[1..], search);
        forall k | k in r.jobs && (k !in s.jobs || r.jobs[k].ytId != s.jobs[k].ytId)
          ensures AdmittedFrom(r.jobs[k], search(QueryFor(r.jobs[k])))
          ensures k !in s.jobs ==> r.jobs[k].status == Queued && r.jobs[k].parentId.Some? && r.jobs[k].parentId.value in pids
        {
          if k in s1.jobs && r.jobs[k].ytId == s1.jobs[k].ytId {
            // The write happened while resolving `pid`; the rest of the pass left the row alone.
            assert k !in pids[1..];
            assert r.jobs[k] == s1.jobs[k];
            assert QueryFor(s1.jobs[k]) == QueryFor(s.jobs[pid]);
          }
        }
      }
    }
  }

  /** With distinct, unresolved `pids`, every row keeps its status or takes one transition of the state graph. */
  lemma {:induction false} ResolveFromFollowsGraph(s: State, pids: seq<int>, search: Search)
    requires IdsBelowNext(s) && forall k :: k in pids ==> k in s.jobs && Unresolved(s.jobs[k])
    requires Distinct(pids)
    ensures FollowsGraph(s, ResolveFrom(s, pids, search).state)
    decreases |pids|
  {
    if pids != [] {
      var pid := pids[0];
      var cands := search(QueryFor(s.jobs[pid]));
      var o := ResolveParent(s, pid, cands);
      if o.Committed? {
        var s1 := o.state;
        var r := ResolveFrom(s1, pids[1..], search).state;
        ResolveParentFrame(s, pid, cands);
        DistinctTail(pids);
        assert forall k :: k in pids[1..] ==> k in pids && k != pid;
        ResolveFromFollowsGraph(s1, pids[1..], search);
        ResolveFromUntouched(s1, pids[1..], search);
        assert r.jobs[pid] == s1.jobs[pid];
      }
    }
  }

  /** The pass changes only unresolved rows: waiting, active and every other row keep their contents. */
  lemma ResolvePassTouchesOnlyUnresolved(s: State, search: Search)
    requires IdsBelowNext(s)
    ensures forall k :: k in s.jobs && !Unresolved(s.jobs[k]) ==> ResolvePass(s, search).state.jobs[k] == s.jobs[k]
  {
    ResolveFromUntouched(s, Select(s, Unresolved), search);
  }

  /** The pass keeps the store invariant, follows the state graph, and writes only item ids the filter admits. */
  lemma ResolvePassSound(s: State, search: Search)
    requires Wf(s)
    ensures var r := ResolvePass(s, search).state;
      && Wf(r)
      && FollowsGraph(s, r)
      && forall k :: k in r.jobs && (k !in s.jobs || r.jobs[k].ytId != s.jobs[k].ytId) ==>
           AdmittedFrom(r.jobs[k], search(QueryFor(r.jobs[k])))
  {
    var pids := Select(s, Unresolved);
    ResolveFromWf(s, pids, search);
    ResolveFromFollowsGraph(s, pids, search);
    ResolveFromWrites(s, pids, search);
  }

  /** The row parent `p` becomes when its resolution against `cands` commits: waiting, active, or queued with the first survivor's item id. */
  function ResolvedRow(p: Job, cands: seq<Candidate>): (j: Job)
    ensures j.status != Pending && j.parentId == p.parentId
  {
    var filtered := Filtered(cands, p.minLength, p.maxLength);
    if filtered == [] then p.(status := Waiting)
    else if p.isSeries then p.(status := Active)
    else p.(ytId := filtered[0].id, status := Queued)
  }

  /** A committed resolution leaves the parent row exactly as its own candidates decide. */
  lemma ResolveParentRow(s: State, pid: int, cands: seq<Candidate>)
    requires IdsBelowNext(s) && pid in s.jobs && ResolveParent(s, pid, cands).Committed?
    ensures var r := ResolveParent(s, pid, cands).state;
      pid in r.jobs && r.jobs[pid] == ResolvedRow(s.jobs[pid], cands)
  {
  }

  /**
    A pass over distinct rows that ran to the end resolved every one of
    them: each row ends as its own search and the filter decide.
   */
  lemma {:induction false} CompletedResolvesAll(s: State, pids: seq<int>, search: Search)
    requires IdsBelowNext(s) && Distinct(pids) && forall k :: k in pids ==> k in s.jobs
    requires ResolveFrom(s, pids, search).completed
    ensures var r := ResolveFrom(s, pids, search).state;
      forall k :: k in pids ==> k in r.jobs && r.jobs[k] == ResolvedRow(s.jobs[k], search(QueryFor(s.jobs[k])))
    decreases |pids|
  {
    if pids != [] {
      var pid := pids[0];
      var cands := search(QueryFor(s.jobs[pid]));
      var s1 := ResolveParent(s, pid, cands).state;
      ResolveParentRow(s, pid, cands);
      ResolveParentFrame(s, pid, cands);
      DistinctTail(pids);
      assert forall k :: k in pids[1..] ==> k in pids && k != pid;
      CompletedResolvesAll(s1, pids[1..], search);
      ResolveFromUntouched(s1, pids[1..], search);
    }
  }

  /**
    A resolution pass that did not raise resolved every row that was
    pending without an item id: none is left unresolved, and each ends
    waiting, active, or queued with its first survivor's item id.
   */
  lemma ResolvePassCompleted(s: State, search: Search)
    requires IdsBelowNext(s) && ResolvePass(s, search).completed
    ensures var r := ResolvePass(s, search).state;
      forall k :: k in s.jobs && Unresolved(s.jobs[k]) ==>
        k in r.jobs && !Unresolved(r.jobs[k]) && r.jobs[k] == ResolvedRow(s.jobs[k], search(QueryFor(s.jobs[k])))
  {
    var pids := Select(s, Unresolved);
    assert Distinct(pids);
    CompletedResolvesAll(s, pids, search);
  }

  /** A committed resolution moves the parent out of pending: it becomes waiting, queued or active. */
  lemma ResolveParentLeavesPending(s: State, pid: int, cands: seq<Candidate>)
    requires IdsBelowNext(s) && pid in s.jobs && ResolveParent(s, pid, cands).Committed?
    ensures var r := ResolveParent(s, pid, cands).state;
      pid in r.jobs && (r.jobs[pid].status == Waiting || r.jobs[pid].status == Queued || r.jobs[pid].status == Active)
  {
  }

  /**
    A pass over distinct unresolved rows that raised stopped at `pids[j]`:
    the parents before it were resolved and are no longer pending, while
    `pids[j]` is still unresolved and resolving it again raises again.
   */
  lemma {:induction false} ResolveFromAbortsAt(s: State, pids: seq<int>, search: Search) returns (j: nat)
    requires IdsBelowNext(s) && Distinct(pids)
    requires forall k :: k in pids ==> k in s.jobs && Unresolved(s.jobs[k])
    requires !ResolveFrom(s, pids, search).completed
    ensures j < |pids|
    ensures var r := ResolveFrom(s, pids, search).state;
      && pids[j] in r.jobs && Unresolved(r.jobs[pids[j]])
      && ResolveParent(r, pids[j], search(QueryFor(r.jobs[pids[j]]))).UniqueViolation?
      && forall i :: 0 <= i < j ==> pids[i] in r.jobs && !Unresolved(r.jobs[pids[i]])
    decreases |pids|
  {
    var pid := pids[0];
    var o := ResolveParent(s, pid, search(QueryFor(s.jobs[pid])));
    if o.UniqueViolation? {
      j := 0;
    } else {
      var s1 := o.state;
      ResolveParentFrame(s, pid, search(QueryFor(s.jobs[pid])));
      ResolveParentLeavesPending(s, pid, search(QueryFor(s.jobs[pid])));
      DistinctTail(pids);
      assert forall k :: k in pids[1..] ==> k in pids && k != pid;
      var j' := ResolveFromAbortsAt(s1, pids[1..], search);
      ResolveFromUntouched(s1, pids[1..], search);
      j := j' + 1;
      var r := ResolveFrom(s1, pids[1..], search).state;
      assert r.jobs[pid] == s1.jobs[pid];
      forall i | 0 < i < j ensures pids[i] in r.jobs && !Unresolved(r.jobs[pids[i]]) {
        assert pids[i] == pids[1..][i - 1];
      }
    }
  }

  /**
    The pass is stuck at row `pid`: it is the lowest unresolved row, and
    resolving it raises, so the pass stops there before writing anything.
   */
  predicate StuckAt(s: State, search: Search, pid: int)
    requires IdsBelowNext(s)
  {
    && pid in s.jobs && Unresolved(s.jobs[pid])
    && (forall k :: k in s.jobs && k < pid ==> !Unresolved(s.jobs[k]))
    && ResolveParent(s, pid, search(QueryFor(s.jobs[pid]))).UniqueViolation?
  }

  /** A stuck pass raises at once and writes nothing. */
  lemma StuckPassWritesNothing(s: State, search: Search, pid: int)
    requires IdsBelowNext(s) && StuckAt(s, search, pid)
    ensures ResolvePass(s, search) == PassResult(s, false)
  {
  }

  /** Whether a pass is stuck does not depend on the event log. */
  lemma StuckIgnoresLog(s: State, search: Search, pid: int, log: seq<Event>)
    requires IdsBelowNext(s) && StuckAt(s, search, pid)
    ensures StuckAt(s.(log := log), search, pid)
  {
  }

  /** A pass that raised leaves the table stuck: the row it stopped at is now the lowest unresolved one, and resolving it raises again. */
  lemma AbortLeavesStuck(s: State, search: Search) returns (pid: int)
    requires IdsBelowNext(s) && !ResolvePass(s, search).completed
    ensures StuckAt(ResolvePass(s, search).state, search, pid)
  {
    var pids := Select(s, Unresolved);
    var r := ResolvePass(s, search).state;
    assert Distinct(pids);
    var j := ResolveFromAbortsAt(s, pids, search);
    pid := pids[j];
    ResolveFromUntouched(s, pids, search);
    ResolveFromWrites(s, pids, search);
    forall k | k in r.jobs && k < pid
      ensures !Unresolved(r.jobs[k])
    {
      if k !in s.jobs {
        assert r.jobs[k].status == Queued;
      } else if k in pids {
        var i :| 0 <= i < |pids| && pids[i] == k;
        AscendingIndexOrder(pids, i, j);
      } else {
        assert r.jobs[k] == s.jobs[k];
      }
    }
  }

  /** In an ascending sequence, a smaller element sits at a smaller index. */
  lemma AscendingIndexOrder(ps: seq<int>, i: int, j: int)
    requires forall a, b :: 0 <= a < b < |ps| ==> ps[a] < ps[b]
    requires 0 <= i < |ps| && 0 <= j < |ps| && ps[i] < ps[j]
    ensures i < j
  {
  }
}
