/**
  The operations of the record store the worker relies on: selecting row ids
  in id order, updating one row's status, and the duplicate-skipping insert
  of a child job. The store hands out row ids in increasing order and keeps
  item ids unique: a row whose non-null item id is already in the table is
  not inserted, and NULL item ids never clash.
 */
module JobStore {
  import opened JobModel
  import opened DurationFilter

  /** The ids in `[lo, hi)` of the rows that satisfy `keep`, ascending (`SELECT ... WHERE ... ORDER BY id`). */
  function IdsWhere(jobs: map<int, Job>, keep: Job -> bool, lo: int, hi: int): (r: seq<int>)
    ensures forall k :: k in r ==> lo <= k < hi && k in jobs && keep(jobs[k])
    ensures forall k :: lo <= k < hi && k in jobs && keep(jobs[k]) ==> k in r
    ensures forall i, j :: 0 <= i < j < |r| ==> r[i] < r[j]
    decreases hi - lo
  {
    if lo >= hi then []
    else
      var rest := IdsWhere(jobs, keep, lo + 1, hi);
      assert forall j :: 0 <= j < |rest| ==> rest[j] in rest && lo < rest[j];
      (if lo in jobs && keep(jobs[lo]) then [lo] else []) + rest
  }

  /** No id occurs twice. */
  predicate Distinct(ids: seq<int>)
  {
    forall i, j :: 0 <= i < j < |ids| ==> ids[i] != ids[j]
  }

  /** The first of distinct ids does not occur again, and the rest are distinct. */
  lemma DistinctTail(ids: seq<int>)
    requires Distinct(ids) && ids != []
    ensures ids[0] !in ids[1..] && Distinct(ids[1..])
  {
  }

  /** Changing columns other than the item id keeps the store invariant. */
  lemma SameItemIdsKeepWf(s: State, r: State)
    requires Wf(s) && r.jobs.Keys == s.jobs.Keys && r.nextId == s.nextId
    requires forall k :: k in s.jobs ==> r.jobs[k].ytId == s.jobs[k].ytId
    ensures Wf(r)
  {
  }

  /** All ids of rows satisfying `keep`, ascending. */
  function Select(s: State, keep: Job -> bool): (r: seq<int>)
    ensures IdsBelowNext(s) ==> forall k :: k in s.jobs && keep(s.jobs[k]) ==> k in r
    ensures forall k :: k in r ==> k in s.jobs && keep(s.jobs[k])
    ensures forall i, j :: 0 <= i < j < |r| ==> r[i] < r[j]
  {
    IdsWhere(s.jobs, keep, 0, s.nextId)
  }

  /** `UPDATE jobs SET status=? WHERE id=?`: a missing row is left missing. */
  function SetStatus(s: State, id: int, st: Status): (r: State)
    ensures r.nextId == s.nextId && r.log == s.log && r.jobs.Keys == s.jobs.Keys
    ensures id in s.jobs ==> r.jobs[id] == s.jobs[id].(status := st)
    ensures forall k :: k in s.jobs && k != id ==> r.jobs[k] == s.jobs[k]
  {
    if id in s.jobs then s.(jobs := s.jobs[id := s.jobs[id].(status := st)]) else s
  }

  /** `INSERT OR IGNORE` of row `j`: skipped when its non-null item id is already in the table, otherwise stored under a fresh id. */
  function InsertOrIgnore(s: State, j: Job): (r: State)
    requires IdsBelowNext(s)
    ensures IdsBelowNext(r) && r.log == s.log
    ensures r == s <==> j.ytId.Some? && HasYtId(s.jobs, j.ytId.value)
    ensures r != s ==> r.jobs == s.jobs[s.nextId := j] && r.nextId == s.nextId + 1
    ensures forall k :: k in s.jobs ==> k in r.jobs && r.jobs[k] == s.jobs[k]
    ensures j.ytId.Some? ==> HasYtId(r.jobs, j.ytId.value)
    ensures UniqueYtIds(s.jobs) ==> UniqueYtIds(r.jobs)
  {
    if j.ytId.Some? && HasYtId(s.jobs, j.ytId.value) then s
    else
      var r := State(s.jobs[s.nextId := j], s.nextId + 1, s.log);
      assert r.jobs[s.nextId] == j;
      r
  }

  /**
    The child row a series parent `p` (row `pid`) spawns for candidate `c`:
    the parent's query, language, always-series flag, bounds and folder,
    status queued, the candidate's item id and a back-reference to `pid`.
   */
  function ChildOf(p: Job, pid: int, isSeries: bool, c: Candidate): (j: Job)
    ensures j.status == Queued && j.ytId == c.id && j.parentId == Some(pid) && j.isSeries == isSeries
    ensures j.query == p.query && j.language == p.language && j.alwaysSeries == p.alwaysSeries
    ensures j.minLength == p.minLength && j.maxLength == p.maxLength && j.folderName == p.folderName
  {
    Job(p.query, p.language, isSeries, p.alwaysSeries, p.minLength, p.maxLength, p.folderName,
        Queued, c.id, Some(pid))
  }

  /** One `INSERT OR IGNORE` of a child row per candidate of `cs`, in order. */
  function InsertChildren(s: State, p: Job, pid: int, isSeries: bool, cs: seq<Candidate>): (r: State)
    requires IdsBelowNext(s)
    ensures IdsBelowNext(r) && r.log == s.log
    ensures s.nextId <= r.nextId <= s.nextId + |cs|
    ensures forall k :: k in s.jobs ==> k in r.jobs && r.jobs[k] == s.jobs[k]
    ensures forall k :: k in r.jobs && k !in s.jobs ==>
      s.nextId <= k && exists c :: c in cs && r.jobs[k] == ChildOf(p, pid, isSeries, c)
    ensures UniqueYtIds(s.jobs) ==> UniqueYtIds(r.jobs)
    decreases |cs|
  {
    if cs == [] then s
    else InsertChildren(InsertOrIgnore(s, ChildOf(p, pid, isSeries, cs[0])), p, pid, isSeries, cs[1..])
  }

  /** After the inserts, the item id of every candidate that has one is in the table: the first insert stored it, or it was already there. */
  lemma {:induction false} InsertChildrenCovers(s: State, p: Job, pid: int, isSeries: bool, cs: seq<Candidate>)
    requires IdsBelowNext(s)
    ensures forall c :: c in cs && c.id.Some? ==> HasYtId(InsertChildren(s, p, pid, isSeries, cs).jobs, c.id.value)
    decreases |cs|
  {
    if cs != [] {
      var s1 := InsertOrIgnore(s, ChildOf(p, pid, isSeries, cs[0]));
      InsertChildrenCovers(s1, p, pid, isSeries, cs[1..]);
      var r := InsertChildren(s1, p, pid, isSeries, cs[1..]);
      forall c | c in cs && c.id.Some?
        ensures HasYtId(r.jobs, c.id.value)
      {
        if c !in cs[1..] {
          assert c == cs[0];
          var k :| k in s1.jobs && s1.jobs[k].ytId == c.id;
          assert r.jobs[k] == s1.jobs[k];
        }
      }
    }
  }

  /** Inserting candidates whose item ids are all in the table already changes nothing. */
  lemma {:induction false} InsertChildrenPresent(s: State, p: Job, pid: int, isSeries: bool, cs: seq<Candidate>)
    requires IdsBelowNext(s)
    requires forall c :: c in cs ==> c.id.Some? && HasYtId(s.jobs, c.id.value)
    ensures InsertChildren(s, p, pid, isSeries, cs) == s
    decreases |cs|
  {
    if cs != [] {
      assert cs[0] in cs;
      assert InsertOrIgnore(s, ChildOf(p, pid, isSeries, cs[0])) == s;
      InsertChildrenPresent(s, p, pid, isSeries, cs[1..]);
    }
  }

  /** Re-polling is safe: inserting the same candidates again, when each has an item id, inserts nothing more. */
  lemma InsertChildrenIdempotent(s: State, p: Job, pid: int, isSeries: bool, cs: seq<Candidate>)
    requires IdsBelowNext(s)
    requires forall c :: c in cs ==> c.id.Some?
    ensures var r := InsertChildren(s, p, pid, isSeries, cs); InsertChildren(r, p, pid, isSeries, cs) == r
  {
    InsertChildrenCovers(s, p, pid, isSeries, cs);
    InsertChildrenPresent(InsertChildren(s, p, pid, isSeries, cs), p, pid, isSeries, cs);
  }

  /** A candidate without an item id is inserted on every attempt: the uniqueness constraint does not compare NULLs. */
  lemma MissingIdInsertedTwice(s: State, p: Job, pid: int, isSeries: bool, c: Candidate)
    requires IdsBelowNext(s) && c.id.None?
    ensures InsertChildren(s, p, pid, isSeries, [c, c]).nextId == s.nextId + 2
  {
  }
}
