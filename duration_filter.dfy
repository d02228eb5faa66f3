/**
  The duration filter shared by the resolution pass and the series monitor:
  a candidate is kept when its duration lies within the job's minimum and
  maximum length, given in minutes, where a bound of 0 is no bound.
 */
module DurationFilter {
  import opened JobModel

  /** The duration the filter compares, in seconds; a missing duration counts as 0. */
  function Seconds(c: Candidate): int
  {
    if c.duration.Some? then c.duration.value else 0
  }

  /** The candidate is neither shorter than `minL` minutes nor longer than `maxL` minutes, skipping a bound that is 0. */
  predicate Survives(c: Candidate, minL: int, maxL: int)
  {
    var dur := Seconds(c);
    !(minL != 0 && dur < minL * 60) && !(maxL != 0 && dur > maxL * 60)
  }

  /** The surviving candidates, in search order. */
  function Filtered(cs: seq<Candidate>, minL: int, maxL: int): (r: seq<Candidate>)
    ensures |r| <= |cs|
  {
    if cs == [] then []
    else (if Survives(cs[0], minL, maxL) then [cs[0]] else []) + Filtered(cs[1..], minL, maxL)
  }

  /** The filter in the form the bounds are stated in: each set bound, in seconds, is an inclusive limit. */
  lemma SurvivesIff(c: Candidate, minL: int, maxL: int)
    ensures Survives(c, minL, maxL) <==>
      (minL == 0 || Seconds(c) >= minL * 60) && (maxL == 0 || Seconds(c) <= maxL * 60)
  {
  }

  /** With a positive minimum, a candidate without a duration is dropped. */
  lemma MissingDurationDropped(id: Option<string>, minL: int, maxL: int)
    requires minL > 0
    ensures !Survives(Candidate(id, None), minL, maxL)
  {
  }

  /** A candidate is kept exactly when it is one of the inputs and survives the bounds. */
  lemma {:induction false} FilteredMembers(cs: seq<Candidate>, minL: int, maxL: int)
    ensures forall c :: c in Filtered(cs, minL, maxL) <==> c in cs && Survives(c, minL, maxL)
  {
    if cs != [] {
      FilteredMembers(cs[1..], minL, maxL);
      assert cs == [cs[0]] + cs[1..];
    }
  }

  /** Nothing is kept exactly when no candidate survives. */
  lemma FilteredEmptyIff(cs: seq<Candidate>, minL: int, maxL: int)
    ensures Filtered(cs, minL, maxL) == [] <==> forall c :: c in cs ==> !Survives(c, minL, maxL)
  {
  }

  /** The first kept candidate is the first survivor in search order: it is at index `i`, and nothing before `i` survives. */
  lemma {:induction false} FirstSurvivor(cs: seq<Candidate>, minL: int, maxL: int) returns (i: nat)
    requires Filtered(cs, minL, maxL) != []
    ensures i < |cs| && Survives(cs[i], minL, maxL) && Filtered(cs, minL, maxL)[0] == cs[i]
    ensures forall j :: 0 <= j < i ==> !Survives(cs[j], minL, maxL)
  {
    if Survives(cs[0], minL, maxL) {
      i := 0;
    } else {
      var k := FirstSurvivor(cs[1..], minL, maxL);
      i := k + 1;
    }
  }

  /** The filtering loop of the resolution pass, which appends each survivor in turn. */
  method FilterCandidates(cands: seq<Candidate>, minL: int, maxL: int) returns (filtered: seq<Candidate>)
    ensures filtered == Filtered(cands, minL, maxL)
  {
    filtered := [];
    var i := 0;
    while i < |cands|
      invariant 0 <= i <= |cands|
      invariant filtered + Filtered(cands[i..], minL, maxL) == Filtered(cands, minL, maxL)
    {
      var v := cands[i];
      assert cands[i..][1..] == cands[i + 1..];
      if Survives(v, minL, maxL) {
        assert filtered + ([v] + Filtered(cands[i + 1..], minL, maxL))
            == (filtered + [v]) + Filtered(cands[i + 1..], minL, maxL);
        filtered := filtered + [v];
      }
      i := i + 1;
    }
    assert cands[i..] == [];
  }
}
