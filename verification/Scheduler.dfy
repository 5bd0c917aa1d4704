/** harness/scenarios.py, `Scheduler`: building the weighted table and drawing from it. */
module Scheduler {
  import opened Wrappers

  /** An event of the scenario: whether its kind is known, its weight, and which event it is. */
  datatype Event = Event(known: bool, weight: int, id: nat)

  datatype SchedulerError = UnknownKind(id: nat) | NoEvents

  /** The weights of the first `n` entries. */
  function Total(spec: seq<Event>, n: nat): int
    requires n <= |spec|
  {
    if n == 0 then 0 else Total(spec, n - 1) + spec[n - 1].weight
  }

  predicate FirstUnknown(events: seq<Event>, i: nat) {
    i < |events| && !events[i].known && forall j | 0 <= j < i :: events[j].known
  }

  class Scheduler {
    var spec: seq<Event>
    var total: int

    constructor ()
      ensures spec == [] && total == 0
    {
      spec, total := [], 0;
    }

    /** `__post_init__`. */
    method Load(events: seq<Event>) returns (error: Option<SchedulerError>)
      modifies this
      ensures error.None? <==> events != [] && forall e <- events :: e.known
      ensures error.None? ==> spec == events && total == Total(events, |events|)
      ensures error == Some(NoEvents) <==> events == []
      ensures forall id :: error == Some(UnknownKind(id)) ==>
                exists i :: 0 <= i < |events| && FirstUnknown(events, i) && events[i].id == id
    {
      spec := [];
      for i := 0 to |events|
        invariant spec == events[..i] && forall j | 0 <= j < i :: events[j].known
      {
        if !events[i].known {
          assert FirstUnknown(events, i);
          return Some(UnknownKind(events[i].id));
        }
        spec := spec + [events[i]];
      }
      assert events[..|events|] == events;
      if spec == [] { return Some(NoEvents); }
      total := 0;
      for i := 0 to |spec|
        invariant spec == events && total == Total(events, i)
      {
        total := total + spec[i].weight;
      }
      return None;
    }

    /** `draw`, for a value `r` of the generator; `fallback` tells whether the line after the loop was reached. */
    method Draw(r: int) returns (k: nat, fallback: bool)
      requires spec != [] && 0 <= r < total && total == Total(spec, |spec|)
      ensures !fallback && Picks(spec, r, k)
    {
      k, fallback := |spec| - 1, true;
      var acc := 0;
      for i := 0 to |spec|
        invariant acc == Total(spec, i) && forall j | 0 < j <= i :: Total(spec, j) <= r
      {
        acc := acc + spec[i].weight;
        if r < acc { return i, false; }
      }
      assert false;
    }
  }

  /** Entry `k` is the first whose running total exceeds `r`. */
  predicate Picks(spec: seq<Event>, r: int, k: nat) {
    k < |spec| && r < Total(spec, k + 1) && forall j | 0 < j <= k :: Total(spec, j) <= r
  }

  lemma {:induction false} TotalMonotone(spec: seq<Event>, i: nat, j: nat)
    requires i <= j <= |spec| && forall e <- spec :: e.weight >= 0
    ensures Total(spec, i) <= Total(spec, j)
  {
    if i < j {
      TotalMonotone(spec, i, j - 1);
      assert spec[j - 1] in spec;
    }
  }

  /** With no negative weight, entry `k` answers for exactly the interval between its two running totals. */
  lemma PicksItsInterval(spec: seq<Event>, r: int, k: nat)
    requires forall e <- spec :: e.weight >= 0
    requires r >= 0 && k < |spec|
    ensures Picks(spec, r, k) <==> Total(spec, k) <= r < Total(spec, k + 1)
  {
    if Total(spec, k) <= r {
      forall j | 0 < j <= k
        ensures Total(spec, j) <= r
      {
        TotalMonotone(spec, j, k);
      }
    }
  }

  /** The values of the generator that draw entry `k`. */
  function Values(spec: seq<Event>, k: nat): set<int>
  {
    set r | 0 <= r < Total(spec, |spec|) && Picks(spec, r, k)
  }

  predicate Within(r: int, lo: int, hi: int) {
    lo <= r < hi
  }

  function Interval(lo: int, hi: int): set<int> {
    set r | lo <= r < hi && Within(r, lo, hi)
  }

  lemma {:induction false} IntervalSize(lo: int, hi: int)
    requires lo <= hi
    ensures |Interval(lo, hi)| == hi - lo
    decreases hi - lo
  {
    if lo < hi {
      IntervalSize(lo, hi - 1);
      assert Interval(lo, hi) == Interval(lo, hi - 1) + {hi - 1};
    } else {
      assert Interval(lo, hi) == {};
    }
  }

  lemma ValuesAreInterval(spec: seq<Event>, k: nat)
    requires k < |spec| && forall e <- spec :: e.weight >= 0
    ensures |Values(spec, k)| == spec[k].weight
  {
    TotalMonotone(spec, 0, k);
    TotalMonotone(spec, k + 1, |spec|);
    assert spec[k] in spec;
    var lo, hi := Total(spec, k), Total(spec, k + 1);
    forall r: int
      ensures r in Values(spec, k) <==> r in Interval(lo, hi)
    {
      if r >= 0 { PicksItsInterval(spec, r, k); }
    }
    assert Values(spec, k) == Interval(lo, hi);
    IntervalSize(lo, hi);
  }

  /**
    Fair exactly without negative weights: every entry is drawn for as many of the values as its weight says
    if and only if no weight is negative. Weights are not checked.
   */
  lemma FairExactly(spec: seq<Event>)
    ensures (forall k: nat | k < |spec| :: |Values(spec, k)| == spec[k].weight) <==> forall e <- spec :: e.weight >= 0
  {
    if forall e <- spec :: e.weight >= 0 {
      forall k: nat | k < |spec|
        ensures |Values(spec, k)| == spec[k].weight
      {
        ValuesAreInterval(spec, k);
      }
    }
    if forall k: nat | k < |spec| :: |Values(spec, k)| == spec[k].weight {
      forall e <- spec
        ensures e.weight >= 0
      {
        var k: nat :| k < |spec| && spec[k] == e;
        assert |Values(spec, k)| == spec[k].weight;
      }
    }
  }

  /** Such a table can still be drawn from: weights 3 and -1 leave two values, and both draw the first entry. */
  lemma NegativeWeightUnfair() returns (spec: seq<Event>)
    ensures |spec| == 2 && Total(spec, |spec|) == 2 && spec[0].weight == 3 && |Values(spec, 0)| == 2
      && Values(spec, 1) == {}
  {
    spec := [Event(true, 3, 0), Event(true, -1, 1)];
    assert Total(spec, 0) == 0 && Total(spec, 1) == 3 && Total(spec, 2) == 2;
    IntervalSize(0, 2);
    forall r: int
      ensures r in Values(spec, 0) <==> r in Interval(0, 2)
      ensures r !in Values(spec, 1)
    {
      if r in Interval(0, 2) { assert Within(r, 0, 2) && Picks(spec, r, 0); }
    }
    assert Values(spec, 0) == Interval(0, 2);
  }
}
