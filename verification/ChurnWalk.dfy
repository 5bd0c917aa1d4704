/**
  harness/scenarios.py, `ev_churn` in its walk mode: a speaker announces the next window of its prefixes and
  withdraws the one before. Its commands are taken to work.
 */
module ChurnWalk {
  import opened Arith
  import opened Wrappers
  import opened Sequences
  import opened Sessions
  import opened MrtWriting
  import opened PrefixPlanning
  import opened PrefixWindows
  import opened WindowOffsets

  /** Both families have room for prefixes, as in every plan that was checked. */
  predicate Usable(plan: PrefixPlan) {
    plan.Built() && plan.Capacity(false) > 0 && plan.Capacity(true) > 0
  }

  /** How many prefixes of a family an event asks for. */
  function Wanted(count: int, fraction: real): nat {
    if count == 0 then 0 else Max(1, Trunc(count as real * fraction))
  }

  /** `_session_prefixes`, for one family: the first of them. */
  function Taken(plan: PrefixPlan, s: Session, v6: bool, fraction: real, offset: int): seq<Prefix>
    requires Usable(plan)
  {
    var ps := plan.SessionPrefixes(v6, s.nlriSlot, s.Prefixes(v6), offset);
    ps[..Min(Wanted(s.Prefixes(v6), fraction), |ps|)]
  }

  /** How far one walk moves the offset: by its IPv4 prefixes, or its IPv6 ones where there are no others. */
  function StepOf(four: nat, six: nat): nat {
    if four > 0 then four else Max(1, six)
  }

  /** Offset and announced prefixes after one walk. */
  function Walked(plan: PrefixPlan, s: Session, fraction: real, offset: int, rib: set<Prefix>): (int, set<Prefix>)
    requires Usable(plan)
  {
    var v4, v6 := Taken(plan, s, false, fraction, offset), Taken(plan, s, true, fraction, offset);
    if v4 == [] && v6 == [] then (offset, rib)
    else
      var next := offset + StepOf(|v4|, |v6|);
      var n4, n6 := Taken(plan, s, false, fraction, next), Taken(plan, s, true, fraction, next);
      (next, rib + SetOf(n4) + SetOf(n6) - SetOf(v4) - SetOf(v6))
  }

  /** A speaker: where its walk stands, and what it announces. */
  class Speaker {
    var offset: int
    var rib: set<Prefix>

    constructor (table: set<Prefix>)
      ensures offset == 0 && rib == table
    {
      offset, rib := 0, table;
    }

    /** `global rib add` for each. */
    method Add(ps: seq<Prefix>)
      modifies this`rib
      ensures rib == old(rib) + SetOf(ps)
    {
      for i := 0 to |ps|
        invariant rib == old(rib) + SetOf(ps[..i])
      {
        assert ps[..i + 1] == ps[..i] + [ps[i]];
        rib := rib + {ps[i]};
      }
      assert ps[..|ps|] == ps;
    }

    /** `global rib del` for each. */
    method Del(ps: seq<Prefix>)
      modifies this`rib
      ensures rib == old(rib) - SetOf(ps)
    {
      for i := 0 to |ps|
        invariant rib == old(rib) - SetOf(ps[..i])
      {
        assert ps[..i + 1] == ps[..i] + [ps[i]];
        rib := rib - {ps[i]};
      }
      assert ps[..|ps|] == ps;
    }

    /** One walk; `n` is how many prefixes it counts as changed. */
    method Walk(plan: PrefixPlan, s: Session, fraction: real) returns (n: nat)
      requires Usable(plan)
      modifies this
      ensures (offset, rib) == Walked(plan, s, fraction, old(offset), old(rib))
      ensures n == 2 * (|Taken(plan, s, false, fraction, 0)| + |Taken(plan, s, true, fraction, 0)|)
    {
      hide Taken;
      TakenCount(plan, s, fraction, offset);
      var v4 := Taken(plan, s, false, fraction, offset);
      var v6 := Taken(plan, s, true, fraction, offset);
      n := |v4| + |v6|;
      if n == 0 { return; }
      var next := offset + Max(1, if |v4| != 0 then |v4| else |v6|);
      TakenCount(plan, s, fraction, next);
      var n4 := Taken(plan, s, false, fraction, next);
      var n6 := Taken(plan, s, true, fraction, next);
      Add(n4);
      Add(n6);
      Del(v4);
      Del(v6);
      offset := next;
      n := |n4| + |n6| + n;
    }
  }

  /** What is taken does not depend in number on the offset. */
  lemma TakenCount(plan: PrefixPlan, s: Session, fraction: real, offset: int)
    requires Usable(plan)
    ensures forall v6 :: |Taken(plan, s, v6, fraction, offset)| == |Taken(plan, s, v6, fraction, 0)|
  {
    hide PrefixPlan.SessionPrefixes, Wanted;
    forall v6
      ensures |Taken(plan, s, v6, fraction, offset)| == |Taken(plan, s, v6, fraction, 0)|
    {
      OffsetMovesPrefixes(plan, v6, s.nlriSlot, s.Prefixes(v6), 0, offset);
    }
  }

  // ---- any number of walks ----

  function LoadedTable(plan: PrefixPlan, s: Session, v6: bool): set<Prefix>
    requires Usable(plan)
  {
    SetOf(plan.SessionPrefixes(v6, s.nlriSlot, s.Prefixes(v6), 0))
  }

  /** Offset and announced prefixes after `k` walks from the loaded table. */
  function AfterWalks(plan: PrefixPlan, s: Session, fraction: real, k: nat): (int, set<Prefix>)
    requires Usable(plan)
  {
    if k == 0 then (0, LoadedTable(plan, s, false) + LoadedTable(plan, s, true))
    else
      var (offset, rib) := AfterWalks(plan, s, fraction, k - 1);
      Walked(plan, s, fraction, offset, rib)
  }

  /** One family of it, when each walk moves on by `step`. */
  function FamilyAfter(plan: PrefixPlan, s: Session, v6: bool, fraction: real, step: nat, k: nat): set<Prefix>
    requires Usable(plan)
  {
    if k == 0 then LoadedTable(plan, s, v6)
    else
      FamilyAfter(plan, s, v6, fraction, step, k - 1) + SetOf(Taken(plan, s, v6, fraction, k * step))
      - SetOf(Taken(plan, s, v6, fraction, (k - 1) * step))
  }

  lemma TakenFamily(plan: PrefixPlan, s: Session, v6: bool, fraction: real, offset: int)
    requires Usable(plan)
    ensures forall p <- plan.SessionPrefixes(v6, s.nlriSlot, s.Prefixes(v6), offset) :: p.v6 == v6
    ensures forall p <- SetOf(Taken(plan, s, v6, fraction, offset)) :: p.v6 == v6
  {
    hide PrefixPlan.At, PrefixPlan.SessionIndices, Wanted;
    var ps := plan.SessionPrefixes(v6, s.nlriSlot, s.Prefixes(v6), offset);
    forall i | 0 <= i < |ps|
      ensures ps[i].v6 == v6
    {
      AtInPool(plan, v6, plan.SessionIndices(v6, s.nlriSlot, s.Prefixes(v6), offset)[i]);
    }
  }

  lemma {:induction false} FamilyApart(plan: PrefixPlan, s: Session, v6: bool, fraction: real, step: nat, k: nat)
    requires Usable(plan)
    ensures forall p <- FamilyAfter(plan, s, v6, fraction, step, k) :: p.v6 == v6
  {
    hide Taken;
    TakenFamily(plan, s, v6, fraction, k * step);
    if k == 0 {
      TakenFamily(plan, s, v6, fraction, 0);
    } else {
      FamilyApart(plan, s, v6, fraction, step, k - 1);
    }
  }

  /** The two families do not touch each other; the offset is shared. */
  lemma {:induction false} AfterWalksIs(plan: PrefixPlan, s: Session, fraction: real, k: nat)
    requires Usable(plan)
    requires Taken(plan, s, false, fraction, 0) != [] || Taken(plan, s, true, fraction, 0) != []
    ensures var step := StepOf(|Taken(plan, s, false, fraction, 0)|, |Taken(plan, s, true, fraction, 0)|);
            AfterWalks(plan, s, fraction, k) ==
              (k * step, FamilyAfter(plan, s, false, fraction, step, k) + FamilyAfter(plan, s, true, fraction, step, k))
  {
    hide Taken, LoadedTable, SetOf, PrefixPlan.Built, PrefixPlan.Capacity;
    var step := StepOf(|Taken(plan, s, false, fraction, 0)|, |Taken(plan, s, true, fraction, 0)|);
    if k > 0 {
      AfterWalksIs(plan, s, fraction, k - 1);
      assert (k - 1) * step + step == k * step;
      TakenCount(plan, s, fraction, (k - 1) * step);
      var r4 := FamilyAfter(plan, s, false, fraction, step, k - 1);
      var r6 := FamilyAfter(plan, s, true, fraction, step, k - 1);
      var n4, n6 := SetOf(Taken(plan, s, false, fraction, k * step)), SetOf(Taken(plan, s, true, fraction, k * step));
      var o4 := SetOf(Taken(plan, s, false, fraction, (k - 1) * step));
      var o6 := SetOf(Taken(plan, s, true, fraction, (k - 1) * step));
      FamilyApart(plan, s, false, fraction, step, k - 1);
      FamilyApart(plan, s, true, fraction, step, k - 1);
      forall v6
        ensures forall p <- SetOf(Taken(plan, s, v6, fraction, k * step)) :: p.v6 == v6
        ensures forall p <- SetOf(Taken(plan, s, v6, fraction, (k - 1) * step)) :: p.v6 == v6
      {
        TakenFamily(plan, s, v6, fraction, k * step);
        TakenFamily(plan, s, v6, fraction, (k - 1) * step);
      }
      TwoFamilies(r4, r6, n4, n6, o4, o6);
    }
  }

  lemma TwoFamilies(r4: set<Prefix>, r6: set<Prefix>, n4: set<Prefix>, n6: set<Prefix>, o4: set<Prefix>,
                    o6: set<Prefix>)
    requires forall p | p in r4 || p in n4 || p in o4 :: !p.v6
    requires forall p | p in r6 || p in n6 || p in o6 :: p.v6
    ensures r4 + r6 + n4 + n6 - o4 - o6 == (r4 + n4 - o4) + (r6 + n6 - o6)
  {
  }

  // ---- index by index ----

  /**
    A session that walks within its own window and the capacity: `m` prefixes at a time, from a table of `n` of its
    own that starts at `start`.
   */
  predicate Roams(plan: PrefixPlan, s: Session, v6: bool, fraction: real, step: nat, k: nat) {
    && Usable(plan) && plan.Pool(v6) >= 0
    && var n, start := OwnCount(plan, s.Prefixes(v6)), SlotStart(plan, v6, s.nlriSlot, s.Prefixes(v6));
    && Wanted(s.Prefixes(v6), fraction) <= n
    && start + n <= plan.Capacity(v6) && start + k * step + Wanted(s.Prefixes(v6), fraction) <= plan.Capacity(v6)
  }

  lemma TakenIsWindow(plan: PrefixPlan, s: Session, v6: bool, fraction: real, offset: int)
    requires Usable(plan) && Wanted(s.Prefixes(v6), fraction) <= OwnCount(plan, s.Prefixes(v6))
    ensures Taken(plan, s, v6, fraction, offset)
         == Window(plan, v6, SlotStart(plan, v6, s.nlriSlot, s.Prefixes(v6)) + offset, Wanted(s.Prefixes(v6), fraction))
  {
    hide PrefixPlan.At, PrefixPlan.SessionPrefixes, PrefixPlan.Capacity, OwnCount, SlotStart, Wanted;
    OffsetMovesPrefixes(plan, v6, s.nlriSlot, s.Prefixes(v6), offset, 0);
  }

  /** An index below the capacity is in a window exactly when it is between its ends. */
  lemma InWindow(plan: PrefixPlan, v6: bool, a: nat, n: nat, i: nat)
    requires plan.Built() && plan.Capacity(v6) > 0 && a + n <= plan.Capacity(v6) && i < plan.Capacity(v6)
    ensures plan.At(v6, i) in SetOf(Window(plan, v6, a, n)) <==> a <= i < a + n
  {
    hide PrefixPlan.At, PrefixPlan.Capacity;
    var w := Window(plan, v6, a, n);
    if a <= i < a + n { assert w[i - a] == plan.At(v6, i); }
    if plan.At(v6, i) in SetOf(w) {
      var j :| 0 <= j < n && w[j] == plan.At(v6, i);
      AtDiffers(plan, v6, i, a + j);
    }
  }

  /** Index `i` of the session is in the window of walk `j`. */
  predicate Within(i: nat, j: nat, step: nat, m: nat) {
    j * step <= i < j * step + m
  }

  lemma StartsBehindPool(plan: PrefixPlan, v6: bool, slot: nat, count: int)
    ensures SlotStart(plan, v6, slot, count) >= plan.Pool(v6)
  {
  }

  /** What stands at `i` of the list is one of its own, or of the contested pool. */
  lemma LoadedAt(plan: PrefixPlan, s: Session, v6: bool, i: nat) returns (index: int)
    requires Usable(plan) && i < |plan.SessionPrefixes(v6, s.nlriSlot, s.Prefixes(v6), 0)|
    ensures plan.SessionPrefixes(v6, s.nlriSlot, s.Prefixes(v6), 0)[i] == plan.At(v6, index)
    ensures i < OwnCount(plan, s.Prefixes(v6)) ==> index == SlotStart(plan, v6, s.nlriSlot, s.Prefixes(v6)) + i
    ensures i >= OwnCount(plan, s.Prefixes(v6)) ==> 0 <= index < plan.Pool(v6)
  {
    hide PrefixPlan.At, PrefixPlan.Capacity, PrefixPlan.SessionIndices, PrefixPlan.Contested;
    IndicesAre(plan, v6, s.nlriSlot, s.Prefixes(v6), 0);
    index := plan.SessionIndices(v6, s.nlriSlot, s.Prefixes(v6), 0)[i];
  }

  /** Of the indices from its start on, the loaded table holds the own window. */
  lemma LoadedHolds(plan: PrefixPlan, s: Session, v6: bool, i: nat)
    requires Usable(plan) && plan.Pool(v6) >= 0
    requires var n, start := OwnCount(plan, s.Prefixes(v6)), SlotStart(plan, v6, s.nlriSlot, s.Prefixes(v6));
             start + n <= plan.Capacity(v6) && start + i < plan.Capacity(v6)
    ensures plan.At(v6, SlotStart(plan, v6, s.nlriSlot, s.Prefixes(v6)) + i) in LoadedTable(plan, s, v6) <==>
      i < OwnCount(plan, s.Prefixes(v6))
  {
    var count := s.Prefixes(v6);
    hide PrefixPlan.At, PrefixPlan.Capacity, PrefixPlan.SessionIndices, PrefixPlan.SessionPrefixes, PrefixPlan.Built;
    hide OwnCount, SlotStart, PrefixPlan.Pool;
    var n, start := OwnCount(plan, count), SlotStart(plan, v6, s.nlriSlot, count);
    StartsBehindPool(plan, v6, s.nlriSlot, count);
    OffsetMovesPrefixes(plan, v6, s.nlriSlot, count, 0, 0);
    var ps := plan.SessionPrefixes(v6, s.nlriSlot, count, 0);
    if plan.At(v6, start + i) in SetOf(ps) {
      var j :| 0 <= j < |ps| && ps[j] == plan.At(v6, start + i);
      var index := LoadedAt(plan, s, v6, j);
      AtDiffers(plan, v6, index, start + i);
    }
    if i < n { assert ps[i] in SetOf(ps); }
  }

  lemma LaterStarts(j: nat, k: nat, step: nat)
    requires j <= k
    ensures j * step <= k * step && (j < k ==> j * step + step <= k * step)
  {
    MulMonotone(j, k, step);
    if j < k {
      MulMonotone(j + 1, k, step);
      assert (j + 1) * step == j * step + step;
    }
  }

  /**
    After any number of walks a prefix of the session is announced exactly when it is in the loaded table or in the
    current window, and was in no earlier window.
   */
  lemma {:induction false} WalksLeave(plan: PrefixPlan, s: Session, v6: bool, fraction: real, step: nat, k: nat, i: nat)
    requires Roams(plan, s, v6, fraction, step, k)
    requires SlotStart(plan, v6, s.nlriSlot, s.Prefixes(v6)) + i < plan.Capacity(v6)
    ensures var m := Wanted(s.Prefixes(v6), fraction);
            var p := plan.At(v6, SlotStart(plan, v6, s.nlriSlot, s.Prefixes(v6)) + i);
            p in FamilyAfter(plan, s, v6, fraction, step, k) <==>
              && (i < OwnCount(plan, s.Prefixes(v6)) || Within(i, k, step, m))
              && forall j: nat | j < k :: !Within(i, j, step, m)
  {
    var count := s.Prefixes(v6);
    hide PrefixPlan.At, PrefixPlan.Capacity, PrefixPlan.Built, OwnCount, SlotStart, Wanted, Taken, LoadedTable;
    var m, n, start := Wanted(count, fraction), OwnCount(plan, count), SlotStart(plan, v6, s.nlriSlot, count);
    StartsBehindPool(plan, v6, s.nlriSlot, count);
    LoadedHolds(plan, s, v6, i);
    if k > 0 {
      LaterStarts(k - 1, k, step);
      WalksLeave(plan, s, v6, fraction, step, k - 1, i);
      TakenIsWindow(plan, s, v6, fraction, k * step);
      TakenIsWindow(plan, s, v6, fraction, (k - 1) * step);
      InWindow(plan, v6, start + k * step, m, start + i);
      InWindow(plan, v6, start + (k - 1) * step, m, start + i);
      forall j: nat | j < k
        ensures Within(i, k, step, m) && Within(i, j, step, m) ==> Within(i, k - 1, step, m)
      {
        LaterStarts(j, k - 1, step);
        LaterStarts(j, k, step);
      }
      var p := plan.At(v6, start + i);
      assert p in FamilyAfter(plan, s, v6, fraction, step, k) <==>
        (p in FamilyAfter(plan, s, v6, fraction, step, k - 1) || Within(i, k, step, m)) && !Within(i, k - 1, step, m);
      assert (forall j: nat | j < k :: !Within(i, j, step, m)) <==>
        !Within(i, k - 1, step, m) && forall j: nat | j < k - 1 :: !Within(i, j, step, m);
    }
  }

  /**
    The promise that every prefix of the new window is there: after a walk it is kept if and only if a walk takes no
    more of the family than it moves on by. The offset is shared, so IPv6 breaks it whenever more IPv6 prefixes are
    taken than IPv4 ones.
   */
  lemma WindowAnnouncedExactly(plan: PrefixPlan, s: Session, v6: bool, fraction: real, step: nat, k: nat)
    requires Roams(plan, s, v6, fraction, step, k) && k > 0 && step > 0
    ensures SetOf(Taken(plan, s, v6, fraction, k * step)) <= FamilyAfter(plan, s, v6, fraction, step, k)
      <==> Wanted(s.Prefixes(v6), fraction) <= step
  {
    var count := s.Prefixes(v6);
    hide PrefixPlan.At, PrefixPlan.Capacity, PrefixPlan.Built, OwnCount, SlotStart, Wanted, Taken, FamilyAfter;
    var m, start := Wanted(count, fraction), SlotStart(plan, v6, s.nlriSlot, count);
    StartsBehindPool(plan, v6, s.nlriSlot, count);
    TakenIsWindow(plan, s, v6, fraction, k * step);
    var window := Window(plan, v6, start + k * step, m);
    forall x | 0 <= x < m
      ensures window[x] in FamilyAfter(plan, s, v6, fraction, step, k) <==> x + step >= m
    {
      var i := k * step + x;
      assert window[x] == plan.At(v6, start + i);
      WalksLeave(plan, s, v6, fraction, step, k, i);
      LaterStarts(k - 1, k, step);
      assert k * step == (k - 1) * step + step;
      if x + step < m { assert Within(i, k - 1, step, m); }
      assert Within(i, k, step, m);
      forall j: nat | j < k
        ensures Within(i, j, step, m) ==> x + step < m
      {
        LaterStarts(j, k, step);
      }
    }
    if m > step { assert window[0] in SetOf(window); }
  }

  // ---- how many are left ----

  /** The contested prefixes of the loaded table; no walk within the own window touches them. */
  function Pooled(plan: PrefixPlan, s: Session, v6: bool): set<Prefix>
    requires Usable(plan)
  {
    var ps := plan.SessionPrefixes(v6, s.nlriSlot, s.Prefixes(v6), 0);
    SetOf(ps[Min(OwnCount(plan, s.Prefixes(v6)), |ps|)..])
  }

  lemma PooledApart(plan: PrefixPlan, s: Session, v6: bool, a: nat, n: nat)
    requires Usable(plan) && plan.Pool(v6) <= a && a + n <= plan.Capacity(v6)
    ensures Pooled(plan, s, v6) !! SetOf(Window(plan, v6, a, n))
  {
    hide PrefixPlan.At, PrefixPlan.Capacity, PrefixPlan.SessionPrefixes, PrefixPlan.Pool, OwnCount;
    var ps := plan.SessionPrefixes(v6, s.nlriSlot, s.Prefixes(v6), 0);
    var own := Min(OwnCount(plan, s.Prefixes(v6)), |ps|);
    OffsetMovesPrefixes(plan, v6, s.nlriSlot, s.Prefixes(v6), 0, 0);
    if p :| p in Pooled(plan, s, v6) && p in SetOf(Window(plan, v6, a, n)) {
      var j :| 0 <= j < |ps| - own && ps[own..][j] == p;
      var index := LoadedAt(plan, s, v6, own + j);
      InWindow(plan, v6, a, n, index);
    }
  }

  lemma WindowParts(plan: PrefixPlan, v6: bool, a: nat, n: nat, m: nat)
    requires plan.Built() && plan.Capacity(v6) > 0 && a + m + n <= plan.Capacity(v6)
    ensures SetOf(Window(plan, v6, a, m + n)) == SetOf(Window(plan, v6, a, m)) + SetOf(Window(plan, v6, a + m, n))
    ensures SetOf(Window(plan, v6, a, m)) !! SetOf(Window(plan, v6, a + m, n))
  {
    hide PrefixPlan.At, PrefixPlan.Capacity;
    var first, second := Window(plan, v6, a, m), Window(plan, v6, a + m, n);
    assert Window(plan, v6, a, m + n) == first + second;
    RangesDisjoint(plan, v6, a, m, a + m, n);
  }

  lemma LongerWindow(plan: PrefixPlan, v6: bool, a: nat, n: nat, m: nat)
    requires plan.Built() && plan.Capacity(v6) > 0
    ensures SetOf(Window(plan, v6, a, n)) + SetOf(Window(plan, v6, a, m)) == SetOf(Window(plan, v6, a, Max(n, m)))
  {
    hide PrefixPlan.At, PrefixPlan.Capacity;
    var longer, shorter := Window(plan, v6, a, Max(n, m)), Window(plan, v6, a, Min(n, m));
    assert shorter == longer[..Min(n, m)];
  }

  /** Announcing the next `m` and withdrawing the first `m` moves the window on. */
  lemma WindowSlides(plan: PrefixPlan, v6: bool, others: set<Prefix>, a: nat, n: nat, m: nat)
    requires plan.Built() && plan.Capacity(v6) > 0
    requires m <= n && a + n <= plan.Capacity(v6) && a + m + m <= plan.Capacity(v6)
    requires others !! SetOf(Window(plan, v6, a, m))
    ensures others + SetOf(Window(plan, v6, a, n)) + SetOf(Window(plan, v6, a + m, m)) - SetOf(Window(plan, v6, a, m))
         == others + SetOf(Window(plan, v6, a + m, Max(n - m, m)))
  {
    hide PrefixPlan.At, PrefixPlan.Capacity, Window, SetOf;
    WindowParts(plan, v6, a, n - m, m);
    WindowParts(plan, v6, a, m, m);
    LongerWindow(plan, v6, a + m, n - m, m);
  }

  /** A family that moves on by what it takes: of the own window `k * m` prefixes are gone, but `m` always remain. */
  lemma {:induction false} WindowShrinks(plan: PrefixPlan, s: Session, v6: bool, fraction: real, k: nat)
    requires Roams(plan, s, v6, fraction, Wanted(s.Prefixes(v6), fraction), k)
    ensures var n, m := OwnCount(plan, s.Prefixes(v6)), Wanted(s.Prefixes(v6), fraction);
            var start := SlotStart(plan, v6, s.nlriSlot, s.Prefixes(v6));
            && start >= 0
            && FamilyAfter(plan, s, v6, fraction, m, k)
            == Pooled(plan, s, v6) + SetOf(Window(plan, v6, start + k * m, Max(n - k * m, m)))
  {
    var count := s.Prefixes(v6);
    hide PrefixPlan.At, PrefixPlan.Capacity, PrefixPlan.Built, OwnCount, SlotStart, Wanted, Taken, Pooled;
    hide SetOf, Window, LoadedTable;
    var n, m, start := OwnCount(plan, count), Wanted(count, fraction), SlotStart(plan, v6, s.nlriSlot, count);
    StartsBehindPool(plan, v6, s.nlriSlot, count);
    if k == 0 {
      LoadedSplits(plan, s, v6);
    } else {
      LaterStarts(k - 1, k, m);
      assert k * m == (k - 1) * m + m;
      WindowShrinks(plan, s, v6, fraction, k - 1);
      TakenIsWindow(plan, s, v6, fraction, k * m);
      TakenIsWindow(plan, s, v6, fraction, (k - 1) * m);
      PooledApart(plan, s, v6, start + (k - 1) * m, m);
      WindowSlides(plan, v6, Pooled(plan, s, v6), start + (k - 1) * m, Max(n - (k - 1) * m, m), m);
    }
  }

  lemma LoadedSplits(plan: PrefixPlan, s: Session, v6: bool)
    requires Usable(plan)
    ensures LoadedTable(plan, s, v6) == Pooled(plan, s, v6)
      + SetOf(Window(plan, v6, SlotStart(plan, v6, s.nlriSlot, s.Prefixes(v6)), OwnCount(plan, s.Prefixes(v6))))
  {
    hide PrefixPlan.At, PrefixPlan.Capacity, PrefixPlan.SessionPrefixes, OwnCount, SlotStart;
    var count := s.Prefixes(v6);
    OffsetMovesPrefixes(plan, v6, s.nlriSlot, count, 0, 0);
    var ps, n := plan.SessionPrefixes(v6, s.nlriSlot, count, 0), OwnCount(plan, count);
    assert ps == ps[..n] + ps[n..];
    assert ps[..n] == Window(plan, v6, SlotStart(plan, v6, s.nlriSlot, count), n);
  }

  lemma WindowSize(plan: PrefixPlan, v6: bool, a: nat, n: nat)
    requires plan.Built() && plan.Capacity(v6) > 0 && a + n <= plan.Capacity(v6)
    ensures |SetOf(Window(plan, v6, a, n))| == n
  {
    hide PrefixPlan.At, PrefixPlan.Capacity;
    var w := Window(plan, v6, a, n);
    forall i, j | 0 <= i < j < n
      ensures w[i] != w[j]
    {
      AtDiffers(plan, v6, a + i, a + j);
    }
    SetSizeIsDistinct(w);
  }

  /**
    The promise that the table keeps its size: a family that moves on by what it takes keeps it if and only if every
    walk takes the whole own window. Otherwise the first walks announce what is announced already and withdraw it
    after; `n - m` prefixes are gone in the end.
   */
  lemma SizeKeptExactly(plan: PrefixPlan, s: Session, v6: bool, fraction: real, k: nat)
    requires Roams(plan, s, v6, fraction, Wanted(s.Prefixes(v6), fraction), k)
    ensures var n, m := OwnCount(plan, s.Prefixes(v6)), Wanted(s.Prefixes(v6), fraction);
            var loaded, left := |LoadedTable(plan, s, v6)|, |FamilyAfter(plan, s, v6, fraction, m, k)|;
            left == loaded - n + Max(n - k * m, m) && (left == loaded <==> k == 0 || m == 0 || m == n)
  {
    hide Roams, OwnCount, Wanted, LoadedTable;
    RoamsLess(plan, s, v6, fraction, Wanted(s.Prefixes(v6), fraction), 0, k);
    SizeAfter(plan, s, v6, fraction, k);
    SizeAfter(plan, s, v6, fraction, 0);
    LeftOf(OwnCount(plan, s.Prefixes(v6)), Wanted(s.Prefixes(v6), fraction), k);
  }

  lemma LeftOf(n: nat, m: nat, k: nat)
    requires m <= n
    ensures Max(n - 0 * m, m) == n && (Max(n - k * m, m) == n <==> k == 0 || m == 0 || m == n)
  {
    LaterStarts(0, k, m);
    if k > 0 { LaterStarts(1, k, m); }
  }

  lemma RoamsLess(plan: PrefixPlan, s: Session, v6: bool, fraction: real, step: nat, j: nat, k: nat)
    requires Roams(plan, s, v6, fraction, step, k) && j <= k
    ensures Roams(plan, s, v6, fraction, step, j)
    ensures Wanted(s.Prefixes(v6), fraction) <= OwnCount(plan, s.Prefixes(v6))
  {
    hide OwnCount, Wanted, SlotStart, PrefixPlan.Capacity;
    LaterStarts(j, k, step);
  }

  lemma SizeAfter(plan: PrefixPlan, s: Session, v6: bool, fraction: real, k: nat)
    requires Roams(plan, s, v6, fraction, Wanted(s.Prefixes(v6), fraction), k)
    ensures var n, m := OwnCount(plan, s.Prefixes(v6)), Wanted(s.Prefixes(v6), fraction);
            |FamilyAfter(plan, s, v6, fraction, m, k)| == |Pooled(plan, s, v6)| + Max(n - k * m, m)
  {
    var count := s.Prefixes(v6);
    hide PrefixPlan.At, PrefixPlan.Capacity, PrefixPlan.Built, OwnCount, SlotStart, Wanted, Pooled, FamilyAfter, Window;
    var n, m, start := OwnCount(plan, count), Wanted(count, fraction), SlotStart(plan, v6, s.nlriSlot, count);
    StartsBehindPool(plan, v6, s.nlriSlot, count);
    LaterStarts(0, k, m);
    WindowShrinks(plan, s, v6, fraction, k);
    var left := Max(n - k * m, m);
    PooledApart(plan, s, v6, start + k * m, left);
    WindowSize(plan, v6, start + k * m, left);
  }

  /** Of a non-negative share, its whole part, but one prefix at least wherever the family has any. */
  lemma WantedIs(count: int, fraction: real)
    ensures count == 0 ==> Wanted(count, fraction) == 0
    ensures count != 0 ==>
      var share, wanted := count as real * fraction, Wanted(count, fraction);
      wanted >= 1 && (if share < 1.0 then wanted == 1 else wanted as real <= share < wanted as real + 1.0)
  {
  }

  /** What goes wrong at once where more IPv6 prefixes are taken than IPv4 ones, and not the whole own window. */
  lemma FirstWalkLoses(plan: PrefixPlan, s: Session, fraction: real)
    requires var m4, m6 := Wanted(s.prefixesV4, fraction), Wanted(s.prefixesV6, fraction);
             && 0 < m4 < m6 && m4 < OwnCount(plan, s.prefixesV4)
             && Roams(plan, s, false, fraction, m4, 1) && Roams(plan, s, true, fraction, m4, 1)
    ensures var (offset, rib) := AfterWalks(plan, s, fraction, 1);
            && offset == Wanted(s.prefixesV4, fraction)
            && !(SetOf(Taken(plan, s, true, fraction, offset)) <= rib)
            && |FamilyOf(rib, false)| == |LoadedTable(plan, s, false)| - OwnCount(plan, s.prefixesV4)
               + Max(OwnCount(plan, s.prefixesV4) - offset, offset)
  {
    hide Taken, FamilyAfter, AfterWalks, LoadedTable, Wanted, OwnCount, SlotStart, SetOf;
    assert s.prefixesV4 == s.Prefixes(false) && s.prefixesV6 == s.Prefixes(true);
    var m4 := Wanted(s.prefixesV4, fraction);
    TakenIsWindow(plan, s, false, fraction, 0);
    TakenIsWindow(plan, s, true, fraction, 0);
    AfterWalksIs(plan, s, fraction, 1);
    TakenFamily(plan, s, true, fraction, m4);
    WindowAnnouncedExactly(plan, s, true, fraction, m4, 1);
    SizeKeptExactly(plan, s, false, fraction, 1);
    FamilyApart(plan, s, false, fraction, m4, 1);
    FamilyApart(plan, s, true, fraction, m4, 1);
    var four, six := FamilyAfter(plan, s, false, fraction, m4, 1), FamilyAfter(plan, s, true, fraction, m4, 1);
    BothFamilies(four, six);
  }

  function FamilyOf(rib: set<Prefix>, v6: bool): set<Prefix> {
    set p | p in rib && p.v6 == v6
  }

  lemma BothFamilies(four: set<Prefix>, six: set<Prefix>)
    requires (forall p <- four :: !p.v6) && forall p <- six :: p.v6
    ensures FamilyOf(four + six, false) == four && FamilyOf(four + six, true) == six
  {
  }

  /**
    Four IPv4 and eight IPv6 prefixes, a quarter of them at a time: the first walk announces an IPv6 prefix that it
    withdraws at once, and leaves one IPv4 prefix less than there were.
   */
  lemma FirstWalkShrinks() returns (plan: PrefixPlan, s: Session)
    ensures Usable(plan) && plan.CapacityChecked([s]) && s.prefixesV4 == 4 && s.prefixesV6 == 8
    ensures var (offset, rib) := AfterWalks(plan, s, 0.25, 1);
            && offset == 1 && !(SetOf(Taken(plan, s, true, 0.25, 1)) <= rib)
            && |FamilyOf(rib, false)| == |LoadedTable(plan, s, false)| - 1
  {
    plan, s := PrefixPlan([1], 24, 0, 20, 48, 0.0, 0, 0), Lone(1, Some(1), Some(1), 4, 8, 1, 0);
    ExampleChecked(plan, s);
    hide Usable, PrefixPlan.CapacityChecked, PrefixPlan.Capacity, Taken, AfterWalks, LoadedTable;
    assert Wanted(4, 0.25) == 1 && Wanted(8, 0.25) == 2;
    hide Wanted;
    FirstWalkLoses(plan, s, 0.25);
  }

  lemma ExampleChecked(plan: PrefixPlan, s: Session)
    requires plan == PrefixPlan([1], 24, 0, 20, 48, 0.0, 0, 0) && s == Lone(1, Some(1), Some(1), 4, 8, 1, 0)
    ensures Usable(plan) && plan.CapacityChecked([s])
    ensures plan.Capacity(false) >= 65536 && plan.Capacity(true) >= 65536
    ensures OwnCount(plan, 4) == 4 && OwnCount(plan, 8) == 8
  {
    hide Pow2, PrefixPlan.Contested, PrefixPlan.Capacity;
    SmallCapacities(plan);
    NothingContested(plan);
    assert [s][..0] == [];
    forall v6
      ensures plan.PoolSuffices([s], v6) && plan.Need([s], v6) == plan.Exclusive(s, v6)
    {
    }
  }
}
