/** What the prefix plan promises: distinct prefixes, disjoint windows, guaranteed contention. */
module PrefixWindows {
  import opened Arith
  import opened Wrappers
  import opened Sequences
  import opened Sessions
  import opened Bytes
  import opened MrtWriting
  import opened PrefixPlanning

  // ---- one prefix per index ----

  lemma {:induction false} Pow2Monotone(a: nat, b: nat)
    requires a <= b
    ensures Pow2(a) <= Pow2(b)
  {
    if a < b {
      Pow2Monotone(a, b - 1);
    }
  }

  lemma V4Steps(plan: PrefixPlan)
    requires plan.Built()
    ensures plan.PerOctet() * Pow2(32 - plan.v4Len) == 0x100_0000
  {
    Pow2Sum(plan.v4Len - 8, 32 - plan.v4Len);
    assert plan.v4Len - 8 + (32 - plan.v4Len) == 24;
    assert Pow2(24) == 0x100_0000 by { assert Pow2(8) == 256; Pow2Sum(8, 8); Pow2Sum(8, 16); }
  }

  /**
    `octet * 2^24 + within * step` is the `octet * per_octet + within`-th multiple of the step, and names both parts.
   */
  lemma V4Address(plan: PrefixPlan, octet: nat, within: nat)
    requires plan.Built() && within < plan.PerOctet()
    ensures var step := Pow2(32 - plan.v4Len); var addr := octet * 0x100_0000 + within * step;
            && addr == (octet * plan.PerOctet() + within) * step
            && within * step < 0x100_0000
            && addr / 0x100_0000 == octet
  {
    hide Pow2;
    V4Steps(plan);
    BlockPlaceUnit(octet, plan.PerOctet(), within, Pow2(32 - plan.v4Len));
  }

  /** Cancelling a positive factor. */
  lemma Cancel(a: int, b: int, m: nat)
    requires m > 0 && a * m == b * m
    ensures a == b
  {
    DivUnique(a * m, m, a, 0);
    DivUnique(b * m, m, b, 0);
  }

  lemma V4AtInjective(plan: PrefixPlan, i: nat, j: nat)
    requires plan.Built() && i < plan.Capacity(false) && j < plan.Capacity(false)
    requires plan.V4At(i) == plan.V4At(j)
    ensures i == j
  {
    hide Pow2;
    var per, n := plan.PerOctet(), |plan.octets|;
    BlockOf(i, n, per);
    BlockOf(j, n, per);
    DivUnique(i, n * per, 0, i);
    DivUnique(j, n * per, 0, j);
    var oi, oj := plan.octets[i / per], plan.octets[j / per];
    V4Address(plan, oi, i % per);
    V4Address(plan, oj, j % per);
    assert oi == oj;
    Cancel(i % per, j % per, Pow2(32 - plan.v4Len));
  }

  lemma V6AtInjective(plan: PrefixPlan, i: nat, j: nat)
    requires plan.Built() && i < plan.Capacity(true) && j < plan.Capacity(true)
    requires plan.V6At(i) == plan.V6At(j)
    ensures i == j
  {
    hide Pow2;
    DivUnique(i, plan.Capacity(true), 0, i);
    DivUnique(j, plan.Capacity(true), 0, j);
    Cancel(i, j, Pow2(128 - plan.v6Len));
  }

  /** Two indices give one prefix exactly when they agree modulo the capacity. */
  lemma AtInjective(plan: PrefixPlan, v6: bool, i: int, j: int)
    requires plan.Built() && plan.Capacity(v6) > 0
    ensures plan.At(v6, i) == plan.At(v6, j) <==> i % plan.Capacity(v6) == j % plan.Capacity(v6)
  {
    hide Pow2;
    var c := plan.Capacity(v6);
    var a, b := i % c, j % c;
    DivUnique(a, c, 0, a);
    DivUnique(b, c, 0, b);
    assert plan.At(v6, i) == plan.At(v6, a) && plan.At(v6, j) == plan.At(v6, b);
    if plan.At(v6, a) == plan.At(v6, b) {
      if v6 { V6AtInjective(plan, a, b); } else { V4AtInjective(plan, a, b); }
    }
  }

  /** Every planned prefix is well formed, carries no host bits and lies inside the declared pool. */
  lemma AtInPool(plan: PrefixPlan, v6: bool, index: int)
    requires plan.Built() && plan.Capacity(v6) > 0
    ensures var p := plan.At(v6, index);
            && p.v6 == v6 && p.plen == (if v6 then plan.v6Len else plan.v4Len)
            && Parses(p) && Network(p) == p.addr
            && (!v6 ==> p.addr / 0x100_0000 in plan.octets)
            && (v6 ==> p.addr / Pow2(128 - plan.baseLen) == plan.baseIndex)
  {
    if v6 { V6InPool(plan, index); } else { V4InPool(plan, index); }
  }

  lemma V4InPool(plan: PrefixPlan, index: int)
    requires plan.Built() && plan.Capacity(false) > 0
    ensures var p := plan.V4At(index);
            Parses(p) && Network(p) == p.addr && p.addr / 0x100_0000 in plan.octets
  {
    hide Pow2;
    Powers();
    var per := plan.PerOctet();
    var i := index % plan.Capacity(false);
    BlockOf(i, |plan.octets|, per);
    var octet, within := plan.octets[i / per], i % per;
    V4Address(plan, octet, within);
    DivUnique(plan.V4At(index).addr, Pow2(32 - plan.v4Len), octet * per + within, 0);
  }

  lemma V6InPool(plan: PrefixPlan, index: int)
    requires plan.Built()
    ensures var p := plan.V6At(index);
            Parses(p) && Network(p) == p.addr && p.addr / Pow2(128 - plan.baseLen) == plan.baseIndex
  {
    hide Pow2;
    hide Pow256;
    var cap, step, size := plan.Capacity(true), Pow2(128 - plan.v6Len), Pow2(128 - plan.baseLen);
    V6Steps(plan);
    StepInBlocks(Pow2(plan.baseLen), plan.baseIndex, cap, index % cap, step, size);
    Pow256IsPow2(16);
  }

  lemma V6Steps(plan: PrefixPlan)
    requires plan.Built()
    ensures plan.Capacity(true) * Pow2(128 - plan.v6Len) == Pow2(128 - plan.baseLen)
    ensures Pow2(plan.baseLen) * Pow2(128 - plan.baseLen) == Pow2(128)
  {
    Pow2Sum(plan.v6Len - plan.baseLen, 128 - plan.v6Len);
    assert plan.v6Len - plan.baseLen + (128 - plan.v6Len) == 128 - plan.baseLen;
    Pow2Sum(plan.baseLen, 128 - plan.baseLen);
    assert plan.baseLen + (128 - plan.baseLen) == 128;
  }

  // ---- windows ----

  /** The prefixes of `n` consecutive flat indices. */
  function Window(plan: PrefixPlan, v6: bool, start: int, n: nat): (w: seq<Prefix>)
    requires plan.Built() && plan.Capacity(v6) > 0
    ensures |w| == n
  {
    seq(n, i => plan.At(v6, start + i))
  }

  /**
    Two windows of consecutive indices share no prefix exactly when, going round the capacity, each starts
    past the other's end. This is the whole truth for any counts, slots and offsets.
   */
  lemma WindowsDisjointExactly(plan: PrefixPlan, v6: bool, a: int, la: nat, b: int, lb: nat)
    requires plan.Built() && plan.Capacity(v6) > 0
    requires 0 < la <= plan.Capacity(v6) && 0 < lb <= plan.Capacity(v6)
    ensures Disjoint(Window(plan, v6, a, la), Window(plan, v6, b, lb)) <==>
      (b - a) % plan.Capacity(v6) >= la && (a - b) % plan.Capacity(v6) >= lb
  {
    var m := plan.Capacity(v6);
    ArcsDisjointExactly(a, la, b, lb, m);
    WindowsAreArcs(plan, v6, a, la, b, lb);
  }

  lemma WindowsAreArcs(plan: PrefixPlan, v6: bool, a: int, la: nat, b: int, lb: nat)
    requires plan.Built() && plan.Capacity(v6) > 0
    ensures var m := plan.Capacity(v6);
            Disjoint(Window(plan, v6, a, la), Window(plan, v6, b, lb)) <==> Disjoint(Arc(a, la, m), Arc(b, lb, m))
  {
    var m := plan.Capacity(v6);
    hide PrefixPlan.At, PrefixPlan.Capacity;
    var s, t := Window(plan, v6, a, la), Window(plan, v6, b, lb);
    var x, y := Arc(a, la, m), Arc(b, lb, m);
    forall i, j | 0 <= i < la && 0 <= j < lb
      ensures s[i] == t[j] <==> x[i] == y[j]
    {
      AtInjective(plan, v6, a + i, b + j);
    }
  }

  // ---- how many prefixes a session gets ----

  /** A fraction between 0 and 1 splits a count into two non-negative parts. */
  lemma ContestedWithin(plan: PrefixPlan, count: nat)
    requires 0.0 <= plan.fraction <= 1.0
    ensures 0 <= plan.Contested(count) <= count
  {
    var x := count as real * plan.fraction;
    assert 0.0 <= x <= count as real;
  }

  /**
    A session announces exactly the declared count if and only if the contested part is between nothing and
    the whole and fits its pool; or, with a fraction above 1, when the pool happens to be the count.
   */
  lemma YieldsDeclaredCountExactly(plan: PrefixPlan, v6: bool, slot: nat, count: int, offset: int)
    requires count > 0
    ensures var c, pool := plan.Contested(count), plan.Pool(v6);
            |plan.SessionIndices(v6, slot, count, offset)| == count <==>
              c == 0 || (0 < c <= count && c <= pool) || (c > count && pool == count)
  {
  }

  lemma {:induction false} NeedOfEqualCounts(plan: PrefixPlan, sessions: seq<Session>, v6: bool, count: int)
    requires forall i | 0 <= i < |sessions| :: sessions[i].Prefixes(v6) == count
    ensures plan.Need(sessions, v6) == |sessions| * Max(1, plan.Split(count).0)
  {
    if sessions != [] {
      var init, e := sessions[..|sessions| - 1], Max(1, plan.Split(count).0);
      NeedOfEqualCounts(plan, init, v6, count);
      assert |sessions| * e == |init| * e + e;
    }
  }

  /** A profile whose sessions all announce `count` prefixes of the family, at slots 0.. in order. */
  predicate EqualProfile(plan: PrefixPlan, sessions: seq<Session>, v6: bool, count: int) {
    && plan.Built() && 0.0 <= plan.fraction <= 1.0 && count > 0
    && plan.CapacityChecked(sessions)
    && forall i | 0 <= i < |sessions| :: sessions[i].Prefixes(v6) == count && sessions[i].nlriSlot == i
  }

  /** With equal counts, window `s` lies above the pool, below the capacity and below every later window. */
  lemma WindowPlacement(plan: PrefixPlan, sessions: seq<Session>, v6: bool, count: int, s: nat)
    requires EqualProfile(plan, sessions, v6, count) && s < |sessions|
    ensures var e := Max(plan.Split(count).0, 1); var start := plan.WindowStart(v6, s, count, 0);
            && 0 <= plan.Pool(v6) <= start && start + e <= plan.Capacity(v6)
            && forall t | s < t < |sessions| :: start + e <= plan.WindowStart(v6, t, count, 0)
  {
    var e := Max(plan.Split(count).0, 1);
    NeedOfEqualCounts(plan, sessions, v6, count);
    assert plan.PoolSuffices(sessions, v6);
    MulMonotone(s + 1, |sessions|, e);
    assert (s + 1) * e == s * e + e;
    forall t | s < t < |sessions|
      ensures plan.WindowStart(v6, s, count, 0) + e <= plan.WindowStart(v6, t, count, 0)
    {
      MulMonotone(s + 1, t, e);
    }
  }

  /** A checked plan with a session has address space for it. */
  lemma CheckedHasSpace(plan: PrefixPlan, sessions: seq<Session>)
    requires plan.Built() && plan.CapacityChecked(sessions) && sessions != []
    ensures plan.Capacity(false) > 0 && plan.Capacity(true) > 0
  {
    NeedPositive(plan, sessions, false);
    NeedPositive(plan, sessions, true);
    assert plan.PoolSuffices(sessions, false) && plan.PoolSuffices(sessions, true);
  }

  lemma {:induction false} NeedPositive(plan: PrefixPlan, sessions: seq<Session>, v6: bool)
    ensures plan.Need(sessions, v6) >= |sessions|
  {
    if sessions != [] {
      NeedPositive(plan, sessions[..|sessions| - 1], v6);
    }
  }

  lemma ContestedDistinct(slot: nat, cont: int, pool: int)
    ensures Distinct(PrefixPlan.ContestedIndices(slot, cont, pool))
  {
    var s := PrefixPlan.ContestedIndices(slot, cont, pool);
    if s != [] {
      var base := (slot * Max(1, Min(cont, pool) / 4)) % pool;
      forall i, j | 0 <= i < j < |s|
        ensures s[i] != s[j]
      {
        if s[i] == s[j] { ArcCollision(base, j, base, i, pool); }
      }
    }
  }

  function ExclusivePrefixes(plan: PrefixPlan, v6: bool, slot: nat, count: int, offset: int): seq<Prefix>
    requires plan.Built() && plan.Capacity(v6) > 0
  {
    Window(plan, v6, plan.WindowStart(v6, slot, count, offset), if count <= 0 then 0 else Max(plan.Split(count).0, 0))
  }

  /** Indices below the capacity that differ give prefixes that differ. */
  lemma AtDiffers(plan: PrefixPlan, v6: bool, i: nat, j: nat)
    requires plan.Built() && plan.Capacity(v6) > 0 && i < plan.Capacity(v6) && j < plan.Capacity(v6)
    ensures plan.At(v6, i) == plan.At(v6, j) <==> i == j
  {
    AtInjective(plan, v6, i, j);
    DivUnique(i, plan.Capacity(v6), 0, i);
    DivUnique(j, plan.Capacity(v6), 0, j);
  }

  /** Where session `s`'s indices lie, and that no two coincide. */
  lemma SessionIndicesDistinct(plan: PrefixPlan, sessions: seq<Session>, v6: bool, count: int, s: nat)
    requires EqualProfile(plan, sessions, v6, count) && s < |sessions|
    ensures var indices := plan.SessionIndices(v6, s, count, 0);
            && |indices| == count && Distinct(indices)
            && forall i | 0 <= i < |indices| :: 0 <= indices[i] < plan.Capacity(v6)
  {
    WindowPlacement(plan, sessions, v6, count, s);
    ContestedWithin(plan, count);
    assert plan.PoolSuffices(sessions, v6) && plan.Contested(sessions[s].Prefixes(v6)) <= plan.Pool(v6);
    var own := plan.ExclusiveIndices(v6, s, count, 0);
    var shared := PrefixPlan.ContestedIndices(s, plan.Split(count).1, plan.Pool(v6));
    ContestedDistinct(s, plan.Split(count).1, plan.Pool(v6));
    var indices := plan.SessionIndices(v6, s, count, 0);
    assert indices == own + shared;
    forall i | 0 <= i < |indices|
      ensures 0 <= indices[i] < plan.Capacity(v6) && (i < |own| <==> indices[i] >= plan.Pool(v6))
    {
      if i >= |own| { assert shared[i - |own|] in shared; }
    }
  }

  /** A checked profile of equal counts gives every session exactly its count of distinct prefixes. */
  lemma SessionPrefixesDistinct(plan: PrefixPlan, sessions: seq<Session>, v6: bool, count: int, s: nat)
    requires EqualProfile(plan, sessions, v6, count) && s < |sessions|
    ensures plan.Capacity(v6) > 0
    ensures var prefixes := plan.SessionPrefixes(v6, s, count, 0); |prefixes| == count && Distinct(prefixes)
  {
    hide PrefixPlan.At, PrefixPlan.SessionIndices;
    CheckedHasSpace(plan, sessions);
    SessionIndicesDistinct(plan, sessions, v6, count, s);
    var indices, prefixes := plan.SessionIndices(v6, s, count, 0), plan.SessionPrefixes(v6, s, count, 0);
    forall i, j | 0 <= i < j < |prefixes|
      ensures prefixes[i] != prefixes[j]
    {
      assert indices[i] != indices[j];
      AtDiffers(plan, v6, indices[i], indices[j]);
    }
  }

  /** Such a profile's exclusive windows share nothing with each other and nothing with the contested pool. */
  lemma ExclusiveWindowsDisjoint(plan: PrefixPlan, sessions: seq<Session>, v6: bool, count: int, s: nat, t: nat)
    requires EqualProfile(plan, sessions, v6, count) && s < t < |sessions|
    ensures plan.Capacity(v6) > 0 && plan.Pool(v6) >= 0
    ensures Disjoint(ExclusivePrefixes(plan, v6, s, count, 0), ExclusivePrefixes(plan, v6, t, count, 0))
    ensures forall u | u in [s, t] ::
      Disjoint(ExclusivePrefixes(plan, v6, u, count, 0), Window(plan, v6, 0, plan.Pool(v6)))
  {
    hide PrefixPlan.At;
    CheckedHasSpace(plan, sessions);
    WindowPlacement(plan, sessions, v6, count, s);
    WindowPlacement(plan, sessions, v6, count, t);
    var a, b := plan.WindowStart(v6, s, count, 0), plan.WindowStart(v6, t, count, 0);
    var n := Max(plan.Split(count).0, 0);
    RangesDisjoint(plan, v6, a, n, b, n);
    RangesDisjoint(plan, v6, a, n, 0, plan.Pool(v6));
    RangesDisjoint(plan, v6, b, n, 0, plan.Pool(v6));
  }

  lemma RangesDisjoint(plan: PrefixPlan, v6: bool, a: nat, la: nat, b: nat, lb: nat)
    requires plan.Built() && plan.Capacity(v6) > 0
    requires a + la <= plan.Capacity(v6) && b + lb <= plan.Capacity(v6) && (a + la <= b || b + lb <= a)
    ensures Disjoint(Window(plan, v6, a, la), Window(plan, v6, b, lb))
  {
    hide PrefixPlan.At;
    forall i, j | 0 <= i < la && 0 <= j < lb
      ensures Window(plan, v6, a, la)[i] != Window(plan, v6, b, lb)[j]
    {
      AtDiffers(plan, v6, a + i, b + j);
    }
  }

  /**
    Equal counts cannot be dropped: this profile passes the capacity check, yet two sessions' exclusive
    windows announce the same prefixes. WindowsDisjointExactly says when that happens.
   */
  lemma MixedCountsOverlap() returns (plan: PrefixPlan, sessions: seq<Session>)
    ensures plan.Built() && plan.Capacity(false) > 0 && plan.CapacityChecked(sessions) && |sessions| == 2
    ensures forall i | 0 <= i < 2 :: sessions[i].nlriSlot == i && plan.Contested(sessions[i].prefixesV4) == 0
    ensures !Disjoint(ExclusivePrefixes(plan, false, 0, sessions[0].prefixesV4, 0),
                      ExclusivePrefixes(plan, false, 1, sessions[1].prefixesV4, 0))
  {
    plan := PrefixPlan([1], 24, 0, 20, 48, 0.0, 0, 0);
    sessions := [Lone(1, None, None, 10, 0, 1, 0), Lone(2, None, None, 4, 0, 1, 1)];
    hide Pow2, PrefixPlan.At, PrefixPlan.Contested, PrefixPlan.Need;
    SmallCapacities(plan);
    NothingContested(plan);
    NeedOfTwo(plan, sessions);
    assert forall v6 :: plan.PoolSuffices(sessions, v6);
    NestedWindows(plan, 10, 4);
  }

  /** Slot 1 starts at its own width, inside slot 0 when slot 0 is wider. */
  lemma NestedWindows(plan: PrefixPlan, wide: nat, narrow: nat)
    requires plan.Built() && plan.Capacity(false) > 0 && plan.Pool(false) == 0
    requires 0 < narrow < wide && plan.Contested(wide) == 0 && plan.Contested(narrow) == 0
    ensures !Disjoint(ExclusivePrefixes(plan, false, 0, wide, 0), ExclusivePrefixes(plan, false, 1, narrow, 0))
  {
    hide PrefixPlan.At, PrefixPlan.Contested, PrefixPlan.Capacity;
    var first, second := ExclusivePrefixes(plan, false, 0, wide, 0), ExclusivePrefixes(plan, false, 1, narrow, 0);
    assert first[narrow] == plan.At(false, narrow) == second[0];
  }

  lemma SmallCapacities(plan: PrefixPlan)
    requires plan.v4Len == 24 && |plan.octets| == 1 && plan.baseLen == 20 && plan.v6Len == 48
    ensures plan.Capacity(false) >= 65536 && plan.Capacity(true) >= 65536 && Pow2(20) > 0
  {
    assert Pow2(16) == 65536 by { assert Pow2(8) == 256; Pow2Sum(8, 8); }
    Pow2Monotone(16, 28);
  }

  lemma NothingContested(plan: PrefixPlan)
    requires plan.fraction == 0.0
    ensures forall count :: plan.Contested(count) == 0
  {
  }

  lemma NeedOfTwo(plan: PrefixPlan, sessions: seq<Session>)
    requires |sessions| == 2
    ensures forall v6 :: plan.Need(sessions, v6) == plan.Exclusive(sessions[0], v6) + plan.Exclusive(sessions[1], v6)
  {
    forall v6
      ensures plan.Need(sessions, v6) == plan.Exclusive(sessions[0], v6) + plan.Exclusive(sessions[1], v6)
    {
      assert sessions[..1][..0] == [];
      assert plan.Need(sessions[..1], v6) == plan.Exclusive(sessions[0], v6);
    }
  }

  // ---- contention ----

  /** A contested window holds exactly min(cont, pool) different indices of the pool. */
  lemma ContestedWindowSize(slot: nat, cont: int, pool: int)
    requires cont > 0 && pool > 0
    ensures var s := PrefixPlan.ContestedIndices(slot, cont, pool);
            |s| == Min(cont, pool) && |SetOf(s)| == Min(cont, pool) && forall i <- s :: 0 <= i < pool
  {
    ContestedDistinct(slot, cont, pool);
    SetSizeIsDistinct(PrefixPlan.ContestedIndices(slot, cont, pool));
  }

  /** Index `i` of one window is index `i - k * rotate` of the window `k` slots on, through every wrap. */
  lemma RotatedIndex(slot: nat, k: nat, rotate: nat, pool: nat, i: int)
    requires pool > 0
    ensures ((slot * rotate) % pool + i) % pool == (((slot + k) * rotate) % pool + (i - k * rotate)) % pool
  {
    RemainderOfSum(slot * rotate, i, pool);
    RemainderOfSum((slot + k) * rotate, i - k * rotate, pool);
    assert (slot + k) * rotate == slot * rotate + k * rotate;
  }

  /** Guaranteed contention: windows `k` slots apart share at least `width - k * max(1, width / 4)` indices. */
  lemma ContestedWindowsOverlap(slot: nat, k: nat, cont: int, pool: int)
    requires cont > 0 && pool > 0
    ensures var width := Min(cont, pool);
            |SetOf(PrefixPlan.ContestedIndices(slot, cont, pool))
             * SetOf(PrefixPlan.ContestedIndices(slot + k, cont, pool))|
              >= width - k * Max(1, width / 4)
  {
    var width := Min(cont, pool);
    var rotate := Max(1, width / 4);
    var a, b := PrefixPlan.ContestedIndices(slot, cont, pool), PrefixPlan.ContestedIndices(slot + k, cont, pool);
    var shift := k * rotate;
    if shift < width {
      var shared := a[shift..];
      forall i | shift <= i < width
        ensures a[i] == b[i - shift]
      {
        RotatedIndex(slot, k, rotate, pool, i);
      }
      ContestedDistinct(slot, cont, pool);
      SetSizeIsDistinct(shared);
      forall x <- shared
        ensures x in a && x in b
      {
        var i :| 0 <= i < |shared| && shared[i] == x;
        assert a[shift + i] == b[i];
      }
      assert SetOf(shared) <= SetOf(a) * SetOf(b);
      Subset(SetOf(shared), SetOf(a) * SetOf(b));
    }
  }

  lemma {:induction false} Subset<T>(s: set<T>, t: set<T>)
    requires s <= t
    ensures |s| <= |t|
  {
    if s != {} {
      var x :| x in s;
      Subset(s - {x}, t - {x});
    }
  }
}
