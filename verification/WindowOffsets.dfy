/**
  What a session announces, index by index and address by address, and what its offset does to it: the walk of
  `ev_churn` in harness/scenarios.py moves the offset from one announcement to the next.
 */
module WindowOffsets {
  import opened Arith
  import opened Sequences
  import opened MrtWriting
  import opened PrefixPlanning
  import opened PrefixWindows

  /** `int(count * fraction)`: the whole number next to the product on the side of zero. */
  lemma ContestedTruncates(plan: PrefixPlan, count: int)
    ensures var x, c := count as real * plan.fraction, plan.Contested(count) as real;
            if x >= 0.0 then c <= x < c + 1.0 else c - 1.0 < x <= c
  {
  }

  /** How many indices come from the session's own window. */
  function OwnCount(plan: PrefixPlan, count: int): nat {
    if count <= 0 || count <= plan.Contested(count) then 0 else count - plan.Contested(count)
  }

  lemma ContestedAre(slot: nat, c: int, pool: int)
    ensures var s := PrefixPlan.ContestedIndices(slot, c, pool);
            var width := if c <= 0 || pool <= 0 then 0 else if c <= pool then c else pool;
            && |s| == width
            && forall i | 0 <= i < width :: s[i] == (slot * (if width < 4 then 1 else width / 4) + i) % pool
  {
    if c > 0 && pool > 0 {
      var width := Min(c, pool);
      forall i | 0 <= i < width
        ensures PrefixPlan.ContestedIndices(slot, c, pool)[i] == (slot * Max(1, width / 4) + i) % pool
      {
        RemainderOfSum(slot * Max(1, width / 4), i, pool);
      }
    }
  }

  /**
    The own window lies behind the contested pool and behind one window for each earlier slot, then moved by the
    offset; the contested indices follow, rotated by a quarter of their number for each slot.
   */
  lemma IndicesAre(plan: PrefixPlan, v6: bool, slot: nat, count: int, offset: int)
    ensures var s, n, c := plan.SessionIndices(v6, slot, count, offset), OwnCount(plan, count), plan.Contested(count);
            var pool := if v6 then plan.poolV6 else plan.poolV4;
            var width := if count <= 0 || c <= 0 || pool <= 0 then 0 else if c <= pool then c else pool;
            && |s| == n + width
            && (forall i | 0 <= i < n :: s[i] == pool + slot * (if n == 0 then 1 else n) + offset + i)
            && (forall i | n <= i < n + width ::
                  s[i] == (slot * (if width < 4 then 1 else width / 4) + (i - n)) % pool)
  {
    hide PrefixPlan.ContestedIndices, PrefixPlan.Contested;
    ContestedAre(slot, plan.Contested(count), plan.Pool(v6));
    assert OwnCount(plan, count) == |plan.ExclusiveIndices(v6, slot, count, offset)|;
  }

  /** Moving the offset moves every index of the own window by as much, and leaves the contested ones alone. */
  lemma OffsetMovesIndices(plan: PrefixPlan, v6: bool, slot: nat, count: int, offset: int, d: int)
    ensures var s, t := plan.SessionIndices(v6, slot, count, offset), plan.SessionIndices(v6, slot, count, offset + d);
            && |s| == |t| >= OwnCount(plan, count)
            && (forall i | 0 <= i < OwnCount(plan, count) :: t[i] == s[i] + d)
            && s[OwnCount(plan, count)..] == t[OwnCount(plan, count)..]
  {
    hide PrefixPlan.SessionIndices;
    IndicesAre(plan, v6, slot, count, offset);
    IndicesAre(plan, v6, slot, count, offset + d);
  }

  // ---- prefixes ----

  /** The prefixes a session has to itself at one offset. */
  function OwnPrefixes(plan: PrefixPlan, v6: bool, slot: nat, count: int, offset: int): (ps: seq<Prefix>)
    requires plan.Built() && plan.Capacity(v6) > 0
    ensures |ps| == OwnCount(plan, count) && ps <= plan.SessionPrefixes(v6, slot, count, offset)
  {
    hide PrefixPlan.At, PrefixPlan.SessionIndices;
    IndicesAre(plan, v6, slot, count, offset);
    plan.SessionPrefixes(v6, slot, count, offset)[..OwnCount(plan, count)]
  }

  /** Where the own window starts at offset 0. */
  function SlotStart(plan: PrefixPlan, v6: bool, slot: nat, count: int): int {
    (if v6 then plan.poolV6 else plan.poolV4) + slot * (if OwnCount(plan, count) == 0 then 1 else OwnCount(plan, count))
  }

  lemma OwnAreWindow(plan: PrefixPlan, v6: bool, slot: nat, count: int, offset: int)
    requires plan.Built() && plan.Capacity(v6) > 0
    ensures OwnPrefixes(plan, v6, slot, count, offset)
         == Window(plan, v6, SlotStart(plan, v6, slot, count) + offset, OwnCount(plan, count))
  {
    hide PrefixPlan.At, PrefixPlan.SessionIndices, PrefixPlan.Capacity;
    IndicesAre(plan, v6, slot, count, offset);
  }

  /** Moving the offset announces the prefixes that many indices on, and the contested ones again. */
  lemma OffsetMovesPrefixes(plan: PrefixPlan, v6: bool, slot: nat, count: int, offset: int, d: int)
    requires plan.Built() && plan.Capacity(v6) > 0
    ensures var s := plan.SessionPrefixes(v6, slot, count, offset);
            var t := plan.SessionPrefixes(v6, slot, count, offset + d);
            var n, start := OwnCount(plan, count), SlotStart(plan, v6, slot, count) + offset;
            && |s| == |t| >= n && s[n..] == t[n..]
            && (forall i | 0 <= i < n :: s[i] == plan.At(v6, start + i) && t[i] == plan.At(v6, start + i + d))
  {
    hide PrefixPlan.At, PrefixPlan.SessionIndices, PrefixPlan.Capacity;
    IndicesAre(plan, v6, slot, count, offset);
    OffsetMovesIndices(plan, v6, slot, count, offset, d);
    var n := OwnCount(plan, count);
    var s, t := plan.SessionIndices(v6, slot, count, offset), plan.SessionIndices(v6, slot, count, offset + d);
    forall i | n <= i < |s|
      ensures s[i] == t[i]
    {
      assert s[i] == s[n..][i - n] && t[i] == t[n..][i - n];
    }
  }

  /**
    Two offsets of one session announce own prefixes that are disjoint exactly when, round the capacity, the offsets
    are the size of the own window or more apart in both directions.
   */
  lemma OffsetsDisjointExactly(plan: PrefixPlan, v6: bool, slot: nat, count: int, offset: int, d: int)
    requires plan.Built() && plan.Capacity(v6) > 0 && 0 < OwnCount(plan, count) <= plan.Capacity(v6)
    ensures Disjoint(OwnPrefixes(plan, v6, slot, count, offset), OwnPrefixes(plan, v6, slot, count, offset + d)) <==>
      d % plan.Capacity(v6) >= OwnCount(plan, count) && (-d) % plan.Capacity(v6) >= OwnCount(plan, count)
  {
    hide PrefixPlan.Capacity;
    var n, start := OwnCount(plan, count), SlotStart(plan, v6, slot, count) + offset;
    OwnAreWindow(plan, v6, slot, count, offset);
    OwnAreWindow(plan, v6, slot, count, offset + d);
    WindowsDisjointExactly(plan, v6, start, n, start + d, n);
  }

  /** So a walk that moves on by its own window or more never repeats a prefix while it stays within the capacity. */
  lemma WalkNeverRepeats(plan: PrefixPlan, v6: bool, slot: nat, count: int, offset: int, d: int)
    requires plan.Built() && plan.Capacity(v6) > 0
    requires d >= OwnCount(plan, count) || -d >= OwnCount(plan, count)
    requires var first := SlotStart(plan, v6, slot, count) + offset;
             var next := first + d;
             && 0 <= first && first + OwnCount(plan, count) <= plan.Capacity(v6)
             && 0 <= next && next + OwnCount(plan, count) <= plan.Capacity(v6)
    ensures Disjoint(OwnPrefixes(plan, v6, slot, count, offset), OwnPrefixes(plan, v6, slot, count, offset + d))
  {
    hide PrefixPlan.Capacity, SlotStart;
    var n, start := OwnCount(plan, count), SlotStart(plan, v6, slot, count);
    OwnAreWindow(plan, v6, slot, count, offset);
    OwnAreWindow(plan, v6, slot, count, offset + d);
    RangesDisjoint(plan, v6, start + offset, n, start + offset + d, n);
  }

  /** IPv4: as many prefixes in each octet as its length leaves room for, the octets in the order listed. */
  lemma V4AddressIs(plan: PrefixPlan, k: nat, j: nat)
    requires plan.Built() && k < |plan.octets| && j < Pow2(plan.v4Len - 8)
    ensures plan.Capacity(false) == |plan.octets| * Pow2(plan.v4Len - 8) > 0
    ensures var p := plan.At(false, k * Pow2(plan.v4Len - 8) + j);
            && !p.v6 && p.plen == plan.v4Len
            && p.addr == plan.octets[k] * 0x100_0000 + j * Pow2(32 - plan.v4Len)
  {
    hide Pow2;
    var per := Pow2(plan.v4Len - 8);
    MulMonotone(k + 1, |plan.octets|, per);
    assert (k + 1) * per == k * per + per;
    DivUnique(k * per + j, plan.Capacity(false), 0, k * per + j);
    DivUnique(k * per + j, per, k, j);
  }

  /** IPv6: from the start of the base, in steps of the prefix length. */
  lemma V6AddressIs(plan: PrefixPlan, j: nat)
    requires plan.Built() && j < Pow2(plan.v6Len - plan.baseLen)
    ensures plan.Capacity(true) == Pow2(plan.v6Len - plan.baseLen)
    ensures var p := plan.At(true, j);
            && p.v6 && p.plen == plan.v6Len
            && p.addr == plan.baseIndex * Pow2(128 - plan.baseLen) + j * Pow2(128 - plan.v6Len)
  {
    hide Pow2;
    DivUnique(j, plan.Capacity(true), 0, j);
  }

  // ---- range strings ----

  /** A range string stands for exactly the numbers its pieces name, both ends of a range included. */
  lemma {:induction false} ExpandedMembers(pieces: seq<Piece>, x: int)
    ensures x in Expanded(Pieces(pieces)) <==>
      exists p <- pieces :: if p.One? then x == p.n else p.lo <= x <= p.hi
  {
    if pieces != [] {
      var init, p := Init(pieces), Last(pieces);
      ExpandedMembers(init, x);
      assert pieces == init + [p];
      if p.Range? && p.lo <= x <= p.hi { assert Span(p.lo, p.hi)[x - p.lo] == x; }
    }
  }
}
