/**
  harness/routegen.py, `PrefixPlan`, and `expand_octets` of harness/generate.py: which prefixes each session
  announces. The contested fraction is a real number; `int(...)` truncates it towards zero.
 */
module PrefixPlanning {
  import opened Arith
  import opened Wrappers
  import opened Sequences
  import opened Sessions
  import opened MrtWriting

  // ---- expand_octets ----

  /** One comma-separated piece of a range string. */
  datatype Piece = One(n: int) | Range(lo: int, hi: int)
  datatype OctetSpec = Listed(octets: seq<int>) | Pieces(pieces: seq<Piece>)
  datatype OctetError = NonUnicast | Bogon | Duplicate

  /** `range(lo, hi + 1)`. */
  function Span(lo: int, hi: int): seq<int> {
    seq(if lo <= hi then hi + 1 - lo else 0, i => lo + i)
  }

  function Expanded(spec: OctetSpec): seq<int> {
    match spec
    case Listed(octets) => octets
    case Pieces(pieces) => ExpandedPieces(pieces)
  }

  function ExpandedPieces(pieces: seq<Piece>): seq<int> {
    if pieces == [] then []
    else
      var last := pieces[|pieces| - 1];
      ExpandedPieces(pieces[..|pieces| - 1]) + (if last.One? then [last.n] else Span(last.lo, last.hi))
  }

  predicate Unicast(octets: seq<int>) {
    forall i | 0 <= i < |octets| :: 1 <= octets[i] <= 223
  }

  predicate NoBogon8(octets: seq<int>) {
    forall i | 0 <= i < |octets| :: octets[i] !in {0, 10, 127}
  }

  method ExpandOctets(spec: OctetSpec) returns (r: Result<seq<int>, OctetError>)
    ensures r == (
      if !Unicast(Expanded(spec)) then Err(NonUnicast)
      else if !NoBogon8(Expanded(spec)) then Err(Bogon)
      else if !Distinct(Expanded(spec)) then Err(Duplicate)
      else Ok(Expanded(spec)))
  {
    var out: seq<int> := [];
    if spec.Listed? {
      out := spec.octets;
    } else {
      for k := 0 to |spec.pieces|
        invariant out == ExpandedPieces(spec.pieces[..k])
      {
        var piece := spec.pieces[k];
        assert spec.pieces[..k + 1][..k] == spec.pieces[..k];
        out := out + (if piece.One? then [piece.n] else Span(piece.lo, piece.hi));
      }
      assert spec.pieces[..|spec.pieces|] == spec.pieces;
    }
    if exists i :: 0 <= i < |out| && !(1 <= out[i] <= 223) { return Err(NonUnicast); }
    if exists i :: 0 <= i < |out| && out[i] in {0, 10, 127} { return Err(Bogon); }
    SetSizeIsDistinct(out);
    if |SetOf(out)| != |out| { return Err(Duplicate); }
    return Ok(out);
  }

  // ---- the plan ----

  function Trunc(x: real): int {
    if x >= 0.0 then x.Floor else -((-x).Floor)
  }

  /** `k << shift`. */
  function Shifted(k: nat, shift: nat): nat {
    k * Pow2(shift)
  }

  datatype CapacityError = PoolTooSmall(v6: bool, worst: int) | SpaceTooSmall(v6: bool, need: int)

  datatype PrefixPlan = PrefixPlan(
    octets: seq<int>, v4Len: int, baseIndex: nat, baseLen: nat, v6Len: int,
    fraction: real, poolV4: int, poolV6: int)
  {
    /** What `__post_init__` and `expand_octets` let through; `v6_base` is the `baseIndex`-th /`baseLen`. */
    predicate Built() {
      && 8 <= v4Len <= 24 && 12 <= v6Len <= 48 && baseLen <= v6Len && baseIndex < Pow2(baseLen)
      && Unicast(octets) && Distinct(octets)
    }

    function Base(): nat
      requires baseLen <= 128
    {
      Shifted(baseIndex, 128 - baseLen)
    }

    function PerOctet(): nat
      requires 8 <= v4Len
    {
      Pow2(v4Len - 8)
    }

    function Capacity(v6: bool): nat
      requires 8 <= v4Len && baseLen <= v6Len
    {
      if v6 then Pow2(v6Len - baseLen) else |octets| * PerOctet()
    }

    function Pool(v6: bool): int {
      if v6 then poolV6 else poolV4
    }

    /** `v4_at`: a flat index, wrapped at capacity, as octet and offset within the octet. */
    function V4At(index: int): Prefix
      requires Built() && Capacity(false) > 0
    {
      var i := index % Capacity(false);
      BlockOf(i, |octets|, PerOctet());
      Prefix(false, octets[i / PerOctet()] * 0x100_0000 + Shifted(i % PerOctet(), 32 - v4Len), v4Len)
    }

    function V6At(index: int): Prefix
      requires Built()
    {
      Prefix(true, Base() + Shifted(index % Capacity(true), 128 - v6Len), v6Len)
    }

    function At(v6: bool, index: int): Prefix
      requires Built() && Capacity(v6) > 0
    {
      if v6 then V6At(index) else V4At(index)
    }

    // ---- per-session allocation ----

    function Contested(count: int): int {
      Trunc(count as real * fraction)
    }

    /** Neither part of the count is negative. */
    predicate SplitsWithin(count: int) {
      0 <= Contested(count) <= count
    }

    /** `_split`: exclusive and contested counts. */
    function Split(count: int): (int, int) {
      (count - Contested(count), Contested(count))
    }

    static function ContestedIndices(slot: nat, cont: int, pool: int): (s: seq<nat>)
      ensures forall i <- s :: i < pool
    {
      if cont <= 0 || pool <= 0 then []
      else
        var rotate := Max(1, Min(cont, pool) / 4);
        seq(Min(cont, pool), i => ((slot * rotate) % pool + i) % pool)
    }

    function WindowStart(v6: bool, slot: nat, count: int, offset: int): int {
      Pool(v6) + slot * Max(Split(count).0, 1) + offset
    }

    function ExclusiveIndices(v6: bool, slot: nat, count: int, offset: int): seq<int> {
      var n := if count <= 0 then 0 else Max(Split(count).0, 0);
      seq(n, i => WindowStart(v6, slot, count, offset) + i)
    }

    /** The flat indices `session_v4`/`session_v6` walk, exclusive window first. */
    function SessionIndices(v6: bool, slot: nat, count: int, offset: int): seq<int> {
      if count <= 0 then []
      else ExclusiveIndices(v6, slot, count, offset) + ContestedIndices(slot, Split(count).1, Pool(v6))
    }

    function SessionPrefixes(v6: bool, slot: nat, count: int, offset: int): seq<Prefix>
      requires Built() && Capacity(v6) > 0
    {
      var indices := SessionIndices(v6, slot, count, offset);
      seq(|indices|, i requires 0 <= i < |indices| => At(v6, indices[i]))
    }

    // ---- check_capacity ----

    function Exclusive(s: Session, v6: bool): int {
      Max(1, s.Prefixes(v6) - Contested(s.Prefixes(v6)))
    }

    function Need(sessions: seq<Session>, v6: bool): int {
      if sessions == [] then 0
      else Need(sessions[..|sessions| - 1], v6) + Exclusive(sessions[|sessions| - 1], v6)
    }

    predicate PoolSuffices(sessions: seq<Session>, v6: bool) {
      Pool(v6) >= 0 && forall i | 0 <= i < |sessions| :: Contested(sessions[i].Prefixes(v6)) <= Pool(v6)
    }

    predicate CapacityChecked(sessions: seq<Session>)
      requires 8 <= v4Len && baseLen <= v6Len
    {
      forall v6 :: PoolSuffices(sessions, v6) && Pool(v6) + Need(sessions, v6) <= Capacity(v6)
    }

    method WorstContested(sessions: seq<Session>, v6: bool) returns (worst: int)
      ensures worst >= 0 && forall i | 0 <= i < |sessions| :: Contested(sessions[i].Prefixes(v6)) <= worst
      ensures worst == 0 || exists i | 0 <= i < |sessions| :: Contested(sessions[i].Prefixes(v6)) == worst
    {
      worst := 0;
      for i := 0 to |sessions|
        invariant worst >= 0 && forall j | 0 <= j < i :: Contested(sessions[j].Prefixes(v6)) <= worst
        invariant worst == 0 || exists j | 0 <= j < i :: Contested(sessions[j].Prefixes(v6)) == worst
      {
        var cont := Contested(sessions[i].Prefixes(v6));
        if cont > worst { worst := cont; }
      }
    }

    method SumExclusive(sessions: seq<Session>, v6: bool) returns (sum: int)
      ensures sum == Need(sessions, v6)
    {
      sum := 0;
      for i := 0 to |sessions|
        invariant sum == Need(sessions[..i], v6)
      {
        assert sessions[..i + 1][..i] == sessions[..i];
        sum := sum + Exclusive(sessions[i], v6);
      }
      assert sessions[..|sessions|] == sessions;
    }

    /** Passes exactly when both pools and both address spaces suffice; otherwise names the first that does not. */
    method CheckCapacity(sessions: seq<Session>) returns (r: Option<CapacityError>)
      requires 8 <= v4Len && baseLen <= v6Len
      ensures r.None? <==> CapacityChecked(sessions)
      ensures r.Some? && r.value.PoolTooSmall? ==>
        !PoolSuffices(sessions, r.value.v6) && r.value.worst > Pool(r.value.v6)
      ensures r.Some? && r.value.SpaceTooSmall? ==>
        r.value.need == Pool(r.value.v6) + Need(sessions, r.value.v6) > Capacity(r.value.v6)
      ensures r.Some? && r.value.SpaceTooSmall? ==> PoolSuffices(sessions, false) && PoolSuffices(sessions, true)
    {
      var worst4 := WorstContested(sessions, false);
      if worst4 > poolV4 { return Some(PoolTooSmall(false, worst4)); }
      var worst6 := WorstContested(sessions, true);
      if worst6 > poolV6 { return Some(PoolTooSmall(true, worst6)); }
      var sum4 := SumExclusive(sessions, false);
      if poolV4 + sum4 > Capacity(false) { return Some(SpaceTooSmall(false, poolV4 + sum4)); }
      var sum6 := SumExclusive(sessions, true);
      if poolV6 + sum6 > Capacity(true) { return Some(SpaceTooSmall(true, poolV6 + sum6)); }
      return None;
    }
  }
}
