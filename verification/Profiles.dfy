/**
  harness/generate.py, `generate`, as far as the numbers go: the inventory, the octets, the plan and the capacity
  check, one after the other; and what a profile that passes all four can rely on.
 */
module Profiles {
  import opened Arith
  import opened Wrappers
  import opened Sequences
  import opened Sessions
  import opened Inventory
  import opened ProfileFacts
  import P = PrefixPlanning
  import W = PrefixWindows
  import S = SessionMrt
  import MrtCheck
  import MrtParse

  /** The `nlri` section of a profile; `v6_base` is the `baseIndex`-th /`baseLen`. */
  datatype Nlri = Nlri(
    octets: P.OctetSpec, v4Len: int, baseIndex: nat, baseLen: nat, v6Len: int, fraction: real, poolV4: int, poolV6: int)

  datatype GenerateError =
    | BadProfile(profile: ProfileError) | BadOctets(octets: P.OctetError)
    | V4LenOutside | V6LenOutside | V6LenShort | NoCapacity(capacity: P.CapacityError)

  function PlanOf(n: Nlri): P.PrefixPlan
    requires n.v6Len >= 0 && n.v4Len >= 0
  {
    P.PrefixPlan(P.Expanded(n.octets), n.v4Len, n.baseIndex, n.baseLen, n.v6Len, n.fraction, n.poolV4, n.poolV6)
  }

  predicate OctetsGood(octets: seq<int>) {
    P.Unicast(octets) && P.NoBogon8(octets) && Distinct(octets)
  }

  /**
    The profile becomes an inventory and a plan exactly when the expansion succeeds, the octets are good, the lengths
    are in range and the capacity check passes; the plan is then well formed and checked against those sessions.
   */
  method Generate(fleets: seq<Fleet>, fabrics: map<string, Fabric>, dutAsn: int, n: Nlri)
    returns (r: Result<(Inventory, P.PrefixPlan), GenerateError>)
    requires n.baseIndex < Pow2(n.baseLen)
    ensures r.Ok? <==>
      && Expands(fleets, fabrics, dutAsn) && OctetsGood(P.Expanded(n.octets))
      && 8 <= n.v4Len <= 24 && 12 <= n.v6Len <= 48 && n.baseLen <= n.v6Len
      && PlanOf(n).CapacityChecked(Declared(fleets, fabrics))
    ensures r.Ok? ==>
      && 0 <= n.v4Len && 0 <= n.v6Len && r.value.1 == PlanOf(n) && r.value.1.Built()
      && r.value.0.sessions == Declared(fleets, fabrics)
  {
    hide Sound, Declared, AllFit, Known, P.Expanded;
    ghost var p, origins;
    var inv;
    inv, p, origins := BuildInventory(fleets, fabrics, dutAsn);
    if inv.Err? { return Err(BadProfile(inv.error)); }
    var octets := P.ExpandOctets(n.octets);
    if octets.Err? { return Err(BadOctets(octets.error)); }
    if !(8 <= n.v4Len <= 24) { return Err(V4LenOutside); }
    if !(12 <= n.v6Len <= 48) { return Err(V6LenOutside); }
    if n.v6Len < n.baseLen { return Err(V6LenShort); }
    var plan := P.PrefixPlan(octets.value, n.v4Len, n.baseIndex, n.baseLen, n.v6Len, n.fraction, n.poolV4, n.poolV6);
    var short := plan.CheckCapacity(inv.value.sessions);
    if short.Some? { return Err(NoCapacity(short.value)); }
    r := Ok((inv.value, plan));
  }

  predicate Expands(fleets: seq<Fleet>, fabrics: map<string, Fabric>, dutAsn: int) {
    !IsBogon(dutAsn) && Known(fleets, fabrics) && TotalPeers(fleets) > 0
      && AllFit(Declared(fleets, fabrics), fabrics, dutAsn)
  }

  function DeclaredPrefixes(f: Fleet, v6: bool): int {
    if v6 then f.prefixesV6 else f.prefixesV4
  }

  /** Every fleet with a peer declares the same number of prefixes of the family, at least one. */
  predicate OneCount(fleets: seq<Fleet>, v6: bool, count: int) {
    count > 0 && forall k | 0 <= k < |fleets| && Peers(fleets[k]) > 0 :: DeclaredPrefixes(fleets[k], v6) == count
  }

  /** Slot is position, and the counts are the fleets'. */
  lemma SlotsAndCounts(fleets: seq<Fleet>, fabrics: map<string, Fabric>, v6: bool, count: int)
    requires Known(fleets, fabrics) && OneCount(fleets, v6, count)
    ensures var ss := Declared(fleets, fabrics);
            forall j | 0 <= j < |ss| :: ss[j].nlriSlot == j && ss[j].Prefixes(v6) == count
  {
    var ss := Declared(fleets, fabrics);
    DeclaredLength(fleets, fabrics);
    forall j | 0 <= j < |ss|
      ensures ss[j].nlriSlot == j && ss[j].Prefixes(v6) == count
    {
      var k, i := Locate(fleets, j);
      DeclaredAt(fleets, fabrics, k, i);
    }
  }

  /**
    A generated profile whose fleets declare one count of a family, with a fraction in 0..1: every session announces
    exactly that many distinct prefixes, and no two sessions' exclusive windows, nor any with the contested pool,
    share a prefix.
   */
  lemma GeneratedWindowsDisjoint(fleets: seq<Fleet>, fabrics: map<string, Fabric>, plan: P.PrefixPlan, v6: bool,
                                 count: int, s: nat, t: nat)
    requires Known(fleets, fabrics) && plan.Built() && plan.CapacityChecked(Declared(fleets, fabrics))
    requires OneCount(fleets, v6, count) && 0.0 <= plan.fraction <= 1.0
    requires s < t < |Declared(fleets, fabrics)|
    ensures plan.Capacity(v6) > 0 && plan.Pool(v6) >= 0
    ensures forall u | u in [s, t] ::
      var prefixes := plan.SessionPrefixes(v6, Declared(fleets, fabrics)[u].nlriSlot, count, 0);
      |prefixes| == count && Distinct(prefixes)
    ensures Disjoint(W.ExclusivePrefixes(plan, v6, s, count, 0), W.ExclusivePrefixes(plan, v6, t, count, 0))
    ensures forall u | u in [s, t] ::
      Disjoint(W.ExclusivePrefixes(plan, v6, u, count, 0), W.Window(plan, v6, 0, plan.Pool(v6)))
  {
    var sessions := Declared(fleets, fabrics);
    SlotsAndCounts(fleets, fabrics, v6, count);
    hide Declared, P.PrefixPlan.SessionPrefixes, P.PrefixPlan.CapacityChecked, P.PrefixPlan.Built;
    assert W.EqualProfile(plan, sessions, v6, count);
    W.SessionPrefixesDistinct(plan, sessions, v6, count, s);
    W.SessionPrefixesDistinct(plan, sessions, v6, count, t);
    W.ExclusiveWindowsDisjoint(plan, sessions, v6, count, s, t);
  }

  /** Every session of an expanded profile has real addresses. */
  lemma SessionsAddressed(fleets: seq<Fleet>, fabrics: map<string, Fabric>, dutAsn: int, j: nat)
    requires Expands(fleets, fabrics, dutAsn) && j < |Declared(fleets, fabrics)|
    ensures Declared(fleets, fabrics)[j].Addressed()
  {
    hide Declared, Known, IsBogon;
    assert FitsAt(Declared(fleets, fabrics), j, fabrics, dutAsn);
  }

  /**
    The whole way for one session of a generated profile: if its numbers fit its table is written, and with a fraction
    in 0..1 the structural reader accepts it with the counts its fleet declares exactly when it has an address, and
    one in every family in which it declares something.
   */
  method GenerateTable(fleets: seq<Fleet>, fabrics: map<string, Fabric>, dutAsn: int, n: Nlri, j: nat, q: S.Request)
    returns (generated: bool, stats: Option<S.Stats>, r: Result<MrtCheck.MrtSummary, MrtParse.MrtError>)
    requires n.baseIndex < Pow2(n.baseLen) && 0.0 <= n.fraction <= 1.0
    requires Known(fleets, fabrics) && j < |Declared(fleets, fabrics)|
    requires S.SessionFits(Declared(fleets, fabrics)[j], q)
    requires var s := Declared(fleets, fabrics)[j];
             0 <= s.prefixesV4 && 0 <= s.prefixesV6 && s.prefixesV4 + s.prefixesV6 <= 0x1_0000_0000
    ensures var s := Declared(fleets, fabrics)[j];
            generated ==>
              && stats.Some?
              && (r.Ok? <==> (s.v4.Some? || s.v6.Some?) && forall v6 :: S.HasAddress(s, v6) || s.Prefixes(v6) == 0)
              && (r.Ok? ==> r.value.prefixesV4 == s.prefixesV4 && r.value.prefixesV6 == s.prefixesV6)
              && (r.Ok? ==> r.value.ribEntries == (s.prefixesV4 + s.prefixesV6) * Max(1, s.pathsPerPrefix))
    ensures generated <==>
      && Expands(fleets, fabrics, dutAsn) && OctetsGood(P.Expanded(n.octets))
      && 8 <= n.v4Len <= 24 && 12 <= n.v6Len <= 48 && n.baseLen <= n.v6Len
      && PlanOf(n).CapacityChecked(Declared(fleets, fabrics))
  {
    hide Expands, Declared, OctetsGood, P.Expanded;
    hide S.SessionFits, S.Announced, P.PrefixPlan.CapacityChecked, P.PrefixPlan.SplitsWithin;
    var g := Generate(fleets, fabrics, dutAsn, n);
    generated := g.Ok?;
    stats, r := None, Err(MrtParse.FileEmpty);
    if generated {
      var sessions, plan := g.value.0.sessions, g.value.1;
      SessionsAddressed(fleets, fabrics, dutAsn, j);
      S.DeclaredCountsAnnounced(sessions[j], plan, q, sessions);
      WithinDeclared(sessions[j], plan, q);
      BothFamilies(sessions[j], plan, q);
      stats, r := S.GenerateAndCheck(sessions[j], plan, q, sessions);
    }
  }

  /** A session never announces more than it declares when its counts split within themselves. */
  lemma WithinDeclared(s: Session, plan: P.PrefixPlan, q: S.Request)
    requires plan.Built()
    requires forall v6 :: |S.Announced(s, plan, q, v6)| == s.Prefixes(v6) <==> S.Keeps(s, plan, v6)
    requires forall v6 :: s.Prefixes(v6) >= 0 && plan.SplitsWithin(s.Prefixes(v6))
    ensures forall v6 :: |S.Announced(s, plan, q, v6)| <= s.Prefixes(v6)
    ensures forall v6 :: S.Keeps(s, plan, v6) <==> S.HasAddress(s, v6) || s.Prefixes(v6) == 0
  {
    hide P.PrefixPlan.SplitsWithin, P.PrefixPlan.SessionPrefixes;
    forall v6
      ensures |S.Announced(s, plan, q, v6)| <= s.Prefixes(v6)
      ensures S.Keeps(s, plan, v6) <==> S.HasAddress(s, v6) || s.Prefixes(v6) == 0
    {
      if !S.HasAddress(s, v6) { assert S.Announced(s, plan, q, v6) == []; }
    }
  }

  lemma BothFamilies(s: Session, plan: P.PrefixPlan, q: S.Request)
    requires plan.Built() && s.prefixesV4 + s.prefixesV6 <= 0x1_0000_0000
    requires forall v6 :: |S.Announced(s, plan, q, v6)| <= s.Prefixes(v6)
    ensures S.Numberable(s, plan, q)
  {
    hide S.Announced;
    assert s.Prefixes(false) == s.prefixesV4 && s.Prefixes(true) == s.prefixesV6;
  }
}
