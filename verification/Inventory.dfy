/**
  harness/model.py: ASN safety and the expansion of a profile into sessions, with its cursors for hosts,
  ASNs, NLRI slots and containers. Names built with string formatting are kept as the pairs they are built
  from; the fabric table is taken as already validated.
 */
module Inventory {
  import opened Wrappers
  import opened Sessions

  // ---- ASNs ----

  const BOGONS: seq<(int, int)> := [
    (0, 0), (23456, 23456), (64496, 64511), (64512, 65535), (65536, 65551), (65552, 65999),
    (66000, 69999), (70000, 130999), (131000, 131071), (4200000000, 4294967294)]

  predicate IsBogon(asn: int) {
    exists i :: 0 <= i < |BOGONS| && BOGONS[i].0 <= asn <= BOGONS[i].1
  }

  /** The ranges in one: 0, 23456, everything from 64496 to 131071, and the last ones before 4294967295. */
  lemma BogonsAre(asn: int)
    ensures IsBogon(asn) <==>
      asn == 0 || asn == 23456 || 64496 <= asn <= 131071 || 4200000000 <= asn <= 4294967294
  {
    assert forall i | 0 <= i < 10 && BOGONS[i].0 <= asn <= BOGONS[i].1 :: IsBogon(asn);
    assert BOGONS[0] == (0, 0) && BOGONS[1] == (23456, 23456) && BOGONS[9] == (4200000000, 4294967294);
    assert BOGONS[2] == (64496, 64511) && BOGONS[3] == (64512, 65535) && BOGONS[4] == (65536, 65551);
    assert BOGONS[5] == (65552, 65999) && BOGONS[6] == (66000, 69999) && BOGONS[7] == (70000, 130999);
    assert BOGONS[8] == (131000, 131071);
  }

  /** `r` is the least ASN not below `asn` that no range contains. */
  predicate IsNextSafe(asn: int, r: int) {
    !IsBogon(r) && asn <= r && forall a | asn <= a < r :: IsBogon(a)
  }

  lemma NextSafeUnique(asn: int, r: int, s: int)
    requires IsNextSafe(asn, r) && IsNextSafe(asn, s)
    ensures r == s
  {
  }

  /** `next_safe_asn`: jumps past one range at a time, and stops. */
  method NextSafeAsn(asn: int) returns (r: int)
    ensures IsNextSafe(asn, r)
  {
    r := asn;
    while IsBogon(r)
      invariant asn <= r && forall a | asn <= a < r :: IsBogon(a)
      decreases 4294967295 - r
    {
      ghost var before := r;
      var i := 0;
      while i < |BOGONS|
        invariant 0 <= i <= |BOGONS| && r == before
        invariant forall j | 0 <= j < i :: !(BOGONS[j].0 <= r <= BOGONS[j].1)
      {
        if BOGONS[i].0 <= r <= BOGONS[i].1 {
          r := BOGONS[i].1 + 1;
          break;
        }
        i := i + 1;
      }
    }
  }

  /** The least safe ASN not below `asn`, found one step at a time. */
  function NextSafe(asn: int): (r: int)
    ensures IsNextSafe(asn, r)
    decreases 4294967295 - asn
  {
    if IsBogon(asn) then NextSafe(asn + 1) else asn
  }

  /** The ASN of peer `i` of a fleet: the `i`-th safe one from its base. */
  function FleetAsn(base: int, i: nat): int {
    NextSafe(if i == 0 then base else FleetAsn(base, i - 1) + 1)
  }

  // ---- profiles and inventories ----

  datatype Engine = Gobgp | Exabgp | UnknownEngine
  datatype Fleet = Fleet(
    id: string, fabric: string, engine: Engine, peers: int, perContainer: int, asnBase: int, v4: bool, v6: bool,
    pg4: Option<string>, pg6: Option<string>, prefixesV4: int, prefixesV6: int, pathsPerPrefix: int)
  datatype Fabric = Fabric(
    v4Net: nat, v4Addresses: nat, v6Net: nat, v6Addresses: nat, dutHost: int, peerHostBase: int)

  datatype Container = Container(engine: Engine, fabric: string, sessions: seq<Session>)

  datatype ProfileError =
    | DutAsnBogon | UnknownFabric(fleet: string) | BadEngine(fleet: string)
    | FabricExhausted(fabric: string) | BadAddress(fleet: string)
    | AsnClaimedTwice(asn: int, fleet: string) | AsnIsDuts(asn: int) | NoSessions

  datatype Inventory = Inventory(sessions: seq<Session>, containers: map<ContainerName, Container>)

  function PerContainer(f: Fleet): nat
    ensures PerContainer(f) >= 1
  {
    if f.perContainer > 1 then f.perContainer else 1
  }

  /** Where a session came from: position of its fleet, position in the fleet, host number on the fabric. */
  datatype Origin = Origin(fleet: nat, index: nat, host: int)

  predicate Before(a: Origin, b: Origin) {
    a.fleet < b.fleet || (a.fleet == b.fleet && a.index < b.index)
  }

  /** Session `s`, at position `slot`, is the one its fleet calls for at this origin. */
  predicate ComesFrom(s: Session, o: Origin, slot: nat, fleets: seq<Fleet>, fabrics: map<string, Fabric>) {
    && o.fleet < |fleets|
    && var f := fleets[o.fleet];
       && f.fabric in fabrics && f.engine != UnknownEngine && o.index < f.peers
       && s == NewSession(f, fabrics[f.fabric], o.index, o.host, FleetAsn(f.asnBase, o.index), slot)
       && fabrics[f.fabric].peerHostBase <= o.host < fabrics[f.fabric].v4Addresses - 1
  }

  /** The sessions of one container, in order. */
  function SessionsIn(sessions: seq<Session>, name: ContainerName): seq<Session> {
    if sessions == [] then []
    else
      var s := sessions[|sessions| - 1];
      SessionsIn(sessions[..|sessions| - 1], name) + (if s.container == name then [s] else [])
  }

  // ---- what the loops keep true ----

  ghost predicate Placed(sessions: seq<Session>, origins: seq<Origin>, fleets: seq<Fleet>,
                         fabrics: map<string, Fabric>) {
    && |origins| == |sessions|
    && (forall j | 0 <= j < |sessions| :: ComesFrom(sessions[j], origins[j], j, fleets, fabrics))
    && (forall i, j | 0 <= i < j < |sessions| :: Before(origins[i], origins[j]))
  }

  predicate Taken(sessions: seq<Session>, origins: seq<Origin>, fid: string, host: int)
    requires |origins| == |sessions|
  {
    exists j | 0 <= j < |sessions| :: sessions[j].fabric == fid && origins[j].host == host
  }

  /** On each fabric the hosts handed out are exactly those from the base up to the cursor, each once. */
  ghost predicate Hosts(sessions: seq<Session>, origins: seq<Origin>, cursor: map<string, int>,
                        fabrics: map<string, Fabric>) {
    && |origins| == |sessions| && cursor.Keys == fabrics.Keys
    && (forall fid, host: int | fid in fabrics ::
          Taken(sessions, origins, fid, host) <==> fabrics[fid].peerHostBase <= host < cursor[fid])
    && (forall i, j | 0 <= i < j < |sessions| && sessions[i].fabric == sessions[j].fabric ::
          origins[i].host < origins[j].host)
    && (forall j | 0 <= j < |sessions| :: sessions[j].fabric in fabrics)
    && (forall fid | fid in fabrics :: cursor[fid] == fabrics[fid].peerHostBase + OnFabric(sessions, fid))
  }

  /** How many of the sessions are on a fabric. */
  function OnFabric(sessions: seq<Session>, fid: string): nat {
    if sessions == [] then 0
    else OnFabric(sessions[..|sessions| - 1], fid) + (if sessions[|sessions| - 1].fabric == fid then 1 else 0)
  }

  ghost predicate Asns(sessions: seq<Session>, owner: map<int, string>, dutAsn: int) {
    && (forall i, j | 0 <= i < j < |sessions| :: sessions[i].asn != sessions[j].asn)
    && (forall j | 0 <= j < |sessions| ::
          sessions[j].asn in owner && !IsBogon(sessions[j].asn) && sessions[j].asn != dutAsn)
    && (forall a <- owner :: exists j | 0 <= j < |sessions| :: sessions[j].asn == a)
  }

  ghost predicate Contained(sessions: seq<Session>, containers: map<ContainerName, Container>) {
    && (forall j | 0 <= j < |sessions| :: sessions[j].container in containers)
    && (forall name | name in containers :: containers[name].sessions == SessionsIn(sessions, name))
  }

  lemma PlacedStep(sessions: seq<Session>, origins: seq<Origin>, fleets: seq<Fleet>, fabrics: map<string, Fabric>,
                   s: Session, o: Origin)
    requires Placed(sessions, origins, fleets, fabrics)
    requires ComesFrom(s, o, |sessions|, fleets, fabrics) && forall i | 0 <= i < |origins| :: Before(origins[i], o)
    ensures Placed(sessions + [s], origins + [o], fleets, fabrics)
  {
    hide ComesFrom, Before;
  }

  lemma HostsStep(sessions: seq<Session>, origins: seq<Origin>, cursor: map<string, int>, fabrics: map<string, Fabric>,
                  s: Session, o: Origin)
    requires Hosts(sessions, origins, cursor, fabrics) && s.fabric in fabrics && o.host == cursor[s.fabric]
    ensures Hosts(sessions + [s], origins + [o], cursor[s.fabric := o.host + 1], fabrics)
  {
    var ss, os, next := sessions + [s], origins + [o], cursor[s.fabric := o.host + 1];
    assert ss[..|sessions|] == sessions;
    forall fid, host: int | fid in fabrics
      ensures Taken(ss, os, fid, host) <==> fabrics[fid].peerHostBase <= host < next[fid]
    {
      assert Taken(ss, os, fid, host) <==>
        Taken(sessions, origins, fid, host) || (fid == s.fabric && host == o.host) by {
        if Taken(sessions, origins, fid, host) {
          var j :| 0 <= j < |sessions| && sessions[j].fabric == fid && origins[j].host == host;
          assert ss[j].fabric == fid && os[j].host == host;
        }
        if fid == s.fabric && host == o.host {
          assert ss[|sessions|].fabric == fid && os[|sessions|].host == host;
        }
      }
    }
    forall i | 0 <= i < |sessions| && sessions[i].fabric == s.fabric
      ensures origins[i].host < o.host
    {
      assert Taken(sessions, origins, s.fabric, origins[i].host);
    }
  }

  lemma AsnsStep(sessions: seq<Session>, owner: map<int, string>, dutAsn: int, s: Session)
    requires Asns(sessions, owner, dutAsn) && s.asn !in owner && !IsBogon(s.asn) && s.asn != dutAsn
    ensures Asns(sessions + [s], owner[s.asn := s.fleet], dutAsn)
  {
    hide IsBogon;
    var ss, owners := sessions + [s], owner[s.asn := s.fleet];
    forall a | a in owners
      ensures exists j | 0 <= j < |ss| :: ss[j].asn == a
    {
      if a == s.asn {
        assert ss[|sessions|].asn == a;
      } else {
        var j :| 0 <= j < |sessions| && sessions[j].asn == a;
        assert ss[j].asn == a;
      }
    }
  }

  lemma ContainedStep(sessions: seq<Session>, containers: map<ContainerName, Container>, s: Session)
    requires Contained(sessions, containers) && s.container in containers
    ensures var c := containers[s.container];
            Contained(sessions + [s], containers[s.container := c.(sessions := c.sessions + [s])])
  {
    var ss := sessions + [s];
    assert ss[..|ss| - 1] == sessions;
  }

  /** A new container starts empty. */
  lemma ContainedNew(sessions: seq<Session>, containers: map<ContainerName, Container>, name: ContainerName,
                     c: Container)
    requires Contained(sessions, containers) && name !in containers && c.sessions == []
    ensures Contained(sessions, containers[name := c])
  {
    NoneIn(sessions, name);
  }

  lemma {:induction false} NoneIn(sessions: seq<Session>, name: ContainerName)
    requires forall j | 0 <= j < |sessions| :: sessions[j].container != name
    ensures SessionsIn(sessions, name) == []
  {
    if sessions != [] {
      NoneIn(sessions[..|sessions| - 1], name);
    }
  }

  // ---- build_inventory ----

  /** The accumulators of the expansion. */
  datatype Partial = Partial(
    sessions: seq<Session>, containers: map<ContainerName, Container>, cursor: map<string, int>,
    owner: map<int, string>)

  ghost predicate Sound(p: Partial, origins: seq<Origin>, fleets: seq<Fleet>, fabrics: map<string, Fabric>,
                        dutAsn: int) {
    && Placed(p.sessions, origins, fleets, fabrics)
    && Hosts(p.sessions, origins, p.cursor, fabrics)
    && Asns(p.sessions, p.owner, dutAsn)
    && Contained(p.sessions, p.containers)
  }

  lemma NothingYet(fleets: seq<Fleet>, fabrics: map<string, Fabric>, dutAsn: int)
    ensures Sound(Partial([], map[], map fid | fid in fabrics :: fabrics[fid].peerHostBase, map[]), [], fleets, fabrics,
      dutAsn)
  {
  }

  /** The session the loop makes at this point. */
  function NewSession(f: Fleet, fab: Fabric, i: nat, host: int, asn: int, slot: nat): Session {
    Session(f.id, i, f.fabric, asn,
            if f.v4 then Some(fab.v4Net + host) else None, if f.v6 then Some(fab.v6Net + host) else None,
            ContainerName(f.id, i / PerContainer(f)),
            if f.engine == Gobgp then 50051 + i % PerContainer(f) else 0,
            f.pg4, f.pg6, f.prefixesV4, f.prefixesV6, f.pathsPerPrefix, slot)
  }

  // ---- the same without cursors ----

  /** The session a peer is due after those before it: the next host of its fabric, the next safe ASN, the next slot. */
  function NextSession(before: seq<Session>, f: Fleet, fab: Fabric, i: nat): Session {
    NewSession(f, fab, i, fab.peerHostBase + OnFabric(before, f.fabric), FleetAsn(f.asnBase, i), |before|)
  }

  function FleetSessions(before: seq<Session>, f: Fleet, fab: Fabric, n: nat): (ss: seq<Session>)
    ensures |ss| == |before| + n
  {
    if n == 0 then before
    else
      var ss := FleetSessions(before, f, fab, n - 1);
      ss + [NextSession(ss, f, fab, n - 1)]
  }

  /** Every session the profile calls for, whether or not it can be had. */
  function Declared(fleets: seq<Fleet>, fabrics: map<string, Fabric>): seq<Session> {
    if fleets == [] then []
    else
      var before, f := Declared(fleets[..|fleets| - 1], fabrics), fleets[|fleets| - 1];
      if f.fabric in fabrics then FleetSessions(before, f, fabrics[f.fabric], Peers(f)) else before
  }

  predicate Known(fleets: seq<Fleet>, fabrics: map<string, Fabric>) {
    forall f <- fleets :: f.fabric in fabrics && f.engine != UnknownEngine
  }

  /**
    Session `j` can be had: its host is below the last of the IPv4 network, its addresses are addresses, its ASN is
    nobody's before it and not the router's.
   */
  predicate FitsAt(ss: seq<Session>, j: nat, fabrics: map<string, Fabric>, dutAsn: int)
    requires j < |ss|
  {
    && ss[j].fabric in fabrics
    && var fab := fabrics[ss[j].fabric];
       && fab.peerHostBase + OnFabric(ss[..j], ss[j].fabric) < fab.v4Addresses - 1
       && ss[j].Addressed()
       && ss[j].asn != dutAsn
       && forall i | 0 <= i < j :: ss[i].asn != ss[j].asn
  }

  predicate AllFit(ss: seq<Session>, fabrics: map<string, Fabric>, dutAsn: int) {
    forall j | 0 <= j < |ss| :: FitsAt(ss, j, fabrics, dutAsn)
  }

  lemma AllFitPrefix(a: seq<Session>, b: seq<Session>, fabrics: map<string, Fabric>, dutAsn: int)
    requires a <= b && AllFit(b, fabrics, dutAsn)
    ensures AllFit(a, fabrics, dutAsn)
  {
    hide OnFabric;
    forall j | 0 <= j < |a|
      ensures FitsAt(a, j, fabrics, dutAsn)
    {
      assert FitsAt(b, j, fabrics, dutAsn) && a[..j] == b[..j];
    }
  }

  lemma AllFitExtend(ss: seq<Session>, s: Session, fabrics: map<string, Fabric>, dutAsn: int)
    requires AllFit(ss, fabrics, dutAsn)
    ensures AllFit(ss + [s], fabrics, dutAsn) <==> FitsAt(ss + [s], |ss|, fabrics, dutAsn)
  {
    hide OnFabric;
    forall j | 0 <= j < |ss|
      ensures FitsAt(ss + [s], j, fabrics, dutAsn)
    {
      assert FitsAt(ss, j, fabrics, dutAsn) && (ss + [s])[..j] == ss[..j];
    }
  }

  lemma FleetSessionsStep(before: seq<Session>, f: Fleet, fab: Fabric, n: nat)
    ensures FleetSessions(before, f, fab, n) <= FleetSessions(before, f, fab, n + 1)
  {
    hide NextSession;
  }

  lemma {:induction false} FleetSessionsGrow(before: seq<Session>, f: Fleet, fab: Fabric, i: nat, n: nat)
    requires i <= n
    ensures FleetSessions(before, f, fab, i) <= FleetSessions(before, f, fab, n)
  {
    hide NextSession, FleetSessions;
    if i < n {
      FleetSessionsGrow(before, f, fab, i, n - 1);
      FleetSessionsStep(before, f, fab, n - 1);
    }
  }

  lemma {:induction false} DeclaredGrow(fleets: seq<Fleet>, fabrics: map<string, Fabric>, k: nat)
    requires k <= |fleets|
    ensures Declared(fleets[..k], fabrics) <= Declared(fleets, fabrics)
  {
    if k == |fleets| {
      assert fleets[..k] == fleets;
    } else {
      var init, f := fleets[..|fleets| - 1], fleets[|fleets| - 1];
      DeclaredGrow(init, fabrics, k);
      assert init[..k] == fleets[..k];
      if f.fabric in fabrics {
        FleetSessionsGrow(Declared(init, fabrics), f, fabrics[f.fabric], 0, Peers(f));
      }
    }
  }

  // ---- the loops ----

  /** One turn of the inner loop: container, host, address, ASN, session. */
  method AddPeer(p: Partial, fleets: seq<Fleet>, k: nat, i: nat, asn: int, fabrics: map<string, Fabric>, dutAsn: int,
                 ghost origins: seq<Origin>)
    returns (r: Result<Partial, ProfileError>, ghost o: Origin)
    requires Sound(p, origins, fleets, fabrics, dutAsn)
    requires k < |fleets| && i < fleets[k].peers && fleets[k].fabric in fabrics && fleets[k].engine != UnknownEngine
    requires forall j | 0 <= j < |origins| :: Before(origins[j], Origin(k, i, 0))
    requires asn == FleetAsn(fleets[k].asnBase, i)
    ensures r.Ok? ==> Sound(r.value, origins + [o], fleets, fabrics, dutAsn) && o.fleet == k && o.index == i
    ensures var s := NextSession(p.sessions, fleets[k], fabrics[fleets[k].fabric], i);
            && (r.Ok? <==> FitsAt(p.sessions + [s], |p.sessions|, fabrics, dutAsn))
            && (r.Ok? ==> r.value.sessions == p.sessions + [s])
    ensures r.Err? ==>
      r.error in {FabricExhausted(fleets[k].fabric), BadAddress(fleets[k].id), AsnClaimedTwice(asn, fleets[k].id),
        AsnIsDuts(asn)}
    ensures r == Err(AsnIsDuts(asn)) ==> asn == dutAsn
    ensures r == Err(AsnClaimedTwice(asn, fleets[k].id)) ==>
      exists j | 0 <= j < |p.sessions| :: p.sessions[j].asn == asn
  {
    hide IsBogon, Placed, Hosts, Asns, Contained, OnFabric, FleetAsn;
    FleetAsnSafe(fleets[k].asnBase, i);
    OwnersAreSessions(p.sessions, p.owner, dutAsn, asn);
    var f := fleets[k];
    var fab := fabrics[f.fabric];
    var name := ContainerName(f.id, i / PerContainer(f));
    var containers := p.containers;
    if name !in containers {
      var empty := Container(f.engine, f.fabric, []);
      ContainedNew(p.sessions, containers, name, empty);
      containers := containers[name := empty];
    }
    CursorKnown(p.sessions, origins, p.cursor, fabrics, f.fabric);
    var host := p.cursor[f.fabric];
    o := Origin(k, i, host);
    ghost var due := NextSession(p.sessions, f, fab, i);
    assert (p.sessions + [due])[..|p.sessions|] == p.sessions;
    assert FitsAt(p.sessions + [due], |p.sessions|, fabrics, dutAsn) <==>
      host < fab.v4Addresses - 1 && due.Addressed() && asn != dutAsn
      && forall j | 0 <= j < |p.sessions| :: p.sessions[j].asn != asn;
    if host >= fab.v4Addresses - 1 { return Err(FabricExhausted(f.fabric)), o; }
    if f.v4 && !(0 <= fab.v4Net + host < 0x1_0000_0000) { return Err(BadAddress(f.id)), o; }
    if f.v6 && !(0 <= fab.v6Net + host < 0x1_0000_0000_0000_0000_0000_0000_0000_0000) {
      return Err(BadAddress(f.id)), o;
    }
    if asn in p.owner { return Err(AsnClaimedTwice(asn, f.id)), o; }
    if asn == dutAsn { return Err(AsnIsDuts(asn)), o; }
    var s := NewSession(f, fab, i, host, asn, |p.sessions|);
    PlacedLength(p.sessions, origins, fleets, fabrics);
    assert forall j | 0 <= j < |origins| :: Before(origins[j], o);
    PlacedStep(p.sessions, origins, fleets, fabrics, s, o);
    HostsStep(p.sessions, origins, p.cursor, fabrics, s, o);
    AsnsStep(p.sessions, p.owner, dutAsn, s);
    ContainedStep(p.sessions, containers, s);
    var c := containers[name];
    r := Ok(Partial(p.sessions + [s], containers[name := c.(sessions := c.sessions + [s])],
                    p.cursor[f.fabric := host + 1], p.owner[asn := f.id]));
  }

  lemma PlacedLength(sessions: seq<Session>, origins: seq<Origin>, fleets: seq<Fleet>, fabrics: map<string, Fabric>)
    requires Placed(sessions, origins, fleets, fabrics)
    ensures |origins| == |sessions|
  {
  }

  lemma CursorKnown(sessions: seq<Session>, origins: seq<Origin>, cursor: map<string, int>,
                    fabrics: map<string, Fabric>, fid: string)
    requires Hosts(sessions, origins, cursor, fabrics) && fid in fabrics
    ensures fid in cursor && cursor[fid] == fabrics[fid].peerHostBase + OnFabric(sessions, fid)
  {
  }

  function Peers(f: Fleet): nat {
    if f.peers > 0 then f.peers else 0
  }

  lemma FleetAsnSafe(base: int, i: nat)
    ensures !IsBogon(FleetAsn(base, i))
  {
  }

  lemma OwnersAreSessions(sessions: seq<Session>, owner: map<int, string>, dutAsn: int, asn: int)
    requires Asns(sessions, owner, dutAsn)
    ensures asn in owner <==> exists j | 0 <= j < |sessions| :: sessions[j].asn == asn
  {
  }

  /** The inner loop: every peer of fleet `k`, with ASNs that skip what is not safe. */
  method AddFleet(p: Partial, fleets: seq<Fleet>, k: nat, fabrics: map<string, Fabric>, dutAsn: int,
                  ghost origins: seq<Origin>)
    returns (r: Result<Partial, ProfileError>, ghost added: seq<Origin>)
    requires Sound(p, origins, fleets, fabrics, dutAsn)
    requires k < |fleets| && fleets[k].fabric in fabrics && fleets[k].engine != UnknownEngine
    requires forall j | 0 <= j < |origins| :: origins[j].fleet < k
    ensures r.Ok? ==> Sound(r.value, origins + added, fleets, fabrics, dutAsn)
    ensures r.Ok? ==> |added| == Peers(fleets[k])
    ensures r.Ok? ==> forall j | 0 <= j < |added| :: added[j].fleet == k && added[j].index == j
    ensures var due := FleetSessions(p.sessions, fleets[k], fabrics[fleets[k].fabric], Peers(fleets[k]));
            && (AllFit(p.sessions, fabrics, dutAsn) ==> (r.Ok? <==> AllFit(due, fabrics, dutAsn)))
            && (r.Ok? ==> r.value.sessions == due)
    ensures r.Err? ==> r.error.FabricExhausted? || r.error.BadAddress? || r.error.AsnClaimedTwice? || r.error.AsnIsDuts?
  {
    hide Sound, IsBogon, IsNextSafe, AllFit, FitsAt, NextSession;
    var q, f := p, fleets[k];
    ghost var fab := fabrics[f.fabric];
    ghost var due := FleetSessions(p.sessions, f, fab, Peers(f));
    added := [];
    assert origins + added == origins;
    var asn := NextSafeAsn(f.asnBase);
    NextSafeUnique(f.asnBase, asn, FleetAsn(f.asnBase, 0));
    for i := 0 to Peers(f)
      invariant Sound(q, origins + added, fleets, fabrics, dutAsn)
      invariant q.sessions == FleetSessions(p.sessions, f, fab, i)
      invariant AllFit(p.sessions, fabrics, dutAsn) ==> AllFit(q.sessions, fabrics, dutAsn)
      invariant |added| == i && forall j | 0 <= j < i :: added[j].fleet == k && added[j].index == j
      invariant asn == FleetAsn(f.asnBase, i)
    {
      ghost var s := NextSession(q.sessions, f, fab, i);
      var step, o := AddPeer(q, fleets, k, i, asn, fabrics, dutAsn, origins + added);
      if AllFit(q.sessions, fabrics, dutAsn) { AllFitExtend(q.sessions, s, fabrics, dutAsn); }
      if step.Err? {
        FleetSessionsGrow(p.sessions, f, fab, i + 1, Peers(f));
        if AllFit(due, fabrics, dutAsn) { AllFitPrefix(q.sessions + [s], due, fabrics, dutAsn); }
        return Err(step.error), added;
      }
      assert origins + added + [o] == origins + (added + [o]);
      q, added := step.value, added + [o];
      var next := NextSafeAsn(asn + 1);
      NextSafeUnique(asn + 1, next, FleetAsn(f.asnBase, i + 1));
      asn := next;
    }
    r := Ok(q);
  }

  function TotalPeers(fleets: seq<Fleet>): nat {
    if fleets == [] then 0 else TotalPeers(fleets[..|fleets| - 1]) + Peers(fleets[|fleets| - 1])
  }

  lemma {:induction false} DeclaredLength(fleets: seq<Fleet>, fabrics: map<string, Fabric>)
    requires Known(fleets, fabrics)
    ensures |Declared(fleets, fabrics)| == TotalPeers(fleets)
  {
    if fleets != [] {
      assert fleets[|fleets| - 1] in fleets;
      DeclaredLength(fleets[..|fleets| - 1], fabrics);
    }
  }

  /**
    `build_inventory`, whose cursors and owner table come to this: it succeeds exactly when the router's ASN is
    safe, every fleet names a known fabric and engine, there is a peer, and every declared session can be had;
    and then the sessions are the declared ones, soundly placed.
   */
  method BuildInventory(fleets: seq<Fleet>, fabrics: map<string, Fabric>, dutAsn: int)
    returns (r: Result<Inventory, ProfileError>, ghost p: Partial, ghost origins: seq<Origin>)
    ensures r.Ok? <==>
      && !IsBogon(dutAsn) && Known(fleets, fabrics)
      && TotalPeers(fleets) > 0 && AllFit(Declared(fleets, fabrics), fabrics, dutAsn)
    ensures r.Ok? ==> r.value == Inventory(p.sessions, p.containers) && Sound(p, origins, fleets, fabrics, dutAsn)
    ensures r.Ok? ==> p.sessions == Declared(fleets, fabrics) && |p.sessions| == TotalPeers(fleets)
    ensures r == Err(DutAsnBogon) <==> IsBogon(dutAsn)
    ensures r == Err(NoSessions) ==> TotalPeers(fleets) == 0
  {
    hide Sound, IsBogon, AllFit;
    p := Partial([], map[], map[], map[]);
    origins := [];
    if IsBogon(dutAsn) { return Err(DutAsnBogon), p, origins; }
    NothingYet(fleets, fabrics, dutAsn);
    NothingToFit(fabrics, dutAsn);
    var q := Partial([], map[], map fid | fid in fabrics :: fabrics[fid].peerHostBase, map[]);
    for k := 0 to |fleets|
      invariant Sound(q, origins, fleets, fabrics, dutAsn)
      invariant Known(fleets[..k], fabrics)
      invariant q.sessions == Declared(fleets[..k], fabrics) && AllFit(q.sessions, fabrics, dutAsn)
      invariant forall j | 0 <= j < |origins| :: origins[j].fleet < k
    {
      var f := fleets[k];
      assert fleets[..k + 1] == fleets[..k] + [f] && fleets[..k + 1][..k] == fleets[..k];
      if f.fabric !in fabrics { return Err(UnknownFabric(f.id)), p, origins; }
      if f.engine == UnknownEngine { return Err(BadEngine(f.id)), p, origins; }
      var next, added := AddFleet(q, fleets, k, fabrics, dutAsn, origins);
      DeclaredGrow(fleets, fabrics, k + 1);
      if next.Err? {
        if AllFit(Declared(fleets, fabrics), fabrics, dutAsn) {
          AllFitPrefix(Declared(fleets[..k + 1], fabrics), Declared(fleets, fabrics), fabrics, dutAsn);
        }
        return Err(next.error), p, origins;
      }
      q, origins := next.value, origins + added;
    }
    assert fleets[..|fleets|] == fleets;
    DeclaredLength(fleets, fabrics);
    p := q;
    if q.sessions == [] { return Err(NoSessions), p, origins; }
    r := Ok(Inventory(q.sessions, q.containers));
  }

  lemma NothingToFit(fabrics: map<string, Fabric>, dutAsn: int)
    ensures AllFit([], fabrics, dutAsn)
  {
  }

  // ---- what a sound inventory promises ----

  /** ASNs are pairwise distinct, none is filtered as a bogon, none is the router's own; slots are positions. */
  lemma AsnsAndSlots(p: Partial, origins: seq<Origin>, fleets: seq<Fleet>, fabrics: map<string, Fabric>, dutAsn: int,
                     i: nat, j: nat)
    requires Sound(p, origins, fleets, fabrics, dutAsn) && i < j < |p.sessions|
    ensures p.sessions[i].asn != p.sessions[j].asn && !IsBogon(p.sessions[i].asn) && p.sessions[i].asn != dutAsn
    ensures p.sessions[i].nlriSlot == i && p.sessions[j].nlriSlot == j
  {
    hide IsBogon;
    assert ComesFrom(p.sessions[i], origins[i], i, fleets, fabrics);
  }

  /** Peers of one fabric have different addresses, each inside the IPv4 network and below its last address. */
  lemma AddressesDistinct(p: Partial, origins: seq<Origin>, fleets: seq<Fleet>, fabrics: map<string, Fabric>,
                          dutAsn: int, i: nat, j: nat)
    requires Sound(p, origins, fleets, fabrics, dutAsn) && i < j < |p.sessions|
    requires p.sessions[i].fabric == p.sessions[j].fabric
    ensures p.sessions[i].fabric in fabrics
    ensures var s, t, fab := p.sessions[i], p.sessions[j], fabrics[p.sessions[i].fabric];
            && (s.v4.Some? && t.v4.Some? ==> s.v4 != t.v4)
            && (s.v6.Some? && t.v6.Some? ==> s.v6 != t.v6)
            && (s.v4.Some? ==> fab.v4Net + fab.peerHostBase <= s.v4.value < fab.v4Net + fab.v4Addresses - 1)
            && (t.v4.Some? ==> fab.v4Net + fab.peerHostBase <= t.v4.value < fab.v4Net + fab.v4Addresses - 1)
  {
    assert ComesFrom(p.sessions[i], origins[i], i, fleets, fabrics);
    assert ComesFrom(p.sessions[j], origins[j], j, fleets, fabrics);
    assert origins[i].host < origins[j].host;
  }

  /** The containers partition the sessions: each session is in its own container, in order, and in no other. */
  lemma {:induction false} SessionsInMembers(sessions: seq<Session>, name: ContainerName, s: Session)
    ensures s in SessionsIn(sessions, name) <==> s in sessions && s.container == name
  {
    if sessions != [] {
      var init, last := sessions[..|sessions| - 1], sessions[|sessions| - 1];
      SessionsInMembers(init, name, s);
      assert sessions == init + [last];
    }
  }

  lemma ContainersPartition(p: Partial, origins: seq<Origin>, fleets: seq<Fleet>, fabrics: map<string, Fabric>,
                            dutAsn: int, s: Session)
    requires Sound(p, origins, fleets, fabrics, dutAsn) && s in p.sessions
    ensures s.container in p.containers && s in p.containers[s.container].sessions
    ensures forall name | name in p.containers && s in p.containers[name].sessions :: name == s.container
  {
    hide ComesFrom, Placed, Hosts, Asns;
    forall name | name in p.containers
      ensures s in p.containers[name].sessions <==> s.container == name
    {
      SessionsInMembers(p.sessions, name, s);
    }
    var j :| 0 <= j < |p.sessions| && p.sessions[j] == s;
    assert p.sessions[j].container in p.containers;
  }
}
