/**
  What an expanded profile looks like, said of the fleets alone: which session each peer gets, whose address is
  the router's, how full each container is, and when gobgp ports clash.
 */
module ProfileFacts {
  import opened Arith
  import opened Wrappers
  import opened Sessions
  import opened Inventory

  /** Peers of the fleets on one fabric. */
  function PeersOn(fleets: seq<Fleet>, fid: string): nat {
    if fleets == [] then 0
    else
      var f := fleets[|fleets| - 1];
      PeersOn(fleets[..|fleets| - 1], fid) + (if f.fabric == fid then Peers(f) else 0)
  }

  /** Position of peer `i` of fleet `k`. */
  function Place(fleets: seq<Fleet>, k: nat, i: nat): nat
    requires k < |fleets|
  {
    TotalPeers(fleets[..k]) + i
  }

  // ---- which session each peer gets ----

  lemma {:induction false} OnFabricFleet(before: seq<Session>, f: Fleet, fab: Fabric, n: nat, fid: string)
    ensures OnFabric(FleetSessions(before, f, fab, n), fid) == OnFabric(before, fid)
      + (if f.fabric == fid then n else 0)
  {
    if n > 0 {
      OnFabricFleet(before, f, fab, n - 1, fid);
      var ss := FleetSessions(before, f, fab, n);
      assert ss[..|ss| - 1] == FleetSessions(before, f, fab, n - 1);
    }
  }

  lemma {:induction false} OnFabricDeclared(fleets: seq<Fleet>, fabrics: map<string, Fabric>, fid: string)
    requires Known(fleets, fabrics)
    ensures OnFabric(Declared(fleets, fabrics), fid) == PeersOn(fleets, fid)
  {
    if fleets != [] {
      var init, f := fleets[..|fleets| - 1], fleets[|fleets| - 1];
      assert f in fleets;
      OnFabricDeclared(init, fabrics, fid);
      OnFabricFleet(Declared(init, fabrics), f, fabrics[f.fabric], Peers(f), fid);
    }
  }

  lemma FleetAt(before: seq<Session>, f: Fleet, fab: Fabric, i: nat, n: nat)
    requires i < n
    ensures FleetSessions(before, f, fab, n)[|before| + i] == NextSession(FleetSessions(before, f, fab, i), f, fab, i)
  {
    hide NextSession;
    FleetSessionsGrow(before, f, fab, i + 1, n);
    assert FleetSessions(before, f, fab, i + 1)[|before| + i] ==
      NextSession(FleetSessions(before, f, fab, i), f, fab, i);
  }

  /** The sessions of the first `k` fleets, then those of fleet `k`, then the others. */
  lemma FleetWithin(fleets: seq<Fleet>, fabrics: map<string, Fabric>, k: nat)
    requires k < |fleets| && fleets[k].fabric in fabrics
    ensures var f := fleets[k];
            FleetSessions(Declared(fleets[..k], fabrics), f, fabrics[f.fabric], Peers(f)) <= Declared(fleets, fabrics)
  {
    hide FleetSessions;
    assert fleets[..k + 1][..k] == fleets[..k];
    DeclaredGrow(fleets, fabrics, k + 1);
  }

  /** Peer `i` of fleet `k` stands at its place, with the host, ASN and slot that follow from the fleets before it. */
  lemma {:induction false} DeclaredAt(fleets: seq<Fleet>, fabrics: map<string, Fabric>, k: nat, i: nat)
    requires Known(fleets, fabrics) && k < |fleets| && i < Peers(fleets[k])
    ensures fleets[k].fabric in fabrics
    ensures var f, j := fleets[k], Place(fleets, k, i); var fab := fabrics[f.fabric];
            && j < |Declared(fleets, fabrics)|
            && Declared(fleets, fabrics)[j]
            == NewSession(f, fab, i, fab.peerHostBase + PeersOn(fleets[..k], f.fabric) + i, FleetAsn(f.asnBase, i), j)
  {
    hide Known, NewSession, Declared, OnFabric, PeersOn, FleetAsn, TotalPeers;
    KnownPrefix(fleets, fabrics, k);
    var f := fleets[k];
    var fab, before := fabrics[f.fabric], Declared(fleets[..k], fabrics);
    DeclaredLength(fleets[..k], fabrics);
    OnFabricDeclared(fleets[..k], fabrics, f.fabric);
    OnFabricFleet(before, f, fab, i, f.fabric);
    FleetAt(before, f, fab, i, Peers(f));
    FleetWithin(fleets, fabrics, k);
    hide FleetSessions;
  }

  /** The same, field by field, and the ASN by what it is among the fleet's. */
  lemma DeclaredFields(fleets: seq<Fleet>, fabrics: map<string, Fabric>, k: nat, i: nat)
    requires Known(fleets, fabrics) && k < |fleets| && i < Peers(fleets[k])
    ensures fleets[k].fabric in fabrics && TotalPeers(fleets[..k]) + i < |Declared(fleets, fabrics)|
    ensures var f, j := fleets[k], TotalPeers(fleets[..k]) + i;
            var fab, s := fabrics[f.fabric], Declared(fleets, fabrics)[j];
            var host := fab.peerHostBase + PeersOn(fleets[..k], f.fabric) + i;
            var per := if f.perContainer < 1 then 1 else f.perContainer;
            && s.fleet == f.id && s.index == i && s.fabric == f.fabric && s.nlriSlot == j
            && s.v4 == (if f.v4 then Some(fab.v4Net + host) else None)
            && s.v6 == (if f.v6 then Some(fab.v6Net + host) else None)
            && s.container.fleet == f.id && s.container.index == i / per
            && s.apiPort == (if f.engine == Gobgp then 50051 + i % per else 0)
            && s.pg4 == f.pg4 && s.pg6 == f.pg6 && s.pathsPerPrefix == f.pathsPerPrefix
            && s.prefixesV4 == f.prefixesV4 && s.prefixesV6 == f.prefixesV6
            && IsNextSafe(if i == 0 then f.asnBase else Declared(fleets, fabrics)[j - 1].asn + 1, s.asn)
  {
    hide Known, Declared, PeersOn, TotalPeers, IsNextSafe;
    DeclaredAt(fleets, fabrics, k, i);
    if i > 0 { DeclaredAt(fleets, fabrics, k, i - 1); }
  }

  lemma KnownPrefix(fleets: seq<Fleet>, fabrics: map<string, Fabric>, k: nat)
    requires Known(fleets, fabrics) && k < |fleets|
    ensures Known(fleets[..k], fabrics) && fleets[k].fabric in fabrics
  {
    assert fleets[k] in fleets;
  }

  /** And there are no other sessions. */
  lemma {:induction false} Locate(fleets: seq<Fleet>, j: nat) returns (k: nat, i: nat)
    requires j < TotalPeers(fleets)
    ensures k < |fleets| && i < Peers(fleets[k]) && j == Place(fleets, k, i)
  {
    var init := fleets[..|fleets| - 1];
    if j >= TotalPeers(init) {
      k, i := |fleets| - 1, j - TotalPeers(init);
    } else {
      k, i := Locate(init, j);
      assert init[..k] == fleets[..k];
    }
  }

  lemma {:induction false} PlacesApart(fleets: seq<Fleet>, a: nat, b: nat)
    requires a < b <= |fleets|
    ensures TotalPeers(fleets[..a]) + Peers(fleets[a]) <= TotalPeers(fleets[..b])
  {
    assert fleets[..b][..b - 1] == fleets[..b - 1];
    if a < b - 1 {
      PlacesApart(fleets, a, b - 1);
    }
  }

  // ---- the router's own address ----

  /** Fleet `k` is on the fabric and one of its peers gets this host number. */
  predicate Covers(fleets: seq<Fleet>, k: nat, fid: string, fab: Fabric, host: int)
    requires k < |fleets|
  {
    var first := fab.peerHostBase + PeersOn(fleets[..k], fid);
    fleets[k].fabric == fid && first <= host < first + Peers(fleets[k])
  }

  function Address(s: Session, v6: bool): Option<int> {
    if v6 then s.v6 else s.v4
  }

  /** Session `s` is on the fabric, with this host's address in the family. */
  predicate At(s: Session, fid: string, fab: Fabric, host: int, v6: bool) {
    s.fabric == fid && Address(s, v6) == Some((if v6 then fab.v6Net else fab.v4Net) + host)
  }

  predicate InFamily(f: Fleet, v6: bool) {
    if v6 then f.v6 else f.v4
  }

  /**
    Nothing keeps a peer off the router's own address: one gets it exactly when the router's host number is among
    those that fall to a fleet of that address family.
   */
  lemma {:induction false} DutAddressTakenExactly(fleets: seq<Fleet>, fabrics: map<string, Fabric>, fid: string,
                                                  v6: bool)
    requires Known(fleets, fabrics) && fid in fabrics
    ensures var ss, fab := Declared(fleets, fabrics), fabrics[fid];
            (exists j | 0 <= j < |ss| :: At(ss[j], fid, fab, fab.dutHost, v6)) <==>
            exists k | 0 <= k < |fleets| :: InFamily(fleets[k], v6) && Covers(fleets, k, fid, fab, fab.dutHost)
  {
    var ss, fab := Declared(fleets, fabrics), fabrics[fid];
    hide Declared, Known, Covers, At;
    if j :| 0 <= j < |ss| && At(ss[j], fid, fab, fab.dutHost, v6) {
      var k := CoveredBy(fleets, fabrics, fid, j, fab.dutHost, v6);
    }
    if k :| 0 <= k < |fleets| && InFamily(fleets[k], v6) && Covers(fleets, k, fid, fab, fab.dutHost) {
      var j := HostGiven(fleets, fabrics, fid, k, fab.dutHost, v6);
    }
  }

  lemma {:induction false} CoveredBy(fleets: seq<Fleet>, fabrics: map<string, Fabric>, fid: string, j: nat, host: int,
                                     v6: bool) returns (k: nat)
    requires Known(fleets, fabrics) && fid in fabrics && j < |Declared(fleets, fabrics)|
    requires At(Declared(fleets, fabrics)[j], fid, fabrics[fid], host, v6)
    ensures k < |fleets| && InFamily(fleets[k], v6) && Covers(fleets, k, fid, fabrics[fid], host)
  {
    DeclaredLength(fleets, fabrics);
    var i;
    k, i := Locate(fleets, j);
    DeclaredAt(fleets, fabrics, k, i);
    hide Declared, PeersOn, FleetAsn;
  }

  lemma {:induction false} HostGiven(fleets: seq<Fleet>, fabrics: map<string, Fabric>, fid: string, k: nat, host: int,
                                     v6: bool) returns (j: nat)
    requires Known(fleets, fabrics) && fid in fabrics && k < |fleets|
    requires InFamily(fleets[k], v6) && Covers(fleets, k, fid, fabrics[fid], host)
    ensures j < |Declared(fleets, fabrics)| && At(Declared(fleets, fabrics)[j], fid, fabrics[fid], host, v6)
  {
    var i := host - (fabrics[fid].peerHostBase + PeersOn(fleets[..k], fid));
    DeclaredAt(fleets, fabrics, k, i);
    j := Place(fleets, k, i);
    hide Declared, PeersOn, FleetAsn, Place;
  }

  // ---- addresses inside their network ----

  /** Every address of the family on the fabric lies in the declared network. */
  predicate InNetwork(ss: seq<Session>, fid: string, fab: Fabric, v6: bool) {
    forall j | 0 <= j < |ss| && ss[j].fabric == fid && Address(ss[j], v6).Some? ::
      var net, size := if v6 then fab.v6Net else fab.v4Net, if v6 then fab.v6Addresses else fab.v4Addresses;
      net <= Address(ss[j], v6).value < net + size
  }

  /** The hosts that fall to fleet `k` lie in a network of this size. */
  predicate HostsWithin(fleets: seq<Fleet>, k: nat, fid: string, fab: Fabric, size: nat)
    requires k < |fleets|
  {
    var first := fab.peerHostBase + PeersOn(fleets[..k], fid);
    0 <= first && first + Peers(fleets[k]) <= size
  }

  /**
    The expansion checks a host number against the size of the IPv4 network alone, from above alone. The addresses of
    a family lie in their network exactly when the hosts of each of its fleets do.
   */
  lemma {:induction false} AddressesInNetworkExactly(fleets: seq<Fleet>, fabrics: map<string, Fabric>, fid: string,
                                                     v6: bool)
    requires Known(fleets, fabrics) && fid in fabrics
    ensures var fab := fabrics[fid];
            InNetwork(Declared(fleets, fabrics), fid, fab, v6) <==>
            forall k | 0 <= k < |fleets| && fleets[k].fabric == fid && InFamily(fleets[k], v6) && Peers(fleets[k]) > 0
            ::
              HostsWithin(fleets, k, fid, fab, if v6 then fab.v6Addresses else fab.v4Addresses)
  {
    var ss, fab := Declared(fleets, fabrics), fabrics[fid];
    var size := if v6 then fab.v6Addresses else fab.v4Addresses;
    hide Declared, Known, HostsWithin;
    if InNetwork(ss, fid, fab, v6) {
      forall k | 0 <= k < |fleets| && fleets[k].fabric == fid && InFamily(fleets[k], v6) && Peers(fleets[k]) > 0
        ensures HostsWithin(fleets, k, fid, fab, size)
      {
        EndsWithin(fleets, fabrics, fid, v6, k);
      }
    }
    if forall k | 0 <= k < |fleets| && fleets[k].fabric == fid && InFamily(fleets[k], v6) && Peers(fleets[k]) > 0 ::
      HostsWithin(fleets, k, fid, fab, size)
    {
      forall j | 0 <= j < |ss| && ss[j].fabric == fid && Address(ss[j], v6).Some?
        ensures var net := if v6 then fab.v6Net else fab.v4Net; net <= Address(ss[j], v6).value < net + size
      {
        var k := FleetOf(fleets, fabrics, fid, v6, j, size);
      }
    }
  }

  /** The first and the last peer of the fleet are enough. */
  lemma {:induction false} EndsWithin(fleets: seq<Fleet>, fabrics: map<string, Fabric>, fid: string, v6: bool, k: nat)
    requires Known(fleets, fabrics) && fid in fabrics && InNetwork(Declared(fleets, fabrics), fid, fabrics[fid], v6)
    requires k < |fleets| && fleets[k].fabric == fid && InFamily(fleets[k], v6) && Peers(fleets[k]) > 0
    ensures HostsWithin(fleets, k, fid, fabrics[fid], if v6 then fabrics[fid].v6Addresses else fabrics[fid].v4Addresses)
  {
    var n := Peers(fleets[k]);
    DeclaredAt(fleets, fabrics, k, 0);
    DeclaredAt(fleets, fabrics, k, n - 1);
    hide Declared, Known, PeersOn, FleetAsn, Place;
    var ss := Declared(fleets, fabrics);
    assert ss[Place(fleets, k, 0)].fabric == fid && ss[Place(fleets, k, n - 1)].fabric == fid;
  }

  lemma {:induction false} FleetOf(fleets: seq<Fleet>, fabrics: map<string, Fabric>, fid: string, v6: bool, j: nat,
                                   size: nat) returns (k: nat)
    requires Known(fleets, fabrics) && fid in fabrics && j < |Declared(fleets, fabrics)|
    requires Declared(fleets, fabrics)[j].fabric == fid && Address(Declared(fleets, fabrics)[j], v6).Some?
    ensures k < |fleets| && fleets[k].fabric == fid && InFamily(fleets[k], v6) && Peers(fleets[k]) > 0
    ensures HostsWithin(fleets, k, fid, fabrics[fid], size) ==>
      var net := if v6 then fabrics[fid].v6Net else fabrics[fid].v4Net;
      net <= Address(Declared(fleets, fabrics)[j], v6).value < net + size
  {
    DeclaredLength(fleets, fabrics);
    var i;
    k, i := Locate(fleets, j);
    DeclaredAt(fleets, fabrics, k, i);
    hide Declared, Known, PeersOn, FleetAsn, TotalPeers;
  }

  // ---- containers and ports ----

  /** How many of `n` peers, `per` to a container, are in container `c`. */
  function Block(n: nat, per: nat, c: nat): nat {
    Min(per, Max(n - c * per, 0))
  }

  lemma BlockStep(n: nat, per: nat, c: nat)
    requires per >= 1
    ensures Block(n + 1, per, c) == Block(n, per, c) + (if n / per == c then 1 else 0)
  {
    assert n == (n / per) * per + n % per;
    if n / per < c { MulMonotone(n / per + 1, c, per); }
    if n / per > c { MulMonotone(c + 1, n / per, per); }
  }

  /** What the fleets put into one container. */
  function Load(fleets: seq<Fleet>, name: ContainerName): nat {
    if fleets == [] then 0
    else
      var f := fleets[|fleets| - 1];
      Load(fleets[..|fleets| - 1], name)
        + (if f.id == name.fleet then Block(Peers(f), PerContainer(f), name.index) else 0)
  }

  lemma {:induction false} FleetLoad(before: seq<Session>, f: Fleet, fab: Fabric, n: nat, name: ContainerName)
    ensures |SessionsIn(FleetSessions(before, f, fab, n), name)|
         == |SessionsIn(before, name)| + (if f.id == name.fleet then Block(n, PerContainer(f), name.index) else 0)
  {
    hide Block, PerContainer, SessionsIn, NextSession;
    if n == 0 {
      EmptyBlock(PerContainer(f), name.index);
    } else {
      FleetLoad(before, f, fab, n - 1, name);
      BlockStep(n - 1, PerContainer(f), name.index);
      var ss := FleetSessions(before, f, fab, n - 1);
      SessionsInNext(ss, f, fab, n - 1, name);
    }
  }

  lemma SessionsInNext(ss: seq<Session>, f: Fleet, fab: Fabric, i: nat, name: ContainerName)
    ensures |SessionsIn(ss + [NextSession(ss, f, fab, i)], name)|
         == |SessionsIn(ss, name)| + (if f.id == name.fleet && i / PerContainer(f) == name.index then 1 else 0)
  {
    var all := ss + [NextSession(ss, f, fab, i)];
    assert all[..|ss|] == ss;
  }

  lemma EmptyBlock(per: nat, c: nat)
    ensures Block(0, per, c) == 0
  {
    assert c * per >= 0;
  }

  lemma {:induction false} DeclaredLoad(fleets: seq<Fleet>, fabrics: map<string, Fabric>, name: ContainerName)
    requires Known(fleets, fabrics)
    ensures |SessionsIn(Declared(fleets, fabrics), name)| == Load(fleets, name)
  {
    if fleets != [] {
      var init, f := fleets[..|fleets| - 1], fleets[|fleets| - 1];
      assert f in fleets;
      DeclaredLoad(init, fabrics, name);
      FleetLoad(Declared(init, fabrics), f, fabrics[f.fabric], Peers(f), name);
    }
  }

  /** Containers of a sound inventory hold exactly what the fleets put into them, ids repeated or not. */
  lemma ContainerSize(p: Partial, origins: seq<Origin>, fleets: seq<Fleet>, fabrics: map<string, Fabric>, dutAsn: int,
                      name: ContainerName)
    requires Sound(p, origins, fleets, fabrics, dutAsn) && Known(fleets, fabrics)
      && p.sessions == Declared(fleets, fabrics)
    requires name in p.containers
    ensures |p.containers[name].sessions| == Load(fleets, name)
  {
    hide Placed, Hosts, Asns, Known;
    DeclaredLoad(fleets, fabrics, name);
  }

  predicate DistinctIds(fleets: seq<Fleet>) {
    forall a, b | 0 <= a < b < |fleets| :: fleets[a].id != fleets[b].id
  }

  /** No container of a fleet's is put more into than that fleet allows. */
  predicate LoadsFit(fleets: seq<Fleet>) {
    forall k, i: nat | 0 <= k < |fleets| && i < Peers(fleets[k]) ::
      Load(fleets, ContainerName(fleets[k].id, i / PerContainer(fleets[k]))) <= PerContainer(fleets[k])
  }

  /**
    No session's container holds more sessions than the session's fleet allows, exactly when what the fleets of each
    id put into a container together stays within each of their sizes; with distinct ids it always does.
   */
  lemma ContainersWithinSizeExactly(p: Partial, origins: seq<Origin>, fleets: seq<Fleet>, fabrics: map<string, Fabric>,
                                    dutAsn: int)
    requires Sound(p, origins, fleets, fabrics, dutAsn) && Known(fleets, fabrics)
      && p.sessions == Declared(fleets, fabrics)
    ensures (forall k, i: nat | 0 <= k < |fleets| && i < Peers(fleets[k]) ::
               && Place(fleets, k, i) < |p.sessions|
               && var name := p.sessions[Place(fleets, k, i)].container;
                  name in p.containers && |p.containers[name].sessions| <= PerContainer(fleets[k]))
       <==> LoadsFit(fleets)
    ensures DistinctIds(fleets) ==> LoadsFit(fleets)
  {
    hide Sound, Known, Load, PerContainer, Declared, Place, DistinctIds;
    forall k, i: nat | 0 <= k < |fleets| && i < Peers(fleets[k])
      ensures Place(fleets, k, i) < |p.sessions|
      ensures var name := ContainerName(fleets[k].id, i / PerContainer(fleets[k]));
              && p.sessions[Place(fleets, k, i)].container == name && name in p.containers
              && |p.containers[name].sessions| == Load(fleets, name)
      ensures DistinctIds(fleets) ==>
        Load(fleets, ContainerName(fleets[k].id, i / PerContainer(fleets[k]))) <= PerContainer(fleets[k])
    {
      PortOf(fleets, fabrics, k, i);
      var name := ContainerName(fleets[k].id, i / PerContainer(fleets[k]));
      InContainers(p, origins, fleets, fabrics, dutAsn, Place(fleets, k, i));
      ContainerSize(p, origins, fleets, fabrics, dutAsn, name);
      if DistinctIds(fleets) { OneFleetLoads(fleets, k, name); }
    }
  }

  lemma InContainers(p: Partial, origins: seq<Origin>, fleets: seq<Fleet>, fabrics: map<string, Fabric>, dutAsn: int,
                     j: nat)
    requires Sound(p, origins, fleets, fabrics, dutAsn) && j < |p.sessions|
    ensures p.sessions[j].container in p.containers
  {
    hide Placed, Hosts, Asns;
  }

  lemma {:induction false} OneFleetLoads(fleets: seq<Fleet>, k: nat, name: ContainerName)
    requires DistinctIds(fleets) && k < |fleets| && fleets[k].id == name.fleet
    ensures Load(fleets, name) <= PerContainer(fleets[k])
  {
    var last := |fleets| - 1;
    if k == last {
      NoneLoads(fleets[..last], name);
    } else {
      OneFleetLoads(fleets[..last], k, name);
    }
  }

  lemma {:induction false} NoneLoads(fleets: seq<Fleet>, name: ContainerName)
    requires forall k | 0 <= k < |fleets| :: fleets[k].id != name.fleet
    ensures Load(fleets, name) == 0
  {
    if fleets != [] {
      NoneLoads(fleets[..|fleets| - 1], name);
    }
  }

  /** gobgp speakers of one container have different ports. */
  predicate PortsDiffer(ss: seq<Session>) {
    forall i, j | 0 <= i < j < |ss| && ss[i].container == ss[j].container && ss[i].apiPort != 0 && ss[j].apiPort != 0 ::
      ss[i].apiPort != ss[j].apiPort
  }

  /** No two gobgp fleets that have a peer share an id. */
  predicate GobgpIdsDistinct(fleets: seq<Fleet>) {
    forall a, b | 0 <= a < b < |fleets| && Speaks(fleets[a]) && Speaks(fleets[b]) :: fleets[a].id != fleets[b].id
  }

  predicate Speaks(f: Fleet) {
    f.engine == Gobgp && Peers(f) > 0
  }

  /** Ports in every container are distinct if and only if no two gobgp fleets with a peer share an id. */
  lemma PortsDistinctExactly(fleets: seq<Fleet>, fabrics: map<string, Fabric>)
    requires Known(fleets, fabrics)
    ensures PortsDiffer(Declared(fleets, fabrics)) <==> GobgpIdsDistinct(fleets)
  {
    var ss := Declared(fleets, fabrics);
    DeclaredLength(fleets, fabrics);
    if GobgpIdsDistinct(fleets) {
      forall x, y | 0 <= x < y < |ss| && ss[x].container == ss[y].container && ss[x].apiPort != 0 && ss[y].apiPort != 0
        ensures ss[x].apiPort != ss[y].apiPort
      {
        var a, i := Locate(fleets, x);
        var b, j := Locate(fleets, y);
        PortOf(fleets, fabrics, a, i);
        PortOf(fleets, fabrics, b, j);
        hide Declared, Place, TotalPeers;
        assert a == b;
        SameBlock(i, j, PerContainer(fleets[a]));
      }
    }
    forall a, b | 0 <= a < b < |fleets| && Speaks(fleets[a]) && Speaks(fleets[b]) && fleets[a].id == fleets[b].id
      ensures !PortsDiffer(ss)
    {
      PortOf(fleets, fabrics, a, 0);
      PortOf(fleets, fabrics, b, 0);
      PlacesApart(fleets, a, b);
    }
  }

  lemma PortOf(fleets: seq<Fleet>, fabrics: map<string, Fabric>, k: nat, i: nat)
    requires Known(fleets, fabrics) && k < |fleets| && i < Peers(fleets[k])
    ensures Place(fleets, k, i) < |Declared(fleets, fabrics)|
    ensures var s, per := Declared(fleets, fabrics)[Place(fleets, k, i)], PerContainer(fleets[k]);
            && s.container == ContainerName(fleets[k].id, i / per)
            && s.apiPort == (if fleets[k].engine == Gobgp then 50051 + i % per else 0)
            && (s.apiPort != 0 ==> Speaks(fleets[k]))
  {
    DeclaredAt(fleets, fabrics, k, i);
    hide Declared;
  }

  lemma SameBlock(i: nat, j: nat, per: nat)
    requires per >= 1 && i != j && i / per == j / per
    ensures i % per != j % per
  {
    assert i == (i / per) * per + i % per && j == (j / per) * per + j % per;
  }

  // ---- profiles the code accepts ----

  /** A fleet of IPv4 peers on fabric "x", one to a container. */
  function Example(id: string, engine: Engine, peers: int, asnBase: int): Fleet {
    Fleet(id, "x", engine, peers, 1, asnBase, true, false, None, None, 1, 0, 1)
  }

  /** Two gobgp fleets with one id. */
  const SAME_ID: seq<Fleet> := [Example("a", Gobgp, 1, 1), Example("a", Gobgp, 1, 2)]

  const EXAMPLE_FABRICS: map<string, Fabric> := map["x" := Fabric(1000, 256, 0, 256, 10, 10)]

  lemma ExampleSessions(f: Fleet, g: Fleet)
    requires f == Example("a", Gobgp, 1, 1) && g == Example("a", Gobgp, 1, 2)
    ensures Known([f, g], EXAMPLE_FABRICS) && TotalPeers([f, g]) == 2 && !IsBogon(5)
    ensures Declared([f, g], EXAMPLE_FABRICS)
         == [NewSession(f, EXAMPLE_FABRICS["x"], 0, 10, 1, 0), NewSession(g, EXAMPLE_FABRICS["x"], 0, 11, 2, 1)]
    ensures AllFit(Declared([f, g], EXAMPLE_FABRICS), EXAMPLE_FABRICS, 5)
  {
    var fleets, fab := [f, g], EXAMPLE_FABRICS["x"];
    assert fleets[..1] == [f] && fleets[..0] == [] && [f][..0] == [];
    assert TotalPeers([f]) == 1;
    NotBogons();
    hide Declared;
    DeclaredLength(fleets, EXAMPLE_FABRICS);
    assert PeersOn([f], "x") == 1;
    DeclaredAt(fleets, EXAMPLE_FABRICS, 0, 0);
    DeclaredAt(fleets, EXAMPLE_FABRICS, 1, 0);
    var ss := Declared(fleets, EXAMPLE_FABRICS);
    assert ss[..1] == [ss[0]] && [ss[0]][..0] == [] && ss[..0] == [];
    assert FitsAt(ss, 0, EXAMPLE_FABRICS, 5) && FitsAt(ss, 1, EXAMPLE_FABRICS, 5);
  }

  lemma NotBogons()
    ensures !IsBogon(1) && !IsBogon(2) && !IsBogon(5) && FleetAsn(1, 0) == 1 && FleetAsn(2, 0) == 2
  {
  }

  /** The expansion accepts that profile, and its two speakers share a container and a port. */
  method DuplicateIdsShareAPort() returns (r: Result<Inventory, ProfileError>)
    ensures !GobgpIdsDistinct(SAME_ID)
    ensures r.Ok? && |r.value.sessions| == 2 && r.value.sessions == Declared(SAME_ID, EXAMPLE_FABRICS)
    ensures r.value.sessions[0].container == r.value.sessions[1].container
    ensures r.value.sessions[0].apiPort == r.value.sessions[1].apiPort == 50051
  {
    hide Sound, Declared, AllFit;
    assert Speaks(SAME_ID[0]) && Speaks(SAME_ID[1]) && SAME_ID[0].id == SAME_ID[1].id;
    ExampleSessions(SAME_ID[0], SAME_ID[1]);
    ghost var p, origins;
    r, p, origins := BuildInventory(SAME_ID, EXAMPLE_FABRICS, 5);
  }

  /** It also accepts a profile whose first peer gets the router's address, 1000 + 10. */
  method DutAddressTaken() returns (r: Result<Inventory, ProfileError>)
    ensures r.Ok? && |r.value.sessions| == 2
    ensures var fab := EXAMPLE_FABRICS["x"]; At(r.value.sessions[0], "x", fab, fab.dutHost, false)
  {
    hide Sound, Declared, AllFit;
    ExampleSessions(SAME_ID[0], SAME_ID[1]);
    ghost var p, origins;
    r, p, origins := BuildInventory(SAME_ID, EXAMPLE_FABRICS, 5);
  }

  /** One peer with both addresses. */
  const ONE_PEER: Fleet := Example("a", Gobgp, 1, 1).(v6 := true)

  lemma OneSession(fab: Fabric)
    requires fab.peerHostBase < fab.v4Addresses - 1
    requires 0 <= fab.v4Net + fab.peerHostBase < 0x1_0000_0000 && 0 <= fab.v6Net + fab.peerHostBase < 0x1_0000_0000
    ensures var fabrics := map["x" := fab];
            && Known([ONE_PEER], fabrics) && TotalPeers([ONE_PEER]) == 1 && !IsBogon(5)
            && Declared([ONE_PEER], fabrics) == [NewSession(ONE_PEER, fab, 0, fab.peerHostBase, 1, 0)]
            && AllFit(Declared([ONE_PEER], fabrics), fabrics, 5)
  {
    var fleets, fabrics := [ONE_PEER], map["x" := fab];
    assert fleets[..0] == [];
    NotBogons();
    DeclaredLength(fleets, fabrics);
    DeclaredAt(fleets, fabrics, 0, 0);
    hide Declared;
    var ss := Declared(fleets, fabrics);
    assert ss[..0] == [];
    assert FitsAt(ss, 0, fabrics, 5);
  }

  /** An IPv6 network of eight addresses and a peer at host 10: accepted, and outside it. */
  method SmallV6Network() returns (r: Result<Inventory, ProfileError>)
    ensures r.Ok? && |r.value.sessions| == 1 && r.value.sessions[0].v6 == Some(2000 + 10)
    ensures !InNetwork(r.value.sessions, "x", Fabric(1000, 256, 2000, 8, 1, 10), true)
  {
    hide Sound, Declared, AllFit;
    var fab := Fabric(1000, 256, 2000, 8, 1, 10);
    OneSession(fab);
    ghost var p, origins;
    r, p, origins := BuildInventory([ONE_PEER], map["x" := fab], 5);
  }

  /** A first host of -1: accepted, and one below the network in both families. */
  method NegativeHostBase() returns (r: Result<Inventory, ProfileError>)
    ensures r.Ok? && |r.value.sessions| == 1
    ensures r.value.sessions[0].v4 == Some(1000 - 1) && r.value.sessions[0].v6 == Some(2000 - 1)
    ensures forall v6 :: !InNetwork(r.value.sessions, "x", Fabric(1000, 256, 2000, 256, 1, -1), v6)
  {
    hide Sound, Declared, AllFit;
    var fab := Fabric(1000, 256, 2000, 256, 1, -1);
    OneSession(fab);
    ghost var p, origins;
    r, p, origins := BuildInventory([ONE_PEER], map["x" := fab], 5);
    assert r.value.sessions[0].fabric == "x";
    assert forall v6 :: Address(r.value.sessions[0], v6) == Some(if v6 then 1999 else 999);
  }
}
