/**
  harness/routegen.py, `build_session_mrt`: one session's table, from plan to octets, and the end-to-end
  result that the structural reader accepts it with the counts the profile declares. Draws of the random
  generator are arbitrary values; its two retry loops are modelled by the value they end with.
 */
module SessionMrt {
  import opened Arith
  import opened Wrappers
  import opened Sessions
  import opened Bytes
  import opened TableDump
  import opened MrtParse
  import opened MrtCheck
  import opened RouteGen
  import opened MrtWriting
  import opened MrtRoundTrip
  import P = PrefixPlanning
  import W = PrefixWindows

  const SAFE_TRANSIT: seq<int> := [1299, 3356, 6939, 2914, 174, 3257, 6461, 6830, 1273, 12956]

  predicate SafeUpstream(asn: int, dutAsn: int) {
    asn in SAFE_TRANSIT && asn != dutAsn
  }

  predicate SafeOrigin(asn: int, dutAsn: int) {
    4000 <= asn < 64000 && asn != dutAsn && asn != 23456
  }

  /** `next_safe_upstream`: the first of the generator's draws that is not the router's; None while they all are. */
  method NextSafeUpstream(draws: seq<int>, dutAsn: int) returns (asn: Option<int>)
    ensures asn.None? <==> forall d <- draws :: d == dutAsn
    ensures asn.Some? ==>
      exists k | 0 <= k < |draws| :: asn.value == draws[k] != dutAsn && forall j | 0 <= j < k :: draws[j] == dutAsn
  {
    for k := 0 to |draws|
      invariant forall j | 0 <= j < k :: draws[j] == dutAsn
    {
      var a := draws[k];
      if a != dutAsn {
        assert a in draws;
        return Some(a);
      }
    }
    return None;
  }

  /** `next_safe_origin`. */
  method NextSafeOrigin(draws: seq<int>, dutAsn: int) returns (asn: Option<int>)
    ensures asn.None? <==> forall d <- draws :: d in {dutAsn, 23456}
    ensures asn.Some? ==>
      exists k | 0 <= k < |draws| ::
        asn.value == draws[k] && draws[k] !in {dutAsn, 23456} && forall j | 0 <= j < k :: draws[j] in {dutAsn, 23456}
  {
    for k := 0 to |draws|
      invariant forall j | 0 <= j < k :: draws[j] in {dutAsn, 23456}
    {
      var a := draws[k];
      if a != dutAsn && a != 23456 {
        assert a in draws;
        return Some(a);
      }
    }
    return None;
  }

  /**
    A path as announced: an upstream and an origin no router filters, after the peer's own ASN unless it is
    transparent.
   */
  predicate SafePath(path: seq<int>, peerAsn: int, dutAsn: int, transparent: bool) {
    if transparent then |path| == 2 && SafeUpstream(path[0], dutAsn) && SafeOrigin(path[1], dutAsn)
    else |path| == 3 && path[0] == peerAsn && SafeUpstream(path[1], dutAsn) && SafeOrigin(path[2], dutAsn)
  }

  /** The upstreams a path may have; the origins are those from 4000 to 63999, without 23456. */
  lemma SafeAsnsAre(asn: int, dutAsn: int)
    ensures SafeUpstream(asn, dutAsn) <==>
      asn in {174, 1273, 1299, 2914, 3257, 3356, 6461, 6830, 6939, 12956} && asn != dutAsn
    ensures SafeOrigin(asn, dutAsn) <==> 4000 <= asn <= 63999 && asn !in {23456, dutAsn}
  {
  }

  /** Draws of a transit ASN, or of an origin, at least one of which ends its loop. */
  predicate TransitDraws(draws: seq<int>, dutAsn: int) {
    (forall d <- draws :: d in SAFE_TRANSIT) && exists d <- draws :: d != dutAsn
  }

  predicate OriginDraws(draws: seq<int>, dutAsn: int) {
    (forall d <- draws :: 4000 <= d < 64000) && exists d <- draws :: d !in {dutAsn, 23456}
  }

  lemma DrawsExist(dutAsn: int)
    ensures exists draws :: TransitDraws(draws, dutAsn)
    ensures exists draws :: OriginDraws(draws, dutAsn)
  {
    assert SAFE_TRANSIT[0] == 1299 && SAFE_TRANSIT[1] == 3356;
    var transit, origin := if dutAsn == 1299 then 3356 else 1299, if dutAsn == 4000 then 4001 else 4000;
    assert transit in [transit] && TransitDraws([transit], dutAsn);
    assert origin in [origin] && OriginDraws([origin], dutAsn);
  }

  method AsPath(peerAsn: int, dutAsn: int, transparent: bool) returns (path: seq<int>)
    ensures SafePath(path, peerAsn, dutAsn, transparent)
  {
    DrawsExist(dutAsn);
    var transit :| TransitDraws(transit, dutAsn);
    var origins :| OriginDraws(origins, dutAsn);
    var upstream := NextSafeUpstream(transit, dutAsn);
    var origin := NextSafeOrigin(origins, dutAsn);
    assert upstream.value in transit && origin.value in origins;
    var tail := [upstream.value, origin.value];
    path := if transparent then tail else [peerAsn] + tail;
  }

  lemma SafePathShort(path: seq<int>, peerAsn: int, dutAsn: int, transparent: bool)
    requires SafePath(path, peerAsn, dutAsn, transparent)
    ensures |path| <= 3 && forall i | 0 <= i < |path| :: path[i] == peerAsn || 0 < path[i] < 64000
  {
  }

  /** What the table builder is asked for, apart from the session and the plan. */
  datatype Request = Request(dutAsn: int, offset: int, medBase: int, tag: Option<(int, int)>, transparent: bool)

  function PathsPer(s: Session): nat {
    if s.pathsPerPrefix > 1 then s.pathsPerPrefix else 1
  }

  /** Every number the table carries fits its field. */
  predicate SessionFits(s: Session, q: Request) {
    && 0 <= s.asn < 0x1_0000_0000
    && PathsPer(s) < 0x1_0000
    && 0 <= q.medBase && q.medBase + 199 + PathsPer(s) <= 0x1_0000_0000
    && (q.tag.Some? ==> 0 <= q.tag.value.0 < 0x1_0000 && 0 <= q.tag.value.1 < 0x1_0000)
  }

  /** The attribute sets the builder makes: safe path, own next hop, one large community. */
  predicate BuiltAttrs(a: PathAttrs, s: Session, q: Request, hop: Ip, p: nat) {
    && SafePath(a.asPath, s.asn, q.dutAsn, q.transparent)
    && a.asSet == [] && a.origin == 0 && a.nextHop == hop
    && a.med.Some? && q.medBase + p <= a.med.value <= q.medBase + p + (if q.medBase != 0 then 199 else 0)
    && a.communities == (if q.tag.Some? then [q.tag.value] else [])
    && a.largeCommunities == [(s.asn, 0, 100 + p)]
  }

  lemma PrintSize(a: Attr)
    ensures |PrintAttr(a)| <= 4 + |a.value|
  {
  }

  lemma CommunityNumbers(a: PathAttrs, s: Session, q: Request, hop: Ip, p: nat)
    requires BuiltAttrs(a, s, q, hop, p)
    ensures Pairs(a.communities) == if q.tag.Some? then [q.tag.value.0, q.tag.value.1] else []
    ensures Triples(a.largeCommunities) == [s.asn, 0, 100 + p]
  {
    if q.tag.Some? { assert a.communities[1..] == []; }
    assert a.largeCommunities[1..] == [];
  }

  lemma BuiltAttrsPack(a: PathAttrs, s: Session, q: Request, hop: Ip, p: nat)
    requires SessionFits(s, q) && p < PathsPer(s) && BuiltAttrs(a, s, q, hop, p)
    ensures AttrsFit(a, hop.V6?)
  {
    Powers();
    CommunityNumbers(a, s, q, hop, p);
    SafePathShort(a.asPath, s.asn, q.dutAsn, q.transparent);
    hide SafePath;
  }

  /** Such a set fits the wire in at most 80 octets. */
  lemma BuiltAttrsFit(a: PathAttrs, s: Session, q: Request, hop: Ip, p: nat)
    requires SessionFits(s, q) && p < PathsPer(s) && BuiltAttrs(a, s, q, hop, p)
    ensures AttrsFit(a, hop.V6?) && |PrintAttrs(AttrsOf(a))| <= 80
  {
    hide PrintAttr, PackAll;
    BuiltAttrsPack(a, s, q, hop, p);
    CommunityNumbers(a, s, q, hop, p);
    SafePathShort(a.asPath, s.asn, q.dutAsn, q.transparent);
    hide SafePath;
    PackAllFits(2, Pairs(a.communities));
    PackAllFits(4, Triples(a.largeCommunities));
    PackAllFits(4, [a.med.value]);
    PrintAttrsOf(a);
    hide PrintAttrs, AttrsOf;
    AsPathBodySize(a.asPath);
    PrintSize(OriginAttr(a));
    PrintSize(AsPathAttr(a));
    PrintSize(HopAttr(a));
    PrintSize(MedAttr(a));
    PrintSize(CommunitiesAttr(a));
    PrintSize(LargeAttr(a));
  }

  lemma AsPathBodySize(asns: seq<int>)
    requires PathFits(asns, []) && |asns| <= 3
    ensures |AsPathBody(asns, [])| <= 14
  {
    FlattenPair(asns, []);
    if asns != [] { SegmentLayout(Segment(AS_SEQUENCE, Numbers(asns))); }
  }

  lemma {:induction false} EntriesSize(es: seq<Entry>)
    requires forall i | 0 <= i < |es| :: |PrintAttrs(es[i].attrs)| <= 80
    ensures |Flatten(PrintEntry, es)| <= 88 * |es|
  {
    if es != [] {
      EntriesSize(es[1..]);
    }
  }

  /** The peers of the table: one per address the session has, IPv4 first. */
  function PeersFor(s: Session): seq<MrtPeer>
    requires s.Addressed()
  {
    (if s.v4.Some? then [MrtPeer(V4(s.v4.value), s.asn, 0)] else [])
    + (if s.v6.Some? then [MrtPeer(V6(s.v6.value), s.asn, 0)] else [])
  }

  /** What holds between calls of the writer: a sound dump so far, with these record and entry counts. */
  ghost predicate Progress(rs: seq<Record>, peers: seq<MrtPeer>, ts: int, calls: seq<Call>, n4: nat, n6: nat,
                           per: nat) {
    && TableFits(peers, [], ts) && CallsFit(calls, ts) && AllCallsSound(calls, peers)
    && |calls| == n4 + n6 && (forall i | 0 <= i < |calls| :: calls[i].number == i)
    && rs == Dump(peers, [], ts, calls)
    && |RibsOf(rs, false)| == n4 && |RibsOf(rs, true)| == n6
    && |EntriesOf(rs)| == (n4 + n6) * per
  }

  lemma ProgressStarts(peers: seq<MrtPeer>, ts: int, per: nat)
    requires TableFits(peers, [], ts)
    ensures Progress([TreeTable(peers, [], ts)], peers, ts, [], 0, 0, per)
  {
    var t := TreeTable(peers, [], ts);
    SingleRecord(t);
    assert [t] + [] == [t];
  }

  lemma ProgressStep(rs: seq<Record>, peers: seq<MrtPeer>, ts: int, calls: seq<Call>, n4: nat, n6: nat, per: nat,
                     c: Call)
    requires Progress(rs, peers, ts, calls, n4, n6, per)
    requires c.number == |calls| && RibFits(c.v6, c.number, ts, c.prefix, c.entries)
    requires CallSound(c, peers) && |c.entries| == per
    ensures Progress(rs + [TreeRib(c.v6, c.number, ts, c.prefix, c.entries)], peers, ts, calls + [c],
                     if c.v6 then n4 else n4 + 1, if c.v6 then n6 + 1 else n6, per)
  {
    hide RibFits, CallSound, TreeRib, TreeTable;
    var r := TreeRib(c.v6, c.number, ts, c.prefix, c.entries);
    RibShape(c, c.number, ts);
    RecordListsAppend(rs, r);
    SingleRecord(r);
    DumpExtend(peers, [], ts, calls, c);
    assert AllCallsSound(calls + [c], peers);
    assert (n4 + n6 + 1) * per == (n4 + n6) * per + per;
  }

  lemma RibShape(c: Call, number: nat, ts: int)
    requires RibFits(c.v6, number, ts, c.prefix, c.entries)
    ensures var r := TreeRib(c.v6, number, ts, c.prefix, c.entries);
            r.Rib? && r.v6 == c.v6 && |r.entries| == |c.entries|
  {
  }

  /** The entries of one prefix: one for each path, from the session's own peer. */
  predicate BuiltEntries(entries: seq<(int, PathAttrs)>, s: Session, q: Request, hop: Ip, peerIndex: nat) {
    |entries| == PathsPer(s)
    && forall p | 0 <= p < |entries| :: entries[p].0 == peerIndex && BuiltAttrs(entries[p].1, s, q, hop, p)
  }

  /** The inner `for p in range(...)`. */
  method EntriesFor(s: Session, q: Request, hop: Ip, peerIndex: nat) returns (entries: seq<(int, PathAttrs)>)
    requires peerIndex <= 1
    ensures BuiltEntries(entries, s, q, hop, peerIndex)
  {
    hide SafePath;
    entries := [];
    for p := 0 to PathsPer(s)
      invariant |entries| == p
      invariant forall k | 0 <= k < p :: entries[k].0 == peerIndex && BuiltAttrs(entries[k].1, s, q, hop, k)
    {
      var path := AsPath(s.asn, q.dutAsn, q.transparent);
      var draw :| 0 <= draw < 200;
      var attrs := PathAttrs(path, hop, Some(q.medBase + (if q.medBase != 0 then draw else 0) + p), 0,
                             if q.tag.Some? then [q.tag.value] else [], [(s.asn, 0, 100 + p)], []);
      entries := entries + [(peerIndex, attrs)];
    }
  }

  /** One prefix with built entries is always written when the session fits and the number does. */
  lemma BuiltRibFits(s: Session, q: Request, hop: Ip, ts: int, number: nat, p: Prefix, entries: seq<(int, PathAttrs)>,
                     peerIndex: nat)
    requires SessionFits(s, q) && 0 <= ts < 0x1_0000_0000 && number < 0x1_0000_0000 && Parses(p) && peerIndex <= 1
    requires BuiltEntries(entries, s, q, hop, peerIndex)
    ensures RibFits(hop.V6?, number, ts, p, entries)
  {
    hide BuiltAttrs, PrintAttrs, AttrsOf;
    forall k | 0 <= k < |entries|
      ensures EntryFits(entries[k], ts, hop.V6?) && |PrintAttrs(AttrsOf(entries[k].1))| <= 80
    {
      BuiltAttrsFit(entries[k].1, s, q, hop, k);
    }
    EntriesSize(TreeEntries(entries, ts, hop.V6?));
    assert p.plen <= 128;
  }

  /** Counts after `k` more prefixes of one family. */
  function More(v6: bool, n4: nat, n6: nat, k: nat): (nat, nat) {
    if v6 then (n4, n6 + k) else (n4 + k, n6)
  }

  /** One turn of the loop over prefixes: build the entries, append the record. */
  method AddOne(w: MrtWriter, s: Session, q: Request, hop: Ip, peerIndex: nat, p: Prefix,
                ghost peers: seq<MrtPeer>, ghost calls: seq<Call>, ghost n4: nat, ghost n6: nat)
    returns (ok: bool, ghost c: Call)
    requires w.Valid() && w.isOpen && w.number == |calls|
    requires Progress(w.written, peers, w.timestamp, calls, n4, n6, PathsPer(s))
    requires peerIndex <= 1 && peerIndex < |peers| && peers[peerIndex].ip.V6? == hop.V6?
    requires Parses(p) && p.v6 == hop.V6?
    modifies w
    ensures w.Valid() && w.isOpen
    ensures ok ==> w.number == |calls| + 1 && c.prefix == p && c.v6 == hop.V6?
    ensures ok ==> BuiltEntries(c.entries, s, q, hop, peerIndex)
    ensures ok ==> Progress(w.written, peers, w.timestamp, calls + [c],
                            More(hop.V6?, n4, n6, 1).0, More(hop.V6?, n4, n6, 1).1, PathsPer(s))
    ensures SessionFits(s, q) && |calls| < 0x1_0000_0000 ==> ok
  {
    hide BuiltAttrs, RibFits, CallSound, Progress;
    var entries := EntriesFor(s, q, hop, peerIndex);
    c := Call(hop.V6?, p, entries, |calls|);
    ghost var ts, before := w.timestamp, w.written;
    ProgressTime(before, peers, ts, calls, n4, n6, PathsPer(s));
    if SessionFits(s, q) && |calls| < 0x1_0000_0000 {
      BuiltRibFits(s, q, hop, ts, w.number, p, entries, peerIndex);
    }
    ok := w.Add(hop.V6?, p, entries);
    if ok {
      SoundCall(c, peers, peerIndex);
      ProgressStep(before, peers, ts, calls, n4, n6, PathsPer(s), c);
      FitsNumber(c, |calls|, ts);
    }
  }

  /** `calls` are one call of the next hop's family for each prefix, in order, with the session's entries. */
  predicate Made(calls: seq<Call>, prefixes: seq<Prefix>, s: Session, q: Request, hop: Ip, peerIndex: nat) {
    && |calls| == |prefixes|
    && forall i | 0 <= i < |calls| ::
         calls[i].prefix == prefixes[i] && calls[i].v6 == hop.V6?
           && BuiltEntries(calls[i].entries, s, q, hop, peerIndex)
  }

  /** The loop over one family's prefixes; `ok` is false where the writer raised. */
  method AddFamily(w: MrtWriter, s: Session, q: Request, hop: Ip, peerIndex: nat, prefixes: seq<Prefix>,
                   ghost peers: seq<MrtPeer>, ghost calls: seq<Call>, ghost n4: nat, ghost n6: nat)
    returns (ok: bool, written: nat, ghost made: seq<Call>)
    requires w.Valid() && w.isOpen && w.number == |calls|
    requires Progress(w.written, peers, w.timestamp, calls, n4, n6, PathsPer(s))
    requires peerIndex <= 1 && peerIndex < |peers| && peers[peerIndex].ip.V6? == hop.V6?
    requires forall i | 0 <= i < |prefixes| :: Parses(prefixes[i]) && prefixes[i].v6 == hop.V6?
    modifies w
    ensures w.Valid() && w.isOpen
    ensures ok ==> written == |prefixes| && w.number == |calls + made| && Made(made, prefixes, s, q, hop, peerIndex)
    ensures ok ==> Progress(w.written, peers, w.timestamp, calls + made,
                            More(hop.V6?, n4, n6, written).0, More(hop.V6?, n4, n6, written).1, PathsPer(s))
    ensures SessionFits(s, q) && |calls| + |prefixes| <= 0x1_0000_0000 ==> ok
  {
    hide Progress, SessionFits, Parses, BuiltEntries;
    made := [];
    written := 0;
    assert calls + [] == calls;
    for i := 0 to |prefixes|
      invariant w.Valid() && w.isOpen && w.number == |calls + made| && written == i
      invariant Progress(w.written, peers, w.timestamp, calls + made,
                         More(hop.V6?, n4, n6, i).0, More(hop.V6?, n4, n6, i).1, PathsPer(s))
      invariant Made(made, prefixes[..i], s, q, hop, peerIndex)
    {
      ghost var c;
      ok, c := AddOne(w, s, q, hop, peerIndex, prefixes[i], peers, calls + made,
                      More(hop.V6?, n4, n6, i).0, More(hop.V6?, n4, n6, i).1);
      if !ok { return; }
      assert calls + made + [c] == calls + (made + [c]);
      made := made + [c];
      written := written + 1;
    }
    assert prefixes[..|prefixes|] == prefixes;
    ok := true;
  }

  lemma ProgressTime(rs: seq<Record>, peers: seq<MrtPeer>, ts: int, calls: seq<Call>, n4: nat, n6: nat, per: nat)
    requires Progress(rs, peers, ts, calls, n4, n6, per)
    ensures 0 <= ts < 0x1_0000_0000
  {
  }

  lemma FitsNumber(c: Call, number: nat, ts: int)
    requires RibFits(c.v6, number, ts, c.prefix, c.entries)
    ensures number < 0x1_0000_0000 && Parses(c.prefix)
  {
  }

  lemma SoundCall(c: Call, peers: seq<MrtPeer>, peerIndex: nat)
    requires c.entries != [] && c.prefix.plen <= 8 * Width(c.v6) && peerIndex < |peers|
      && peers[peerIndex].ip.V6? == c.v6
    requires forall k | 0 <= k < |c.entries| :: c.entries[k].0 == peerIndex
    ensures CallSound(c, peers)
  {
  }

  datatype Stats = Stats(prefixesV4: nat, prefixesV6: nat, ribEntries: nat)

  /** The prefixes of one family this session's table announces: none without an address or a count. */
  function Announced(s: Session, plan: P.PrefixPlan, q: Request, v6: bool): (ps: seq<Prefix>)
    requires plan.Built()
    ensures forall i | 0 <= i < |ps| :: Parses(ps[i]) && ps[i].v6 == v6
  {
    if (if v6 then s.v6.None? else s.v4.None?) || plan.Capacity(v6) == 0 then []
    else
      var indices := plan.SessionIndices(v6, s.nlriSlot, s.Prefixes(v6), q.offset);
      AnnouncedParse(plan, v6, indices);
      plan.SessionPrefixes(v6, s.nlriSlot, s.Prefixes(v6), q.offset)
  }

  /** `v4_at` divides by the capacity: without an octet in the plan it raises on the first IPv4 prefix asked for. */
  predicate Divides(s: Session, plan: P.PrefixPlan, q: Request)
    requires plan.Built()
  {
    s.v4.Some? && plan.SessionIndices(false, s.nlriSlot, s.prefixesV4, q.offset) != [] ==> plan.Capacity(false) > 0
  }

  /** The sequence number of every record fits its field. */
  predicate Numberable(s: Session, plan: P.PrefixPlan, q: Request)
    requires plan.Built()
  {
    |Announced(s, plan, q, false)| + |Announced(s, plan, q, true)| <= 0x1_0000_0000
  }

  lemma AnnouncedParse(plan: P.PrefixPlan, v6: bool, indices: seq<int>)
    requires plan.Built() && plan.Capacity(v6) > 0
    ensures forall i | 0 <= i < |indices| :: var p := plan.At(v6, indices[i]); Parses(p) && p.v6 == v6
  {
    hide P.PrefixPlan.At, Parses;
    forall i | 0 <= i < |indices|
      ensures Parses(plan.At(v6, indices[i])) && plan.At(v6, indices[i]).v6 == v6
    {
      W.AtInPool(plan, v6, indices[i]);
    }
  }

  /** The finished table: a sound dump of the session's peers that announces exactly its prefixes, in order. */
  ghost predicate TableOf(rs: seq<Record>, s: Session, plan: P.PrefixPlan, q: Request, ts: int, calls: seq<Call>)
    requires plan.Built() && s.Addressed()
  {
    var four, six := Announced(s, plan, q, false), Announced(s, plan, q, true);
    && Progress(rs, PeersFor(s), ts, calls, |four|, |six|, PathsPer(s))
    && |calls| == |four| + |six|
    && (s.v4.Some? ==> Made(calls[..|four|], four, s, q, V4(s.v4.value), 0))
    && (s.v6.Some? ==> Made(calls[|four|..], six, s, q, V6(s.v6.value), if s.v4.Some? then 1 else 0))
  }

  /** What `session_v4` and `session_v6` yield for the addresses the session has; fails where `v4_at` raises. */
  method Planned(s: Session, plan: P.PrefixPlan, q: Request) returns (ok: bool, four: seq<Prefix>, six: seq<Prefix>)
    requires plan.Built()
    ensures ok <==> Divides(s, plan, q)
    ensures ok ==> four == Announced(s, plan, q, false) && six == Announced(s, plan, q, true)
    ensures (s.v4.None? ==> four == []) && (s.v6.None? ==> six == [])
  {
    hide P.PrefixPlan.At, P.PrefixPlan.SessionIndices;
    four, six := [], [];
    if s.v4.Some? && plan.SessionIndices(false, s.nlriSlot, s.prefixesV4, q.offset) != [] {
      if plan.Capacity(false) == 0 { return false, [], []; }
      four := plan.SessionPrefixes(false, s.nlriSlot, s.prefixesV4, q.offset);
    }
    if s.v6.Some? { six := plan.SessionPrefixes(true, s.nlriSlot, s.prefixesV6, q.offset); }
    ok := true;
  }

  /**
    `build_session_mrt`. A session whose numbers fit is always written; whatever is written is a sound dump
    announcing exactly the planned prefixes, in order, each with the session's attributes.
   */
  method BuildSessionMrt(s: Session, plan: P.PrefixPlan, q: Request)
    returns (w: MrtWriter, stats: Option<Stats>, ghost calls: seq<Call>)
    requires plan.Built() && s.Addressed()
    ensures fresh(w) && w.Valid()
    ensures stats.Some? ==> Divides(s, plan, q)
    ensures stats.Some? ==> TableOf(w.written, s, plan, q, w.timestamp, calls)
    ensures stats.Some? ==>
      var four, six := |Announced(s, plan, q, false)|, |Announced(s, plan, q, true)|;
      stats.value == Stats(four, six, four + six)
    ensures SessionFits(s, q) && Divides(s, plan, q) && Numberable(s, plan, q) ==> stats.Some?
  {
    hide BuiltEntries, TableOf, SessionFits, Divides, Announced, P.PrefixPlan.Built, Progress, PrintFile, PathsPer;
    hide P.PrefixPlan.SessionPrefixes, P.PrefixPlan.SessionIndices, Parses, TableFits, TreeTable;
    var peers: seq<MrtPeer> := [];
    var indexV4, indexV6 := 0, 0;
    if s.v4.Some? {
      indexV4 := |peers|;
      peers := peers + [MrtPeer(V4(s.v4.value), s.asn, 0)];
    }
    if s.v6.Some? {
      indexV6 := |peers|;
      peers := peers + [MrtPeer(V6(s.v6.value), s.asn, 0)];
    }
    assert peers == PeersFor(s);
    PeersFit(s, q, 1700000000);
    calls := [];
    w := new MrtWriter(peers);
    var started := w.Open();
    if !started { return w, None, calls; }
    ProgressStarts(peers, w.timestamp, PathsPer(s));
    var n4, n6, ok := 0, 0, true;
    ghost var made4, made6: seq<Call> := [], [];
    var planned, four, six := Planned(s, plan, q);
    if !planned { return w, None, calls; }
    if s.v4.Some? {
      ok, n4, made4 := AddFamily(w, s, q, V4(s.v4.value), indexV4, four, peers, [], 0, 0);
      if !ok { return w, None, calls; }
    }
    assert [] + made4 == made4;
    if s.v6.Some? {
      ok, n6, made6 := AddFamily(w, s, q, V6(s.v6.value), indexV6, six, peers, made4, n4, 0);
      if !ok { return w, None, calls; }
    }
    assert made4 + [] == made4;
    calls := made4 + made6;
    w.Close();
    TableFinished(w.written, s, plan, q, w.timestamp, made4, made6);
    stats := Some(Stats(n4, n6, n4 + n6));
  }

  lemma TableFinished(rs: seq<Record>, s: Session, plan: P.PrefixPlan, q: Request, ts: int, made4: seq<Call>,
                      made6: seq<Call>)
    requires plan.Built() && s.Addressed()
    requires var four, six := Announced(s, plan, q, false), Announced(s, plan, q, true);
             && |made4| == |four| && |made6| == |six|
             && Progress(rs, PeersFor(s), ts, made4 + made6, |four|, |six|, PathsPer(s))
             && (s.v4.Some? ==> Made(made4, four, s, q, V4(s.v4.value), 0))
             && (s.v6.Some? ==> Made(made6, six, s, q, V6(s.v6.value), if s.v4.Some? then 1 else 0))
    ensures TableOf(rs, s, plan, q, ts, made4 + made6)
  {
    hide Announced, Progress, PeersFor, PathsPer, Made;
    assert (made4 + made6)[..|made4|] == made4 && (made4 + made6)[|made4|..] == made6;
  }

  lemma PeersFit(s: Session, q: Request, ts: int)
    requires 0 <= ts < 0x1_0000_0000 && s.Addressed()
    ensures SessionFits(s, q) ==> TableFits(PeersFor(s), [], ts)
  {
  }

  // ---- end to end ----

  /** A finished table with at least one peer is accepted, with exactly its own counts and no others. */
  lemma TableAccepted(rs: seq<Record>, s: Session, plan: P.PrefixPlan, q: Request, ts: int, calls: seq<Call>, e4: int,
                      e6: int)
    requires plan.Built() && s.Addressed() && TableOf(rs, s, plan, q, ts, calls)
    ensures var four, six := |Announced(s, plan, q, false)|, |Announced(s, plan, q, true)|;
            var verdict := Verdict(PrintFile(rs), Some(e4), Some(e6));
            && (verdict.Ok? <==> (s.v4.Some? || s.v6.Some?) && e4 == four && e6 == six)
            && (verdict.Ok? ==> verdict.value.ribEntries == (four + six) * PathsPer(s))
  {
    hide AllCallsSound, Announced, RibFits, TreeRibs, TreeTable, CallsFit, TableFits, ParseRecords, PrintRecord;
    DumpBack(PeersFor(s), [], ts, calls);
    FamiliesOfPeers(rs, START);
    if PeersFor(s) != [] {
      assert FileValid(rs);
    } else {
      assert Verdict(PrintFile(rs), None, None).Err?;
    }
  }

  predicate HasAddress(s: Session, v6: bool) {
    if v6 then s.v6.Some? else s.v4.Some?
  }

  /**
    The declared count of a family can be announced: its contested part lies within it, or there is nothing to
    announce.
   */
  predicate Keeps(s: Session, plan: P.PrefixPlan, v6: bool) {
    if HasAddress(s, v6) then plan.SplitsWithin(s.Prefixes(v6)) else s.Prefixes(v6) == 0
  }

  /**
    A session of a checked profile announces exactly its declared count of a family if and only if it has an address
    there and the contested part lies between nothing and the whole, or it has none and declares nothing. A fraction
    between 0 and 1 ensures the former; nothing checks it.
   */
  lemma DeclaredCountsAnnounced(s: Session, plan: P.PrefixPlan, q: Request, sessions: seq<Session>)
    requires plan.Built() && plan.CapacityChecked(sessions) && s in sessions
    ensures Divides(s, plan, q)
    ensures forall v6 :: |Announced(s, plan, q, v6)| == s.Prefixes(v6) <==> Keeps(s, plan, v6)
    ensures forall v6 :: 0.0 <= plan.fraction <= 1.0 && s.Prefixes(v6) >= 0 ==> plan.SplitsWithin(s.Prefixes(v6))
  {
    W.CheckedHasSpace(plan, sessions);
    DeclaredIn(s, plan, q, sessions, false);
    DeclaredIn(s, plan, q, sessions, true);
    hide P.PrefixPlan.SplitsWithin, Announced, Keeps, P.PrefixPlan.Capacity, P.PrefixPlan.CapacityChecked;
  }

  lemma DeclaredIn(s: Session, plan: P.PrefixPlan, q: Request, sessions: seq<Session>, v6: bool)
    requires plan.Built() && plan.CapacityChecked(sessions) && s in sessions
    ensures |Announced(s, plan, q, v6)| == s.Prefixes(v6) <==> Keeps(s, plan, v6)
    ensures 0.0 <= plan.fraction <= 1.0 && s.Prefixes(v6) >= 0 ==> plan.SplitsWithin(s.Prefixes(v6))
  {
    hide P.PrefixPlan.At;
    W.CheckedHasSpace(plan, sessions);
    assert plan.PoolSuffices(sessions, v6);
    if s.Prefixes(v6) > 0 {
      W.YieldsDeclaredCountExactly(plan, v6, s.nlriSlot, s.Prefixes(v6), q.offset);
    }
    if 0.0 <= plan.fraction <= 1.0 && s.Prefixes(v6) >= 0 {
      W.ContestedWithin(plan, s.Prefixes(v6));
    }
  }

  /**
    End to end: in a profile that passes the capacity check, every session whose numbers fit gets a table. The
    structural reader accepts it with the declared counts if and only if the session has an address and keeps both
    counts; the number of RIB entries it then reports is the declared prefixes times the paths per prefix, and the
    builder's own entry count is that exactly with one path per prefix or no prefix.
   */
  method GenerateAndCheck(s: Session, plan: P.PrefixPlan, q: Request, sessions: seq<Session>)
    returns (stats: Option<Stats>, r: Result<MrtSummary, MrtError>)
    requires plan.Built() && plan.CapacityChecked(sessions) && s in sessions && s.Addressed()
    requires SessionFits(s, q) && Numberable(s, plan, q)
    ensures r.Ok? <==> (s.v4.Some? || s.v6.Some?) && Keeps(s, plan, false) && Keeps(s, plan, true)
    ensures 0.0 <= plan.fraction <= 1.0 && s.v4.Some? && s.v6.Some? && s.prefixesV4 >= 0 && s.prefixesV6 >= 0 ==> r.Ok?
    ensures r.Ok? ==> r.value.prefixesV4 == s.prefixesV4 && r.value.prefixesV6 == s.prefixesV6
    ensures r.Ok? ==> r.value.ribEntries == (s.prefixesV4 + s.prefixesV6) * Max(1, s.pathsPerPrefix)
    ensures var four, six := |Announced(s, plan, q, false)|, |Announced(s, plan, q, true)|;
            stats == Some(Stats(four, six, four + six))
    ensures r.Ok? ==> stats == Some(Stats(s.prefixesV4, s.prefixesV6, s.prefixesV4 + s.prefixesV6))
    ensures r.Ok? ==>
      (stats.value.ribEntries == r.value.ribEntries <==> s.pathsPerPrefix <= 1 || s.prefixesV4 + s.prefixesV6 == 0)
  {
    hide TableOf, Announced, Accepted, Verdict, Summary, PrintFile, P.PrefixPlan.SplitsWithin, P.PrefixPlan.Contested;
    hide P.PrefixPlan.SessionIndices, P.PrefixPlan.SessionPrefixes, P.PrefixPlan.Capacity;
    DeclaredCountsAnnounced(s, plan, q, sessions);
    assert s.Prefixes(false) == s.prefixesV4 && s.Prefixes(true) == s.prefixesV6;
    hide P.PrefixPlan.CapacityChecked, SessionFits;
    var w, built, calls := BuildSessionMrt(s, plan, q);
    stats := built;
    TableAccepted(w.written, s, plan, q, w.timestamp, calls, s.prefixesV4, s.prefixesV6);
    AcceptedCounts(w.file, s.prefixesV4, s.prefixesV6);
    var read;
    r, read := CheckFile(w.file, Some(s.prefixesV4), Some(s.prefixesV6));
    if r.Ok? { EntryTotals(s.prefixesV4 + s.prefixesV6, s.pathsPerPrefix); }
  }

  lemma EntryTotals(n: nat, paths: int)
    ensures n == n * Max(1, paths) <==> paths <= 1 || n == 0
  {
    if paths > 1 { MulMonotone(2, paths, n); }
  }

  lemma AcceptedCounts(buf: bytes, e4: int, e6: int)
    ensures var v := Verdict(buf, Some(e4), Some(e6)); v.Ok? ==> v.value.prefixesV4 == e4 && v.value.prefixesV6 == e6
  {
  }

  /** A plan of one octet and the default IPv6 base, with small pools. */
  function SmallPlan(fraction: real, pool: nat): P.PrefixPlan {
    P.PrefixPlan([1], 24, 0, 20, 48, fraction, pool, pool)
  }

  lemma SmallPlanChecks(plan: P.PrefixPlan, pool: nat, s: Session)
    requires plan == SmallPlan(plan.fraction, pool) && pool <= 8
    requires forall v6 :: plan.Contested(s.Prefixes(v6)) <= pool && s.Prefixes(v6) - plan.Contested(s.Prefixes(v6)) <= 8
    ensures plan.Built() && plan.CapacityChecked([s])
  {
    hide P.PrefixPlan.Contested;
    W.SmallCapacities(plan);
    assert [s][..0] == [];
    forall v6
      ensures plan.PoolSuffices([s], v6) && plan.Need([s], v6) == plan.Exclusive(s, v6)
    {
    }
  }

  /** What a session of a checked profile announces: its exclusive part, and of the contested part what the pool has. */
  lemma AnnouncedCount(s: Session, plan: P.PrefixPlan, q: Request, v6: bool)
    requires plan.Built() && plan.CapacityChecked([s]) && s.v4.Some? && s.v6.Some?
    ensures var (own, shared) := plan.Split(s.Prefixes(v6));
            |Announced(s, plan, q, v6)| ==
              if s.Prefixes(v6) <= 0 then 0 else Max(own, 0) + Max(Min(shared, plan.Pool(v6)), 0)
  {
    hide P.PrefixPlan.At;
    W.CheckedHasSpace(plan, [s]);
  }

  /**
    The builder's `rib_entries` counts prefixes: one prefix with two paths is one entry to it and two to the reader.
   */
  method TwoPathsAreOneEntry() returns (stats: Option<Stats>, r: Result<MrtSummary, MrtError>)
    ensures stats == Some(Stats(1, 0, 1)) && r.Ok? && r.value.ribEntries == 2
  {
    var s, q := Lone(1, Some(1), Some(1), 1, 0, 2, 0), Request(5, 0, 0, None, false);
    stats, r := SmallRun(s, q, 0.0, 0, 0);
  }

  /**
    With a fraction above 1 a checked profile announces another count than it declares: two prefixes are declared,
    four contested ones announced, and the reader rejects the table.
   */
  method FractionAboveOneMiscounts() returns (stats: Option<Stats>, r: Result<MrtSummary, MrtError>)
    ensures stats == Some(Stats(4, 0, 4)) && r.Err?
  {
    var s, q := Lone(1, Some(1), Some(1), 2, 0, 1, 0), Request(5, 0, 0, None, false);
    stats, r := SmallRun(s, q, 2.0, 8, 4);
  }

  /** Generating and checking a lone session with few IPv4 prefixes, `shared` of them contested. */
  method SmallRun(s: Session, q: Request, fraction: real, pool: nat, shared: int)
    returns (stats: Option<Stats>, r: Result<MrtSummary, MrtError>)
    requires s.v4.Some? && s.v6.Some? && s.Addressed() && SessionFits(s, q)
    requires 0 < s.prefixesV4 <= 8 && s.prefixesV6 == 0 && pool <= 8
    requires P.Trunc(s.prefixesV4 as real * fraction) == shared && 0 <= shared <= pool
    ensures var n := Max(s.prefixesV4 - shared, 0) + shared; stats == Some(Stats(n, 0, n))
    ensures r.Ok? <==> shared <= s.prefixesV4
    ensures r.Ok? ==> r.value.ribEntries == s.prefixesV4 * Max(1, s.pathsPerPrefix)
  {
    var plan := SmallPlan(fraction, pool);
    SmallCounts(s, plan, q, pool, shared);
    assert Keeps(s, plan, true) && (Keeps(s, plan, false) <==> shared <= s.prefixesV4);
    hide SessionFits, Announced, Numberable, SmallPlan, Keeps, P.PrefixPlan.Built, P.PrefixPlan.SplitsWithin;
    hide P.PrefixPlan.CapacityChecked, P.Trunc;
    stats, r := GenerateAndCheck(s, plan, q, [s]);
  }

  lemma SmallCounts(s: Session, plan: P.PrefixPlan, q: Request, pool: nat, shared: int)
    requires plan == SmallPlan(plan.fraction, pool) && pool <= 8 && s.v4.Some? && s.v6.Some?
    requires 0 < s.prefixesV4 <= 8 && s.prefixesV6 == 0 && plan.Contested(s.prefixesV4) == shared && 0 <= shared <= pool
    ensures plan.Built() && plan.CapacityChecked([s]) && Numberable(s, plan, q)
    ensures |Announced(s, plan, q, false)| == Max(s.prefixesV4 - shared, 0) + shared
      && Announced(s, plan, q, true) == []
    ensures plan.SplitsWithin(0) && (plan.SplitsWithin(s.prefixesV4) <==> shared <= s.prefixesV4)
  {
    assert plan.Contested(0) == 0;
    hide P.PrefixPlan.Contested;
    SmallPlanChecks(plan, pool, s);
    hide P.PrefixPlan.CapacityChecked, P.PrefixPlan.Built, Announced;
    AnnouncedCount(s, plan, q, false);
    AnnouncedCount(s, plan, q, true);
  }
}
