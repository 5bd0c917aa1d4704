/**
  From octets back to what the harness asked the writer to write: every field of a peer, of a RIB record
  and of an attribute set is recovered, across the extended-length switch and the reduced MP_REACH form.
 */
module MrtRoundTrip {
  import Arith
  import opened Wrappers
  import opened Bytes
  import opened TableDump
  import opened MrtParse
  import opened MrtCheck
  import opened RouteGen
  import opened MrtWriting

  // ---- reading attribute bodies by meaning ----

  function BodyOf(attrs: seq<Attr>, code: byte): Option<bytes> {
    if attrs == [] then None
    else if attrs[0].code == code then Some(attrs[0].value)
    else BodyOf(attrs[1..], code)
  }

  function Words(width: nat, b: bytes): seq<int>
    requires width > 0
  {
    if |b| < width then [] else [Value(b[..width])] + Words(width, b[width..])
  }

  function ToPairs(ws: seq<int>): seq<(int, int)> {
    if |ws| < 2 then [] else [(ws[0], ws[1])] + ToPairs(ws[2..])
  }

  function ToTriples(ws: seq<int>): seq<(int, int, int)> {
    if |ws| < 3 then [] else [(ws[0], ws[1], ws[2])] + ToTriples(ws[3..])
  }

  function SegmentsFrom(b: bytes): seq<(byte, seq<int>)> {
    if |b| < 2 then []
    else
      var n: int := b[1];
      if |b| < 2 + 4 * n then []
      else [(b[0], Words(4, b[2..2 + 4 * n]))] + SegmentsFrom(b[2 + 4 * n..])
  }

  function AsnsOf(segments: seq<(byte, seq<int>)>, kind: byte): seq<int> {
    if segments == [] then []
    else if segments[0].0 == kind then segments[0].1
    else AsnsOf(segments[1..], kind)
  }

  function HopFrom(attrs: seq<Attr>, v6: bool): Ip {
    var body := BodyOf(attrs, NextHopCode(v6)).GetOr([]);
    if v6 then
      if |body| >= 17 then Packed16(body[1..17]) else V6(0)
    else if |body| == 4 then V4(U32(body, 0)) else V4(0)
  }

  function Packed16(b: bytes): Ip
    requires |b| == 16
  {
    Powers();
    BEOfValue(b);
    V6(Value(b))
  }

  function PathFrom(attrs: seq<Attr>, v6: bool): PathAttrs {
    var path := SegmentsFrom(BodyOf(attrs, AS_PATH).GetOr([]));
    var med := BodyOf(attrs, MULTI_EXIT_DISC);
    PathAttrs(
      AsnsOf(path, AS_SEQUENCE),
      HopFrom(attrs, v6),
      if med.Some? then Some(Value(med.value)) else None,
      Value(BodyOf(attrs, ORIGIN).GetOr([])),
      ToPairs(Words(2, BodyOf(attrs, COMMUNITIES).GetOr([]))),
      ToTriples(Words(4, BodyOf(attrs, LARGE_COMMUNITY).GetOr([]))),
      AsnsOf(path, AS_SET))
  }

  lemma {:induction false} WordsOfPacked(width: nat, vs: seq<int>)
    requires width > 0 && AllFit(width, vs)
    ensures PackAll(width, vs).Some? && Words(width, PackAll(width, vs).value) == vs
  {
    PackAllFits(width, vs);
    if vs != [] {
      var b := PackAll(width, vs).value;
      assert AllFit(width, vs[1..]);
      WordsOfPacked(width, vs[1..]);
      ValueOfBE(width, vs[0]);
      assert b[..width] == BE(width, vs[0]) && b[width..] == PackAll(width, vs[1..]).value;
    }
  }

  lemma {:induction false} PairsBack(comms: seq<(int, int)>)
    ensures ToPairs(Pairs(comms)) == comms
  {
    if comms != [] {
      PairsBack(comms[1..]);
      assert Pairs(comms)[2..] == Pairs(comms[1..]);
      assert comms[0] == (comms[0].0, comms[0].1);
    }
  }

  lemma {:induction false} TriplesBack(comms: seq<(int, int, int)>)
    ensures ToTriples(Triples(comms)) == comms
  {
    if comms != [] {
      TriplesBack(comms[1..]);
      assert Triples(comms)[3..] == Triples(comms[1..]);
      assert comms[0] == (comms[0].0, comms[0].1, comms[0].2);
    }
  }

  lemma SegmentBack(kind: byte, asns: seq<int>, rest: bytes)
    requires AllFit(4, asns) && |asns| < 256
    ensures SegmentsFrom(PrintSegment(Segment(kind, Numbers(asns))) + rest) == [(kind, asns)] + SegmentsFrom(rest)
  {
    var body := Flatten(PrintAsn, Numbers(asns));
    PackAllPrints(asns);
    PackAllFits(4, asns);
    WordsOfPacked(4, asns);
    OneOctet(|asns|);
    var s := [kind] + BE(1, |asns|) + body;
    var b := s + rest;
    assert b[0] == kind && b[1] == |asns|;
    assert b[2..2 + 4 * |asns|] == body;
    assert b[2 + 4 * |asns|..] == rest;
  }

  lemma PathBack(asns: seq<int>, asSet: seq<int>)
    requires PathFits(asns, asSet)
    ensures var segments := SegmentsFrom(AsPathBody(asns, asSet));
            AsnsOf(segments, AS_SEQUENCE) == asns && AsnsOf(segments, AS_SET) == asSet
  {
    hide PrintSegment, SegmentsFrom;
    FlattenPair(asns, asSet);
    var second := if asSet == [] then [] else PrintSegment(Segment(AS_SET, Numbers(asSet)));
    var tail := if asSet == [] then [] else [(AS_SET, asSet)];
    NothingToRead();
    if asSet != [] {
      SegmentBack(AS_SET, asSet, []);
      assert second + [] == second;
      assert SegmentsFrom(second) == [(AS_SET, asSet)];
    }
    assert SegmentsFrom(second) == tail;
    if asns != [] {
      SegmentBack(AS_SEQUENCE, asns, second);
      assert SegmentsFrom(AsPathBody(asns, asSet)) == [(AS_SEQUENCE, asns)] + tail;
      assert ([(AS_SEQUENCE, asns)] + tail)[1..] == tail;
    } else {
      assert [] + second == second;
    }
  }

  lemma NothingToRead()
    ensures SegmentsFrom([]) == []
  {
  }

  /** Which body each code finds in a printed attribute list. */
  lemma BodiesOf(a: PathAttrs)
    requires 0 <= a.origin < 256 && PathFits(a.asPath, a.asSet)
    ensures var attrs := AttrsOf(a);
            && BodyOf(attrs, ORIGIN) == Some(OriginAttr(a).value)
            && BodyOf(attrs, AS_PATH) == Some(AsPathAttr(a).value)
            && BodyOf(attrs, NextHopCode(a.nextHop.V6?)) == Some(HopAttr(a).value)
            && BodyOf(attrs, MULTI_EXIT_DISC) == (if a.med.Some? then Some(MedAttr(a).value) else None)
            && BodyOf(attrs, COMMUNITIES) == (if a.communities != [] then Some(CommunitiesAttr(a).value) else None)
            && BodyOf(attrs, LARGE_COMMUNITY) == (if a.largeCommunities != [] then Some(LargeAttr(a).value) else None)
  {
    hide OriginAttr, AsPathAttr, HopAttr, MedAttr, CommunitiesAttr, LargeAttr, BodyOf, AttrsOf;
    CodesOfParts(a);
    BodyOfParts(a, ORIGIN);
    BodyOfParts(a, AS_PATH);
    BodyOfParts(a, NextHopCode(a.nextHop.V6?));
    BodyOfParts(a, MULTI_EXIT_DISC);
    BodyOfParts(a, COMMUNITIES);
    BodyOfParts(a, LARGE_COMMUNITY);
  }

  lemma NoBody(code: byte)
    ensures BodyOf([], code) == None
  {
  }

  lemma BodyOfParts(a: PathAttrs, code: byte)
    requires 0 <= a.origin < 256 && PathFits(a.asPath, a.asSet)
    ensures BodyOf(AttrsOf(a), code) ==
      if code == OriginAttr(a).code then Some(OriginAttr(a).value)
      else if code == AsPathAttr(a).code then Some(AsPathAttr(a).value)
      else if code == HopAttr(a).code then Some(HopAttr(a).value)
      else if a.med.Some? && code == MedAttr(a).code then Some(MedAttr(a).value)
      else if a.communities != [] && code == CommunitiesAttr(a).code then Some(CommunitiesAttr(a).value)
      else if a.largeCommunities != [] && code == LargeAttr(a).code then Some(LargeAttr(a).value)
      else None
  {
    hide OriginAttr, AsPathAttr, HopAttr, MedAttr, CommunitiesAttr, LargeAttr, BodyOf;
    var o, p, h := When(true, OriginAttr(a)), When(true, AsPathAttr(a)), When(true, HopAttr(a));
    var m := When(a.med.Some?, MedAttr(a));
    var c, l := When(a.communities != [], CommunitiesAttr(a)), When(a.largeCommunities != [], LargeAttr(a));
    SixPieces(o, p, h, m, c, l);
    assert AttrsOf(a) == o + p + h + m + c + l;
    hide When, AttrsOf;
    assert l + [] == l;
    var cl := c + l;
    var mcl := m + cl;
    var hmcl := h + mcl;
    var phmcl := p + hmcl;
    NoBody(code);
    BodyWhen(true, OriginAttr(a), phmcl, code);
    BodyWhen(true, AsPathAttr(a), hmcl, code);
    BodyWhen(true, HopAttr(a), mcl, code);
    BodyWhen(a.med.Some?, MedAttr(a), cl, code);
    BodyWhen(a.communities != [], CommunitiesAttr(a), l, code);
    BodyWhen(a.largeCommunities != [], LargeAttr(a), [], code);
  }

  lemma CodesOfParts(a: PathAttrs)
    requires 0 <= a.origin < 256 && PathFits(a.asPath, a.asSet)
    ensures OriginAttr(a).code == ORIGIN && AsPathAttr(a).code == AS_PATH
    ensures HopAttr(a).code == NextHopCode(a.nextHop.V6?) && MedAttr(a).code == MULTI_EXIT_DISC
    ensures CommunitiesAttr(a).code == COMMUNITIES && LargeAttr(a).code == LARGE_COMMUNITY
  {
  }

  lemma BodyWhen(present: bool, a: Attr, rest: seq<Attr>, code: byte)
    ensures BodyOf(When(present, a) + rest, code) ==
      if present && code == a.code then Some(a.value) else BodyOf(rest, code)
  {
    if present {
      assert ([a] + rest)[1..] == rest;
    } else {
      assert [] + rest == rest;
    }
  }

  /** Every field of an attribute set that fits survives the trip through the wire. */
  lemma PathAttrsBack(a: PathAttrs, v6: bool)
    requires AttrsFit(a, v6)
    ensures PathFrom(AttrsOf(a), v6) == a
  {
    hide AttrsOf, SegmentsFrom, AsPathBody;
    Powers();
    BodiesOf(a);
    PathBack(a.asPath, a.asSet);
    CommunitiesBack(a);
    LargeBack(a);
    HopBack(a);
    MedBack(a);
    assert Value([a.origin]) == a.origin by { assert [a.origin][..0] == []; }
  }

  lemma CommunitiesBack(a: PathAttrs)
    requires AllFit(2, Pairs(a.communities))
    ensures ToPairs(Words(2, CommunitiesAttr(a).value)) == a.communities
  {
    WordsOfPacked(2, Pairs(a.communities));
    PairsBack(a.communities);
  }

  lemma LargeBack(a: PathAttrs)
    requires AllFit(4, Triples(a.largeCommunities))
    ensures ToTriples(Words(4, LargeAttr(a).value)) == a.largeCommunities
  {
    WordsOfPacked(4, Triples(a.largeCommunities));
    TriplesBack(a.largeCommunities);
  }

  lemma MedBack(a: PathAttrs)
    requires a.med.Some? ==> 0 <= a.med.value < 0x1_0000_0000
    ensures a.med.Some? ==> Value(MedAttr(a).value) == a.med.value
  {
    if a.med.Some? {
      Powers();
      var vs := [a.med.value];
      assert PackAll(4, vs[1..]) == Some([]);
      assert Joined(4, vs) == BE(4, a.med.value);
      ValueOfBE(4, a.med.value);
    }
  }

  lemma HopBack(a: PathAttrs)
    ensures a.nextHop.V6? ==> |HopAttr(a).value| == 17 && Packed16(HopAttr(a).value[1..17]) == a.nextHop
    ensures a.nextHop.V4? ==> |HopAttr(a).value| == 4 && U32(HopAttr(a).value, 0) == a.nextHop.a4
  {
    Powers();
    var body := HopAttr(a).value;
    if a.nextHop.V6? {
      assert body[1..17] == BE(16, a.nextHop.a6);
      ValueOfBE(16, a.nextHop.a6);
    } else {
      assert body[0..4] == BE(4, a.nextHop.a4);
      U32Printed(body, 0, a.nextHop.a4);
    }
  }

  // ---- records ----

  /** One `add_v4` or `add_v6` call that was written, and the sequence number it got. */
  datatype Call = Call(v6: bool, prefix: Prefix, entries: seq<(int, PathAttrs)>, number: nat)

  predicate CallsFit(calls: seq<Call>, timestamp: int) {
    forall i | 0 <= i < |calls| :: RibFits(calls[i].v6, calls[i].number, timestamp, calls[i].prefix, calls[i].entries)
  }

  /** The records a run of calls appends. */
  function TreeRibs(calls: seq<Call>, timestamp: int): (rs: seq<Record>)
    requires CallsFit(calls, timestamp)
    ensures |rs| == |calls|
  {
    seq(|calls|, i requires 0 <= i < |calls|
      && RibFits(calls[i].v6, calls[i].number, timestamp, calls[i].prefix, calls[i].entries) =>
      TreeRib(calls[i].v6, calls[i].number, timestamp, calls[i].prefix, calls[i].entries))
  }

  function EntriesFrom(entries: seq<Entry>, v6: bool): seq<(int, PathAttrs)> {
    seq(|entries|, i requires 0 <= i < |entries| => (entries[i].peerIndex, PathFrom(entries[i].attrs, v6)))
  }

  function PeerFrom(p: Peer): MrtPeer
    requires PeerValid(p)
  {
    MrtPeer(if IsV6Peer(p.kind) then Packed16(p.address) else V4(U32(p.address, 0)), p.asn, p.bgpId)
  }

  lemma PeerBack(p: MrtPeer)
    requires 0 <= p.asn < 0x1_0000_0000
    ensures PeerValid(TreePeer(p)) && PeerFrom(TreePeer(p)) == p
  {
    PeerPrints(p);
    Powers();
    var address := TreePeer(p).address;
    if p.ip.V6? {
      ValueOfBE(16, p.ip.a6);
    } else {
      assert address[0..4] == address;
      U32Printed(address, 0, p.ip.a4);
    }
  }

  /** The peer table gives back its time, its view name and every peer, in order. */
  lemma TableBack(peers: seq<MrtPeer>, viewName: bytes, timestamp: int)
    requires TableFits(peers, viewName, timestamp)
    ensures var t := TreeTable(peers, viewName, timestamp);
            && t.timestamp == timestamp && t.collector == 0 && t.view == viewName && |t.peers| == |peers|
            && forall i | 0 <= i < |peers| :: PeerValid(t.peers[i]) && PeerFrom(t.peers[i]) == peers[i]
  {
    forall i | 0 <= i < |peers|
      ensures PeerValid(TreePeer(peers[i])) && PeerFrom(TreePeer(peers[i])) == peers[i]
    {
      PeerBack(peers[i]);
    }
  }

  /**
    A record that fits gives back its family, time and number, its prefix with host bits cleared, and its
    entries with every peer index and attribute; the reader's padded address is the network address itself.
    `add_v4` and `add_v6` also take a prefix of the other family: the reader then sees its leading octets.
   */
  lemma RibBack(v6: bool, number: nat, timestamp: int, p: Prefix, es: seq<(int, PathAttrs)>)
    requires RibFits(v6, number, timestamp, p, es)
    ensures var r := TreeRib(v6, number, timestamp, p, es);
            && r.v6 == v6 && r.timestamp == timestamp && r.number == number && r.plen == p.plen
            && |r.prefix| == (p.plen + 7) / 8 && Padded(r).1 == p.plen
            && (p.v6 == v6 ==> Value(Padded(r).0) == Network(p))
            && (!p.v6 && v6 ==> Value(Padded(r).0) == Network(p) * Pow256(12))
            && (p.v6 && !v6 && p.plen <= 32 ==> Value(Padded(r).0) * Pow256(12) == Network(p))
            && EntriesFrom(r.entries, v6) == es
            && forall e <- r.entries :: e.originated == timestamp
  {
    PaddedBack(v6, number, timestamp, p, es);
    hide AttrsFit, PathFrom, AttrsOf, Padded, Network, PackPrefix;
    var r := TreeRib(v6, number, timestamp, p, es);
    forall i | 0 <= i < |es|
      ensures EntriesFrom(r.entries, v6)[i] == es[i]
    {
      assert EntryFits(es[i], timestamp, v6);
      PathAttrsBack(es[i].1, v6);
    }
  }

  lemma PaddedBack(v6: bool, number: nat, timestamp: int, p: Prefix, es: seq<(int, PathAttrs)>)
    requires RibFits(v6, number, timestamp, p, es)
    ensures var r := TreeRib(v6, number, timestamp, p, es);
            && |r.prefix| == (p.plen + 7) / 8 && Padded(r).1 == p.plen
            && (p.v6 == v6 ==> Value(Padded(r).0) == Network(p))
            && (!p.v6 && v6 ==> Value(Padded(r).0) == Network(p) * Pow256(12))
            && (p.v6 && !v6 && p.plen <= 32 ==> Value(Padded(r).0) * Pow256(12) == Network(p))
  {
    hide Network, Pow256, Value, RibFits;
    FitsParses(v6, number, timestamp, p, es);
    PackPrefixPads(p);
    var r := TreeRib(v6, number, timestamp, p, es);
    var own := BE(Width(p.v6), Network(p));
    if p.v6 == v6 {
      assert Padded(r).0 == own;
    } else if v6 {
      assert Padded(r).0 == own + seq(12, _ => 0);
      ValueShifted(own, 12);
    } else if p.plen <= 32 {
      assert own == Padded(r).0 + seq(12, _ => 0);
      ValueShifted(Padded(r).0, 12);
    }
  }

  lemma FitsParses(v6: bool, number: nat, timestamp: int, p: Prefix, es: seq<(int, PathAttrs)>)
    requires RibFits(v6, number, timestamp, p, es)
    ensures Parses(p)
  {
  }

  /** Each zero octet appended is a factor of 256. */
  lemma {:induction false} ValueShifted(bs: bytes, k: nat)
    ensures Value(bs + seq(k, _ => 0)) == Value(bs) * Pow256(k)
  {
    var zeros: bytes := seq(k, _ => 0);
    if k == 0 {
      assert bs + zeros == bs;
    } else {
      ValueShifted(bs, k - 1);
      var shorter: bytes := seq(k - 1, _ => 0);
      assert bs + zeros == (bs + shorter) + [0];
      ZeroEnds(bs + shorter);
      assert Pow256(k) == 256 * Pow256(k - 1);
      hide Value, Pow256;
      TimesAgain(Value(bs), Pow256(k - 1));
    }
  }

  lemma TimesAgain(v: nat, p: nat)
    ensures 256 * (v * p) == v * (256 * p)
  {
    Arith.MulAssociates(256, v, p);
    Arith.MulAssociates(v, 256, p);
  }

  lemma ZeroEnds(bs: bytes)
    ensures Value(bs + [0]) == 256 * Value(bs)
  {
    assert (bs + [0])[..|bs|] == bs;
  }

  // ---- any run of calls ----

  /** A call as made, whether or not it was written. */
  datatype Attempt = Attempt(v6: bool, prefix: Prefix, entries: seq<(int, PathAttrs)>)

  /** The number the next call gets: a call spends one as soon as its prefix and number packed, written or not. */
  function NumberAfter(attempts: seq<Attempt>): nat {
    if attempts == [] then 0
    else
      var n := NumberAfter(attempts[..|attempts| - 1]);
      n + (if Parses(attempts[|attempts| - 1].prefix) && n < 0x1_0000_0000 then 1 else 0)
  }

  /** The calls that were written; the others raised. */
  function Written(attempts: seq<Attempt>, timestamp: int): (calls: seq<Call>)
    ensures CallsFit(calls, timestamp)
  {
    if attempts == [] then []
    else
      var init, a := attempts[..|attempts| - 1], attempts[|attempts| - 1];
      var n := NumberAfter(init);
      Written(init, timestamp)
      + (if RibFits(a.v6, n, timestamp, a.prefix, a.entries) then [Call(a.v6, a.prefix, a.entries, n)] else [])
  }

  /** Whatever calls are made, and whichever raise, the file is the dump of those that were written. */
  method WriteAll(w: MrtWriter, attempts: seq<Attempt>) returns (started: bool)
    requires w.Valid() && w.number == 0
    modifies w
    ensures w.Valid() && (started <==> TableFits(w.peers, w.viewName, w.timestamp))
    ensures started ==> w.written == Dump(w.peers, w.viewName, w.timestamp, Written(attempts, w.timestamp))
    ensures started ==> w.number == NumberAfter(attempts)
  {
    hide TableFits, TreeTable, RibFits, TreeRib, Written, NumberAfter, Dump, Parses;
    started := w.Open();
    if !started { return; }
    NothingAttempted(w.peers, w.viewName, w.timestamp);
    for i := 0 to |attempts|
      invariant w.Valid() && w.isOpen && w.number == NumberAfter(attempts[..i])
      invariant w.written == Dump(w.peers, w.viewName, w.timestamp, Written(attempts[..i], w.timestamp))
    {
      var a := attempts[i];
      AttemptStep(attempts, i, w.peers, w.viewName, w.timestamp);
      var ok := w.Add(a.v6, a.prefix, a.entries);
    }
    assert attempts[..|attempts|] == attempts;
  }

  lemma NothingAttempted(peers: seq<MrtPeer>, viewName: bytes, ts: int)
    requires TableFits(peers, viewName, ts)
    ensures NumberAfter([]) == 0 && Dump(peers, viewName, ts, Written([], ts)) == [TreeTable(peers, viewName, ts)]
  {
    assert [TreeTable(peers, viewName, ts)] + [] == [TreeTable(peers, viewName, ts)];
  }

  lemma AttemptStep(attempts: seq<Attempt>, i: nat, peers: seq<MrtPeer>, viewName: bytes, ts: int)
    requires i < |attempts| && TableFits(peers, viewName, ts)
    ensures var n, a := NumberAfter(attempts[..i]), attempts[i];
            && NumberAfter(attempts[..i + 1]) == n + (if Parses(a.prefix) && n < 0x1_0000_0000 then 1 else 0)
            && Dump(peers, viewName, ts, Written(attempts[..i + 1], ts))
            == Dump(peers, viewName, ts, Written(attempts[..i], ts))
               + (if RibFits(a.v6, n, ts, a.prefix, a.entries) then [TreeRib(a.v6, n, ts, a.prefix, a.entries)] else [])
  {
    hide RibFits, TreeRib, TableFits, Dump, Parses;
    assert attempts[..i + 1][..i] == attempts[..i];
    var n, a, calls := NumberAfter(attempts[..i]), attempts[i], Written(attempts[..i], ts);
    if RibFits(a.v6, n, ts, a.prefix, a.entries) {
      DumpExtend(peers, viewName, ts, calls, Call(a.v6, a.prefix, a.entries, n));
    } else {
      assert calls + [] == calls;
    }
  }

  lemma DumpExtend(peers: seq<MrtPeer>, viewName: bytes, ts: int, calls: seq<Call>, c: Call)
    requires TableFits(peers, viewName, ts) && CallsFit(calls, ts)
    requires RibFits(c.v6, c.number, ts, c.prefix, c.entries)
    ensures CallsFit(calls + [c], ts)
    ensures Dump(peers, viewName, ts, calls + [c])
         == Dump(peers, viewName, ts, calls) + [TreeRib(c.v6, c.number, ts, c.prefix, c.entries)]
  {
    hide RibFits, TreeRib, TreeTable;
    assert CallsFit(calls + [c], ts);
    assert TreeRibs(calls + [c], ts) == TreeRibs(calls, ts) + [TreeRib(c.v6, c.number, ts, c.prefix, c.entries)];
  }

  /** The dump a writer leaves after opening and making `calls`. */
  function Dump(peers: seq<MrtPeer>, viewName: bytes, timestamp: int, calls: seq<Call>): seq<Record>
    requires TableFits(peers, viewName, timestamp) && CallsFit(calls, timestamp)
  {
    [TreeTable(peers, viewName, timestamp)] + TreeRibs(calls, timestamp)
  }

  /**
    The mistakes a caller of the writer can still make: no entry, too long a prefix, or an unknown or wrong-family
    peer.
   */
  predicate CallSound(call: Call, peers: seq<MrtPeer>) {
    && call.entries != []
    && call.prefix.plen <= 8 * Width(call.v6)
    && forall i | 0 <= i < |call.entries| ::
         0 <= call.entries[i].0 < |peers| && peers[call.entries[i].0].ip.V6? == call.v6
  }

  // ---- what the reader does with unsound calls ----

  lemma EntryVerdict(e: Entry, v6: bool, c: Context, rest: bytes)
    requires c.Coherent() && EntryFormed(e, v6)
    ensures if PeerKnown(c, e.peerIndex, v6) then NextEntry(PrintEntry(e) + rest, v6, c) == Ok(e)
            else NextEntry(PrintEntry(e) + rest, v6, c).Err?
  {
    hide EntryFormed, ParseAttrs;
    if PeerKnown(c, e.peerIndex, v6) {
      EntryComplete(e, v6, c, rest);
    } else {
      var b := PrintEntry(e) + rest;
      assert b[0..2] == BE(2, e.peerIndex);
      U16Printed(b, 0, e.peerIndex);
    }
  }

  lemma {:induction false} EntriesVerdict(es: seq<Entry>, v6: bool, c: Context)
    requires c.Coherent() && forall e <- es :: EntryFormed(e, v6)
    ensures ParseEntries(Flatten(PrintEntry, es), |es|, v6, c).Ok? <==> forall e <- es :: PeerKnown(c, e.peerIndex, v6)
  {
    hide EntryFormed, PrintEntry, NextEntry, PeerKnown;
    if es != [] {
      var rest := Flatten(PrintEntry, es[1..]);
      assert es[0] in es;
      EntryVerdict(es[0], v6, c, rest);
      if PeerKnown(c, es[0].peerIndex, v6) {
        assert EntryValid(es[0], v6, c);
        EntryComplete(es[0], v6, c, rest);
        assert Flatten(PrintEntry, es)[|PrintEntry(es[0])|..] == rest;
      }
      EntriesVerdict(es[1..], v6, c);
      assert es == [es[0]] + es[1..];
    }
  }

  /** A RIB record whose framing and entries are in order, as every record that fits is. */
  ghost predicate RibFormed(r: Record) {
    && r.Rib? && |r.prefix| == (r.plen + 7) / 8 && |r.entries| < 0x1_0000 && |PrintBody(r)| < 0x1_0000_0000
    && forall e <- r.entries :: EntryFormed(e, r.v6)
  }

  predicate RibSoundIn(r: Record, c: Context) {
    && r.Rib?
    && r.plen <= 8 * Width(r.v6) && r.entries != []
    && forall e <- r.entries :: PeerKnown(c, e.peerIndex, r.v6)
  }

  lemma RibVerdict(r: Record, c: Context)
    requires c.Coherent() && RibFormed(r)
    ensures ParseRib(PrintBody(r), r.timestamp, r.v6, c).Ok? <==> RibSoundIn(r, c)
  {
    hide EntryFormed, ParseEntries, PrintEntry, PeerKnown;
    var b := PrintBody(r);
    var p: nat := 5 + |r.prefix|;
    assert b[4] == r.plen && b[p..p + 2] == BE(2, |r.entries|);
    U16Printed(b, p, |r.entries|);
    assert b[p + 2..] == Flatten(PrintEntry, r.entries);
    EntriesVerdict(r.entries, r.v6, c);
  }

  lemma RecordVerdict(r: Record, c: Context, rest: bytes)
    requires c.Coherent() && !c.first && RibFormed(r)
    ensures if RibSoundIn(r, c) then NextRecord(PrintRecord(r) + rest, c) == Ok(r)
            else NextRecord(PrintRecord(r) + rest, c).Err?
    ensures RibSoundIn(r, c) ==> RecordValid(r, c)
  {
    hide EntryFormed, PrintBody, ParseRib, PeerKnown;
    RibVerdict(r, c);
    var b := PrintRecord(r) + rest;
    var body := PrintBody(r);
    assert b[4..6] == BE(2, TABLE_DUMP_V2) && b[6..8] == BE(2, Subtype(r)) && b[8..12] == BE(4, |body|);
    assert b[0..4] == BE(4, r.timestamp);
    U32Printed(b, 0, r.timestamp);
    U16Printed(b, 4, TABLE_DUMP_V2);
    U16Printed(b, 6, Subtype(r));
    U32Printed(b, 8, |body|);
    assert b[12..12 + |body|] == body;
    if RibSoundIn(r, c) {
      assert RecordValid(r, c);
      RibComplete(r, c);
    }
  }

  ghost predicate AllFormed(rs: seq<Record>) {
    forall i | 0 <= i < |rs| :: RibFormed(rs[i])
  }

  predicate AllSoundIn(rs: seq<Record>, c: Context) {
    forall i | 0 <= i < |rs| :: RibSoundIn(rs[i], c)
  }

  lemma {:induction false} RibsVerdict(rs: seq<Record>, c: Context)
    requires c.Coherent() && !c.first && AllFormed(rs)
    ensures ParseRecords(PrintFile(rs), c).Ok? <==> AllSoundIn(rs, c)
    ensures AllSoundIn(rs, c) ==> RecordsValid(rs, c)
  {
    hide RibFormed, RibSoundIn, PrintRecord, NextRecord, RecordValid;
    if rs != [] {
      var rest := PrintFile(rs[1..]);
      RibStep(rs[0], c, rest);
      RibsVerdict(rs[1..], c);
      SoundCons(rs, c);
    }
  }

  lemma SoundCons(rs: seq<Record>, c: Context)
    requires rs != []
    ensures AllSoundIn(rs, c) <==> RibSoundIn(rs[0], c) && AllSoundIn(rs[1..], c)
  {
    hide RibSoundIn;
    assert forall i | 1 <= i < |rs| :: rs[i] == rs[1..][i - 1];
  }

  lemma RibStep(r: Record, c: Context, rest: bytes)
    requires c.Coherent() && !c.first && RibFormed(r)
    ensures c.Advance(r) == c
    ensures if RibSoundIn(r, c) then ParseRecords(PrintRecord(r) + rest, c) == Prepend([r], ParseRecords(rest, c))
            else ParseRecords(PrintRecord(r) + rest, c).Err?
    ensures RibSoundIn(r, c) ==> RecordValid(r, c)
  {
    hide RibSoundIn, NextRecord, RecordValid, PrintRecord;
    RecordVerdict(r, c, rest);
    var b := PrintRecord(r) + rest;
    if RibSoundIn(r, c) {
      RecordComplete(r, c, rest);
      assert b[12 + U32(b, 8)..] == rest;
    }
  }

  /** Records that fit are in order, and sound in a writer's own table exactly when the call was. */
  lemma CallFormed(call: Call, timestamp: int, peers: seq<MrtPeer>, c: Context)
    requires RibFits(call.v6, call.number, timestamp, call.prefix, call.entries)
    requires forall i: u16, v6 :: PeerKnown(c, i, v6) <==> i < |peers| && peers[i].ip.V6? == v6
    ensures var r := TreeRib(call.v6, call.number, timestamp, call.prefix, call.entries);
            RibFormed(r) && (RibSoundIn(r, c) <==> CallSound(call, peers))
  {
    hide PeerKnown, EntryFormed, PrintEntry, EntryFits, TreeEntry;
    var es := call.entries;
    var r := TreeRib(call.v6, call.number, timestamp, call.prefix, es);
    PackPrefixPads(call.prefix);
    forall i | 0 <= i < |es|
      ensures EntryFormed(r.entries[i], call.v6) && 0 <= es[i].0 < 0x1_0000 && r.entries[i].peerIndex == es[i].0
    {
      EntryOf(es[i], timestamp, call.v6);
    }
    if RibSoundIn(r, c) {
      forall i | 0 <= i < |es|
        ensures 0 <= es[i].0 < |peers| && peers[es[i].0].ip.V6? == call.v6
      {
        assert r.entries[i] in r.entries;
      }
    }
  }

  lemma EntryOf(e: (int, PathAttrs), timestamp: int, v6: bool)
    requires EntryFits(e, timestamp, v6)
    ensures EntryFormed(TreeEntry(e, timestamp, v6), v6)
    ensures 0 <= e.0 < 0x1_0000 && TreeEntry(e, timestamp, v6).peerIndex == e.0
  {
    EncodePrints(e.1, v6);
  }

  predicate AllCallsSound(calls: seq<Call>, peers: seq<MrtPeer>) {
    forall i | 0 <= i < |calls| :: CallSound(calls[i], peers)
  }

  lemma CallsFormed(calls: seq<Call>, timestamp: int, peers: seq<MrtPeer>, c: Context)
    requires CallsFit(calls, timestamp)
    requires forall i: u16, v6 :: PeerKnown(c, i, v6) <==> i < |peers| && peers[i].ip.V6? == v6
    ensures var ribs := TreeRibs(calls, timestamp);
            AllFormed(ribs) && (AllSoundIn(ribs, c) <==> AllCallsSound(calls, peers))
  {
    hide RibFits, TreeRib, CallSound, RibFormed, RibSoundIn, PeerKnown;
    var ribs := TreeRibs(calls, timestamp);
    forall i | 0 <= i < |calls|
      ensures RibFormed(ribs[i]) && (RibSoundIn(ribs[i], c) <==> CallSound(calls[i], peers))
    {
      CallFormed(calls[i], timestamp, peers, c);
    }
  }

  /**
    Round trip for the whole file. The reader accepts what a run wrote exactly when there is a peer and every
    written call was sound, and it then reads back that very dump; RibBack and PeerBack undo it field by field.
   */
  lemma DumpBack(peers: seq<MrtPeer>, viewName: bytes, timestamp: int, calls: seq<Call>)
    requires TableFits(peers, viewName, timestamp) && CallsFit(calls, timestamp)
    ensures var rs := Dump(peers, viewName, timestamp, calls);
            && (Verdict(PrintFile(rs), None, None).Ok? <==> peers != [] && AllCallsSound(calls, peers))
            && (peers != [] && AllCallsSound(calls, peers) ==>
              FileValid(rs) && ParseRecords(PrintFile(rs), START) == Ok(rs))
  {
    hide RibFits, TreeTable, TreeRibs, AllCallsSound, AllFormed;
    hide AllSoundIn, RecordValid, PeerKnown, ParseRecords, PrintRecord;
    var table := TreeTable(peers, viewName, timestamp);
    var ribs := TreeRibs(calls, timestamp);
    TableSound(peers, viewName, timestamp, START);
    TableIs(peers, viewName, timestamp);
    CallsFormed(calls, timestamp, peers, START.Advance(table));
    DumpVerdict(table, ribs);
  }

  lemma TableIs(peers: seq<MrtPeer>, viewName: bytes, timestamp: int)
    requires TableFits(peers, viewName, timestamp)
    ensures var t := TreeTable(peers, viewName, timestamp); t.PeerTable? && (t.peers == [] <==> peers == [])
  {
  }

  /** A sound table followed by formed RIB records: accepted exactly when there is a peer and each is sound. */
  lemma DumpVerdict(table: Record, ribs: seq<Record>)
    requires table.PeerTable? && RecordValid(table, START) && AllFormed(ribs)
    ensures var rs := [table] + ribs;
            var sound := table.peers != [] && AllSoundIn(ribs, START.Advance(table));
            && (Verdict(PrintFile(rs), None, None).Ok? <==> sound)
            && (sound ==> FileValid(rs) && ParseRecords(PrintFile(rs), START) == Ok(rs))
  {
    hide RibFormed, RibSoundIn, AllSoundIn, PrintRecord, RecordValid, ParseRecords;
    var rs, c := [table] + ribs, START.Advance(table);
    RibsVerdict(ribs, c);
    TableStep(table, PrintFile(ribs));
    RecordsCons(table, ribs, START);
    FamiliesOfPeers(rs, START);
    FormedAreRibs(ribs);
    PeersOfTable(table, ribs);
    if AllSoundIn(ribs, c) {
      RecordsGrammar(PrintFile(rs), START, rs);
    }
    PrintedTable(table);
  }

  lemma PrintedTable(table: Record)
    ensures forall rest: bytes :: PrintRecord(table) + rest != []
  {
  }

  lemma FormedAreRibs(ribs: seq<Record>)
    requires AllFormed(ribs)
    ensures forall r <- ribs :: r.Rib?
  {
  }

  lemma TableStep(table: Record, rest: bytes)
    requires table.PeerTable? && RecordValid(table, START)
    ensures ParseRecords(PrintRecord(table) + rest, START) == Prepend([table], ParseRecords(rest, START.Advance(table)))
  {
    hide NextRecord, RecordValid, PrintRecord;
    var b := PrintRecord(table) + rest;
    RecordComplete(table, START, rest);
    assert b[12 + U32(b, 8)..] == rest;
  }

  lemma PeersOfTable(table: Record, ribs: seq<Record>)
    requires table.PeerTable? && forall r <- ribs :: r.Rib?
    ensures PeersOf([table] + ribs) == table.peers
  {
    assert ([table] + ribs)[1..] == ribs;
    NoPeersInRibs(ribs);
  }

  lemma {:induction false} NoPeersInRibs(ribs: seq<Record>)
    requires forall r <- ribs :: r.Rib?
    ensures PeersOf(ribs) == []
  {
    if ribs != [] {
      assert ribs[0] in ribs;
      NoPeersInRibs(ribs[1..]);
    }
  }
}
