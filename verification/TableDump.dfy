/**
  The TABLE_DUMP_V2 wire format, as a grammar: a tree for everything a dump can hold, the octets each
  tree prints to, and the side conditions under which a strict reader must take it. Framing follows
  sections 2, 4.3.1, 4.3.2 and 4.3.4 of RFC 6396, attributes section 4.3 of RFC 4271.

  Nothing here reads octets: the reader (MrtCheck) and the writer (RouteGen) are both measured against it.
 */
module TableDump {
  import opened Bytes

  const TABLE_DUMP_V2: u16 := 13
  const SUB_PEER_INDEX_TABLE: u16 := 1
  const SUB_RIB_IPV4_UNICAST: u16 := 2
  const SUB_RIB_IPV6_UNICAST: u16 := 4

  const ORIGIN: byte := 1
  const AS_PATH: byte := 2
  const NEXT_HOP: byte := 3
  const MULTI_EXIT_DISC: byte := 4
  const COMMUNITIES: byte := 8
  const MP_REACH_NLRI: byte := 14
  const LARGE_COMMUNITY: byte := 32

  datatype Segment = Segment(kind: byte, asns: seq<u32>)
  datatype Attr = Attr(flags: byte, code: byte, value: bytes)
  datatype Entry = Entry(peerIndex: u16, originated: u32, attrs: seq<Attr>)
  datatype Peer = Peer(kind: byte, bgpId: u32, address: bytes, asn: u32)
  datatype Record =
    | PeerTable(timestamp: u32, collector: u32, view: bytes, peers: seq<Peer>)
    | Rib(timestamp: u32, v6: bool, number: u32, plen: byte, prefix: bytes, entries: seq<Entry>)

  // ---- printing ----

  function Flatten<T>(print1: T -> bytes, xs: seq<T>): bytes {
    if xs == [] then [] else print1(xs[0]) + Flatten(print1, xs[1..])
  }

  lemma {:induction false} FlattenAppend<T>(print1: T -> bytes, xs: seq<T>, ys: seq<T>)
    ensures Flatten(print1, xs + ys) == Flatten(print1, xs) + Flatten(print1, ys)
  {
    if xs == [] {
      assert xs + ys == ys;
    } else {
      assert (xs + ys)[1..] == xs[1..] + ys;
      FlattenAppend(print1, xs[1..], ys);
    }
  }

  /** Six pieces, joined from the left or from the right. */
  lemma SixPieces<T>(a: seq<T>, b: seq<T>, c: seq<T>, d: seq<T>, e: seq<T>, f: seq<T>)
    ensures a + b + c + d + e + f == a + (b + (c + (d + (e + f))))
  {
    var abcd := a + b + c + d;
    assert abcd + e + f == abcd + (e + f);
    assert a + b + c + d + (e + f) == a + b + c + (d + (e + f));
    assert a + b + c + (d + (e + f)) == a + b + (c + (d + (e + f)));
    assert a + b + (c + (d + (e + f))) == a + (b + (c + (d + (e + f))));
  }

  lemma FlattenCons<T>(print1: T -> bytes, x: T, xs: seq<T>)
    ensures Flatten(print1, [x] + xs) == print1(x) + Flatten(print1, xs)
  {
    assert ([x] + xs)[1..] == xs;
  }

  lemma FlattenOne<T>(print1: T -> bytes, x: T)
    ensures Flatten(print1, [x]) == print1(x)
  {
    assert [x][1..] == [];
  }

  /** Bit 4 of the attribute flags: the length field takes two octets. */
  predicate ExtendedLength(flags: byte) {
    flags / 16 % 2 == 1
  }

  /** Bit 0 of the peer type: the peer address is IPv6. */
  predicate IsV6Peer(kind: byte) {
    kind % 2 == 1
  }

  /** Bit 1 of the peer type: the ASN takes four octets. */
  predicate IsAs4Peer(kind: byte) {
    kind / 2 % 2 == 1
  }

  function PrintAsn(asn: u32): bytes {
    BE(4, asn)
  }

  function PrintSegment(s: Segment): bytes {
    [s.kind] + BE(1, |s.asns|) + Flatten(PrintAsn, s.asns)
  }

  function PrintAttr(a: Attr): (bs: bytes)
    ensures |bs| > 2
  {
    [a.flags, a.code] + BE(if ExtendedLength(a.flags) then 2 else 1, |a.value|) + a.value
  }

  function PrintAttrs(attrs: seq<Attr>): bytes {
    Flatten(PrintAttr, attrs)
  }

  function PrintEntry(e: Entry): (bs: bytes)
    ensures |bs| >= 8
  {
    BE(2, e.peerIndex) + BE(4, e.originated) + BE(2, |PrintAttrs(e.attrs)|) + PrintAttrs(e.attrs)
  }

  function AsnWidth(kind: byte): nat {
    if IsAs4Peer(kind) then 4 else 2
  }

  function PrintPeer(p: Peer): (bs: bytes)
    ensures |bs| > 0
  {
    [p.kind] + BE(4, p.bgpId) + p.address + BE(AsnWidth(p.kind), p.asn)
  }

  function PrintBody(r: Record): bytes {
    match r
    case PeerTable(_, collector, view, peers) =>
      BE(4, collector) + BE(2, |view|) + view + BE(2, |peers|) + Flatten(PrintPeer, peers)
    case Rib(_, _, number, plen, prefix, entries) =>
      BE(4, number) + [plen] + prefix + BE(2, |entries|) + Flatten(PrintEntry, entries)
  }

  function Subtype(r: Record): u16 {
    if r.PeerTable? then SUB_PEER_INDEX_TABLE
    else if r.v6 then SUB_RIB_IPV6_UNICAST else SUB_RIB_IPV4_UNICAST
  }

  function PrintRecord(r: Record): (bs: bytes)
    ensures |bs| == 12 + |PrintBody(r)|
  {
    BE(4, r.timestamp) + BE(2, TABLE_DUMP_V2) + BE(2, Subtype(r)) + BE(4, |PrintBody(r)|) + PrintBody(r)
  }

  function PrintFile(rs: seq<Record>): bytes {
    Flatten(PrintRecord, rs)
  }

  /** What stands for a record's kind in its header: TABLE_DUMP_V2, and the subtype. */
  function KindOctets(r: Record): bytes {
    if r.PeerTable? then [0, 13, 0, 1] else if r.v6 then [0, 13, 0, 4] else [0, 13, 0, 2]
  }

  /** Twelve octets: the time, type 13 and the subtype, the length of the body. */
  lemma RecordHeader(r: Record)
    ensures |PrintRecord(r)| >= 12 && PrintRecord(r)[4..8] == KindOctets(r)
    ensures PrintRecord(r)[..4] == BE(4, r.timestamp) && PrintRecord(r)[8..12] == BE(4, |PrintBody(r)|)
  {
    hide PrintBody;
    TwoOctets(13);
    TwoOctets(1);
    TwoOctets(2);
    TwoOctets(4);
  }

  // ---- side conditions ----

  predicate SegmentValid(s: Segment) {
    1 <= s.kind <= 4 && |s.asns| < 256
  }

  /** The octets are a whole number of AS_PATH segments, nothing before, between or after them. */
  ghost predicate IsAsPath(value: bytes) {
    exists segments: seq<Segment> ::
      (forall s <- segments :: SegmentValid(s)) && Flatten(PrintSegment, segments) == value
  }

  /** The reduced body of section 4.3.4 of RFC 6396: a next-hop length and that many octets. */
  predicate IsReducedMpReach(value: bytes, v6: bool) {
    && |value| >= 1
    && value[0] in {4, 16, 32}
    && |value| == 1 + value[0]
    && !(v6 && value[0] == 4)
  }

  ghost predicate AttrValid(a: Attr, v6: bool) {
    && |a.value| < (if ExtendedLength(a.flags) then 0x1_0000 else 0x100)
    && (a.code == ORIGIN ==> |a.value| == 1)
    && (a.code == NEXT_HOP ==> |a.value| == 4)
    && (a.code == MULTI_EXIT_DISC ==> |a.value| == 4)
    && (a.code == LARGE_COMMUNITY ==> |a.value| % 12 == 0)
    && (a.code == COMMUNITIES ==> |a.value| % 4 == 0)
    && (a.code == MP_REACH_NLRI ==> IsReducedMpReach(a.value, v6))
    && (a.code == AS_PATH ==> IsAsPath(a.value))
  }

  ghost predicate AttrsValid(attrs: seq<Attr>, v6: bool) {
    forall a <- attrs :: AttrValid(a, v6)
  }

  predicate PeerValid(p: Peer) {
    && |p.address| == (if IsV6Peer(p.kind) then 16 else 4)
    && (!IsAs4Peer(p.kind) ==> p.asn < 0x1_0000)
  }

  function CodesOf(attrs: seq<Attr>): set<byte> {
    set a <- attrs :: a.code
  }

  /** The attribute that must carry the next hop of a RIB entry. */
  function NextHopCode(v6: bool): byte {
    if v6 then MP_REACH_NLRI else NEXT_HOP
  }

  /**
    What a reader carries from record to record: whether none was read yet, the address family of every
    peer declared so far in any table, and how many peers the latest table declared.
   */
  datatype Context = Context(first: bool, families: seq<bool>, count: nat) {
    predicate Coherent() {
      count <= |families|
    }

    function Advance(r: Record): (c: Context)
      ensures Coherent() ==> c.Coherent()
    {
      match r
      case PeerTable(_, _, _, peers) => Context(false, families + FamiliesOf(peers), |peers|)
      case Rib(_, _, _, _, _, _) => this.(first := false)
    }
  }

  const START := Context(true, [], 0)

  function FamiliesOf(peers: seq<Peer>): (fs: seq<bool>)
    ensures |fs| == |peers|
  {
    seq(|peers|, i requires 0 <= i < |peers| => IsV6Peer(peers[i].kind))
  }

  predicate PeerKnown(c: Context, peerIndex: u16, v6: bool) {
    peerIndex < c.count && peerIndex < |c.families| && c.families[peerIndex] == v6
  }

  /** An entry that is in order by itself, whatever peers there are. */
  ghost predicate EntryFormed(e: Entry, v6: bool) {
    && AttrsValid(e.attrs, v6)
    && |PrintAttrs(e.attrs)| < 0x1_0000
    && NextHopCode(v6) in CodesOf(e.attrs)
  }

  ghost predicate EntryValid(e: Entry, v6: bool, c: Context) {
    PeerKnown(c, e.peerIndex, v6) && EntryFormed(e, v6)
  }

  ghost predicate RecordValid(r: Record, c: Context) {
    && |PrintBody(r)| < 0x1_0000_0000
    && match r
       case PeerTable(_, _, view, peers) =>
         |view| < 0x1_0000 && |peers| < 0x1_0000 && forall p <- peers :: PeerValid(p)
       case Rib(_, v6, _, plen, prefix, entries) =>
         && !c.first
         && plen <= (if v6 then 128 else 32)
         && |prefix| == (plen + 7) / 8
         && 0 < |entries| < 0x1_0000
         && forall e <- entries :: EntryValid(e, v6, c)
  }

  ghost predicate RecordsValid(rs: seq<Record>, c: Context) {
    rs == [] || (RecordValid(rs[0], c) && RecordsValid(rs[1..], c.Advance(rs[0])))
  }

  function After(rs: seq<Record>, c: Context): Context {
    if rs == [] then c else After(rs[1..], c.Advance(rs[0]))
  }

  /** A complete dump: a peer table first, every record sound where it stands, at least one peer. */
  ghost predicate FileValid(rs: seq<Record>) {
    rs != [] && RecordsValid(rs, START) && After(rs, START).families != []
  }

  /** Appending a record keeps a dump sound exactly when the record is sound after the others. */
  lemma {:induction false} RecordsValidAppend(rs: seq<Record>, r: Record, c: Context)
    ensures After(rs + [r], c) == After(rs, c).Advance(r)
    ensures RecordsValid(rs + [r], c) <==> RecordsValid(rs, c) && RecordValid(r, After(rs, c))
  {
    if rs == [] {
      assert ([] + [r])[1..] == [];
    } else {
      assert (rs + [r])[1..] == rs[1..] + [r];
      RecordsValidAppend(rs[1..], r, c.Advance(rs[0]));
    }
  }
}
