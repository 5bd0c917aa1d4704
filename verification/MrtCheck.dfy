/**
  tests/mrtcheck.py: the dependency-free structural reader. The methods are the source's cursor loops;
  each is proved against MrtParse, and `CheckFile` against the grammar itself.
 */
module MrtCheck {
  import opened Arith
  import opened Wrappers
  import opened Bytes
  import opened TableDump
  import opened MrtParse

  /** What the reader reports of a file. */
  datatype MrtSummary = MrtSummary(
    bytesTotal: nat,
    records: nat,
    peers: seq<Peer>,
    prefixesV4: nat,
    prefixesV6: nat,
    ribEntries: nat,
    attrCodes: set<byte>,
    maxEntries: nat,
    firstV4: Option<(bytes, byte)>,
    firstV6: Option<(bytes, byte)>)

  /** The address the reader prints: the prefix octets, padded with zeros to the family's width. */
  function Padded(r: Record): (bytes, byte)
    requires r.Rib?
  {
    var width := if r.v6 then 16 else 4;
    (r.prefix + seq(if |r.prefix| < width then width - |r.prefix| else 0, _ => 0), r.plen)
  }

  function EntryCodes(entries: seq<Entry>): set<byte> {
    set e <- entries, code <- CodesOf(e.attrs) :: code
  }

  function PeersOf(rs: seq<Record>): seq<Peer> {
    if rs == [] then [] else (if rs[0].PeerTable? then rs[0].peers else []) + PeersOf(rs[1..])
  }

  function RibsOf(rs: seq<Record>, v6: bool): seq<Record>
    ensures forall r <- RibsOf(rs, v6) :: r.Rib? && r.v6 == v6
  {
    if rs == [] then []
    else (if rs[0].Rib? && rs[0].v6 == v6 then [rs[0]] else []) + RibsOf(rs[1..], v6)
  }

  function EntriesOf(rs: seq<Record>): seq<Entry> {
    if rs == [] then [] else (if rs[0].Rib? then rs[0].entries else []) + EntriesOf(rs[1..])
  }

  function MostEntries(rs: seq<Record>): nat {
    if rs == [] then 0
    else Max(MostEntries(rs[..|rs| - 1]), if rs[|rs| - 1].Rib? then |rs[|rs| - 1].entries| else 0)
  }

  /** The summary of a dump, said of the whole dump at once. */
  function Summary(rs: seq<Record>, total: nat): MrtSummary {
    MrtSummary(
      total, |rs|, PeersOf(rs), |RibsOf(rs, false)|, |RibsOf(rs, true)|, |EntriesOf(rs)|,
      EntryCodes(EntriesOf(rs)), MostEntries(rs),
      if RibsOf(rs, false) == [] then None else Some(Padded(RibsOf(rs, false)[0])),
      if RibsOf(rs, true) == [] then None else Some(Padded(RibsOf(rs, true)[0])))
  }

  /** The lists, one record at a time. */
  lemma RecordListsCons(rs: seq<Record>)
    requires rs != []
    ensures PeersOf(rs) == (if rs[0].PeerTable? then rs[0].peers else []) + PeersOf(rs[1..])
    ensures EntriesOf(rs) == (if rs[0].Rib? then rs[0].entries else []) + EntriesOf(rs[1..])
    ensures forall v6 :: RibsOf(rs, v6) == (if rs[0].Rib? && rs[0].v6 == v6 then [rs[0]] else []) + RibsOf(rs[1..], v6)
  {
  }

  lemma NoLists()
    ensures PeersOf([]) == [] && EntriesOf([]) == [] && forall v6 :: RibsOf([], v6) == []
  {
  }

  lemma {:induction false} RecordListsAppend(rs: seq<Record>, r: Record)
    ensures PeersOf(rs + [r]) == PeersOf(rs) + PeersOf([r])
    ensures EntriesOf(rs + [r]) == EntriesOf(rs) + EntriesOf([r])
    ensures forall v6 :: RibsOf(rs + [r], v6) == RibsOf(rs, v6) + RibsOf([r], v6)
  {
    hide PeersOf, EntriesOf, RibsOf;
    NoLists();
    if rs == [] {
      assert rs + [r] == [r];
    } else {
      assert (rs + [r])[1..] == rs[1..] + [r];
      RecordListsCons(rs);
      RecordListsCons(rs + [r]);
      RecordListsAppend(rs[1..], r);
    }
  }

  /** How the summary moves when the reader has taken one more record. */
  function Counted(s: MrtSummary, r: Record): MrtSummary {
    match r
    case PeerTable(_, _, _, peers) => s.(records := s.records + 1, peers := s.peers + peers)
    case Rib(_, v6, _, _, _, entries) =>
      s.(records := s.records + 1,
         prefixesV4 := s.prefixesV4 + (if v6 then 0 else 1),
         prefixesV6 := s.prefixesV6 + (if v6 then 1 else 0),
         ribEntries := s.ribEntries + |entries|,
         attrCodes := s.attrCodes + EntryCodes(entries),
         maxEntries := Max(s.maxEntries, |entries|),
         firstV4 := if !v6 && s.firstV4.None? then Some(Padded(r)) else s.firstV4,
         firstV6 := if v6 && s.firstV6.None? then Some(Padded(r)) else s.firstV6)
  }

  lemma EmptySummary(total: nat)
    ensures Summary([], total) == MrtSummary(total, 0, [], 0, 0, 0, {}, 0, None, None)
  {
    assert EntryCodes([]) == {};
  }

  lemma SingleRecord(r: Record)
    ensures PeersOf([r]) == if r.PeerTable? then r.peers else []
    ensures EntriesOf([r]) == if r.Rib? then r.entries else []
    ensures forall v6 :: RibsOf([r], v6) == if r.Rib? && r.v6 == v6 then [r] else []
  {
    assert [r][1..] == [];
  }

  /** The running counters always describe the records read so far. */
  lemma SummaryCounts(rs: seq<Record>, r: Record, total: nat)
    ensures Summary(rs + [r], total) == Counted(Summary(rs, total), r)
  {
    hide PeersOf, EntriesOf, RibsOf;
    RecordListsAppend(rs, r);
    SingleRecord(r);
    assert (rs + [r])[..|rs|] == rs;
    if r.Rib? {
      assert EntryCodes(EntriesOf(rs) + r.entries) == EntryCodes(EntriesOf(rs)) + EntryCodes(r.entries);
      assert PeersOf(rs) + [] == PeersOf(rs);
    } else {
      assert EntriesOf(rs) + [] == EntriesOf(rs);
    }
    assert forall v6 :: RibsOf(rs, v6) + [] == RibsOf(rs, v6);
  }

  /** The final verdict: the record walk, then the checks made once the buffer is used up. */
  function Verdict(buf: bytes, expectV4: Option<int>, expectV6: Option<int>): Result<MrtSummary, MrtError> {
    if buf == [] then Err(FileEmpty)
    else
      var rs :- ParseRecords(buf, START);
      var s := Summary(rs, |buf|);
      if s.peers == [] then Err(NoPeers)
      else if expectV4.Some? && s.prefixesV4 != expectV4.value then Err(WrongV4Count)
      else if expectV6.Some? && s.prefixesV6 != expectV6.value then Err(WrongV6Count)
      else Ok(s)
  }

  // ---- the reader ----

  /** The inner `while q < end` over AS_PATH segments of `body[p..p + length]`. */
  method WalkAsPath(body: bytes, p: nat, length: nat) returns (error: Option<MrtError>)
    requires p + length <= |body|
    ensures error == SegmentsError(body[p..p + length], 0)
  {
    ghost var value := body[p..p + length];
    var q, end := p, p + length;
    while q < end
      invariant p <= q
      invariant SegmentsError(value, q - p) == SegmentsError(value, 0)
    {
      if q + 2 > end { return Some(SegmentTruncated); }
      var kind, count: int := body[q], body[q + 1];
      assert value[q - p] == kind && value[q - p + 1] == count;
      if !(1 <= kind <= 4) { return Some(SegmentKind); }
      q := q + 2 + 4 * count;
    }
    return if q != end then Some(SegmentsUntiled) else None;
  }

  lemma PrependNil<T>(r: Result<seq<T>, MrtError>)
    ensures Prepend([], r) == r
  {
    if r.Ok? {
      assert [] + r.value == r.value;
    }
  }

  lemma PrependTwice<T>(xs: seq<T>, ys: seq<T>, r: Result<seq<T>, MrtError>)
    ensures Prepend(xs, Prepend(ys, r)) == Prepend(xs + ys, r)
  {
    if r.Ok? {
      assert xs + (ys + r.value) == (xs + ys) + r.value;
    }
  }

  /** The attribute at `p`: header, length, bounds and the per-code checks. */
  method ReadAttr(body: bytes, start: nat, v6: bool) returns (r: Result<Attr, MrtError>)
    requires start < |body|
    ensures r == NextAttr(body[start..], v6)
  {
    var p, n := start, |body|;
    ghost var rest := body[start..];
    if p + 2 > n { return Err(AttrHeaderTruncated); }
    var flags, code := body[p], body[p + 1];
    var length: nat;
    p := p + 2;
    if ExtendedLength(flags) {
      if p + 2 > n { return Err(AttrLengthTruncated); }
      length := U16(body, p);
      Shift(body, start, 2, 4);
      p := p + 2;
    } else {
      if p + 1 > n { return Err(AttrLengthTruncated); }
      length := body[p];
      p := p + 1;
    }
    if p + length > n { return Err(AttrTruncated); }
    var value := body[p..p + length];
    Shift(body, start, p - start, p - start + length);
    var error: Option<MrtError>;
    if code == AS_PATH {
      error := WalkAsPath(body, p, length);
    } else {
      error := ValueError(code, value, v6);
    }
    r := if error.Some? then Err(error.value) else Ok(Attr(flags, code, value));
  }

  lemma AttrStep(body: bytes, p: nat, v6: bool, attrs: seq<Attr>, a: Attr)
    requires p < |body| && NextAttr(body[p..], v6) == Ok(a)
    ensures p + |PrintAttr(a)| <= |body|
    ensures Prepend(attrs, ParseAttrs(body[p..], v6))
         == Prepend(attrs + [a], ParseAttrs(body[p + |PrintAttr(a)|..], v6))
  {
    hide NextAttr, PrintAttr, Prepend;
    var next := p + |PrintAttr(a)|;
    assert body[next..] == body[p..][|PrintAttr(a)|..];
    PrependTwice(attrs, [a], ParseAttrs(body[next..], v6));
  }

  method WalkAttributes(body: bytes, v6: bool) returns (r: Result<seq<Attr>, MrtError>, codes: set<byte>)
    ensures r == ParseAttrs(body, v6)
    ensures r.Ok? ==> codes == CodesOf(r.value)
  {
    hide NextAttr;
    var attrs: seq<Attr> := [];
    codes := {};
    var p := 0;
    assert body[0..] == body;
    PrependNil(ParseAttrs(body, v6));
    while p < |body|
      invariant p <= |body|
      invariant ParseAttrs(body, v6) == Prepend(attrs, ParseAttrs(body[p..], v6))
      invariant codes == CodesOf(attrs)
    {
      var next := ReadAttr(body, p, v6);
      if next.Err? { return Err(next.error), codes; }
      AttrStep(body, p, v6, attrs, next.value);
      p := p + (if ExtendedLength(next.value.flags) then 4 else 3) + |next.value.value|;
      attrs, codes := attrs + [next.value], codes + {next.value.code};
    }
    assert body[p..] == [];
    r := Ok(attrs);
    assert attrs + [] == attrs;
  }

  method ReadPeer(body: bytes, start: nat) returns (r: Result<Peer, MrtError>, end: nat)
    requires start <= |body|
    ensures r == NextPeer(body[start..])
    ensures r.Ok? ==> end == start + |PrintPeer(r.value)|
  {
    var p: nat := start;
    end := start;
    if p + 1 > |body| { return Err(PeerTypeTruncated), end; }
    var kind := body[p];
    p := p + 1;
    p := p + 4;
    var width, asnWidth := if IsV6Peer(kind) then 16 else 4, if IsAs4Peer(kind) then 4 else 2;
    if p + width + asnWidth > |body| { return Err(PeerTruncated), end; }
    PeerFieldsShift(body, start, width);
    var address := body[p..p + width];
    p := p + width;
    var asn: u32 := if asnWidth == 4 then U32(body, p) else U16(body, p);
    end := p + asnWidth;
    r := Ok(Peer(kind, U32(body, start + 1), address, asn));
  }

  lemma PeerFieldsShift(body: bytes, start: nat, width: nat)
    requires start + 5 + width + 2 <= |body|
    ensures body[start..][5..5 + width] == body[start + 5..start + 5 + width]
    ensures U32(body[start..], 1) == U32(body, start + 1)
    ensures U16(body[start..], 5 + width) == U16(body, start + 5 + width)
    ensures start + 5 + width + 4 <= |body| ==> U32(body[start..], 5 + width) == U32(body, start + 5 + width)
  {
    assert body[start..][1..5] == body[start + 1..start + 5];
    assert body[start..][5 + width..7 + width] == body[start + 5 + width..start + 7 + width];
    assert start + 5 + width + 4 <= |body| ==>
      body[start..][5 + width..9 + width] == body[start + 5 + width..start + 9 + width];
  }

  lemma PeerStep(body: bytes, p: nat, n: nat, peers: seq<Peer>, peer: Peer)
    requires p <= |body| && n > 0 && NextPeer(body[p..]) == Ok(peer)
    ensures p + |PrintPeer(peer)| <= |body|
    ensures Prepend(peers, ParsePeers(body[p..], n))
         == Prepend(peers + [peer], ParsePeers(body[p + |PrintPeer(peer)|..], n - 1))
  {
    hide NextPeer, PrintPeer, Prepend;
    var next := p + |PrintPeer(peer)|;
    assert body[next..] == body[p..][|PrintPeer(peer)|..];
    PrependTwice(peers, [peer], ParsePeers(body[next..], n - 1));
  }

  /** The `for i in range(peer_count)` loop and the tiling check after it. */
  method ReadPeers(body: bytes, start: nat, count: nat) returns (r: Result<seq<Peer>, MrtError>)
    requires start <= |body|
    ensures r == ParsePeers(body[start..], count)
  {
    hide NextPeer, PrintPeer, PeerValid;
    var p: nat := start;
    var peers: seq<Peer> := [];
    PrependNil(ParsePeers(body[start..], count));
    for i := 0 to count
      invariant p <= |body|
      invariant ParsePeers(body[start..], count) == Prepend(peers, ParsePeers(body[p..], count - i))
    {
      var peer, end := ReadPeer(body, p);
      if peer.Err? { return Err(peer.error); }
      PeerStep(body, p, count - i, peers, peer.value);
      p := end;
      peers := peers + [peer.value];
    }
    if p != |body| {
      assert body[p..] != [];
      return Err(PeerTableUntiled);
    }
    assert body[p..] == [];
    assert peers + [] == peers;
    r := Ok(peers);
  }

  method ReadPeerTable(body: bytes, timestamp: u32) returns (r: Result<Record, MrtError>)
    ensures r == ParsePeerTable(body, timestamp)
  {
    hide ParsePeers;
    var p: nat := 4;
    if |body| < 6 { return Err(PeerTableShort); }
    var viewLength: nat := U16(body, p);
    p := p + 2 + viewLength;
    if p + 2 > |body| { return Err(PeerCountTruncated); }
    var count: nat := U16(body, p);
    var view := body[6..p];
    p := p + 2;
    var peers := ReadPeers(body, p, count);
    if peers.Err? { return Err(peers.error); }
    r := Ok(PeerTable(timestamp, U32(body, 0), view, peers.value));
  }

  method ReadEntry(body: bytes, start: nat, v6: bool, c: Context) returns (r: Result<Entry, MrtError>, end: nat)
    requires start <= |body| && c.Coherent()
    ensures r == NextEntry(body[start..], v6, c)
    ensures r.Ok? ==> start + 8 <= |body| && end == start + 8 + U16(body[start..], 6) <= |body|
  {
    hide ParseAttrs;
    var p: nat := start;
    end := start;
    if p + 8 > |body| { return Err(EntryTruncated), end; }
    EntryFieldsShift(body, p);
    var peerIndex, originated := U16(body, p), U32(body, p + 2);
    p := p + 6;
    var length: nat := U16(body, p);
    p := p + 2;
    if peerIndex >= c.count { return Err(PeerUnknown), end; }
    if v6 != c.families[peerIndex] { return Err(PeerFamily), end; }
    if p + length > |body| { return Err(AttrsTruncated), end; }
    assert body[start..][8..8 + length] == body[p..p + length];
    var attrs, codes := WalkAttributes(body[p..p + length], v6);
    if attrs.Err? { return Err(attrs.error), end; }
    if v6 && MP_REACH_NLRI !in codes { return Err(NextHopMissing), end; }
    if !v6 && NEXT_HOP !in codes { return Err(NextHopMissing), end; }
    end := p + length;
    r := Ok(Entry(peerIndex, originated, attrs.value));
  }

  lemma EntryFieldsShift(body: bytes, p: nat)
    requires p + 8 <= |body|
    ensures U16(body[p..], 0) == U16(body, p)
    ensures U32(body[p..], 2) == U32(body, p + 2)
    ensures U16(body[p..], 6) == U16(body, p + 6)
  {
    assert body[p..][0..2] == body[p..p + 2];
    assert body[p..][2..6] == body[p + 2..p + 6];
    assert body[p..][6..8] == body[p + 6..p + 8];
  }

  lemma EntryStep(body: bytes, p: nat, n: nat, v6: bool, c: Context, entries: seq<Entry>, e: Entry)
    requires c.Coherent()
    requires p <= |body| && n > 0 && NextEntry(body[p..], v6, c) == Ok(e)
    requires p + 8 <= |body| && p + 8 + U16(body[p..], 6) <= |body|
    ensures Prepend(entries, ParseEntries(body[p..], n, v6, c))
         == Prepend(entries + [e], ParseEntries(body[p + 8 + U16(body[p..], 6)..], n - 1, v6, c))
  {
    hide NextEntry, Prepend;
    var length: nat := U16(body[p..], 6);
    assert body[p + 8 + length..] == body[p..][8 + length..];
    PrependTwice(entries, [e], ParseEntries(body[p + 8 + length..], n - 1, v6, c));
  }

  /** The `for i in range(ecount)` loop and the tiling check after it. */
  method ReadEntries(body: bytes, start: nat, count: nat, v6: bool, c: Context)
    returns (r: Result<seq<Entry>, MrtError>)
    requires start <= |body| && c.Coherent()
    ensures r == ParseEntries(body[start..], count, v6, c)
  {
    hide NextEntry;
    var p: nat := start;
    var entries: seq<Entry> := [];
    PrependNil(ParseEntries(body[start..], count, v6, c));
    for i := 0 to count
      invariant p <= |body|
      invariant ParseEntries(body[start..], count, v6, c)
             == Prepend(entries, ParseEntries(body[p..], count - i, v6, c))
    {
      var e, end := ReadEntry(body, p, v6, c);
      if e.Err? { return Err(e.error); }
      EntryStep(body, p, count - i, v6, c, entries, e.value);
      p := end;
      entries := entries + [e.value];
    }
    if p != |body| {
      assert body[p..] != [];
      return Err(RibUntiled);
    }
    assert body[p..] == [];
    assert entries + [] == entries;
    r := Ok(entries);
  }

  method ReadRib(body: bytes, timestamp: u32, v6: bool, c: Context) returns (r: Result<Record, MrtError>)
    requires c.Coherent()
    ensures r == ParseRib(body, timestamp, v6, c)
  {
    hide ParseEntries;
    var maxLength := if v6 then 128 else 32;
    if |body| < 7 { return Err(RibShort); }
    var p: nat := 4;
    var plen := body[p];
    p := p + 1;
    if plen > maxLength { return Err(PrefixTooLong); }
    var octets: nat := (plen + 7) / 8;
    if p + octets > |body| { return Err(PrefixTruncated); }
    var raw := body[p..p + octets];
    p := p + octets;
    if p + 2 > |body| { return Err(EntryCountTruncated); }
    var count: nat := U16(body, p);
    p := p + 2;
    if count == 0 { return Err(NoEntries); }
    var entries := ReadEntries(body, p, count, v6, c);
    if entries.Err? { return Err(entries.error); }
    r := Ok(Rib(timestamp, v6, U32(body, 0), plen, raw, entries.value));
  }

  lemma HeaderShift(buf: bytes, off: nat)
    requires off + 12 <= |buf|
    ensures U32(buf[off..], 0) == U32(buf, off)
    ensures U16(buf[off..], 4) == U16(buf, off + 4)
    ensures U16(buf[off..], 6) == U16(buf, off + 6)
    ensures U32(buf[off..], 8) == U32(buf, off + 8)
  {
    assert buf[off..][0..4] == buf[off..off + 4];
    assert buf[off..][4..6] == buf[off + 4..off + 6];
    assert buf[off..][6..8] == buf[off + 6..off + 8];
    assert buf[off..][8..12] == buf[off + 8..off + 12];
  }

  /** The record at `off`, given what earlier records declared; `end` is where the next one starts. */
  method ReadRecord(buf: bytes, off: nat, c: Context) returns (r: Result<Record, MrtError>, end: nat)
    requires off <= |buf| && c.Coherent()
    ensures r == NextRecord(buf[off..], c)
    ensures r.Ok? ==> off + 12 <= |buf| && end == off + 12 + U32(buf[off..], 8) <= |buf|
  {
    end := off;
    if off + 12 > |buf| { return Err(HeaderTruncated), end; }
    HeaderShift(buf, off);
    var timestamp, kind, subtype, length: nat := U32(buf, off), U16(buf, off + 4), U16(buf, off + 6), U32(buf, off + 8);
    var bodyOff := off + 12;
    if bodyOff + length > |buf| { return Err(RecordTruncated), end; }
    var body := buf[bodyOff..bodyOff + length];
    assert body == buf[off..][12..12 + length];
    if kind != TABLE_DUMP_V2 { return Err(NotTableDumpV2), end; }
    if c.first && subtype != SUB_PEER_INDEX_TABLE { return Err(FirstNotPeerTable), end; }
    if subtype == SUB_PEER_INDEX_TABLE {
      r := ReadPeerTable(body, timestamp);
    } else if subtype == SUB_RIB_IPV4_UNICAST || subtype == SUB_RIB_IPV6_UNICAST {
      r := ReadRib(body, timestamp, subtype == SUB_RIB_IPV6_UNICAST, c);
    } else {
      return Err(UnknownSubtype), end;
    }
    end := bodyOff + length;
  }

  lemma RecordStep(buf: bytes, off: nat, c: Context, rs: seq<Record>, r: Record)
    requires c.Coherent() && off < |buf| && NextRecord(buf[off..], c) == Ok(r)
    ensures off + 12 <= |buf| && off + 12 + U32(buf[off..], 8) <= |buf|
    ensures Prepend(rs, ParseRecords(buf[off..], c))
         == Prepend(rs + [r], ParseRecords(buf[off + 12 + U32(buf[off..], 8)..], c.Advance(r)))
  {
    hide NextRecord, Prepend;
    var length: nat := U32(buf[off..], 8);
    assert buf[off + 12 + length..] == buf[off..][12 + length..];
    PrependTwice(rs, [r], ParseRecords(buf[off + 12 + length..], c.Advance(r)));
  }

  /**
    The record walk. `Ok` exactly when the octets print a sound dump with the expected counts; that dump
    is then the only one they print, it is returned, and the summary describes it.
   */
  method CheckFile(buf: bytes, expectV4: Option<int>, expectV6: Option<int>)
    returns (r: Result<MrtSummary, MrtError>, read: seq<Record>)
    ensures r == Verdict(buf, expectV4, expectV6)
    ensures r.Ok? <==> exists rs :: Accepted(rs, buf, expectV4, expectV6)
    ensures r.Ok? ==> Accepted(read, buf, expectV4, expectV6) && r.value == Summary(read, |buf|)
  {
    hide NextRecord, Accepted, Summary, Counted;
    read := [];
    VerdictGrammar(buf, expectV4, expectV6);
    if buf == [] { return Err(FileEmpty), read; }
    var s := MrtSummary(|buf|, 0, [], 0, 0, 0, {}, 0, None, None);
    EmptySummary(|buf|);
    var families: seq<bool> := [];
    var count: nat := 0;
    var off := 0;
    var first := true;
    assert buf[0..] == buf;
    PrependNil(ParseRecords(buf, START));
    while off < |buf|
      invariant off <= |buf|
      invariant Context(first, families, count).Coherent()
      invariant ParseRecords(buf, START) == Prepend(read, ParseRecords(buf[off..], Context(first, families, count)))
      invariant s == Summary(read, |buf|)
    {
      var record, end := ReadRecord(buf, off, Context(first, families, count));
      if record.Err? { return Err(record.error), read; }
      RecordStep(buf, off, Context(first, families, count), read, record.value);
      SummaryCounts(read, record.value, |buf|);
      first := false;
      if record.value.PeerTable? {
        families, count := families + FamiliesOf(record.value.peers), |record.value.peers|;
      }
      s := Counted(s, record.value);
      off := end;
      read := read + [record.value];
    }
    assert buf[off..] == [];
    assert read + [] == read;
    if s.peers == [] { return Err(NoPeers), read; }
    if expectV4.Some? && s.prefixesV4 != expectV4.value { return Err(WrongV4Count), read; }
    if expectV6.Some? && s.prefixesV6 != expectV6.value { return Err(WrongV6Count), read; }
    r := Ok(s);
  }

  // ---- what acceptance means ----

  /** The last peer table among the first `i` records; -1 if there is none. */
  function TableBefore(rs: seq<Record>, i: nat): (t: int)
    requires i <= |rs|
    ensures -1 <= t < i && (t >= 0 ==> rs[t].PeerTable?)
  {
    if i == 0 then -1 else if rs[i - 1].PeerTable? then i - 1 else TableBefore(rs, i - 1)
  }

  /** What the reader knows before record `i`. */
  function Before(rs: seq<Record>, i: nat): Context
    requires i <= |rs|
  {
    After(rs[..i], START)
  }

  lemma BeforeNext(rs: seq<Record>, i: nat)
    requires i < |rs|
    ensures Before(rs, i + 1) == Before(rs, i).Advance(rs[i])
    ensures RecordsValid(rs[..i + 1], START) <==> RecordsValid(rs[..i], START) && RecordValid(rs[i], Before(rs, i))
  {
    hide RecordValid;
    assert rs[..i + 1] == rs[..i] + [rs[i]];
    RecordsValidAppend(rs[..i], rs[i], START);
  }

  lemma {:induction false} SoundAt(rs: seq<Record>, i: nat, n: nat)
    requires i < n <= |rs| && RecordsValid(rs[..n], START)
    ensures RecordValid(rs[i], Before(rs, i))
  {
    hide RecordValid, RecordsValid;
    BeforeNext(rs, n - 1);
    if i < n - 1 {
      SoundAt(rs, i, n - 1);
    }
  }

  /** Between two tables the reader's knowledge does not change: the count is the last table's. */
  lemma {:induction false} KnowledgeIsTables(rs: seq<Record>, i: nat)
    requires i <= |rs|
    ensures var t := TableBefore(rs, i);
            if t < 0 then Before(rs, i).count == 0 && Before(rs, i).families == []
            else Before(rs, i).count == |rs[t].peers| && Before(rs, i).families == Before(rs, t + 1).families
                 && Before(rs, t + 1).count == |rs[t].peers|
  {
    if i > 0 {
      BeforeNext(rs, i - 1);
      KnowledgeIsTables(rs, i - 1);
      hide After;
    }
  }

  /** The families of every table are the first ones of those declared so far, its own included. */
  predicate FamiliesRepeat(rs: seq<Record>) {
    forall t | 0 <= t < |rs| && rs[t].PeerTable? ::
      FamiliesOf(rs[t].peers) <= Before(rs, t).families + FamiliesOf(rs[t].peers)
  }

  /** Whatever index and family the reader would let through at any record is right for the last table. */
  predicate FamiliesRight(rs: seq<Record>) {
    forall i | 0 <= i <= |rs| :: RightAt(rs, i)
  }

  /** The peers of the last table. */
  function PeersAt(rs: seq<Record>, i: nat): seq<Peer>
    requires i <= |rs|
  {
    var t := TableBefore(rs, i);
    if t < 0 then [] else rs[t].peers
  }

  predicate RightAt(rs: seq<Record>, i: nat)
    requires i <= |rs|
  {
    Right(Before(rs, i), PeersAt(rs, i))
  }

  predicate Right(c: Context, peers: seq<Peer>) {
    forall v6, index: u16 :: PeerKnown(c, index, v6) ==> index < |peers| && IsV6Peer(peers[index].kind) == v6
  }

  /** `first` does not matter. */
  lemma RightSame(c: Context, d: Context, peers: seq<Peer>)
    requires c.families == d.families && c.count == d.count
    ensures Right(c, peers) <==> Right(d, peers)
  {
    assert forall v6, index: u16 :: PeerKnown(c, index, v6) <==> PeerKnown(d, index, v6);
  }

  /**
    The header comment promises that every entry names an existing peer. In any accepted dump its index is below the
    count of the table it follows; and its peer has the record's family whenever the families of the tables repeat,
    as they do when there is only one.
   */
  lemma EntriesNamePeers(rs: seq<Record>, i: nat, e: Entry)
    requires FileValid(rs) && i < |rs| && rs[i].Rib? && e in rs[i].entries
    ensures var t := TableBefore(rs, i);
            && 0 <= t && e.peerIndex < |rs[t].peers|
            && (FamiliesRepeat(rs) ==> IsV6Peer(rs[t].peers[e.peerIndex].kind) == rs[i].v6)
    ensures (forall j | 0 < j < |rs| :: rs[j].Rib?) ==> FamiliesRepeat(rs)
  {
    hide RecordValid, EntryFormed, PeerKnown, After, FamiliesRepeat;
    assert rs[..|rs|] == rs;
    SoundAt(rs, i, |rs|);
    EntryKnown(rs[i], Before(rs, i), e);
    KnowledgeIsTables(rs, i);
    FamiliesRightExactly(rs);
    KnownBelow(Before(rs, i), e.peerIndex, rs[i].v6);
    assert RightAt(rs, i) <== FamiliesRight(rs);
    OneTableRepeats(rs);
  }

  lemma OneTableRepeats(rs: seq<Record>)
    ensures (forall j | 0 < j < |rs| :: rs[j].Rib?) ==> FamiliesRepeat(rs)
  {
    if (forall j | 0 < j < |rs| :: rs[j].Rib?) && rs != [] {
      assert rs[..0] == [] && Before(rs, 0) == START;
      var first := if rs[0].PeerTable? then rs[0].peers else [];
      assert [] + FamiliesOf(first) == FamiliesOf(first);
    }
  }

  lemma EntryKnown(r: Record, c: Context, e: Entry)
    requires r.Rib? && RecordValid(r, c) && e in r.entries
    ensures PeerKnown(c, e.peerIndex, r.v6)
  {
    hide EntryFormed;
  }

  lemma KnownBelow(c: Context, index: u16, v6: bool)
    requires PeerKnown(c, index, v6)
    ensures index < c.count && c.families != []
  {
  }

  /** One table: right for every index and family exactly when its families are the first of those declared so far. */
  lemma FamilyCheckExact(c: Context, table: Record)
    requires table.PeerTable? && |table.peers| < 0x1_0000
    ensures Right(c.Advance(table), table.peers) <==> FamiliesOf(table.peers) <= c.families + FamiliesOf(table.peers)
  {
    var after := c.Advance(table);
    var fs := FamiliesOf(table.peers);
    if fs <= after.families {
      forall v6, index: u16 | PeerKnown(after, index, v6)
        ensures index < |table.peers| && IsV6Peer(table.peers[index].kind) == v6
      {
        assert fs[index] == after.families[index];
      }
    } else {
      var i: u16 :| i < |fs| && fs[i] != after.families[i];
      assert PeerKnown(after, i, after.families[i]);
    }
  }

  /**
    The reader looks families up among the peers of all tables read so far but bounds the index by the latest table.
    Over a whole accepted dump what it lets through is right exactly when the families of the tables repeat.
   */
  lemma FamiliesRightExactly(rs: seq<Record>)
    requires FileValid(rs)
    ensures FamiliesRight(rs) <==> FamiliesRepeat(rs)
  {
    hide RecordValid, RecordsValid, RightAt, Before;
    assert rs[..|rs|] == rs;
    if FamiliesRight(rs) {
      forall t | 0 <= t < |rs| && rs[t].PeerTable?
        ensures FamiliesOf(rs[t].peers) <= Before(rs, t).families + FamiliesOf(rs[t].peers)
      {
        TableRight(rs, t);
        assert RightAt(rs, t + 1);
      }
    }
    if FamiliesRepeat(rs) {
      forall i | 0 <= i <= |rs|
        ensures RightAt(rs, i)
      {
        SameKnowledge(rs, i);
        if TableBefore(rs, i) >= 0 { TableRight(rs, TableBefore(rs, i)); }
      }
    }
  }

  lemma TableRight(rs: seq<Record>, t: nat)
    requires t < |rs| && rs[t].PeerTable? && RecordsValid(rs[..|rs|], START)
    ensures RightAt(rs, t + 1) <==> FamiliesOf(rs[t].peers) <= Before(rs, t).families + FamiliesOf(rs[t].peers)
  {
    SoundAt(rs, t, |rs|);
    BeforeNext(rs, t);
    FamilyCheckExact(Before(rs, t), rs[t]);
    assert |rs[t].peers| < 0x1_0000 && PeersAt(rs, t + 1) == rs[t].peers;
    hide RecordValid, RecordsValid, Before;
  }

  lemma SameKnowledge(rs: seq<Record>, i: nat)
    requires i <= |rs|
    ensures if TableBefore(rs, i) < 0 then RightAt(rs, i) else RightAt(rs, i) <==> RightAt(rs, TableBefore(rs, i) + 1)
  {
    hide Before;
    KnowledgeIsTables(rs, i);
    var t := TableBefore(rs, i);
    if t >= 0 {
      assert PeersAt(rs, t + 1) == PeersAt(rs, i);
      RightSame(Before(rs, i), Before(rs, t + 1), PeersAt(rs, i));
    }
  }

  /** Such a dump: the second table's only peer is IPv4, and an IPv6 entry naming it is accepted. */
  lemma StaleFamilyAccepted() returns (rs: seq<Record>, e: Entry)
    ensures FileValid(rs) && |rs| == 3 && rs[1].PeerTable? && rs[2].Rib? && rs[2].v6 && e in rs[2].entries
    ensures |rs[1].peers| == 1 && e.peerIndex == 0 && !IsV6Peer(rs[1].peers[0].kind)
  {
    var zeros := seq(16, _ => 0 as byte);
    var hop := Attr(0x80, MP_REACH_NLRI, [16] + zeros);
    e := Entry(0, 0, [hop]);
    var t6 := PeerTable(0, 0, [], [Peer(3, 0, zeros, 1)]);
    var t4 := PeerTable(0, 0, [], [Peer(2, 0, [0, 0, 0, 0], 1)]);
    var rib := Rib(0, true, 0, 0, [], [e]);
    rs := [t6, t4, rib];
    var c0, c1, c := START.Advance(t6), START.Advance(t6).Advance(t4), Context(false, [true, false], 1);
    FlattenOne(PrintAttr, hop);
    FlattenOne(PrintEntry, e);
    FlattenOne(PrintPeer, t4.peers[0]);
    FlattenOne(PrintPeer, t6.peers[0]);
    assert FamiliesOf(t6.peers) == [true] && FamiliesOf(t4.peers) == [false];
    assert c1 == c && rib.entries[0] == e;
    assert hop in [hop] && NextHopCode(true) in CodesOf([hop]);
    assert RecordValid(rib, c) by { assert EntryValid(e, true, c); }
    assert RecordValid(t4, c0) && RecordValid(t6, START);
    SoundTriple(t6, t4, rib);
  }

  lemma SoundTriple(a: Record, b: Record, r: Record)
    requires a.PeerTable? && a.peers != []
    requires RecordValid(a, START) && RecordValid(b, START.Advance(a)) && RecordValid(r, START.Advance(a).Advance(b))
    ensures FileValid([a, b, r])
  {
    hide RecordValid;
    RecordsValidAppend([], a, START);
    RecordsValidAppend([a], b, START);
    RecordsValidAppend([a, b], r, START);
    assert [] + [a] == [a] && [a] + [b] == [a, b] && [a, b] + [r] == [a, b, r];
    FamiliesOfPeers([a, b, r], START);
    assert PeersOf([a, b, r]) == a.peers + PeersOf([b, r]);
  }

  ghost predicate Accepted(rs: seq<Record>, buf: bytes, expectV4: Option<int>, expectV6: Option<int>) {
    && FileValid(rs)
    && PrintFile(rs) == buf
    && (expectV4.Some? ==> |RibsOf(rs, false)| == expectV4.value)
    && (expectV6.Some? ==> |RibsOf(rs, true)| == expectV6.value)
  }

  lemma {:induction false} FamiliesOfPeers(rs: seq<Record>, c: Context)
    ensures |After(rs, c).families| == |c.families| + |PeersOf(rs)|
  {
    if rs != [] {
      FamiliesOfPeers(rs[1..], c.Advance(rs[0]));
    }
  }

  /** The verdict is `Ok` exactly on printed sound dumps, and then summarises the one that was printed. */
  lemma VerdictGrammar(buf: bytes, expectV4: Option<int>, expectV6: Option<int>)
    ensures Verdict(buf, expectV4, expectV6).Ok? <==> exists rs :: Accepted(rs, buf, expectV4, expectV6)
    ensures forall rs :: Accepted(rs, buf, expectV4, expectV6) ==>
      ParseRecords(buf, START) == Ok(rs) && Verdict(buf, expectV4, expectV6) == Ok(Summary(rs, |buf|))
    ensures Verdict(buf, expectV4, expectV6).Ok? ==>
      Accepted(ParseRecords(buf, START).value, buf, expectV4, expectV6)
  {
    forall rs | Accepted(rs, buf, expectV4, expectV6)
      ensures ParseRecords(buf, START) == Ok(rs) && Verdict(buf, expectV4, expectV6) == Ok(Summary(rs, |buf|))
    {
      RecordsGrammar(buf, START, rs);
      FamiliesOfPeers(rs, START);
      assert PrintFile(rs) == PrintRecord(rs[0]) + PrintFile(rs[1..]);
    }
    if Verdict(buf, expectV4, expectV6).Ok? {
      var rs := ParseRecords(buf, START).value;
      RecordsGrammar(buf, START, rs);
      FamiliesOfPeers(rs, START);
      assert Accepted(rs, buf, expectV4, expectV6);
    }
  }
}
