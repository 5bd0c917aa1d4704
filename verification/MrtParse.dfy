/**
  What tests/mrtcheck.py decides, written as a reading of octet strings from the front: one function per
  kind of item, with the source's errors in the source's order. MrtCheck proves the cursor loops compute
  these; the grammar lemmas below say what they mean.
 */
module MrtParse {
  import opened Wrappers
  import opened Bytes
  import opened TableDump

  datatype MrtError =
    | FileEmpty | HeaderTruncated | RecordTruncated | NotTableDumpV2 | FirstNotPeerTable | UnknownSubtype | NoPeers
    | PeerTableShort | PeerCountTruncated | PeerTypeTruncated | PeerTruncated | PeerTableUntiled
    | RibShort | PrefixTooLong | PrefixTruncated | EntryCountTruncated | NoEntries | RibUntiled
    | EntryTruncated | PeerUnknown | PeerFamily | AttrsTruncated | NextHopMissing
    | AttrHeaderTruncated | AttrLengthTruncated | AttrTruncated
    | OriginLength | NextHopLength | MedLength | LargeCommunityLength | CommunityLength
    | MpReachEmpty | MpReachNextHop | MpReachForm | MpReachFamily
    | SegmentTruncated | SegmentKind | SegmentsUntiled
    | WrongV4Count | WrongV6Count

  function Prepend<T>(xs: seq<T>, r: Result<seq<T>, MrtError>): Result<seq<T>, MrtError> {
    match r
    case Ok(ys) => Ok(xs + ys)
    case Err(e) => Err(e)
  }

  // ---- AS_PATH segments ----

  /** The segment walk from `value[q..]`; it looks at segment headers only. */
  function SegmentsError(value: bytes, q: nat): Option<MrtError>
    decreases |value| - q
  {
    if q >= |value| then (if q == |value| then None else Some(SegmentsUntiled))
    else if q + 2 > |value| then Some(SegmentTruncated)
    else if !(1 <= value[q] <= 4) then Some(SegmentKind)
    else var n: int := value[q + 1]; SegmentsError(value, q + 2 + 4 * n)
  }

  lemma {:induction false} AsnsPrinted(asns: seq<u32>)
    ensures |Flatten(PrintAsn, asns)| == 4 * |asns|
  {
    if asns != [] {
      AsnsPrinted(asns[1..]);
    }
  }

  lemma {:induction false} AsnsRead(b: bytes, n: nat) returns (asns: seq<u32>)
    requires |b| == 4 * n
    ensures |asns| == n && Flatten(PrintAsn, asns) == b
  {
    if n == 0 {
      asns := [];
    } else {
      var rest := AsnsRead(b[4..], n - 1);
      BEOfValue(b[0..4]);
      asns := [U32(b, 0)] + rest;
      assert asns[1..] == rest;
      assert b == b[0..4] + b[4..];
    }
  }

  /** The header-only walk ends without complaint exactly on whole numbers of segments. */
  lemma SegmentsGrammar(value: bytes)
    ensures SegmentsError(value, 0).None? <==> IsAsPath(value)
  {
    if SegmentsError(value, 0).None? {
      var segments := SegmentsSound(value, 0);
      assert value[0..] == value;
    }
    if IsAsPath(value) {
      var segments: seq<Segment> :| (forall s <- segments :: SegmentValid(s))
        && Flatten(PrintSegment, segments) == value;
      assert value[0..] == value;
      SegmentsComplete(value, 0, segments);
    }
  }

  lemma {:induction false} SegmentsSound(value: bytes, q: nat) returns (segments: seq<Segment>)
    requires q <= |value|
    requires SegmentsError(value, q).None?
    ensures forall s <- segments :: SegmentValid(s)
    ensures Flatten(PrintSegment, segments) == value[q..]
    decreases |value| - q
  {
    if q == |value| {
      segments := [];
    } else {
      var n: int := value[q + 1];
      var next := q + 2 + 4 * n;
      assert next <= |value|;
      var asns := AsnsRead(value[q + 2..next], n);
      var rest := SegmentsSound(value, next);
      var s := Segment(value[q], asns);
      segments := [s] + rest;
      assert segments[1..] == rest;
      OneOctet(n);
      assert value[q..] == PrintSegment(s) + value[next..];
    }
  }

  lemma SegmentLayout(s: Segment)
    requires SegmentValid(s)
    ensures |PrintSegment(s)| == 2 + 4 * |s.asns|
    ensures PrintSegment(s)[0] == s.kind && PrintSegment(s)[1] == |s.asns|
  {
    AsnsPrinted(s.asns);
    OneOctet(|s.asns|);
  }

  lemma {:induction false} SegmentsComplete(value: bytes, q: nat, segments: seq<Segment>)
    requires q <= |value|
    requires forall s <- segments :: SegmentValid(s)
    requires Flatten(PrintSegment, segments) == value[q..]
    ensures SegmentsError(value, q).None?
    decreases |segments|
  {
    hide PrintSegment;
    if segments == [] {
      assert value[q..] == [];
    } else {
      var head := PrintSegment(segments[0]);
      assert segments[0] in segments;
      SegmentLayout(segments[0]);
      var rest := value[q..];
      assert rest[0] == head[0] && rest[1] == head[1];
      assert value[q + |head|..] == rest[|head|..] == Flatten(PrintSegment, segments[1..]);
      SegmentsComplete(value, q + |head|, segments[1..]);
    }
  }

  // ---- attributes ----

  /** The per-code checks on an attribute body, in the order the source makes them. */
  function ValueError(code: byte, value: bytes, v6: bool): Option<MrtError> {
    if code == ORIGIN && |value| != 1 then Some(OriginLength)
    else if code == NEXT_HOP && |value| != 4 then Some(NextHopLength)
    else if code == MULTI_EXIT_DISC && |value| != 4 then Some(MedLength)
    else if code == LARGE_COMMUNITY && |value| % 12 != 0 then Some(LargeCommunityLength)
    else if code == COMMUNITIES && |value| % 4 != 0 then Some(CommunityLength)
    else if code == MP_REACH_NLRI && |value| < 1 then Some(MpReachEmpty)
    else if code == MP_REACH_NLRI && value[0] !in {4, 16, 32} then Some(MpReachNextHop)
    else if code == MP_REACH_NLRI && |value| != 1 + value[0] then Some(MpReachForm)
    else if code == MP_REACH_NLRI && v6 && value[0] == 4 then Some(MpReachFamily)
    else if code == AS_PATH then SegmentsError(value, 0)
    else None
  }

  function NextAttr(b: bytes, v6: bool): (r: Result<Attr, MrtError>)
    ensures r.Ok? ==> |PrintAttr(r.value)| <= |b|
  {
    if |b| < 2 then Err(AttrHeaderTruncated)
    else
      var extended := ExtendedLength(b[0]);
      var head := if extended then 4 else 3;
      if |b| < head then Err(AttrLengthTruncated)
      else
        var length: nat := if extended then U16(b, 2) else b[2];
        if head + length > |b| then Err(AttrTruncated)
        else
          var value := b[head..head + length];
          match ValueError(b[1], value, v6)
          case Some(e) => Err(e)
          case None => Ok(Attr(b[0], b[1], value))
  }

  function ParseAttrs(b: bytes, v6: bool): Result<seq<Attr>, MrtError>
    decreases |b|
  {
    if b == [] then Ok([])
    else
      var a :- NextAttr(b, v6);
      Prepend([a], ParseAttrs(b[|PrintAttr(a)|..], v6))
  }

  lemma OneOctet(n: byte)
    ensures BE(1, n) == [n]
  {
    assert BE(0, n / 256) == [];
  }

  /** The per-code checks pass exactly on bodies the grammar allows, given a length field that fits. */
  lemma ValueGrammar(a: Attr, v6: bool)
    requires |a.value| < (if ExtendedLength(a.flags) then 0x1_0000 else 0x100)
    ensures ValueError(a.code, a.value, v6).None? <==> AttrValid(a, v6)
  {
    SegmentsGrammar(a.value);
  }

  /** The octets of one attribute, field by field. */
  lemma AttrLayout(a: Attr)
    requires |a.value| < (if ExtendedLength(a.flags) then 0x1_0000 else 0x100)
    ensures var p := PrintAttr(a);
            && |p| == (if ExtendedLength(a.flags) then 4 else 3) + |a.value|
            && p[0] == a.flags && p[1] == a.code
            && (ExtendedLength(a.flags) ==> U16(p, 2) == |a.value| && p[4..] == a.value)
            && (!ExtendedLength(a.flags) ==> p[2] == |a.value| && p[3..] == a.value)
  {
    var p := PrintAttr(a);
    if ExtendedLength(a.flags) {
      assert p[2..4] == BE(2, |a.value|);
      U16Printed(p, 2, |a.value|);
    } else {
      OneOctet(|a.value|);
    }
  }

  lemma AttrSound(b: bytes, v6: bool)
    requires NextAttr(b, v6).Ok?
    ensures var a := NextAttr(b, v6).value; AttrValid(a, v6) && PrintAttr(a) <= b
  {
    var a := NextAttr(b, v6).value;
    ValueGrammar(a, v6);
    if ExtendedLength(a.flags) {
      U16Read(b, 2);
      assert b[..4] == [a.flags, a.code] + b[2..4];
      assert b[..4 + |a.value|] == b[..4] + a.value;
    } else {
      OneOctet(|a.value|);
      assert b[..3 + |a.value|] == [a.flags, a.code, b[2]] + a.value;
    }
  }

  lemma AttrComplete(a: Attr, v6: bool, rest: bytes)
    requires AttrValid(a, v6)
    ensures NextAttr(PrintAttr(a) + rest, v6) == Ok(a)
  {
    ValueGrammar(a, v6);
    AttrLayout(a);
    var b := PrintAttr(a) + rest;
    if ExtendedLength(a.flags) {
      assert b[2..4] == PrintAttr(a)[2..4];
      assert b[4..4 + |a.value|] == PrintAttr(a)[4..];
    } else {
      assert b[3..3 + |a.value|] == PrintAttr(a)[3..];
    }
  }

  /** The attribute walk accepts exactly the printed attribute lists, and reads back the one printed. */
  lemma AttrsGrammar(b: bytes, v6: bool, attrs: seq<Attr>)
    ensures ParseAttrs(b, v6) == Ok(attrs) <==> AttrsValid(attrs, v6) && PrintAttrs(attrs) == b
  {
    if ParseAttrs(b, v6) == Ok(attrs) { AttrsSound(b, v6); }
    if AttrsValid(attrs, v6) && PrintAttrs(attrs) == b { AttrsComplete(attrs, v6); }
  }

  lemma {:induction false} AttrsSound(b: bytes, v6: bool)
    requires ParseAttrs(b, v6).Ok?
    ensures var attrs := ParseAttrs(b, v6).value; AttrsValid(attrs, v6) && PrintAttrs(attrs) == b
    decreases |b|
  {
    hide AttrValid, PrintAttr, NextAttr;
    if b != [] {
      AttrSound(b, v6);
      var a := NextAttr(b, v6).value;
      var rest := b[|PrintAttr(a)|..];
      AttrsSound(rest, v6);
      assert ParseAttrs(b, v6).value[1..] == ParseAttrs(rest, v6).value;
      assert b == PrintAttr(a) + rest;
    }
  }

  lemma {:induction false} AttrsComplete(attrs: seq<Attr>, v6: bool)
    requires AttrsValid(attrs, v6)
    ensures ParseAttrs(PrintAttrs(attrs), v6) == Ok(attrs)
  {
    hide AttrValid, PrintAttr, NextAttr;
    if attrs != [] {
      var b := PrintAttrs(attrs);
      assert attrs[0] in attrs;
      AttrComplete(attrs[0], v6, PrintAttrs(attrs[1..]));
      assert b[|PrintAttr(attrs[0])|..] == PrintAttrs(attrs[1..]);
      AttrsComplete(attrs[1..], v6);
      assert attrs == [attrs[0]] + attrs[1..];
    }
  }

  // ---- peers ----

  function NextPeer(b: bytes): (r: Result<Peer, MrtError>)
    ensures r.Ok? ==> PeerValid(r.value) && |PrintPeer(r.value)| <= |b|
  {
    if |b| < 1 then Err(PeerTypeTruncated)
    else
      var width := if IsV6Peer(b[0]) then 16 else 4;
      if 5 + width + AsnWidth(b[0]) > |b| then Err(PeerTruncated)
      else
        var asn: u32 := if IsAs4Peer(b[0]) then U32(b, 5 + width) else U16(b, 5 + width);
        Ok(Peer(b[0], U32(b, 1), b[5..5 + width], asn))
  }

  /** Exactly `n` peers and nothing after them. */
  function ParsePeers(b: bytes, n: nat): (r: Result<seq<Peer>, MrtError>)
    ensures r.Ok? ==> |r.value| == n
  {
    if n == 0 then (if b == [] then Ok([]) else Err(PeerTableUntiled))
    else
      var p :- NextPeer(b);
      Prepend([p], ParsePeers(b[|PrintPeer(p)|..], n - 1))
  }

  function ParsePeerTable(body: bytes, timestamp: u32): (r: Result<Record, MrtError>)
    ensures r.Ok? ==> r.value.PeerTable?
  {
    if |body| < 6 then Err(PeerTableShort)
    else
      var p: nat := 6 + U16(body, 4);
      if p + 2 > |body| then Err(PeerCountTruncated)
      else
        var peers :- ParsePeers(body[p + 2..], U16(body, p));
        Ok(PeerTable(timestamp, U32(body, 0), body[6..p], peers))
  }

  /** The octets of one peer, field by field. */
  lemma PeerLayout(p: Peer, b: bytes)
    requires PeerValid(p)
    requires |b| == 5 + |p.address| + AsnWidth(p.kind)
    ensures var w := |p.address|;
            b == PrintPeer(p) <==>
              && b[0] == p.kind && U32(b, 1) == p.bgpId && b[5..5 + w] == p.address
              && (if IsAs4Peer(p.kind) then U32(b, 5 + w) else U16(b, 5 + w)) == p.asn
  {
    var w := |p.address|;
    var s := PrintPeer(p);
    U32Read(b, 1);
    if IsAs4Peer(p.kind) { U32Read(b, 5 + w); } else { U16Read(b, 5 + w); }
    assert b[..1] == [b[0]];
    Glue(b, 1, 5);
    Glue(b, 5, 5 + w);
    Glue(b, 5 + w, |b|);
    assert b[..|b|] == b;
    assert s == [s[0]] + s[1..5] + s[5..5 + w] + s[5 + w..];
    assert s[0] == p.kind && s[1..5] == BE(4, p.bgpId) && s[5..5 + w] == p.address;
    assert s[5 + w..] == BE(AsnWidth(p.kind), p.asn);
    if b == s {
      U32Printed(b, 1, p.bgpId);
      if IsAs4Peer(p.kind) { U32Printed(b, 5 + w, p.asn); } else { U16Printed(b, 5 + w, p.asn); }
    }
  }

  lemma PeerSound(b: bytes)
    requires NextPeer(b).Ok?
    ensures PrintPeer(NextPeer(b).value) <= b
  {
    var p := NextPeer(b).value;
    var n := |PrintPeer(p)|;
    assert U32(b[..n], 1) == U32(b, 1) by { assert b[..n][1..5] == b[1..5]; }
    PeerFieldsOfPrefix(b, n, p);
    PeerLayout(p, b[..n]);
  }

  lemma PeerFieldsOfPrefix(b: bytes, n: nat, p: Peer)
    requires n == 5 + |p.address| + AsnWidth(p.kind) <= |b|
    ensures U32(b[..n], 1) == U32(b, 1)
    ensures b[..n][5..5 + |p.address|] == b[5..5 + |p.address|]
    ensures IsAs4Peer(p.kind) ==> U32(b[..n], 5 + |p.address|) == U32(b, 5 + |p.address|)
    ensures !IsAs4Peer(p.kind) ==> U16(b[..n], 5 + |p.address|) == U16(b, 5 + |p.address|)
  {
    var w := |p.address|;
    assert b[..n][1..5] == b[1..5];
    assert IsAs4Peer(p.kind) ==> b[..n][5 + w..5 + w + 4] == b[5 + w..5 + w + 4];
    assert !IsAs4Peer(p.kind) ==> b[..n][5 + w..5 + w + 2] == b[5 + w..5 + w + 2];
  }

  lemma PeerComplete(p: Peer, rest: bytes)
    requires PeerValid(p)
    ensures NextPeer(PrintPeer(p) + rest) == Ok(p)
  {
    var b := PrintPeer(p) + rest;
    var n := |PrintPeer(p)|;
    PeerLayout(p, PrintPeer(p));
    assert b[..n] == PrintPeer(p);
    PeerFieldsOfPrefix(b, n, p);
  }

  lemma {:induction false} PeersSound(b: bytes, n: nat)
    requires ParsePeers(b, n).Ok?
    ensures var peers := ParsePeers(b, n).value;
            (forall p <- peers :: PeerValid(p)) && Flatten(PrintPeer, peers) == b
  {
    if n > 0 {
      PeerSound(b);
      var p := NextPeer(b).value;
      var rest := b[|PrintPeer(p)|..];
      PeersSound(rest, n - 1);
      assert ParsePeers(b, n).value[1..] == ParsePeers(rest, n - 1).value;
      assert b == PrintPeer(p) + rest;
    }
  }

  lemma {:induction false} PeersComplete(peers: seq<Peer>)
    requires forall p <- peers :: PeerValid(p)
    ensures ParsePeers(Flatten(PrintPeer, peers), |peers|) == Ok(peers)
  {
    if peers != [] {
      var rest := Flatten(PrintPeer, peers[1..]);
      assert peers[0] in peers;
      PeerComplete(peers[0], rest);
      assert Flatten(PrintPeer, peers)[|PrintPeer(peers[0])|..] == rest;
      PeersComplete(peers[1..]);
      assert peers == [peers[0]] + peers[1..];
    }
  }

  lemma PeerTableSound(body: bytes, timestamp: u32, c: Context)
    requires |body| < 0x1_0000_0000
    requires ParsePeerTable(body, timestamp).Ok?
    ensures var r := ParsePeerTable(body, timestamp).value; RecordValid(r, c) && PrintBody(r) == body
  {
    var r := ParsePeerTable(body, timestamp).value;
    var p: nat := 6 + U16(body, 4);
    PeersSound(body[p + 2..], U16(body, p));
    PeerTableLayout(body);
    assert PrintBody(r) == body;
  }

  lemma PeerTableLayout(body: bytes)
    requires |body| >= 6 && 8 + U16(body, 4) <= |body|
    ensures var p: nat := 6 + U16(body, 4);
            body == BE(4, U32(body, 0)) + BE(2, U16(body, 4)) + body[6..p] + BE(2, U16(body, p)) + body[p + 2..]
  {
    var p: nat := 6 + U16(body, 4);
    U32Read(body, 0);
    U16Read(body, 4);
    U16Read(body, p);
    assert body[..4] == body[0..4];
    Glue(body, 4, 6);
    Glue(body, 6, p);
    Glue(body, p, p + 2);
    assert body == body[..p + 2] + body[p + 2..];
  }

  lemma PeerTableComplete(r: Record, c: Context)
    requires r.PeerTable? && RecordValid(r, c)
    ensures ParsePeerTable(PrintBody(r), r.timestamp) == Ok(r)
  {
    var b := PrintBody(r);
    var p: nat := 6 + |r.view|;
    assert b[0..4] == BE(4, r.collector) && b[4..6] == BE(2, |r.view|);
    U32Printed(b, 0, r.collector);
    U16Printed(b, 4, |r.view|);
    assert b[6..p] == r.view && b[p..p + 2] == BE(2, |r.peers|);
    U16Printed(b, p, |r.peers|);
    assert b[p + 2..] == Flatten(PrintPeer, r.peers);
    PeersComplete(r.peers);
  }

  // ---- RIB entries ----

  function NextEntry(b: bytes, v6: bool, c: Context): (r: Result<Entry, MrtError>)
    requires c.Coherent()
  {
    if |b| < 8 then Err(EntryTruncated)
    else
      var peerIndex, length: nat := U16(b, 0), U16(b, 6);
      if peerIndex >= c.count then Err(PeerUnknown)
      else if c.families[peerIndex] != v6 then Err(PeerFamily)
      else if 8 + length > |b| then Err(AttrsTruncated)
      else
        var attrs :- ParseAttrs(b[8..8 + length], v6);
        if NextHopCode(v6) !in CodesOf(attrs) then Err(NextHopMissing)
        else Ok(Entry(peerIndex, U32(b, 2), attrs))
  }

  /** Exactly `n` entries and nothing after them. */
  function ParseEntries(b: bytes, n: nat, v6: bool, c: Context): (r: Result<seq<Entry>, MrtError>)
    requires c.Coherent()
    ensures r.Ok? ==> |r.value| == n
  {
    if n == 0 then (if b == [] then Ok([]) else Err(RibUntiled))
    else
      var e :- NextEntry(b, v6, c);
      var length: nat := U16(b, 6);
      Prepend([e], ParseEntries(b[8 + length..], n - 1, v6, c))
  }

  function ParseRib(body: bytes, timestamp: u32, v6: bool, c: Context): (r: Result<Record, MrtError>)
    requires c.Coherent()
    ensures r.Ok? ==> r.value.Rib?
  {
    if |body| < 7 then Err(RibShort)
    else
      var plen := body[4];
      if plen > (if v6 then 128 else 32) then Err(PrefixTooLong)
      else
        var p: nat := 5 + (plen + 7) / 8;
        if p > |body| then Err(PrefixTruncated)
        else if p + 2 > |body| then Err(EntryCountTruncated)
        else if U16(body, p) == 0 then Err(NoEntries)
        else
          var entries :- ParseEntries(body[p + 2..], U16(body, p), v6, c);
          Ok(Rib(timestamp, v6, U32(body, 0), plen, body[5..p], entries))
  }

  lemma EntryLayout(b: bytes)
    requires |b| >= 8 && 8 + U16(b, 6) <= |b|
    ensures var n: nat := 8 + U16(b, 6);
            b[..n] == BE(2, U16(b, 0)) + BE(4, U32(b, 2)) + BE(2, U16(b, 6)) + b[8..n]
  {
    var n: nat := 8 + U16(b, 6);
    U16Read(b, 0);
    U32Read(b, 2);
    U16Read(b, 6);
    assert b[..2] == b[0..2];
    Glue(b, 2, 6);
    Glue(b, 6, 8);
    Glue(b, 8, n);
  }

  lemma EntrySound(b: bytes, v6: bool, c: Context)
    requires c.Coherent() && NextEntry(b, v6, c).Ok?
    ensures |b| >= 8 && 8 + U16(b, 6) <= |b|
    ensures var e := NextEntry(b, v6, c).value;
            EntryValid(e, v6, c) && PrintEntry(e) == b[..8 + U16(b, 6)]
  {
    var attrs := b[8..8 + U16(b, 6)];
    AttrsSound(attrs, v6);
    EntryLayout(b);
  }

  lemma EntryComplete(e: Entry, v6: bool, c: Context, rest: bytes)
    requires c.Coherent() && EntryValid(e, v6, c)
    ensures NextEntry(PrintEntry(e) + rest, v6, c) == Ok(e)
    ensures |PrintEntry(e)| == 8 + U16(PrintEntry(e) + rest, 6)
  {
    var b := PrintEntry(e) + rest;
    var attrs := PrintAttrs(e.attrs);
    assert b[0..2] == BE(2, e.peerIndex) && b[2..6] == BE(4, e.originated) && b[6..8] == BE(2, |attrs|);
    U16Printed(b, 0, e.peerIndex);
    U32Printed(b, 2, e.originated);
    U16Printed(b, 6, |attrs|);
    assert b[8..8 + |attrs|] == attrs;
    AttrsComplete(e.attrs, v6);
  }

  lemma {:induction false} EntriesSound(b: bytes, n: nat, v6: bool, c: Context)
    requires c.Coherent() && ParseEntries(b, n, v6, c).Ok?
    ensures forall e <- ParseEntries(b, n, v6, c).value :: EntryValid(e, v6, c)
    ensures Flatten(PrintEntry, ParseEntries(b, n, v6, c).value) == b
  {
    hide EntryValid, PrintEntry, NextEntry;
    if n > 0 {
      EntrySound(b, v6, c);
      var e, length: nat := NextEntry(b, v6, c).value, U16(b, 6);
      var rest := b[8 + length..];
      EntriesSound(rest, n - 1, v6, c);
      FlattenCons(PrintEntry, e, ParseEntries(rest, n - 1, v6, c).value);
      assert b == b[..8 + length] + rest;
    }
  }

  lemma {:induction false} EntriesComplete(es: seq<Entry>, v6: bool, c: Context)
    requires c.Coherent() && forall e <- es :: EntryValid(e, v6, c)
    ensures ParseEntries(Flatten(PrintEntry, es), |es|, v6, c) == Ok(es)
  {
    hide EntryValid, PrintEntry, NextEntry;
    if es != [] {
      var rest := Flatten(PrintEntry, es[1..]);
      assert es[0] in es;
      EntryComplete(es[0], v6, c, rest);
      assert Flatten(PrintEntry, es)[|PrintEntry(es[0])|..] == rest;
      EntriesComplete(es[1..], v6, c);
      assert es == [es[0]] + es[1..];
    }
  }

  lemma RibLayout(body: bytes, p: nat)
    requires 5 <= p && p + 2 <= |body|
    ensures body == BE(4, U32(body, 0)) + [body[4]] + body[5..p] + BE(2, U16(body, p)) + body[p + 2..]
  {
    U32Read(body, 0);
    U16Read(body, p);
    assert body[..4] == body[0..4];
    assert body[..5] == body[..4] + [body[4]];
    Glue(body, 5, p);
    Glue(body, p, p + 2);
    assert body == body[..p + 2] + body[p + 2..];
  }

  lemma RibSound(body: bytes, timestamp: u32, v6: bool, c: Context)
    requires |body| < 0x1_0000_0000 && c.Coherent() && !c.first
    requires ParseRib(body, timestamp, v6, c).Ok?
    ensures var r := ParseRib(body, timestamp, v6, c).value; RecordValid(r, c) && PrintBody(r) == body
  {
    hide EntryValid, ParseEntries, PrintEntry, BE, Flatten, U16, U32;
    var p: nat := 5 + (body[4] + 7) / 8;
    EntriesSound(body[p + 2..], U16(body, p), v6, c);
    RibLayout(body, p);
    assert PrintBody(ParseRib(body, timestamp, v6, c).value) == body;
  }

  lemma RibComplete(r: Record, c: Context)
    requires c.Coherent() && r.Rib? && RecordValid(r, c)
    ensures ParseRib(PrintBody(r), r.timestamp, r.v6, c) == Ok(r)
  {
    hide EntryValid, PrintEntry, ParseEntries;
    var b := PrintBody(r);
    var p: nat := 5 + |r.prefix|;
    assert b[0..4] == BE(4, r.number) && b[4] == r.plen && b[5..p] == r.prefix && b[p..p + 2] == BE(2, |r.entries|);
    U32Printed(b, 0, r.number);
    U16Printed(b, p, |r.entries|);
    assert b[p + 2..] == Flatten(PrintEntry, r.entries);
    EntriesComplete(r.entries, r.v6, c);
  }

  // ---- records ----

  function ParseBody(body: bytes, timestamp: u32, subtype: u16, c: Context): Result<Record, MrtError>
    requires c.Coherent()
  {
    if subtype == SUB_PEER_INDEX_TABLE then ParsePeerTable(body, timestamp)
    else if subtype == SUB_RIB_IPV4_UNICAST then ParseRib(body, timestamp, false, c)
    else if subtype == SUB_RIB_IPV6_UNICAST then ParseRib(body, timestamp, true, c)
    else Err(UnknownSubtype)
  }

  function NextRecord(b: bytes, c: Context): (r: Result<Record, MrtError>)
    requires c.Coherent()
    ensures r.Ok? ==> |b| >= 12 && 12 + U32(b, 8) <= |b|
  {
    if |b| < 12 then Err(HeaderTruncated)
    else
      var timestamp, subtype, length: nat := U32(b, 0), U16(b, 6), U32(b, 8);
      if 12 + length > |b| then Err(RecordTruncated)
      else if U16(b, 4) != TABLE_DUMP_V2 then Err(NotTableDumpV2)
      else if c.first && subtype != SUB_PEER_INDEX_TABLE then Err(FirstNotPeerTable)
      else
        ParseBody(b[12..12 + length], timestamp, subtype, c)
  }

  function ParseRecords(b: bytes, c: Context): Result<seq<Record>, MrtError>
    requires c.Coherent()
    decreases |b|
  {
    if b == [] then Ok([])
    else
      var r :- NextRecord(b, c);
      var length: nat := U32(b, 8);
      Prepend([r], ParseRecords(b[12 + length..], c.Advance(r)))
  }

  lemma RecordLayout(b: bytes)
    requires |b| >= 12 && 12 + U32(b, 8) <= |b|
    ensures var n: nat := 12 + U32(b, 8);
            b[..n] == BE(4, U32(b, 0)) + BE(2, U16(b, 4)) + BE(2, U16(b, 6)) + BE(4, U32(b, 8)) + b[12..n]
  {
    U32Read(b, 0);
    U16Read(b, 4);
    U16Read(b, 6);
    U32Read(b, 8);
    assert b[..4] == b[0..4];
    Glue(b, 4, 6);
    Glue(b, 6, 8);
    Glue(b, 8, 12);
    Glue(b, 12, 12 + U32(b, 8));
  }

  lemma BodySound(body: bytes, timestamp: u32, subtype: u16, c: Context)
    requires |body| < 0x1_0000_0000 && c.Coherent()
    requires c.first ==> subtype == SUB_PEER_INDEX_TABLE
    requires ParseBody(body, timestamp, subtype, c).Ok?
    ensures var r := ParseBody(body, timestamp, subtype, c).value;
            RecordValid(r, c) && PrintBody(r) == body && Subtype(r) == subtype && r.timestamp == timestamp
  {
    if subtype == SUB_PEER_INDEX_TABLE {
      PeerTableSound(body, timestamp, c);
    } else {
      RibSound(body, timestamp, subtype == SUB_RIB_IPV6_UNICAST, c);
    }
  }

  lemma RecordSound(b: bytes, c: Context)
    requires c.Coherent() && NextRecord(b, c).Ok?
    ensures var r := NextRecord(b, c).value;
            RecordValid(r, c) && PrintRecord(r) == b[..12 + U32(b, 8)]
  {
    var body := b[12..12 + U32(b, 8)];
    BodySound(body, U32(b, 0), U16(b, 6), c);
    RecordLayout(b);
  }

  lemma RecordComplete(r: Record, c: Context, rest: bytes)
    requires c.Coherent() && RecordValid(r, c)
    ensures NextRecord(PrintRecord(r) + rest, c) == Ok(r)
    ensures U32(PrintRecord(r) + rest, 8) == |PrintBody(r)|
  {
    var b := PrintRecord(r) + rest;
    var body := PrintBody(r);
    assert b[0..4] == BE(4, r.timestamp) && b[4..6] == BE(2, TABLE_DUMP_V2);
    assert b[6..8] == BE(2, Subtype(r)) && b[8..12] == BE(4, |body|);
    U32Printed(b, 0, r.timestamp);
    U16Printed(b, 4, TABLE_DUMP_V2);
    U16Printed(b, 6, Subtype(r));
    U32Printed(b, 8, |body|);
    assert b[12..12 + |body|] == body;
    BodyComplete(r, c);
    hide PrintBody, ParseBody;
  }

  lemma BodyComplete(r: Record, c: Context)
    requires c.Coherent() && RecordValid(r, c)
    ensures ParseBody(PrintBody(r), r.timestamp, Subtype(r), c) == Ok(r)
    ensures c.first ==> Subtype(r) == SUB_PEER_INDEX_TABLE
  {
    hide PrintBody, ParsePeerTable, ParseRib;
    if r.PeerTable? { PeerTableComplete(r, c); } else { RibComplete(r, c); }
  }

  lemma RecordsCons(r: Record, rs: seq<Record>, c: Context)
    ensures RecordsValid([r] + rs, c) <==> RecordValid(r, c) && RecordsValid(rs, c.Advance(r))
    ensures PrintFile([r] + rs) == PrintRecord(r) + PrintFile(rs)
  {
    hide RecordValid, PrintRecord;
    assert ([r] + rs)[1..] == rs;
  }

  lemma {:induction false} RecordsSound(b: bytes, c: Context)
    requires c.Coherent() && ParseRecords(b, c).Ok?
    ensures RecordsValid(ParseRecords(b, c).value, c)
    ensures PrintFile(ParseRecords(b, c).value) == b
    decreases |b|
  {
    hide RecordValid, PrintRecord, NextRecord, RecordsValid, PrintFile;
    if b == [] {
      EmptyFile(c);
    } else {
      RecordSound(b, c);
      var r, length: nat := NextRecord(b, c).value, U32(b, 8);
      var rest := b[12 + length..];
      RecordsSound(rest, c.Advance(r));
      RecordsCons(r, ParseRecords(rest, c.Advance(r)).value, c);
      assert b == b[..12 + length] + rest;
    }
  }

  lemma EmptyFile(c: Context)
    ensures RecordsValid([], c) && PrintFile([]) == []
  {
  }

  lemma {:induction false} RecordsComplete(rs: seq<Record>, c: Context)
    requires c.Coherent() && RecordsValid(rs, c)
    ensures ParseRecords(PrintFile(rs), c) == Ok(rs)
  {
    hide RecordValid, PrintRecord, NextRecord;
    if rs != [] {
      var rest := PrintFile(rs[1..]);
      RecordComplete(rs[0], c, rest);
      assert PrintFile(rs)[|PrintRecord(rs[0])|..] == rest;
      RecordsComplete(rs[1..], c.Advance(rs[0]));
      assert rs == [rs[0]] + rs[1..];
    }
  }

  /**
    The whole reader against the grammar: octets are read as `rs` exactly when `rs` is sound where it
    stands and prints to those octets. One dump therefore has at most one reading.
   */
  lemma RecordsGrammar(b: bytes, c: Context, rs: seq<Record>)
    requires c.Coherent()
    ensures ParseRecords(b, c) == Ok(rs) <==> RecordsValid(rs, c) && PrintFile(rs) == b
  {
    if ParseRecords(b, c).Ok? { RecordsSound(b, c); }
    if RecordsValid(rs, c) { RecordsComplete(rs, c); }
  }
}
