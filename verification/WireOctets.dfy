/**
  The wire format in octets, with every number written out: sections 2 and 4.3 of RFC 6396, section 4.3 of RFC 4271
  and RFC 8092. The grammar, the reader and the encoders share their names for these numbers; this is what the
  names stand for.
 */
module WireOctets {
  import opened Wrappers
  import opened Bytes
  import opened TableDump
  import opened MrtParse
  import opened MrtCheck
  import opened RouteGen
  import opened MrtWriting

  // ---- records ----

  /** Where record `i` starts. */
  function OffsetOf(rs: seq<Record>, i: nat): nat
    requires i <= |rs|
  {
    |PrintFile(rs[..i])|
  }

  /** The octets of a record stand at its offset. */
  lemma RecordAt(rs: seq<Record>, i: nat)
    requires i < |rs|
    ensures OffsetOf(rs, i) + |PrintRecord(rs[i])| <= |PrintFile(rs)|
    ensures PrintFile(rs)[OffsetOf(rs, i)..OffsetOf(rs, i) + |PrintRecord(rs[i])|] == PrintRecord(rs[i])
  {
    hide PrintRecord, Flatten;
    var before, rest := rs[..i], rs[i + 1..];
    assert rs == before + ([rs[i]] + rest);
    FlattenAppend(PrintRecord, before, [rs[i]] + rest);
    FlattenCons(PrintRecord, rs[i], rest);
  }

  lemma NextOffset(rs: seq<Record>, i: nat)
    requires i < |rs|
    ensures OffsetOf(rs, i + 1) == OffsetOf(rs, i) + |PrintRecord(rs[i])|
  {
    hide PrintRecord, Flatten;
    FlattenAppend(PrintRecord, rs[..i], [rs[i]]);
    FlattenOne(PrintRecord, rs[i]);
    assert rs[..i + 1] == rs[..i] + [rs[i]];
  }

  /** At offset `o` the octets announce record `r`, and by their length field the record after it starts at `next`. */
  predicate Announced(buf: bytes, o: nat, r: Record, next: nat) {
    && o + 12 <= |buf|
    && buf[o + 4..o + 8] == (if r.PeerTable? then [0, 13, 0, 1] else if r.v6 then [0, 13, 0, 4] else [0, 13, 0, 2])
    && var l0: int, l1: int, l2: int, l3: int := buf[o + 8], buf[o + 9], buf[o + 10], buf[o + 11];
    && next == o + 12 + 0x100_0000 * l0 + 0x1_0000 * l1 + 256 * l2 + l3
  }

  /**
    In every accepted file the records are announced one after the other by the octets of their kinds, from the first
    octet to the last. The reader returns these records, and there are no others.
   */
  lemma AcceptedKinds(rs: seq<Record>, buf: bytes, expectV4: Option<int>, expectV6: Option<int>, i: nat)
    requires Accepted(rs, buf, expectV4, expectV6) && i < |rs|
    ensures Announced(buf, OffsetOf(rs, i), rs[i], OffsetOf(rs, i + 1))
    ensures OffsetOf(rs, 0) == 0 && OffsetOf(rs, |rs|) == |buf|
  {
    hide RibsOf, PrintRecord, PrintBody, PrintFile, OffsetOf, RecordsValid, After, RecordValid, KindOctets;
    BodyFits(rs, START, i);
    PrintedKind(rs, i);
    FourOctets(|PrintBody(rs[i])|);
    OffsetEnds(rs);
    LengthRead(buf, OffsetOf(rs, i), |PrintBody(rs[i])|);
    KindNamed(rs[i]);
  }

  lemma KindNamed(r: Record)
    ensures KindOctets(r) == if r.PeerTable? then [0, 13, 0, 1] else if r.v6 then [0, 13, 0, 4] else [0, 13, 0, 2]
  {
  }

  lemma OffsetEnds(rs: seq<Record>)
    ensures OffsetOf(rs, 0) == 0 && OffsetOf(rs, |rs|) == |PrintFile(rs)|
  {
    hide PrintRecord;
    assert rs[..|rs|] == rs;
    assert rs[..0] == [];
  }

  lemma LengthRead(buf: bytes, o: nat, n: nat)
    requires o + 12 <= |buf| && n < 0x1_0000_0000 && buf[o + 8..o + 12] == BE(4, n)
    ensures var l0: int, l1: int, l2: int, l3: int := buf[o + 8], buf[o + 9], buf[o + 10], buf[o + 11];
            n == 0x100_0000 * l0 + 0x1_0000 * l1 + 256 * l2 + l3
  {
    FourOctets(n);
    var s := buf[o + 8..o + 12];
    assert buf[o + 8] == s[0] && buf[o + 9] == s[1] && buf[o + 10] == s[2] && buf[o + 11] == s[3];
  }

  lemma {:induction false} BodyFits(rs: seq<Record>, c: Context, i: nat)
    requires RecordsValid(rs, c) && i < |rs|
    ensures |PrintBody(rs[i])| < 0x1_0000_0000
  {
    hide PrintBody;
    if i > 0 { BodyFits(rs[1..], c.Advance(rs[0]), i - 1); }
  }

  lemma PrintedKind(rs: seq<Record>, i: nat)
    requires i < |rs|
    ensures OffsetOf(rs, i) + 12 <= |PrintFile(rs)|
    ensures PrintFile(rs)[OffsetOf(rs, i) + 4..OffsetOf(rs, i) + 8] == KindOctets(rs[i])
    ensures PrintFile(rs)[OffsetOf(rs, i) + 8..OffsetOf(rs, i) + 12] == BE(4, |PrintBody(rs[i])|)
    ensures OffsetOf(rs, i + 1) == OffsetOf(rs, i) + 12 + |PrintBody(rs[i])|
  {
    hide PrintFile, PrintRecord, OffsetOf, KindOctets, PrintBody, BE;
    RecordAt(rs, i);
    NextOffset(rs, i);
    RecordHeader(rs[i]);
    var buf, o, r := PrintFile(rs), OffsetOf(rs, i), PrintRecord(rs[i]);
    SliceOfSlice(buf, o, |r|, 4, 8);
    SliceOfSlice(buf, o, |r|, 8, 12);
  }

  lemma SliceOfSlice(b: bytes, o: nat, n: nat, i: nat, j: nat)
    requires i <= j <= n && o + n <= |b|
    ensures b[o..o + n][i..j] == b[o + i..o + j]
  {
    var window := b[o..o + n];
    forall k | 0 <= k < j - i
      ensures window[i..j][k] == b[o + i..o + j][k]
    {
    }
  }

  // ---- the summary ----

  /** What the reader says of a dump, item by item. */
  lemma SummaryIs(rs: seq<Record>, total: nat)
    ensures var s := Summary(rs, total);
            && s.records == |rs| && s.peers == PeersOf(rs)
            && s.prefixesV4 == |RibsOf(rs, false)| && s.prefixesV6 == |RibsOf(rs, true)|
            && s.ribEntries == |EntriesOf(rs)|
    ensures forall code :: code in Summary(rs, total).attrCodes <==> Carried(EntriesOf(rs), code)
    ensures forall r <- rs | r.Rib? :: |r.entries| <= Summary(rs, total).maxEntries
    ensures Summary(rs, total).maxEntries > 0 ==>
      exists r <- rs :: r.Rib? && |r.entries| == Summary(rs, total).maxEntries
    ensures forall v6 ::
      var first := if v6 then Summary(rs, total).firstV6 else Summary(rs, total).firstV4;
      if RibsOf(rs, v6) == [] then first == None
      else first.Some? && first.value.1 == RibsOf(rs, v6)[0].plen && RibsOf(rs, v6)[0].prefix <= first.value.0
  {
    hide EntriesOf, PeersOf, RibsOf, MostEntries, EntryCodes, Carried;
    MostIs(rs);
    forall code
      ensures code in EntryCodes(EntriesOf(rs)) <==> Carried(EntriesOf(rs), code)
    {
      CodesAre(EntriesOf(rs), code);
    }
  }

  /** Some attribute of some entry has this code. */
  predicate Carried(es: seq<Entry>, code: byte) {
    exists i, j :: 0 <= i < |es| && 0 <= j < |es[i].attrs| && es[i].attrs[j].code == code
  }

  lemma CodesAre(es: seq<Entry>, code: byte)
    ensures code in EntryCodes(es) <==> Carried(es, code)
  {
    if code in EntryCodes(es) {
      var e :| e in es && code in CodesOf(e.attrs);
      var a :| a in e.attrs && a.code == code;
      var i :| 0 <= i < |es| && es[i] == e;
      var j :| 0 <= j < |e.attrs| && e.attrs[j] == a;
      assert es[i].attrs[j].code == code;
    }
    if i, j :| 0 <= i < |es| && 0 <= j < |es[i].attrs| && es[i].attrs[j].code == code {
      assert es[i].attrs[j] in es[i].attrs && code in CodesOf(es[i].attrs) && es[i] in es;
    }
  }

  lemma {:induction false} MostIs(rs: seq<Record>)
    ensures forall r <- rs | r.Rib? :: |r.entries| <= MostEntries(rs)
    ensures MostEntries(rs) > 0 ==> exists r <- rs :: r.Rib? && |r.entries| == MostEntries(rs)
  {
    if rs != [] {
      var init, last := rs[..|rs| - 1], rs[|rs| - 1];
      MostIs(init);
      assert rs == init + [last];
    }
  }

  /** The lists it counts: every peer of every table, every RIB record of a family, every entry, in order. */
  lemma {:induction false} ListsAre(rs: seq<Record>)
    ensures forall e :: e in EntriesOf(rs) <==> exists r <- rs :: r.Rib? && e in r.entries
    ensures forall p :: p in PeersOf(rs) <==> exists r <- rs :: r.PeerTable? && p in r.peers
    ensures forall v6, r :: r in RibsOf(rs, v6) <==> r in rs && r.Rib? && r.v6 == v6
  {
    if rs != [] {
      var rest := rs[1..];
      assert rs == [rs[0]] + rest;
      ListsAre(rest);
      RecordListsCons(rs);
      hide EntriesOf, PeersOf, RibsOf;
    }
  }

  // ---- attributes ----

  /** Flags, code, a length of one octet or, with bit 4 of the flags set, of two, and the value. */
  lemma AttrOctets(a: Attr)
    requires |a.value| < (if a.flags / 16 % 2 == 1 then 0x1_0000 else 0x100)
    ensures PrintAttr(a) ==
      if a.flags / 16 % 2 == 1 then [a.flags, a.code, |a.value| / 256, |a.value| % 256] + a.value
      else [a.flags, a.code, |a.value|] + a.value
  {
    if a.flags / 16 % 2 == 1 { TwoOctets(|a.value|); } else { OneLast(|a.value|); }
  }

  /** What an attribute must look like, code by code; of one with another code only its length is asked. */
  lemma ValidAttrExactly(a: Attr, v6: bool)
    ensures AttrValid(a, v6) <==>
      && |a.value| < (if a.flags / 16 % 2 == 1 then 0x1_0000 else 0x100)
      && (a.code == 1 ==> |a.value| == 1) && (a.code in {3, 4} ==> |a.value| == 4)
      && (a.code == 8 ==> |a.value| % 4 == 0) && (a.code == 32 ==> |a.value| % 12 == 0)
      && (a.code == 14 ==> |a.value| in {5, 17, 33} && a.value[0] == |a.value| - 1 && (v6 ==> |a.value| != 5))
      && (a.code == 2 ==> IsAsPath(a.value))
  {
    hide IsAsPath;
  }

  /** What a reader complains of, code by code; an unknown code is left alone. */
  lemma ComplaintIs(value: bytes, v6: bool, code: byte)
    ensures ValueError(1, value, v6) == if |value| == 1 then None else Some(OriginLength)
    ensures ValueError(2, value, v6) == SegmentsError(value, 0)
    ensures ValueError(3, value, v6) == if |value| == 4 then None else Some(NextHopLength)
    ensures ValueError(4, value, v6) == if |value| == 4 then None else Some(MedLength)
    ensures ValueError(8, value, v6) == if |value| % 4 == 0 then None else Some(CommunityLength)
    ensures ValueError(32, value, v6) == if |value| % 12 == 0 then None else Some(LargeCommunityLength)
    ensures ValueError(14, value, v6) ==
      if value == [] then Some(MpReachEmpty)
      else if value[0] !in {4, 16, 32} then Some(MpReachNextHop)
      else if |value| != 1 + value[0] then Some(MpReachForm)
      else if v6 && value[0] == 4 then Some(MpReachFamily)
      else None
    ensures code !in {1, 2, 3, 4, 8, 14, 32} ==> ValueError(code, value, v6) == None
  {
  }

  /** A segment of an AS_PATH: a kind from 1 to 4, a count, and four octets for each ASN. */
  lemma SegmentOctets(s: Segment)
    requires |s.asns| < 256
    ensures PrintSegment(s)[..2] == [s.kind, |s.asns|] && |PrintSegment(s)| == 2 + 4 * |s.asns|
    ensures SegmentValid(s) <==> s.kind in {1, 2, 3, 4}
    ensures forall i | 0 <= i < |s.asns| :: PrintSegment(s)[2 + 4 * i..6 + 4 * i] == BE(4, s.asns[i])
  {
    OneLast(|s.asns|);
    AsnOctets(s.asns);
    var body := Flatten(PrintAsn, s.asns);
    forall i | 0 <= i < |s.asns|
      ensures PrintSegment(s)[2 + 4 * i..6 + 4 * i] == BE(4, s.asns[i])
    {
      assert PrintSegment(s)[2 + 4 * i..6 + 4 * i] == body[4 * i..4 * i + 4];
    }
  }

  lemma {:induction false} AsnOctets(asns: seq<u32>)
    ensures |Flatten(PrintAsn, asns)| == 4 * |asns|
    ensures forall i | 0 <= i < |asns| :: Flatten(PrintAsn, asns)[4 * i..4 * i + 4] == BE(4, asns[i])
  {
    hide BE;
    if asns != [] {
      var rest := Flatten(PrintAsn, asns[1..]);
      AsnOctets(asns[1..]);
      forall i | 0 <= i < |asns|
        ensures Flatten(PrintAsn, asns)[4 * i..4 * i + 4] == BE(4, asns[i])
      {
        if i > 0 {
          assert asns[i] == asns[1..][i - 1];
          assert Flatten(PrintAsn, asns)[4 * i..4 * i + 4] == rest[4 * (i - 1)..4 * (i - 1) + 4];
        }
      }
    }
  }

  /** Every RIB entry in order has its next hop: code 14 in an IPv6 record, code 3 in an IPv4 one. */
  lemma NextHopCarried(e: Entry, v6: bool)
    requires EntryFormed(e, v6)
    ensures exists a <- e.attrs :: a.code == (if v6 then 14 else 3)
  {
  }

  // ---- what the encoders print ----

  /** `_attr`: the flags given, with the extended length bit from 256 octets on. */
  lemma EncodedAttr(code: byte, flags: byte, value: bytes)
    requires flags in {0x40, 0x80, 0xC0} && |value| < 0x1_0000
    ensures EncAttr(code, flags, value) == Some(
      (if |value| <= 255 then [flags, code, |value|] else [flags + 16, code, |value| / 256, |value| % 256]) + value)
  {
    Powers();
    if |value| > 255 {
      TwoOctets(|value|);
      assert [flags + 16, code] + [|value| / 256, |value| % 256] == [flags + 16, code, |value| / 256, |value| % 256];
    }
  }

  lemma EncodedOrigin(origin: int)
    requires 0 <= origin < 256
    ensures EncOrigin(origin) == Some([0x40, 1, 1] + [origin])
  {
    Powers();
    OneLast(origin);
  }

  lemma EncodedNextHop(addr: u32)
    ensures EncNextHopV4(V4(addr)) == Some([0x40, 3, 4] + BE(4, addr))
  {
  }

  lemma EncodedMed(med: int)
    requires 0 <= med < 0x1_0000_0000
    ensures EncMed(med) == Some([0x80, 4, 4] + BE(4, med))
  {
    Powers();
  }

  lemma EncodedMpReach(addr: u128)
    ensures EncMpReachV6(V6(addr), None) == Some([0x80, 14, 17, 16] + BE(16, addr))
  {
    var nh := BE(16, addr);
    assert nh + [] == nh;
    assert [0x80, 14, 17] + ([16] + nh) == [0x80, 14, 17, 16] + nh;
  }

  /** A segment's kind, its count of one octet, and four octets for each ASN; an empty one is left out. */
  lemma EncodedSegment(kind: byte, asns: seq<int>)
    requires AllFit(4, asns) && |asns| < 256
    ensures PackAll(4, asns).Some? && |PackAll(4, asns).value| == 4 * |asns|
    ensures EncSegment(kind, asns) == Some(if asns == [] then [] else [kind, |asns|] + PackAll(4, asns).value)
  {
    hide PackAll;
    Powers();
    PackAllFits(4, asns);
    OneLast(|asns|);
    assert [kind] + [|asns|] == [kind, |asns|];
  }

  /** The sequence, of segment kind 2, comes before the set, of kind 1. */
  lemma EncodedAsPath(asns: seq<int>, asSet: seq<int>)
    requires AllFit(4, asns) && AllFit(4, asSet) && |asns| < 256 && |asSet| < 256
    ensures PackAll(4, asns).Some? && PackAll(4, asSet).Some?
    ensures var path := (if asns == [] then [] else [2, |asns|] + PackAll(4, asns).value)
                      + (if asSet == [] then [] else [1, |asSet|] + PackAll(4, asSet).value);
            EncAsPath(asns, asSet) == Some(
              (if |path| <= 255 then [0x40, 2, |path|] else [0x50, 2, |path| / 256, |path| % 256]) + path)
  {
    hide PackAll, EncSegment, EncAttr;
    EncodedSegment(2, asns);
    EncodedSegment(1, asSet);
    var path := (if asns == [] then [] else [2, |asns|] + PackAll(4, asns).value)
              + (if asSet == [] then [] else [1, |asSet|] + PackAll(4, asSet).value);
    EncodedAttr(2, 0x40, path);
  }

  /** Optional and transitive, code 8, four octets for each pair. */
  lemma EncodedCommunities(comms: seq<(int, int)>)
    requires AllFit(2, Pairs(comms)) && 4 * |comms| < 0x1_0000
    ensures PackAll(2, Pairs(comms)).Some? && |PackAll(2, Pairs(comms)).value| == 4 * |comms|
    ensures var n := 4 * |comms|;
            EncCommunities(comms) == Some(
              (if n <= 255 then [0xC0, 8, n] else [0xD0, 8, n / 256, n % 256]) + PackAll(2, Pairs(comms)).value)
  {
    hide PackAll, EncAttr, Pairs;
    PairsLength(comms);
    PackAllFits(2, Pairs(comms));
    EncodedAttr(8, 0xC0, PackAll(2, Pairs(comms)).value);
  }

  /** Optional and transitive, code 32, twelve octets for each triple. */
  lemma EncodedLargeCommunities(comms: seq<(int, int, int)>)
    requires AllFit(4, Triples(comms)) && 12 * |comms| < 0x1_0000
    ensures PackAll(4, Triples(comms)).Some? && |PackAll(4, Triples(comms)).value| == 12 * |comms|
    ensures var n := 12 * |comms|;
            EncLargeCommunities(comms) == Some(
              (if n <= 255 then [0xC0, 32, n] else [0xD0, 32, n / 256, n % 256]) + PackAll(4, Triples(comms)).value)
  {
    hide PackAll, EncAttr, Triples;
    TriplesLength(comms);
    PackAllFits(4, Triples(comms));
    EncodedAttr(32, 0xC0, PackAll(4, Triples(comms)).value);
  }

  /** A peer: kind 2 for IPv4 and 3 for IPv6, its id, its address, and a four-octet ASN. */
  lemma EncodedPeer(p: MrtPeer)
    requires 0 <= p.asn < 0x1_0000_0000
    ensures EncPeer(p) == Some(
      if p.ip.V6? then [3] + BE(4, p.bgpId) + BE(16, p.ip.a6) + BE(4, p.asn)
      else [2] + BE(4, p.bgpId) + BE(4, p.ip.a4) + BE(4, p.asn))
    ensures forall kind: byte :: IsV6Peer(kind) <==> kind % 2 == 1
    ensures forall kind: byte :: AsnWidth(kind) == if kind % 4 in {2, 3} then 4 else 2
  {
    Powers();
  }
}
