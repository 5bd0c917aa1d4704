/**
  harness/routegen.py, wire formats: path attributes and the streaming MRT writer. `None` stands for the
  exception `struct.pack` (or an address of the wrong family) raises. Every encoder is written as the
  source builds octets; the lemmas say which tree of TableDump those octets print.
 */
module RouteGen {
  import opened Wrappers
  import opened Bytes
  import opened TableDump
  import opened MrtParse

  const FLAG_OPTIONAL: byte := 0x80
  const FLAG_TRANSITIVE: byte := 0x40
  const FLAG_EXT_LEN: byte := 0x10
  const AS_SEQUENCE: byte := 2
  const AS_SET: byte := 1
  const PEER_TYPE_AS4: byte := 2
  const PEER_TYPE_IPV6: byte := 1

  /** An address as `ipaddress` parses it: always in range for its family. */
  datatype Ip = V4(a4: u32) | V6(a6: u128)

  function Packed(ip: Ip): (bs: bytes)
    ensures |bs| == if ip.V6? then 16 else 4
  {
    if ip.V6? then BE(16, ip.a6) else BE(4, ip.a4)
  }

  // ---- struct.pack over lists ----

  /** `b"".join(struct.pack(...) for ...)` over numbers of one width; one misfit fails the whole join. */
  function PackAll(width: nat, vs: seq<int>): Option<bytes> {
    if vs == [] then Some([])
    else
      var head :- Pack(width, vs[0]);
      var tail :- PackAll(width, vs[1..]);
      Some(head + tail)
  }

  predicate AllFit(width: nat, vs: seq<int>) {
    forall i | 0 <= i < |vs| :: 0 <= vs[i] < Pow256(width)
  }

  lemma {:induction false} PackAllFits(width: nat, vs: seq<int>)
    ensures PackAll(width, vs).Some? <==> AllFit(width, vs)
    ensures PackAll(width, vs).Some? ==> |PackAll(width, vs).value| == width * |vs|
  {
    if vs != [] {
      PackAllFits(width, vs[1..]);
      assert AllFit(width, vs) <==> 0 <= vs[0] < Pow256(width) && AllFit(width, vs[1..]) by {
        assert forall i | 1 <= i < |vs| :: vs[i] == vs[1..][i - 1];
      }
      assert width * |vs| == width + width * |vs[1..]|;
    }
  }

  // ---- attributes ----

  /** `_attr`: a body over 255 octets switches to the two-octet length. */
  function EncAttr(code: byte, flags: byte, value: bytes): Option<bytes>
    requires !ExtendedLength(flags) && flags + FLAG_EXT_LEN < 256
  {
    if |value| > 255 then
      var length :- Pack(2, |value|);
      Some([flags + FLAG_EXT_LEN, code] + length + value)
    else Some([flags, code, |value|] + value)
  }

  function EncOrigin(origin: int): Option<bytes> {
    var body :- Pack(1, origin);
    EncAttr(ORIGIN, FLAG_TRANSITIVE, body)
  }

  function EncSegment(kind: byte, asns: seq<int>): Option<bytes> {
    if asns == [] then Some([])
    else
      var count :- Pack(1, |asns|);
      var body :- PackAll(4, asns);
      Some([kind] + count + body)
  }

  function EncAsPath(asns: seq<int>, asSet: seq<int>): Option<bytes> {
    var sequence :- EncSegment(AS_SEQUENCE, asns);
    var theSet :- EncSegment(AS_SET, asSet);
    EncAttr(AS_PATH, FLAG_TRANSITIVE, sequence + theSet)
  }

  function EncNextHopV4(addr: Ip): Option<bytes> {
    if addr.V6? then None else EncAttr(NEXT_HOP, FLAG_TRANSITIVE, Packed(addr))
  }

  function EncMed(med: int): Option<bytes> {
    var body :- Pack(4, med);
    EncAttr(MULTI_EXIT_DISC, FLAG_OPTIONAL, body)
  }

  function Pairs(comms: seq<(int, int)>): seq<int> {
    if comms == [] then [] else [comms[0].0, comms[0].1] + Pairs(comms[1..])
  }

  function Triples(comms: seq<(int, int, int)>): seq<int> {
    if comms == [] then [] else [comms[0].0, comms[0].1, comms[0].2] + Triples(comms[1..])
  }

  function EncCommunities(comms: seq<(int, int)>): Option<bytes> {
    var body :- PackAll(2, Pairs(comms));
    EncAttr(COMMUNITIES, FLAG_OPTIONAL + FLAG_TRANSITIVE, body)
  }

  function EncLargeCommunities(comms: seq<(int, int, int)>): Option<bytes> {
    var body :- PackAll(4, Triples(comms));
    EncAttr(LARGE_COMMUNITY, FLAG_OPTIONAL + FLAG_TRANSITIVE, body)
  }

  /** The reduced MP_REACH_NLRI body: length octet and address, with an optional link-local appended. */
  function EncMpReachV6(nextHop: Ip, linkLocal: Option<Ip>): Option<bytes> {
    if nextHop.V4? || (linkLocal.Some? && linkLocal.value.V4?) then None
    else
      var nh := Packed(nextHop) + (if linkLocal.Some? then Packed(linkLocal.value) else []);
      EncAttr(MP_REACH_NLRI, FLAG_OPTIONAL, [|nh|] + nh)
  }

  datatype PathAttrs = PathAttrs(
    asPath: seq<int>,
    nextHop: Ip,
    med: Option<int>,
    origin: int,
    communities: seq<(int, int)>,
    largeCommunities: seq<(int, int, int)>,
    asSet: seq<int>)

  /** `PathAttrs.encode`. */
  function Encode(a: PathAttrs, v6: bool): Option<bytes> {
    var origin :- EncOrigin(a.origin);
    var asPath :- EncAsPath(a.asPath, a.asSet);
    var hop :- if v6 then EncMpReachV6(a.nextHop, None) else EncNextHopV4(a.nextHop);
    var med :- if a.med.Some? then EncMed(a.med.value) else Some([]);
    var comms :- if a.communities != [] then EncCommunities(a.communities) else Some([]);
    var large :- if a.largeCommunities != [] then EncLargeCommunities(a.largeCommunities) else Some([]);
    Some(origin + asPath + hop + med + comms + large)
  }

  // ---- the tree those octets print ----

  function FlagsFor(flags: byte, value: bytes): byte
    requires flags + FLAG_EXT_LEN < 256
  {
    if |value| > 255 then flags + FLAG_EXT_LEN else flags
  }

  function TreeAttr(code: byte, flags: byte, value: bytes): Attr
    requires flags + FLAG_EXT_LEN < 256
  {
    Attr(FlagsFor(flags, value), code, value)
  }

  /** `_attr` fails exactly above 65535 octets, and otherwise prints one attribute with the right length form. */
  lemma AttrPrints(code: byte, flags: byte, value: bytes)
    requires flags in {0x40, 0x80, 0xC0}
    ensures EncAttr(code, flags, value) ==
      if |value| < 0x1_0000 then Some(PrintAttr(TreeAttr(code, flags, value))) else None
    ensures |value| < 0x1_0000 ==>
      |value| < (if ExtendedLength(TreeAttr(code, flags, value).flags) then 0x1_0000 else 0x100)
  {
    Powers();
    if |value| <= 255 {
      OneOctet(|value|);
      assert [flags, code, |value|] == [flags, code] + [|value|];
    }
  }

  function Numbers(vs: seq<int>): seq<u32>
    requires AllFit(4, vs)
    ensures |Numbers(vs)| == |vs|
  {
    Powers();
    seq(|vs|, i requires 0 <= i < |vs| && 0 <= vs[i] < 0x1_0000_0000 => var v: u32 := vs[i]; v)
  }

  function TreeSegments(asns: seq<int>, asSet: seq<int>): seq<Segment>
    requires AllFit(4, asns) && AllFit(4, asSet)
  {
    (if asns == [] then [] else [Segment(AS_SEQUENCE, Numbers(asns))])
    + (if asSet == [] then [] else [Segment(AS_SET, Numbers(asSet))])
  }

  lemma {:induction false} PackAllPrints(vs: seq<int>)
    requires AllFit(4, vs)
    ensures PackAll(4, vs) == Some(Flatten(PrintAsn, Numbers(vs)))
  {
    Powers();
    if vs != [] {
      assert AllFit(4, vs[1..]);
      PackAllPrints(vs[1..]);
      assert Numbers(vs)[1..] == Numbers(vs[1..]);
    }
  }

  lemma SegmentPrints(kind: byte, asns: seq<int>)
    requires asns != []
    ensures EncSegment(kind, asns).Some? <==> |asns| < 256 && AllFit(4, asns)
    ensures EncSegment(kind, asns).Some? ==> EncSegment(kind, asns).value == PrintSegment(Segment(kind, Numbers(asns)))
  {
    Powers();
    PackAllFits(4, asns);
    if AllFit(4, asns) {
      PackAllPrints(asns);
    }
  }

  /** The AS_PATH body printed for a path and a set, each segment present only when non-empty. */
  function AsPathBody(asns: seq<int>, asSet: seq<int>): bytes
    requires AllFit(4, asns) && AllFit(4, asSet)
  {
    Flatten(PrintSegment, TreeSegments(asns, asSet))
  }

  predicate PathFits(asns: seq<int>, asSet: seq<int>) {
    |asns| < 256 && |asSet| < 256 && AllFit(4, asns) && AllFit(4, asSet)
  }

  lemma AsPathPrints(asns: seq<int>, asSet: seq<int>)
    ensures EncAsPath(asns, asSet).Some? <==> PathFits(asns, asSet)
    ensures PathFits(asns, asSet) ==>
      && var a := TreeAttr(AS_PATH, FLAG_TRANSITIVE, AsPathBody(asns, asSet));
      && EncAsPath(asns, asSet) == Some(PrintAttr(a))
      && forall v6 :: AttrValid(a, v6)
  {
    hide PrintAttr, PackAll, PrintSegment;
    if asns != [] { SegmentPrints(AS_SEQUENCE, asns); }
    if asSet != [] { SegmentPrints(AS_SET, asSet); }
    if PathFits(asns, asSet) {
      var segments := TreeSegments(asns, asSet);
      var body := AsPathBody(asns, asSet);
      SegmentsSize(segments);
      FlattenPair(asns, asSet);
      AttrPrints(AS_PATH, FLAG_TRANSITIVE, body);
      assert forall s <- segments :: SegmentValid(s);
      assert IsAsPath(body);
    }
  }

  lemma FlattenPair(asns: seq<int>, asSet: seq<int>)
    requires AllFit(4, asns) && AllFit(4, asSet)
    ensures AsPathBody(asns, asSet)
         == (if asns == [] then [] else PrintSegment(Segment(AS_SEQUENCE, Numbers(asns))))
          + (if asSet == [] then [] else PrintSegment(Segment(AS_SET, Numbers(asSet))))
  {
    hide PrintSegment;
    var first := if asns == [] then [] else [Segment(AS_SEQUENCE, Numbers(asns))];
    var second := if asSet == [] then [] else [Segment(AS_SET, Numbers(asSet))];
    FlattenAppend(PrintSegment, first, second);
    FlattenAtMostOne(first);
    FlattenAtMostOne(second);
  }

  lemma FlattenAtMostOne(segments: seq<Segment>)
    requires |segments| <= 1
    ensures Flatten(PrintSegment, segments) == if segments == [] then [] else PrintSegment(segments[0])
  {
    if segments != [] {
      assert segments[1..] == [];
    }
  }

  lemma {:induction false} SegmentsSize(segments: seq<Segment>)
    requires forall s <- segments :: SegmentValid(s)
    ensures |Flatten(PrintSegment, segments)| <= 1022 * |segments|
  {
    if segments != [] {
      assert segments[0] in segments;
      SegmentLayout(segments[0]);
      SegmentsSize(segments[1..]);
    }
  }

  // ---- whole attribute sets ----

  predicate AttrsFit(a: PathAttrs, v6: bool) {
    && 0 <= a.origin < 256
    && PathFits(a.asPath, a.asSet)
    && a.nextHop.V6? == v6
    && (a.med.Some? ==> 0 <= a.med.value < 0x1_0000_0000)
    && AllFit(2, Pairs(a.communities)) && 4 * |a.communities| < 0x1_0000
    && AllFit(4, Triples(a.largeCommunities)) && 12 * |a.largeCommunities| < 0x1_0000
  }

  function HopBody(hop: Ip): bytes {
    if hop.V6? then [16] + Packed(hop) else Packed(hop)
  }

  function Joined(width: nat, vs: seq<int>): bytes {
    PackAll(width, vs).GetOr([])
  }

  function When<T>(present: bool, x: T): seq<T> {
    if present then [x] else []
  }

  function OriginAttr(a: PathAttrs): Attr
    requires 0 <= a.origin < 256
  {
    TreeAttr(ORIGIN, FLAG_TRANSITIVE, [a.origin])
  }

  function AsPathAttr(a: PathAttrs): Attr
    requires PathFits(a.asPath, a.asSet)
  {
    TreeAttr(AS_PATH, FLAG_TRANSITIVE, AsPathBody(a.asPath, a.asSet))
  }

  function HopAttr(a: PathAttrs): Attr {
    TreeAttr(NextHopCode(a.nextHop.V6?), if a.nextHop.V6? then FLAG_OPTIONAL else FLAG_TRANSITIVE, HopBody(a.nextHop))
  }

  function MedAttr(a: PathAttrs): Attr {
    TreeAttr(MULTI_EXIT_DISC, FLAG_OPTIONAL, Joined(4, [a.med.GetOr(0)]))
  }

  function CommunitiesAttr(a: PathAttrs): Attr {
    TreeAttr(COMMUNITIES, FLAG_OPTIONAL + FLAG_TRANSITIVE, Joined(2, Pairs(a.communities)))
  }

  function LargeAttr(a: PathAttrs): Attr {
    TreeAttr(LARGE_COMMUNITY, FLAG_OPTIONAL + FLAG_TRANSITIVE, Joined(4, Triples(a.largeCommunities)))
  }

  /** The attribute list an attribute set stands for. */
  function AttrsOf(a: PathAttrs): seq<Attr>
    requires 0 <= a.origin < 256 && PathFits(a.asPath, a.asSet)
  {
    [OriginAttr(a)] + [AsPathAttr(a)] + [HopAttr(a)]
    + When(a.med.Some?, MedAttr(a))
    + When(a.communities != [], CommunitiesAttr(a))
    + When(a.largeCommunities != [], LargeAttr(a))
  }

  lemma OriginPrints(a: PathAttrs)
    ensures EncOrigin(a.origin).Some? <==> 0 <= a.origin < 256
    ensures 0 <= a.origin < 256 ==>
      EncOrigin(a.origin) == Some(PrintAttr(OriginAttr(a))) && forall v6 :: AttrValid(OriginAttr(a), v6)
  {
    Powers();
    if 0 <= a.origin < 256 {
      OneOctet(a.origin);
      AttrPrints(ORIGIN, FLAG_TRANSITIVE, [a.origin]);
    }
  }

  lemma HopPrints(a: PathAttrs, v6: bool)
    ensures var enc := if v6 then EncMpReachV6(a.nextHop, None) else EncNextHopV4(a.nextHop);
            if a.nextHop.V6? == v6 then enc == Some(PrintAttr(HopAttr(a))) && AttrValid(HopAttr(a), v6) else enc == None
  {
    var nh := Packed(a.nextHop);
    assert nh + [] == nh;
    AttrPrints(NextHopCode(v6), if v6 then FLAG_OPTIONAL else FLAG_TRANSITIVE, HopBody(a.nextHop));
  }

  /** The encoder on its own, link-local or not: succeeds exactly for IPv6 addresses, always in the reduced form. */
  lemma MpReachPrints(hop: Ip, linkLocal: Option<Ip>)
    ensures EncMpReachV6(hop, linkLocal).Some? <==> hop.V6? && (linkLocal.Some? ==> linkLocal.value.V6?)
    ensures EncMpReachV6(hop, linkLocal).Some? ==>
      var both := Packed(hop) + (if linkLocal.Some? then Packed(linkLocal.value) else []);
      var a := TreeAttr(MP_REACH_NLRI, FLAG_OPTIONAL, [if linkLocal.Some? then 32 else 16] + both);
      EncMpReachV6(hop, linkLocal) == Some(PrintAttr(a)) && forall v6 :: AttrValid(a, v6)
  {
    var both := Packed(hop) + (if linkLocal.Some? then Packed(linkLocal.value) else []);
    AttrPrints(MP_REACH_NLRI, FLAG_OPTIONAL, [if linkLocal.Some? then 32 else 16] + both);
  }

  lemma MedPrints(a: PathAttrs)
    requires a.med.Some?
    ensures EncMed(a.med.value).Some? <==> 0 <= a.med.value < 0x1_0000_0000
    ensures 0 <= a.med.value < 0x1_0000_0000 ==>
      EncMed(a.med.value) == Some(PrintAttr(MedAttr(a))) && forall v6 :: AttrValid(MedAttr(a), v6)
  {
    Powers();
    var vs := [a.med.value];
    assert PackAll(4, vs[1..]) == Some([]);
    if 0 <= a.med.value < 0x1_0000_0000 {
      var body := BE(4, a.med.value);
      assert Joined(4, vs) == body + [] == body;
      AttrPrints(MULTI_EXIT_DISC, FLAG_OPTIONAL, body);
    }
  }

  lemma {:induction false} PairsLength(comms: seq<(int, int)>)
    ensures |Pairs(comms)| == 2 * |comms|
  {
    if comms != [] {
      PairsLength(comms[1..]);
    }
  }

  lemma {:induction false} TriplesLength(comms: seq<(int, int, int)>)
    ensures |Triples(comms)| == 3 * |comms|
  {
    if comms != [] {
      TriplesLength(comms[1..]);
    }
  }

  lemma CommunitiesPrint(a: PathAttrs)
    ensures EncCommunities(a.communities).Some? <==> AllFit(2, Pairs(a.communities)) && 4 * |a.communities| < 0x1_0000
    ensures EncCommunities(a.communities).Some? ==>
      EncCommunities(a.communities).value == PrintAttr(CommunitiesAttr(a))
        && forall v6 :: AttrValid(CommunitiesAttr(a), v6)
  {
    PairsLength(a.communities);
    PackAllFits(2, Pairs(a.communities));
    AttrPrints(COMMUNITIES, FLAG_OPTIONAL + FLAG_TRANSITIVE, Joined(2, Pairs(a.communities)));
  }

  lemma LargePrints(a: PathAttrs)
    ensures EncLargeCommunities(a.largeCommunities).Some?
       <==> AllFit(4, Triples(a.largeCommunities)) && 12 * |a.largeCommunities| < 0x1_0000
    ensures EncLargeCommunities(a.largeCommunities).Some? ==>
      EncLargeCommunities(a.largeCommunities).value == PrintAttr(LargeAttr(a))
        && forall v6 :: AttrValid(LargeAttr(a), v6)
  {
    TriplesLength(a.largeCommunities);
    PackAllFits(4, Triples(a.largeCommunities));
    AttrPrints(LARGE_COMMUNITY, FLAG_OPTIONAL + FLAG_TRANSITIVE, Joined(4, Triples(a.largeCommunities)));
  }

  lemma PrintWhen(present: bool, a: Attr)
    ensures PrintAttrs(When(present, a)) == if present then PrintAttr(a) else []
  {
    if present {
      FlattenOne(PrintAttr, a);
    }
  }

  lemma PrintAttrsOf(a: PathAttrs)
    requires 0 <= a.origin < 256 && PathFits(a.asPath, a.asSet)
    ensures PrintAttrs(AttrsOf(a)) ==
      PrintAttr(OriginAttr(a)) + PrintAttr(AsPathAttr(a)) + PrintAttr(HopAttr(a))
      + (if a.med.Some? then PrintAttr(MedAttr(a)) else [])
      + (if a.communities != [] then PrintAttr(CommunitiesAttr(a)) else [])
      + (if a.largeCommunities != [] then PrintAttr(LargeAttr(a)) else [])
  {
    hide PrintAttr, OriginAttr, AsPathAttr, HopAttr, MedAttr, CommunitiesAttr, LargeAttr;
    var o, p, h := [OriginAttr(a)], [AsPathAttr(a)], [HopAttr(a)];
    var m := When(a.med.Some?, MedAttr(a));
    var c, l := When(a.communities != [], CommunitiesAttr(a)), When(a.largeCommunities != [], LargeAttr(a));
    FlattenAppend(PrintAttr, o + p + h + m + c, l);
    FlattenAppend(PrintAttr, o + p + h + m, c);
    FlattenAppend(PrintAttr, o + p + h, m);
    FlattenAppend(PrintAttr, o + p, h);
    FlattenAppend(PrintAttr, o, p);
    PrintWhen(true, OriginAttr(a));
    PrintWhen(true, AsPathAttr(a));
    PrintWhen(true, HopAttr(a));
    PrintWhen(a.med.Some?, MedAttr(a));
    PrintWhen(a.communities != [], CommunitiesAttr(a));
    PrintWhen(a.largeCommunities != [], LargeAttr(a));
  }

  /**
    `PathAttrs.encode` succeeds exactly when every field fits the wire; its octets then print a valid
    attribute list that carries the next hop where a reader of that family looks for it.
   */
  lemma EncodePrints(a: PathAttrs, v6: bool)
    ensures Encode(a, v6).Some? <==> AttrsFit(a, v6)
    ensures AttrsFit(a, v6) ==>
      && Encode(a, v6) == Some(PrintAttrs(AttrsOf(a)))
      && AttrsValid(AttrsOf(a), v6)
      && NextHopCode(v6) in CodesOf(AttrsOf(a))
  {
    hide EncOrigin, EncAsPath, EncMpReachV6, EncNextHopV4, EncMed, EncCommunities, EncLargeCommunities;
    hide OriginAttr, AsPathAttr, MedAttr, CommunitiesAttr, LargeAttr, PrintAttr, AttrValid;
    OriginPrints(a);
    AsPathPrints(a.asPath, a.asSet);
    HopPrints(a, v6);
    if a.med.Some? { MedPrints(a); }
    CommunitiesPrint(a);
    LargePrints(a);
    if AttrsFit(a, v6) {
      AsPathAttrIs(a);
      PrintAttrsOf(a);
      AttrsOfCases(a, v6);
      assert HopAttr(a) in AttrsOf(a);
    }
  }

  lemma AsPathAttrIs(a: PathAttrs)
    requires PathFits(a.asPath, a.asSet)
    ensures AsPathAttr(a) == TreeAttr(AS_PATH, FLAG_TRANSITIVE, AsPathBody(a.asPath, a.asSet))
  {
  }

  lemma AttrsOfCases(a: PathAttrs, v6: bool)
    requires 0 <= a.origin < 256 && PathFits(a.asPath, a.asSet)
    requires AttrValid(OriginAttr(a), v6) && AttrValid(AsPathAttr(a), v6) && AttrValid(HopAttr(a), v6)
    requires a.med.Some? ==> AttrValid(MedAttr(a), v6)
    requires a.communities != [] ==> AttrValid(CommunitiesAttr(a), v6)
    requires a.largeCommunities != [] ==> AttrValid(LargeAttr(a), v6)
    ensures AttrsValid(AttrsOf(a), v6)
  {
    hide AttrValid, OriginAttr, AsPathAttr, HopAttr, MedAttr, CommunitiesAttr, LargeAttr;
  }
}
