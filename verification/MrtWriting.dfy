/**
  harness/routegen.py, `_pack_prefix`, `MrtPeer` and `MrtWriter`: records appended one at a time to a file
  that a reader must be able to take as it stands.
 */
module MrtWriting {
  import opened Arith
  import opened Wrappers
  import opened Bytes
  import opened TableDump
  import opened RouteGen

  // ---- prefixes ----

  /** A prefix as written in text; `addr` may carry host bits. */
  datatype Prefix = Prefix(v6: bool, addr: nat, plen: nat)

  function Width(v6: bool): nat {
    if v6 then 16 else 4
  }

  /** What `ipaddress.ip_network` takes without a ValueError. */
  predicate Parses(p: Prefix) {
    p.plen <= 8 * Width(p.v6) && p.addr < Pow256(Width(p.v6))
  }

  /** `strict=False`: the network address, host bits cleared. */
  function Network(p: Prefix): (n: nat)
    requires Parses(p)
    ensures n <= p.addr
  {
    var hosts := Pow2(8 * Width(p.v6) - p.plen);
    WholePart(p.addr, hosts);
    (p.addr / hosts) * hosts
  }

  /** A prefix is taken exactly up to the width of its family, and its network is the block it lies in. */
  lemma NetworkExactly(p: Prefix)
    ensures Parses(p) <==>
      if p.v6 then p.plen <= 128 && p.addr < 0x1_0000_0000_0000_0000_0000_0000_0000_0000
      else p.plen <= 32 && p.addr < 0x1_0000_0000
    ensures Parses(p) ==>
      var block := Pow2((if p.v6 then 128 else 32) - p.plen);
      Network(p) <= p.addr < Network(p) + block && Network(p) % block == 0
  {
    hide Pow2, Pow256;
    Powers();
    if Parses(p) {
      var block := Pow2(8 * Width(p.v6) - p.plen);
      assert p.addr == (p.addr / block) * block + p.addr % block;
      DivUnique(Network(p), block, p.addr / block, 0);
    }
  }

  function PackPrefix(p: Prefix): Option<(byte, bytes)> {
    if Parses(p) then Some((p.plen, BE(Width(p.v6), Network(p))[..(p.plen + 7) / 8])) else None
  }

  lemma {:induction false} Pow256IsPow2(w: nat)
    ensures Pow256(w) == Pow2(8 * w)
  {
    if w > 0 {
      Pow256IsPow2(w - 1);
      Pow2Sum(8, 8 * (w - 1));
      assert Pow2(8) == 256 by { assert Pow2(4) == 16; Pow2Sum(4, 4); }
    }
  }

  lemma ZeroOctet(width: nat, v: nat)
    requires width > 0
    ensures BE(width, 256 * v) == BE(width - 1, v) + [0]
  {
  }

  /** A multiple of 256^k ends in k zero octets. */
  lemma {:induction false} TrailingZeros(width: nat, q: nat, k: nat)
    requires k <= width
    ensures var bs := BE(width, q * Pow256(k)); bs == bs[..width - k] + seq(k, _ => 0)
    decreases width
  {
    var bs := BE(width, q * Pow256(k));
    if k == 0 {
      assert bs[..width] == bs;
    } else {
      var v := q * Pow256(k - 1);
      MulAssociates(q, 256, Pow256(k - 1));
      MulAssociates(256, q, Pow256(k - 1));
      assert Pow256(k) == 256 * Pow256(k - 1);
      TrailingZeros(width - 1, q, k - 1);
      var shorter := BE(width - 1, v);
      ZeroOctet(width, v);
      hide BE, Pow256;
      assert bs[..width - k] == shorter[..width - k];
      assert seq(k, _ => 0) == seq(k - 1, _ => 0) + [0];
    }
  }

  /** The network address is a whole number of the octets cut off. */
  lemma NetworkMultiple(p: Prefix, k: nat) returns (q: nat)
    requires Parses(p) && 8 * k <= 8 * Width(p.v6) - p.plen
    ensures Network(p) == q * Pow256(k)
  {
    hide Pow2, Pow256;
    var host := 8 * Width(p.v6) - p.plen;
    Pow256IsPow2(k);
    Pow2Sum(host - 8 * k, 8 * k);
    q := ScaledQuotient(p.addr, Pow2(host), Pow2(host - 8 * k), Pow256(k));
  }

  lemma ScaledQuotient(v: nat, n: nat, a: nat, b: nat) returns (q: nat)
    requires n > 0 && n == a * b
    ensures (v / n) * n == q * b
  {
    var d: nat := v / n;
    MulAssociates(d, a, b);
    q := d * a;
  }

  /** Padding the printed octets with zeros, as the reader does, gives the network address back. */
  lemma PackPrefixPads(p: Prefix)
    requires Parses(p)
    ensures var raw := PackPrefix(p).value.1;
            && |raw| == (p.plen + 7) / 8 <= Width(p.v6)
            && raw + seq(Width(p.v6) - |raw|, _ => 0) == BE(Width(p.v6), Network(p))
            && Value(BE(Width(p.v6), Network(p))) == Network(p)
  {
    hide Network, Pow2;
    var w, octets := Width(p.v6), (p.plen + 7) / 8;
    var q := NetworkMultiple(p, w - octets);
    TrailingZeros(w, q, w - octets);
    ValueOfBE(w, Network(p));
  }

  // ---- peers ----

  datatype MrtPeer = MrtPeer(ip: Ip, asn: int, bgpId: u32)

  function PeerKind(p: MrtPeer): byte {
    PEER_TYPE_AS4 + (if p.ip.V6? then PEER_TYPE_IPV6 else 0)
  }

  function EncPeer(p: MrtPeer): Option<bytes> {
    var asn :- Pack(4, p.asn);
    Some([PeerKind(p)] + BE(4, p.bgpId) + Packed(p.ip) + asn)
  }

  function TreePeer(p: MrtPeer): Peer
    requires 0 <= p.asn < 0x1_0000_0000
  {
    Peer(PeerKind(p), p.bgpId, Packed(p.ip), p.asn)
  }

  lemma PeerPrints(p: MrtPeer)
    ensures EncPeer(p).Some? <==> 0 <= p.asn < 0x1_0000_0000
    ensures EncPeer(p).Some? ==> EncPeer(p).value == PrintPeer(TreePeer(p)) && PeerValid(TreePeer(p))
    ensures EncPeer(p).Some? ==> IsV6Peer(TreePeer(p).kind) == p.ip.V6?
  {
    Powers();
  }

  // ---- RIB entries and records ----

  predicate EntryFits(e: (int, PathAttrs), timestamp: int, v6: bool) {
    && AttrsFit(e.1, v6)
    && 0 <= e.0 < 0x1_0000
    && 0 <= timestamp < 0x1_0000_0000
    && |PrintAttrs(AttrsOf(e.1))| < 0x1_0000
  }

  function EncEntry(e: (int, PathAttrs), timestamp: int, v6: bool): Option<bytes> {
    var enc :- Encode(e.1, v6);
    var index :- Pack(2, e.0);
    var time :- Pack(4, timestamp);
    var length :- Pack(2, |enc|);
    Some(index + time + length + enc)
  }

  function TreeEntry(e: (int, PathAttrs), timestamp: int, v6: bool): Entry
    requires EntryFits(e, timestamp, v6)
  {
    Entry(e.0, timestamp, AttrsOf(e.1))
  }

  lemma EntryPrints(e: (int, PathAttrs), timestamp: int, v6: bool)
    ensures EncEntry(e, timestamp, v6).Some? <==> EntryFits(e, timestamp, v6)
    ensures EntryFits(e, timestamp, v6) ==>
      EncEntry(e, timestamp, v6) == Some(PrintEntry(TreeEntry(e, timestamp, v6)))
  {
    hide Encode, AttrsOf, AttrsFit, PrintAttrs;
    Powers();
    EncodePrints(e.1, v6);
    if AttrsFit(e.1, v6) { FitsHasTree(e.1, v6); }
  }

  lemma FitsHasTree(a: PathAttrs, v6: bool)
    requires AttrsFit(a, v6)
    ensures 0 <= a.origin < 256 && PathFits(a.asPath, a.asSet)
  {
  }

  predicate EntriesFit(es: seq<(int, PathAttrs)>, timestamp: int, v6: bool) {
    forall i | 0 <= i < |es| :: EntryFits(es[i], timestamp, v6)
  }

  function TreeEntries(es: seq<(int, PathAttrs)>, timestamp: int, v6: bool): (ts: seq<Entry>)
    requires EntriesFit(es, timestamp, v6)
    ensures |ts| == |es|
  {
    seq(|es|, i requires 0 <= i < |es| && EntryFits(es[i], timestamp, v6) => TreeEntry(es[i], timestamp, v6))
  }

  /** Everything `_add` packs fits its field. */
  predicate RibFits(v6: bool, number: nat, timestamp: int, p: Prefix, es: seq<(int, PathAttrs)>) {
    && Parses(p)
    && number < 0x1_0000_0000
    && 0 <= timestamp < 0x1_0000_0000
    && |es| < 0x1_0000
    && EntriesFit(es, timestamp, v6)
    && 7 + (p.plen + 7) / 8 + |Flatten(PrintEntry, TreeEntries(es, timestamp, v6))| < 0x1_0000_0000
  }

  function TreeRib(v6: bool, number: nat, timestamp: int, p: Prefix, es: seq<(int, PathAttrs)>): Record
    requires RibFits(v6, number, timestamp, p, es)
  {
    Rib(timestamp, v6, number, p.plen, PackPrefix(p).value.1, TreeEntries(es, timestamp, v6))
  }

  /** `_mrt_msg`. */
  function EncMsg(subtype: u16, body: bytes, timestamp: int): Option<bytes> {
    var time :- Pack(4, timestamp);
    var length :- Pack(4, |body|);
    Some(time + BE(2, TABLE_DUMP_V2) + BE(2, subtype) + length + body)
  }

  lemma MsgPrints(r: Record)
    ensures EncMsg(Subtype(r), PrintBody(r), r.timestamp)
         == if |PrintBody(r)| < 0x1_0000_0000 then Some(PrintRecord(r)) else None
  {
    hide PrintBody;
    Powers();
  }

  // ---- the peer index table ----

  predicate TableFits(peers: seq<MrtPeer>, viewName: bytes, timestamp: int) {
    && |viewName| < 0x1_0000 && |peers| < 0x1_0000 && 0 <= timestamp < 0x1_0000_0000
    && forall i | 0 <= i < |peers| :: 0 <= peers[i].asn < 0x1_0000_0000
  }

  function TreePeers(peers: seq<MrtPeer>): (ts: seq<Peer>)
    requires forall i | 0 <= i < |peers| :: 0 <= peers[i].asn < 0x1_0000_0000
    ensures |ts| == |peers|
  {
    seq(|peers|, i requires 0 <= i < |peers| && 0 <= peers[i].asn < 0x1_0000_0000 => TreePeer(peers[i]))
  }

  function TreeTable(peers: seq<MrtPeer>, viewName: bytes, timestamp: int): Record
    requires TableFits(peers, viewName, timestamp)
  {
    PeerTable(timestamp, 0, viewName, TreePeers(peers))
  }

  lemma {:induction false} PeersSize(peers: seq<Peer>)
    requires forall p <- peers :: PeerValid(p)
    ensures |Flatten(PrintPeer, peers)| <= 25 * |peers|
  {
    if peers != [] {
      assert peers[0] in peers;
      PeersSize(peers[1..]);
    }
  }

  /** A peer table that fits is always a sound record, and declares exactly the writer's peers. */
  lemma TableSound(peers: seq<MrtPeer>, viewName: bytes, timestamp: int, c: Context)
    requires TableFits(peers, viewName, timestamp)
    ensures var t := TreeTable(peers, viewName, timestamp);
            && RecordValid(t, c)
            && forall i: u16, v6 :: PeerKnown(START.Advance(t), i, v6) <==> i < |peers| && peers[i].ip.V6? == v6
  {
    var ts := TreePeers(peers);
    forall i | 0 <= i < |peers|
      ensures PeerValid(ts[i]) && IsV6Peer(ts[i].kind) == peers[i].ip.V6?
    {
      PeerPrints(peers[i]);
    }
    assert forall p <- ts :: PeerValid(p);
    PeersSize(ts);
  }

  // ---- building one record's octets ----

  /** `for p in self.peers: body += p.encode()`. */
  method JoinPeers(peers: seq<MrtPeer>) returns (r: Option<bytes>)
    ensures r.Some? <==> forall i | 0 <= i < |peers| :: 0 <= peers[i].asn < 0x1_0000_0000
    ensures r.Some? ==> r.value == Flatten(PrintPeer, TreePeers(peers))
  {
    hide TreePeer, EncPeer, PrintPeer;
    var body: bytes := [];
    for i := 0 to |peers|
      invariant forall j | 0 <= j < i :: 0 <= peers[j].asn < 0x1_0000_0000
      invariant body == Flatten(PrintPeer, TreePeers(peers[..i]))
    {
      PeerPrints(peers[i]);
      var enc := EncPeer(peers[i]);
      if enc.None? { return None; }
      ghost var done, next := TreePeers(peers[..i]), TreePeer(peers[i]);
      assert TreePeers(peers[..i + 1]) == done + [next];
      FlattenAppend(PrintPeer, done, [next]);
      FlattenOne(PrintPeer, next);
      body := body + enc.value;
    }
    assert peers[..|peers|] == peers;
    return Some(body);
  }

  /** `for peer_index, attrs in entries: body += ...`. */
  method JoinEntries(es: seq<(int, PathAttrs)>, timestamp: int, v6: bool) returns (r: Option<bytes>)
    ensures r.Some? <==> EntriesFit(es, timestamp, v6)
    ensures r.Some? ==> r.value == Flatten(PrintEntry, TreeEntries(es, timestamp, v6))
  {
    hide TreeEntry, EncEntry, PrintEntry, EntryFits;
    var body: bytes := [];
    for i := 0 to |es|
      invariant EntriesFit(es[..i], timestamp, v6)
      invariant body == Flatten(PrintEntry, TreeEntries(es[..i], timestamp, v6))
    {
      EntryPrints(es[i], timestamp, v6);
      var enc := EncEntry(es[i], timestamp, v6);
      if enc.None? { return None; }
      assert EntriesFit(es[..i + 1], timestamp, v6);
      ghost var done, next := TreeEntries(es[..i], timestamp, v6), TreeEntry(es[i], timestamp, v6);
      assert TreeEntries(es[..i + 1], timestamp, v6) == done + [next];
      FlattenAppend(PrintEntry, done, [next]);
      FlattenOne(PrintEntry, next);
      body := body + enc.value;
    }
    assert es[..|es|] == es;
    return Some(body);
  }

  method EncTable(peers: seq<MrtPeer>, viewName: bytes, timestamp: int) returns (r: Option<bytes>)
    ensures r == if TableFits(peers, viewName, timestamp) then Some(PrintRecord(TreeTable(peers, viewName, timestamp)))
                 else None
  {
    hide PrintRecord, TreePeers, EncMsg, PrintPeer;
    Powers();
    var name := Pack(2, |viewName|);
    var count := Pack(2, |peers|);
    if name.None? || count.None? { return None; }
    var joined := JoinPeers(peers);
    if joined.None? { return None; }
    var body := BE(4, 0) + name.value + viewName + count.value + joined.value;
    r := EncMsg(SUB_PEER_INDEX_TABLE, body, timestamp);
    if 0 <= timestamp < 0x1_0000_0000 {
      ghost var t := TreeTable(peers, viewName, timestamp);
      TableSound(peers, viewName, timestamp, START);
      assert body == PrintBody(t);
      MsgPrints(t);
    } else {
      BadTime(SUB_PEER_INDEX_TABLE, body, timestamp);
    }
  }

  method EncRib(v6: bool, number: nat, timestamp: int, p: Prefix, es: seq<(int, PathAttrs)>) returns (r: Option<bytes>)
    ensures r == if RibFits(v6, number, timestamp, p, es) then Some(PrintRecord(TreeRib(v6, number, timestamp, p, es)))
                 else None
  {
    hide PrintRecord, TreeEntries, EncMsg, PrintEntry, EntriesFit;
    Powers();
    var packed := PackPrefix(p);
    var numberField := Pack(4, number);
    if packed.None? || numberField.None? { return None; }
    PackPrefixPads(p);
    var count := Pack(2, |es|);
    if count.None? { return None; }
    var joined := JoinEntries(es, timestamp, v6);
    if joined.None? { return None; }
    var body := numberField.value + [packed.value.0] + packed.value.1 + count.value + joined.value;
    var subtype := if v6 then SUB_RIB_IPV6_UNICAST else SUB_RIB_IPV4_UNICAST;
    r := EncMsg(subtype, body, timestamp);
    if 0 <= timestamp < 0x1_0000_0000 {
      ghost var rib := Rib(timestamp, v6, number, p.plen, packed.value.1, TreeEntries(es, timestamp, v6));
      assert body == PrintBody(rib);
      MsgPrints(rib);
    } else {
      BadTime(subtype, body, timestamp);
    }
  }

  // ---- the writer ----

  /** `MrtWriter`: `file` is what has reached the file, `number` the source's `_seq`. */
  class MrtWriter {
    const peers: seq<MrtPeer>
    const timestamp: int
    const viewName: bytes
    var isOpen: bool
    var file: bytes
    var number: nat
    ghost var written: seq<Record>

    ghost predicate Valid()
      reads this
    {
      file == PrintFile(written)
    }

    constructor (peers: seq<MrtPeer>, timestamp: int := 1700000000, viewName: bytes := [])
      ensures Valid() && !isOpen && file == [] && number == 0 && written == []
      ensures this.peers == peers && this.timestamp == timestamp && this.viewName == viewName
    {
      this.peers, this.timestamp, this.viewName := peers, timestamp, viewName;
      isOpen, file, number, written := false, [], 0, [];
    }

    /** Truncates the file, then writes the peer table; `ok` is false where packing a field raises. */
    method Open() returns (ok: bool)
      requires Valid()
      modifies this
      ensures Valid() && isOpen && number == old(number)
      ensures ok <==> TableFits(peers, viewName, timestamp)
      ensures written == if ok then [TreeTable(peers, viewName, timestamp)] else []
      ensures ok ==> |file| >= 12 && file[4..8] == [0, 13, 0, 1]
    {
      hide PrintRecord, TableFits, TreePeers;
      isOpen, file, written := true, [], [];
      var record := EncTable(peers, viewName, timestamp);
      if record.None? { return false; }
      file := file + record.value;
      written := [TreeTable(peers, viewName, timestamp)];
      FlattenOne(PrintRecord, written[0]);
      RecordHeader(written[0]);
      return true;
    }

    /** `_add`: one RIB record, numbered and appended; nothing reaches the file when a field does not fit. */
    method Add(v6: bool, prefix: Prefix, entries: seq<(int, PathAttrs)>) returns (ok: bool)
      requires Valid() && isOpen
      modifies this
      ensures Valid() && isOpen
      ensures ok <==> RibFits(v6, old(number), timestamp, prefix, entries)
      ensures ok ==> written == old(written) + [TreeRib(v6, old(number), timestamp, prefix, entries)]
      ensures !ok ==> written == old(written)
      ensures number == old(number) + (if Parses(prefix) && old(number) < 0x1_0000_0000 then 1 else 0)
      ensures ok ==> |file| >= |old(file)| + 12 && file[..|old(file)|] == old(file)
      ensures ok ==> file[|old(file)| + 4..|old(file)| + 8] == [0, 13, 0, if v6 then 4 else 2]
    {
      hide PrintRecord, TreeEntries;
      var record := EncRib(v6, number, timestamp, prefix, entries);
      ghost var fits := RibFits(v6, number, timestamp, prefix, entries);
      ghost var tree := if fits then [TreeRib(v6, number, timestamp, prefix, entries)] else [];
      if Parses(prefix) && number < 0x1_0000_0000 {
        number := number + 1;
      }
      if record.None? { return false; }
      FlattenAppend(PrintRecord, written, tree);
      FlattenOne(PrintRecord, tree[0]);
      RecordHeader(tree[0]);
      Appended(file, record.value);
      file, written := file + record.value, written + tree;
      return true;
    }

    method Close()
      requires Valid()
      modifies this
      ensures Valid() && !isOpen && file == old(file) && number == old(number) && written == old(written)
    {
      isOpen := false;
    }
  }

  /** Where appended octets stand. */
  lemma Appended(before: bytes, added: bytes)
    requires |added| >= 12
    ensures (before + added)[..|before|] == before
    ensures (before + added)[|before| + 4..|before| + 8] == added[4..8]
  {
  }

  lemma BadTime(subtype: u16, body: bytes, timestamp: int)
    requires !(0 <= timestamp < 0x1_0000_0000)
    ensures EncMsg(subtype, body, timestamp).None?
  {
    Powers();
  }
}
