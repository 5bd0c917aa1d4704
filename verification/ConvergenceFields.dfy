/** What a confirmation means in the fields of the records themselves: versions, counts, sessions, load. */
module ConvergenceFields {
  import opened Wrappers
  import opened Sequences
  import opened Telemetry
  import opened Convergence
  import opened ConvergenceRuns

  /** A sample that counts: of a router that is down, or one whose two summaries were both read. */
  predicate Counts(rec: Rec) {
    rec.isSample && (rec.dutDown || rec.bgp.None? || (!rec.bgp.value.0.readFailed && !rec.bgp.value.1.readFailed))
  }

  /** How many samples of `h` count, from record `i` on. */
  function CountFrom(h: seq<Rec>, i: nat): nat {
    if i >= |h| then 0 else CountFrom(Init(h), i) + (if Counts(Last(h)) then 1 else 0)
  }

  /** A router that runs, reports an IPv4 table version, has no failed peer, and the peers it is to have. */
  predicate Serving(c: Config, rec: Rec) {
    && !rec.dutDown && rec.bgp.Some?
    && var v4, v6 := rec.bgp.value.0, rec.bgp.value.1;
    && v4.tableVersion.Some? && v4.failed == 0 && v6.failed == 0
    && (c.requireAll && c.expectedV4 != 0 ==> v4.established >= c.expectedV4)
    && (c.requireAll && c.expectedV6 != 0 ==> v6.established >= c.expectedV6)
  }

  /** The same tables: version and prefixes received, in both families. */
  predicate SameTables(a: Rec, b: Rec) {
    && a.bgp.Some? && b.bgp.Some?
    && a.bgp.value.0.tableVersion == b.bgp.value.0.tableVersion && a.bgp.value.0.prefixes == b.bgp.value.0.prefixes
    && a.bgp.value.1.tableVersion == b.bgp.value.1.tableVersion && a.bgp.value.1.prefixes == b.bgp.value.1.prefixes
  }

  /** Of the processes reported, the first that is called bgpd leaves the CPU below the limit. */
  predicate CpuFree(c: Config, ps: seq<Process>) {
    forall i | 0 <= i < |ps| && ps[i].name == "bgpd" && ps[i].cpuPct.Some? && ps[i].cpuPct.value >= c.busyCpu ::
      exists j | 0 <= j < i :: ps[j].name == "bgpd"
  }

  /** Nothing waits in zebra's queue. */
  predicate QueueEmpty(rec: Rec) {
    rec.dplane.None? || rec.dplane.value.queueDepth.None? || rec.dplane.value.queueDepth.value <= 0
  }

  /** CPU and queue leave the router idle, and its install count is the one last compared, if there is one. */
  predicate AtRest(c: Config, h: seq<Rec>, i: nat)
    requires i < |h|
  {
    && CpuFree(c, h[i].processes) && QueueEmpty(h[i])
    && (h[i].installs.Some? && Compared(c, h[..i]).Some? ==> h[i].installs == Compared(c, h[..i]))
  }

  /** The install count of the last record of a running, idle router that carries one. */
  function Compared(c: Config, h: seq<Rec>): Option<int> {
    if h == [] then None
    else
      var r := Last(h);
      if c.requireQuiet && Counts(r) && !r.dutDown && CpuFree(c, r.processes) && QueueEmpty(r) && r.installs.Some?
      then r.installs else Compared(c, Init(h))
  }

  /** Record `i` is one of the last `n` that count, or the last of all. */
  predicate Recent(h: seq<Rec>, i: nat, n: nat)
    requires i < |h|
  {
    Counts(h[i]) && (CountFrom(h, i) <= n || i == |h| - 1)
  }

  /** The recent records show a serving router with the same tables, at rest where that is required. */
  predicate RecentSettled(c: Config, h: seq<Rec>) {
    forall i | 0 <= i < |h| && Recent(h, i, c.stableSamples) ::
      Serving(c, h[i]) && (c.requireQuiet ==> AtRest(c, h, i)) && SameTables(h[i], Last(h))
  }

  // ---- the names of the tracker, in those terms ----

  lemma {:induction false} CpuFreeIs(c: Config, rec: Rec)
    ensures CpuFree(c, rec.processes) <==> !CpuBusy(c, rec)
    decreases |rec.processes|
  {
    var ps := rec.processes;
    if ps != [] && ps[0].name != "bgpd" {
      var rest := rec.(processes := ps[1..]);
      CpuFreeIs(c, rest);
      assert forall i | 1 <= i < |ps| :: ps[i] == ps[1..][i - 1];
    }
  }

  lemma {:induction false} ComparedIs(c: Config, h: seq<Rec>)
    ensures Compared(c, h) == PreviousInstalls(c, h)
    decreases |h|
  {
    hide CpuFree, CpuBusy;
    if h != [] {
      CpuFreeIs(c, Last(h));
      ComparedIs(c, Init(h));
    }
  }

  /** A good record is one that counts, of a serving router at rest where that is required; the key is its tables. */
  lemma GoodExactly(c: Config, h: seq<Rec>, i: nat, key: Key)
    requires i < |h|
    ensures Good(c, h[..i], h[i], key) <==>
      && Counts(h[i]) && Serving(c, h[i]) && (c.requireQuiet ==> AtRest(c, h, i))
      && key.v4Version == h[i].bgp.value.0.tableVersion && key.v4Prefixes == h[i].bgp.value.0.prefixes
      && key.v6Version == h[i].bgp.value.1.tableVersion && key.v6Prefixes == h[i].bgp.value.1.prefixes
  {
    hide CpuFree, CpuBusy;
    CpuFreeIs(c, h[i]);
    ComparedIs(c, h[..i]);
  }

  /** Two compared install counts were equal, the second at record `i`. */
  lemma EqualReadingExactly(c: Config, h: seq<Rec>, i: nat)
    requires i < |h|
    ensures EqualReading(c, h, i) <==>
      && c.requireQuiet && Counts(h[i]) && !h[i].dutDown && h[i].installs.Some?
      && CpuFree(c, h[i].processes) && QueueEmpty(h[i]) && Compared(c, h[..i]) == h[i].installs
  {
    hide CpuFree, CpuBusy;
    CpuFreeIs(c, h[i]);
    ComparedIs(c, h[..i]);
  }

  lemma CountsExactly(rec: Rec)
    ensures Counts(rec) <==> !Ignored(rec)
  {
  }

  lemma {:induction false} GoodRunIs(c: Config, h: seq<Rec>, key: Key, n: nat)
    ensures GoodRun(c, h, key, n) <==>
      && CountFrom(h, 0) >= n
      && forall i | 0 <= i < |h| && Counts(h[i]) && CountFrom(h, i) <= n :: Good(c, h[..i], h[i], key)
    decreases |h|
  {
    hide Good, Counts;
    if h != [] {
      var before, last := Init(h), |h| - 1;
      CountsExactly(Last(h));
      assert forall i | 0 <= i < last :: before[..i] == h[..i] && before[i] == h[i];
      assert h[..last] == before;
      assert CountFrom(h, last) == if Counts(h[last]) then 1 else 0;
      if !Counts(Last(h)) {
        GoodRunIs(c, before, key, n);
      } else if n > 0 {
        GoodRunIs(c, before, key, n - 1);
      }
    }
  }

  /**
    Confirmation, in the records' own fields. A record confirms if and only if it counts, there are `stable_samples`
    that count, all of these show a serving router, at rest where that is required, with the same tables in both
    families, and, where quiet is required, there is evidence from the FIB.
   */
  lemma ConfirmsInFields(c: Config, h: seq<Rec>)
    ensures Confirms(c, h) <==>
      && h != [] && Counts(Last(h)) && CountFrom(h, 0) >= c.stableSamples && RecentSettled(c, h)
      && (c.requireQuiet ==> Evidence(c, h))
  {
    hide Good, Evidence, Counts, AtRest, CountFrom, GoodRun, Confirms;
    ConfirmsExactly(c, h);
    if h != [] {
      var last, n := |h| - 1, c.stableSamples;
      assert h[..last] == Init(h);
      if Confirms(c, h) {
        var key :| Good(c, Init(h), Last(h), key) && GoodRun(c, h, key, n);
        GoodRunIs(c, h, key, n);
        GoodExactly(c, h, last, key);
        forall i | 0 <= i < |h| && Recent(h, i, n)
          ensures Serving(c, h[i]) && (c.requireQuiet ==> AtRest(c, h, i)) && SameTables(h[i], Last(h))
        {
          GoodExactly(c, h, i, key);
        }
      }
      if Counts(Last(h)) && RecentSettled(c, h) {
        assert Recent(h, last, n);
        var v4, v6 := Last(h).bgp.value.0, Last(h).bgp.value.1;
        var key := Key(v4.tableVersion, v4.prefixes, v6.tableVersion, v6.prefixes);
        forall i | 0 <= i < |h| && Recent(h, i, n)
          ensures Good(c, h[..i], h[i], key)
        {
          GoodExactly(c, h, i, key);
        }
        GoodRunIs(c, h, key, n);
      }
    }
  }

  /** So any two of the last `stable_samples` records that count report the same tables, and every peer up. */
  lemma ConfirmedRecordsAgree(c: Config, h: seq<Rec>, i: nat, j: nat)
    requires Confirms(c, h) && i < |h| && j < |h|
    requires Recent(h, i, c.stableSamples) && Recent(h, j, c.stableSamples)
    ensures h[i].bgp.Some? && h[j].bgp.Some?
    ensures var a, b := h[i].bgp.value, h[j].bgp.value;
            && a.0.tableVersion == b.0.tableVersion && a.0.prefixes == b.0.prefixes
            && a.1.tableVersion == b.1.tableVersion && a.1.prefixes == b.1.prefixes
            && a.0.failed == 0 && a.1.failed == 0
            && (c.requireAll && c.expectedV4 != 0 ==> a.0.established >= c.expectedV4)
            && (c.requireAll && c.expectedV6 != 0 ==> a.1.established >= c.expectedV6)
  {
    hide Confirms, Evidence, AtRest, Recent;
    ConfirmsInFields(c, h);
  }
}
