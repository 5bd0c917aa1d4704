/**
  harness/telemetry.py, `PredicateSet`: samples against budgets, daemon restarts, FIB completeness, and the
  once-per-run suppression of what was already reported. Times are seconds; `now` is a monotonic clock.
 */
module Predicates {
  import opened Wrappers
  import opened Telemetry

  datatype Severity = Fail | Warn | Info
  datatype Code =
    | TelemetryReadFailed | DutContainerDown | FailedPeers(v6: bool) | RssExceeded(name: string)
    | Restarted(daemon: string) | Gone(name: string)
    | SendqProper | SendqWarn | NetlinkOverrun | BgpdCrash | OptmemExhausted
    | DplaneErrors | SaturatedBeforeRun | Saturated | UpdatesSkipped
    | FibUnreadable | FibUnrecognised | FibBehindRib
  datatype Dedup =
    | Standing | PidChange(old_: int, new_: int)
    | PerFamily(v6: bool) | PerFamilySeverity(v6: bool, severity: Severity)

  /** What was seen; `nth` and `watchdog` describe restarts, `held` a FIB lag. */
  datatype Violation = Violation(code: Code, severity: Severity, dedup: Dedup, nth: nat, watchdog: bool, held: real)

  datatype Key = Key(code: Code, severity: Severity, dedup: Dedup)

  function KeyOf(v: Violation): Key {
    Key(v.code, v.severity, v.dedup)
  }

  function Plain(code: Code, severity: Severity): Violation {
    Violation(code, severity, Standing, 0, false, 0.0)
  }

  datatype Budgets = Budgets(
    bgpdRssMb: real, zebraRssMb: real, fibMinRatio: real, fibLagGrace: real,
    maxFailedPeers: int, maxDplaneErrors: int, allowSendqWarn: bool)

  const WATCHDOG_ATTRIBUTION: real := 600.0
  const IMPAIR_GRACE: real := 30.0

  /** One `show ip route summary`, as `route_summary` returns it. */
  datatype FibSummary = FibSummary(v6: bool, ok: bool, routes: Option<nat>, fib: nat)

  datatype State = State(
    pids: map<string, int>, restarts: map<string, nat>, unresponsiveAt: Option<real>,
    impaired: bool, impairUntil: real, fibLagSince: Option<real>,
    expected: set<string>, qmaxBaseline: Option<int>, seen: set<Key>)

  const FRESH := State(map[], map[], None, false, -1.0, None, {}, None, {})

  predicate NamesDistinct(ps: seq<Process>) {
    forall i, j | 0 <= i < j < |ps| :: ps[i].name != ps[j].name
  }

  // ---- one sample ----

  predicate Judged(rec: Rec) {
    rec.isSample && !ReadFailed(rec) && !rec.dutDown
  }

  function NoteWatchdog(s: State, rec: Rec): Option<real> {
    if rec.logs.unresponsive then rec.t else s.unresponsiveAt
  }

  predicate WatchdogRecent(at: Option<real>, rec: Rec) {
    at.Some? && rec.t.Some? && rec.t.value - at.value <= WATCHDOG_ATTRIBUTION
  }

  predicate Suppressed(s: State, now: real) {
    s.impaired || now < s.impairUntil
  }

  /** Peers of the family that are down; none where the record has no summary. */
  function FailedIn(rec: Rec, v6: bool): int {
    if rec.bgp.None? then 0 else if v6 then rec.bgp.value.1.failed else rec.bgp.value.0.failed
  }

  function SessionFaults(b: Budgets, rec: Rec, suppressed: bool): seq<Violation> {
    (if FailedIn(rec, false) > b.maxFailedPeers && !suppressed then [Plain(FailedPeers(false), Fail)] else [])
    + (if FailedIn(rec, true) > b.maxFailedPeers && !suppressed then [Plain(FailedPeers(true), Fail)] else [])
  }

  function MemoryFault(rec: Rec, name: string, budget: real): seq<Violation> {
    var p := ProcessNamed(rec.processes, name);
    if p.Some? && p.value.rssMb != 0.0 && p.value.rssMb > budget then [Plain(RssExceeded(name), Fail)] else []
  }

  /** The PID of this process differs from the one last noted for the daemon. */
  predicate Changed(s: State, p: Process) {
    p.pid.Some? && p.name in s.pids && p.pid.value != s.pids[p.name]
  }

  function RestartCount(s: State, name: string): nat {
    if name in s.restarts then s.restarts[name] else 0
  }

  function RestartOf(s: State, p: Process, watchdog: bool): Violation
    requires Changed(s, p)
  {
    Violation(Restarted(p.name), if p.name in s.expected then Info else Fail,
              PidChange(s.pids[p.name], p.pid.value), RestartCount(s, p.name) + 1, watchdog, 0.0)
  }

  function NotePid(s: State, p: Process): State {
    if p.pid.None? then s
    else if Changed(s, p) then
      s.(pids := s.pids[p.name := p.pid.value],
         restarts := s.restarts[p.name := RestartCount(s, p.name) + 1],
         expected := s.expected - {p.name})
    else s.(pids := s.pids[p.name := p.pid.value])
  }

  function NotePids(s: State, ps: seq<Process>): State {
    if ps == [] then s else NotePid(NotePids(s, ps[..|ps| - 1]), ps[|ps| - 1])
  }

  function RestartFaults(s: State, ps: seq<Process>, watchdog: bool): seq<Violation> {
    if ps == [] then []
    else
      var before := NotePids(s, ps[..|ps| - 1]);
      RestartFaults(s, ps[..|ps| - 1], watchdog)
      + (if Changed(before, ps[|ps| - 1]) then [RestartOf(before, ps[|ps| - 1], watchdog)] else [])
  }

  function GoneFault(s: State, rec: Rec, name: string): seq<Violation> {
    if name in s.pids && ProcessNamed(rec.processes, name).None? then [Plain(Gone(name), Fail)] else []
  }

  function LogFaults(b: Budgets, l: Logs): seq<Violation> {
    (if l.sendqProper then [Plain(SendqProper, Fail)] else [])
    + (if l.sendqWarn then [Plain(SendqWarn, if b.allowSendqWarn then Warn else Fail)] else [])
    + (if l.netlinkOverrun then [Plain(NetlinkOverrun, Fail)] else [])
    + (if l.crash then [Plain(BgpdCrash, Fail)] else [])
    + (if l.optmem then [Plain(OptmemExhausted, Fail)] else [])
  }

  predicate QueueReported(d: Dplane) {
    d.queueLimit.Some? && d.queueLimit.value != 0 && d.queueMax.Some? && d.queueMax.value != 0
  }

  function DplaneFaults(b: Budgets, baseline: Option<int>, dp: Option<Dplane>): seq<Violation> {
    if dp.None? then []
    else
      var d := dp.value;
      (if d.updateErrors > b.maxDplaneErrors then [Plain(DplaneErrors, Fail)] else [])
      + (if !QueueReported(d) || d.queueMax.value < d.queueLimit.value then []
         else if baseline.None? then [Plain(SaturatedBeforeRun, Warn)]
         else if d.queueMax.value > baseline.value then [Plain(Saturated, Warn)]
         else [])
      + (if d.skipped != 0 then [Plain(UpdatesSkipped, Warn)] else [])
  }

  function NoteQueue(baseline: Option<int>, dp: Option<Dplane>): Option<int> {
    if dp.None? || !QueueReported(dp.value) then baseline
    else if baseline.None? || dp.value.queueMax.value > baseline.value then dp.value.queueMax
    else baseline
  }

  /** `check`: the violations of one record, in the source's order. */
  function Raised(b: Budgets, s: State, rec: Rec, now: real): seq<Violation> {
    if !rec.isSample then []
    else if ReadFailed(rec) then [Plain(TelemetryReadFailed, Warn)]
    else if rec.dutDown then [Plain(DutContainerDown, Fail)]
    else
      var noted := NotePids(s, rec.processes);
      SessionFaults(b, rec, Suppressed(s, now))
      + (MemoryFault(rec, "bgpd", b.bgpdRssMb) + MemoryFault(rec, "zebra", b.zebraRssMb))
      + RestartFaults(s, rec.processes, WatchdogRecent(NoteWatchdog(s, rec), rec))
      + (GoneFault(noted, rec, "bgpd") + GoneFault(noted, rec, "zebra"))
      + LogFaults(b, rec.logs)
      + DplaneFaults(b, s.qmaxBaseline, rec.dplane)
  }

  /** The fields after `check`. */
  function Noted(s: State, rec: Rec): State {
    var w := s.(unresponsiveAt := NoteWatchdog(s, rec));
    if !Judged(rec) then w
    else NotePids(w, rec.processes).(qmaxBaseline := NoteQueue(s.qmaxBaseline, rec.dplane))
  }

  // ---- FIB completeness ----

  predicate Measured(f: FibSummary) {
    f.ok && f.routes.Some? && f.routes.value != 0
  }

  predicate Behind(b: Budgets, f: FibSummary) {
    Measured(f) && f.fib as real / f.routes.value as real < b.fibMinRatio
  }

  function LagAfter(b: Budgets, since: Option<real>, f: FibSummary, t: Option<real>): Option<real> {
    if !Measured(f) then since
    else if !Behind(b, f) then None
    else if since.None? then Some(t.GetOr(0.0)) else since
  }

  /** `feed_fib`: a lag turns from a warning into a failure once it has been held longer than the grace. */
  function FibRaised(b: Budgets, since: Option<real>, f: FibSummary, t: Option<real>): seq<Violation> {
    if !f.ok then [Violation(FibUnreadable, Warn, PerFamily(f.v6), 0, false, 0.0)]
    else if f.routes.None? then [Violation(FibUnrecognised, Warn, PerFamily(f.v6), 0, false, 0.0)]
    else if !Behind(b, f) then []
    else
      var held := t.GetOr(0.0) - LagAfter(b, since, f, t).value;
      var severity := if held > b.fibLagGrace then Fail else Warn;
      [Violation(FibBehindRib, severity, PerFamilySeverity(f.v6, severity), 0, false, held)]
  }

  // ---- suppression of what was reported ----

  /** The violations whose key is neither in `seen` nor that of an earlier one. */
  function Unseen(vs: seq<Violation>, seen: set<Key>): seq<Violation> {
    if vs == [] then []
    else if KeyOf(vs[0]) in seen then Unseen(vs[1..], seen)
    else [vs[0]] + Unseen(vs[1..], seen + {KeyOf(vs[0])})
  }

  function KeysOf(vs: seq<Violation>): set<Key> {
    set v <- vs :: KeyOf(v)
  }

  lemma {:induction false} UnseenAppend(vs: seq<Violation>, ws: seq<Violation>, seen: set<Key>)
    ensures Unseen(vs + ws, seen) == Unseen(vs, seen) + Unseen(ws, seen + KeysOf(vs))
  {
    if vs == [] {
      assert vs + ws == ws && seen + KeysOf(vs) == seen;
    } else {
      assert (vs + ws)[1..] == vs[1..] + ws;
      assert KeysOf(vs) == {KeyOf(vs[0])} + KeysOf(vs[1..]);
      if KeyOf(vs[0]) in seen {
        UnseenAppend(vs[1..], ws, seen);
        assert seen + KeysOf(vs) == seen + KeysOf(vs[1..]);
      } else {
        UnseenAppend(vs[1..], ws, seen + {KeyOf(vs[0])});
        assert seen + KeysOf(vs) == seen + {KeyOf(vs[0])} + KeysOf(vs[1..]);
      }
    }
  }

  // ---- the class ----

  class PredicateSet {
    const budgets: Budgets
    var pids: map<string, int>
    var restarts: map<string, nat>
    var unresponsiveAt: Option<real>
    var impaired: bool
    var impairUntil: real
    var fibLagSince: Option<real>
    var expected: set<string>
    var qmaxBaseline: Option<int>
    var seen: set<Key>

    function Fields(): State
      reads this
    {
      State(pids, restarts, unresponsiveAt, impaired, impairUntil, fibLagSince, expected, qmaxBaseline, seen)
    }

    constructor (budgets: Budgets)
      ensures Fields() == FRESH && this.budgets == budgets
    {
      this.budgets := budgets;
      pids, restarts, unresponsiveAt, impaired, impairUntil := map[], map[], None, false, -1.0;
      fibLagSince, expected, qmaxBaseline, seen := None, {}, None, {};
    }

    method ImpairBegin()
      modifies this
      ensures Fields() == old(Fields()).(impaired := true)
    {
      impaired := true;
    }

    method ImpairEnd(now: real, grace: Option<real>)
      modifies this
      ensures Fields() == old(Fields()).(impaired := false, impairUntil := now + grace.GetOr(IMPAIR_GRACE))
    {
      impaired := false;
      impairUntil := now + (if grace.None? then IMPAIR_GRACE else grace.value);
    }

    method ExpectDaemonRestart(name: string)
      modifies this
      ensures Fields() == old(Fields()).(expected := old(expected) + {name})
    {
      expected := expected + {name};
    }

    /** One turn of the loop over `proc.items()`. */
    method CheckPid(p: Process, watchdog: bool) returns (v: seq<Violation>)
      modifies this`pids, this`restarts, this`expected
      ensures v == if Changed(old(Fields()), p) then [RestartOf(old(Fields()), p, watchdog)] else []
      ensures Fields() == NotePid(old(Fields()), p)
    {
      if p.pid.None? { return []; }
      v := [];
      var pid := p.pid.value;
      if p.name in pids && pid != pids[p.name] {
        var previous := pids[p.name];
        var intended := p.name in expected;
        if intended {
          expected := expected - {p.name};
        } else {
          assert expected - {p.name} == expected;
        }
        var nth := (if p.name in restarts then restarts[p.name] else 0) + 1;
        restarts := restarts[p.name := nth];
        v := [Violation(Restarted(p.name), if intended then Info else Fail, PidChange(previous, pid), nth, watchdog,
          0.0)];
      }
      pids := pids[p.name := pid];
    }

    /** The loop over `proc.items()`. */
    method CheckRestarts(ps: seq<Process>, watchdog: bool) returns (v: seq<Violation>)
      modifies this`pids, this`restarts, this`expected
      ensures v == RestartFaults(old(Fields()), ps, watchdog)
      ensures Fields() == NotePids(old(Fields()), ps)
    {
      hide NotePid, Changed, RestartOf;
      ghost var start := Fields();
      v := [];
      for i := 0 to |ps|
        invariant v == RestartFaults(start, ps[..i], watchdog)
        invariant Fields() == NotePids(start, ps[..i])
      {
        assert ps[..i + 1][..i] == ps[..i];
        var fault := CheckPid(ps[i], watchdog);
        v := v + fault;
      }
      assert ps[..|ps|] == ps;
    }

    method CheckDplane(dp: Option<Dplane>) returns (v: seq<Violation>)
      modifies this`qmaxBaseline
      ensures v == DplaneFaults(budgets, old(qmaxBaseline), dp)
      ensures qmaxBaseline == NoteQueue(old(qmaxBaseline), dp)
    {
      v := [];
      if dp.None? { return v; }
      var d := dp.value;
      if d.updateErrors > budgets.maxDplaneErrors { v := v + [Plain(DplaneErrors, Fail)]; }
      if d.queueLimit.Some? && d.queueLimit.value != 0 && d.queueMax.Some? && d.queueMax.value != 0 {
        if qmaxBaseline.None? {
          qmaxBaseline := d.queueMax;
          if d.queueMax.value >= d.queueLimit.value { v := v + [Plain(SaturatedBeforeRun, Warn)]; }
        } else if d.queueMax.value > qmaxBaseline.value {
          qmaxBaseline := d.queueMax;
          if d.queueMax.value >= d.queueLimit.value { v := v + [Plain(Saturated, Warn)]; }
        }
      }
      if d.skipped != 0 { v := v + [Plain(UpdatesSkipped, Warn)]; }
    }

    /** The loop over the address families. */
    method CheckSessions(rec: Rec, suppressed: bool) returns (v: seq<Violation>)
      ensures v == SessionFaults(budgets, rec, suppressed)
    {
      var failed4, failed6 := 0, 0;
      if rec.bgp.Some? { failed4, failed6 := rec.bgp.value.0.failed, rec.bgp.value.1.failed; }
      v := [];
      if failed4 > budgets.maxFailedPeers && !suppressed {
        v := v + [Violation(FailedPeers(false), Fail, Standing, 0, false, 0.0)];
      }
      if failed6 > budgets.maxFailedPeers && !suppressed {
        v := v + [Violation(FailedPeers(true), Fail, Standing, 0, false, 0.0)];
      }
    }

    /** One turn of the loop over memory budgets. */
    method CheckMemory(rec: Rec, name: string, budget: real) returns (v: seq<Violation>)
      ensures v == MemoryFault(rec, name, budget)
    {
      var p := ProcessNamed(rec.processes, name);
      v := [];
      if p.Some? && p.value.rssMb != 0.0 && p.value.rssMb > budget {
        v := [Violation(RssExceeded(name), Fail, Standing, 0, false, 0.0)];
      }
    }

    /** Peers that are down, then the loop over memory budgets. */
    method CheckLoad(rec: Rec, suppressed: bool) returns (v: seq<Violation>)
      ensures v == SessionFaults(budgets, rec, suppressed)
        + (MemoryFault(rec, "bgpd", budgets.bgpdRssMb) + MemoryFault(rec, "zebra", budgets.zebraRssMb))
    {
      hide SessionFaults, MemoryFault;
      var sessions := CheckSessions(rec, suppressed);
      var bgpd := CheckMemory(rec, "bgpd", budgets.bgpdRssMb);
      var zebra := CheckMemory(rec, "zebra", budgets.zebraRssMb);
      v := sessions + (bgpd + zebra);
    }

    /** The loop over the daemons that may be gone. */
    method CheckGone(rec: Rec) returns (v: seq<Violation>)
      ensures v == GoneFault(Fields(), rec, "bgpd") + GoneFault(Fields(), rec, "zebra")
    {
      var bgpd, zebra: seq<Violation> := [], [];
      if "bgpd" in pids && ProcessNamed(rec.processes, "bgpd").None? {
        bgpd := [Violation(Gone("bgpd"), Fail, Standing, 0, false, 0.0)];
      }
      if "zebra" in pids && ProcessNamed(rec.processes, "zebra").None? {
        zebra := [Violation(Gone("zebra"), Fail, Standing, 0, false, 0.0)];
      }
      v := bgpd + zebra;
    }

    method CheckLogs(l: Logs) returns (v: seq<Violation>)
      ensures v == LogFaults(budgets, l)
    {
      var proper, warn, overrun, crash, optmem: seq<Violation> := [], [], [], [], [];
      if l.sendqProper { proper := [Violation(SendqProper, Fail, Standing, 0, false, 0.0)]; }
      if l.sendqWarn {
        warn := [Violation(SendqWarn, if budgets.allowSendqWarn then Warn else Fail, Standing, 0, false, 0.0)];
      }
      if l.netlinkOverrun { overrun := [Violation(NetlinkOverrun, Fail, Standing, 0, false, 0.0)]; }
      if l.crash { crash := [Violation(BgpdCrash, Fail, Standing, 0, false, 0.0)]; }
      if l.optmem { optmem := [Violation(OptmemExhausted, Fail, Standing, 0, false, 0.0)]; }
      v := proper + warn + overrun + crash + optmem;
    }

    method Check(rec: Rec, now: real) returns (v: seq<Violation>)
      modifies this
      ensures v == Raised(budgets, old(Fields()), rec, now)
      ensures Fields() == Noted(old(Fields()), rec)
    {
      ghost var start := Fields();
      if rec.logs.unresponsive { unresponsiveAt := rec.t; }
      v := [];
      if !rec.isSample { return v; }
      if ReadFailed(rec) { return [Plain(TelemetryReadFailed, Warn)]; }
      if rec.dutDown { return [Plain(DutContainerDown, Fail)]; }
      JudgedIs(budgets, start, rec, now);
      hide Raised, Noted, SessionFaults, MemoryFault, GoneFault, LogFaults, DplaneFaults, RestartFaults, NotePids;
      v := CheckLoad(rec, impaired || now < impairUntil);
      var recent := unresponsiveAt.Some? && rec.t.Some? && rec.t.value - unresponsiveAt.value <= WATCHDOG_ATTRIBUTION;
      var restarted := CheckRestarts(rec.processes, recent);
      v := v + restarted;
      var gone := CheckGone(rec);
      v := v + gone;
      var logs := CheckLogs(rec.logs);
      v := v + logs;
      var plane := CheckDplane(rec.dplane);
      v := v + plane;
    }

    /** Reports what `check` raises and was not reported before. */
    method CheckNew(rec: Rec, now: real) returns (out: seq<Violation>)
      modifies this
      ensures var raised := Raised(budgets, old(Fields()), rec, now);
              && out == Unseen(raised, old(seen))
              && Fields() == Noted(old(Fields()), rec).(seen := old(seen) + KeysOf(raised))
    {
      var raised := Check(rec, now);
      SeenUnchanged(old(Fields()), rec);
      out := Record(raised);
    }

    method FeedFib(f: FibSummary, t: Option<real>) returns (out: seq<Violation>)
      modifies this`fibLagSince
      ensures out == FibRaised(budgets, old(fibLagSince), f, t)
      ensures fibLagSince == LagAfter(budgets, old(fibLagSince), f, t)
    {
      if !f.ok { return [Violation(FibUnreadable, Warn, PerFamily(f.v6), 0, false, 0.0)]; }
      if f.routes.None? { return [Violation(FibUnrecognised, Warn, PerFamily(f.v6), 0, false, 0.0)]; }
      if f.routes.value == 0 { return []; }
      var ratio := f.fib as real / f.routes.value as real;
      if ratio < budgets.fibMinRatio {
        if fibLagSince.None? { fibLagSince := Some(t.GetOr(0.0)); }
        var held := t.GetOr(0.0) - fibLagSince.value;
        var severity := if held > budgets.fibLagGrace then Fail else Warn;
        out := [Violation(FibBehindRib, severity, PerFamilySeverity(f.v6, severity), 0, false, held)];
      } else {
        fibLagSince := None;
        out := [];
      }
    }

    /** The loop that keeps unseen violations and remembers their keys; also written out in `_converge`. */
    method Record(raised: seq<Violation>) returns (out: seq<Violation>)
      modifies this`seen
      ensures out == Unseen(raised, old(seen)) && seen == old(seen) + KeysOf(raised)
    {
      out := [];
      assert raised[0..] == raised;
      for i := 0 to |raised|
        invariant Unseen(raised, old(seen)) == out + Unseen(raised[i..], seen)
        invariant seen == old(seen) + KeysOf(raised[..i])
      {
        var key := KeyOf(raised[i]);
        assert raised[i..][1..] == raised[i + 1..] && raised[..i + 1] == raised[..i] + [raised[i]];
        if key !in seen {
          seen := seen + {key};
          out := out + [raised[i]];
        }
      }
      assert raised[..|raised|] == raised;
    }
  }

  lemma {:induction false} NotePidsFrame(s: State, w: Option<real>, ps: seq<Process>)
    ensures NotePids(s.(unresponsiveAt := w), ps) == NotePids(s, ps).(unresponsiveAt := w)
    ensures NotePids(s, ps).seen == s.seen && NotePids(s, ps).fibLagSince == s.fibLagSince
    ensures forall d :: RestartFaults(s.(unresponsiveAt := w), ps, d) == RestartFaults(s, ps, d)
  {
    if ps != [] {
      NotePidsFrame(s, w, ps[..|ps| - 1]);
    }
  }

  lemma WatchdogIrrelevant(s: State, rec: Rec)
    ensures NotePids(s.(unresponsiveAt := NoteWatchdog(s, rec)), rec.processes)
         == NotePids(s, rec.processes).(unresponsiveAt := NoteWatchdog(s, rec))
    ensures forall d ::
      RestartFaults(s.(unresponsiveAt := NoteWatchdog(s, rec)), rec.processes, d) == RestartFaults(s, rec.processes, d)
    ensures var noted := NotePids(s, rec.processes);
            forall name ::
              GoneFault(noted.(unresponsiveAt := NoteWatchdog(s, rec)), rec, name) == GoneFault(noted, rec, name)
  {
    NotePidsFrame(s, NoteWatchdog(s, rec), rec.processes);
  }

  /** A judged record, in the order in which `check` goes through it. */
  lemma JudgedIs(b: Budgets, s: State, rec: Rec, now: real)
    requires Judged(rec)
    ensures var watched := s.(unresponsiveAt := NoteWatchdog(s, rec));
            var noted := NotePids(watched, rec.processes);
            && Raised(b, s, rec, now)
            == SessionFaults(b, rec, Suppressed(s, now))
               + (MemoryFault(rec, "bgpd", b.bgpdRssMb) + MemoryFault(rec, "zebra", b.zebraRssMb))
               + RestartFaults(watched, rec.processes, WatchdogRecent(watched.unresponsiveAt, rec))
               + (GoneFault(noted, rec, "bgpd") + GoneFault(noted, rec, "zebra"))
               + LogFaults(b, rec.logs) + DplaneFaults(b, noted.qmaxBaseline, rec.dplane)
            && Noted(s, rec) == noted.(qmaxBaseline := NoteQueue(noted.qmaxBaseline, rec.dplane))
  {
    hide SessionFaults, MemoryFault, GoneFault, LogFaults, DplaneFaults, RestartFaults;
    WatchdogIrrelevant(s, rec);
    BaselineKept(s, rec.processes);
  }

  lemma {:induction false} BaselineKept(s: State, ps: seq<Process>)
    ensures NotePids(s, ps).qmaxBaseline == s.qmaxBaseline
  {
    if ps != [] {
      BaselineKept(s, ps[..|ps| - 1]);
    }
  }

  lemma SeenUnchanged(s: State, rec: Rec)
    ensures Noted(s, rec).seen == s.seen
  {
    NotePidsFrame(s.(unresponsiveAt := NoteWatchdog(s, rec)), None, rec.processes);
  }
}
