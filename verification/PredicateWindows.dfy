/**
  What the class comment of `PredicateSet` promises about time, over every run of calls: no peer fault inside an
  impairment or its grace, a queue high-water mark reported only when it moves, and a restart blamed on the
  watchdog exactly within the attribution time.
 */
module PredicateWindows {
  import opened Wrappers
  import opened Telemetry
  import opened Predicates
  import opened Sequences
  import opened PredicateRuns

  // ---- said of the calls alone ----

  /** An impairment is on at time `at`, or its grace is not over; the clock never shows less than -1. */
  predicate Impaired(ops: seq<Op>, at: real) {
    if ops == [] then at < -1.0
    else
      match Last(ops)
      case ImpairStart => true
      case ImpairStop(now, grace) => at < now + grace.GetOr(30.0)
      case _ => Impaired(Init(ops), at)
  }

  /** The time of the last record whose log window carried the unresponsive signature. */
  function LastUnresponsive(ops: seq<Op>): Option<real> {
    if ops == [] then None
    else if Last(ops).CheckRec? && Last(ops).rec.logs.unresponsive then Last(ops).rec.t
    else LastUnresponsive(Init(ops))
  }

  predicate QueueSeen(op: Op) {
    op.CheckRec? && Judged(op.rec) && op.rec.dplane.Some? && QueueReported(op.rec.dplane.value)
  }

  /** The highest queue mark any judged record reported. */
  function Peak(ops: seq<Op>): Option<int> {
    if ops == [] then None
    else
      var before := Peak(Init(ops));
      if !QueueSeen(Last(ops)) then before
      else
        var mark := Last(ops).rec.dplane.value.queueMax;
        if before.None? || mark.value > before.value then mark else before
  }

  /** It is the highest: reported by some record, and no record reported more. */
  lemma {:induction false} PeakIsHighest(ops: seq<Op>)
    ensures Peak(ops).None? <==> forall i | 0 <= i < |ops| :: !QueueSeen(ops[i])
    ensures forall i | 0 <= i < |ops| && QueueSeen(ops[i]) :: ops[i].rec.dplane.value.queueMax.value <= Peak(ops).value
    ensures Peak(ops).Some? ==>
      exists i | 0 <= i < |ops| :: QueueSeen(ops[i]) && ops[i].rec.dplane.value.queueMax == Peak(ops)
  {
    if ops != [] {
      hide QueueSeen;
      PeakIsHighest(Init(ops));
      assert forall i | 0 <= i < |ops| - 1 :: Init(ops)[i] == ops[i];
    }
  }

  // ---- the fields are those ----

  lemma {:induction false} PidsFrame(s: State, ps: seq<Process>)
    ensures var e := NotePids(s, ps);
            && e.impaired == s.impaired && e.impairUntil == s.impairUntil
            && e.unresponsiveAt == s.unresponsiveAt && e.qmaxBaseline == s.qmaxBaseline
  {
    if ps != [] {
      PidsFrame(s, ps[..|ps| - 1]);
    }
  }

  lemma {:induction false} FieldsAre(b: Budgets, ops: seq<Op>)
    ensures var s := RunState(b, ops);
            && (forall at :: Suppressed(s, at) <==> Impaired(ops, at))
            && s.unresponsiveAt == LastUnresponsive(ops)
            && s.qmaxBaseline == Peak(ops)
  {
    if ops != [] {
      hide NotePids, RaisedBy, Raised, FibRaised, LagAfter, KeysOf;
      var s, op := RunState(b, Init(ops)), Last(ops);
      FieldsAre(b, Init(ops));
      if op.CheckRec? {
        PidsFrame(s.(unresponsiveAt := NoteWatchdog(s, op.rec)), op.rec.processes);
      }
    }
  }

  // ---- which codes a record raises ----

  predicate Raises(vs: seq<Violation>, code: Code) {
    exists v <- vs :: v.code == code
  }

  lemma {:induction false} OnlyRestarts(s: State, ps: seq<Process>, watchdog: bool)
    ensures forall v <- RestartFaults(s, ps, watchdog) :: v.code.Restarted? && v.watchdog == watchdog
  {
    if ps != [] {
      OnlyRestarts(s, ps[..|ps| - 1], watchdog);
    }
  }

  /** A sample of a running router whose summaries were read. */
  predicate Readable(rec: Rec) {
    rec.isSample && !rec.dutDown && (rec.bgp.None? || (!rec.bgp.value.0.readFailed && !rec.bgp.value.1.readFailed))
  }

  /** The first process of that name reports this much memory, and not none. */
  predicate Over(ps: seq<Process>, name: string, budget: real) {
    exists i | 0 <= i < |ps| :: ps[i].name == name && ps[i].rssMb != 0.0 && ps[i].rssMb > budget
      && forall j | 0 <= j < i :: ps[j].name != name
  }

  /** A record that was judged reported a PID for the daemon. */
  predicate SeenRunning(ops: seq<Op>, name: string) {
    exists i | 0 <= i < |ops| :: ops[i].CheckRec? && Readable(ops[i].rec) && HasPid(ops[i].rec.processes, name)
  }

  predicate HasPid(ps: seq<Process>, name: string) {
    exists p <- ps :: p.name == name && p.pid.Some?
  }

  /** The queue's mark, where limit and mark are both reported and neither is 0. */
  predicate MarkAtLimit(d: Dplane) {
    && d.queueLimit.Some? && d.queueLimit.value != 0 && d.queueMax.Some? && d.queueMax.value != 0
    && d.queueMax.value >= d.queueLimit.value
  }

  function Failed(rec: Rec, v6: bool): int {
    if rec.bgp.None? then 0 else if v6 then rec.bgp.value.1.failed else rec.bgp.value.0.failed
  }

  /** What a record gives reason to say, restarts apart. */
  predicate Warranted(b: Budgets, ops: seq<Op>, rec: Rec, at: real, code: Code) {
    match code
    case TelemetryReadFailed =>
      rec.isSample && rec.bgp.Some? && (rec.bgp.value.0.readFailed || rec.bgp.value.1.readFailed)
    case DutContainerDown =>
      rec.isSample && rec.dutDown && (rec.bgp.None? || (!rec.bgp.value.0.readFailed && !rec.bgp.value.1.readFailed))
    case FailedPeers(v6) => Readable(rec) && Failed(rec, v6) > b.maxFailedPeers && !Impaired(ops, at)
    case RssExceeded(name) =>
      && Readable(rec)
      && ((name == "bgpd" && Over(rec.processes, "bgpd", b.bgpdRssMb))
          || (name == "zebra" && Over(rec.processes, "zebra", b.zebraRssMb)))
    case Gone(name) =>
      && Readable(rec) && (name == "bgpd" || name == "zebra") && SeenRunning(ops, name)
      && forall p <- rec.processes :: p.name != name
    case SendqProper => Readable(rec) && rec.logs.sendqProper
    case SendqWarn => Readable(rec) && rec.logs.sendqWarn
    case NetlinkOverrun => Readable(rec) && rec.logs.netlinkOverrun
    case BgpdCrash => Readable(rec) && rec.logs.crash
    case OptmemExhausted => Readable(rec) && rec.logs.optmem
    case DplaneErrors => Readable(rec) && rec.dplane.Some? && rec.dplane.value.updateErrors > b.maxDplaneErrors
    case UpdatesSkipped => Readable(rec) && rec.dplane.Some? && rec.dplane.value.skipped != 0
    case SaturatedBeforeRun => Readable(rec) && rec.dplane.Some? && MarkAtLimit(rec.dplane.value) && Peak(ops).None?
    case Saturated =>
      && Readable(rec) && rec.dplane.Some? && MarkAtLimit(rec.dplane.value)
      && Peak(ops).Some? && rec.dplane.value.queueMax.value > Peak(ops).value
    case _ => false
  }

  /** How bad each of these is. */
  function Grade(b: Budgets, code: Code): Severity {
    match code
    case TelemetryReadFailed | SaturatedBeforeRun | Saturated | UpdatesSkipped => Warn
    case SendqWarn => if b.allowSendqWarn then Warn else Fail
    case _ => Fail
  }

  lemma JudgedExactly(rec: Rec)
    ensures Judged(rec) <==> Readable(rec)
  {
  }

  lemma {:induction false} NotedPids(s: State, ps: seq<Process>, name: string)
    ensures name in NotePids(s, ps).pids <==> name in s.pids || HasPid(ps, name)
  {
    if ps != [] {
      var init, p := ps[..|ps| - 1], ps[|ps| - 1];
      assert ps == init + [p];
      NotedPids(s, init, name);
    }
  }

  lemma {:induction false} SeenRunningIs(b: Budgets, ops: seq<Op>, name: string)
    ensures name in RunState(b, ops).pids <==> SeenRunning(ops, name)
  {
    if ops != [] {
      hide NotePids, Raised, RaisedBy, FibRaised, LagAfter, KeysOf, HasPid, Readable;
      var op, init := Last(ops), Init(ops);
      SeenRunningIs(b, init, name);
      assert forall i | 0 <= i < |init| :: init[i] == ops[i];
      if op.CheckRec? {
        JudgedExactly(op.rec);
        var s := RunState(b, init);
        NotedPids(s.(unresponsiveAt := NoteWatchdog(s, op.rec)), op.rec.processes, name);
      }
    }
  }

  lemma {:induction false} NamedIsFirst(ps: seq<Process>, name: string)
    ensures ProcessNamed(ps, name).None? <==> forall p <- ps :: p.name != name
    ensures forall i | 0 <= i < |ps| && ps[i].name == name && (forall j | 0 <= j < i :: ps[j].name != name) ::
      ProcessNamed(ps, name) == Some(ps[i])
    ensures ProcessNamed(ps, name).Some? ==>
      exists i | 0 <= i < |ps| ::
        ps[i].name == name && ProcessNamed(ps, name) == Some(ps[i]) && forall j | 0 <= j < i :: ps[j].name != name
  {
    if ps != [] {
      NamedIsFirst(ps[1..], name);
      assert forall i | 1 <= i < |ps| :: ps[i] == ps[1..][i - 1];
      assert forall i | 0 <= i < |ps| - 1 :: ps[1..][i] == ps[i + 1];
    }
  }

  lemma MemoryFaultExactly(rec: Rec, name: string, budget: real, v: Violation)
    ensures v in MemoryFault(rec, name, budget) <==>
      v == Violation(RssExceeded(name), Fail, Standing, 0, false, 0.0) && Over(rec.processes, name, budget)
  {
    NamedIsFirst(rec.processes, name);
    hide ProcessNamed;
  }

  lemma GoneFaultExactly(b: Budgets, ops: seq<Op>, rec: Rec, name: string, v: Violation)
    ensures v in GoneFault(NotePids(RunState(b, ops), rec.processes), rec, name) <==>
      && v == Violation(Gone(name), Fail, Standing, 0, false, 0.0)
      && SeenRunning(ops, name) && forall p <- rec.processes :: p.name != name
  {
    NamedIsFirst(rec.processes, name);
    NotedPids(RunState(b, ops), rec.processes, name);
    SeenRunningIs(b, ops, name);
    hide ProcessNamed, NotePids, RunState, SeenRunning;
  }

  lemma LogFaultExactly(b: Budgets, l: Logs, v: Violation)
    ensures v in LogFaults(b, l) <==>
      || (l.sendqProper && v == Violation(SendqProper, Fail, Standing, 0, false, 0.0))
      || (l.sendqWarn && v == Violation(SendqWarn, if b.allowSendqWarn then Warn else Fail, Standing, 0, false, 0.0))
      || (l.netlinkOverrun && v == Violation(NetlinkOverrun, Fail, Standing, 0, false, 0.0))
      || (l.crash && v == Violation(BgpdCrash, Fail, Standing, 0, false, 0.0))
      || (l.optmem && v == Violation(OptmemExhausted, Fail, Standing, 0, false, 0.0))
  {
  }

  lemma DplaneFaultExactly(b: Budgets, baseline: Option<int>, dp: Option<Dplane>, v: Violation)
    ensures v in DplaneFaults(b, baseline, dp) <==>
      dp.Some? &&
      (|| (dp.value.updateErrors > b.maxDplaneErrors && v == Violation(DplaneErrors, Fail, Standing, 0, false, 0.0))
       || (MarkAtLimit(dp.value) && baseline.None? && v == Violation(SaturatedBeforeRun, Warn, Standing, 0, false, 0.0))
       || (MarkAtLimit(dp.value) && baseline.Some? && dp.value.queueMax.value > baseline.value
           && v == Violation(Saturated, Warn, Standing, 0, false, 0.0))
       || (dp.value.skipped != 0 && v == Violation(UpdatesSkipped, Warn, Standing, 0, false, 0.0)))
  {
  }

  lemma SessionFaultExactly(b: Budgets, rec: Rec, suppressed: bool, v: Violation)
    ensures v in SessionFaults(b, rec, suppressed) <==>
      && !suppressed && v.code.FailedPeers? && v == Violation(v.code, Fail, Standing, 0, false, 0.0)
      && Failed(rec, v.code.v6) > b.maxFailedPeers
  {
  }

  lemma RaisedInParts(b: Budgets, s: State, rec: Rec, at: real, v: Violation)
    requires !v.code.Restarted? && Judged(rec)
    ensures v in Raised(b, s, rec, at) <==>
      || v in SessionFaults(b, rec, Suppressed(s, at))
      || v in MemoryFault(rec, "bgpd", b.bgpdRssMb) || v in MemoryFault(rec, "zebra", b.zebraRssMb)
      || v in GoneFault(NotePids(s, rec.processes), rec, "bgpd")
      || v in GoneFault(NotePids(s, rec.processes), rec, "zebra")
      || v in LogFaults(b, rec.logs) || v in DplaneFaults(b, s.qmaxBaseline, rec.dplane)
  {
    hide SessionFaults, MemoryFault, GoneFault, LogFaults, DplaneFaults, NotePids, RestartFaults;
    OnlyRestarts(s, rec.processes, WatchdogRecent(NoteWatchdog(s, rec), rec));
  }

  lemma JudgedRaise(b: Budgets, ops: seq<Op>, rec: Rec, at: real, v: Violation)
    requires !v.code.Restarted? && Judged(rec)
    ensures v in Raised(b, RunState(b, ops), rec, at) <==>
      v == Violation(v.code, Grade(b, v.code), Standing, 0, false, 0.0) && Warranted(b, ops, rec, at, v.code)
  {
    hide SessionFaults, MemoryFault, GoneFault, LogFaults, DplaneFaults, NotePids, RestartFaults, RunState;
    hide Failed, SeenRunning, Over, MarkAtLimit, Impaired, Peak, Raised, ReadFailed, HasPid;
    var s := RunState(b, ops);
    JudgedExactly(rec);
    RaisedInParts(b, s, rec, at, v);
    FieldsAre(b, ops);
    SessionFaultExactly(b, rec, Suppressed(s, at), v);
    MemoryFaultExactly(rec, "bgpd", b.bgpdRssMb, v);
    MemoryFaultExactly(rec, "zebra", b.zebraRssMb, v);
    GoneFaultExactly(b, ops, rec, "bgpd", v);
    GoneFaultExactly(b, ops, rec, "zebra", v);
    LogFaultExactly(b, rec.logs, v);
    DplaneFaultExactly(b, s.qmaxBaseline, rec.dplane, v);
  }

  /**
    After any run of calls a record raises, restarts apart, exactly the violations it gives reason for, each with its
    own severity.
   */
  lemma RaisedExactly(b: Budgets, ops: seq<Op>, rec: Rec, at: real, v: Violation)
    requires !v.code.Restarted?
    ensures v in Raised(b, RunState(b, ops), rec, at) <==>
      v == Violation(v.code, Grade(b, v.code), Standing, 0, false, 0.0) && Warranted(b, ops, rec, at, v.code)
  {
    hide Failed, SeenRunning, Over, MarkAtLimit, Impaired, Peak, RunState;
    hide SessionFaults, MemoryFault, GoneFault, LogFaults, DplaneFaults, NotePids, RestartFaults;
    JudgedExactly(rec);
    if Judged(rec) {
      hide Raised, Warranted, Grade;
      JudgedRaise(b, ops, rec, at, v);
    }
  }

  // ---- the promises ----

  /**
    After any run of calls, a record faults a family's peers exactly when it is judged, more of them are down than
    the budget allows, and no impairment or grace covers the moment.
   */
  lemma PeerFaultsExactly(b: Budgets, ops: seq<Op>, rec: Rec, at: real, v6: bool)
    ensures Raises(Raised(b, RunState(b, ops), rec, at), FailedPeers(v6)) <==>
      && Judged(rec) && !Impaired(ops, at)
      && (if rec.bgp.None? then 0 else if v6 then rec.bgp.value.1.failed else rec.bgp.value.0.failed) > b.maxFailedPeers
  {
    hide Raised, RunState, Impaired;
    RaisedExactly(b, ops, rec, at, Plain(FailedPeers(v6), Fail));
    OnlyPlain(b, ops, rec, at, FailedPeers(v6));
  }

  /** A code other than a restart is raised, if at all, by one violation. */
  lemma OnlyPlain(b: Budgets, ops: seq<Op>, rec: Rec, at: real, code: Code)
    requires !code.Restarted?
    ensures var vs := Raised(b, RunState(b, ops), rec, at);
            Raises(vs, code) <==> Violation(code, Grade(b, code), Standing, 0, false, 0.0) in vs
  {
    hide Raised, RunState, Warranted;
    forall v <- Raised(b, RunState(b, ops), rec, at) | v.code == code
      ensures v == Violation(code, Grade(b, code), Standing, 0, false, 0.0)
    {
      RaisedExactly(b, ops, rec, at, v);
    }
  }

  /**
    After any run of calls, saturation is reported exactly when a judged record reports a mark at its limit that is
    higher than every mark before it; and as having happened before the run exactly when there was none before it.
   */
  lemma SaturationExactly(b: Budgets, ops: seq<Op>, rec: Rec, at: real)
    ensures var raised, peak := Raised(b, RunState(b, ops), rec, at), Peak(ops);
            var atLimit := QueueSeen(CheckRec(rec, at))
              && rec.dplane.value.queueMax.value >= rec.dplane.value.queueLimit.value;
            && (Raises(raised, Saturated) <==> atLimit && peak.Some? && rec.dplane.value.queueMax.value > peak.value)
            && (Raises(raised, SaturatedBeforeRun) <==> atLimit && peak.None?)
  {
    hide Raised, RunState, Peak;
    forall code | code in {SaturatedBeforeRun, Saturated}
      ensures Raises(Raised(b, RunState(b, ops), rec, at), code) <==> Warranted(b, ops, rec, at, code)
    {
      OnlyPlain(b, ops, rec, at, code);
      RaisedExactly(b, ops, rec, at, Plain(code, Warn));
    }
  }

  /**
    After any run of calls, every restart a record raises is blamed on the watchdog exactly when the last record
    that carried the unresponsive signature, this one included, is at most the attribution time old.
   */
  lemma WatchdogBlamedExactly(b: Budgets, ops: seq<Op>, rec: Rec, at: real, d: string)
    ensures var last := LastUnresponsive(ops + [CheckRec(rec, at)]);
            forall v <- RestartsOf(Raised(b, RunState(b, ops), rec, at), d) ::
              v.watchdog <==> last.Some? && rec.t.Some? && rec.t.value - last.value <= 600.0
  {
    var s, all := RunState(b, ops), ops + [CheckRec(rec, at)];
    FieldsAre(b, ops);
    assert Init(all) == ops;
    hide Raised, RestartFaults;
    RestartsRaised(b, s, rec, at, d);
    if Judged(rec) {
      var watchdog := WatchdogRecent(NoteWatchdog(s, rec), rec);
      OnlyRestarts(s, rec.processes, watchdog);
      RestartsAmong(RestartFaults(s, rec.processes, watchdog), d);
    }
  }

  lemma {:induction false} RestartsAmong(vs: seq<Violation>, d: string)
    ensures forall v <- RestartsOf(vs, d) :: v in vs
  {
    if vs != [] {
      RestartsAmong(vs[1..], d);
    }
  }

  // ---- route summaries ----

  /** A summary is found fault with exactly when it is unreadable, has no BGP row, or falls short of the ratio. */
  lemma FibRaisedExactly(b: Budgets, since: Option<real>, f: FibSummary, t: Option<real>)
    ensures FibRaised(b, since, f, t) == [] <==>
      && f.ok && f.routes.Some?
      && (f.routes.value == 0 || f.fib as real >= f.routes.value as real * b.fibMinRatio)
    ensures forall v <- FibRaised(b, since, f, t) ::
      && v.code == (if !f.ok then FibUnreadable else if f.routes.None? then FibUnrecognised else FibBehindRib)
      && (v.code != FibBehindRib ==> v.severity == Warn && v.dedup == PerFamily(f.v6))
      && (v.code == FibBehindRib ==> v.dedup == PerFamilySeverity(f.v6, v.severity))
  {
    if Measured(f) {
      var fib, routes := f.fib as real, f.routes.value as real;
      assert fib == (fib / routes) * routes;
      if fib / routes < b.fibMinRatio { assert (b.fibMinRatio - fib / routes) * routes > 0.0; }
      if fib / routes >= b.fibMinRatio { assert (fib / routes - b.fibMinRatio) * routes >= 0.0; }
    }
  }
}
