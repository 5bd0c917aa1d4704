/** `PredicateSet` over whole runs: nothing reported twice, restarts counted, a held FIB lag escalated. */
module PredicateRuns {
  import opened Wrappers
  import opened Sequences
  import opened Telemetry
  import opened Predicates

  datatype Op =
    | Expect(name: string)
    | ImpairStart
    | ImpairStop(now: real, grace: Option<real>)
    | CheckRec(rec: Rec, at: real)
    | Fib(summary: FibSummary, t: Option<real>)

  function RaisedBy(b: Budgets, s: State, op: Op): seq<Violation> {
    match op
    case CheckRec(rec, at) => Raised(b, s, rec, at)
    case Fib(f, t) => FibRaised(b, s.fibLagSince, f, t)
    case _ => []
  }

  /** The fields after one call, as the contracts of the class state them. */
  function After(b: Budgets, s: State, op: Op): State {
    match op
    case Expect(name) => s.(expected := s.expected + {name})
    case ImpairStart => s.(impaired := true)
    case ImpairStop(now, grace) => s.(impaired := false, impairUntil := now + grace.GetOr(IMPAIR_GRACE))
    case CheckRec(rec, at) => Noted(s, rec).(seen := s.seen + KeysOf(Raised(b, s, rec, at)))
    case Fib(f, t) => s.(fibLagSince := LagAfter(b, s.fibLagSince, f, t),
      seen := s.seen + KeysOf(FibRaised(b, s.fibLagSince, f, t)))
  }

  function RunState(b: Budgets, ops: seq<Op>): State {
    if ops == [] then FRESH else After(b, RunState(b, Init(ops)), Last(ops))
  }

  function AllRaised(b: Budgets, ops: seq<Op>): seq<Violation> {
    if ops == [] then []
    else AllRaised(b, Init(ops)) + RaisedBy(b, RunState(b, Init(ops)), Last(ops))
  }

  function AllReported(b: Budgets, ops: seq<Op>): seq<Violation> {
    if ops == [] then []
    else
      var s := RunState(b, Init(ops));
      AllReported(b, Init(ops)) + Unseen(RaisedBy(b, s, Last(ops)), s.seen)
  }

  // ---- once per run ----

  predicate KeysDistinct(vs: seq<Violation>) {
    forall i, j | 0 <= i < j < |vs| :: KeyOf(vs[i]) != KeyOf(vs[j])
  }

  /** What a run reports is what it raises, first occurrences only, whichever call raised them. */
  lemma {:induction false} ReportedIsFirstRaised(b: Budgets, ops: seq<Op>)
    ensures AllReported(b, ops) == Unseen(AllRaised(b, ops), {})
    ensures RunState(b, ops).seen == KeysOf(AllRaised(b, ops))
  {
    hide RaisedBy, FibRaised, Raised, LagAfter, NotePids;
    if ops != [] {
      var s := RunState(b, Init(ops));
      var before, now := AllRaised(b, Init(ops)), RaisedBy(b, s, Last(ops));
      ReportedIsFirstRaised(b, Init(ops));
      UnseenAppend(before, now, {});
      assert {} + KeysOf(before) == KeysOf(before);
      assert KeysOf(before + now) == KeysOf(before) + KeysOf(now);
      SeenGrows(b, s, Last(ops));
    }
  }

  lemma SeenGrows(b: Budgets, s: State, op: Op)
    ensures After(b, s, op).seen == s.seen + KeysOf(RaisedBy(b, s, op))
  {
    hide FibRaised, Raised, LagAfter, NotePids;
    assert KeysOf([]) == {};
    if op.CheckRec? { SeenUnchanged(s, op.rec); }
  }

  lemma {:induction false} UnseenOnce(vs: seq<Violation>, seen: set<Key>)
    ensures KeysDistinct(Unseen(vs, seen))
    ensures KeysOf(Unseen(vs, seen)) == KeysOf(vs) - seen
  {
    if vs != [] {
      var k := KeyOf(vs[0]);
      assert KeysOf(vs) == {k} + KeysOf(vs[1..]);
      if k in seen {
        UnseenOnce(vs[1..], seen);
      } else {
        var rest := Unseen(vs[1..], seen + {k});
        UnseenOnce(vs[1..], seen + {k});
        assert forall i | 0 <= i < |rest| :: KeyOf(rest[i]) in KeysOf(rest);
        assert KeysOf([vs[0]] + rest) == {k} + KeysOf(rest);
      }
    }
  }

  /** Every key raised during a run is reported exactly once, and nothing else is. */
  lemma EachKeyReportedOnce(b: Budgets, ops: seq<Op>)
    ensures KeysDistinct(AllReported(b, ops))
    ensures KeysOf(AllReported(b, ops)) == KeysOf(AllRaised(b, ops))
  {
    ReportedIsFirstRaised(b, ops);
    UnseenOnce(AllRaised(b, ops), {});
  }

  // ---- restarts ----

  function RestartsOf(vs: seq<Violation>, d: string): seq<Violation> {
    if vs == [] then []
    else (if vs[0].code == Restarted(d) then [vs[0]] else []) + RestartsOf(vs[1..], d)
  }

  lemma {:induction false} RestartsAppend(vs: seq<Violation>, ws: seq<Violation>, d: string)
    ensures RestartsOf(vs + ws, d) == RestartsOf(vs, d) + RestartsOf(ws, d)
  {
    if vs == [] {
      assert vs + ws == ws;
    } else {
      assert (vs + ws)[1..] == vs[1..] + ws;
      RestartsAppend(vs[1..], ws, d);
      RestartsCons(vs, d);
      RestartsCons(vs + ws, d);
      hide RestartsOf;
    }
  }

  lemma RestartsCons(vs: seq<Violation>, d: string)
    requires vs != []
    ensures RestartsOf(vs, d) == (if vs[0].code == Restarted(d) then [vs[0]] else []) + RestartsOf(vs[1..], d)
  {
  }

  lemma {:induction false} NoRestarts(vs: seq<Violation>, d: string)
    requires forall i | 0 <= i < |vs| :: vs[i].code != Restarted(d)
    ensures RestartsOf(vs, d) == []
  {
    if vs != [] {
      NoRestarts(vs[1..], d);
    }
  }

  lemma {:induction false} NamedAppend(ps: seq<Process>, d: string)
    requires ps != [] && NamesDistinct(ps)
    ensures ProcessNamed(ps, d) == if Last(ps).name == d then Some(Last(ps)) else ProcessNamed(Init(ps), d)
  {
    if |ps| > 1 {
      assert Init(ps)[1..] == Init(ps[1..]);
      NamedAppend(ps[1..], d);
      assert ps[0].name != Last(ps).name;
    }
  }

  /** What the predicate set knows about one daemon. */
  datatype View = View(pid: Option<int>, count: nat, expected: bool)

  function ViewOf(s: State, d: string): View {
    View(if d in s.pids then Some(s.pids[d]) else None, RestartCount(s, d), d in s.expected)
  }

  predicate Moved(v: View, pid: Option<int>) {
    pid.Some? && v.pid.Some? && pid != v.pid
  }

  function ViewAfter(v: View, pid: Option<int>): View {
    if pid.None? then v
    else if Moved(v, pid) then View(pid, v.count + 1, false)
    else View(pid, v.count, v.expected)
  }

  function RestartFor(d: string, v: View, pid: Option<int>, watchdog: bool): seq<Violation> {
    if !Moved(v, pid) then []
    else
      var severity := if v.expected then Info else Fail;
      [Violation(Restarted(d), severity, PidChange(v.pid.value, pid.value), v.count + 1, watchdog, 0.0)]
  }

  function PidIn(ps: seq<Process>, d: string): Option<int> {
    var p := ProcessNamed(ps, d);
    if p.Some? then p.value.pid else None
  }

  lemma OneProcess(s: State, p: Process, d: string, watchdog: bool)
    ensures ViewOf(NotePid(s, p), d) == if p.name == d then ViewAfter(ViewOf(s, d), p.pid) else ViewOf(s, d)
    ensures (if Changed(s, p) then [RestartOf(s, p, watchdog)] else []) ==
      RestartFor(p.name, ViewOf(s, p.name), p.pid, watchdog)
  {
  }

  lemma {:induction false} PassView(s: State, ps: seq<Process>, d: string)
    requires NamesDistinct(ps)
    ensures ViewOf(NotePids(s, ps), d) == ViewAfter(ViewOf(s, d), PidIn(ps, d))
  {
    if ps != [] {
      hide ViewOf, NotePid, ViewAfter;
      var before, p := NotePids(s, Init(ps)), Last(ps);
      PassView(s, Init(ps), d);
      NamedAppend(ps, d);
      OneProcess(before, p, d, false);
      if p.name == d {
        AbsentProcess(Init(ps), d);
        NotSighted(ViewOf(s, d));
      }
    } else {
      NotSighted(ViewOf(s, d));
    }
  }

  lemma NotSighted(v: View)
    ensures ViewAfter(v, None) == v
  {
  }

  /** One pass over the processes moves a daemon's view once, and raises the violation that move calls for. */
  lemma {:induction false} PassForDaemon(s: State, ps: seq<Process>, watchdog: bool, d: string)
    requires NamesDistinct(ps)
    ensures ViewOf(NotePids(s, ps), d) == ViewAfter(ViewOf(s, d), PidIn(ps, d))
    ensures RestartsOf(RestartFaults(s, ps, watchdog), d) == RestartFor(d, ViewOf(s, d), PidIn(ps, d), watchdog)
  {
    PassView(s, ps, d);
    if ps != [] {
      hide ViewOf, NotePid, Changed, RestartOf, ViewAfter, NamesDistinct;
      var before, p := NotePids(s, Init(ps)), Last(ps);
      DistinctInit(ps);
      PassForDaemon(s, Init(ps), watchdog, d);
      NamedAppend(ps, d);
      OneProcess(before, p, d, watchdog);
      var tail := if Changed(before, p) then [RestartOf(before, p, watchdog)] else [];
      RestartsAppend(RestartFaults(s, Init(ps), watchdog), tail, d);
      RestartsOfOne(tail, p.name, d);
      if p.name == d {
        LastIsAbsent(ps);
        NotSighted(ViewOf(s, d));
      }
    }
  }

  lemma DistinctInit(ps: seq<Process>)
    requires ps != [] && NamesDistinct(ps)
    ensures NamesDistinct(Init(ps))
  {
  }

  lemma LastIsAbsent(ps: seq<Process>)
    requires ps != [] && NamesDistinct(ps)
    ensures ProcessNamed(Init(ps), Last(ps).name) == None
  {
    AbsentProcess(Init(ps), Last(ps).name);
  }

  lemma RestartsOfOne(tail: seq<Violation>, name: string, d: string)
    requires |tail| <= 1 && forall i | 0 <= i < |tail| :: tail[i].code == Restarted(name)
    ensures RestartsOf(tail, d) == if name == d then tail else []
  {
    if tail != [] {
      assert tail[1..] == [];
    }
  }

  lemma {:induction false} AbsentProcess(ps: seq<Process>, d: string)
    requires forall i | 0 <= i < |ps| :: ps[i].name != d
    ensures ProcessNamed(ps, d) == None
  {
    if ps != [] {
      AbsentProcess(ps[1..], d);
    }
  }

  /** One record raises at most the one restart violation its pass over the processes calls for. */
  lemma RestartsRaised(b: Budgets, s: State, rec: Rec, at: real, d: string)
    ensures RestartsOf(Raised(b, s, rec, at), d) ==
      if Judged(rec) then RestartsOf(RestartFaults(s, rec.processes, WatchdogRecent(NoteWatchdog(s, rec), rec)), d)
        else []
  {
    if Judged(rec) {
      hide RestartFaults, NotePids;
      var noted := NotePids(s, rec.processes);
      var head := SessionFaults(b, rec, Suppressed(s, at))
        + MemoryFault(rec, "bgpd", b.bgpdRssMb) + MemoryFault(rec, "zebra", b.zebraRssMb);
      var faults := RestartFaults(s, rec.processes, WatchdogRecent(NoteWatchdog(s, rec), rec));
      var tail := GoneFault(noted, rec, "bgpd") + GoneFault(noted, rec, "zebra")
        + LogFaults(b, rec.logs) + DplaneFaults(b, s.qmaxBaseline, rec.dplane);
      HeadHasNone(b, s, rec, at, d);
      TailHasNone(b, s, noted, rec, d);
      RestartsAppend(head + faults, tail, d);
      RestartsAppend(head, faults, d);
      RaisedParts(b, s, rec, at);
    } else {
      NoRestarts(Raised(b, s, rec, at), d);
    }
  }

  lemma RaisedParts(b: Budgets, s: State, rec: Rec, at: real)
    requires Judged(rec)
    ensures var noted := NotePids(s, rec.processes);
            Raised(b, s, rec, at) ==
              (SessionFaults(b, rec, Suppressed(s, at))
               + MemoryFault(rec, "bgpd", b.bgpdRssMb) + MemoryFault(rec, "zebra", b.zebraRssMb))
              + RestartFaults(s, rec.processes, WatchdogRecent(NoteWatchdog(s, rec), rec))
              + (GoneFault(noted, rec, "bgpd") + GoneFault(noted, rec, "zebra")
                 + LogFaults(b, rec.logs) + DplaneFaults(b, s.qmaxBaseline, rec.dplane))
  {
    hide SessionFaults, MemoryFault, RestartFaults, GoneFault, LogFaults, DplaneFaults, NotePids;
    var noted := NotePids(s, rec.processes);
    var x := SessionFaults(b, rec, Suppressed(s, at))
      + MemoryFault(rec, "bgpd", b.bgpdRssMb) + MemoryFault(rec, "zebra", b.zebraRssMb)
      + RestartFaults(s, rec.processes, WatchdogRecent(NoteWatchdog(s, rec), rec));
    FourPieces(x, GoneFault(noted, rec, "bgpd"), GoneFault(noted, rec, "zebra"),
               LogFaults(b, rec.logs), DplaneFaults(b, s.qmaxBaseline, rec.dplane));
  }

  lemma FourPieces<T>(x: seq<T>, p: seq<T>, q: seq<T>, r: seq<T>, t: seq<T>)
    ensures x + p + q + r + t == x + (p + q + r + t)
  {
  }

  lemma HeadHasNone(b: Budgets, s: State, rec: Rec, at: real, d: string)
    ensures RestartsOf(SessionFaults(b, rec, Suppressed(s, at))
      + MemoryFault(rec, "bgpd", b.bgpdRssMb) + MemoryFault(rec, "zebra", b.zebraRssMb), d) == []
  {
    NoRestarts(SessionFaults(b, rec, Suppressed(s, at))
      + MemoryFault(rec, "bgpd", b.bgpdRssMb) + MemoryFault(rec, "zebra", b.zebraRssMb), d);
  }

  lemma LogsHaveNone(b: Budgets, logs: Logs, d: string)
    ensures RestartsOf(LogFaults(b, logs), d) == []
  {
    NoRestarts(LogFaults(b, logs), d);
  }

  lemma TailHasNone(b: Budgets, s: State, noted: State, rec: Rec, d: string)
    ensures RestartsOf(GoneFault(noted, rec, "bgpd") + GoneFault(noted, rec, "zebra")
      + LogFaults(b, rec.logs) + DplaneFaults(b, s.qmaxBaseline, rec.dplane), d) == []
  {
    var gone, logs, plane := GoneFault(noted, rec, "bgpd") + GoneFault(noted, rec, "zebra"),
      LogFaults(b, rec.logs), DplaneFaults(b, s.qmaxBaseline, rec.dplane);
    NoRestarts(gone, d);
    LogsHaveNone(b, rec.logs, d);
    NoRestarts(plane, d);
    hide GoneFault, LogFaults, DplaneFaults, RestartsOf;
    RestartsAppend(gone + logs, plane, d);
    RestartsAppend(gone, logs, d);
  }

  /** The PIDs of `d` in judged samples, in order. */
  function PidTrail(ops: seq<Op>, d: string): seq<int> {
    if ops == [] then []
    else PidTrail(Init(ops), d) + PidSeen(Last(ops), d)
  }

  function PidSeen(op: Op, d: string): seq<int> {
    var pid := PidOfCall(op, d);
    if pid.Some? then [pid.value] else []
  }

  function PidOfCall(op: Op, d: string): Option<int> {
    if op.CheckRec? && Judged(op.rec) then PidIn(op.rec.processes, d) else None
  }

  /** The adjacent pairs of a trail that differ. */
  function Changes(trail: seq<int>): seq<(int, int)> {
    if |trail| < 2 then []
    else
      var x, y := trail[|trail| - 2], trail[|trail| - 1];
      Changes(Init(trail)) + (if x != y then [(x, y)] else [])
  }

  predicate WellFormed(ops: seq<Op>) {
    forall i | 0 <= i < |ops| :: ops[i].CheckRec? ==> NamesDistinct(ops[i].rec.processes)
  }

  /** The restart violations of one daemon are its PID changes, numbered from 1. */
  predicate Numbered(rs: seq<Violation>, changes: seq<(int, int)>, d: string) {
    && |rs| == |changes|
    && forall i | 0 <= i < |rs| ::
         rs[i].code == Restarted(d) && rs[i].nth == i + 1 && rs[i].dedup == PidChange(changes[i].0, changes[i].1)
  }

  function CountInfo(rs: seq<Violation>): nat {
    if rs == [] then 0 else CountInfo(Init(rs)) + (if Last(rs).severity == Info then 1 else 0)
  }

  function CountExpect(ops: seq<Op>, d: string): nat {
    if ops == [] then 0 else CountExpect(Init(ops), d) + (if Last(ops) == Expect(d) then 1 else 0)
  }

  /** What one call does to a daemon's view, and the restart violation it raises. */
  lemma CallForDaemon(b: Budgets, s: State, op: Op, d: string) returns (watchdog: bool)
    requires op.CheckRec? ==> NamesDistinct(op.rec.processes)
    ensures ViewOf(After(b, s, op), d) ==
      if op == Expect(d) then ViewOf(s, d).(expected := true) else ViewAfter(ViewOf(s, d), PidOfCall(op, d))
    ensures RestartsOf(RaisedBy(b, s, op), d) == RestartFor(d, ViewOf(s, d), PidOfCall(op, d), watchdog)
  {
    watchdog := false;
    if op.CheckRec? {
      hide Raised, RestartFaults, NotePids, NoteQueue, RestartsOf, KeysOf, ProcessNamed;
      var rec := op.rec;
      watchdog := WatchdogRecent(NoteWatchdog(s, rec), rec);
      RestartsRaised(b, s, rec, op.at, d);
      if Judged(rec) {
        PassForDaemon(s, rec.processes, watchdog, d);
        WatchdogIrrelevant(s, rec);
      }
    } else {
      OtherCall(b, s, op, d);
    }
  }

  /** A call that judges no record raises no restart, and leaves the view alone unless it announces one. */
  lemma OtherCall(b: Budgets, s: State, op: Op, d: string)
    requires !op.CheckRec?
    ensures ViewOf(After(b, s, op), d) == if op == Expect(d) then ViewOf(s, d).(expected := true) else ViewOf(s, d)
    ensures RestartsOf(RaisedBy(b, s, op), d) == []
  {
    hide LagAfter, KeysOf, RestartsOf;
    NoRestarts(RaisedBy(b, s, op), d);
  }

  /**
    Over any run: each PID change of a daemon among judged samples raises exactly one restart violation,
    numbered 1, 2, 3 in order, and at most one is informational for each announced restart.
   */
  lemma {:induction false} RestartsAreChanges(b: Budgets, ops: seq<Op>, d: string)
    requires WellFormed(ops)
    ensures var v := ViewOf(RunState(b, ops), d); var trail := PidTrail(ops, d);
            var rs := RestartsOf(AllRaised(b, ops), d);
            && v.pid == (if trail == [] then None else Some(Last(trail)))
            && v.count == |Changes(trail)|
            && Numbered(rs, Changes(trail), d)
            && CountInfo(rs) + (if v.expected then 1 else 0) <= CountExpect(ops, d)
  {
    if ops == [] {
      assert PidTrail(ops, d) == [] && AllRaised(b, ops) == [];
      assert d !in FRESH.pids && RestartCount(FRESH, d) == 0;
    } else {
      hide RaisedBy, After, PidOfCall, ViewOf, Changes, CountInfo, RestartsOf;
      var before, op := Init(ops), Last(ops);
      var s := RunState(b, before);
      RestartsAreChanges(b, before, d);
      var watchdog := CallForDaemon(b, s, op, d);
      RestartsAppend(AllRaised(b, before), RaisedBy(b, s, op), d);
      ExpectIsNoSighting(op, d);
      RestartStep(ViewOf(s, d), PidTrail(before, d), RestartsOf(AllRaised(b, before), d), PidOfCall(op, d), watchdog,
        d);
    }
  }

  lemma ExpectIsNoSighting(op: Op, d: string)
    ensures op == Expect(d) ==> PidOfCall(op, d) == None
  {
  }

  /** One sighting extends the trail, the changes and the numbered violations together. */
  lemma RestartStep(v: View, trail: seq<int>, rs: seq<Violation>, pid: Option<int>, watchdog: bool, d: string)
    requires v.pid == (if trail == [] then None else Some(Last(trail)))
    requires v.count == |Changes(trail)| && Numbered(rs, Changes(trail), d)
    ensures var next := trail + (if pid.Some? then [pid.value] else []); var more := RestartFor(d, v, pid, watchdog);
            var e := ViewAfter(v, pid);
            && e.pid == (if next == [] then None else Some(Last(next)))
            && e.count == |Changes(next)|
            && Numbered(rs + more, Changes(next), d)
            && CountInfo(rs + more) + (if e.expected then 1 else 0) <= CountInfo(rs) + (if v.expected then 1 else 0)
  {
    hide Changes, CountInfo;
    var seen := if pid.Some? then [pid.value] else [];
    ChangesAppend(trail, seen);
    CountInfoAppend(rs, RestartFor(d, v, pid, watchdog));
    if seen == [] { assert trail + seen == trail; assert rs + [] == rs; }
  }

  lemma ChangesAppend(trail: seq<int>, seen: seq<int>)
    requires |seen| <= 1
    ensures Changes(trail + seen) == Changes(trail)
      + (if seen != [] && trail != [] && Last(trail) != seen[0] then [(Last(trail), seen[0])] else [])
  {
    var all := trail + seen;
    if seen == [] {
      assert all == trail;
    } else if trail == [] {
      assert Changes(all) == [];
    } else {
      assert Init(all) == trail;
      assert all[|all| - 2] == Last(trail) && all[|all| - 1] == seen[0];
    }
  }

  lemma CountInfoAppend(rs: seq<Violation>, more: seq<Violation>)
    requires |more| <= 1
    ensures CountInfo(rs + more) == CountInfo(rs) + (if more != [] && more[0].severity == Info then 1 else 0)
  {
    if more == [] {
      assert rs + more == rs;
    } else {
      assert Init(rs + more) == rs;
    }
  }

  lemma {:induction false} OtherKeyIrrelevant(vs: seq<Violation>, seen: set<Key>, k: Key)
    requires k !in KeysOf(vs)
    ensures Unseen(vs, seen + {k}) == Unseen(vs, seen)
  {
    if vs != [] {
      assert KeyOf(vs[0]) in KeysOf(vs);
      assert forall v <- vs[1..] :: KeyOf(v) in KeysOf(vs);
      OtherKeyIrrelevant(vs[1..], seen, k);
      OtherKeyIrrelevant(vs[1..], seen + {KeyOf(vs[0])}, k);
      assert seen + {k} + {KeyOf(vs[0])} == seen + {KeyOf(vs[0])} + {k};
    }
  }

  lemma {:induction false} RestartsHaveTheirCode(vs: seq<Violation>, d: string)
    ensures forall v <- RestartsOf(vs, d) :: v.code == Restarted(d)
  {
    if vs != [] {
      RestartsHaveTheirCode(vs[1..], d);
    }
  }

  /** Suppression treats a daemon's restarts as if nothing else were reported. */
  lemma {:induction false} UnseenRestarts(vs: seq<Violation>, seen: set<Key>, d: string)
    ensures RestartsOf(Unseen(vs, seen), d) == Unseen(RestartsOf(vs, d), seen)
  {
    if vs != [] {
      var v, rest := vs[0], RestartsOf(vs[1..], d);
      if KeyOf(v) in seen {
        UnseenRestarts(vs[1..], seen, d);
        assert [] + rest == rest && ([v] + rest)[1..] == rest;
      } else {
        UnseenRestarts(vs[1..], seen + {KeyOf(v)}, d);
        RestartsAppend([v], Unseen(vs[1..], seen + {KeyOf(v)}), d);
        assert [v][1..] == [];
        if v.code == Restarted(d) {
          assert ([v] + rest)[1..] == rest;
        } else {
          RestartsHaveTheirCode(vs[1..], d);
          assert [] + rest == rest;
          OtherKeyIrrelevant(rest, seen, KeyOf(v));
        }
      }
    }
  }

  /** Suppression drops nothing exactly when no key recurs. */
  lemma UnseenAllExactly(vs: seq<Violation>)
    ensures Unseen(vs, {}) == vs <==> KeysDistinct(vs)
  {
    UnseenOnce(vs, {});
    if KeysDistinct(vs) {
      AllUnseen(vs, {});
    }
  }

  lemma {:induction false} AllUnseen(vs: seq<Violation>, seen: set<Key>)
    requires KeysDistinct(vs) && forall v <- vs :: KeyOf(v) !in seen
    ensures Unseen(vs, seen) == vs
  {
    if vs != [] {
      assert vs[0] in vs;
      forall v <- vs[1..]
        ensures KeyOf(v) !in seen + {KeyOf(vs[0])}
      {
        var j :| 0 <= j < |vs| - 1 && vs[1..][j] == v;
        assert KeyOf(vs[0]) != KeyOf(vs[j + 1]);
        assert vs[j + 1] in vs;
      }
      AllUnseen(vs[1..], seen + {KeyOf(vs[0])});
    }
  }

  // ---- which changes were announced ----

  /** The last call shows the daemon with a PID other than the one before. */
  predicate ChangeSeen(ops: seq<Op>, d: string)
    requires ops != []
  {
    var pid, trail := PidOfCall(Last(ops), d), PidTrail(Init(ops), d);
    pid.Some? && trail != [] && Last(trail) != pid.value
  }

  /** A restart was announced and no PID change seen since. */
  predicate Pending(ops: seq<Op>, d: string) {
    ops != [] && (Last(ops) == Expect(d) || (!ChangeSeen(ops, d) && Pending(Init(ops), d)))
  }

  /** For each PID change in order, whether it was announced. */
  function Announced(ops: seq<Op>, d: string): seq<bool> {
    if ops == [] then []
    else Announced(Init(ops), d) + (if ChangeSeen(ops, d) then [Pending(Init(ops), d)] else [])
  }

  predicate SeveritiesSay(rs: seq<Violation>, flags: seq<bool>) {
    |rs| == |flags| && forall i | 0 <= i < |rs| :: rs[i].severity == if flags[i] then Info else Fail
  }

  /** A change is informational exactly when it was announced. */
  lemma {:induction false} InfoIsAnnounced(b: Budgets, ops: seq<Op>, d: string)
    requires WellFormed(ops)
    ensures ViewOf(RunState(b, ops), d).expected == Pending(ops, d)
    ensures SeveritiesSay(RestartsOf(AllRaised(b, ops), d), Announced(ops, d))
  {
    hide AllRaised, RaisedBy, After, ViewOf, PidOfCall, RestartsOf, PidTrail;
    if ops == [] {
      FreshView(b, d);
    } else {
      var before, op := Init(ops), Last(ops);
      var s := RunState(b, before);
      assert WellFormed(before);
      InfoIsAnnounced(b, before, d);
      RestartsAreChanges(b, before, d);
      var watchdog := CallForDaemon(b, s, op, d);
      RestartsAppend(AllRaised(b, before), RaisedBy(b, s, op), d);
      ExpectIsNoSighting(op, d);
      AllRaisedLast(b, ops);
    }
  }

  lemma FreshView(b: Budgets, d: string)
    ensures ViewOf(RunState(b, []), d) == View(None, 0, false) && RestartsOf(AllRaised(b, []), d) == []
  {
  }

  lemma AllRaisedLast(b: Budgets, ops: seq<Op>)
    requires ops != []
    ensures AllRaised(b, ops) == AllRaised(b, Init(ops)) + RaisedBy(b, RunState(b, Init(ops)), Last(ops))
    ensures RunState(b, ops) == After(b, RunState(b, Init(ops)), Last(ops))
  {
  }

  /**
    Every PID change of a daemon is reported exactly when no change from the same PID to the same PID recurs
    among the announced ones, and none among the others. In particular it is when no pair recurs at all.
   */
  lemma RestartsReportedExactly(b: Budgets, ops: seq<Op>, d: string)
    requires WellFormed(ops)
    ensures var rs := RestartsOf(AllRaised(b, ops), d);
            var changes, announced := Changes(PidTrail(ops, d)), Announced(ops, d);
            && Numbered(rs, changes, d) && |announced| == |changes|
            && (RestartsOf(AllReported(b, ops), d) == rs <==>
                  forall i, j | 0 <= i < j < |changes| :: changes[i] != changes[j] || announced[i] != announced[j])
            && ((forall i, j | 0 <= i < j < |changes| :: changes[i] != changes[j]) ==>
              RestartsOf(AllReported(b, ops), d) == rs)
  {
    hide AllRaised, AllReported, PidTrail, Changes, RestartsOf, Announced, Pending;
    var rs, changes := RestartsOf(AllRaised(b, ops), d), Changes(PidTrail(ops, d));
    RestartsAreChanges(b, ops, d);
    InfoIsAnnounced(b, ops, d);
    ReportedIsFirstRaised(b, ops);
    UnseenRestarts(AllRaised(b, ops), {}, d);
    UnseenAllExactly(rs);
    forall i, j | 0 <= i < j < |rs|
      ensures KeyOf(rs[i]) == KeyOf(rs[j]) <==> changes[i] == changes[j] && Announced(ops, d)[i] == Announced(ops, d)[j]
    {
      PairEquality(changes[i], changes[j]);
    }
  }

  /** A sample that shows only bgpd, with this PID. */
  function Sighting(pid: int): Op {
    CheckRec(Rec(true, None, false, None, [Process("bgpd", Some(pid), 0.0, None)],
                 Logs(false, false, false, false, false, false), None, None), 0.0)
  }

  /** PIDs 1, 2, 1, 2: three restarts, of which two are reported. */
  lemma RecurringPairUnreported(b: Budgets) returns (ops: seq<Op>)
    ensures WellFormed(ops) && Changes(PidTrail(ops, "bgpd")) == [(1, 2), (2, 1), (1, 2)]
    ensures |RestartsOf(AllRaised(b, ops), "bgpd")| == 3 && |RestartsOf(AllReported(b, ops), "bgpd")| == 2
  {
    hide AllRaised, AllReported, RestartsOf, RunState, PidTrail, Changes, Pending, Announced, Unseen;
    ops := [Sighting(1), Sighting(2), Sighting(1), Sighting(2)];
    var d := "bgpd";
    FourSightings(ops);
    RestartsAreChanges(b, ops, d);
    InfoIsAnnounced(b, ops, d);
    assert forall i | 0 <= i < |ops| :: ops[i].CheckRec?;
    NothingAnnounced(ops, d);
    ReportedIsFirstRaised(b, ops);
    UnseenRestarts(AllRaised(b, ops), {}, d);
    ThirdRepeatsFirst(RestartsOf(AllRaised(b, ops), d));
  }

  lemma FourSightings(ops: seq<Op>)
    requires ops == [Sighting(1), Sighting(2), Sighting(1), Sighting(2)]
    ensures WellFormed(ops) && Changes(PidTrail(ops, "bgpd")) == [(1, 2), (2, 1), (1, 2)]
  {
    var d := "bgpd";
    SightingShows(1);
    SightingShows(2);
    hide PidTrail, Changes, PidOfCall, Sighting;
    TrailSteps(ops, d);
    assert PidTrail(ops[..1], d) == [] + [1];
    assert PidTrail(ops[..2], d) == [1] + [2];
    assert PidTrail(ops[..3], d) == [1, 2] + [1];
    assert PidTrail(ops[..4], d) == [1, 2, 1] + [2] && ops[..4] == ops;
    assert PidTrail(ops, d) == [1, 2, 1, 2];
    ChangesOfFour(1, 2, 1, 2);
  }

  lemma SightingShows(pid: int)
    ensures PidOfCall(Sighting(pid), "bgpd") == Some(pid)
    ensures Sighting(pid).CheckRec? && NamesDistinct(Sighting(pid).rec.processes)
  {
  }

  lemma TrailSteps(ops: seq<Op>, d: string)
    requires forall i | 0 <= i < |ops| :: PidOfCall(ops[i], d).Some?
    ensures PidTrail(ops[..0], d) == []
    ensures forall i | 0 <= i < |ops| ::
      PidTrail(ops[..i + 1], d) == PidTrail(ops[..i], d) + [PidOfCall(ops[i], d).value]
  {
    hide PidOfCall;
    forall i | 0 <= i < |ops|
      ensures PidTrail(ops[..i + 1], d) == PidTrail(ops[..i], d) + [PidOfCall(ops[i], d).value]
    {
      assert Init(ops[..i + 1]) == ops[..i];
    }
  }

  lemma ChangesOfFour(w: int, x: int, y: int, z: int)
    requires w != x && x != y && y != z
    ensures Changes([w, x, y, z]) == [(w, x), (x, y), (y, z)]
  {
    assert Init([w, x, y, z]) == [w, x, y] && Init([w, x, y]) == [w, x] && Init([w, x]) == [w];
    assert Changes([w]) == [];
    assert Changes([w, x]) == [(w, x)];
    assert Changes([w, x, y]) == [(w, x), (x, y)];
  }

  lemma {:induction false} NothingAnnounced(ops: seq<Op>, d: string)
    requires forall i | 0 <= i < |ops| :: !ops[i].Expect?
    ensures !Pending(ops, d) && forall i | 0 <= i < |Announced(ops, d)| :: !Announced(ops, d)[i]
  {
    hide ChangeSeen;
    if ops != [] {
      NothingAnnounced(Init(ops), d);
    }
  }

  lemma ThirdRepeatsFirst(rs: seq<Violation>)
    requires |rs| == 3 && KeyOf(rs[0]) == KeyOf(rs[2]) != KeyOf(rs[1])
    ensures |Unseen(rs, {})| == 2
  {
    var k0, k1 := KeyOf(rs[0]), KeyOf(rs[1]);
    assert rs[1..][1..] == [rs[2]] && rs[1..][0] == rs[1] && [rs[2]][1..] == [];
    assert Unseen([rs[2]], {} + {k0} + {k1}) == [];
    assert Unseen(rs[1..], {} + {k0}) == [rs[1]] + Unseen([rs[2]], {} + {k0} + {k1});
  }

  lemma PairEquality(x: (int, int), y: (int, int))
    ensures x == y <==> PidChange(x.0, x.1) == PidChange(y.0, y.1)
  {
  }

  // ---- FIB lag ----

  datatype Reading = Reading(summary: FibSummary, t: Option<real>)

  function TimeOf(r: Reading): real {
    r.t.GetOr(0.0)
  }

  /** `_fib_lag_since` after a run of summaries. */
  function LagSince(b: Budgets, h: seq<Reading>): Option<real> {
    if h == [] then None else LagAfter(b, LagSince(b, Init(h)), Last(h).summary, Last(h).t)
  }

  /** From reading `j` on, every summary that could be measured was behind, `j` itself included. */
  predicate BehindFrom(b: Budgets, h: seq<Reading>, j: nat)
    requires j < |h|
  {
    Behind(b, h[j].summary) && forall k | j <= k < |h| :: Measured(h[k].summary) ==> Behind(b, h[k].summary)
  }

  /** The timer holds the time of the first reading of the current unbroken lag, or nothing. */
  lemma {:induction false} LagSinceIsFirst(b: Budgets, h: seq<Reading>)
    ensures LagSince(b, h).None? ==> forall j | 0 <= j < |h| :: !BehindFrom(b, h, j)
    ensures LagSince(b, h).Some? ==>
      exists j | 0 <= j < |h| :: BehindFrom(b, h, j) && LagSince(b, h) == Some(TimeOf(h[j]))
        && forall i | 0 <= i < |h| && BehindFrom(b, h, i) :: j <= i
  {
    if h != [] {
      var before, r := Init(h), Last(h);
      hide Behind, Measured;
      LagSinceIsFirst(b, before);
      MeasuredIfBehind(b, r.summary);
      forall i | 0 <= i < |before|
        ensures BehindFrom(b, h, i) <==> BehindFrom(b, before, i) && (Measured(r.summary) ==> Behind(b, r.summary))
      {
        assert forall k | 0 <= k < |before| :: h[k] == before[k];
      }
      if LagSince(b, before).Some? && (Measured(r.summary) ==> Behind(b, r.summary)) {
        var j :| 0 <= j < |before| && BehindFrom(b, before, j) && LagSince(b, before) == Some(TimeOf(before[j]))
          && forall i | 0 <= i < |before| && BehindFrom(b, before, i) :: j <= i;
        assert BehindFrom(b, h, j);
      } else if Behind(b, r.summary) {
        assert BehindFrom(b, h, |h| - 1);
      }
    }
  }

  lemma MeasuredIfBehind(b: Budgets, f: FibSummary)
    ensures Behind(b, f) ==> Measured(f)
  {
  }

  predicate Nondecreasing(h: seq<Reading>) {
    forall i, j | 0 <= i < j < |h| :: TimeOf(h[i]) <= TimeOf(h[j])
  }

  /** `feed_fib` reports a failure on the last reading. */
  predicate Escalates(b: Budgets, h: seq<Reading>)
    requires h != []
  {
    exists v <- FibRaised(b, LagSince(b, Init(h)), Last(h).summary, Last(h).t) :: v.severity == Fail
  }

  /**
    A lag is a failure exactly when some reading more than the grace ago was behind and every measured
    reading since, of either family, was behind too. The timer is shared: see SharedTimerHidesLag.
   */
  lemma EscalatesExactly(b: Budgets, h: seq<Reading>)
    requires h != [] && Nondecreasing(h)
    ensures Escalates(b, h) <==>
      Behind(b, Last(h).summary)
      && (b.fibLagGrace < 0.0
          || exists j | 0 <= j < |h| :: BehindFrom(b, h, j) && TimeOf(Last(h)) - TimeOf(h[j]) > b.fibLagGrace)
  {
    var f, t := Last(h).summary, Last(h).t;
    LagSinceIsFirst(b, h);
    assert LagSince(b, h) == LagAfter(b, LagSince(b, Init(h)), f, t);
    var vs := FibRaised(b, LagSince(b, Init(h)), f, t);
    assert vs != [] ==> vs[0] in vs && |vs| == 1;
    if Behind(b, f) {
      assert LagSince(b, h).Some?;
      var held := TimeOf(Last(h)) - LagSince(b, h).value;
      assert Escalates(b, h) <==> held > b.fibLagGrace;
      assert held >= 0.0;
    }
  }

  /** With readings of one family only, the same reads as the documentation has it. */
  lemma OneFamilyEscalates(b: Budgets, h: seq<Reading>, v6: bool)
    requires h != [] && Nondecreasing(h) && b.fibLagGrace >= 0.0
    requires forall i | 0 <= i < |h| :: h[i].summary.v6 == v6
    ensures Escalates(b, h) <==>
      exists j | 0 <= j < |h| :: TimeOf(Last(h)) - TimeOf(h[j]) > b.fibLagGrace && Behind(b, h[j].summary)
        && Behind(b, Last(h).summary)
        && forall k | j <= k < |h| && h[k].summary.v6 == v6 :: Measured(h[k].summary) ==> Behind(b, h[k].summary)
  {
    EscalatesExactly(b, h);
    if Escalates(b, h) {
      var j :| 0 <= j < |h| && BehindFrom(b, h, j) && TimeOf(Last(h)) - TimeOf(h[j]) > b.fibLagGrace;
      assert Behind(b, h[j].summary);
    }
    forall j | 0 <= j < |h|
      ensures BehindFrom(b, h, j) <==> (Behind(b, h[j].summary)
        && forall k | j <= k < |h| && h[k].summary.v6 == v6 :: Measured(h[k].summary) ==> Behind(b, h[k].summary))
    {
    }
  }

  /**
    With both families, a healthy one hides a lagging one for ever: whenever each lagging IPv4 reading is
    followed by a healthy IPv6 one, nothing escalates, however long IPv4 has been behind.
   */
  lemma SharedTimerHidesLag(b: Budgets, h: seq<Reading>)
    requires h != [] && Nondecreasing(h) && b.fibLagGrace >= 0.0
    requires forall i | 0 <= i < |h| - 1 ::
      Behind(b, h[i].summary) ==> Measured(h[i + 1].summary) && !Behind(b, h[i + 1].summary)
    ensures !Escalates(b, h)
  {
    EscalatesExactly(b, h);
    forall j | 0 <= j < |h| - 1
      ensures !BehindFrom(b, h, j)
    {
      if Behind(b, h[j].summary) {
        var k := j + 1;
        assert Measured(h[k].summary) && !Behind(b, h[k].summary);
      }
    }
  }

  /**
    So it is with the default budgets: IPv4 has been behind, with nothing of it installed, for longer than the
    grace and is reported as a warning, because IPv6 was healthy in between. Without the IPv6 reading it fails.
   */
  lemma LagHiddenByOtherFamily(b: Budgets) returns (h: seq<Reading>)
    requires b.fibMinRatio == 0.95 && b.fibLagGrace == 300.0
    ensures |h| == 3 && Nondecreasing(h) && TimeOf(h[2]) - TimeOf(h[0]) > b.fibLagGrace
    ensures !h[0].summary.v6 && h[1].summary.v6 && !h[2].summary.v6 && Behind(b, h[0].summary)
      && Behind(b, h[2].summary)
    ensures !Escalates(b, h) && Escalates(b, [h[0], h[2]])
  {
    var lagging, healthy := FibSummary(false, true, Some(100), 0), FibSummary(true, true, Some(100), 100);
    h := [Reading(lagging, Some(1.0)), Reading(healthy, Some(1.0)), Reading(lagging, Some(302.0))];
    SharedTimerHidesLag(b, h);
    var alone := [h[0], h[2]];
    EscalatesExactly(b, alone);
    assert BehindFrom(b, alone, 0);
  }
}
