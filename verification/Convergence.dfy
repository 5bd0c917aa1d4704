/**
  harness/telemetry.py, `ConvergenceTracker`: when is the table settled? The class updates its fields the
  way the source does; `Step` is what one `feed` does to them, and the lemmas say what a confirmation
  means in terms of the records fed since the last `reset`.
 */
module Convergence {
  import opened Wrappers
  import opened Telemetry

  datatype Key = Key(v4Version: Option<int>, v4Prefixes: Option<int>, v6Version: Option<int>, v6Prefixes: Option<int>)

  datatype Reason =
    | DutDown | SummaryReadFailed | BgpdBusy | DplaneQueue | Installing(was: int, now: int)
    | NotEstablished | Stabilising(streak: nat) | WaitingForFib

  datatype Config = Config(
    expectedV4: int, expectedV6: int, stableSamples: nat, requireAll: bool, busyCpu: real, requireQuiet: bool)

  datatype State = State(streak: nat, lastKey: Option<Key>, lastInstalls: Option<int>, fibSeen: bool,
                         reason: Option<Reason>)

  const RESET := State(0, None, None, false, None)

  // ---- reading one record ----

  /** `_key`, and the check that the IPv4 table version was reported. */
  function KeyOf(rec: Rec): Option<Key> {
    if rec.bgp.None? then None
    else
      var v4, v6 := rec.bgp.value.0, rec.bgp.value.1;
      Some(Key(v4.tableVersion, v4.prefixes, v6.tableVersion, v6.prefixes))
  }

  predicate Usable(key: Option<Key>) {
    key.Some? && key.value.v4Version.Some?
  }

  predicate SessionsOk(c: Config, rec: Rec) {
    && rec.bgp.Some?
    && var v4, v6 := rec.bgp.value.0, rec.bgp.value.1;
       && v4.failed == 0 && v6.failed == 0
       && (c.requireAll ==>
             && (c.expectedV4 != 0 ==> v4.established >= c.expectedV4)
             && (c.expectedV6 != 0 ==> v6.established >= c.expectedV6))
  }

  function BgpdCpu(rec: Rec): Option<real> {
    var p := ProcessNamed(rec.processes, "bgpd");
    if p.Some? then p.value.cpuPct else None
  }

  predicate CpuBusy(c: Config, rec: Rec) {
    BgpdCpu(rec).Some? && BgpdCpu(rec).value >= c.busyCpu
  }

  predicate QueueBusy(rec: Rec) {
    rec.dplane.Some? && rec.dplane.value.queueDepth.Some? && rec.dplane.value.queueDepth.value > 0
  }

  /** The sample gets as far as comparing zebra's install count with the previous one. */
  predicate Examined(c: Config, rec: Rec) {
    !CpuBusy(c, rec) && !QueueBusy(rec) && rec.installs.Some?
  }

  /** Says nothing either way: a timeline event, or a sample whose summary read failed. */
  predicate Ignored(rec: Rec) {
    !rec.isSample || (!rec.dutDown && ReadFailed(rec))
  }

  // ---- one step ----

  /** `busy`: the reason the router is still working, given the previously examined install count. */
  function BusyReason(c: Config, previous: Option<int>, rec: Rec): Option<Reason> {
    if CpuBusy(c, rec) then Some(BgpdBusy)
    else if QueueBusy(rec) then Some(DplaneQueue)
    else if rec.installs.Some? && previous.Some? && rec.installs != previous
    then Some(Installing(previous.value, rec.installs.value))
    else None
  }

  function AfterBusy(c: Config, s: State, rec: Rec): State {
    if !Examined(c, rec) then s
    else s.(lastInstalls := rec.installs, fibSeen := s.fibSeen || s.lastInstalls == rec.installs)
  }

  /** `feed`: whether this sample confirms convergence, and the fields afterwards. */
  function Step(c: Config, s: State, rec: Rec): (bool, State) {
    if !rec.isSample then (false, s)
    else if rec.dutDown then (false, s.(streak := 0, reason := Some(DutDown)))
    else if ReadFailed(rec) then (false, s.(reason := Some(SummaryReadFailed)))
    else
      var why := if c.requireQuiet then BusyReason(c, s.lastInstalls, rec) else None;
      var b := if c.requireQuiet then AfterBusy(c, s, rec) else s;
      if why.Some? then (false, b.(streak := 0, reason := why))
      else
        var key := KeyOf(rec);
        if !Usable(key) then (false, b.(streak := 0, lastKey := key, reason := None))
        else if !SessionsOk(c, rec) then (false, b.(streak := 0, lastKey := key, reason := Some(NotEstablished)))
        else
          var same := key == s.lastKey;
          var streak := if same then s.streak + 1 else 1;
          var fib := same && b.fibSeen;
          var counted := b.(streak := streak, lastKey := key, fibSeen := fib);
          if streak < c.stableSamples then (false, counted.(reason := Some(Stabilising(streak))))
          else if c.requireQuiet && !fib then (false, counted.(reason := Some(WaitingForFib)))
          else (true, counted.(reason := None))
  }

  class ConvergenceTracker {
    const config: Config
    var streak: nat
    var lastKey: Option<Key>
    var lastInstalls: Option<int>
    var fibSeen: bool
    var reason: Option<Reason>

    function Fields(): State
      reads this
    {
      State(streak, lastKey, lastInstalls, fibSeen, reason)
    }

    constructor (config: Config)
      ensures Fields() == RESET && this.config == config
    {
      this.config := config;
      streak, lastKey, lastInstalls, fibSeen, reason := 0, None, None, false, None;
    }

    method Reset()
      modifies this
      ensures Fields() == RESET
    {
      streak := 0;
      lastKey := None;
      lastInstalls := None;
      fibSeen := false;
      reason := None;
    }

    method Busy(rec: Rec) returns (why: Option<Reason>)
      modifies this`lastInstalls, this`fibSeen
      ensures why == BusyReason(config, old(lastInstalls), rec)
      ensures why.None? ==> Fields() == AfterBusy(config, old(Fields()), rec)
      ensures why.Some? ==> fibSeen == old(fibSeen)
      ensures why.Some? ==> lastInstalls == if Examined(config, rec) then rec.installs else old(lastInstalls)
    {
      var cpu := BgpdCpu(rec);
      if cpu.Some? && cpu.value >= config.busyCpu { return Some(BgpdBusy); }
      if rec.dplane.Some? && rec.dplane.value.queueDepth.Some? && rec.dplane.value.queueDepth.value > 0 {
        return Some(DplaneQueue);
      }
      if rec.installs.Some? {
        var previous := lastInstalls;
        lastInstalls := rec.installs;
        if previous.Some? && rec.installs != previous {
          return Some(Installing(previous.value, rec.installs.value));
        }
        if previous.Some? {
          fibSeen := true;
        }
      }
      return None;
    }

    /** True on a sample that confirms convergence. */
    method Feed(rec: Rec) returns (confirmed: bool)
      modifies this
      ensures (confirmed, Fields()) == Step(config, old(Fields()), rec)
    {
      if !rec.isSample { return false; }
      reason := None;
      if rec.dutDown {
        streak, reason := 0, Some(DutDown);
        return false;
      }
      if ReadFailed(rec) {
        reason := Some(SummaryReadFailed);
        return false;
      }
      if config.requireQuiet {
        var why := Busy(rec);
        if why.Some? {
          streak, reason := 0, why;
          return false;
        }
      }
      var key := KeyOf(rec);
      if !Usable(key) {
        streak, lastKey := 0, key;
        return false;
      }
      if !SessionsOk(config, rec) {
        streak, lastKey, reason := 0, key, Some(NotEstablished);
        return false;
      }
      if key == lastKey {
        streak := streak + 1;
      } else {
        streak, fibSeen := 1, false;
      }
      lastKey := key;
      if streak < config.stableSamples {
        reason := Some(Stabilising(streak));
        return false;
      }
      if config.requireQuiet && !fibSeen {
        reason := Some(WaitingForFib);
        return false;
      }
      return true;
    }
  }
}
