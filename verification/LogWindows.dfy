/**
  harness/telemetry.py, `Sampler.sample`: how far back each log read looks. `asked` is the clock before the
  read, `evaluated` the moment the journal answers for, `reread` the clock taken after it.
 */
module LogWindows {
  import opened Wrappers
  import opened Runner

  datatype LogRead = LogRead(asked: real, evaluated: real, reread: real, span: int)

  function Ceil(x: real): (n: int)
    ensures n as real - 1.0 < x <= n as real
  {
    if x.Floor as real == x then x.Floor else x.Floor + 1
  }

  function Span(floor: real, margin: real, lastRead: Option<real>, asked: real): real {
    if lastRead.None? then floor
    else
      var gap := asked - lastRead.value + margin;
      if gap > floor then gap else floor
  }

  class Sampler {
    const floor: real
    const margin: real
    const slowEvery: nat
    var n: nat
    var lastRead: Option<real>

    /** `logWindow` as configured, sign and all. */
    constructor (logWindow: real, margin: real, slowEvery: nat)
      requires slowEvery > 0
      ensures lastRead.None? && n == 0 && this.margin == margin && this.slowEvery == slowEvery
      ensures floor >= 0.0 && (floor == logWindow || floor == -logWindow)
    {
      this.floor := if logWindow >= 0.0 then logWindow else -logWindow;
      this.margin, this.slowEvery, this.n, this.lastRead := margin, slowEvery, 0, None;
    }

    /** The log part of a slow sample. */
    method ReadLogs(w: World) returns (read: LogRead)
      modifies this`lastRead, w
      ensures old(w.now) <= read.asked <= read.evaluated <= read.reread == w.now
      ensures read.span == Ceil(Span(floor, margin, old(lastRead), read.asked))
      ensures lastRead == Some(read.reread)
    {
      var asked := w.Monotonic();
      var span := floor;
      if lastRead.Some? {
        span := asked - lastRead.value + margin;
        if floor > span { span := floor; }
      }
      var evaluated := w.Monotonic();
      var reread := w.Monotonic();
      lastRead := Some(reread);
      read := LogRead(asked, evaluated, reread, Ceil(span));
    }

    /** `sample`, as far as logs go: only slow samples read them, and a sample can end before it gets there. */
    method Sample(w: World) returns (read: Option<LogRead>)
      requires slowEvery > 0
      modifies this`n, this`lastRead, w
      ensures n == old(n) + 1 && w.now >= old(w.now)
      ensures read.None? ==> lastRead == old(lastRead)
      ensures read.Some? ==> old(n) % slowEvery == 0 && lastRead == Some(read.value.reread)
      ensures read.Some? ==>
        var r := read.value;
        && old(w.now) <= r.asked <= r.evaluated <= r.reread <= w.now
        && r.span == Ceil(Span(floor, margin, old(lastRead), r.asked))
    {
      w.Pass(0.0);
      var slow := n % slowEvery == 0;
      n := n + 1;
      var ends: bool := *;   // the router is down, or a scrape raised
      if ends || !slow { return None; }
      var r := ReadLogs(w);
      return Some(r);
    }

    /** `_loop` for `count` samples: what was read is a run, whichever samples got as far as the logs. */
    method Loop(w: World, count: nat) returns (log: seq<LogRead>)
      requires slowEvery > 0 && lastRead.None?
      modifies this`n, this`lastRead, w
      ensures IsRun(log, floor, margin) && n == old(n) + count
    {
      log := [];
      for k := 0 to count
        invariant n == old(n) + k && IsRun(log, floor, margin)
        invariant lastRead == if log == [] then None else Some(log[|log| - 1].reread)
        invariant log != [] ==> log[|log| - 1].reread <= w.now
      {
        var read := Sample(w);
        if read.Some? {
          RunExtend(log, read.value, floor, margin);
          log := log + [read.value];
        }
        w.Pass(0.1);
      }
    }
  }

  lemma RunExtend(log: seq<LogRead>, r: LogRead, floor: real, margin: real)
    requires IsRun(log, floor, margin) && Follows(log + [r], |log|, floor, margin)
    ensures IsRun(log + [r], floor, margin)
  {
    forall i | 0 <= i < |log|
      ensures Follows(log + [r], i, floor, margin)
    {
      assert Follows(log, i, floor, margin);
    }
  }

  /** A run of log, however many samples were skipped in between: what ReadLogs leaves, in order. */
  predicate IsRun(log: seq<LogRead>, floor: real, margin: real) {
    forall i | 0 <= i < |log| :: Follows(log, i, floor, margin)
  }

  predicate Follows(log: seq<LogRead>, i: nat, floor: real, margin: real)
    requires i < |log|
  {
    && log[i].asked <= log[i].evaluated <= log[i].reread
    && (i > 0 ==> log[i - 1].reread <= log[i].asked)
    && log[i].span == Ceil(Span(floor, margin, if i == 0 then None else Some(log[i - 1].reread), log[i].asked))
  }

  function Start(r: LogRead): real {
    r.evaluated - r.span as real
  }

  /** The journal counts a line written at `time` in this read. */
  predicate Covers(r: LogRead, time: real) {
    Start(r) <= time <= r.evaluated
  }

  /** Evaluation delay of read `i` plus re-read delay of the one before. */
  function Delay(log: seq<LogRead>, i: nat): real
    requires 0 < i < |log|
  {
    (log[i].evaluated - log[i].asked) + (log[i - 1].reread - log[i - 1].evaluated)
  }

  /** Read `i` counts everything since the read before it. */
  predicate Reaches(log: seq<LogRead>, i: nat)
    requires 0 < i < |log|
  {
    Start(log[i]) <= log[i - 1].evaluated
  }

  /**
    Read `i` reaches back to the read before it exactly when the seconds asked for cover the time between the
    reads and both delays; in particular when the delays stay within the margin.
   */
  lemma ReachesBack(log: seq<LogRead>, floor: real, margin: real, i: nat)
    requires 0 < i < |log| && Follows(log, i, floor, margin)
    ensures Reaches(log, i) <==>
      log[i].asked - log[i - 1].reread + Delay(log, i)
        <= Ceil(Span(floor, margin, Some(log[i - 1].reread), log[i].asked)) as real
    ensures Delay(log, i) <= margin ==> Reaches(log, i)
  {
  }

  /** Every line from the first window's start to the last read is counted at least once. */
  ghost predicate AllCounted(log: seq<LogRead>)
    requires log != []
  {
    forall time: real :: Start(log[0]) <= time <= log[|log| - 1].evaluated ==> Counted(log, time)
  }

  ghost predicate Counted(log: seq<LogRead>, time: real) {
    exists r <- log :: Covers(r, time)
  }

  /** Nothing was written between read `i` and the one before it, or that read or a later one reaches back over it. */
  predicate Bridged(log: seq<LogRead>, i: nat)
    requires 0 < i < |log|
  {
    log[i - 1].evaluated == log[i].evaluated
    || exists j | i <= j < |log| :: Start(log[j]) <= log[i - 1].evaluated
  }

  /** Every line is counted if and only if the gap before every read is bridged. */
  lemma EveryLineCountedExactly(log: seq<LogRead>, floor: real, margin: real)
    requires log != [] && floor >= 0.0 && IsRun(log, floor, margin)
    ensures AllCounted(log) <==> forall i | 0 < i < |log| :: Bridged(log, i)
  {
    if forall i | 0 < i < |log| :: Bridged(log, i) {
      forall time: real | Start(log[0]) <= time <= log[|log| - 1].evaluated
        ensures Counted(log, time)
      {
        BridgedCounts(log, floor, margin, time, |log| - 1);
      }
    }
    if i :| 0 < i < |log| && !Bridged(log, i) {
      var time := UnbridgedLoses(log, floor, margin, i);
      assert !Counted(log, time);
    }
  }

  lemma {:induction false} BridgedCounts(log: seq<LogRead>, floor: real, margin: real, time: real, n: nat)
    requires n < |log| && IsRun(log, floor, margin) && forall i | 0 < i < |log| :: Bridged(log, i)
    requires Start(log[0]) <= time <= log[n].evaluated
    ensures Counted(log, time)
  {
    if n == 0 {
      assert Covers(log[0], time) && log[0] in log;
    } else if time <= log[n - 1].evaluated {
      BridgedCounts(log, floor, margin, time, n - 1);
    } else {
      assert Bridged(log, n);
      var j :| n <= j < |log| && Start(log[j]) <= log[n - 1].evaluated;
      Ordered(log, floor, margin, n, j);
      assert Covers(log[j], time) && log[j] in log;
    }
  }

  /** Reads answer in order. */
  lemma {:induction false} Ordered(log: seq<LogRead>, floor: real, margin: real, i: nat, j: nat)
    requires i <= j < |log| && IsRun(log, floor, margin)
    ensures log[i].evaluated <= log[j].evaluated
  {
    if i < j {
      Ordered(log, floor, margin, i, j - 1);
      assert Follows(log, j, floor, margin) && Follows(log, j - 1, floor, margin);
    }
  }

  /** A line written just after read `i - 1` answered, before any later window starts. */
  lemma UnbridgedLoses(log: seq<LogRead>, floor: real, margin: real, i: nat) returns (time: real)
    requires 0 < i < |log| && floor >= 0.0 && IsRun(log, floor, margin) && !Bridged(log, i)
    ensures Start(log[0]) <= time <= log[|log| - 1].evaluated && !Counted(log, time)
  {
    var before := log[i - 1].evaluated;
    Ordered(log, floor, margin, i - 1, i);
    var first := EarliestStart(log, i, |log|, before, log[i].evaluated);
    time := (before + first) / 2.0;
    Ordered(log, floor, margin, 0, i - 1);
    Ordered(log, floor, margin, i, |log| - 1);
    assert Follows(log, 0, floor, margin);
    forall r <- log
      ensures !Covers(r, time)
    {
      var j :| 0 <= j < |log| && log[j] == r;
      if j < i { Ordered(log, floor, margin, j, i - 1); }
    }
  }

  /** Something after `before` and at most `limit` that no window from `i` on starts before. */
  lemma {:induction false} EarliestStart(log: seq<LogRead>, i: nat, n: nat, before: real, limit: real)
      returns (first: real)
    requires i <= n <= |log| && before < limit && forall j | i <= j < n :: before < Start(log[j])
    ensures before < first <= limit && forall j | i <= j < n :: first <= Start(log[j])
    decreases n
  {
    if n == i {
      first := limit;
    } else {
      first := EarliestStart(log, i, n - 1, before, limit);
      if Start(log[n - 1]) < first { first := Start(log[n - 1]); }
    }
  }

  /** What the margin is for: when it covers the two delays at every read, every line is counted. */
  lemma EveryLineCounted(log: seq<LogRead>, floor: real, margin: real)
    requires log != [] && floor >= 0.0 && IsRun(log, floor, margin)
    requires forall i | 0 < i < |log| :: Delay(log, i) <= margin
    ensures AllCounted(log)
  {
    forall i | 0 < i < |log|
      ensures Bridged(log, i)
    {
      assert Follows(log, i, floor, margin);
      ReachesBack(log, floor, margin, i);
    }
    EveryLineCountedExactly(log, floor, margin);
  }

  /** With the shipped floor and margin, a delay one second above the margin loses a line. */
  lemma LineLost() returns (log: seq<LogRead>)
    ensures IsRun(log, 10.0, 2.0) && |log| == 2 && Delay(log, 1) == 3.0 && !AllCounted(log)
  {
    log := [LogRead(0.0, 0.0, 0.0, 10), LogRead(20.0, 23.0, 23.0, 22)];
    assert Ceil(10.0) == 10 && Ceil(22.0) == 22;
    assert Follows(log, 0, 10.0, 2.0) && Follows(log, 1, 10.0, 2.0);
    assert !Bridged(log, 1);
    EveryLineCountedExactly(log, 10.0, 2.0);
  }

  /** A delay above the margin need not: here the floor absorbs it. */
  lemma FloorAbsorbsDelay() returns (log: seq<LogRead>)
    ensures IsRun(log, 10.0, 2.0) && |log| == 2 && Delay(log, 1) == 3.0 && AllCounted(log)
  {
    log := [LogRead(0.0, 0.0, 0.0, 10), LogRead(5.0, 8.0, 8.0, 10)];
    assert Ceil(10.0) == 10;
    assert Follows(log, 0, 10.0, 2.0) && Follows(log, 1, 10.0, 2.0);
    assert Bridged(log, 1);
    EveryLineCountedExactly(log, 10.0, 2.0);
  }
}
