/**
  harness/telemetry.py `wait_for_convergence` and harness/runner.py `_fib_agrees` and `_converge`: two nested
  retry loops over the tracker, a clock and a second authority. The sampler, the clock and zebra's route
  summary are an environment that moves by itself whenever it is looked at.
 */
module Runner {
  import opened Wrappers
  import opened Sequences
  import opened Telemetry
  import opened Convergence
  import opened ConvergenceRuns
  import opened ConvergenceFields
  import P = Predicates
  import R = PredicateRuns

  /** A record and its place among those the sampler published: the same place is the same object. */
  datatype Published = Published(serial: nat, rec: Rec)

  /** What was seen of the outside: the sampler's latest record, or an answer of zebra's. */
  datatype Seen = Look(latest: Option<Published>) | Answer(summary: P.FibSummary)

  class World {
    var now: real
    var published: seq<Rec>     // newest last
    ghost var seen: seq<Seen>   // by the harness, in order

    /** Time passes, at least `least`; the sampler may publish. */
    method Pass(least: real)
      requires least >= 0.0
      modifies this`now, this`published
      ensures now >= old(now) + least && old(published) <= published
    {
      var extra: real := *;
      now := now + least + (if extra > 0.0 then extra else 0.0);
      var more: seq<Rec> := *;
      published := published + more;
    }

    method Monotonic() returns (t: real)
      modifies this`now, this`published
      ensures now >= old(now) && t == now && old(published) <= published
    {
      Pass(0.0);
      t := now;
    }

    /** `sampler.latest`. */
    method Latest() returns (p: Option<Published>)
      modifies this`seen
      ensures p == if published == [] then None else Some(Published(|published| - 1, Last(published)))
      ensures seen == old(seen) + [Look(p)]
    {
      p := if published == [] then None else Some(Published(|published| - 1, published[|published| - 1]));
      seen := seen + [Look(p)];
    }

    method RouteSummary(v6: bool) returns (f: P.FibSummary)
      modifies this
      ensures now >= old(now) && old(published) <= published && f.v6 == v6
      ensures seen == old(seen) + [Answer(f)]
    {
      Pass(0.0);
      f := *;
      f := f.(v6 := v6);
      seen := seen + [Answer(f)];
    }
  }

  function Recs(fed: seq<Published>): seq<Rec> {
    seq(|fed|, i requires 0 <= i < |fed| => fed[i].rec)
  }

  /** Distinct records, in the order the sampler published them. */
  predicate Increasing(fed: seq<Published>) {
    forall i, j | 0 <= i < j < |fed| :: fed[i].serial < fed[j].serial
  }

  const POLL: real := 1.0

  /** A confirmation needs at least `stable_samples` records. */
  lemma {:induction false} GoodRunLength(c: Config, h: seq<Rec>, key: Convergence.Key, n: nat)
    requires GoodRun(c, h, key, n)
    ensures |h| >= n
    decreases |h|
  {
    if n > 0 {
      if Ignored(Last(h)) {
        GoodRunLength(c, Init(h), key, n);
      } else {
        GoodRunLength(c, Init(h), key, n - 1);
      }
    }
  }

  lemma ConfirmationLength(c: Config, h: seq<Rec>)
    requires Confirms(c, h)
    ensures |h| >= c.stableSamples
  {
    ConfirmsExactly(c, h);
    var key :| Good(c, Init(h), Last(h), key) && GoodRun(c, h, key, c.stableSamples);
    GoodRunLength(c, h, key, c.stableSamples);
  }

  /** What has been fed so far, as the loop below keeps it. */
  ghost predicate Feeding(c: Config, fed: seq<Published>, last: Option<Published>, fields: State) {
    && Increasing(fed) && fields == Run(c, RESET, Recs(fed))
    && last == (if fed == [] then None else Some(fed[|fed| - 1]))
  }

  /** No record before the last one confirmed. */
  ghost predicate Unconfirmed(c: Config, fed: seq<Published>, n: nat) {
    forall k | 0 <= k < n && k <= |fed| :: !Confirms(c, Recs(fed[..k]))
  }

  lemma FeedStep(c: Config, fed: seq<Published>, last: Option<Published>, fields: State, p: Published)
    requires Feeding(c, fed, last, fields) && Unconfirmed(c, fed, |fed| + 1)
    requires last.Some? ==> p.serial > last.value.serial
    ensures var (confirmed, after) := Step(c, fields, p.rec);
            && Feeding(c, fed + [p], Some(p), after)
            && Unconfirmed(c, fed + [p], |fed| + 1)
            && (confirmed <==> Confirms(c, Recs(fed + [p])))
            && (!confirmed ==> Unconfirmed(c, fed + [p], |fed| + 2))
  {
    hide Step;
    var more := fed + [p];
    assert Recs(more) == Recs(fed) + [p.rec];
    assert Init(Recs(more)) == Recs(fed);
    assert forall k | 0 <= k <= |fed| :: more[..k] == fed[..k];
    assert more[..|fed| + 1] == more;
  }

  lemma NothingFed(c: Config)
    ensures Feeding(c, [], None, RESET) && Unconfirmed(c, [], 1)
  {
    assert Recs([]) == [];
  }

  lemma NothingSeen(seen: seq<Seen>, published: seq<Rec>, since: nat)
    ensures Fed([]) == [] && seen + Looks([]) == seen && Genuine([], published, since)
  {
  }

  /** The same look, as the tracker takes it. */
  lemma SeeStep(c: Config, looks: seq<Option<Published>>, last: Option<Published>, fields: State, p: Option<Published>,
                published: seq<Rec>)
    requires Feeding(c, Fed(looks), last, fields) && Unconfirmed(c, Fed(looks), |Fed(looks)| + 1)
    requires last.Some? ==> last.value.serial < |published| && last.value.rec == published[last.value.serial]
    requires p == if published == [] then None else Some(Published(|published| - 1, Last(published)))
    ensures var more := Fed(looks + [p]);
            if p.None? || p == last then more == Fed(looks)
            else
              var (confirmed, after) := Step(c, fields, p.value.rec);
              && |more| == |Fed(looks)| + 1
              && Feeding(c, more, p, after) && Unconfirmed(c, more, |more|)
              && (confirmed <==> Confirms(c, Recs(more)))
              && (!confirmed ==> Unconfirmed(c, more, |more| + 1))
  {
    hide Step, Confirms, Run;
    assert Init(looks + [p]) == looks;
    if p.Some? && p != last {
      FeedStep(c, Fed(looks), last, fields, p.value);
    }
  }

  lemma StillUnconfirmed(c: Config, fed: seq<Published>)
    requires Unconfirmed(c, fed, |fed| + 1)
    ensures Unconfirmed(c, fed, |fed|) && !Confirms(c, Recs(fed))
  {
    hide Confirms;
    assert fed[..|fed|] == fed;
  }

  /** What is genuine stays so while the sampler goes on publishing, and for any earlier start. */
  lemma GenuineGrows(looks: seq<Option<Published>>, was: seq<Rec>, now: seq<Rec>, since: nat, earlier: nat)
    requires Genuine(looks, was, since) && was <= now && earlier <= since
    ensures Genuine(looks, now, earlier)
  {
  }

  /** One more look, at what the sampler published last. */
  lemma SeenMore(seen: seq<Seen>, looks: seq<Option<Published>>, p: Option<Published>, published: seq<Rec>, since: nat)
    requires Genuine(looks, published, since) && since <= |published|
    requires p == if published == [] then None else Some(Published(|published| - 1, Last(published)))
    ensures Genuine(looks + [p], published, since)
    ensures seen + Looks(looks + [p]) == seen + Looks(looks) + [Look(p)]
  {
    assert Looks(looks + [p]) == Looks(looks) + [Look(p)];
  }

  /** From the end of the wait back to the first sample of the streak, but never before its start. */
  function BackDated(spent: real, n: nat, interval: real): real {
    var back := (n as real - 1.0) * interval;
    if spent - back > 0.0 then spent - back else 0.0
  }

  /**
    The seconds stay within the wait exactly with at least one stable sample, or samples that take no time.
    Without a stable sample the back-dating goes forward, by one interval.
   */
  lemma BackDatedWithinExactly(spent: real, n: nat, interval: real)
    requires spent >= 0.0 && interval >= 0.0
    ensures 0.0 <= BackDated(spent, n, interval) <= spent <==> n >= 1 || interval == 0.0
    ensures n == 0 ==> BackDated(spent, n, interval) == spent + interval
  {
    if n >= 1 {
      assert (n as real - 1.0) * interval >= 0.0;
    }
  }

  /** One good record then confirms, and with the default interval a wait of one second is reported as three. */
  lemma NoStableSampleOverstates() returns (c: Config, h: seq<Rec>)
    ensures c.stableSamples == 0 && |h| == 1 && Confirms(c, h) && BackDated(1.0, c.stableSamples, 2.0) == 3.0
  {
    c, h := Config(1, 1, 0, true, 60.0, false), [Idle(1)];
    assert Init(h) == [];
  }

  /** The records a wait feeds: each one it sees that is not the one it saw before. */
  function Fed(looks: seq<Option<Published>>): seq<Published> {
    if looks == [] then []
    else
      var before, p := Fed(Init(looks)), Last(looks);
      if p.Some? && (before == [] || p.value != Last(before)) then before + [p.value] else before
  }

  /** What was seen is what the sampler published, nothing older than the latest of the first `since` records. */
  predicate Genuine(looks: seq<Option<Published>>, published: seq<Rec>, since: nat) {
    forall i | 0 <= i < |looks| && looks[i].Some? ::
      var p := looks[i].value;
      p.serial < |published| && p.rec == published[p.serial] && p.serial + 1 >= since
  }

  function Looks(looks: seq<Option<Published>>): seq<Seen> {
    seq(|looks|, i requires 0 <= i < |looks| => Look(looks[i]))
  }

  /**
    `wait_for_convergence`. The tracker is reset, then fed each record the sampler shows, once. It returns at the
    first record that confirms, or when the time is up; zebra is not asked anything meanwhile.
   */
  method WaitForConvergence(w: World, tracker: ConvergenceTracker, timeout: real, interval: real)
    returns (ok: bool, secs: real, last: Option<Published>, ghost looks: seq<Option<Published>>, ghost began: real)
    requires interval >= 0.0
    modifies w, tracker
    ensures w.now >= old(w.now) && old(w.published) <= w.published
    ensures w.seen == old(w.seen) + Looks(looks) && Genuine(looks, w.published, |old(w.published)|)
    ensures Feeding(tracker.config, Fed(looks), last, tracker.Fields())
    ensures Unconfirmed(tracker.config, Fed(looks), |Fed(looks)|)
    ensures ok <==> Confirms(tracker.config, Recs(Fed(looks)))
    ensures ok ==> last.Some? && |Fed(looks)| >= tracker.config.stableSamples
    ensures ok ==> w.now - old(w.now) >= (|Fed(looks)| - 1) as real
    ensures old(w.now) <= began <= w.now
    ensures var spent, back := w.now - began, (tracker.config.stableSamples as real - 1.0) * interval;
            secs == if !ok then spent else if spent > back then spent - back else 0.0
    ensures 0.0 <= secs <= w.now - old(w.now) + (if ok && tracker.config.stableSamples == 0 then interval else 0.0)
    ensures ok && tracker.config.stableSamples == 0 ==> secs >= interval
    ensures !ok ==> secs >= timeout && w.now - old(w.now) >= timeout
  {
    hide Step, Run, Confirms, Increasing, Looks, Fed, Genuine, Feeding, Unconfirmed;
    tracker.Reset();
    ghost var entered := w.now;
    ghost var since := |w.published|;
    var t0 := w.Monotonic();
    began := t0;
    last, looks, ok := None, [], false;
    NothingFed(tracker.config);
    NothingSeen(w.seen, w.published, since);
    while true
      invariant entered <= t0 <= w.now && old(w.published) <= w.published
      invariant w.seen == old(w.seen) + Looks(looks) && Genuine(looks, w.published, since)
      invariant Feeding(tracker.config, Fed(looks), last, tracker.Fields())
      invariant Unconfirmed(tracker.config, Fed(looks), |Fed(looks)| + 1)
      invariant last.Some? ==> last.value.serial < |w.published| && last.value.rec == w.published[last.value.serial]
      invariant w.now - t0 >= |Fed(looks)| as real * POLL
      invariant !ok
      decreases t0 + timeout - w.now
    {
      ghost var was := w.published;
      var t := w.Monotonic();
      GenuineGrows(looks, was, w.published, since, since);
      if !(t - t0 < timeout) { break; }
      var rec := w.Latest();
      SeenMore(old(w.seen), looks, rec, w.published, since);
      SeeStep(tracker.config, looks, last, tracker.Fields(), rec, w.published);
      looks := looks + [rec];
      if rec.Some? && rec != last {
        last := rec;
        ok := tracker.Feed(rec.value.rec);
        if ok {
          was := w.published;
          var end := w.Monotonic();
          GenuineGrows(looks, was, w.published, since, since);
          ConfirmationLength(tracker.config, Recs(Fed(looks)));
          secs := BackDated(end - t0, tracker.config.stableSamples, interval);
          BackDatedWithinExactly(end - t0, tracker.config.stableSamples, interval);
          return;
        }
      }
      was := w.published;
      w.Pass(POLL);
      GenuineGrows(looks, was, w.published, since, since);
    }
    StillUnconfirmed(tracker.config, Fed(looks));
    ghost var was := w.published;
    var end := w.Monotonic();
    GenuineGrows(looks, was, w.published, since, since);
    secs := end - t0;
  }

  // ---- the second authority ----

  /** zebra reports routes for the family and has installed less than the ratio of them. */
  predicate FibShort(f: P.FibSummary, minRatio: real) {
    f.ok && f.routes.Some? && f.routes.value != 0 && f.fib as real < f.routes.value as real * minRatio
  }

  function RibCount(rec: Rec, v6: bool): int {
    if rec.bgp.None? then 0 else if v6 then rec.bgp.value.1.ribCount else rec.bgp.value.0.ribCount
  }

  /** The two places that judge FIB completeness judge alike. */
  lemma FibShortIsBehind(b: P.Budgets, f: P.FibSummary)
    ensures FibShort(f, b.fibMinRatio) <==> P.Behind(b, f)
  {
    if P.Measured(f) {
      var fib, routes := f.fib as real, f.routes.value as real;
      assert fib == (fib / routes) * routes;
      if fib / routes < b.fibMinRatio { assert (b.fibMinRatio - fib / routes) * routes > 0.0; }
      if fib / routes >= b.fibMinRatio { assert (fib / routes - b.fibMinRatio) * routes >= 0.0; }
    }
  }

  /** The families a sample has routes in, IPv4 first. */
  function Routed(rec: Rec): seq<bool> {
    (if RibCount(rec, false) != 0 then [false] else []) + (if RibCount(rec, true) != 0 then [true] else [])
  }

  /** One answer for each of these families, in order. */
  predicate AnswersFor(answers: seq<P.FibSummary>, families: seq<bool>) {
    |answers| == |families| && forall i | 0 <= i < |answers| :: answers[i].v6 == families[i]
  }

  /** The first family whose answer is a measured shortfall. */
  function FirstShort(answers: seq<P.FibSummary>, minRatio: real): Option<bool> {
    if answers == [] then None
    else if FibShort(answers[0], minRatio) then Some(answers[0].v6)
    else FirstShort(answers[1..], minRatio)
  }

  lemma {:induction false} NoneShort(answers: seq<P.FibSummary>, minRatio: real)
    ensures FirstShort(answers, minRatio).None? <==> forall f <- answers :: !FibShort(f, minRatio)
  {
    if answers != [] {
      NoneShort(answers[1..], minRatio);
    }
  }

  /** zebra answered for exactly the families bgpd has routes in, and no answer is short. */
  ghost predicate FibComplete(rec: Rec, answers: seq<P.FibSummary>, minRatio: real) {
    && rec.bgp.Some?
    && ((exists f <- answers :: !f.v6) <==> rec.bgp.value.0.ribCount != 0)
    && ((exists f <- answers :: f.v6) <==> rec.bgp.value.1.ribCount != 0)
    && forall f <- answers :: f.ok && f.routes.Some? ==>
         f.routes.value == 0 || f.fib as real >= f.routes.value as real * minRatio
  }

  lemma CompleteWhenAsked(rec: Rec, answers: seq<P.FibSummary>, minRatio: real)
    requires rec.bgp.Some? && AnswersFor(answers, Routed(rec)) && FirstShort(answers, minRatio).None?
    ensures FibComplete(rec, answers, minRatio)
  {
    NoneShort(answers, minRatio);
    forall i | 0 <= i < |answers|
      ensures answers[i] in answers && answers[i].v6 == Routed(rec)[i]
    {
    }
  }

  /** A record that confirms was read off a running router. */
  lemma ConfirmedReports(c: Config, h: seq<Rec>)
    requires h != [] && Confirms(c, h)
    ensures Last(h).bgp.Some?
  {
    hide Confirms, ConvergenceRuns.Evidence, Serving, SameTables, AtRest, CountFrom;
    ConfirmsInFields(c, h);
    ConfirmedRecordsAgree(c, h, |h| - 1, |h| - 1);
  }

  function Answers(answers: seq<P.FibSummary>): seq<Seen> {
    seq(|answers|, i requires 0 <= i < |answers| => Answer(answers[i]))
  }

  /**
    `_fib_agrees`: asks zebra once for each family the last sample has routes in; only a measured shortfall disagrees.
   */
  method FibAgrees(w: World, last: Rec, minRatio: real)
    returns (agrees: bool, blocking: Option<bool>, detail: seq<P.FibSummary>)
    modifies w
    ensures w.now >= old(w.now) && old(w.published) <= w.published
    ensures w.seen == old(w.seen) + Answers(detail) && AnswersFor(detail, Routed(last))
    ensures blocking == FirstShort(detail, minRatio)
    ensures agrees <==> blocking.None?
    ensures agrees <==> forall f <- detail :: !FibShort(f, minRatio)
    ensures agrees && last.bgp.Some? ==> FibComplete(last, detail, minRatio)
  {
    hide FibShort, FibComplete;
    detail, blocking := [], None;
    if RibCount(last, false) != 0 {
      var f := w.RouteSummary(false);
      detail := [f];
      if FibShort(f, minRatio) { blocking := Some(false); }
    }
    if RibCount(last, true) != 0 {
      var f := w.RouteSummary(true);
      detail := detail + [f];
      if FibShort(f, minRatio) && blocking.None? { blocking := Some(true); }
    }
    agrees := blocking.None?;
    assert w.seen == old(w.seen) + Answers(detail);
    assert |detail| > 0 ==> detail[1..] == (if |detail| == 2 then [detail[1]] else []);
    assert |detail| == 2 ==> [detail[1]][1..] == [];
    NoneShort(detail, minRatio);
    if agrees && last.bgp.Some? { CompleteWhenAsked(last, detail, minRatio); }
  }

  // ---- _converge ----

  /** What `_converge` gives as the reason it did not converge. */
  datatype Blocked = ByZebra(v6: bool) | ByTracker(reason: Option<Reason>)

  function ReadingsAsOps(detail: seq<P.FibSummary>, t: Option<real>): seq<R.Op> {
    seq(|detail|, i requires 0 <= i < |detail| => R.Fib(detail[i], t))
  }

  method JudgeReading(preds: P.PredicateSet, f: P.FibSummary, t: Option<real>, ghost done: seq<R.Op>)
    returns (out: seq<P.Violation>)
    requires preds.Fields() == R.RunState(preds.budgets, done)
    modifies preds
    ensures preds.Fields() == R.RunState(preds.budgets, done + [R.Fib(f, t)])
    ensures R.AllReported(preds.budgets, done + [R.Fib(f, t)]) == R.AllReported(preds.budgets, done) + out
  {
    hide P.FibRaised, P.LagAfter, R.RunState, R.AllReported, P.Unseen;
    RunAppend(preds.budgets, done, R.Fib(f, t));
    var raised := preds.FeedFib(f, t);
    out := preds.Record(raised);
  }

  /** The predicate set after judging each reading, as part of the run `before`. */
  method JudgeReadings(preds: P.PredicateSet, detail: seq<P.FibSummary>, t: Option<real>, ghost before: seq<R.Op>)
    returns (out: seq<P.Violation>)
    requires preds.Fields() == R.RunState(preds.budgets, before)
    modifies preds
    ensures preds.Fields() == R.RunState(preds.budgets, before + ReadingsAsOps(detail, t))
    ensures R.AllReported(preds.budgets, before + ReadingsAsOps(detail, t)) == R.AllReported(preds.budgets, before)
      + out
  {
    hide R.RunState, R.AllReported;
    out := [];
    assert before + ReadingsAsOps([], t) == before;
    for i := 0 to |detail|
      invariant preds.Fields() == R.RunState(preds.budgets, before + ReadingsAsOps(detail[..i], t))
      invariant R.AllReported(preds.budgets, before + ReadingsAsOps(detail[..i], t)) ==
        R.AllReported(preds.budgets, before) + out
    {
      ghost var done := before + ReadingsAsOps(detail[..i], t);
      var more := JudgeReading(preds, detail[i], t, done);
      assert before + ReadingsAsOps(detail[..i + 1], t) == done + [R.Fib(detail[i], t)];
      out := out + more;
    }
    assert detail[..|detail|] == detail;
  }

  lemma RunAppend(b: P.Budgets, done: seq<R.Op>, op: R.Op)
    ensures R.RunState(b, done + [op]) == R.After(b, R.RunState(b, done), op)
    ensures R.AllReported(b, done + [op])
         == R.AllReported(b, done) + P.Unseen(R.RaisedBy(b, R.RunState(b, done), op), R.RunState(b, done).seen)
  {
    assert Init(done + [op]) == done;
  }

  /** One turn of the loop: what was seen of the sampler during its wait, and what zebra answered after it. */
  datatype Round = Round(looks: seq<Option<Published>>, answers: seq<P.FibSummary>)
  {
    function Records(): seq<Rec> {
      Recs(Fed(looks))
    }

    /** The wait ended at its first record that confirms. */
    ghost predicate Settled(c: Config) {
      Confirms(c, Records()) && Unconfirmed(c, Fed(looks), |Fed(looks)|)
    }

    /** Then zebra was asked about the families that record has routes in, and had this to object. */
    ghost predicate Asked(c: Config, minRatio: real, objection: Option<bool>) {
      && Settled(c) && Fed(looks) != []
      && AnswersFor(answers, Routed(Last(Fed(looks)).rec))
      && FirstShort(answers, minRatio) == objection
    }

    /** The wait ran out of time: no record confirmed and zebra was not asked. */
    ghost predicate TimedOut(c: Config) {
      Unconfirmed(c, Fed(looks), |Fed(looks)| + 1) && answers == []
    }
  }

  function Timeline(rounds: seq<Round>): seq<Seen> {
    if rounds == [] then [] else Timeline(Init(rounds)) + Looks(Last(rounds).looks) + Answers(Last(rounds).answers)
  }

  /** The predicate set's calls: every answer, at the time of its round's last record. */
  function OpsOf(rounds: seq<Round>): seq<R.Op> {
    if rounds == [] then []
    else
      var r := Last(rounds);
      OpsOf(Init(rounds)) + (if Fed(r.looks) == [] then [] else ReadingsAsOps(r.answers, Last(Fed(r.looks)).rec.t))
  }

  /** zebra's last objection. */
  function LastObjection(rounds: seq<Round>, minRatio: real): Option<bool> {
    if rounds == [] then None
    else
      var own := FirstShort(Last(rounds).answers, minRatio);
      if own.Some? then own else LastObjection(Init(rounds), minRatio)
  }

  /** zebra objected in each of the first `n` rounds. */
  ghost predicate Rejected(c: Config, minRatio: real, rounds: seq<Round>, n: nat)
    requires n <= |rounds|
  {
    forall i | 0 <= i < n :: FirstShort(rounds[i].answers, minRatio).Some?
      && rounds[i].Asked(c, minRatio, FirstShort(rounds[i].answers, minRatio))
  }

  ghost predicate AllGenuine(rounds: seq<Round>, published: seq<Rec>, since: nat) {
    forall i | 0 <= i < |rounds| :: Genuine(rounds[i].looks, published, since)
  }

  /** What the tracker says after a round that ran out of time, or before any. */
  function TrackerReason(c: Config, rounds: seq<Round>): Option<Reason> {
    if rounds == [] then None else Run(c, RESET, Last(rounds).Records()).reason
  }

  lemma NoRounds(c: Config, minRatio: real, seen: seq<Seen>, before: seq<R.Op>, published: seq<Rec>, since: nat)
    ensures seen + Timeline([]) == seen && before + OpsOf([]) == before
    ensures AllGenuine([], published, since) && Rejected(c, minRatio, [], 0) && LastObjection([], minRatio) == None
  {
  }

  lemma AllGenuineGrows(rounds: seq<Round>, was: seq<Rec>, now: seq<Rec>, since: nat)
    requires AllGenuine(rounds, was, since) && was <= now
    ensures AllGenuine(rounds, now, since)
  {
    hide Genuine;
    forall i | 0 <= i < |rounds|
      ensures Genuine(rounds[i].looks, now, since)
    {
      GenuineGrows(rounds[i].looks, was, now, since, since);
    }
  }

  /** One more round. */
  lemma RoundsExtend(c: Config, minRatio: real, seen: seq<Seen>, before: seq<R.Op>, rounds: seq<Round>, r: Round)
    requires Rejected(c, minRatio, rounds, |rounds|)
    ensures var more := rounds + [r]; var own := FirstShort(r.answers, minRatio);
            && seen + Timeline(more) == seen + Timeline(rounds) + Looks(r.looks) + Answers(r.answers)
            && before + OpsOf(more) == before + OpsOf(rounds)
               + (if Fed(r.looks) == [] then [] else ReadingsAsOps(r.answers, Last(Fed(r.looks)).rec.t))
            && LastObjection(more, minRatio) == (if own.Some? then own else LastObjection(rounds, minRatio))
            && Rejected(c, minRatio, more, |rounds|)
            && (own.Some? && r.Asked(c, minRatio, own) ==> Rejected(c, minRatio, more, |rounds| + 1))
  {
    hide Looks, Answers, Round.Asked, Fed, FirstShort;
    var more := rounds + [r];
    assert Init(more) == rounds && Last(more) == r;
    forall i | 0 <= i < |rounds|
      ensures more[i] == rounds[i]
    {
    }
  }

  lemma GenuineExtend(rounds: seq<Round>, r: Round, published: seq<Rec>, since: nat)
    requires AllGenuine(rounds, published, since) && Genuine(r.looks, published, since)
    ensures AllGenuine(rounds + [r], published, since)
  {
    hide Genuine;
  }

  /** A wait that ran out of time leaves nothing to ask or judge. */
  lemma NothingAsked(r: Round, minRatio: real)
    requires r.answers == []
    ensures Answers(r.answers) == [] && FirstShort(r.answers, minRatio) == None
      && forall t :: ReadingsAsOps(r.answers, t) == []
  {
  }

  /**
    `_converge`. The call is a run of rounds, and everything it saw is theirs: a wait that settles on genuine records
    of that wait alone, then zebra's answers, until zebra does not object or the time is up. It succeeds exactly in
    the first case. Every answer is judged; zebra's last objection is the reason given at the end, whatever the
    tracker says by then.
   */
  method Converge(w: World, expectedV4: int, expectedV6: int, timeout: real, interval: real, preds: P.PredicateSet,
                  ghost before: seq<R.Op>)
    returns (ok: bool, secs: real, last: Option<Published>, reason: Option<Blocked>, violations: seq<P.Violation>,
             ghost rounds: seq<Round>)
    requires interval >= 0.0 && preds.Fields() == R.RunState(preds.budgets, before)
    modifies w, preds
    ensures w.now >= old(w.now)
    ensures w.seen == old(w.seen) + Timeline(rounds) && AllGenuine(rounds, w.published, |old(w.published)|)
    ensures var c, ratio := Config(expectedV4, expectedV6, 3, true, 60.0, true), preds.budgets.fibMinRatio;
            && (ok ==> rounds != [] && Rejected(c, ratio, rounds, |rounds| - 1) && Last(rounds).Asked(c, ratio, None))
            && (ok ==> last.Some? && FibComplete(last.value.rec, Last(rounds).answers, ratio))
            && (!ok ==> (Rejected(c, ratio, rounds, |rounds|)
                         || (rounds != [] && Rejected(c, ratio, rounds, |rounds| - 1) && Last(rounds).TimedOut(c))))
            && reason == (if ok then None
                          else if LastObjection(rounds, ratio).Some? then
                            Some(ByZebra(LastObjection(rounds, ratio).value))
                          else Some(ByTracker(TrackerReason(c, rounds))))
    ensures ok ==>
      var fed := Fed(Last(rounds).looks);
      && |fed| >= 3 && Increasing(fed) && last == Some(Last(fed))
      && w.now - old(w.now) >= (|fed| - 1) as real
    ensures 0.0 <= secs <= w.now - old(w.now)
    ensures !ok ==> secs >= timeout
    ensures preds.Fields() == R.RunState(preds.budgets, before + OpsOf(rounds))
    ensures R.AllReported(preds.budgets, before + OpsOf(rounds)) == R.AllReported(preds.budgets, before) + violations
  {
    hide Step, Run, Confirms, Increasing, Unconfirmed, R.RunState;
    hide R.AllReported, FibShort, FibComplete, Fed, Genuine, Looks, Answers;
    hide Timeline, OpsOf, LastObjection, FirstShort, AnswersFor, Routed, AllGenuine, Rejected;
    var c := Config(expectedV4, expectedV6, 3, true, 60.0, true);
    ghost var ratio := preds.budgets.fibMinRatio;
    var tracker := new ConvergenceTracker(c);
    ghost var entered := w.now;
    ghost var since := |w.published|;
    var started := w.Monotonic();
    var deadline := started + timeout;
    var sticky: Option<bool> := None;
    ok, secs, last, violations, rounds := false, 0.0, None, [], [];
    NoRounds(c, ratio, w.seen, before, w.published, since);
    while true
      invariant !ok && entered <= started <= w.now && tracker.config == c && deadline == started + timeout
      invariant old(w.published) <= w.published
      invariant w.seen == old(w.seen) + Timeline(rounds) && AllGenuine(rounds, w.published, since)
      invariant Rejected(c, ratio, rounds, |rounds|) && sticky == LastObjection(rounds, ratio)
      invariant (sticky.None? <==> rounds == []) && (rounds == [] ==> tracker.Fields() == RESET)
      invariant preds.Fields() == R.RunState(preds.budgets, before + OpsOf(rounds))
      invariant R.AllReported(preds.budgets, before + OpsOf(rounds)) == R.AllReported(preds.budgets, before)
        + violations
      decreases deadline - w.now
    {
      ghost var was, earlier := w.published, rounds;
      var t := w.Monotonic();
      AllGenuineGrows(earlier, was, w.published, since);
      var remaining := deadline - t;
      if remaining <= 0.0 { break; }
      was := w.published;
      ghost var looks, began;
      ok, secs, last, looks, began := WaitForConvergence(w, tracker, remaining, interval);
      AllGenuineGrows(earlier, was, w.published, since);
      GenuineGrows(looks, w.published, w.published, |was|, since);
      if !ok {
        assert w.now >= deadline;
        ghost var round := Round(looks, []);
        rounds := earlier + [round];
        NothingAsked(round, ratio);
        RoundsExtend(c, ratio, old(w.seen), before, earlier, round);
        assert before + OpsOf(rounds) == before + OpsOf(earlier);
        GenuineExtend(earlier, round, w.published, since);
        WaitFailed(c, round);
        break;
      }
      was := w.published;
      ConfirmedFed(c, looks);
      var agrees, blocking, readings := FibAgrees(w, last.value.rec, preds.budgets.fibMinRatio);
      ghost var round := Round(looks, readings);
      AllGenuineGrows(earlier, was, w.published, since);
      GenuineGrows(looks, was, w.published, since, since);
      rounds := earlier + [round];
      RoundsExtend(c, ratio, old(w.seen), before, earlier, round);
      GenuineExtend(earlier, round, w.published, since);
      var more := JudgeReadings(preds, readings, last.value.rec.t, before + OpsOf(earlier));
      violations := violations + more;
      if agrees { break; }
      ok, sticky := false, blocking;
      tracker.Reset();
    }
    ghost var was := w.published;
    var end := w.Monotonic();
    AllGenuineGrows(rounds, was, w.published, since);
    if !ok { secs := end - started; }
    reason := if ok then None
              else Some(if sticky.Some? then ByZebra(sticky.value) else ByTracker(tracker.reason));
  }

  lemma ConfirmedFed(c: Config, looks: seq<Option<Published>>)
    requires Confirms(c, Recs(Fed(looks)))
    ensures Fed(looks) != [] && Last(Fed(looks)).rec.bgp.Some?
  {
    hide Confirms, Fed;
    ConfirmationNeedsOne(c, Recs(Fed(looks)));
    ConfirmedReports(c, Recs(Fed(looks)));
  }

  lemma ConfirmationNeedsOne(c: Config, h: seq<Rec>)
    requires Confirms(c, h)
    ensures h != []
  {
  }

  lemma WaitFailed(c: Config, r: Round)
    requires r.answers == [] && !Confirms(c, r.Records()) && Unconfirmed(c, Fed(r.looks), |Fed(r.looks)|)
    ensures r.TimedOut(c)
  {
    hide Confirms;
    assert Fed(r.looks)[..|Fed(r.looks)|] == Fed(r.looks);
  }
}
