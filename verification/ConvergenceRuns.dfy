/** What a confirmation means, over every run of records since a `reset`. */
module ConvergenceRuns {
  import opened Wrappers
  import opened Sequences
  import opened Telemetry
  import opened Convergence

  function Run(c: Config, s: State, h: seq<Rec>): State {
    if h == [] then s else Step(c, Run(c, s, Init(h)), Last(h)).1
  }

  /** The last record of `h` confirms, `h` having been fed since a reset. */
  predicate Confirms(c: Config, h: seq<Rec>) {
    h != [] && Step(c, Run(c, RESET, Init(h)), Last(h)).0
  }

  // ---- the same, said of the records alone ----

  /** A sample that carries information about a running router. */
  predicate Informative(rec: Rec) {
    rec.isSample && !rec.dutDown && !ReadFailed(rec)
  }

  predicate LooksAtFib(c: Config, rec: Rec) {
    c.requireQuiet && Informative(rec) && Examined(c, rec)
  }

  /** The install count most recently compared. */
  function PreviousInstalls(c: Config, h: seq<Rec>): Option<int> {
    if h == [] then None
    else if LooksAtFib(c, Last(h)) then Last(h).installs
    else PreviousInstalls(c, Init(h))
  }

  /** Informative and, where quiet is required, neither CPU, queue nor install count says the router is working. */
  predicate Quiet(c: Config, h: seq<Rec>, rec: Rec) {
    Informative(rec) && (c.requireQuiet ==> BusyReason(c, PreviousInstalls(c, h), rec).None?)
  }

  /** A quiet sample with all sessions up and a usable key. */
  predicate Good(c: Config, h: seq<Rec>, rec: Rec, key: Key) {
    Quiet(c, h, rec) && KeyOf(rec) == Some(key) && Usable(Some(key)) && SessionsOk(c, rec)
  }

  /** The last `n` samples that are not ignored are good and carry `key`; a down sample counts and is not good. */
  predicate GoodRun(c: Config, h: seq<Rec>, key: Key, n: nat) {
    n == 0
    || (h != [] &&
        if Ignored(Last(h)) then GoodRun(c, Init(h), key, n)
        else Good(c, Init(h), Last(h), key) && GoodRun(c, Init(h), key, n - 1))
  }

  /** The streak is exactly the longest good run of the last key, and no other key has one. */
  lemma {:induction false} StreakIsGoodRun(c: Config, h: seq<Rec>, key: Key, n: nat)
    ensures var s := Run(c, RESET, h);
            && s.lastInstalls == PreviousInstalls(c, h)
            && (s.streak > 0 ==> Usable(s.lastKey))
            && (GoodRun(c, h, key, n) <==> n == 0 || (s.lastKey == Some(key) && n <= s.streak))
    decreases |h|
  {
    if h != [] {
      StreakIsGoodRun(c, Init(h), key, n);
      if n > 0 {
        StreakIsGoodRun(c, Init(h), key, n - 1);
      }
    }
  }

  /** Two successive compared install counts were equal, the second one at record `i`. */
  predicate EqualReading(c: Config, h: seq<Rec>, i: nat)
    requires i < |h|
  {
    LooksAtFib(c, h[i]) && PreviousInstalls(c, h[..i]) == h[i].installs
  }

  /** The key of the last quiet record, whatever its sessions were. */
  function Noted(c: Config, h: seq<Rec>): Option<Key> {
    if h == [] then None
    else if Quiet(c, Init(h), Last(h)) then KeyOf(Last(h))
    else Noted(c, Init(h))
  }

  lemma {:induction false} LastKeyIsNoted(c: Config, h: seq<Rec>)
    ensures Run(c, RESET, h).lastKey == Noted(c, h) && Run(c, RESET, h).lastInstalls == PreviousInstalls(c, h)
    decreases |h|
  {
    if h != [] {
      LastKeyIsNoted(c, Init(h));
    }
  }

  /** Record `i` is good, with a key other than that of the last quiet record before it. */
  ghost predicate NewKey(c: Config, h: seq<Rec>, i: nat)
    requires i < |h|
  {
    exists key :: Good(c, h[..i], h[i], key) && Noted(c, h[..i]) != Some(key)
  }

  ghost predicate Evidence(c: Config, h: seq<Rec>) {
    exists i | 0 <= i < |h| :: EqualReading(c, h, i) && forall j | i <= j < |h| :: !NewKey(c, h, j)
  }

  lemma EvidenceStep(c: Config, h: seq<Rec>)
    requires h != []
    ensures Evidence(c, h) <==>
      !NewKey(c, h, |h| - 1) && (Evidence(c, Init(h)) || EqualReading(c, h, |h| - 1))
  {
    hide EqualReading, NewKey;
    var k := |h| - 1;
    forall i | 0 <= i < k
      ensures EqualReading(c, h, i) == EqualReading(c, Init(h), i) && NewKey(c, h, i) == NewKey(c, Init(h), i)
    {
      SamePrefix(c, h, i);
    }
    if Evidence(c, h) {
      var i :| 0 <= i < |h| && EqualReading(c, h, i) && forall j | i <= j < |h| :: !NewKey(c, h, j);
      if i < k { assert EqualReading(c, Init(h), i) && forall j | i <= j < k :: !NewKey(c, Init(h), j); }
    }
    if Evidence(c, Init(h)) && !NewKey(c, h, k) {
      var i :| 0 <= i < k && EqualReading(c, Init(h), i) && forall j | i <= j < k :: !NewKey(c, Init(h), j);
      assert EqualReading(c, h, i);
    }
  }

  lemma SamePrefix(c: Config, h: seq<Rec>, i: nat)
    requires i < |h| - 1
    ensures EqualReading(c, h, i) == EqualReading(c, Init(h), i) && NewKey(c, h, i) == NewKey(c, Init(h), i)
  {
    assert Init(h)[..i] == h[..i];
  }

  /** The FIB flag says exactly that: an equal reading since the last streak begun on a new key. */
  lemma {:induction false} FibSeenIsEvidence(c: Config, h: seq<Rec>)
    requires c.requireQuiet
    ensures Run(c, RESET, h).fibSeen <==> Evidence(c, h)
    decreases |h|
  {
    if h != [] {
      var rec := Last(h);
      hide Evidence;
      EvidenceStep(c, h);
      FibSeenIsEvidence(c, Init(h));
      LastKeyIsNoted(c, Init(h));
      assert h[..|h| - 1] == Init(h);
      if Usable(KeyOf(rec)) {
        assert NewKey(c, h, |h| - 1) <==> Good(c, Init(h), rec, KeyOf(rec).value) && Noted(c, Init(h)) != KeyOf(rec);
      }
    } else {
      assert !Evidence(c, h);
    }
  }

  /**
    Confirmation, exactly. A record confirms if and only if it is good, the last `stable_samples` samples that
    are not ignored are good with its key, and, where quiet is required, an equal pair of install counts was
    seen since the last streak begun on a new key.
   */
  lemma ConfirmsExactly(c: Config, h: seq<Rec>)
    ensures Confirms(c, h) <==>
      && h != []
      && (exists key :: Good(c, Init(h), Last(h), key) && GoodRun(c, h, key, c.stableSamples))
      && (c.requireQuiet ==> Evidence(c, h))
  {
    if h != [] {
      hide Evidence;
      var before, rec := Init(h), Last(h);
      if c.requireQuiet { FibSeenIsEvidence(c, h); }
      StreakIsGoodRun(c, before, Key(None, None, None, None), 0);
      if Usable(KeyOf(rec)) {
        StreakIsGoodRun(c, h, KeyOf(rec).value, c.stableSamples);
      }
    }
  }

  /** With quiet required, a confirmation rests on two equal successive install counts since the reset. */
  lemma ConfirmedFibWasSteady(c: Config, h: seq<Rec>)
    requires c.requireQuiet && Confirms(c, h)
    ensures exists i | 0 <= i < |h| :: EqualReading(c, h, i)
  {
    ConfirmsExactly(c, h);
  }

  // ---- the evidence may be older than the streak ----

  function Idle(version: int): Rec {
    var f := Family(false, Some(version), Some(7), 1, 0, 7);
    Rec(true, None, false, Some((f, f)), [], Logs(false, false, false, false, false, false), None, None)
  }

  /** Where the good run of `key` that ends the history begins; ignored records inside it are skipped over. */
  function RunStart(c: Config, h: seq<Rec>, key: Key): (start: nat)
    ensures start <= |h|
  {
    if h == [] then 0
    else if Ignored(Last(h)) || Good(c, Init(h), Last(h), key) then RunStart(c, Init(h), key)
    else |h|
  }

  function Samples(h: seq<Rec>): nat {
    if h == [] then 0 else Samples(Init(h)) + (if Ignored(Last(h)) then 0 else 1)
  }

  /** The run counts exactly the samples from there on, and each of them is good with the key. */
  lemma {:induction false} RunStartIsExact(c: Config, h: seq<Rec>, key: Key, n: nat)
    ensures GoodRun(c, h, key, n) <==> n <= Samples(h[RunStart(c, h, key)..])
    ensures forall i | RunStart(c, h, key) <= i < |h| :: Ignored(h[i]) || Good(c, h[..i], h[i], key)
    decreases |h|
  {
    var start := RunStart(c, h, key);
    if h != [] && start < |h| {
      var before := Init(h);
      RunStartIsExact(c, before, key, n);
      if n > 0 { RunStartIsExact(c, before, key, n - 1); }
      assert Init(h[start..]) == before[start..] && Last(h[start..]) == Last(h);
      forall i | start <= i < |h|
        ensures Ignored(h[i]) || Good(c, h[..i], h[i], key)
      {
        assert h[..i] == if i < |before| then before[..i] else before;
      }
    } else {
      assert h[start..] == [];
    }
  }

  /** What the comment on the flag promises: the streak itself saw two equal successive counts. */
  predicate OwnEvidence(c: Config, h: seq<Rec>, key: Key) {
    exists i | RunStart(c, h, key) <= i < |h| :: EqualReading(c, h, i)
  }

  /**
    When the promise is kept: the streak holds its own evidence if and only if one of its samples carries an
    install count that has a count before it to be compared with.
   */
  lemma OwnEvidenceExactly(c: Config, h: seq<Rec>, key: Key)
    requires c.requireQuiet
    ensures OwnEvidence(c, h, key) <==>
      exists i | RunStart(c, h, key) <= i < |h| ::
        !Ignored(h[i]) && h[i].installs.Some? && PreviousInstalls(c, h[..i]).Some?
  {
    RunStartIsExact(c, h, key, 0);
    forall i | RunStart(c, h, key) <= i < |h|
      ensures EqualReading(c, h, i) <==> !Ignored(h[i]) && h[i].installs.Some? && PreviousInstalls(c, h[..i]).Some?
    {
    }
  }

  /**
    The comment on the flag says the current streak has seen a FIB observation. It need not have: here the
    equal readings come first, a busy sample breaks the streak, and three samples that say nothing about the
    FIB then confirm. FibSeenIsEvidence is what the flag does mean; OwnEvidenceExactly is when the promise is kept.
   */
  lemma EvidenceOlderThanStreak() returns (c: Config, h: seq<Rec>)
    ensures h != [] && KeyOf(Last(h)).Some? && !OwnEvidence(c, h, KeyOf(Last(h)).value)
    ensures c.requireQuiet && c.stableSamples == 3 && |h| == 6 && Confirms(c, h)
    ensures forall i | 3 <= i < 6 :: h[i].installs.None?
    ensures !Quiet(c, h[..2], h[2])
  {
    c := Config(1, 1, 3, true, 60.0, true);
    var reading := Idle(1).(installs := Some(5));
    var busy := Idle(1).(processes := [Process("bgpd", None, 0.0, Some(100.0))]);
    var i := Idle(1);
    h := [reading, reading, busy, i, i, i];
    var k := KeyOf(i);
    assert h[..1] == [reading] && h[..2] == [reading, reading] && h[..3] == [reading, reading, busy];
    assert h[..4] == [reading, reading, busy, i] && h[..5] == [reading, reading, busy, i, i];
    assert Init(h[..1]) == [] && Init(h[..2]) == h[..1] && Init(h[..3]) == h[..2];
    assert Init(h[..4]) == h[..3] && Init(h[..5]) == h[..4] && Init(h) == h[..5];
    assert Run(c, RESET, h[..1]) == State(1, k, Some(5), false, Some(Stabilising(1)));
    assert Run(c, RESET, h[..2]) == State(2, k, Some(5), true, Some(Stabilising(2)));
    assert Run(c, RESET, h[..3]) == State(0, k, Some(5), true, Some(BgpdBusy));
    assert Run(c, RESET, h[..4]) == State(1, k, Some(5), true, Some(Stabilising(1)));
    assert Run(c, RESET, h[..5]) == State(2, k, Some(5), true, Some(Stabilising(2)));
    RunStartIsExact(c, h, k.value, 0);
    OwnEvidenceExactly(c, h, k.value);
    assert !Ignored(h[2]) && !Good(c, h[..2], h[2], k.value);
  }

  // ---- liveness ----

  /** A quiet, fully established sample with this key; an install count, if carried, is `installs`. */
  predicate Calm(c: Config, rec: Rec, key: Key, installs: int) {
    && Informative(rec) && !CpuBusy(c, rec) && !QueueBusy(rec)
    && (rec.installs.Some? ==> rec.installs.value == installs)
    && KeyOf(rec) == Some(key) && Usable(Some(key)) && SessionsOk(c, rec)
  }

  predicate AllCalm(c: Config, h: seq<Rec>, key: Key, installs: int) {
    forall i | 0 <= i < |h| :: Calm(c, h[i], key, installs)
  }

  predicate Carries(h: seq<Rec>) {
    exists i :: 0 <= i < |h| && h[i].installs.Some?
  }

  predicate CarriesTwice(h: seq<Rec>) {
    exists i, j :: 0 <= i < j < |h| && h[i].installs.Some? && h[j].installs.Some?
  }

  /** The first count carried cannot disagree with what the tracker remembers. */
  predicate Agrees(c: Config, s: State, installs: int) {
    !c.requireQuiet || s.lastInstalls.None? || s.lastInstalls == Some(installs)
  }

  lemma CarriesStep(h: seq<Rec>)
    requires h != []
    ensures Carries(h) <==> Carries(Init(h)) || Last(h).installs.Some?
    ensures CarriesTwice(h) <==> CarriesTwice(Init(h)) || (Carries(Init(h)) && Last(h).installs.Some?)
  {
    var b := Init(h);
    assert forall i | 0 <= i < |b| :: b[i] == h[i];
    if Carries(b) { var i :| 0 <= i < |b| && b[i].installs.Some?; assert h[i].installs.Some?; }
    if CarriesTwice(b) {
      var i, j :| 0 <= i < j < |b| && b[i].installs.Some? && b[j].installs.Some?;
      assert h[i].installs.Some? && h[j].installs.Some?;
    }
  }

  /** A calm sample from an agreeing state always extends or begins a streak. */
  lemma CalmStep(c: Config, s: State, rec: Rec, key: Key, installs: int)
    requires Calm(c, rec, key, installs) && Agrees(c, s, installs)
    ensures var e := Step(c, s, rec).1;
            && Agrees(c, e, installs)
            && e.lastKey == Some(key)
            && e.streak == (if s.lastKey == Some(key) then s.streak + 1 else 1)
            && e.lastInstalls == (if c.requireQuiet && rec.installs.Some? then Some(installs) else s.lastInstalls)
            && (c.requireQuiet ==>
                  e.fibSeen == (s.lastKey == Some(key) && (s.fibSeen || (s.lastInstalls.Some? && rec.installs.Some?))))
  {
    hide KeyOf, SessionsOk, CpuBusy, QueueBusy;
  }

  /** After calm samples from an agreeing state: every one counted, and the flag follows the counts carried. */
  lemma {:induction false} CalmRun(c: Config, s: State, h: seq<Rec>, key: Key, installs: int)
    requires AllCalm(c, h, key, installs) && Agrees(c, s, installs)
    ensures var e := Run(c, s, h);
            && Agrees(c, e, installs)
            && (h != [] ==> e.lastKey == Some(key) && e.streak >= |h|)
            && (c.requireQuiet && (Carries(h) || s.lastInstalls.Some?) ==> e.lastInstalls == Some(installs))
            && (c.requireQuiet && CarriesTwice(h) ==> e.fibSeen)
            && (c.requireQuiet && s.lastInstalls.Some? && h != [] && Carries(h[1..]) ==> e.fibSeen)
    decreases |h|
  {
    if h != [] {
      hide Carries, CarriesTwice, Calm, Agrees, Step;
      var before := Init(h);
      CalmRun(c, s, before, key, installs);
      CalmStep(c, Run(c, s, before), Last(h), key, installs);
      CarriesStep(h);
      if before != [] {
        CarriesStep(h[1..]);
        assert Init(h[1..]) == before[1..];
      } else {
        assert !Carries(h[1..]) && !CarriesTwice(h) by { NothingCarried(h); }
      }
    }
  }

  lemma NothingCarried(h: seq<Rec>)
    requires |h| == 1
    ensures !Carries(h[1..]) && !CarriesTwice(h)
  {
  }

  /** `feed` returns True on the last record of `h`, starting from state `s`. */
  predicate EndsConfirmed(c: Config, s: State, h: seq<Rec>) {
    h != [] && Step(c, Run(c, s, Init(h)), Last(h)).0
  }

  /**
    Liveness: at least `stable_samples` calm samples from a state that agrees with their install count end
    confirmed, provided the count was carried often enough to be compared.
   */
  lemma CalmConfirms(c: Config, s: State, h: seq<Rec>, key: Key, installs: int)
    requires AllCalm(c, h, key, installs) && Agrees(c, s, installs)
    requires h != [] && |h| >= c.stableSamples
    requires c.requireQuiet ==> CarriesTwice(h) || (s.lastInstalls.Some? && Carries(h[1..]))
    ensures EndsConfirmed(c, s, h)
  {
    hide Carries, CarriesTwice;
    CalmRun(c, s, h, key, installs);
    var before := Run(c, s, Init(h));
    CalmRun(c, s, Init(h), key, installs);
    assert Calm(c, Last(h), key, installs);
  }

  lemma {:induction false} RunSplit(c: Config, s: State, a: seq<Rec>, b: seq<Rec>)
    ensures Run(c, s, a + b) == Run(c, Run(c, s, a), b)
    decreases |b|
  {
    if b == [] {
      assert a + b == a;
    } else {
      assert Init(a + b) == a + Init(b) && Last(a + b) == Last(b);
      RunSplit(c, s, a, Init(b));
    }
  }

  /** Calm samples that carry no count leave the remembered count alone. */
  lemma {:induction false} SilentRun(c: Config, s: State, h: seq<Rec>, key: Key, installs: int)
    requires AllCalm(c, h, key, installs) && !Carries(h)
    ensures Run(c, s, h).lastInstalls == s.lastInstalls
    decreases |h|
  {
    if h != [] {
      hide KeyOf, SessionsOk, CpuBusy, QueueBusy;
      CarriesStep(h);
      SilentRun(c, s, Init(h), key, installs);
      assert Calm(c, Last(h), key, installs);
    }
  }

  /**
    Liveness from any state at all: the first count carried, at `f`, may still break a streak; a further
    `stable_samples` calm samples, one of them past the next carrying a count, end confirmed.
   */
  lemma CalmConfirmsFromAnywhere(c: Config, s: State, h: seq<Rec>, key: Key, installs: int, f: nat, g: nat)
    requires AllCalm(c, h, key, installs)
    requires f + 1 < g < |h| && h[f].installs.Some? && h[g].installs.Some? && !Carries(h[..f])
    requires |h| - (f + 1) >= c.stableSamples
    ensures EndsConfirmed(c, s, h)
  {
    if Agrees(c, s, installs) {
      CalmConfirms(c, s, h, key, installs);
    } else {
      var head, tail := h[..f + 1], h[f + 1..];
      assert h == head + tail && Init(head) == h[..f] && Last(head) == h[f] && Init(h) == head + Init(tail);
      SilentRun(c, s, h[..f], key, installs);
      assert Calm(c, h[f], key, installs);
      var s2 := Run(c, s, head);
      assert s2.lastInstalls == Some(installs);
      RunSplit(c, s, head, Init(tail));
      assert tail[1..][g - f - 2] == h[g];
      CalmConfirms(c, s2, tail, key, installs);
    }
  }
}
