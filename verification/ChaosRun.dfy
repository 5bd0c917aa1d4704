/**
  harness/scenarios.py `ev_policy_churn` and `ev_maxprefix_trip`, and the chaos loop of harness/runner.py
  `cmd_run`: configuration changes whose commits may time out, be refused or raise, and a loop that stops
  when a revert is known to have failed.
 */
module ChaosRun {
  import opened Wrappers
  import opened ChurnFragments

  /**
    How one `configure` call ends. `landed` is how many commands took effect where the whole batch is not
    known to have: nothing is assumed about it.
   */
  datatype Outcome =
    | Committed
    | Refused(landed: nat)    // non-zero return code
    | TimedOut(landed: nat)   // CommitTimeout
    | Raised(landed: nat)     // any other exception

  function Landed(c: Tree, cmds: seq<Cmd>, o: Outcome): Tree {
    if o.Committed? then Exec(c, cmds)
    else Exec(c, cmds[..if o.landed <= |cmds| then o.landed else |cmds|])
  }

  /** A batch that was sent to the router, and how its commit ended. */
  datatype Commit = Commit(cmds: seq<Cmd>, outcome: Outcome)

  class Dut {
    var config: Tree
    ghost var commits: seq<Commit>   // in order

    method Configure(cmds: seq<Cmd>) returns (o: Outcome)
      modifies this
      ensures config == Landed(old(config), cmds, o) && commits == old(commits) + [Commit(cmds, o)]
    {
      o := *;
      config := Landed(config, cmds, o);
      commits := commits + [Commit(cmds, o)];
    }
  }

  /** What an event with this fragment sends: the apply, and the revert where there is an outcome for one. */
  function CommitsOf(f: Fragment, apply: Outcome, revert: Option<Outcome>): seq<Commit> {
    [Commit(f.apply, apply)] + (if revert.Some? then [Commit(f.revert, revert.value)] else [])
  }

  /** What the loop sees of an event: `error` is the record `run_one` makes of an exception. */
  datatype EventRec = EventRec(error: bool, leftModified: bool)

  // ---- ev_policy_churn ----

  /** The outcomes of the two commits, the second one absent where no revert was asked for. */
  datatype Churn = Churn(apply: Outcome, revert: Option<Outcome>)

  function ChurnEnd(c: Tree, f: Fragment, o: Churn): Tree {
    var mid := Landed(c, f.apply, o.apply);
    if o.revert.Some? then Landed(mid, f.revert, o.revert.value) else mid
  }

  predicate ChurnErrs(o: Churn) {
    o.apply.Raised? || (o.revert.Some? && o.revert.value.Raised?)
  }

  /** The flag: the revert timed out, and no exception replaced the record. */
  predicate ChurnFlags(o: Churn) {
    o.revert.Some? && o.revert.value.TimedOut? && !o.apply.Raised?
  }

  method EvPolicyChurn(dut: Dut, f: Fragment, revert: bool) returns (rec: EventRec, ghost o: Churn)
    modifies dut
    ensures o.revert.Some? <==> revert
    ensures dut.config == ChurnEnd(old(dut.config), f, o)
    ensures dut.commits == old(dut.commits) + CommitsOf(f, o.apply, o.revert)
    ensures rec == EventRec(ChurnErrs(o), ChurnFlags(o))
  {
    var r := dut.Configure(f.apply);
    var raising := r.Raised?;
    var revertError := false;
    o := Churn(r, None);
    // the `finally` block: reached however the apply ended
    if revert {
      var r2 := dut.Configure(f.revert);
      o := Churn(r, Some(r2));
      if r2.TimedOut? { revertError := true; }
      if r2.Raised? { return EventRec(true, false), o; }
    }
    if raising { return EventRec(true, false), o; }
    rec := EventRec(false, revert && revertError);
  }

  /** A revert commit that took effect restores whatever part of the apply landed. */
  lemma CommittedRevertRestores(c: Tree, f: Fragment, o: Churn)
    requires Covered(f.apply, f.revert) && Consistent(f.revert) && Holds(c, f.revert)
    requires o.revert == Some(Committed)
    ensures ChurnEnd(c, f, o) == c
  {
    var k := if o.apply.Committed? || o.apply.landed > |f.apply| then |f.apply| else o.apply.landed;
    assert f.apply[..|f.apply|] == f.apply;
    RevertRestores(c, f.apply, f.revert, k);
  }

  /** An outcome of the same kind with `k` commands landed. */
  function WithLanded(o: Outcome, k: nat): Outcome {
    match o
    case Committed => Committed
    case Refused(_) => Refused(k)
    case TimedOut(_) => TimedOut(k)
    case Raised(_) => Raised(k)
  }

  /** A fragment and a configuration it starts from. */
  ghost predicate Revertible(c: Tree, f: Fragment) {
    Covered(f.apply, f.revert) && Consistent(f.revert) && Holds(c, f.revert)
  }

  predicate RestoredOrFlagged(c: Tree, f: Fragment, apply: Outcome, revert: Outcome) {
    var o := Churn(apply, Some(revert));
    ChurnEnd(c, f, o) == c || ChurnFlags(o)
  }

  /** However many commands of an incomplete batch landed, and whatever the fragment. */
  ghost predicate Certain(apply: Outcome, revert: Outcome) {
    forall c: Tree, f: Fragment, k: nat, m: nat | Revertible(c, f) ::
      RestoredOrFlagged(c, f, WithLanded(apply, k), WithLanded(revert, m))
  }

  /** The revert committed, or timed out with no other exception from the apply. */
  predicate Accounted(apply: Outcome, revert: Outcome) {
    revert.Committed? || (revert.TimedOut? && !apply.Raised?)
  }

  /**
    "Ends in the starting configuration, or says it did not" is certain exactly for accounted outcomes. A
    refused revert, or an exception other than a timeout, can leave the router changed with nothing said.
   */
  lemma RestoredOrFlaggedExactly(apply: Outcome, revert: Outcome)
    ensures Certain(apply, revert) <==> Accounted(apply, revert)
  {
    if Accounted(apply, revert) {
      forall c: Tree, f: Fragment, k: nat, m: nat | Revertible(c, f)
        ensures RestoredOrFlagged(c, f, WithLanded(apply, k), WithLanded(revert, m))
      {
        if revert.Committed? {
          CommittedRevertRestores(c, f, Churn(WithLanded(apply, k), Some(WithLanded(revert, m))));
        }
      }
    } else {
      var c, f := UnsaidSwap(apply, revert);
      assert Revertible(c, f) && !RestoredOrFlagged(c, f, WithLanded(apply, 1), WithLanded(revert, 0));
    }
  }

  /** A router that announces to the squeezed group. */
  const EXAMPLE: Inputs := Inputs(65000, "192.0.2.0/24", 1001, 5000, Some(20000))

  /** The fragment that swaps the peer-group's import route-map does it. */
  lemma UnsaidSwap(apply: Outcome, revert: Outcome) returns (c: Tree, f: Fragment)
    requires !Accounted(apply, revert)
    ensures FragmentOf(EXAMPLE, PgRoutemapSwap) == Some(f)
    ensures Revertible(c, f) && !RestoredOrFlagged(c, f, WithLanded(apply, 1), WithLanded(revert, 0))
  {
    var p := PG_IPV4 + [Word("route-map"), Word("import")];
    f := FragmentOf(EXAMPLE, PgRoutemapSwap).value;
    assert f.apply == [] + [Set(p, Text("allow-all"))];
    c := LeftChanged([], p, Text("allow-all"), Text("ebgp4-import"), f, apply, revert);
  }

  lemma UnsaidSqueeze(apply: Outcome, revert: Outcome) returns (c: Tree, f: Fragment)
    ensures FragmentOf(EXAMPLE, MaxprefixSqueeze) == Some(f) && Revertible(c, f)
    ensures ChurnEnd(c, f, Churn(WithLanded(apply, 2), None)) != c
    ensures !Accounted(apply, revert) ==> !RestoredOrFlagged(c, f, WithLanded(apply, 2), WithLanded(revert, 0))
  {
    var p := PG_IPV4 + [Word("maximum-prefix")];
    f := FragmentOf(EXAMPLE, MaxprefixSqueeze).value;
    assert f.apply == [Comment] + [Set(p, Num(2500))];
    c := LeftChanged([Comment], p, Num(2500), Num(20000), f, apply, revert);
  }

  /** A fragment that sets one leaf, landed whole, and a revert of which nothing landed. */
  lemma LeftChanged(before: seq<Cmd>, p: Path, v: Value, w: Value, f: Fragment, apply: Outcome, revert: Outcome)
      returns (c: Tree)
    requires v != w && (forall cmd <- before :: cmd.Comment?)
    requires f == Fragment(before + [Set(p, v)], [Set(p, w)])
    ensures Revertible(c, f)
    ensures ChurnEnd(c, f, Churn(WithLanded(apply, |f.apply|), None)) != c
    ensures !Accounted(apply, revert) ==> !RestoredOrFlagged(c, f, WithLanded(apply, |f.apply|), WithLanded(revert, 0))
  {
    c := map[p := w];
    OneSetReverts(before, p, v, w);
    assert f.apply[..|f.apply|] == f.apply && f.revert[..0] == [];
    assert Set(p, v) in f.apply && Touches(Set(p, v), p);
    ExecAt(c, f.apply, p);
    assert At(Exec(c, f.apply), p) == Some(v) && At(c, p) == Some(w);
  }

  // ---- ev_maxprefix_trip ----

  /** `sampling` is whether reading the peers between the two commits raised. */
  datatype Trip = Trip(apply: Outcome, sampling: bool, revert: Option<Outcome>)

  predicate ReachesRevert(o: Trip) {
    !o.apply.Raised? && !o.sampling
  }

  method EvMaxprefixTrip(dut: Dut, f: Fragment) returns (rec: EventRec, ghost o: Trip)
    modifies dut
    ensures o.revert.Some? <==> ReachesRevert(o)
    ensures dut.config == ChurnEnd(old(dut.config), f, Churn(o.apply, o.revert))
    ensures dut.commits == old(dut.commits) + CommitsOf(f, o.apply, o.revert)
    ensures rec.leftModified <==> o.revert.Some? && o.revert.value.TimedOut?
    ensures !ReachesRevert(o) || o.revert.value.Raised? ==> rec.error
    ensures rec.leftModified ==> !rec.error
  {
    var r := dut.Configure(f.apply);
    o := Trip(r, false, None);
    if r.Raised? { return EventRec(true, false), o; }
    var sampling: bool := *;
    if sampling { return EventRec(true, false), Trip(r, true, None); }
    var r2 := dut.Configure(f.revert);
    o := Trip(r, false, Some(r2));
    if r2.TimedOut? { return EventRec(false, true), o; }
    var samplingAfter: bool := *;
    rec := EventRec(r2.Raised? || samplingAfter, false);
  }

  /** What the event leaves: nothing undone where the revert was not reached. */
  function TripEnd(c: Tree, f: Fragment, o: Trip): Tree {
    ChurnEnd(c, f, Churn(o.apply, if ReachesRevert(o) then o.revert else None))
  }

  predicate TripRestoredOrFlagged(c: Tree, f: Fragment, o: Trip) {
    TripEnd(c, f, o) == c || (ReachesRevert(o) && o.revert.Some? && o.revert.value.TimedOut?)
  }

  ghost predicate TripCertain(apply: Outcome, sampling: bool, revert: Outcome) {
    forall c: Tree, f: Fragment, k: nat, m: nat | Revertible(c, f) ::
      TripRestoredOrFlagged(c, f, Trip(WithLanded(apply, k), sampling, Some(WithLanded(revert, m))))
  }

  /**
    The comment says the revert has to be attempted whatever the apply did, but there is no `finally` here:
    an exception from the apply or from the sampling after it skips the revert, and the squeeze can stay in
    place with nothing said. The event is certain to end restored or flagged exactly when neither raised and
    the two commits are accounted for.
   */
  lemma TripRestoredOrFlaggedExactly(apply: Outcome, sampling: bool, revert: Outcome)
    ensures TripCertain(apply, sampling, revert) <==> !apply.Raised? && !sampling && Accounted(apply, revert)
  {
    if !apply.Raised? && !sampling && Accounted(apply, revert) {
      forall c: Tree, f: Fragment, k: nat, m: nat | Revertible(c, f)
        ensures TripRestoredOrFlagged(c, f, Trip(WithLanded(apply, k), sampling, Some(WithLanded(revert, m))))
      {
        if revert.Committed? {
          CommittedRevertRestores(c, f, Churn(WithLanded(apply, k), Some(WithLanded(revert, m))));
        }
      }
    } else {
      var c, f := UnsaidSqueeze(apply, revert);
      assert !TripRestoredOrFlagged(c, f, Trip(WithLanded(apply, 2), sampling, Some(WithLanded(revert, 0))));
    }
  }

  // ---- the chaos loop ----

  /** An event as drawn: a churn with or without revert, the squeeze, or one that leaves the configuration alone. */
  datatype EventSpec = PolicyChurn(f: Fragment, revert: bool) | MaxprefixTrip(f: Fragment) | Other

  /** One turn of the loop as it happened. */
  datatype Turn = Turn(before: Tree, spec: EventSpec, apply: Outcome, revert: Option<Outcome>, rec: EventRec,
                       after: Tree)

  function TurnCommits(t: Turn): seq<Commit> {
    if t.spec.Other? then [] else CommitsOf(t.spec.f, t.apply, t.revert)
  }

  function AllCommits(turns: seq<Turn>): seq<Commit> {
    if turns == [] then [] else AllCommits(turns[..|turns| - 1]) + TurnCommits(turns[|turns| - 1])
  }

  /** The turn's configuration change follows from its commits, and its flag from how they ended. */
  ghost predicate Happened(t: Turn) {
    match t.spec
    case Other => t.after == t.before && !t.rec.leftModified
    case PolicyChurn(f, revert) =>
      && (t.revert.Some? <==> revert)
      && t.after == ChurnEnd(t.before, f, Churn(t.apply, t.revert))
      && t.rec.leftModified == ChurnFlags(Churn(t.apply, t.revert))
    case MaxprefixTrip(f) =>
      && t.after == ChurnEnd(t.before, f, Churn(t.apply, t.revert))
      && (t.rec.leftModified <==> t.revert.Some? && t.revert.value.TimedOut?)
      && (t.revert.Some? ==> !t.apply.Raised?)
  }

  /** A turn that tried its revert, with a fragment that fits configuration `c`, and outcomes that are accounted for. */
  ghost predicate TurnAccounted(t: Turn, c: Tree) {
    match t.spec
    case Other => true
    case PolicyChurn(f, _) => Revertible(c, f) && t.revert.Some? && Accounted(t.apply, t.revert.value)
    case MaxprefixTrip(f) => Revertible(c, f) && t.revert.Some? && Accounted(t.apply, t.revert.value)
  }

  /** What an event can do to the configuration, whatever it is. */
  method RunOne(dut: Dut, spec: EventSpec) returns (rec: EventRec, ghost t: Turn)
    modifies dut
    ensures Happened(t) && t.before == old(dut.config) && t.after == dut.config && t.spec == spec && t.rec == rec
    ensures dut.commits == old(dut.commits) + TurnCommits(t)
  {
    ghost var before := dut.config;
    match spec
    case PolicyChurn(f, revert) =>
      ghost var o;
      rec, o := EvPolicyChurn(dut, f, revert);
      t := Turn(before, spec, o.apply, o.revert, rec, dut.config);
    case MaxprefixTrip(f) =>
      ghost var o;
      rec, o := EvMaxprefixTrip(dut, f);
      t := Turn(before, spec, o.apply, o.revert, rec, dut.config);
    case Other =>
      var error: bool := *;
      rec := EventRec(error, false);
      t := Turn(before, spec, Committed, None, rec, dut.config);
  }

  ghost predicate Chained(turns: seq<Turn>, start: Tree, end: Tree) {
    && (forall i | 0 <= i < |turns| :: Happened(turns[i]))
    && (forall i | 0 < i < |turns| :: turns[i].before == turns[i - 1].after)
    && (if turns == [] then start == end else turns[0].before == start && turns[|turns| - 1].after == end)
  }

  lemma NoTurns(c: Tree)
    ensures Chained([], c, c) && AllCommits([]) == []
  {
  }

  lemma TurnsExtend(turns: seq<Turn>, start: Tree, t: Turn)
    requires Chained(turns, start, t.before) && Happened(t)
    ensures Chained(turns + [t], start, t.after) && AllCommits(turns + [t]) == AllCommits(turns) + TurnCommits(t)
  {
    hide Happened, TurnCommits;
    assert (turns + [t])[..|turns|] == turns;
  }

  /**
    The loop of `cmd_run`. `drawn` is what the scheduler would draw for as long as the clock allows; a record
    saying the configuration was left modified ends the loop, and no event runs after it.
   */
  method ChaosLoop(dut: Dut, drawn: seq<EventSpec>)
      returns (events: seq<EventRec>, aborted: bool, ghost turns: seq<Turn>)
    modifies dut
    ensures |turns| == |events| <= |drawn|
    ensures forall i | 0 <= i < |events| :: turns[i].spec == drawn[i] && turns[i].rec == events[i]
    ensures Chained(turns, old(dut.config), dut.config) && dut.commits == old(dut.commits) + AllCommits(turns)
    ensures forall i | 0 <= i < |events| - 1 :: !events[i].leftModified
    ensures aborted <==> events != [] && events[|events| - 1].leftModified
    ensures !aborted ==> |events| == |drawn|
  {
    hide Happened, TurnCommits, Chained, AllCommits;
    NoTurns(dut.config);
    events, turns, aborted := [], [], false;
    ghost var start := dut.config;
    for n := 0 to |drawn|
      invariant |turns| == |events| == n && !aborted
      invariant forall i | 0 <= i < n :: turns[i].spec == drawn[i] && turns[i].rec == events[i]
      invariant Chained(turns, start, dut.config) && dut.commits == old(dut.commits) + AllCommits(turns)
      invariant forall i | 0 <= i < n :: !events[i].leftModified
    {
      var rec, t := RunOne(dut, drawn[n]);
      TurnsExtend(turns, start, t);
      events, turns := events + [rec], turns + [t];
      if rec.leftModified {
        aborted := true;
        return;
      }
    }
  }

  /** An accounted turn that is not flagged ends where it began. */
  lemma QuietTurnRestores(t: Turn)
    requires Happened(t) && TurnAccounted(t, t.before) && !t.rec.leftModified
    ensures t.after == t.before
  {
    if !t.spec.Other? {
      assert t.revert == Some(Committed);
      CommittedRevertRestores(t.before, t.spec.f, Churn(t.apply, t.revert));
    }
  }

  /**
    While outcomes are accounted for and each fragment fits the configuration the run started from, every event
    of the run starts from that configuration: the only event that can end anywhere else is the last one, and it says
    so.
   */
  lemma EveryEventStartsClean(turns: seq<Turn>, start: Tree, end: Tree)
    requires Chained(turns, start, end)
    requires forall j | 0 <= j < |turns| - 1 :: !turns[j].rec.leftModified
    requires forall j | 0 <= j < |turns| :: TurnAccounted(turns[j], start)
    ensures forall i | 0 <= i < |turns| :: turns[i].before == start
    ensures turns == [] || !turns[|turns| - 1].rec.leftModified ==> end == start
  {
    hide Happened, TurnAccounted;
    forall i | 0 <= i < |turns|
      ensures turns[i].before == start
    {
      StartsClean(turns, start, end, i);
    }
    if turns != [] && !turns[|turns| - 1].rec.leftModified {
      QuietTurnRestores(turns[|turns| - 1]);
    }
  }

  lemma {:induction false} StartsClean(turns: seq<Turn>, start: Tree, end: Tree, i: nat)
    requires Chained(turns, start, end) && i < |turns|
    requires forall j | 0 <= j < |turns| - 1 :: !turns[j].rec.leftModified
    requires forall j | 0 <= j < |turns| :: TurnAccounted(turns[j], start)
    ensures turns[i].before == start
  {
    hide Happened, TurnAccounted;
    if i > 0 {
      StartsClean(turns, start, end, i - 1);
      QuietTurnRestores(turns[i - 1]);
    }
  }

  // ---- runs of the rendered fragments ----

  /** An event that leaves the configuration alone, or one with a fragment rendered for this inventory. */
  predicate Rendered(x: Inputs, spec: EventSpec) {
    spec.Other? || exists name :: FragmentOf(x, name) == Some(spec.f)
  }

  /** The configuration holds the revert of every fragment rendered for this inventory. */
  ghost predicate HoldsAll(x: Inputs, c: Tree) {
    forall name :: FragmentOf(x, name).Some? ==> Holds(c, FragmentOf(x, name).value.revert)
  }

  predicate OutcomesAccounted(t: Turn) {
    t.spec.Other? || (t.revert.Some? && Accounted(t.apply, t.revert.value))
  }

  /**
    From a configuration that holds every rendered revert, any run of rendered events with accounted outcomes starts
    each of them from that configuration; only the last can end elsewhere, and it says so.
   */
  lemma RenderedRunsStartClean(x: Inputs, turns: seq<Turn>, start: Tree, end: Tree)
    requires HoldsAll(x, start) && Chained(turns, start, end)
    requires forall j | 0 <= j < |turns| :: Rendered(x, turns[j].spec) && OutcomesAccounted(turns[j])
    requires forall j | 0 <= j < |turns| - 1 :: !turns[j].rec.leftModified
    ensures forall i | 0 <= i < |turns| :: turns[i].before == start
    ensures turns == [] || !turns[|turns| - 1].rec.leftModified ==> end == start
  {
    hide Happened, FragmentOf, Holds, Covered, Consistent, Chained, Accounted;
    forall j | 0 <= j < |turns|
      ensures TurnAccounted(turns[j], start)
    {
      var t := turns[j];
      if !t.spec.Other? {
        var name :| FragmentOf(x, name) == Some(t.spec.f);
        FragmentCovered(x, name);
      }
    }
    hide TurnAccounted;
    EveryEventStartsClean(turns, start, end);
  }

  const LP4: Path := RouteMap("ebgp4-import-ixp1", 20) + [Word("set"), Word("local-preference")]
  const LP6: Path := RouteMap("ebgp6-import-ixp1", 110) + [Word("set"), Word("local-preference")]
  const RETAG: Path := RouteMap("ebgp4-import-ixp1", 10) + [Word("set"), Word("large-community"), Word("replace")]
  const IMPORT: Path := PG_IPV4 + [Word("route-map"), Word("import")]
  const MAXPFX: Path := PG_IPV4 + [Word("maximum-prefix")]

  /** The five leaves the reverts set. */
  predicate IsLeaf(p: Path) {
    p in {LP4, LP6, RETAG, IMPORT, MAXPFX}
  }

  lemma LeavesApart()
    ensures LP4 != LP6 && LP4 != RETAG && LP4 != IMPORT && LP4 != MAXPFX && LP6 != RETAG && LP6 != IMPORT
    ensures LP6 != MAXPFX && RETAG != IMPORT && RETAG != MAXPFX && IMPORT != MAXPFX
  {
    assert "ebgp4-import-ixp1"[4] != "ebgp6-import-ixp1"[4];
    assert LP4[2] != LP6[2] && |LP4| == |LP6| == |MAXPFX| == 7 && |RETAG| == |IMPORT| == 8;
    assert "policy"[1] != "protocols"[1];
    assert LP4[0] != MAXPFX[0] && LP6[0] != MAXPFX[0] && RETAG[0] != IMPORT[0];
  }

  /** None of them lies under what a revert deletes. */
  lemma LeavesKept(p: Path, i: nat)
    requires IsLeaf(p)
    ensures !Under(p, GrowRule(i)) && !Under(p, OWN_RULE) && !Under(p, LAB_CHURN)
      && !Under(p, RouteMap("ebgp4-import", 15))
  {
    assert "route-map"[0] != "prefix-list"[0] && "route-map"[0] != "as-path-list"[0] && "policy"[1] != "protocols"[1];
    assert |"ebgp4-import"| != |"ebgp4-import-ixp1"| == |"ebgp6-import-ixp1"|;
    var at := if p[0] == Word("policy") then 1 else 0;
    NotUnder(p, GrowRule(i), at);
    NotUnder(p, OWN_RULE, at);
    NotUnder(p, LAB_CHURN, at);
    NotUnder(p, RouteMap("ebgp4-import", 15), 2 * at);
  }

  lemma NotUnder(p: Path, top: Path, i: nat)
    requires i < |p| && i < |top| && p[i] != top[i]
    ensures !Under(p, top)
  {
  }

  lemma {:induction false} GrowDeletes(n: nat, r: Cmd)
    requires r in GrowRevert(n)
    ensures exists i :: 0 <= i < n && r == Delete(GrowRule(i))
  {
    if r !in GrowRevert(n - 1) {
      assert r == Delete(GrowRule(n - 1));
    } else {
      GrowDeletes(n - 1, r);
    }
  }

  lemma Leaves5(p: Path, a: Value, q: Path, b: Value, r: Path, d: Value, s: Path, e: Value, t: Path, f: Value)
      returns (c: Tree)
    requires p != q && p != r && p != s && p != t && q != r && q != s && q != t && r != s && r != t && s != t
    ensures At(c, p) == Some(a) && At(c, q) == Some(b) && At(c, r) == Some(d) && At(c, s) == Some(e)
      && At(c, t) == Some(f)
    ensures forall x <- c :: x in {p, q, r, s, t}
  {
    c := map[p := a, q := b, r := d, s := e, t := f];
  }

  /** There is such a configuration, whatever the inventory. */
  lemma SomeHoldsAll(x: Inputs) returns (c: Tree)
    ensures HoldsAll(x, c)
  {
    LeavesApart();
    c := Leaves5(LP4, Num(275), LP6, Num(275), RETAG, LargeCommunity(x.asn, 1, x.lcIxp1),
                 IMPORT, Text("ebgp4-import"), MAXPFX, Num(x.restore.GetOr(0)));
    hide FragmentOf, Holds;
    forall name | FragmentOf(x, name).Some?
      ensures Holds(c, FragmentOf(x, name).value.revert)
    {
      RevertHolds(x, name, c);
    }
  }

  lemma RevertHolds(x: Inputs, name: Name, c: Tree)
    requires FragmentOf(x, name).Some? && forall p <- c :: IsLeaf(p)
    requires At(c, LP4) == At(c, LP6) == Some(Num(275)) && At(c, RETAG) == Some(LargeCommunity(x.asn, 1, x.lcIxp1))
    requires At(c, IMPORT) == Some(Text("ebgp4-import")) && At(c, MAXPFX) == Some(Num(x.restore.GetOr(0)))
    ensures Holds(c, FragmentOf(x, name).value.revert)
  {
    hide IsLeaf, Under, GrowApply, GrowRevert, GrowRule, RouteMap;
    var revert := FragmentOf(x, name).value.revert;
    forall r <- revert
      ensures r.Set? ==> At(c, r.path) == Some(r.value)
      ensures r.Delete? ==> forall p <- c :: !Under(p, r.path)
    {
      forall p <- c
        ensures r.Delete? ==> !Under(p, r.path)
      {
        LeavesKept(p, 0);
        if name == PrefixlistGrow {
          GrowDeletes(64, r);
          var i :| 0 <= i < 64 && r == Delete(GrowRule(i));
          LeavesKept(p, i);
        }
      }
      if name == PrefixlistGrow { GrowDeletes(64, r); }
    }
  }
}
