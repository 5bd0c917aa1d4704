/**
  harness/dutconfig.py, `peergroup_limits`, `peergroup_limits_in`, `render_peergroup_limits`: the peer-group
  maximum-prefix overrides that only ever raise.
 */
module Limits {
  import opened Arith
  import opened Wrappers
  import opened Sessions
  import ChurnFragments

  type Table = map<string, map<bool, int>>   // peer-group, then family (true is IPv6), to limit

  /** A rendered line: a peer-group maximum-prefix, or anything the pattern does not match. */
  datatype Line = MaxPrefix(pg: string, v6: bool, limit: int) | OtherLine

  function Get(t: Table, pg: string, v6: bool): Option<int> {
    if pg in t && v6 in t[pg] then Some(t[pg][v6]) else None
  }

  function Put(t: Table, pg: string, v6: bool, n: int): Table {
    t[pg := (if pg in t then t[pg] else map[])[v6 := n]]
  }

  lemma GetPut(t: Table, pg: string, v6: bool, n: int, pg': string, v6': bool)
    ensures Get(Put(t, pg, v6, n), pg', v6') == if pg' == pg && v6' == v6 then Some(n) else Get(t, pg', v6')
  {
  }

  /** The session belongs to the peer-group in this family and announces something there. */
  predicate Member(s: Session, pg: string, v6: bool) {
    (if v6 then s.pg6 else s.pg4) == Some(pg) && pg != "" && s.Prefixes(v6) != 0
  }

  // ---- what the fleets need ----

  /** The largest announcement of any member so far, never below 0; nothing without a member. */
  function Want(sessions: seq<Session>, pg: string, v6: bool): Option<int> {
    if sessions == [] then None
    else
      var s, before := sessions[|sessions| - 1], Want(sessions[..|sessions| - 1], pg, v6);
      if Member(s, pg, v6) then Some(Max(before.GetOr(0), s.Prefixes(v6))) else before
  }

  lemma {:induction false} WantIsLargest(sessions: seq<Session>, pg: string, v6: bool)
    ensures Want(sessions, pg, v6).Some? <==> exists s <- sessions :: Member(s, pg, v6)
    ensures Want(sessions, pg, v6).Some? ==> Want(sessions, pg, v6).value >= 0
    ensures forall s <- sessions :: Member(s, pg, v6) ==> s.Prefixes(v6) <= Want(sessions, pg, v6).value
    ensures Want(sessions, pg, v6).Some? && Want(sessions, pg, v6).value > 0 ==>
      exists s <- sessions :: Member(s, pg, v6) && s.Prefixes(v6) == Want(sessions, pg, v6).value
  {
    if sessions != [] {
      var init, last := sessions[..|sessions| - 1], sessions[|sessions| - 1];
      WantIsLargest(init, pg, v6);
      assert sessions == init + [last] && last in sessions;
    }
  }

  /** 4 times the largest announcement, and at least 1000. */
  function LimitFor(sessions: seq<Session>, pg: string, v6: bool): Option<int> {
    var want :- Want(sessions, pg, v6);
    Some(Max(1000, want * 4))
  }

  method WantOne(want: Table, s: Session, v6: bool) returns (out: Table)
    ensures forall pg, f {:trigger Get(out, pg, f)} ::
      Get(out, pg, f) ==
        if Member(s, pg, v6) && f == v6 then Some(Max(Get(want, pg, f).GetOr(0), s.Prefixes(v6))) else Get(want, pg, f)
  {
    var pg, count := if v6 then s.pg6 else s.pg4, s.Prefixes(v6);
    if pg.None? || pg.value == "" || count == 0 { return want; }
    out := Put(want, pg.value, v6, Max(Get(want, pg.value, v6).GetOr(0), count));
    forall p, f
      ensures Get(out, p, f) ==
        if Member(s, p, v6) && f == v6 then Some(Max(Get(want, p, f).GetOr(0), count)) else Get(want, p, f)
    {
      GetPut(want, pg.value, v6, Max(Get(want, pg.value, v6).GetOr(0), count), p, f);
    }
  }

  /** `peergroup_limits`. */
  method PeergroupLimits(sessions: seq<Session>) returns (out: Table)
    ensures forall pg, v6 :: Get(out, pg, v6) == LimitFor(sessions, pg, v6)
  {
    hide Get;
    var want: Table := map[];
    forall pg, v6
      ensures Get(want, pg, v6) == None
    {
      NothingThere(pg, v6);
    }
    for i := 0 to |sessions|
      invariant forall pg, v6 :: Get(want, pg, v6) == Want(sessions[..i], pg, v6)
    {
      assert sessions[..i + 1][..i] == sessions[..i];
      want := WantOne(want, sessions[i], false);
      want := WantOne(want, sessions[i], true);
    }
    assert sessions[..|sessions|] == sessions;
    out := Headroom(want);
  }

  lemma NothingThere(pg: string, v6: bool)
    ensures Get(map[], pg, v6) == None
  {
  }

  /** The second loop: headroom for every entry of `want`. */
  method Headroom(want: Table) returns (out: Table)
    ensures forall pg, v6 ::
      Get(out, pg, v6) == if Get(want, pg, v6).Some? then Some(Max(1000, Get(want, pg, v6).value * 4)) else None
  {
    out := map[];
    var entries := set pg, v6 | pg in want && v6 in want[pg] :: (pg, v6);
    var done: set<(string, bool)> := {};
    while entries != {}
      invariant entries + done == set pg, v6 | pg in want && v6 in want[pg] :: (pg, v6)
      invariant forall pg, v6 ::
        Get(out, pg, v6) == if (pg, v6) in done then Some(Max(1000, want[pg][v6] * 4)) else None
      decreases |entries|
    {
      var e :| e in entries;
      var before := out;
      out := Put(out, e.0, e.1, Max(1000, want[e.0][e.1] * 4));
      forall pg, v6
        ensures Get(out, pg, v6) == if (pg, v6) in done + {e} then Some(Max(1000, want[pg][v6] * 4)) else None
      {
        GetPut(before, e.0, e.1, Max(1000, want[e.0][e.1] * 4), pg, v6);
      }
      entries, done := entries - {e}, done + {e};
    }
  }

  // ---- what a rendered configuration says ----

  /** The last matching line decides. */
  function In(lines: seq<Line>, pg: string, v6: bool): Option<int> {
    if lines == [] then None
    else
      var last := lines[|lines| - 1];
      if last.MaxPrefix? && last.pg == pg && last.v6 == v6 then Some(last.limit) else In(lines[..|lines| - 1], pg, v6)
  }

  lemma {:induction false} InAppend(a: seq<Line>, b: seq<Line>, pg: string, v6: bool)
    ensures In(a + b, pg, v6) == if In(b, pg, v6).Some? then In(b, pg, v6) else In(a, pg, v6)
  {
    if b == [] {
      assert a + b == a;
    } else {
      assert (a + b)[..|a + b| - 1] == a + b[..|b| - 1];
      InAppend(a, b[..|b| - 1], pg, v6);
    }
  }

  /** `peergroup_limits_in`. */
  method PeergroupLimitsIn(lines: seq<Line>) returns (cur: Table)
    ensures forall pg, v6 :: Get(cur, pg, v6) == In(lines, pg, v6)
  {
    cur := map[];
    for i := 0 to |lines|
      invariant forall pg, v6 :: Get(cur, pg, v6) == In(lines[..i], pg, v6)
    {
      assert lines[..i + 1][..i] == lines[..i];
      if lines[i].MaxPrefix? {
        var l, before := lines[i], cur;
        cur := Put(cur, l.pg, l.v6, l.limit);
        forall pg, v6
          ensures Get(cur, pg, v6) == In(lines[..i + 1], pg, v6)
        {
          GetPut(before, l.pg, l.v6, l.limit, pg, v6);
        }
      }
    }
    assert lines[..|lines|] == lines;
  }

  /** What the override emits: the computed limit where the base has none or a lower one. */
  function Emitted(sessions: seq<Session>, base: seq<Line>, pg: string, v6: bool): Option<int> {
    Raise(LimitFor(sessions, pg, v6), In(base, pg, v6))
  }

  /** The override says a limit exactly where a member announces and the base says none or a lower one. */
  lemma EmittedExactly(sessions: seq<Session>, base: seq<Line>, pg: string, v6: bool, n: int)
    ensures Emitted(sessions, base, pg, v6) == Some(n) <==>
      && Want(sessions, pg, v6).Some?
      && n == (if Want(sessions, pg, v6).value < 250 then 1000 else 4 * Want(sessions, pg, v6).value)
      && (In(base, pg, v6).Some? ==> In(base, pg, v6).value < n)
  {
    hide Want, In;
  }

  /** `render_peergroup_limits`; eight comment lines head the block when anything is raised. */
  method RenderPeergroupLimits(sessions: seq<Session>, base: seq<Line>) returns (out: seq<Line>)
    ensures forall pg, v6 :: In(out, pg, v6) == Emitted(sessions, base, pg, v6)
    ensures out == [] || |out| > 8
  {
    hide Get;
    var want := PeergroupLimits(sessions);
    var have := PeergroupLimitsIn(base);
    var raised: seq<Line> := [];
    var groups := want.Keys;
    ghost var done: set<string> := {};
    while groups != {}
      invariant groups + done == want.Keys && groups !! done
      invariant forall pg, v6 :: In(raised, pg, v6) == if pg in done then Emitted(sessions, base, pg, v6) else None
      decreases |groups|
    {
      var pg :| pg in groups;
      var before := raised;
      var own := RaiseGroup(want, have, pg);
      raised := raised + own;
      forall p, v6
        ensures In(raised, p, v6) == if p in done + {pg} then Emitted(sessions, base, p, v6) else None
      {
        InAppend(before, own, p, v6);
      }
      groups, done := groups - {pg}, done + {pg};
    }
    forall pg, v6
      ensures In(raised, pg, v6) == Emitted(sessions, base, pg, v6)
    {
      if pg !in done { AbsentGroup(want, pg, v6); }
    }
    if raised == [] { return []; }
    var head := seq(8, _ => OtherLine);
    out := head + raised;
    forall pg, v6
      ensures In(out, pg, v6) == Emitted(sessions, base, pg, v6)
    {
      InAppend(head, raised, pg, v6);
      NoLimits(head, pg, v6);
    }
  }

  lemma AbsentGroup(t: Table, pg: string, v6: bool)
    requires pg !in t
    ensures Get(t, pg, v6) == None
  {
  }

  lemma {:induction false} NoLimits(lines: seq<Line>, pg: string, v6: bool)
    requires forall i | 0 <= i < |lines| :: lines[i].OtherLine?
    ensures In(lines, pg, v6) == None
  {
    if lines != [] {
      NoLimits(lines[..|lines| - 1], pg, v6);
    }
  }

  /** `n` computed where the configuration has `cur`: emitted when there is none or it is lower. */
  function Raise(want: Option<int>, have: Option<int>): Option<int> {
    if want.Some? && (have.None? || want.value > have.value) then want else None
  }

  /** The inner loop over the two families of one group. */
  method RaiseGroup(want: Table, have: Table, pg: string) returns (own: seq<Line>)
    ensures forall p, v6 :: In(own, p, v6) == if p == pg then Raise(Get(want, p, v6), Get(have, p, v6)) else None
  {
    hide Get, In;
    var four, six := Raise(Get(want, pg, false), Get(have, pg, false)), Raise(Get(want, pg, true), Get(have, pg, true));
    var first := if four.Some? then [MaxPrefix(pg, false, four.value)] else [];
    var second := if six.Some? then [MaxPrefix(pg, true, six.value)] else [];
    own := first + second;
    forall p, v6
      ensures In(own, p, v6) == if p == pg then Raise(Get(want, p, v6), Get(have, p, v6)) else None
    {
      InAppend(first, second, p, v6);
      InAtMostOne(first, p, v6);
      InAtMostOne(second, p, v6);
    }
  }

  lemma InAtMostOne(lines: seq<Line>, pg: string, v6: bool)
    requires |lines| <= 1
    ensures In(lines, pg, v6) ==
      if lines != [] && lines[0].MaxPrefix? && lines[0].pg == pg && lines[0].v6 == v6
      then Some(lines[0].limit) else None
  {
  }

  // ---- only ever raises ----

  /**
    In the whole generated configuration the limit of every wanted peer-group and family is the larger of the
    base limit and the computed one; everything else is as the base has it.
   */
  lemma LimitsOnlyRise(sessions: seq<Session>, base: seq<Line>, out: seq<Line>, pg: string, v6: bool)
    requires forall p, f :: In(out, p, f) == Emitted(sessions, base, p, f)
    ensures var want, have := LimitFor(sessions, pg, v6), In(base, pg, v6);
            In(base + out, pg, v6) ==
              if want.None? then have
              else Some(if have.Some? then Max(have.value, want.value) else want.value)
  {
    InAppend(base, out, pg, v6);
  }

  /** And that limit covers every member four times over, and is at least 1000. */
  lemma LimitsCoverMembers(sessions: seq<Session>, base: seq<Line>, out: seq<Line>, s: Session, pg: string, v6: bool)
    requires forall p, f :: In(out, p, f) == Emitted(sessions, base, p, f)
    requires s in sessions && Member(s, pg, v6)
    ensures var limit := In(base + out, pg, v6);
            limit.Some? && limit.value >= 4 * s.Prefixes(v6) && limit.value >= 1000
  {
    LimitsOnlyRise(sessions, base, out, pg, v6);
    WantIsLargest(sessions, pg, v6);
  }

  // ---- what the squeeze puts back ----

  const SQUEEZED: string := "ixp1-peer4"

  /**
    The squeeze fragment restores the computed limit. On a router running the generated configuration that
    undoes the squeeze exactly when the base limit did not exceed the computed one; with a higher base limit
    the revert lowers it, although the comment means to restore the generated limit.
   */
  lemma SqueezeRevertHoldsExactly(sessions: seq<Session>, base: seq<Line>, out: seq<Line>, c: ChurnFragments.Tree,
                                  x: ChurnFragments.Inputs)
    requires forall p, f :: In(out, p, f) == Emitted(sessions, base, p, f)
    requires LimitFor(sessions, SQUEEZED, false).Some? && x.restore == LimitFor(sessions, SQUEEZED, false)
      && x.announced > 0
    requires ChurnFragments.At(c, ChurnFragments.PG_IPV4 + [ChurnFragments.Word("maximum-prefix")])
          == Some(ChurnFragments.Num(In(base + out, SQUEEZED, false).GetOr(0)))
    ensures ChurnFragments.FragmentOf(x, ChurnFragments.MaxprefixSqueeze).Some?
    ensures ChurnFragments.Holds(c, ChurnFragments.FragmentOf(x, ChurnFragments.MaxprefixSqueeze).value.revert) <==>
      In(base, SQUEEZED, false).None? || In(base, SQUEEZED, false).value <= LimitFor(sessions, SQUEEZED, false).value
  {
    LimitsOnlyRise(sessions, base, out, SQUEEZED, false);
    var revert := ChurnFragments.FragmentOf(x, ChurnFragments.MaxprefixSqueeze).value.revert;
    assert revert[0] in revert;
  }

  /** So it is with one member announcing 5000 and a base limit of 400000: the revert leaves 20000. */
  lemma HigherBaseLowered()
      returns (sessions: seq<Session>, base: seq<Line>, c: ChurnFragments.Tree, x: ChurnFragments.Inputs)
    ensures forall p, f :: Emitted(sessions, base, p, f) == None
    ensures In(base, SQUEEZED, false) == Some(400000) && LimitFor(sessions, SQUEEZED, false) == Some(20000) == x.restore
    ensures x.announced == 5000 && ChurnFragments.FragmentOf(x, ChurnFragments.MaxprefixSqueeze).Some?
    ensures ChurnFragments.At(c, ChurnFragments.PG_IPV4 + [ChurnFragments.Word("maximum-prefix")]) ==
      Some(ChurnFragments.Num(400000))
    ensures !ChurnFragments.Holds(c, ChurnFragments.FragmentOf(x, ChurnFragments.MaxprefixSqueeze).value.revert)
  {
    sessions := [Lone(1, None, None, 5000, 0, 1, 0).(pg4 := Some(SQUEEZED))];
    base := [MaxPrefix(SQUEEZED, false, 400000)];
    c := map[ChurnFragments.PG_IPV4 + [ChurnFragments.Word("maximum-prefix")] := ChurnFragments.Num(400000)];
    x := ChurnFragments.Inputs(65000, "192.0.2.0/24", 1001, 5000, Some(20000));
    assert sessions[..0] == [] && base[..0] == [];
    forall p, f
      ensures Want(sessions, p, f) == if p == SQUEEZED && !f then Some(5000) else None
      ensures Emitted(sessions, base, p, f) == None
    {
      InAtMostOne(base, p, f);
    }
    var out: seq<Line> := [];
    assert base + out == base;
    assert forall p, f :: In(out, p, f) == Emitted(sessions, base, p, f);
    SqueezeRevertHoldsExactly(sessions, base, out, c, x);
  }
}
