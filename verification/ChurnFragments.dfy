/**
  harness/dutconfig.py, `render_churn_fragments`: configuration deltas with their reverts, over a tree in which
  `set` overwrites one leaf and `delete` removes a subtree.
 */
module ChurnFragments {
  import opened Wrappers

  datatype Node = Word(s: string) | Number(n: int)
  type Path = seq<Node>
  datatype Value = Text(s: string) | Num(n: int) | Network(a: int, b: int) | LargeCommunity(asn: int, x: int, y: int)
  datatype Cmd = Set(path: Path, value: Value) | Delete(path: Path) | Comment
  type Tree = map<Path, Value>

  // ---- what commands do ----

  predicate Under(path: Path, top: Path) {
    |top| <= |path| && path[..|top|] == top
  }

  function Do(c: Tree, cmd: Cmd): Tree {
    match cmd
    case Set(p, v) => c[p := v]
    case Delete(top) => map p | p in c && !Under(p, top) :: c[p]
    case Comment => c
  }

  function Exec(c: Tree, cmds: seq<Cmd>): Tree {
    if cmds == [] then c else Do(Exec(c, cmds[..|cmds| - 1]), cmds[|cmds| - 1])
  }

  function At(c: Tree, p: Path): Option<Value> {
    if p in c then Some(c[p]) else None
  }

  predicate Touches(cmd: Cmd, p: Path) {
    match cmd
    case Set(q, _) => q == p
    case Delete(top) => Under(p, top)
    case Comment => false
  }

  /** What a command that touches the leaf leaves there. */
  function Leaves(cmd: Cmd): Option<Value> {
    if cmd.Set? then Some(cmd.value) else None
  }

  /** The last command that touches a leaf decides it; untouched leaves stay. */
  lemma {:induction false} ExecAt(c: Tree, cmds: seq<Cmd>, p: Path)
    ensures (forall cmd <- cmds :: !Touches(cmd, p)) ==> At(Exec(c, cmds), p) == At(c, p)
    ensures (exists cmd <- cmds :: Touches(cmd, p)) ==>
      exists cmd <- cmds :: Touches(cmd, p) && At(Exec(c, cmds), p) == Leaves(cmd)
  {
    if cmds != [] {
      var init, last := cmds[..|cmds| - 1], cmds[|cmds| - 1];
      assert cmds == init + [last] && last in cmds;
      ExecAt(c, init, p);
      if !Touches(last, p) {
        assert At(Exec(c, cmds), p) == At(Exec(c, init), p);
        if cmd :| cmd in cmds && Touches(cmd, p) {
          assert cmd in init;
        }
      }
    }
  }

  // ---- when a revert undoes an apply ----

  /** Every leaf the apply sets is decided by the revert; the apply deletes nothing. */
  ghost predicate Covered(apply: seq<Cmd>, revert: seq<Cmd>) {
    forall cmd <- apply :: !cmd.Delete? && (cmd.Set? ==> exists r <- revert :: Touches(r, cmd.path))
  }

  /** Commands of the revert that touch the same leaf leave the same thing there. */
  ghost predicate Consistent(revert: seq<Cmd>) {
    forall a <- revert, b <- revert, p: Path {:trigger Touches(a, p), Touches(b, p)} ::
      Touches(a, p) && Touches(b, p) ==> Leaves(a) == Leaves(b)
  }

  /** The configuration already holds the revert's values, and nothing under its deletes. */
  ghost predicate Holds(c: Tree, revert: seq<Cmd>) {
    forall r <- revert ::
      && (r.Set? ==> At(c, r.path) == Some(r.value))
      && (r.Delete? ==> forall p <- c :: !Under(p, r.path))
  }

  lemma HoldsAt(c: Tree, revert: seq<Cmd>, r: Cmd, p: Path)
    requires Holds(c, revert) && r in revert && Touches(r, p)
    ensures At(c, p) == Leaves(r)
  {
  }

  lemma Extensional(a: Tree, b: Tree)
    requires forall p :: At(a, p) == At(b, p)
    ensures a == b
  {
    forall p
      ensures p in a <==> p in b
      ensures p in a ==> a[p] == b[p]
    {
      assert At(a, p) == At(b, p);
    }
  }

  /** Whatever came before, running a consistent revert leaves a configuration that holds it. */
  lemma RevertedHolds(c: Tree, revert: seq<Cmd>)
    requires Consistent(revert)
    ensures Holds(Exec(c, revert), revert)
  {
    var e := Exec(c, revert);
    forall r <- revert
      ensures r.Set? ==> At(e, r.path) == Some(r.value)
      ensures r.Delete? ==> forall p <- e :: !Under(p, r.path)
    {
      if r.Set? {
        ExecAt(c, revert, r.path);
        assert Touches(r, r.path);
      }
      if r.Delete? {
        forall p <- e
          ensures !Under(p, r.path)
        {
          ExecAt(c, revert, p);
          assert Touches(r, p) ==> At(e, p) == Leaves(r);
        }
      }
    }
  }

  /**
    Reverting after any first part of the apply, down to nothing and up to all of it, gives the starting
    configuration back if and only if that configuration already held what the revert leaves.
   */
  lemma RevertRestoresExactly(c: Tree, apply: seq<Cmd>, revert: seq<Cmd>)
    requires Covered(apply, revert) && Consistent(revert)
    ensures (forall k | 0 <= k <= |apply| :: Exec(Exec(c, apply[..k]), revert) == c) <==> Holds(c, revert)
  {
    if Holds(c, revert) {
      forall k | 0 <= k <= |apply|
        ensures Exec(Exec(c, apply[..k]), revert) == c
      {
        RevertRestores(c, apply, revert, k);
      }
    }
    if forall k | 0 <= k <= |apply| :: Exec(Exec(c, apply[..k]), revert) == c {
      assert Exec(Exec(c, apply[..0]), revert) == c;
      RevertedHolds(Exec(c, apply[..0]), revert);
    }
  }

  lemma RevertRestores(c: Tree, apply: seq<Cmd>, revert: seq<Cmd>, k: nat)
    requires Covered(apply, revert) && Holds(c, revert) && k <= |apply|
    ensures Exec(Exec(c, apply[..k]), revert) == c
  {
    var some := apply[..k];
    var mid := Exec(c, some);
    forall p
      ensures At(Exec(mid, revert), p) == At(c, p)
    {
      ExecAt(mid, revert, p);
      if r :| r in revert && Touches(r, p) {
        var s :| s in revert && Touches(s, p) && At(Exec(mid, revert), p) == Leaves(s);
        HoldsAt(c, revert, s, p);
      } else {
        forall cmd <- some
          ensures !Touches(cmd, p)
        {
          assert cmd in apply;
        }
        ExecAt(c, some, p);
      }
    }
    Extensional(Exec(mid, revert), c);
  }

  // ---- the fragments ----

  datatype Name =
    | PrefixlistGrow | LocalprefFlip | ExportTighten | AspathFilter | CommunityRetag | PgRoutemapSwap | MaxprefixSqueeze

  /** What the fragments take from the inventory; `squeeze` is None where nothing is announced to squeeze. */
  datatype Inputs = Inputs(asn: int, own4: string, lcIxp1: int, announced: nat, restore: Option<int>)

  datatype Fragment = Fragment(apply: seq<Cmd>, revert: seq<Cmd>)

  const POLICY: Path := [Word("policy")]

  function GrowRule(i: nat): Path {
    POLICY + [Word("prefix-list"), Word("ipv4-bogons"), Word("rule"), Number(900 + i)]
  }

  function GrowStep(i: nat): seq<Cmd> {
    [Set(GrowRule(i) + [Word("action")], Text("permit")),
     Set(GrowRule(i) + [Word("le")], Num(32)),
     Set(GrowRule(i) + [Word("prefix")], Network(100 + i / 8, (i % 8) * 32))]
  }

  function GrowApply(n: nat): seq<Cmd> {
    if n == 0 then [] else GrowApply(n - 1) + GrowStep(n - 1)
  }

  function GrowRevert(n: nat): seq<Cmd> {
    if n == 0 then [] else GrowRevert(n - 1) + [Delete(GrowRule(n - 1))]
  }

  function RouteMap(name: string, rule: int): Path {
    POLICY + [Word("route-map"), Word(name), Word("rule"), Number(rule)]
  }

  function LocalPref(value: int): seq<Cmd> {
    [Set(RouteMap("ebgp4-import-ixp1", 20) + [Word("set"), Word("local-preference")], Num(value)),
     Set(RouteMap("ebgp6-import-ixp1", 110) + [Word("set"), Word("local-preference")], Num(value))]
  }

  function Retag(asn: int, y: int): seq<Cmd> {
    [Set(RouteMap("ebgp4-import-ixp1", 10) + [Word("set"), Word("large-community"), Word("replace")],
      LargeCommunity(asn, 1, y))]
  }

  const OWN_RULE: Path := POLICY + [Word("prefix-list"), Word("own-supernet4"), Word("rule"), Number(20)]
  const LAB_CHURN: Path := POLICY + [Word("as-path-list"), Word("lab-churn")]
  const PG_IPV4: Path :=
    [Word("protocols"), Word("bgp"), Word("peer-group"), Word("ixp1-peer4"), Word("address-family"),
      Word("ipv4-unicast")]

  function AspathApply(): seq<Cmd> {
    [Set(LAB_CHURN + [Word("description")], Text("chaos: transient as-path filter")),
     Set(LAB_CHURN + [Word("rule"), Number(10), Word("action")], Text("permit")),
     Set(LAB_CHURN + [Word("rule"), Number(10), Word("regex")], Text("_3356_")),
     Set(RouteMap("ebgp4-import", 15) + [Word("action")], Text("deny")),
     Set(RouteMap("ebgp4-import", 15) + [Word("description")], Text("chaos: transient")),
     Set(RouteMap("ebgp4-import", 15) + [Word("match"), Word("as-path")], Text("lab-churn"))]
  }

  /** The squeeze exists only where something is announced and a limit is known to restore. */
  function Squeezed(x: Inputs): Option<int> {
    if x.announced != 0 && x.restore.Some? && x.restore.value != 0
    then Some(if x.announced / 2 > 1 then x.announced / 2 else 1) else None
  }

  function FragmentOf(x: Inputs, name: Name): Option<Fragment> {
    match name
    case PrefixlistGrow => Some(Fragment(GrowApply(64), GrowRevert(64)))
    case LocalprefFlip => Some(Fragment(LocalPref(325), LocalPref(275)))
    case ExportTighten =>
      Some(Fragment([Set(OWN_RULE + [Word("action")], Text("deny")), Set(OWN_RULE + [Word("prefix")], Text(x.own4))],
                    [Delete(OWN_RULE)]))
    case AspathFilter => Some(Fragment(AspathApply(), [Delete(RouteMap("ebgp4-import", 15)), Delete(LAB_CHURN)]))
    case CommunityRetag => Some(Fragment(Retag(x.asn, 9001), Retag(x.asn, x.lcIxp1)))
    case PgRoutemapSwap =>
      Some(Fragment([Set(PG_IPV4 + [Word("route-map"), Word("import")], Text("allow-all"))],
                    [Set(PG_IPV4 + [Word("route-map"), Word("import")], Text("ebgp4-import"))]))
    case MaxprefixSqueeze =>
      var to :- Squeezed(x);
      Some(Fragment([Comment, Set(PG_IPV4 + [Word("maximum-prefix")], Num(to))],
                    [Set(PG_IPV4 + [Word("maximum-prefix")], Num(x.restore.value))]))
  }

  /** The loop of `render_churn_fragments`, for `n` rules. */
  method GrowLoop(n: nat) returns (add: seq<Cmd>, rem: seq<Cmd>)
    ensures add == GrowApply(n) && rem == GrowRevert(n)
  {
    hide GrowRule;
    add, rem := [], [];
    for i := 0 to n
      invariant add == GrowApply(i) && rem == GrowRevert(i)
    {
      add := add + [Set(GrowRule(i) + [Word("action")], Text("permit"))];
      add := add + [Set(GrowRule(i) + [Word("le")], Num(32))];
      add := add + [Set(GrowRule(i) + [Word("prefix")], Network(100 + i / 8, (i % 8) * 32))];
      assert add == GrowApply(i) + GrowStep(i);
      rem := rem + [Delete(GrowRule(i))];
    }
  }

  /** `render_churn_fragments`: the 64-rule fragment is built by a loop, the rest are literal. */
  method RenderChurnFragments(x: Inputs) returns (frags: map<Name, Fragment>)
    ensures forall name :: name in frags <==> FragmentOf(x, name).Some?
    ensures forall name <- frags :: frags[name] == FragmentOf(x, name).value
  {
    hide GrowApply, GrowRevert, LocalPref, Retag, AspathApply;
    var add, rem := GrowLoop(64);
    frags := map[PrefixlistGrow := Fragment(add, rem)];
    frags := frags[LocalprefFlip := FragmentOf(x, LocalprefFlip).value];
    frags := frags[ExportTighten := FragmentOf(x, ExportTighten).value];
    frags := frags[AspathFilter := FragmentOf(x, AspathFilter).value];
    frags := frags[CommunityRetag := FragmentOf(x, CommunityRetag).value];
    frags := frags[PgRoutemapSwap := FragmentOf(x, PgRoutemapSwap).value];
    if x.announced != 0 && x.restore.Some? && x.restore.value != 0 {
      frags := frags[MaxprefixSqueeze := FragmentOf(x, MaxprefixSqueeze).value];
    }
  }

  // ---- every fragment reverts ----

  lemma OnlySets(revert: seq<Cmd>)
    requires forall r <- revert :: r.Set?
    requires forall a <- revert, b <- revert :: a.path == b.path ==> a.value == b.value
    ensures Consistent(revert)
  {
  }

  lemma OnlyDeletes(revert: seq<Cmd>)
    requires forall r <- revert :: r.Delete?
    ensures Consistent(revert)
  {
  }

  lemma GrowStepUnder(i: nat)
    ensures forall cmd <- GrowStep(i) :: cmd.Set? && Under(cmd.path, GrowRule(i))
  {
    hide GrowRule;
  }

  lemma {:induction false} GrowRevertDeletes(n: nat)
    ensures forall r <- GrowRevert(n) :: r.Delete?
  {
    if n > 0 {
      hide GrowRule;
      GrowRevertDeletes(n - 1);
    }
  }

  /** Each rule the apply adds lies under a rule the revert deletes. */
  lemma {:induction false} GrowCommands(n: nat, cmd: Cmd)
    ensures cmd in GrowApply(n) ==> cmd.Set? && exists r <- GrowRevert(n) :: Touches(r, cmd.path)
  {
    if n > 0 {
      hide GrowStep, GrowRule, Under;
      GrowCommands(n - 1, cmd);
      GrowStepUnder(n - 1);
      var d := Delete(GrowRule(n - 1));
      assert d in [d];
      if cmd in GrowStep(n - 1) { assert Touches(d, cmd.path); }
    }
  }

  lemma GrowReverts()
    ensures Covered(GrowApply(64), GrowRevert(64)) && Consistent(GrowRevert(64))
  {
    hide GrowApply, GrowRevert, Touches;
    GrowRevertDeletes(64);
    OnlyDeletes(GrowRevert(64));
    forall cmd <- GrowApply(64)
      ensures cmd.Set? && exists r <- GrowRevert(64) :: Touches(r, cmd.path)
    {
      GrowCommands(64, cmd);
    }
  }

  lemma AspathReverts()
    ensures var revert := [Delete(RouteMap("ebgp4-import", 15)), Delete(LAB_CHURN)];
            Covered(AspathApply(), revert) && Consistent(revert)
  {
    var rm, lab := RouteMap("ebgp4-import", 15), LAB_CHURN;
    var revert := [Delete(rm), Delete(lab)];
    OnlyDeletes(revert);
    forall cmd <- AspathApply()
      ensures cmd.Set? && exists r <- revert :: Touches(r, cmd.path)
    {
      assert cmd.Set? && (Under(cmd.path, rm) || Under(cmd.path, lab));
      assert revert[0] in revert && revert[1] in revert;
      assert Touches(revert[0], cmd.path) || Touches(revert[1], cmd.path);
    }
  }

  lemma OneSetReverts(before: seq<Cmd>, p: Path, v: Value, w: Value)
    requires forall cmd <- before :: cmd.Comment?
    ensures Covered(before + [Set(p, v)], [Set(p, w)]) && Consistent([Set(p, w)])
  {
    assert Touches(Set(p, w), p) && Set(p, w) in [Set(p, w)];
  }

  lemma LocalPrefReverts(v: int, w: int)
    ensures Covered(LocalPref(v), LocalPref(w)) && Consistent(LocalPref(w))
  {
    OnlySets(LocalPref(w));
    forall cmd <- LocalPref(v)
      ensures exists r <- LocalPref(w) :: Touches(r, cmd.path)
    {
      var r := Set(cmd.path, Num(w));
      assert r in LocalPref(w) by { assert LocalPref(w)[0] in LocalPref(w) && LocalPref(w)[1] in LocalPref(w); }
    }
  }

  lemma OwnRuleReverts(own4: string)
    ensures var apply := [Set(OWN_RULE + [Word("action")], Text("deny")), Set(OWN_RULE + [Word("prefix")], Text(own4))];
            Covered(apply, [Delete(OWN_RULE)]) && Consistent([Delete(OWN_RULE)])
  {
    var revert := [Delete(OWN_RULE)];
    OnlyDeletes(revert);
    assert revert[0] in revert;
    assert Touches(revert[0], OWN_RULE + [Word("action")]) && Touches(revert[0], OWN_RULE + [Word("prefix")]);
  }

  /** Each fragment, whatever the inventory, is undone by its revert from any point of its apply. */
  lemma FragmentReverts(x: Inputs, name: Name, c: Tree)
    requires FragmentOf(x, name).Some?
    ensures var f := FragmentOf(x, name).value;
            && Covered(f.apply, f.revert) && Consistent(f.revert)
            && ((forall k | 0 <= k <= |f.apply| :: Exec(Exec(c, f.apply[..k]), f.revert) == c) <==> Holds(c, f.revert))
  {
    FragmentCovered(x, name);
    hide Covered, Consistent, Exec, Holds, FragmentOf;
    var f := FragmentOf(x, name).value;
    RevertRestoresExactly(c, f.apply, f.revert);
  }

  lemma FragmentCovered(x: Inputs, name: Name)
    requires FragmentOf(x, name).Some?
    ensures var f := FragmentOf(x, name).value; Covered(f.apply, f.revert) && Consistent(f.revert)
  {
    hide Covered, Consistent, GrowApply, GrowRevert, LocalPref, RouteMap, AspathApply;
    match name {
      case PrefixlistGrow => GrowReverts();
      case LocalprefFlip => LocalPrefReverts(325, 275);
      case ExportTighten => OwnRuleReverts(x.own4);
      case AspathFilter => AspathReverts();
      case CommunityRetag => SwapReverts(RouteMap("ebgp4-import-ixp1", 10)
        + [Word("set"), Word("large-community"), Word("replace")],
                                         LargeCommunity(x.asn, 1, 9001), LargeCommunity(x.asn, 1, x.lcIxp1));
      case PgRoutemapSwap => SwapReverts(PG_IPV4 + [Word("route-map"), Word("import")], Text("allow-all"),
        Text("ebgp4-import"));
      case MaxprefixSqueeze =>
        var p := PG_IPV4 + [Word("maximum-prefix")];
        OneSetReverts([Comment], p, Num(Squeezed(x).value), Num(x.restore.value));
        assert [Comment] + [Set(p, Num(Squeezed(x).value))] == [Comment, Set(p, Num(Squeezed(x).value))];
    }
  }

  lemma SwapReverts(p: Path, v: Value, w: Value)
    ensures Covered([Set(p, v)], [Set(p, w)]) && Consistent([Set(p, w)])
  {
    OneSetReverts([], p, v, w);
    assert [] + [Set(p, v)] == [Set(p, v)];
  }
}
