/** What each churn fragment does to a configuration, leaf by leaf, and when that is a change at all. */
module ChurnEffects {
  import opened Wrappers
  import opened ChurnFragments

  // ---- the leaves, in full ----

  function Rule(kind: string, name: string, n: int): Path {
    [Word("policy"), Word(kind), Word(name), Word("rule"), Number(n)]
  }

  function PeerGroupLeaf(rest: Path): Path {
    [Word("protocols"), Word("bgp"), Word("peer-group"), Word("ixp1-peer4"), Word("address-family"),
      Word("ipv4-unicast")] + rest
  }

  /** The rule numbered 900 + i of the bogon list permits 100 + i/8 . 32 * (i mod 8) up to length 32. */
  predicate GrownLeaf(i: nat, p: Path, v: Value) {
    var rule := BogonRule(i);
    || (p == rule + [Word("action")] && v == Text("permit"))
    || (p == rule + [Word("le")] && v == Num(32))
    || (p == rule + [Word("prefix")] && v == Network(100 + i / 8, (i % 8) * 32))
  }

  function BogonRule(i: nat): Path {
    [Word("policy"), Word("prefix-list"), Word("ipv4-bogons"), Word("rule"), Number(900 + i)]
  }

  /** Applying the fragment leaves value `v` at leaf `p`. */
  ghost predicate Applied(x: Inputs, name: Name, p: Path, v: Value) {
    match name
    case PrefixlistGrow => exists i: nat | i < 64 :: GrownLeaf(i, p, v)
    case LocalprefFlip =>
      && v == Num(325)
      && (|| p == Rule("route-map", "ebgp4-import-ixp1", 20) + [Word("set"), Word("local-preference")]
          || p == Rule("route-map", "ebgp6-import-ixp1", 110) + [Word("set"), Word("local-preference")])
    case ExportTighten =>
      || (p == Rule("prefix-list", "own-supernet4", 20) + [Word("action")] && v == Text("deny"))
      || (p == Rule("prefix-list", "own-supernet4", 20) + [Word("prefix")] && v == Text(x.own4))
    case AspathFilter =>
      || (p == [Word("policy"), Word("as-path-list"), Word("lab-churn"), Word("description")]
          && v == Text("chaos: transient as-path filter"))
      || (p == Rule("as-path-list", "lab-churn", 10) + [Word("action")] && v == Text("permit"))
      || (p == Rule("as-path-list", "lab-churn", 10) + [Word("regex")] && v == Text("_3356_"))
      || (p == Rule("route-map", "ebgp4-import", 15) + [Word("action")] && v == Text("deny"))
      || (p == Rule("route-map", "ebgp4-import", 15) + [Word("description")] && v == Text("chaos: transient"))
      || (p == Rule("route-map", "ebgp4-import", 15) + [Word("match"), Word("as-path")] && v == Text("lab-churn"))
    case CommunityRetag =>
      && p == Rule("route-map", "ebgp4-import-ixp1", 10) + [Word("set"), Word("large-community"), Word("replace")]
      && v == LargeCommunity(x.asn, 1, 9001)
    case PgRoutemapSwap => p == PeerGroupLeaf([Word("route-map"), Word("import")]) && v == Text("allow-all")
    case MaxprefixSqueeze =>
      p == PeerGroupLeaf([Word("maximum-prefix")]) && v == Num(if x.announced < 4 then 1 else x.announced / 2)
  }

  /** Reverting it leaves value `v` at leaf `p`. */
  ghost predicate Restored(x: Inputs, name: Name, p: Path, v: Value) {
    match name
    case LocalprefFlip =>
      && v == Num(275)
      && (|| p == Rule("route-map", "ebgp4-import-ixp1", 20) + [Word("set"), Word("local-preference")]
          || p == Rule("route-map", "ebgp6-import-ixp1", 110) + [Word("set"), Word("local-preference")])
    case CommunityRetag =>
      && p == Rule("route-map", "ebgp4-import-ixp1", 10) + [Word("set"), Word("large-community"), Word("replace")]
      && v == LargeCommunity(x.asn, 1, x.lcIxp1)
    case PgRoutemapSwap => p == PeerGroupLeaf([Word("route-map"), Word("import")]) && v == Text("ebgp4-import")
    case MaxprefixSqueeze =>
      x.restore.Some? && p == PeerGroupLeaf([Word("maximum-prefix")]) && v == Num(x.restore.value)
    case _ => false
  }

  /** Reverting it removes everything under `top`. */
  ghost predicate Removed(name: Name, top: Path) {
    match name
    case PrefixlistGrow => exists i: nat | i < 64 :: top == BogonRule(i)
    case ExportTighten => top == Rule("prefix-list", "own-supernet4", 20)
    case AspathFilter =>
      top == Rule("route-map", "ebgp4-import", 15) || top == [Word("policy"), Word("as-path-list"), Word("lab-churn")]
    case _ => false
  }

  // ---- the fragments consist of these ----

  lemma RouteMapIs(name: string, rule: int)
    ensures RouteMap(name, rule) == Rule("route-map", name, rule)
  {
  }

  lemma PathsAre()
    ensures OWN_RULE == Rule("prefix-list", "own-supernet4", 20)
    ensures LAB_CHURN == [Word("policy"), Word("as-path-list"), Word("lab-churn")]
    ensures LAB_CHURN + [Word("description")]
         == [Word("policy"), Word("as-path-list"), Word("lab-churn"), Word("description")]
    ensures LAB_CHURN + [Word("rule"), Number(10), Word("action")]
         == Rule("as-path-list", "lab-churn", 10) + [Word("action")]
    ensures LAB_CHURN + [Word("rule"), Number(10), Word("regex")]
         == Rule("as-path-list", "lab-churn", 10) + [Word("regex")]
  {
  }

  lemma {:induction false} GrowSets(n: nat, p: Path, v: Value)
    ensures Set(p, v) in GrowApply(n) <==> exists i: nat | i < n :: GrownLeaf(i, p, v)
  {
    if n > 0 {
      hide GrownLeaf, GrowStep;
      GrowSets(n - 1, p, v);
      GrowStepIs(n - 1, p, v);
    }
  }

  lemma GrowStepIs(i: nat, p: Path, v: Value)
    ensures Set(p, v) in GrowStep(i) <==> GrownLeaf(i, p, v)
  {
    assert GrowRule(i) == BogonRule(i);
    hide GrowRule, BogonRule;
  }

  lemma {:induction false} GrowDeletes(n: nat, top: Path)
    ensures Delete(top) in GrowRevert(n) <==> exists i: nat | i < n :: top == BogonRule(i)
    ensures forall cmd <- GrowRevert(n) :: cmd.Delete?
  {
    if n > 0 {
      GrowDeletes(n - 1, top);
      assert GrowRule(n - 1) == BogonRule(n - 1);
      hide GrowRule, BogonRule;
    }
  }

  /** A fragment's commands are exactly these. */
  lemma FragmentIs(x: Inputs, name: Name, p: Path, v: Value)
    requires FragmentOf(x, name).Some?
    ensures var f := FragmentOf(x, name).value;
            && (Set(p, v) in f.apply <==> Applied(x, name, p, v))
            && (Set(p, v) in f.revert <==> Restored(x, name, p, v))
            && (Delete(p) in f.revert <==> Removed(name, p))
            && forall cmd <- f.apply :: !cmd.Delete?
  {
    hide GrowApply, GrowRevert, RouteMap, Rule;
    PathsAre();
    RouteMapIs("ebgp4-import-ixp1", 20);
    RouteMapIs("ebgp6-import-ixp1", 110);
    RouteMapIs("ebgp4-import-ixp1", 10);
    RouteMapIs("ebgp4-import", 15);
    if name == PrefixlistGrow {
      GrowSets(64, p, v);
      GrowDeletes(64, p);
      forall cmd <- GrowApply(64)
        ensures !cmd.Delete?
      {
        GrowCommands(64, cmd);
      }
    }
  }

  // ---- what they leave ----

  lemma AppliedOnce(x: Inputs, name: Name, p: Path, v: Value, w: Value)
    requires Applied(x, name, p, v) && Applied(x, name, p, w)
    ensures v == w
  {
    match name
    case PrefixlistGrow => GrownOnce(x, p, v, w);
    case AspathFilter => FilteredOnce(x, p, v, w);
    case ExportTighten => LastWord(Rule("prefix-list", "own-supernet4", 20), p);
    case _ =>
  }

  lemma GrownOnce(x: Inputs, p: Path, v: Value, w: Value)
    requires Applied(x, PrefixlistGrow, p, v) && Applied(x, PrefixlistGrow, p, w)
    ensures v == w
  {
    var i: nat :| i < 64 && GrownLeaf(i, p, v);
    var j: nat :| j < 64 && GrownLeaf(j, p, w);
    assert p[4] == Number(900 + i) == Number(900 + j);
    LastWord(BogonRule(i), p);
  }

  lemma FilteredOnce(x: Inputs, p: Path, v: Value, w: Value)
    requires Applied(x, AspathFilter, p, v) && Applied(x, AspathFilter, p, w)
    ensures v == w
  {
    var list, map_ := Rule("as-path-list", "lab-churn", 10), Rule("route-map", "ebgp4-import", 15);
    assert "as-path-list" != "route-map";
    assert p[1] == Word("as-path-list") || p[1] == Word("route-map");
    LastWord(list, p);
    LastWord(map_, p);
  }

  /** The leaves of one rule differ in their last word. */
  lemma LastWord(rule: Path, p: Path)
    ensures forall a, b | p == rule + [a] && p == rule + [b] :: a == b
    ensures "action" != "prefix" && "action" != "le" && "le" != "prefix" && "action" != "regex"
  {
    forall a, b | p == rule + [a] && p == rule + [b]
      ensures a == b
    {
      assert p[|rule|] == a && p[|rule|] == b;
    }
    assert "action"[0] != "prefix"[0];
  }

  /** After the apply each of its leaves has its value, and every other leaf is as it was. */
  lemma ApplyLeaves(x: Inputs, name: Name, c: Tree, p: Path)
    requires FragmentOf(x, name).Some?
    ensures var e := Exec(c, FragmentOf(x, name).value.apply);
            && (forall v | Applied(x, name, p, v) :: At(e, p) == Some(v))
            && ((forall v :: !Applied(x, name, p, v)) ==> At(e, p) == At(c, p))
  {
    hide FragmentOf, Applied, Exec;
    var cmds := FragmentOf(x, name).value.apply;
    ExecAt(c, cmds, p);
    FragmentIs(x, name, p, Num(0));
    forall v
      ensures Set(p, v) in cmds <==> Applied(x, name, p, v)
    {
      FragmentIs(x, name, p, v);
    }
    assert forall cmd <- cmds | Touches(cmd, p) :: !cmd.Delete? && cmd == Set(p, cmd.value);
    forall v | Applied(x, name, p, v)
      ensures At(Exec(c, cmds), p) == Some(v)
    {
      assert Touches(Set(p, v), p);
      var cmd :| cmd in cmds && Touches(cmd, p) && At(Exec(c, cmds), p) == Leaves(cmd);
      AppliedOnce(x, name, p, v, cmd.value);
    }
  }

  /** After the revert its leaves have their values, nothing is left under what it removes, the rest is as it was. */
  lemma RevertLeaves(x: Inputs, name: Name, c: Tree, p: Path)
    requires FragmentOf(x, name).Some?
    ensures var e := Exec(c, FragmentOf(x, name).value.revert);
            && (forall v | Restored(x, name, p, v) :: At(e, p) == Some(v))
            && (forall top | Removed(name, top) && Under(p, top) :: At(e, p) == None)
            && ((forall v :: !Restored(x, name, p, v)) && (forall top | Removed(name, top) :: !Under(p, top)) ==>
                  At(e, p) == At(c, p))
  {
    hide FragmentOf, Restored, Removed, Exec, Under;
    var cmds := FragmentOf(x, name).value.revert;
    ExecAt(c, cmds, p);
    FragmentCovered(x, name);
    forall q, v
      ensures Set(q, v) in cmds <==> Restored(x, name, q, v)
    {
      FragmentIs(x, name, q, v);
    }
    forall top
      ensures Delete(top) in cmds <==> Removed(name, top)
    {
      FragmentIs(x, name, top, Num(0));
    }
    if cmd :| cmd in cmds && Touches(cmd, p) && At(Exec(c, cmds), p) == Leaves(cmd) {
      forall v | Restored(x, name, p, v)
        ensures At(Exec(c, cmds), p) == Some(v)
      {
        assert Touches(Set(p, v), p);
      }
      forall top | Removed(name, top) && Under(p, top)
        ensures At(Exec(c, cmds), p) == None
      {
        assert Touches(Delete(top), p);
      }
    }
  }

  /** The fragment would set what its revert restores. */
  predicate Idle(x: Inputs, name: Name) {
    match name
    case CommunityRetag => x.lcIxp1 == 9001
    case MaxprefixSqueeze => x.restore == Some(if x.announced < 4 then 1 else x.announced / 2)
    case _ => false
  }

  /** From a configuration that holds the revert, applying a fragment changes something exactly unless it is idle. */
  lemma ApplyChangesExactly(x: Inputs, name: Name, c: Tree)
    requires FragmentOf(x, name).Some? && Holds(c, FragmentOf(x, name).value.revert)
    ensures Exec(c, FragmentOf(x, name).value.apply) != c <==> !Idle(x, name)
  {
    hide FragmentOf, Exec, Holds, Rule, PeerGroupLeaf, BogonRule;
    var f := FragmentOf(x, name).value;
    var e := Exec(c, f.apply);
    var (p, v) := SampleLeaf(x, name);
    SampleDiffers(x, name, c);
    ApplyLeaves(x, name, c, p);
    if Idle(x, name) {
      forall q
        ensures At(e, q) == At(c, q)
      {
        ApplyLeaves(x, name, c, q);
        if w :| Applied(x, name, q, w) { assert q == p; }
      }
      Extensional(e, c);
    }
  }

  /** One leaf the fragment sets. */
  function SampleLeaf(x: Inputs, name: Name): (Path, Value) {
    match name
    case PrefixlistGrow => (BogonRule(0) + [Word("le")], Num(32))
    case LocalprefFlip =>
      (Rule("route-map", "ebgp4-import-ixp1", 20) + [Word("set"), Word("local-preference")], Num(325))
    case ExportTighten => (Rule("prefix-list", "own-supernet4", 20) + [Word("action")], Text("deny"))
    case AspathFilter => (Rule("route-map", "ebgp4-import", 15) + [Word("action")], Text("deny"))
    case CommunityRetag =>
      (Rule("route-map", "ebgp4-import-ixp1", 10) + [Word("set"), Word("large-community"), Word("replace")],
       LargeCommunity(x.asn, 1, 9001))
    case PgRoutemapSwap => (PeerGroupLeaf([Word("route-map"), Word("import")]), Text("allow-all"))
    case MaxprefixSqueeze =>
      (PeerGroupLeaf([Word("maximum-prefix")]), Num(if x.announced < 4 then 1 else x.announced / 2))
  }

  lemma SampleDiffers(x: Inputs, name: Name, c: Tree)
    requires FragmentOf(x, name).Some? && Holds(c, FragmentOf(x, name).value.revert)
    ensures Applied(x, name, SampleLeaf(x, name).0, SampleLeaf(x, name).1)
    ensures At(c, SampleLeaf(x, name).0) == Some(SampleLeaf(x, name).1) <==> Idle(x, name)
  {
    hide FragmentOf, Rule, PeerGroupLeaf;
    var (p, v) := SampleLeaf(x, name);
    var revert := FragmentOf(x, name).value.revert;
    match name {
      case PrefixlistGrow =>
        assert GrownLeaf(0, p, v);
        GoneUnder(c, x, name, p, BogonRule(0), [Word("le")]);
      case ExportTighten => GoneUnder(c, x, name, p, Rule("prefix-list", "own-supernet4", 20), [Word("action")]);
      case AspathFilter => GoneUnder(c, x, name, p, Rule("route-map", "ebgp4-import", 15), [Word("action")]);
      case LocalprefFlip => FragmentIs(x, name, p, Num(275));
      case CommunityRetag => FragmentIs(x, name, p, LargeCommunity(x.asn, 1, x.lcIxp1));
      case PgRoutemapSwap =>
        assert "allow-all"[0] != "ebgp4-import"[0];
        FragmentIs(x, name, p, Text("ebgp4-import"));
      case MaxprefixSqueeze =>
        RestoreKnown(x);
        FragmentIs(x, name, p, Num(x.restore.value));
    }
  }

  lemma RestoreKnown(x: Inputs)
    requires FragmentOf(x, MaxprefixSqueeze).Some?
    ensures x.restore.Some?
  {
  }

  lemma GoneUnder(c: Tree, x: Inputs, name: Name, p: Path, top: Path, rest: Path)
    requires FragmentOf(x, name).Some? && Holds(c, FragmentOf(x, name).value.revert)
    requires Removed(name, top) && p == top + rest
    ensures At(c, p) == None
  {
    hide FragmentOf, Removed;
    FragmentIs(x, name, top, Num(0));
    assert Under(p, top);
  }
}
