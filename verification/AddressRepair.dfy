/**
  harness/peers.py, `restore_addrs` and its two checks: the addresses a link flap removed are put back on the
  interface the plan names, and taken off its parent.
 */
module AddressRepair {
  import opened Wrappers
  import opened Sequences

  datatype Command = Replace(address: string) | Remove(address: string)

  /** `cidrs` by bare address, which is all the checks compare. */
  datatype Plan = Plan(iface: string, parent: Option<string>, cidrs: seq<string>)

  /**
    What the addresses of an interface may be once `done` has been asked for; exactly that if `all` commands worked.
   */
  predicate Grown(before: set<string>, now: set<string>, done: set<string>, all: bool) {
    before <= now <= before + done && (all ==> now == before + done)
  }

  predicate Shrunk(before: set<string>, now: set<string>, done: set<string>, all: bool) {
    before - done <= now <= before && (all ==> now == before - done)
  }

  /** Steps compose, each having left alone what the earlier ones did. */
  lemma GrownStep(before: set<string>, mid: set<string>, now: set<string>, done: set<string>, more: set<string>,
                  a: bool, b: bool)
    requires Grown(before, mid, done, a) && Grown(mid, now, more, b)
    ensures before <= now && Grown(before, now, done + more, a && b)
  {
  }

  lemma ShrunkStep(before: set<string>, mid: set<string>, now: set<string>, done: set<string>, more: set<string>,
                   a: bool, b: bool)
    requires Shrunk(before, mid, done, a) && Shrunk(mid, now, more, b)
    ensures now <= before && Shrunk(before, now, done + more, a && b)
  {
  }

  /** A command that was run on an interface, and whether it worked. */
  datatype Done = Done(command: Command, dev: string, worked: bool)

  /** The log of a repair: each command on the interface it is for. */
  function Ran(issued: seq<Command>, results: seq<bool>, dev: string, parent: string): (done: seq<Done>)
    requires |issued| == |results|
    ensures |done| == |issued|
  {
    seq(|issued|, i requires 0 <= i < |issued| =>
      Done(issued[i], if issued[i].Replace? then dev else parent, results[i]))
  }

  lemma RanAppend(issued: seq<Command>, results: seq<bool>, more: seq<Command>, outcomes: seq<bool>, dev: string,
                  parent: string)
    requires |issued| == |results| && |more| == |outcomes|
    ensures Ran(issued + more, results + outcomes, dev, parent) == Ran(issued, results, dev, parent)
      + Ran(more, outcomes, dev, parent)
  {
  }

  class PeerContainer {
    var addresses: map<string, set<string>>   // interface to addresses on it
    ghost var log: seq<Done>

    function On(iface: string): set<string>
      reads this
    {
      if iface in addresses then addresses[iface] else {}
    }

    /** One `ip addr` command; `worked` is whether it did. */
    method Exec(c: Command, dev: string) returns (worked: bool)
      modifies this
      ensures forall i | i != dev :: On(i) == old(On(i))
      ensures worked ==> On(dev) == if c.Replace? then old(On(dev)) + {c.address} else old(On(dev)) - {c.address}
      ensures !worked ==> On(dev) == old(On(dev))
      ensures log == old(log) + [Done(c, dev, worked)]
    {
      worked := *;
      log := log + [Done(c, dev, worked)];
      if worked {
        addresses := addresses[dev := if c.Replace? then On(dev) + {c.address} else On(dev) - {c.address}];
      }
    }

    /** `addrs_missing`. */
    method Missing(plan: Option<Plan>, iface: Option<string>) returns (out: seq<string>)
      ensures plan.None? ==> out == []
      ensures plan.Some? ==>
        && (forall c :: c in out <==> c in plan.value.cidrs && c !in On(iface.GetOr(plan.value.iface)))
        && Kept(plan.value.cidrs, out, set c | c in plan.value.cidrs && c !in On(iface.GetOr(plan.value.iface)))
    {
      if plan.None? { return []; }
      var have := On(if iface.Some? then iface.value else plan.value.iface);
      var cidrs := plan.value.cidrs;
      ghost var want := set c | c in cidrs && c !in have;
      out := [];
      for k := 0 to |cidrs|
        invariant Kept(cidrs[..k], out, want)
        invariant forall c :: c in out <==> c in cidrs[..k] && c !in have
      {
        assert cidrs[..k + 1] == cidrs[..k] + [cidrs[k]];
        if cidrs[k] !in have { out := out + [cidrs[k]]; }
      }
      assert cidrs[..|cidrs|] == cidrs;
    }

    /** `addrs_misplaced`; it always judges the interface the plan names. */
    method Misplaced(plan: Option<Plan>) returns (out: seq<string>)
      ensures plan.None? || plan.value.parent.GetOr(plan.value.iface) == plan.value.iface ==> out == []
      ensures plan.Some? && plan.value.parent.GetOr(plan.value.iface) != plan.value.iface ==>
        && (forall c :: c in out <==> c in plan.value.cidrs && c in On(plan.value.parent.GetOr(plan.value.iface)))
        && Kept(plan.value.cidrs, out,
                set c | c in plan.value.cidrs && c in On(plan.value.parent.GetOr(plan.value.iface)))
    {
      if plan.None? { return []; }
      var parent := if plan.value.parent.Some? then plan.value.parent.value else plan.value.iface;
      if parent == plan.value.iface { return []; }
      var onParent, cidrs := On(parent), plan.value.cidrs;
      ghost var want := set c | c in cidrs && c in onParent;
      out := [];
      for k := 0 to |cidrs|
        invariant Kept(cidrs[..k], out, want)
        invariant forall c :: c in out <==> c in cidrs[..k] && c in onParent
      {
        assert cidrs[..k + 1] == cidrs[..k] + [cidrs[k]];
        if cidrs[k] in onParent { out := out + [cidrs[k]]; }
      }
      assert cidrs[..|cidrs|] == cidrs;
    }

    /** The loop body of `restore_addrs`. `have` and `stray` were read before the first command. */
    method RestoreOne(addr: string, dev: string, parent: string, have: set<string>, stray: set<string>)
      returns (results: seq<bool>, ghost issued: seq<Command>)
      requires have <= On(dev) && (parent == dev ==> stray == {})
      requires parent != dev ==> On(parent) <= stray
      modifies this
      ensures |results| == |issued| && issued == NeededFor(addr, have, stray)
      ensures log == old(log) + Ran(issued, results, dev, parent)
      ensures forall i | i != dev && i != parent :: On(i) == old(On(i))
      ensures Grown(old(On(dev)), On(dev), {addr}, AllWorked(results))
      ensures parent != dev ==> Shrunk(old(On(parent)), On(parent), {addr}, AllWorked(results))
    {
      results, issued := [], [];
      if addr !in have {
        var ok := Exec(Replace(addr), dev);
        results, issued := [ok], [Replace(addr)];
        assert Ran(issued, results, dev, parent) == [Done(Replace(addr), dev, ok)];
        assert results[0] == ok;
      }
      if addr in stray {
        var ok := Exec(Remove(addr), parent);
        AllWorkedAppend(results, [ok]);
        assert [ok][0] == ok;
        RanAppend(issued, results, [Remove(addr)], [ok], dev, parent);
        assert Ran([Remove(addr)], [ok], dev, parent) == [Done(Remove(addr), parent, ok)];
        results, issued := results + [ok], issued + [Remove(addr)];
      }
    }

    /** The loop of `restore_addrs`. */
    method RestoreAll(cidrs: seq<string>, dev: string, parent: string)
        returns (results: seq<bool>, ghost issued: seq<Command>)
      modifies this
      ensures |results| == |issued| && log == old(log) + Ran(issued, results, dev, parent)
      ensures forall i | i != dev && i != parent :: On(i) == old(On(i))
      ensures Progress(cidrs, |cidrs|, old(On(dev)), if parent != dev then old(On(parent)) else {},
                       On(dev), On(parent), parent != dev, issued, results)
    {
      hide Progress, Ran, Grown, Shrunk, Needed, NeededFor, SetOf, AllWorked;
      results, issued := [], [];
      var have := On(dev);
      var stray := if parent != dev then On(parent) else {};
      NothingRun(log, dev, parent);
      ProgressStarts(cidrs, have, stray, On(parent), parent != dev);
      for k := 0 to |cidrs|
        invariant |results| == |issued| && log == old(log) + Ran(issued, results, dev, parent)
        invariant forall i | i != dev && i != parent :: On(i) == old(On(i))
        invariant Progress(cidrs, k, have, stray, On(dev), On(parent), parent != dev, issued, results)
      {
        ghost var onDev, onParent := On(dev), On(parent);
        ProgressBounds(cidrs, k, have, stray, onDev, onParent, parent != dev, issued, results);
        var more;
        ghost var commands;
        more, commands := RestoreOne(cidrs[k], dev, parent, have, stray);
        ProgressStep(cidrs, k, have, stray, onDev, onParent, On(dev), On(parent), parent != dev, issued, results,
          commands, more);
        RanAppend(issued, results, commands, more, dev, parent);
        results, issued := results + more, issued + commands;
      }
    }

    /**
      `restore_addrs`. `results` are the outcomes of the commands issued. If all of them worked, the planned
      addresses are on the interface and off a different parent. Whatever happened, exactly what was needed was
      attempted, no other interface was touched, and no unplanned address came or went.
     */
    method Restore(plan: Option<Plan>, iface: Option<string>) returns (results: seq<bool>, ghost issued: seq<Command>)
      modifies this
      ensures |results| == |issued|
      ensures plan.None? ==> issued == [] && addresses == old(addresses) && log == old(log)
      ensures plan.Some? ==>
                var dev := iface.GetOr(plan.value.iface);
                var parent := plan.value.parent.GetOr(dev);
                var planned := SetOf(plan.value.cidrs);
                && issued == Needed(plan.value.cidrs, old(On(dev)), if parent != dev then old(On(parent)) else {})
                && log == old(log) + Ran(issued, results, dev, parent)
                && (forall i | i != dev && i != parent :: On(i) == old(On(i)))
                && Grown(old(On(dev)), On(dev), planned, AllWorked(results))
                && (parent != dev ==> Shrunk(old(On(parent)), On(parent), planned, AllWorked(results)))
    {
      results, issued := [], [];
      if plan.None? { return; }
      var cidrs := plan.value.cidrs;
      var dev := if iface.Some? then iface.value else plan.value.iface;
      var parent := if plan.value.parent.Some? then plan.value.parent.value else dev;
      hide Progress, Ran, Grown, Shrunk, Needed, SetOf, AllWorked;
      results, issued := RestoreAll(cidrs, dev, parent);
      ProgressEnds(cidrs, old(On(dev)), if parent != dev then old(On(parent)) else {}, On(dev), On(parent),
        parent != dev, issued, results);
    }
  }

  /** After the first `k` addresses: what was issued, and what it may have done to the two interfaces. */
  predicate Progress(cidrs: seq<string>, k: nat, have: set<string>, stray: set<string>, onDev: set<string>,
                     onParent: set<string>, apart: bool, issued: seq<Command>, results: seq<bool>)
  {
    && k <= |cidrs| && |results| == |issued| && issued == Needed(cidrs[..k], have, stray)
    && Grown(have, onDev, SetOf(cidrs[..k]), AllWorked(results))
    && (apart ==> Shrunk(stray, onParent, SetOf(cidrs[..k]), AllWorked(results)))
  }

  lemma ProgressStarts(cidrs: seq<string>, have: set<string>, stray: set<string>, onParent: set<string>, apart: bool)
    requires apart ==> stray == onParent
    ensures Progress(cidrs, 0, have, stray, have, onParent, apart, [], [])
  {
  }

  lemma ProgressBounds(cidrs: seq<string>, k: nat, have: set<string>, stray: set<string>, onDev: set<string>,
                       onParent: set<string>, apart: bool, issued: seq<Command>, results: seq<bool>)
    requires Progress(cidrs, k, have, stray, onDev, onParent, apart, issued, results)
    ensures have <= onDev && (apart ==> onParent <= stray)
  {
  }

  lemma ProgressStep(cidrs: seq<string>, k: nat, have: set<string>, stray: set<string>, onDev: set<string>,
                     onParent: set<string>, nextDev: set<string>, nextParent: set<string>, apart: bool,
                     issued: seq<Command>, results: seq<bool>, commands: seq<Command>, more: seq<bool>)
    requires Progress(cidrs, k, have, stray, onDev, onParent, apart, issued, results) && k < |cidrs|
    requires |more| == |commands| && commands == NeededFor(cidrs[k], have, stray)
    requires Grown(onDev, nextDev, {cidrs[k]}, AllWorked(more))
    requires apart ==> Shrunk(onParent, nextParent, {cidrs[k]}, AllWorked(more))
    ensures Progress(cidrs, k + 1, have, stray, nextDev, nextParent, apart, issued + commands, results + more)
  {
    hide Grown, Shrunk, AllWorked, NeededFor;
    SetOfStep(cidrs, k);
    assert cidrs[..k + 1][..k] == cidrs[..k];
    AllWorkedAppend(results, more);
    GrownStep(have, onDev, nextDev, SetOf(cidrs[..k]), {cidrs[k]}, AllWorked(results), AllWorked(more));
    if apart {
      ShrunkStep(stray, onParent, nextParent, SetOf(cidrs[..k]), {cidrs[k]}, AllWorked(results), AllWorked(more));
    }
  }

  lemma ProgressEnds(cidrs: seq<string>, have: set<string>, stray: set<string>, onDev: set<string>,
                     onParent: set<string>, apart: bool, issued: seq<Command>, results: seq<bool>)
    requires Progress(cidrs, |cidrs|, have, stray, onDev, onParent, apart, issued, results)
    ensures |results| == |issued| && issued == Needed(cidrs, have, stray)
    ensures Grown(have, onDev, SetOf(cidrs), AllWorked(results))
    ensures apart ==> Shrunk(stray, onParent, SetOf(cidrs), AllWorked(results))
  {
    assert cidrs[..|cidrs|] == cidrs;
  }

  lemma NothingRun(log: seq<Done>, dev: string, parent: string)
    ensures log + Ran([], [], dev, parent) == log
  {
  }

  lemma SetOfStep(xs: seq<string>, k: nat)
    requires k < |xs|
    ensures SetOf(xs[..k + 1]) == SetOf(xs[..k]) + {xs[k]}
  {
    assert xs[..k + 1] == xs[..k] + [xs[k]];
  }

  predicate AllWorked(results: seq<bool>) {
    forall i | 0 <= i < |results| :: results[i]
  }

  lemma AllWorkedAppend(first: seq<bool>, more: seq<bool>)
    ensures AllWorked(first + more) <==> AllWorked(first) && AllWorked(more)
  {
    var all := first + more;
    assert forall i | 0 <= i < |first| :: all[i] == first[i];
    assert forall i | 0 <= i < |more| :: all[|first| + i] == more[i];
  }

  /** `out` is what remains of `all`, in order and with repeats, when everything outside `want` is dropped. */
  predicate Kept(all: seq<string>, out: seq<string>, want: set<string>) {
    if all == [] then out == []
    else if all[|all| - 1] in want then
      out != [] && out[|out| - 1] == all[|all| - 1] && Kept(all[..|all| - 1], out[..|out| - 1], want)
    else Kept(all[..|all| - 1], out, want)
  }

  /** The commands a repair needs, given what is on the interface and what strayed onto the parent. */
  function Needed(cidrs: seq<string>, have: set<string>, stray: set<string>): seq<Command> {
    if cidrs == [] then []
    else
      var addr := cidrs[|cidrs| - 1];
      Needed(cidrs[..|cidrs| - 1], have, stray) + NeededFor(addr, have, stray)
  }

  function NeededFor(addr: string, have: set<string>, stray: set<string>): seq<Command> {
    (if addr !in have then [Replace(addr)] else []) + (if addr in stray then [Remove(addr)] else [])
  }

  lemma {:induction false} NothingNeeded(cidrs: seq<string>, have: set<string>, stray: set<string>)
    ensures Needed(cidrs, have, stray) == [] <==> SetOf(cidrs) <= have && SetOf(cidrs) !! stray
  {
    if cidrs != [] {
      var init, last := cidrs[..|cidrs| - 1], cidrs[|cidrs| - 1];
      NothingNeeded(init, have, stray);
      assert cidrs == init + [last];
      assert SetOf(cidrs) == SetOf(init) + {last};
    }
  }

  /** Every planned address is on its interface and none on a different parent. */
  ghost predicate InForce(c: PeerContainer, plan: Plan)
    reads c
  {
    var parent := plan.parent.GetOr(plan.iface);
    SetOf(plan.cidrs) <= c.On(plan.iface) && (parent == plan.iface || SetOf(plan.cidrs) !! c.On(parent))
  }

  /**
    The checks decide the repair: it issues nothing exactly when neither finds anything, which is when the plan is in
    force.
   */
  method ChecksDecideRepair(c: PeerContainer, plan: Option<Plan>)
    returns (missing: seq<string>, misplaced: seq<string>, results: seq<bool>)
    modifies c
    ensures results == [] <==> missing == [] && misplaced == []
    ensures results == [] <==> plan.None? || old(InForce(c, plan.value))
  {
    missing := c.Missing(plan, None);
    misplaced := c.Misplaced(plan);
    EmptyIfNone(missing);
    EmptyIfNone(misplaced);
    if plan.Some? {
      var cidrs, dev := plan.value.cidrs, plan.value.iface;
      var parent := plan.value.parent.GetOr(dev);
      NothingNeeded(cidrs, c.On(dev), if parent != dev then c.On(parent) else {});
    }
    ghost var issued;
    results, issued := c.Restore(plan, None);
  }

  /** A repair whose commands all work leaves both checks empty and nothing for a second repair to do. */
  method RepairTwice(c: PeerContainer, plan: Option<Plan>)
    returns (first: seq<bool>, missing: seq<string>, misplaced: seq<string>, second: seq<bool>)
    modifies c
    ensures AllWorked(first) ==> missing == [] && misplaced == [] && second == []
  {
    ghost var issued;
    first, issued := c.Restore(plan, None);
    assert plan.Some? && AllWorked(first) ==> InForce(c, plan.value);
    missing, misplaced, second := ChecksDecideRepair(c, plan);
  }

  lemma EmptyIfNone(out: seq<string>)
    ensures out == [] <==> forall c :: c !in out
  {
    if out != [] { assert out[0] in out; }
  }
}
