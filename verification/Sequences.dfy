/** Sequences: all but the last, the last, and how many different elements there are. */
module Sequences {
  function Init<T>(h: seq<T>): seq<T>
    requires h != []
  {
    h[..|h| - 1]
  }

  function Last<T>(h: seq<T>): T
    requires h != []
  {
    h[|h| - 1]
  }

  predicate Distinct<T(==)>(xs: seq<T>) {
    forall i, j | 0 <= i < j < |xs| :: xs[i] != xs[j]
  }

  function SetOf<T(==)>(xs: seq<T>): set<T> {
    set x <- xs
  }

  /** `len(set(out)) == len(out)` is the source's test for duplicates. */
  lemma {:induction false} SetSizeIsDistinct<T>(xs: seq<T>)
    ensures |SetOf(xs)| <= |xs|
    ensures |SetOf(xs)| == |xs| <==> Distinct(xs)
  {
    var all := SetOf(xs);
    if xs == [] {
      assert all == {};
    } else {
      var init, last := xs[..|xs| - 1], xs[|xs| - 1];
      var before := SetOf(init);
      SetSizeIsDistinct(init);
      assert xs == init + [last];
      assert all == before + {last};
      if last in init {
        assert all == before;
        var k :| 0 <= k < |init| && init[k] == last;
        assert xs[k] == xs[|xs| - 1];
      } else {
        assert |all| == |before| + 1;
        assert Distinct(xs) <==> Distinct(init) by {
          assert forall i | 0 <= i < |init| :: xs[i] == init[i] && xs[i] in init;
        }
      }
    }
  }
}
