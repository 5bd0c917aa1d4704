/** Multiplication, division and powers of two, in the few forms the planner needs. */
module Arith {
  function Max(a: int, b: int): int {
    if a >= b then a else b
  }

  function Min(a: int, b: int): int {
    if a <= b then a else b
  }

  function Pow2(n: nat): (p: nat)
    ensures p > 0
  {
    if n == 0 then 1 else 2 * Pow2(n - 1)
  }

  lemma {:induction false} Pow2Sum(a: nat, b: nat)
    ensures Pow2(a + b) == Pow2(a) * Pow2(b)
  {
    if a > 0 {
      Pow2Sum(a - 1, b);
      assert 2 * (Pow2(a - 1) * Pow2(b)) == (2 * Pow2(a - 1)) * Pow2(b);
    }
  }

  lemma WholePart(v: nat, m: nat)
    requires m > 0
    ensures 0 <= (v / m) * m <= v
  {
    assert v == m * (v / m) + v % m;
  }

  lemma MulAssociates(a: nat, b: nat, c: nat)
    ensures a * (b * c) == (a * b) * c
  {
  }

  lemma MulMonotone(a: int, b: int, m: nat)
    requires a <= b
    ensures a * m <= b * m
  {
  }

  /** Quotient and remainder are the only way to split a number at a positive divisor. */
  lemma DivUnique(x: int, m: nat, q: int, r: int)
    requires m > 0 && x == q * m + r && 0 <= r < m
    ensures x / m == q && x % m == r
  {
    var d, e := x / m, x % m;
    assert x == d * m + e;
    assert (d - q) * m == r - e;
    if d > q { MulMonotone(1, d - q, m); }
    if d < q { MulMonotone(1, q - d, m); }
  }

  /** An index below `n * m` lies in one of `n` blocks of `m`. */
  lemma BlockOf(i: nat, n: nat, m: nat)
    requires m > 0 && i < n * m
    ensures 0 <= i / m < n && 0 <= i % m < m && i == (i / m) * m + i % m
  {
    var d, e := i / m, i % m;
    assert i == d * m + e;
    if d >= n { MulMonotone(n, d, m); }
  }

  /** Equal remainders mean a difference that is a multiple. */
  lemma SameRemainder(x: int, y: int, m: nat)
    requires m > 0
    ensures x % m == y % m <==> (x - y) % m == 0
  {
    var a, b := x / m, y / m;
    assert x == a * m + x % m && y == b * m + y % m;
    if x % m == y % m {
      assert x - y == (a - b) * m;
      DivUnique(x - y, m, a - b, 0);
    }
    if (x - y) % m == 0 {
      var c := (x - y) / m;
      assert x - y == c * m;
      assert x == (b + c) * m + y % m;
      DivUnique(x, m, b + c, y % m);
    }
  }

  /** Shifting by a remainder lands on the other number's remainder. */
  lemma ShiftByRemainder(a: int, b: int, m: nat)
    requires m > 0
    ensures (a + (b - a) % m) % m == b % m
  {
    var q := (b - a) / m;
    assert b - a == q * m + (b - a) % m;
    assert (a + (b - a) % m) - b == (-q) * m;
    DivUnique((a + (b - a) % m) - b, m, -q, 0);
    SameRemainder(a + (b - a) % m, b, m);
  }

  /** `n` consecutive numbers from `a`, on a cycle of `m`. */
  function Arc(a: int, n: nat, m: nat): (s: seq<nat>)
    requires m > 0
    ensures |s| == n
  {
    seq(n, i => (a + i) % m)
  }

  ghost predicate Disjoint<T>(s: seq<T>, t: seq<T>) {
    forall i, j | 0 <= i < |s| && 0 <= j < |t| :: s[i] != t[j]
  }

  lemma ArcCollision(a: int, i: nat, b: int, j: nat, m: nat)
    requires i < m && j < m && (a + i) % m == (b + j) % m
    ensures if i >= j then (b - a) % m == i - j else (a - b) % m == j - i
  {
    SameRemainder(a + i, b + j, m);
    var q := (a + i - (b + j)) / m;
    assert a + i - (b + j) == q * m;
    if i >= j {
      assert b - a == (-q) * m + (i - j);
      DivUnique(b - a, m, -q, i - j);
    } else {
      DivUnique(a - b, m, q, j - i);
    }
  }

  /**
    Two runs of consecutive numbers on a cycle of `m` miss each other exactly when each starts past the other's end.
   */
  lemma ArcsDisjointExactly(a: int, la: nat, b: int, lb: nat, m: nat)
    requires 0 < la <= m && 0 < lb <= m
    ensures Disjoint(Arc(a, la, m), Arc(b, lb, m)) <==> (b - a) % m >= la && (a - b) % m >= lb
  {
    var s, t := Arc(a, la, m), Arc(b, lb, m);
    var d, e := (b - a) % m, (a - b) % m;
    ShiftByRemainder(a, b, m);
    ShiftByRemainder(b, a, m);
    if d < la { assert s[d] == t[0]; }
    if e < lb { assert s[0] == t[e]; }
    forall i, j | 0 <= i < la && 0 <= j < lb && s[i] == t[j]
      ensures d < la || e < lb
    {
      ArcCollision(a, i, b, j, m);
    }
  }

  /** A number written as block `o`, place `w` of `per`, and `step` units to a place. */
  lemma BlockPlaceUnit(o: nat, per: nat, w: nat, step: nat)
    requires w < per && step > 0
    ensures per * step > 0 && w * step + step <= per * step
    ensures o * (per * step) + w * step == (o * per + w) * step
    ensures (o * (per * step) + w * step) / (per * step) == o
    ensures ((o * per + w) * step) / step == o * per + w
  {
    MulMonotone(w + 1, per, step);
    assert (w + 1) * step == w * step + step;
    MulAssociates(o, per, step);
    assert (o * per + w) * step == (o * per) * step + w * step;
    DivUnique(o * (per * step) + w * step, per * step, o, w * step);
    DivUnique((o * per + w) * step, step, o * per + w, 0);
  }

  /** The `w`-th step of the `o`-th of `n` blocks: inside the whole, on a step, and in its block. */
  lemma StepInBlocks(n: nat, o: nat, per: nat, w: nat, step: nat, size: nat)
    requires o < n && w < per && step > 0 && size == per * step
    ensures size > 0 && o * size + w * step < n * size
    ensures var addr := o * size + w * step; (addr / step) * step == addr && addr / size == o
  {
    BlockPlaceUnit(o, per, w, step);
    MulMonotone(o + 1, n, size);
    assert (o + 1) * size == o * size + size;
  }

  lemma RemainderOfSum(x: int, y: int, m: nat)
    requires m > 0
    ensures (x % m + y) % m == (x + y) % m
  {
    var q := x / m;
    assert x == q * m + x % m;
    assert x + y - (x % m + y) == q * m;
    DivUnique(x + y - (x % m + y), m, q, 0);
    SameRemainder(x + y, x % m + y, m);
  }
}
