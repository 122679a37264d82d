/**
 Integrals of step functions. A grid is a sorted list of points; the sum takes the value at
 the left end of each stretch. The sum does not depend on the grid as long as the grid has all
 the points at which the function may step, so it is the integral.
 */
module StepFunctions {

  predicate Sorted(g: seq<real>) {
    forall i, j :: 0 <= i <= j < |g| ==> g[i] <= g[j]
  }

  function Area(width: real, height: real): real {
    width * height
  }

  function StepSum(g: seq<real>, f: real -> real): real {
    if |g| < 2 then 0.0 else Area(g[1] - g[0], f(g[0])) + StepSum(g[1..], f)
  }

  /** `f` may change its value at the points of `steps` only. */
  ghost predicate StepsAt(f: real -> real, steps: seq<real>) {
    forall t, u :: t <= u && (forall x <- steps :: x <= t || u < x) ==> f(t) == f(u)
  }

  /** `g` has every step beyond its first point. */
  ghost predicate Covers(g: seq<real>, steps: seq<real>) {
    g != [] && forall x <- steps :: g[0] < x ==> x in g
  }

  lemma CoversTail(g: seq<real>, steps: seq<real>)
    requires Sorted(g) && Covers(g, steps) && |g| > 1
    ensures Covers(g[1..], steps)
  {
    forall x | x in steps && g[1..][0] < x ensures x in g[1..] {
      var k :| 0 <= k < |g| && g[k] == x;
      assert g[1..][k - 1] == x;
    }
  }

  lemma SplitProduct(a: real, b: real, c: real, v: real)
    ensures Area(c - a, v) == Area(b - a, v) + Area(c - b, v)
  {}

  /** The grid whose first stretch is shortened to start at `x`. */
  lemma Shortened(h: seq<real>, x: real, steps: seq<real>)
    requires Sorted(h) && Covers(h, steps) && |h| > 1 && h[0] < x < h[1]
    ensures Sorted([x] + h[1..]) && Covers([x] + h[1..], steps)
  {
    CoversTail(h, steps);
    forall s | s in steps && x < s ensures s in [x] + h[1..] {
      var k :| 0 <= k < |h| && h[k] == s;
      assert ([x] + h[1..])[k] == s;
    }
  }

  /** Nothing steps before the next point of a covering grid. */
  lemma NoStepBefore(h: seq<real>, x: real, steps: seq<real>, f: real -> real)
    requires Sorted(h) && Covers(h, steps) && StepsAt(f, steps) && |h| > 1 && h[0] < x < h[1]
    ensures f(x) == f(h[0])
    ensures StepSum(h, f) == Area(x - h[0], f(h[0])) + StepSum([x] + h[1..], f)
  {
    forall s | s in steps ensures s <= h[0] || x < s {
      if h[0] < s {
        var k :| 0 <= k < |h| && h[k] == s;
        assert h[1] <= h[k];
      }
    }
    assert ([x] + h[1..])[1..] == h[1..];
    SplitProduct(h[0], x, h[1], f(h[0]));
  }

  /** Well-definedness of the integral: any two grids with the same ends that cover the steps
      of `f` give the same sum; points may repeat, and extra points do not matter. */
  lemma {:induction false} GridIndependent(g: seq<real>, h: seq<real>, steps: seq<real>, f: real -> real)
    requires Sorted(g) && Sorted(h) && Covers(g, steps) && Covers(h, steps) && StepsAt(f, steps)
    requires g[0] == h[0] && g[|g| - 1] == h[|h| - 1]
    ensures StepSum(g, f) == StepSum(h, f)
    decreases |g| + |h|, 1
  {
    if |g| == 1 && |h| == 1 {
    } else if |h| == 1 || (|g| > 1 && g[1] <= h[1]) {
      AdvanceLeft(g, h, steps, f);
    } else {
      AdvanceLeft(h, g, steps, f);
    }
  }

  lemma {:induction false} AdvanceLeft(g: seq<real>, h: seq<real>, steps: seq<real>, f: real -> real)
    requires Sorted(g) && Sorted(h) && Covers(g, steps) && Covers(h, steps) && StepsAt(f, steps)
    requires g[0] == h[0] && g[|g| - 1] == h[|h| - 1]
    requires |g| > 1 && (|h| == 1 || g[1] <= h[1])
    ensures StepSum(g, f) == StepSum(h, f)
    decreases |g| + |h|, 0
  {
    CoversTail(g, steps);
    var h' := CatchUp(h, g[1], steps, f);
    GridIndependent(g[1..], h', steps, f);
  }

  /** Cut off the part of a grid before `x`, which is at most its second point. */
  lemma CatchUp(h: seq<real>, x: real, steps: seq<real>, f: real -> real) returns (h': seq<real>)
    requires Sorted(h) && Covers(h, steps) && StepsAt(f, steps)
    requires h[0] <= x <= h[|h| - 1] && (|h| > 1 ==> x <= h[1])
    ensures |h'| <= |h| && Sorted(h') && Covers(h', steps)
    ensures h'[0] == x && h'[|h'| - 1] == h[|h| - 1]
    ensures StepSum(h, f) == Area(x - h[0], f(h[0])) + StepSum(h', f)
  {
    if x == h[0] {
      h' := h;
      NoWidth(x, f(h[0]));
    } else if x == h[1] {
      h' := WithoutFirst(h, steps, f);
    } else {
      NoStepBefore(h, x, steps, f);
      Shortened(h, x, steps);
      h' := [x] + h[1..];
    }
  }

  lemma NoWidth(x: real, v: real)
    ensures Area(x - x, v) == 0.0
  {}

  lemma WithoutFirst(h: seq<real>, steps: seq<real>, f: real -> real) returns (h': seq<real>)
    requires Sorted(h) && Covers(h, steps) && |h| > 1
    ensures |h'| <= |h| && Sorted(h') && Covers(h', steps)
    ensures h'[0] == h[1] && h'[|h'| - 1] == h[|h| - 1]
    ensures StepSum(h, f) == Area(h[1] - h[0], f(h[0])) + StepSum(h', f)
  {
    CoversTail(h, steps);
    h' := h[1..];
  }

  // ----- Sums of functions -----

  lemma {:induction false} StepSumAdd(g: seq<real>, f: real -> real, a: real -> real, b: real -> real)
    requires forall t :: f(t) == a(t) + b(t)
    ensures StepSum(g, f) == StepSum(g, a) + StepSum(g, b)
    decreases |g|
  {
    if |g| >= 2 {
      StepSumAdd(g[1..], f, a, b);
      var d := g[1] - g[0];
      assert d * (a(g[0]) + b(g[0])) == d * a(g[0]) + d * b(g[0]);
    }
  }

  lemma {:induction false} StepSumMonotone(g: seq<real>, a: real -> real, b: real -> real)
    requires Sorted(g) && forall t :: a(t) <= b(t)
    ensures StepSum(g, a) <= StepSum(g, b)
    decreases |g|
  {
    if |g| >= 2 {
      StepSumMonotone(g[1..], a, b);
      assert (g[1] - g[0]) * a(g[0]) <= (g[1] - g[0]) * b(g[0]);
    }
  }

  lemma {:induction false} StepSumConst(g: seq<real>, f: real -> real, c: real)
    requires g != [] && forall t :: f(t) == c
    ensures StepSum(g, f) == (g[|g| - 1] - g[0]) * c
    decreases |g|
  {
    if |g| >= 2 {
      StepSumConst(g[1..], f, c);
      assert (g[1] - g[0]) * c + (g[|g| - 1] - g[1]) * c == (g[|g| - 1] - g[0]) * c;
    }
  }

  lemma ProductSign(d: real, v: real)
    requires d >= 0.0 && v >= 0.0
    ensures Area(d, v) >= 0.0
    ensures d > 0.0 && v > 0.0 ==> Area(d, v) > 0.0
  {}

  lemma {:induction false} StepSumNonNegative(g: seq<real>, f: real -> real)
    requires Sorted(g) && forall t :: f(t) >= 0.0
    ensures StepSum(g, f) >= 0.0
    decreases |g|
  {
    if |g| >= 2 {
      ProductSign(g[1] - g[0], f(g[0]));
      StepSumNonNegative(g[1..], f);
    }
  }

  /** A non-negative function with one positive stretch has a positive sum. */
  lemma {:induction false} StepSumPositive(g: seq<real>, f: real -> real, k: nat)
    requires Sorted(g) && k + 1 < |g| && g[k] < g[k + 1] && f(g[k]) > 0.0
    requires forall t :: f(t) >= 0.0
    ensures StepSum(g, f) > 0.0
    decreases k
  {
    ProductSign(g[1] - g[0], f(g[0]));
    if k == 0 {
      StepSumNonNegative(g[1..], f);
    } else {
      StepSumPositive(g[1..], f, k - 1);
    }
  }

  // ----- Growing a sum from the left, and sums over a part of the grid -----

  lemma {:induction false} StepSumSnoc(g: seq<real>, f: real -> real, k: nat)
    requires 0 < k < |g|
    ensures StepSum(g[..k + 1], f) == StepSum(g[..k], f) + Area(g[k] - g[k - 1], f(g[k - 1]))
    decreases k
  {
    if k > 1 {
      StepSumSnoc(g[1..], f, k - 1);
      assert g[1..][..k] == g[..k + 1][1..] && g[1..][..k - 1] == g[..k][1..];
    } else {
      assert g[..2][1..] == [g[1]];
    }
  }

  function Clip(f: real -> real, s: real, e: real): real -> real {
    t => if s <= t < e then f(t) else 0.0
  }

  lemma {:induction false} ClippedPrefix(g: seq<real>, f: real -> real, i: nat, j: nat, k: nat, from: nat, to: nat, prefix: seq<real>)
    requires Sorted(g) && i <= j < |g| && k < |g| && prefix == g[..k + 1]
    requires from == (if k <= i then k else i) && to == (if k <= j then k else j)
    ensures StepSum(prefix, Clip(f, g[i], g[j])) == StepSum(g[..to + 1], f) - StepSum(g[..from + 1], f)
    decreases k
  {
    if k > 0 {
      ClippedPrefix(g, f, i, j, k - 1, if k - 1 <= i then k - 1 else i, if k - 1 <= j then k - 1 else j, g[..k]);
      StepSumSnoc(g, f, k);
      StepSumSnoc(g, Clip(f, g[i], g[j]), k);
      ClippedStretch(g, f, i, j, k);
    }
  }

  lemma NoArea(d: real, v: real)
    requires d == 0.0 || v == 0.0
    ensures Area(d, v) == 0.0
  {}

  /** A stretch between two grid points is inside the clip or adds nothing. */
  lemma ClippedStretch(g: seq<real>, f: real -> real, i: nat, j: nat, k: nat)
    requires Sorted(g) && i <= j < |g| && 0 < k < |g|
    ensures Area(g[k] - g[k - 1], Clip(f, g[i], g[j])(g[k - 1])) ==
            if i < k <= j then Area(g[k] - g[k - 1], f(g[k - 1])) else 0.0
  {
    var d, t := g[k] - g[k - 1], g[k - 1];
    if g[i] <= t < g[j] {
      if k <= i { NoArea(d, f(t)); }
    } else {
      NoArea(d, 0.0);
      if i < k <= j { NoArea(d, f(t)); }
    }
  }

  /** The integral between two grid points is the difference of two running sums. */
  lemma ClippedSum(g: seq<real>, f: real -> real, i: nat, j: nat)
    requires Sorted(g) && i <= j < |g|
    ensures StepSum(g, Clip(f, g[i], g[j])) == StepSum(g[..j + 1], f) - StepSum(g[..i + 1], f)
  {
    ClippedPrefix(g, f, i, j, |g| - 1, i, j, g);
  }
}
