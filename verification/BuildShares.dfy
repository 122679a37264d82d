/**
 The weighted duration of a build step, as an integral: at each moment the elapsed time is
 shared equally among the steps that are running (vllm/tools/report_build_time_ninja.py).
 Times are exact reals.
 */
module BuildShares {
  import opened Sorting
  import opened StepFunctions

  datatype Interval = Interval(start: real, end: real) {
    predicate Contains(t: real) { start <= t < end }
    function Length(): real { end - start }
  }

  /** How many steps run at time `t`. */
  function Running(es: seq<Interval>, t: real): nat {
    if es == [] then 0 else (if es[0].Contains(t) then 1 else 0) + Running(es[1..], t)
  }

  /** The share of each running step at time `t`. */
  function Weight(es: seq<Interval>): real -> real {
    t => if Running(es, t) == 0 then 0.0 else 1.0 / Running(es, t) as real
  }

  function Share(es: seq<Interval>, i: nat): real -> real
    requires i < |es|
  {
    Clip(Weight(es), es[i].start, es[i].end)
  }

  function Times(es: seq<Interval>): seq<real> {
    if es == [] then [] else [es[0].start, es[0].end] + Times(es[1..])
  }

  /** A sorted list of points from the first to the last event that has all the events. */
  ghost predicate IsGrid(es: seq<Interval>, g: seq<real>) {
    && g != [] && Sorted(g)
    && (forall x <- Times(es) :: x in g)
    && g[0] in Times(es) && g[|g| - 1] in Times(es)
  }

  ghost predicate Proper(es: seq<Interval>) {
    es != [] && forall e <- es :: e.start <= e.end
  }

  function Grid(es: seq<Interval>): (g: seq<real>)
    requires es != []
    ensures g != []
  {
    Sort(Times(es), (a: real, b: real) => a <= b)
  }

  lemma GridIsGrid(es: seq<Interval>)
    requires es != []
    ensures IsGrid(es, Grid(es))
  {
    SortSorts(Times(es), (a: real, b: real) => a <= b);
    SortMembers(Times(es), (a: real, b: real) => a <= b);
    assert Grid(es)[0] in Grid(es) && Grid(es)[|Grid(es)| - 1] in Grid(es);
  }

  /** The weighted duration of step `i`: the integral of its share. */
  function WeightedDuration(es: seq<Interval>, i: nat): real
    requires i < |es|
  {
    StepSum(Grid(es), Share(es, i))
  }

  // ----- The integral is well defined -----

  lemma {:induction false} RunningStepsAtTimes(es: seq<Interval>, t: real, u: real)
    requires t <= u && forall x <- Times(es) :: x <= t || u < x
    ensures Running(es, t) == Running(es, u)
    decreases |es|
  {
    if es != [] {
      assert es[0].start in Times(es) && es[0].end in Times(es);
      assert forall x <- Times(es[1..]) :: x in Times(es);
      RunningStepsAtTimes(es[1..], t, u);
    }
  }

  lemma {:induction false} TimesOf(es: seq<Interval>, i: nat)
    requires i < |es|
    ensures es[i].start in Times(es) && es[i].end in Times(es)
    decreases i
  {
    if i > 0 {
      TimesOf(es[1..], i - 1);
    }
  }

  lemma SameShareBetween(es: seq<Interval>, i: nat, t: real, u: real)
    requires i < |es| && t <= u && forall x <- Times(es) :: x <= t || u < x
    ensures Weight(es)(t) == Weight(es)(u) && Share(es, i)(t) == Share(es, i)(u)
  {
    TimesOf(es, i);
    RunningStepsAtTimes(es, t, u);
    assert es[i].Contains(t) == es[i].Contains(u);
  }

  lemma ShareStepsAtTimes(es: seq<Interval>, i: nat)
    requires i < |es|
    ensures StepsAt(Share(es, i), Times(es)) && StepsAt(Weight(es), Times(es))
  {
    forall t: real, u: real | t <= u && forall x <- Times(es) :: x <= t || u < x
      ensures Weight(es)(t) == Weight(es)(u) && Share(es, i)(t) == Share(es, i)(u)
    {
      SameShareBetween(es, i, t, u);
    }
  }

  lemma GridEnds(es: seq<Interval>, g: seq<real>, h: seq<real>)
    requires IsGrid(es, g) && IsGrid(es, h)
    ensures g[0] == h[0] && g[|g| - 1] == h[|h| - 1]
  {
    assert g[0] in h && h[0] in g && g[|g| - 1] in h && h[|h| - 1] in g;
  }

  /** Whatever grid the events are laid out on, whatever the order of simultaneous events and
      however often a point repeats, the sum is the weighted duration. */
  lemma IntegralOnAnyGrid(es: seq<Interval>, i: nat, g: seq<real>)
    requires i < |es| && IsGrid(es, g)
    ensures StepSum(g, Share(es, i)) == WeightedDuration(es, i)
  {
    GridIsGrid(es);
    ShareStepsAtTimes(es, i);
    GridEnds(es, g, Grid(es));
    GridIndependent(g, Grid(es), Times(es), Share(es, i));
  }

  // ----- It does not depend on the order of the entries -----

  lemma {:induction false} RunningSplit(es: seq<Interval>, k: nat, t: real)
    requires k < |es|
    ensures Running(es, t) == (if es[k].Contains(t) then 1 else 0) + Running(es[..k] + es[k + 1..], t)
    decreases k
  {
    if k == 0 {
      assert es[..0] + es[1..] == es[1..];
    } else {
      RunningSplit(es[1..], k - 1, t);
      assert (es[..k] + es[k + 1..])[1..] == es[1..][..k - 1] + es[1..][k..];
    }
  }

  lemma {:induction false} RunningOfPermutation(es: seq<Interval>, fs: seq<Interval>, t: real)
    requires multiset(es) == multiset(fs)
    ensures Running(es, t) == Running(fs, t)
    decreases |es|
  {
    if es == [] {
      assert |multiset(fs)| == |fs| == 0;
    } else {
      var k := FindFirst(es, fs);
      RunningSplit(fs, k, t);
      RunningOfPermutation(es[1..], fs[..k] + fs[k + 1..], t);
    }
  }

  lemma {:induction false} TimesAre(es: seq<Interval>, x: real)
    ensures x in Times(es) <==> exists e <- es :: x == e.start || x == e.end
    decreases |es|
  {
    if es != [] {
      TimesAre(es[1..], x);
      assert forall e :: e in es <==> e == es[0] || e in es[1..];
    }
  }

  lemma SameGrids(es: seq<Interval>, fs: seq<Interval>, g: seq<real>)
    requires multiset(es) == multiset(fs) && IsGrid(fs, g)
    ensures IsGrid(es, g)
  {
    forall e: Interval ensures e in es <==> e in fs {
      assert e in es <==> e in multiset(es);
      assert e in fs <==> e in multiset(fs);
    }
    forall x: real ensures x in Times(es) <==> x in Times(fs) {
      TimesAre(es, x);
      TimesAre(fs, x);
    }
  }

  lemma SameShares(es: seq<Interval>, fs: seq<Interval>, i: nat, j: nat, t: real)
    requires multiset(es) == multiset(fs) && i < |es| && j < |fs| && es[i] == fs[j]
    ensures Share(es, i)(t) == Share(fs, j)(t)
  {
    RunningOfPermutation(es, fs, t);
  }

  /** Shuffling the log changes no step's weighted duration. */
  lemma OrderDoesNotMatter(es: seq<Interval>, fs: seq<Interval>, i: nat, j: nat)
    requires multiset(es) == multiset(fs) && i < |es| && j < |fs| && es[i] == fs[j]
    ensures WeightedDuration(es, i) == WeightedDuration(fs, j)
  {
    var g := Grid(fs);
    GridIsGrid(fs);
    SameGrids(es, fs, g);
    IntegralOnAnyGrid(es, i, g);
    forall t: real ensures Share(es, i)(t) == Share(fs, j)(t) {
      SameShares(es, fs, i, j, t);
    }
    SamePointwise(g, Share(es, i), Share(fs, j));
  }

  lemma {:induction false} SamePointwise(g: seq<real>, f: real -> real, h: real -> real)
    requires forall t :: f(t) == h(t)
    ensures StepSum(g, f) == StepSum(g, h)
    decreases |g|
  {
    if |g| >= 2 {
      SamePointwise(g[1..], f, h);
    }
  }

  // ----- Bounds and conservation -----

  function Busy(es: seq<Interval>): real -> real {
    t => if Running(es, t) == 0 then 0.0 else 1.0
  }

  function One(): real -> real { t => 1.0 }

  function Load(es: seq<Interval>): real -> real {
    t => Running(es, t) as real
  }

  lemma SumOfOne(g: seq<real>)
    requires g != []
    ensures StepSum(g, One()) == g[|g| - 1] - g[0]
  {
    StepSumConst(g, One(), 1.0);
  }

  lemma EmptyClip(g: seq<real>, f: real -> real, t: real)
    requires g != []
    ensures StepSum(g, Clip(f, t, t)) == 0.0
  {
    StepSumConst(g, Clip(f, t, t), 0.0);
  }

  lemma LengthIsIntegral(es: seq<Interval>, i: nat, g: seq<real>)
    requires i < |es| && es[i].start <= es[i].end && Sorted(g) && es[i].start in g && es[i].end in g
    ensures StepSum(g, Clip(One(), es[i].start, es[i].end)) == es[i].Length()
  {
    var a :| 0 <= a < |g| && g[a] == es[i].start;
    var b :| 0 <= b < |g| && g[b] == es[i].end;
    if a <= b {
      ClippedSum(g, One(), a, b);
      SumOfOne(g[..a + 1]);
      SumOfOne(g[..b + 1]);
    } else {
      assert g[a] == g[b];
      EmptyClip(g, One(), g[a]);
    }
  }

  lemma WeightIsAShare(es: seq<Interval>, t: real)
    ensures 0.0 <= Weight(es)(t) <= 1.0
  {
    if Running(es, t) > 0 {
      var n := Running(es, t) as real;
      assert n >= 1.0 && 1.0 / n * n == 1.0;
      assert 1.0 / n > 0.0;
    }
  }

  /** A weighted duration is never negative and never longer than the step itself: the promise
      that the original asserts whenever the value is read. */
  lemma WeightedDurationBounds(es: seq<Interval>, i: nat)
    requires i < |es| && es[i].start <= es[i].end
    ensures 0.0 <= WeightedDuration(es, i) <= es[i].Length()
  {
    var g := Grid(es);
    GridIsGrid(es);
    TimesOf(es, i);
    forall t: real ensures 0.0 <= Share(es, i)(t) <= Clip(One(), es[i].start, es[i].end)(t) {
      WeightIsAShare(es, t);
    }
    StepSumNonNegative(g, Share(es, i));
    StepSumMonotone(g, Share(es, i), Clip(One(), es[i].start, es[i].end));
    LengthIsIntegral(es, i, g);
  }

  /** The sums over the first `n` steps. */
  function TotalOn(es: seq<Interval>, g: seq<real>, n: nat): real
    requires n <= |es|
  {
    if n == 0 then 0.0 else TotalOn(es, g, n - 1) + StepSum(g, Share(es, n - 1))
  }

  function TotalWeighted(es: seq<Interval>, n: nat): real
    requires n <= |es|
  {
    if n == 0 then 0.0 else TotalWeighted(es, n - 1) + WeightedDuration(es, n - 1)
  }

  lemma {:induction false} TotalOnAnyGrid(es: seq<Interval>, g: seq<real>, n: nat)
    requires n <= |es| && (es != [] ==> IsGrid(es, g))
    ensures TotalOn(es, g, n) == TotalWeighted(es, n)
    decreases n
  {
    if n > 0 {
      TotalOnAnyGrid(es, g, n - 1);
      IntegralOnAnyGrid(es, n - 1, g);
    }
  }

  function TotalLength(es: seq<Interval>, n: nat): real
    requires n <= |es|
  {
    if n == 0 then 0.0 else TotalLength(es, n - 1) + es[n - 1].Length()
  }

  lemma {:induction false} RunningSnoc(es: seq<Interval>, n: nat, t: real)
    requires 0 < n <= |es|
    ensures Running(es[..n], t) == Running(es[..n - 1], t) + if es[n - 1].Contains(t) then 1 else 0
  {
    RunningSplit(es[..n], n - 1, t);
    assert es[..n][..n - 1] + es[..n][n..] == es[..n - 1];
  }

  /** Those of the first `n` steps that run at `t`. */
  function RunningAt(es: seq<Interval>, n: nat, t: real): set<int>
    requires n <= |es|
  {
    set i | 0 <= i < n && es[i].start <= t < es[i].end
  }

  lemma {:induction false} RunningCounts(es: seq<Interval>, n: nat, t: real)
    requires n <= |es|
    ensures Running(es[..n], t) == |RunningAt(es, n, t)|
    decreases n
  {
    if n > 0 {
      RunningCounts(es, n - 1, t);
      RunningSnoc(es, n, t);
      assert RunningAt(es, n, t) == RunningAt(es, n - 1, t) + if es[n - 1].Contains(t) then {n - 1} else {};
    } else {
      assert RunningAt(es, 0, t) == {};
    }
  }

  /** At each moment every running step has the same share, one over the number of those that
      run, and no other step has any. */
  lemma EqualShares(es: seq<Interval>, i: nat, t: real)
    requires i < |es|
    ensures if es[i].start <= t < es[i].end then
              var n := |set j | 0 <= j < |es| && es[j].start <= t < es[j].end|;
              n > 0 && Share(es, i)(t) == 1.0 / n as real
            else Share(es, i)(t) == 0.0
  {
    RunningCounts(es, |es|, t);
    assert es[..|es|] == es;
    if es[i].start <= t < es[i].end {
      assert i in RunningAt(es, |es|, t);
    }
  }

  /** The part of the shared time that goes to the first `n` steps. */
  function SharedAmong(es: seq<Interval>, n: nat): real -> real
    requires n <= |es|
  {
    t => Running(es[..n], t) as real * Weight(es)(t)
  }

  lemma SharedAmongOneMore(es: seq<Interval>, n: nat, t: real)
    requires 0 < n <= |es|
    ensures SharedAmong(es, n)(t) == SharedAmong(es, n - 1)(t) + Share(es, n - 1)(t)
  {
    RunningSnoc(es, n, t);
    var r, w := Running(es[..n - 1], t) as real, Weight(es)(t);
    assert (r + 1.0) * w == r * w + w;
  }

  lemma {:induction false} SumOfShares(es: seq<Interval>, g: seq<real>, n: nat)
    requires n <= |es| && g != []
    ensures TotalOn(es, g, n) == StepSum(g, SharedAmong(es, n))
    decreases n
  {
    if n == 0 {
      forall t: real ensures SharedAmong(es, 0)(t) == 0.0 {
        assert Running(es[..0], t) as real == 0.0;
      }
      StepSumConst(g, SharedAmong(es, 0), 0.0);
    } else {
      SumOfShares(es, g, n - 1);
      forall t: real ensures SharedAmong(es, n)(t) == SharedAmong(es, n - 1)(t) + Share(es, n - 1)(t) {
        SharedAmongOneMore(es, n, t);
      }
      StepSumAdd(g, SharedAmong(es, n), SharedAmong(es, n - 1), Share(es, n - 1));
    }
  }

  lemma SharesOfAll(es: seq<Interval>, t: real)
    ensures SharedAmong(es, |es|)(t) == Busy(es)(t)
  {
    assert es[..|es|] == es;
    var n := Running(es, t) as real;
    if Running(es, t) > 0 {
      InverseCancels(n);
      assert Weight(es)(t) == 1.0 / n;
    } else {
      assert n * Weight(es)(t) == 0.0;
    }
  }

  lemma InverseCancels(n: real)
    requires n > 0.0
    ensures n * (1.0 / n) == 1.0
  {}

  /** Conservation: the weighted durations add up to the time during which anything ran. */
  lemma Conservation(es: seq<Interval>, g: seq<real>)
    requires IsGrid(es, g)
    ensures TotalWeighted(es, |es|) == StepSum(g, Busy(es))
  {
    TotalOnAnyGrid(es, g, |es|);
    SumOfShares(es, g, |es|);
    forall t: real ensures SharedAmong(es, |es|)(t) == Busy(es)(t) {
      SharesOfAll(es, t);
    }
    SamePointwise(g, SharedAmong(es, |es|), Busy(es));
  }

  lemma {:induction false} SumOfLengths(es: seq<Interval>, g: seq<real>, n: nat)
    requires n <= |es| && Proper(es) && IsGrid(es, g)
    ensures TotalLength(es, n) == StepSum(g, Load(es[..n]))
    decreases n
  {
    if n == 0 {
      forall t: real ensures Load(es[..0])(t) == 0.0 {}
      StepSumConst(g, Load(es[..0]), 0.0);
    } else {
      SumOfLengths(es, g, n - 1);
      TimesOf(es, n - 1);
      LengthIsIntegral(es, n - 1, g);
      var piece := Clip(One(), es[n - 1].start, es[n - 1].end);
      forall t: real ensures Load(es[..n])(t) == Load(es[..n - 1])(t) + piece(t) {
        RunningSnoc(es, n, t);
      }
      StepSumAdd(g, Load(es[..n]), Load(es[..n - 1]), piece);
    }
  }

  /** The shared time is at most the total of the elapsed times. */
  lemma AtMostCpuTime(es: seq<Interval>)
    requires Proper(es)
    ensures TotalWeighted(es, |es|) <= TotalLength(es, |es|)
  {
    var g := Grid(es);
    GridIsGrid(es);
    Conservation(es, g);
    SumOfLengths(es, g, |es|);
    assert es[..|es|] == es;
    StepSumMonotone(g, Busy(es), Load(es));
  }

  function First(es: seq<Interval>): real requires es != [] { Grid(es)[0] }

  function Last(es: seq<Interval>): real requires es != [] { Grid(es)[|Grid(es)| - 1] }

  ghost predicate NoIdleGap(es: seq<Interval>)
    requires es != []
  {
    forall t :: First(es) <= t < Last(es) ==> Running(es, t) > 0
  }

  lemma {:induction false} StretchOf(g: seq<real>, t: real) returns (k: nat)
    requires Sorted(g) && g != [] && g[0] <= t < g[|g| - 1]
    ensures k + 1 < |g| && g[k] <= t < g[k + 1]
  {
    k := 0;
    while g[k + 1] <= t
      invariant k + 1 < |g| && g[k] <= t
      decreases |g| - k
    {
      k := k + 1;
    }
  }

  function Idle(es: seq<Interval>): real -> real {
    t => if Running(es, t) == 0 then 1.0 else 0.0
  }

  lemma IdleTimeIsPositive(es: seq<Interval>, t: real)
    requires es != [] && First(es) <= t < Last(es) && Running(es, t) == 0
    ensures StepSum(Grid(es), Idle(es)) > 0.0
  {
    var g := Grid(es);
    GridIsGrid(es);
    var k := StretchOf(g, t);
    forall x | x in Times(es) ensures x <= g[k] || t < x {
      var m :| 0 <= m < |g| && g[m] == x;
    }
    RunningStepsAtTimes(es, g[k], t);
    StepSumPositive(g, Idle(es), k);
  }

  lemma BusyPlusIdle(es: seq<Interval>, g: seq<real>)
    requires g != [] && Sorted(g)
    ensures StepSum(g, Busy(es)) + StepSum(g, Idle(es)) == g[|g| - 1] - g[0]
    ensures StepSum(g, Idle(es)) >= 0.0
  {
    StepSumConst(g, One(), 1.0);
    StepSumAdd(g, One(), Busy(es), Idle(es));
    StepSumNonNegative(g, Idle(es));
  }

  /** The shared time is at most the length of the build, and reaches it exactly when something
      was running all the time. */
  lemma AtMostBuildLength(es: seq<Interval>)
    requires es != []
    ensures TotalWeighted(es, |es|) <= Last(es) - First(es)
    ensures TotalWeighted(es, |es|) == Last(es) - First(es) <==> NoIdleGap(es)
  {
    GridIsGrid(es);
    Conservation(es, Grid(es));
    BusyPlusIdle(es, Grid(es));
    if NoIdleGap(es) {
      BusyThroughout(Grid(es), es);
    } else {
      var t :| First(es) <= t < Last(es) && Running(es, t) == 0;
      IdleTimeIsPositive(es, t);
    }
  }

  lemma {:induction false} BusyThroughout(g: seq<real>, es: seq<Interval>)
    requires Sorted(g) && g != []
    requires forall t :: g[0] <= t < g[|g| - 1] ==> Running(es, t) > 0
    ensures StepSum(g, Idle(es)) == 0.0
    decreases |g|
  {
    if |g| >= 2 {
      BusyThroughout(g[1..], es);
      if g[0] == g[1] {
        assert Area(g[1] - g[0], Idle(es)(g[0])) == 0.0;
      } else {
        assert g[0] < g[|g| - 1];
      }
    }
  }
}
