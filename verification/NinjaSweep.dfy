/**
 The event sweep of SummarizeEntries (vllm/tools/report_build_time_ninja.py): one pass over the
 sorted start and stop events gives every step its weighted duration.
 */
module NinjaSweep {
  import opened Sorting
  import opened StepFunctions
  import opened BuildShares

  /** One build step. */
  class Target {
    const start: real
    const end: real
    var targets: seq<string>
    var weightedDuration: real

    constructor (start: real, end: real)
      ensures this.start == start && this.end == end && targets == [] && weightedDuration == 0.0
    {
      this.start, this.end := start, end;
      targets, weightedDuration := [], 0.0;
    }

    function Duration(): real { end - start }

    method SetWeightedDuration(weightedDuration: real)
      modifies `weightedDuration
      ensures this.weightedDuration == weightedDuration
    {
      this.weightedDuration := weightedDuration;
    }
  }

  datatype Event = Event(time: real, isStart: bool, target: Target)

  /** What the sweep reports, or the exception it raises. */
  datatype Summary = IndexError | KeyError | Done(length: real, weightedTotal: real, totalCpuTime: real)

  function Start(t: Target): Event { Event(t.start, true, t) }

  function Stop(t: Target): Event { Event(t.end, false, t) }

  /** By time, then by name: "start" comes before "stop". */
  predicate EventLe(a: Event, b: Event) {
    a.time < b.time || (a.time == b.time && (a.isStart || !b.isStart))
  }

  function Intervals(entries: seq<Target>): seq<Interval> {
    seq(|entries|, i requires 0 <= i < |entries| => Interval(entries[i].start, entries[i].end))
  }

  function TimesOfEvents(ev: seq<Event>): seq<real> {
    seq(|ev|, i requires 0 <= i < |ev| => ev[i].time)
  }

  // ----- The event list -----

  function Events(entries: seq<Target>): seq<Event> {
    if entries == [] then []
    else Events(entries[..|entries| - 1]) + [Start(entries[|entries| - 1]), Stop(entries[|entries| - 1])]
  }

  lemma {:induction false} EventsAre(entries: seq<Target>, e: Event)
    ensures e in Events(entries) <==> e.target in entries && (e == Start(e.target) || e == Stop(e.target))
    decreases |entries|
  {
    if entries != [] {
      var front, last := entries[..|entries| - 1], entries[|entries| - 1];
      EventsAre(front, e);
      assert entries == front + [last];
      assert e in [Start(last), Stop(last)] <==> e == Start(last) || e == Stop(last);
    }
  }

  lemma {:induction false} EventsOnce(entries: seq<Target>, e: Event)
    requires Distinct(entries)
    ensures multiset(Events(entries))[e] <= 1
    decreases |entries|
  {
    if entries != [] {
      var front, last := entries[..|entries| - 1], entries[|entries| - 1];
      EventsOnce(front, e);
      EventsAre(front, e);
      assert last !in front;
      assert multiset(Events(entries)) == multiset(Events(front)) + multiset{Start(last), Stop(last)};
    }
  }

  /** `ev` lists the start and the stop of every entry, once each, in the order of the sort. */
  ghost predicate Timeline(entries: seq<Target>, ev: seq<Event>) {
    && Distinct(entries) && Distinct(ev) && SortedBy(ev, EventLe)
    && (forall t <- entries :: Start(t) in ev && Stop(t) in ev)
    && (forall e <- ev :: e.target in entries && (e == Start(e.target) || e == Stop(e.target)))
  }

  method SortEvents(events: seq<Event>, entries: seq<Target>) returns (ev: seq<Event>)
    requires Distinct(entries) && events == Events(entries)
    ensures Timeline(entries, ev) && |ev| == |events|
  {
    ev := Sort(events, EventLe);
    SortSorts(events, EventLe);
    SortMembers(events, EventLe);
    forall e | e in ev ensures multiset(ev)[e] <= 1 {
      EventsOnce(entries, e);
    }
    DistinctFromCounts(ev);
    forall e | e in ev ensures e.target in entries && (e == Start(e.target) || e == Stop(e.target)) {
      assert e in events;
      EventsAre(entries, e);
    }
    forall t | t in entries ensures Start(t) in ev && Stop(t) in ev {
      EventsAre(entries, Start(t));
      EventsAre(entries, Stop(t));
    }
  }

  // ----- What holds after the first `k` events -----

  ghost predicate IsStopped(ev: seq<Event>, k: nat, t: Target)
    requires k <= |ev|
  {
    Stop(t) in ev[..k]
  }

  /** Started and not stopped. */
  ghost predicate IsOpen(ev: seq<Event>, k: nat, t: Target)
    requires k <= |ev|
  {
    Start(t) in ev[..k] && Stop(t) !in ev[..k]
  }

  /** The table of the running steps is right before event `k`. */
  ghost predicate OpenTable(entries: seq<Target>, ev: seq<Event>, k: nat, running: set<Target>)
    requires k <= |ev|
  {
    && (forall t <- running :: t in entries && IsOpen(ev, k, t))
    && (forall t <- entries :: IsOpen(ev, k, t) ==> t in running)
  }

  lemma PrefixByTime(entries: seq<Target>, ev: seq<Event>, k: nat, e: Event)
    requires Timeline(entries, ev) && 0 < k < |ev| && ev[k - 1].time < ev[k].time && e in ev
    ensures e in ev[..k] <==> e.time <= ev[k - 1].time
  {
    var m :| 0 <= m < |ev| && ev[m] == e;
    if m < k {
      assert ev[..k][m] == e;
      assert m < k - 1 ==> EventLe(ev[m], ev[k - 1]);
    } else {
      assert m > k ==> EventLe(ev[k], ev[m]);
    }
  }

  lemma {:induction false} CountContaining(entries: seq<Target>, running: set<Target>, t: real)
    requires Distinct(entries)
    requires forall x :: x in running <==> x in entries && Interval(x.start, x.end).Contains(t)
    ensures |running| == Running(Intervals(entries), t)
    decreases |entries|
  {
    if entries == [] {
      assert running == {};
    } else {
      var x, rest := entries[0], entries[1..];
      assert entries == [x] + rest;
      assert Intervals(entries)[1..] == Intervals(rest);
      CountContaining(rest, running - {x}, t);
      if x in running { assert |running| == |running - {x}| + 1; } else { assert running - {x} == running; }
    }
  }

  /** Between two events at different times the running table holds the steps whose interval
      contains that time. */
  lemma OpenAreRunning(entries: seq<Target>, ev: seq<Event>, k: nat, running: set<Target>)
    requires Timeline(entries, ev) && 0 < k < |ev| && ev[k - 1].time < ev[k].time
    requires OpenTable(entries, ev, k, running)
    ensures |running| == Running(Intervals(entries), ev[k - 1].time)
  {
    var last := ev[k - 1].time;
    forall t | t in entries ensures IsOpen(ev, k, t) <==> Interval(t.start, t.end).Contains(last) {
      PrefixByTime(entries, ev, k, Start(t));
      PrefixByTime(entries, ev, k, Stop(t));
    }
    CountContaining(entries, running, last);
  }

  /** The accumulated time after `k` events. */
  function Accumulated(entries: seq<Target>, ev: seq<Event>, k: nat): real
    requires k <= |ev|
  {
    StepSum(TimesOfEvents(ev)[..k], Weight(Intervals(entries)))
  }

  /** The elapsed time shared among `n` running tasks. */
  function Increment(d: real, n: nat): real {
    if n == 0 then 0.0 else d / n as real
  }

  lemma IncrementIsArea(entries: seq<Target>, ev: seq<Event>, k: nat, running: set<Target>)
    requires Timeline(entries, ev) && 0 < k < |ev|
    requires OpenTable(entries, ev, k, running)
    ensures Area(ev[k].time - ev[k - 1].time, Weight(Intervals(entries))(ev[k - 1].time)) ==
            Increment(ev[k].time - ev[k - 1].time, |running|)
  {
    var d, last := ev[k].time - ev[k - 1].time, ev[k - 1].time;
    assert EventLe(ev[k - 1], ev[k]);
    if d == 0.0 {
      NothingElapsed(d, |running|, Weight(Intervals(entries))(last));
    } else {
      OpenAreRunning(entries, ev, k, running);
      DivideIsShare(d, |running|, Weight(Intervals(entries))(last));
    }
  }

  lemma NothingElapsed(d: real, n: nat, w: real)
    requires d == 0.0
    ensures Area(d, w) == 0.0 && Increment(d, n) == 0.0
  {}

  lemma AccumulateFirst(entries: seq<Target>, ev: seq<Event>, n: nat)
    requires ev != []
    ensures Accumulated(entries, ev, 1) == Accumulated(entries, ev, 0) + Increment(0.0, n)
  {}

  lemma AccumulateStep(entries: seq<Target>, ev: seq<Event>, k: nat)
    requires 0 < k < |ev|
    ensures Accumulated(entries, ev, k + 1) == Accumulated(entries, ev, k)
            + Area(ev[k].time - ev[k - 1].time, Weight(Intervals(entries))(ev[k - 1].time))
  {
    StepSumSnoc(TimesOfEvents(ev), Weight(Intervals(entries)), k);
  }

  lemma AccumulateLater(entries: seq<Target>, ev: seq<Event>, k: nat, running: set<Target>)
    requires Timeline(entries, ev) && 0 < k < |ev| && OpenTable(entries, ev, k, running)
    ensures Accumulated(entries, ev, k + 1) == Accumulated(entries, ev, k) + Increment(ev[k].time - ev[k - 1].time, |running|)
  {
    AccumulateStep(entries, ev, k);
    IncrementIsArea(entries, ev, k, running);
  }

  lemma DivideIsShare(d: real, n: nat, w: real)
    requires w == if n == 0 then 0.0 else 1.0 / n as real
    ensures Area(d, w) == Increment(d, n)
  {}

  lemma TimesOfTimeline(entries: seq<Target>, ev: seq<Event>, x: real)
    requires Timeline(entries, ev)
    ensures x in Times(Intervals(entries)) <==> x in TimesOfEvents(ev)
  {
    var es, g := Intervals(entries), TimesOfEvents(ev);
    TimesAre(es, x);
    if x in Times(es) {
      var i :| 0 <= i < |es| && (x == es[i].start || x == es[i].end);
      var e := if x == es[i].start then Start(entries[i]) else Stop(entries[i]);
      var m :| 0 <= m < |ev| && ev[m] == e;
      assert g[m] == x;
    }
    if x in g {
      var m :| 0 <= m < |g| && g[m] == x;
      var i :| 0 <= i < |entries| && entries[i] == ev[m].target;
      assert es[i] in es;
    }
  }

  lemma TimelineIsGrid(entries: seq<Target>, ev: seq<Event>)
    requires Timeline(entries, ev) && ev != []
    ensures IsGrid(Intervals(entries), TimesOfEvents(ev))
  {
    var g := TimesOfEvents(ev);
    forall i, j | 0 <= i <= j < |g| ensures g[i] <= g[j] {
      if i < j { assert EventLe(ev[i], ev[j]); }
    }
    forall x ensures x in Times(Intervals(entries)) <==> x in g {
      TimesOfTimeline(entries, ev, x);
    }
  }

  /** What a step is given when its stop is processed is its weighted duration. */
  lemma GivenIsIntegral(entries: seq<Target>, ev: seq<Event>, i: nat, a: nat, b: nat)
    requires Timeline(entries, ev) && i < |entries| && a <= b < |ev|
    requires ev[a] == Start(entries[i]) && ev[b] == Stop(entries[i])
    ensures Accumulated(entries, ev, b + 1) - Accumulated(entries, ev, a + 1) == WeightedDuration(Intervals(entries), i)
  {
    TimelineIsGrid(entries, ev);
    var g := TimesOfEvents(ev);
    ClippedSum(g, Weight(Intervals(entries)), a, b);
    IntegralOnAnyGrid(Intervals(entries), i, g);
  }

  /** The same, from the entry that the running table holds for the step. */
  lemma DueAtStop(entries: seq<Target>, ev: seq<Event>, k: nat, i: nat, recorded: real)
    requires Timeline(entries, ev) && i < |entries| && k < |ev| && ev[k] == Stop(entries[i])
    requires IsOpen(ev, k, entries[i]) && TimeAtStart(entries, ev, entries[i], recorded)
    ensures entries[i].start <= entries[i].end
    ensures Accumulated(entries, ev, k + 1) - recorded == WeightedDuration(Intervals(entries), i)
  {
    StopFollowsStart(entries, ev, k, entries[i]);
    var a :| 0 <= a < |ev| && ev[a] == Start(entries[i]) && recorded == Accumulated(entries, ev, a + 1);
    GivenIsIntegral(entries, ev, i, a, k);
  }

  /** The weighted duration of entry `j` if it stopped within the first `k` events. */
  function StoppedShare(entries: seq<Target>, ev: seq<Event>, k: nat, j: nat): real
    requires k <= |ev| && j < |entries|
  {
    if Stop(entries[j]) in ev[..k] then WeightedDuration(Intervals(entries), j) else 0.0
  }

  function StoppedTotal(entries: seq<Target>, ev: seq<Event>, k: nat, n: nat): real
    requires k <= |ev| && n <= |entries|
  {
    if n == 0 then 0.0 else StoppedTotal(entries, ev, k, n - 1) + StoppedShare(entries, ev, k, n - 1)
  }

  lemma PrefixGrows(ev: seq<Event>, k: nat, e: Event)
    requires Distinct(ev) && k < |ev|
    ensures e in ev[..k + 1] <==> e in ev[..k] || e == ev[k]
    ensures ev[k] !in ev[..k]
  {
    assert ev[..k + 1] == ev[..k] + [ev[k]];
  }

  lemma OneMoreStopped(entries: seq<Target>, ev: seq<Event>, k: nat, i: nat, j: nat)
    requires Distinct(entries) && Distinct(ev) && k < |ev| && i < |entries| && j < |entries| && ev[k].target == entries[i]
    ensures StoppedShare(entries, ev, k + 1, j) == StoppedShare(entries, ev, k, j)
            + if j == i && ev[k] == Stop(entries[i]) then WeightedDuration(Intervals(entries), i) else 0.0
  {
    PrefixGrows(ev, k, Stop(entries[j]));
    assert entries[j] == entries[i] <==> j == i;
  }

  lemma {:induction false} OneMoreEvent(entries: seq<Target>, ev: seq<Event>, k: nat, n: nat, i: nat)
    requires Distinct(entries) && Distinct(ev) && k < |ev| && n <= |entries| && i < |entries| && ev[k].target == entries[i]
    ensures StoppedTotal(entries, ev, k + 1, n) == StoppedTotal(entries, ev, k, n)
            + if i < n && ev[k] == Stop(entries[i]) then WeightedDuration(Intervals(entries), i) else 0.0
    decreases n
  {
    if n > 0 {
      OneMoreEvent(entries, ev, k, n - 1, i);
      OneMoreStopped(entries, ev, k, i, n - 1);
    }
  }

  lemma {:induction false} NoneStopped(entries: seq<Target>, ev: seq<Event>, n: nat)
    requires n <= |entries|
    ensures StoppedTotal(entries, ev, 0, n) == 0.0
  {
    if n > 0 {
      NoneStopped(entries, ev, n - 1);
    }
  }

  lemma StoppedAtLast(entries: seq<Target>, ev: seq<Event>, j: nat)
    requires j < |entries| && Stop(entries[j]) in ev
    ensures StoppedShare(entries, ev, |ev|, j) == WeightedDuration(Intervals(entries), j)
  {
    assert ev[..|ev|] == ev;
  }

  lemma {:induction false} AllStopped(entries: seq<Target>, ev: seq<Event>, n: nat)
    requires n <= |entries| && forall t <- entries :: Stop(t) in ev
    ensures StoppedTotal(entries, ev, |ev|, n) == TotalWeighted(Intervals(entries), n)
    decreases n
  {
    if n > 0 {
      AllStopped(entries, ev, n - 1);
      StoppedAtLast(entries, ev, n - 1);
    }
  }

  /** The entries stopped so far have what they are due; nothing else of theirs changed. */
  ghost predicate Settled(entries: seq<Target>, ev: seq<Event>, k: nat)
    requires k <= |ev|
    reads entries
  {
    forall i {:trigger IsStopped(ev, k, entries[i])} :: 0 <= i < |entries| && IsStopped(ev, k, entries[i]) ==>
      && entries[i].start <= entries[i].end
      && entries[i].weightedDuration == WeightedDuration(Intervals(entries), i)
  }

  /** Each open step was recorded with the accumulated time at its own start. */
  ghost predicate Recorded(entries: seq<Target>, ev: seq<Event>, k: nat, running: map<Target, real>)
    requires k <= |ev|
  {
    && OpenTable(entries, ev, k, running.Keys)
    && forall t <- running :: TimeAtStart(entries, ev, t, running[t])
  }

  ghost predicate TimeAtStart(entries: seq<Target>, ev: seq<Event>, t: Target, value: real) {
    exists a :: 0 <= a < |ev| && ev[a] == Start(t) && value == Accumulated(entries, ev, a + 1)
  }

  lemma StopFollowsStart(entries: seq<Target>, ev: seq<Event>, k: nat, t: Target)
    requires Timeline(entries, ev) && k < |ev| && t in entries && ev[k] == Stop(t)
    ensures IsOpen(ev, k, t) <==> t.start <= t.end
  {
    PrefixGrows(ev, k, Stop(t));
    var m :| 0 <= m < |ev| && ev[m] == Start(t);
    if m < k {
      assert EventLe(ev[m], ev[k]);
      assert ev[..k][m] == Start(t);
    } else {
      assert EventLe(ev[k], ev[m]);
    }
  }

  lemma StopIsLater(ev: seq<Event>, k: nat, t: Target)
    requires SortedBy(ev, EventLe) && k < |ev| && ev[k] == Start(t)
    ensures t.start <= t.end ==> Stop(t) !in ev[..k]
  {
    forall m | 0 <= m < k && t.start <= t.end ensures ev[m] != Stop(t) {
      assert EventLe(ev[m], ev[k]);
    }
  }

  lemma OpenAfterStart(ev: seq<Event>, k: nat, x: Target, t: Target)
    requires Distinct(ev) && k < |ev| && ev[k] == Start(x) && Stop(x) !in ev[..k]
    ensures IsOpen(ev, k + 1, t) <==> IsOpen(ev, k, t) || t == x
  {
    PrefixGrows(ev, k, Start(t));
    PrefixGrows(ev, k, Stop(t));
    assert Start(t) == Start(x) ==> t == x;
  }

  lemma OpenAfterStop(ev: seq<Event>, k: nat, x: Target, t: Target)
    requires Distinct(ev) && k < |ev| && ev[k] == Stop(x)
    ensures IsOpen(ev, k + 1, t) <==> IsOpen(ev, k, t) && t != x
  {
    PrefixGrows(ev, k, Start(t));
    PrefixGrows(ev, k, Stop(t));
    assert Stop(t) == Stop(x) ==> t == x;
  }

  lemma RecordStart(entries: seq<Target>, ev: seq<Event>, k: nat, running: map<Target, real>, now: real)
    requires Distinct(ev) && k < |ev| && Recorded(entries, ev, k, running)
    requires ev[k] == Start(ev[k].target) && ev[k].target in entries && now == Accumulated(entries, ev, k + 1)
    requires Stop(ev[k].target) !in ev[..k]
    ensures Recorded(entries, ev, k + 1, running[ev[k].target := now])
  {
    var x := ev[k].target;
    assert TimeAtStart(entries, ev, x, now);
    forall t ensures IsOpen(ev, k + 1, t) <==> IsOpen(ev, k, t) || t == x {
      OpenAfterStart(ev, k, x, t);
    }
    assert OpenTable(entries, ev, k + 1, running[x := now].Keys);
  }

  lemma RecordStop(entries: seq<Target>, ev: seq<Event>, k: nat, running: map<Target, real>)
    requires Distinct(ev) && k < |ev| && Recorded(entries, ev, k, running)
    requires ev[k] == Stop(ev[k].target)
    ensures Recorded(entries, ev, k + 1, running - {ev[k].target})
  {
    forall t ensures IsOpen(ev, k + 1, t) <==> IsOpen(ev, k, t) && t != ev[k].target {
      OpenAfterStop(ev, k, ev[k].target, t);
    }
    assert OpenTable(entries, ev, k + 1, (running - {ev[k].target}).Keys);
  }

  /** The figures of a finished sweep. */
  ghost predicate Swept(entries: seq<Target>, weightedTotal: real)
    reads entries
  {
    var es := Intervals(entries);
    && (forall i :: 0 <= i < |entries| ==> entries[i].weightedDuration == WeightedDuration(es, i))
    && weightedTotal == TotalWeighted(es, |es|)
  }

  /** Accumulates the weighted time up to event `k`. */
  method Elapse(entries: seq<Target>, ev: seq<Event>, k: nat, runningTasks: map<Target, real>, lastTime: real, lastWeightedTime: real)
    returns (now: real)
    requires Timeline(entries, ev) && k < |ev|
    requires OpenTable(entries, ev, k, runningTasks.Keys)
    requires lastTime == if k == 0 then ev[0].time else ev[k - 1].time
    requires lastWeightedTime == Accumulated(entries, ev, k)
    ensures now == Accumulated(entries, ev, k + 1)
  {
    if k == 0 {
      AccumulateFirst(entries, ev, |runningTasks|);
    } else {
      AccumulateLater(entries, ev, k, runningTasks.Keys);
    }
    now := lastWeightedTime;
    var numRunning := |runningTasks|;
    assert |runningTasks.Keys| == numRunning;
    if numRunning > 0 {
      now := now + (ev[k].time - lastTime) / numRunning as real;
    }
    assert now == lastWeightedTime + Increment(ev[k].time - lastTime, numRunning);
  }

  /** Handles stop event `k` of an open step. */
  method StopTask(entries: seq<Target>, ev: seq<Event>, k: nat, runningTasks: map<Target, real>, now: real, target: Target, ghost i: nat)
    returns (weightedDuration: real)
    requires Timeline(entries, ev) && k < |ev| && i < |entries| && target == entries[i] && ev[k] == Stop(target)
    requires target in runningTasks && IsOpen(ev, k, target)
    requires TimeAtStart(entries, ev, target, runningTasks[target])
    requires now == Accumulated(entries, ev, k + 1) && Settled(entries, ev, k)
    modifies target`weightedDuration
    ensures weightedDuration == WeightedDuration(Intervals(entries), i)
    ensures Settled(entries, ev, k + 1)
  {
    DueAtStop(entries, ev, k, i, runningTasks[target]);
    weightedDuration := now - runningTasks[target];
    target.SetWeightedDuration(weightedDuration);
    forall j | 0 <= j < |entries| && IsStopped(ev, k + 1, entries[j])
      ensures entries[j].start <= entries[j].end && entries[j].weightedDuration == WeightedDuration(Intervals(entries), j)
    {
      PrefixGrows(ev, k, Stop(entries[j]));
      if j != i { assert Stop(entries[j]) != ev[k] && IsStopped(ev, k, entries[j]); }
    }
  }

  lemma StoppedEndsLate(entries: seq<Target>, ev: seq<Event>, k: nat, i: nat)
    requires k <= |ev| && i < |entries| && Settled(entries, ev, k)
    ensures IsStopped(ev, k, entries[i]) ==> entries[i].start <= entries[i].end
  {}

  lemma StartSettlesNothing(entries: seq<Target>, ev: seq<Event>, k: nat)
    requires Timeline(entries, ev) && k < |ev| && ev[k].isStart && Settled(entries, ev, k)
    ensures Settled(entries, ev, k + 1) && Stop(ev[k].target) !in ev[..k]
  {
    var i :| 0 <= i < |entries| && entries[i] == ev[k].target;
    StoppedEndsLate(entries, ev, k, i);
    StopIsLater(ev, k, entries[i]);
    forall j | 0 <= j < |entries| ensures IsStopped(ev, k + 1, entries[j]) <==> IsStopped(ev, k, entries[j]) {
      PrefixGrows(ev, k, Stop(entries[j]));
    }
  }

  lemma NoneLeft(entries: seq<Target>, ev: seq<Event>, running: map<Target, real>)
    requires Timeline(entries, ev) && Recorded(entries, ev, |ev|, running)
    ensures |running| == 0
  {
    assert ev[..|ev|] == ev;
    if t :| t in running {}
  }

  /** The state of the scan before event `k`. */
  ghost predicate ScanState(entries: seq<Target>, ev: seq<Event>, k: nat, runningTasks: map<Target, real>,
                            lastTime: real, lastWeightedTime: real, weightedTotal: real)
    requires k <= |ev| && ev != []
    reads entries
  {
    && lastTime == (if k == 0 then ev[0].time else ev[k - 1].time)
    && Recorded(entries, ev, k, runningTasks)
    && lastWeightedTime == Accumulated(entries, ev, k)
    && Settled(entries, ev, k)
    && weightedTotal == StoppedTotal(entries, ev, k, |entries|)
  }

  ghost predicate EndsEarly(entries: seq<Target>) {
    exists t <- entries :: t.end < t.start
  }

  lemma StartStep(entries: seq<Target>, ev: seq<Event>, k: nat, runningTasks: map<Target, real>,
                  lastTime: real, lastWeightedTime: real, weightedTotal: real, now: real)
    requires Timeline(entries, ev) && k < |ev| && ev[k].isStart && now == Accumulated(entries, ev, k + 1)
    requires ScanState(entries, ev, k, runningTasks, lastTime, lastWeightedTime, weightedTotal)
    ensures ScanState(entries, ev, k + 1, runningTasks[ev[k].target := now], ev[k].time, now, weightedTotal)
  {
    var i :| 0 <= i < |entries| && entries[i] == ev[k].target;
    OneMoreEvent(entries, ev, k, |entries|, i);
    StartSettlesNothing(entries, ev, k);
    RecordStart(entries, ev, k, runningTasks, now);
  }

  /** The stop of a step in the table. */
  method ProcessStop(entries: seq<Target>, ev: seq<Event>, k: nat, runningTasks: map<Target, real>,
                     ghost lastTime: real, ghost lastWeightedTime: real, weightedTotal: real, now: real)
    returns (running: map<Target, real>, total: real)
    requires Timeline(entries, ev) && k < |ev| && !ev[k].isStart && now == Accumulated(entries, ev, k + 1)
    requires ScanState(entries, ev, k, runningTasks, lastTime, lastWeightedTime, weightedTotal)
    requires ev[k].target in runningTasks
    modifies ev[k].target`weightedDuration
    ensures ScanState(entries, ev, k + 1, running, ev[k].time, now, total)
  {
    var target := ev[k].target;
    ghost var i :| 0 <= i < |entries| && entries[i] == target;
    OneMoreEvent(entries, ev, k, |entries|, i);
    var weightedDuration := StopTask(entries, ev, k, runningTasks, now, target, i);
    total := weightedTotal + weightedDuration;
    RecordStop(entries, ev, k, runningTasks);
    running := runningTasks - {target};
  }

  /** One turn of the loop; it fails on the stop of a step that has not started. */
  method ProcessEvent(entries: seq<Target>, ev: seq<Event>, k: nat, runningTasks: map<Target, real>,
                      lastTime: real, lastWeightedTime: real, weightedTotal: real)
    returns (ok: bool, running: map<Target, real>, now: real, total: real)
    requires Timeline(entries, ev) && k < |ev|
    requires ScanState(entries, ev, k, runningTasks, lastTime, lastWeightedTime, weightedTotal)
    modifies ev[k].target`weightedDuration
    ensures !ok ==> EndsEarly(entries)
    ensures ok ==> ScanState(entries, ev, k + 1, running, ev[k].time, now, total)
  {
    var target := ev[k].target;
    now := Elapse(entries, ev, k, runningTasks, lastTime, lastWeightedTime);
    ok, running, total := true, runningTasks, weightedTotal;
    if ev[k].isStart {
      StartStep(entries, ev, k, runningTasks, lastTime, lastWeightedTime, weightedTotal, now);
      running := running[target := now];
    } else if target !in runningTasks {
      StopFollowsStart(entries, ev, k, target);
      ok := false;
    } else {
      running, total := ProcessStop(entries, ev, k, runningTasks, lastTime, lastWeightedTime, weightedTotal, now);
    }
  }

  lemma ScanStart(entries: seq<Target>, ev: seq<Event>)
    requires ev != []
    ensures ScanState(entries, ev, 0, map[], ev[0].time, 0.0, 0.0)
  {
    NoneStopped(entries, ev, |entries|);
  }

  lemma ScanComplete(entries: seq<Target>, ev: seq<Event>, runningTasks: map<Target, real>, lastTime: real, lastWeightedTime: real, weightedTotal: real)
    requires Timeline(entries, ev) && ev != []
    requires ScanState(entries, ev, |ev|, runningTasks, lastTime, lastWeightedTime, weightedTotal)
    ensures |runningTasks| == 0
    ensures forall t <- entries :: t.start <= t.end
    ensures Swept(entries, weightedTotal)
  {
    NoneLeft(entries, ev, runningTasks);
    AllStopped(entries, ev, |entries|);
    forall i | 0 <= i < |entries| ensures IsStopped(ev, |ev|, entries[i]) {
      assert ev[..|ev|] == ev && entries[i] in entries;
    }
  }

  /** All events in order; it stops early on the stop of a step that has not started. */
  method ScanEvents(entries: seq<Target>, ev: seq<Event>)
    returns (ok: bool, runningTasks: map<Target, real>, lastTime: real, lastWeightedTime: real, weightedTotal: real)
    requires Timeline(entries, ev) && ev != []
    modifies (set t | t in entries)`weightedDuration
    ensures !ok ==> EndsEarly(entries)
    ensures ok ==> ScanState(entries, ev, |ev|, runningTasks, lastTime, lastWeightedTime, weightedTotal)
  {
    ok, runningTasks, lastTime, lastWeightedTime, weightedTotal := true, map[], ev[0].time, 0.0, 0.0;
    ScanStart(entries, ev);
    for k := 0 to |ev|
      invariant ok && ScanState(entries, ev, k, runningTasks, lastTime, lastWeightedTime, weightedTotal)
    {
      assert ev[k].target in entries;
      ok, runningTasks, lastWeightedTime, weightedTotal :=
        ProcessEvent(entries, ev, k, runningTasks, lastTime, lastWeightedTime, weightedTotal);
      if !ok {
        return;
      }
      lastTime := ev[k].time;
    }
  }

  /** The scan over the sorted events. It raises KeyError exactly when a step ends before it
      starts; otherwise every step gets its weighted duration and none is left running. */
  method Scan(entries: seq<Target>, ev: seq<Event>) returns (ok: bool, weightedTotal: real)
    requires Timeline(entries, ev) && ev != []
    modifies (set t | t in entries)`weightedDuration
    ensures ok <==> forall t <- entries :: t.start <= t.end
    ensures ok ==> Swept(entries, weightedTotal)
  {
    var runningTasks, lastTime, lastWeightedTime;
    ok, runningTasks, lastTime, lastWeightedTime, weightedTotal := ScanEvents(entries, ev);
    if ok {
      ScanComplete(entries, ev, runningTasks, lastTime, lastWeightedTime, weightedTotal);
      assert |runningTasks| == 0;
    }
  }

  lemma EventsSnoc(entries: seq<Target>, k: nat)
    requires k < |entries|
    ensures Events(entries[..k + 1]) == Events(entries[..k]) + [Start(entries[k]), Stop(entries[k])]
  {
    assert entries[..k + 1][..k] == entries[..k];
  }

  /** Earliest and latest as the first loop keeps them: -1 stands for "no entry yet". */
  ghost predicate Extremes(entries: seq<Target>, earliest: real, latest: real) {
    if entries == [] then earliest == -1.0 && latest == 0.0
    else
      && (forall t <- entries :: 0.0 <= earliest <= t.start && t.end <= latest)
      && (exists t <- entries :: t.start == earliest)
      && (exists t <- entries :: t.end == latest || latest == 0.0)
  }

  lemma IntervalsBetween(entries: seq<Target>, earliest: real, latest: real)
    requires forall t <- entries :: earliest <= t.start <= t.end <= latest
    ensures forall e <- Intervals(entries) :: earliest <= e.start <= e.end <= latest
  {
    forall e | e in Intervals(entries) ensures earliest <= e.start <= e.end <= latest {
      var i :| 0 <= i < |entries| && Intervals(entries)[i] == e;
      assert entries[i] in entries;
    }
  }

  lemma ExtremesAreTimes(entries: seq<Target>, earliest: real, latest: real)
    requires entries != [] && Extremes(entries, earliest, latest) && ProperTimes(entries)
    ensures earliest in Times(Intervals(entries)) && latest in Times(Intervals(entries))
  {
    var es := Intervals(entries);
    var i :| 0 <= i < |entries| && entries[i].start == earliest;
    var j :| 0 <= j < |entries| && (entries[j].end == latest || latest == 0.0);
    assert entries[j] in entries;
    TimesOf(es, i);
    TimesOf(es, j);
  }

  lemma ExtremesAreEnds(entries: seq<Target>, earliest: real, latest: real)
    requires entries != [] && Extremes(entries, earliest, latest)
    requires ProperTimes(entries)
    ensures earliest == First(Intervals(entries)) && latest == Last(Intervals(entries))
  {
    ExtremesAreTimes(entries, earliest, latest);
    IntervalsBetween(entries, earliest, latest);
    GridIsGrid(Intervals(entries));
    EndsBound(Intervals(entries), Grid(Intervals(entries)), earliest, latest);
  }

  lemma EndsBound(es: seq<Interval>, g: seq<real>, earliest: real, latest: real)
    requires IsGrid(es, g) && earliest in Times(es) && latest in Times(es)
    requires forall e <- es :: earliest <= e.start <= e.end <= latest
    ensures g[0] == earliest && g[|g| - 1] == latest
  {
    TimesAre(es, g[0]);
    TimesAre(es, g[|g| - 1]);
    assert earliest in g && latest in g;
  }

  ghost predicate ProperTimes(entries: seq<Target>) {
    forall t <- entries :: 0.0 <= t.start <= t.end
  }

  lemma ExtremesOneMore(entries: seq<Target>, t: Target, earliest: real, latest: real)
    requires 0.0 <= t.start <= t.end && Extremes(entries, earliest, latest)
    ensures Extremes(entries + [t],
              if earliest < 0.0 || t.start < earliest then t.start else earliest,
              if t.end > latest then t.end else latest)
  {
    var more := entries + [t];
    assert more[|entries|] == t && t in more;
    assert forall u <- entries :: u in more;
  }

  /** The figures after the first `k` entries. */
  ghost predicate Collected(entries: seq<Target>, k: nat, events: seq<Event>, earliest: real, latest: real, totalCpuTime: real)
    requires k <= |entries|
  {
    && events == Events(entries[..k])
    && totalCpuTime == TotalLength(Intervals(entries), k)
    && (ProperTimes(entries) ==> Extremes(entries[..k], earliest, latest))
  }

  lemma CollectOne(entries: seq<Target>, k: nat, events: seq<Event>, earliest: real, latest: real, totalCpuTime: real)
    requires k < |entries| && Collected(entries, k, events, earliest, latest, totalCpuTime)
    ensures var t := entries[k];
            Collected(entries, k + 1, events + [Start(t), Stop(t)],
              if earliest < 0.0 || t.start < earliest then t.start else earliest,
              if t.end > latest then t.end else latest,
              totalCpuTime + t.Duration())
  {
    EventsSnoc(entries, k);
    assert entries[..k + 1] == entries[..k] + [entries[k]] && entries[k] in entries;
    if ProperTimes(entries) { ExtremesOneMore(entries[..k], entries[k], earliest, latest); }
  }

  /** The first loop: the events, and the figures that need no sweep. */
  method CollectEvents(entries: seq<Target>) returns (events: seq<Event>, earliest: real, latest: real, totalCpuTime: real)
    ensures events == Events(entries)
    ensures totalCpuTime == TotalLength(Intervals(entries), |entries|)
    ensures ProperTimes(entries) ==> Extremes(entries, earliest, latest)
  {
    events, earliest, latest, totalCpuTime := [], -1.0, 0.0, 0.0;
    for k := 0 to |entries|
      invariant Collected(entries, k, events, earliest, latest, totalCpuTime)
    {
      CollectOne(entries, k, events, earliest, latest, totalCpuTime);
      var target := entries[k];
      if earliest < 0.0 || target.start < earliest {
        earliest := target.start;
      }
      if target.end > latest {
        latest := target.end;
      }
      totalCpuTime := totalCpuTime + target.Duration();
      events := events + [Start(target), Stop(target)];
    }
    assert entries[..|entries|] == entries;
  }

  /** The figures of a build whose steps all end after they start. */
  ghost predicate Figures(es: seq<Interval>, length: real, weightedTotal: real)
    requires es != []
  {
    && length == Last(es) - First(es)
    && weightedTotal <= length
    && (weightedTotal == length <==> NoIdleGap(es))
  }

  lemma IntervalsProper(entries: seq<Target>)
    requires entries != [] && forall t <- entries :: t.start <= t.end
    ensures Proper(Intervals(entries))
  {
    forall e | e in Intervals(entries) ensures e.start <= e.end {
      var i :| 0 <= i < |entries| && Intervals(entries)[i] == e;
      assert entries[i] in entries;
    }
  }

  lemma FiguresHold(entries: seq<Target>, earliest: real, latest: real)
    requires entries != [] && ProperTimes(entries) && Extremes(entries, earliest, latest)
    ensures Figures(Intervals(entries), latest - earliest, TotalWeighted(Intervals(entries), |entries|))
  {
    AtMostBuildLength(Intervals(entries));
    ExtremesAreEnds(entries, earliest, latest);
  }

  /** Builds the event list, sorts it and scans it; `Done` reports the length of the build, the
      shared time and the sum of the elapsed times. */
  method SummarizeEntries(entries: seq<Target>) returns (r: Summary)
    requires Distinct(entries)
    modifies (set t | t in entries)`weightedDuration
    ensures r.IndexError? <==> entries == []
    ensures r.KeyError? <==> exists t <- entries :: t.end < t.start
    ensures r.Done? ==> Swept(entries, r.weightedTotal)
    ensures r.Done? ==> r.totalCpuTime == TotalLength(Intervals(entries), |entries|) && r.weightedTotal <= r.totalCpuTime
    ensures r.Done? && ProperTimes(entries) ==> Figures(Intervals(entries), r.length, r.weightedTotal)
  {
    var events, earliest, latest, totalCpuTime := CollectEvents(entries);
    if events == [] {
      return IndexError;
    }
    var ev := SortEvents(events, entries);
    var ok, weightedTotal := Scan(entries, ev);
    if !ok {
      return KeyError;
    }
    IntervalsProper(entries);
    AtMostCpuTime(Intervals(entries));
    if ProperTimes(entries) { FiguresHold(entries, earliest, latest); }
    r := Done(latest - earliest, weightedTotal, totalCpuTime);
  }
}
