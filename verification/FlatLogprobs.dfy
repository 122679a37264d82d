/**
 Flat logprobs (vllm/vllm/logprobs.py): parallel lists that stand for a list of dictionaries.
 A dictionary handed in is the list of its items; dictionaries read back are maps.
 */
module FlatLogprobs {
  import opened Numbers
  import opened Options

  datatype Logprob = Logprob(logprob: real, rank: Option<int>, decodedToken: Option<string>)

  type Items = seq<(int, Logprob)>

  /** The dictionary built from items in order: of several items with one key the last wins. */
  function Dict(items: Items): map<int, Logprob> {
    if items == [] then map[]
    else Dict(items[..|items| - 1])[items[|items| - 1].0 := items[|items| - 1].1]
  }

  lemma DictSnoc(items: Items, k: nat)
    requires k < |items|
    ensures Dict(items[..k + 1]) == Dict(items[..k])[items[k].0 := items[k].1]
  {
    assert items[..k + 1][..k] == items[..k];
  }

  lemma {:induction false} DictKeys(items: Items, key: int)
    ensures key in Dict(items) <==> exists k :: 0 <= k < |items| && items[k].0 == key
    decreases |items|
  {
    if items != [] {
      var front, last := items[..|items| - 1], items[|items| - 1];
      DictKeys(front, key);
      assert Dict(items) == Dict(front)[last.0 := last.1];
    }
  }

  /** What is read back for a key is its last item. */
  lemma {:induction false} DictLastWins(items: Items, key: int) returns (k: nat)
    requires key in Dict(items)
    ensures k < |items| && items[k] == (key, Dict(items)[key])
    ensures forall j :: k < j < |items| ==> items[j].0 != key
    decreases |items|
  {
    var front, last := items[..|items| - 1], items[|items| - 1];
    assert Dict(items) == Dict(front)[last.0 := last.1];
    if last.0 == key {
      k := |front|;
    } else {
      k := DictLastWins(front, key);
    }
  }

  lemma {:induction false} DictOfTail(items: Items)
    requires items != []
    ensures Dict(items) - {items[0].0} == Dict(items[1..]) - {items[0].0}
    decreases |items|
  {
    if |items| > 1 {
      var front := items[..|items| - 1];
      DictOfTail(front);
      assert items[1..][..|items| - 2] == front[1..];
      UpdateThenDrop(Dict(front), items[|items| - 1].0, items[|items| - 1].1, items[0].0);
      UpdateThenDrop(Dict(front[1..]), items[|items| - 1].0, items[|items| - 1].1, items[0].0);
    } else {
      assert items[..0] == [] && items[1..] == [];
    }
  }

  lemma UpdateThenDrop<K, V>(m: map<K, V>, k: K, v: V, t: K)
    ensures m[k := v] - {t} == if k == t then m - {t} else (m - {t})[k := v]
  {}

  /** A sampled token that shows up again among the following items is inserted twice, which is
      the same as inserting the later item only. */
  lemma {:induction false} SampledTokenAgain(items: Items, k: nat)
    requires 1 <= k < |items| && items[k].0 == items[0].0
    ensures Dict(items) == Dict(items[1..])
    decreases |items|
  {
    var front, last := items[..|items| - 1], items[|items| - 1];
    assert items[1..][..|items| - 2] == front[1..] && items[1..][|items| - 2] == last;
    if k < |front| {
      SampledTokenAgain(front, k);
    } else {
      DictOfTail(front);
      var a, b := Dict(front), Dict(front[1..]);
      assert a[last.0 := last.1] == (a - {last.0})[last.0 := last.1];
      assert b[last.0 := last.1] == (b - {last.0})[last.0 := last.1];
    }
  }

  // ----- The columns -----

  /** One row per (position, rank). */
  function Row(tokenIds: seq<int>, logprobs: seq<real>, ranks: seq<Option<int>>, decoded: seq<Option<string>>, i: nat): (int, Logprob)
    requires i < |tokenIds| && i < |logprobs| && i < |ranks| && i < |decoded|
  {
    (tokenIds[i], Logprob(logprobs[i], ranks[i], decoded[i]))
  }

  /** zip stops with the shortest list. */
  function ZipLength(tokenIds: seq<int>, logprobs: seq<real>, ranks: seq<Option<int>>, decoded: seq<Option<string>>): nat {
    Min(Min(|tokenIds|, |logprobs|), Min(|ranks|, |decoded|))
  }

  function Zip(tokenIds: seq<int>, logprobs: seq<real>, ranks: seq<Option<int>>, decoded: seq<Option<string>>): Items {
    seq(ZipLength(tokenIds, logprobs, ranks, decoded),
      i requires 0 <= i < |tokenIds| && i < |logprobs| && i < |ranks| && i < |decoded| => Row(tokenIds, logprobs, ranks, decoded, i))
  }

  /** The positions that a slice with positive step selects, by the rules of Python slices. */
  datatype Slice = Slice(start: Option<int>, stop: Option<int>, step: nat)

  function Clamp(i: Option<int>, default: int, n: nat): (r: nat)
    requires 0 <= default <= n
    ensures r <= n
  {
    match i
    case None => default
    case Some(v) => if v < 0 then (if v + n < 0 then 0 else v + n) else if v > n then n else v
  }

  function Positions(lo: nat, hi: nat, step: nat): (ps: seq<nat>)
    requires step > 0
    ensures forall i :: 0 <= i < |ps| ==> lo <= ps[i] < hi
    ensures forall i, j :: 0 <= i < j < |ps| ==> ps[i] < ps[j]
    decreases hi - lo
  {
    if lo >= hi then [] else [lo] + Positions(lo + step, hi, step)
  }

  function SlicePositions(s: Slice, n: nat): (ps: seq<nat>)
    requires s.step > 0
    ensures forall i :: 0 <= i < |ps| ==> ps[i] < n
    ensures forall i, j :: 0 <= i < j < |ps| ==> ps[i] < ps[j]
  {
    Positions(Clamp(s.start, 0, n), Clamp(s.stop, n, n), s.step)
  }

  /** Where a bound of a slice comes to: counted from the end if it is negative, and moved to the
      nearer end if it is outside. */
  ghost predicate IsBound(i: Option<int>, default: int, n: nat, b: int) {
    match i
    case None => b == default
    case Some(v) =>
      var w := if v < 0 then v + n else v;
      (0 <= w <= n ==> b == w) && (w < 0 ==> b == 0) && (w > n ==> b == n)
  }

  /** From `lo` on in equal steps, as long as it is below `hi`. */
  ghost predicate StepsUp(ps: seq<nat>, lo: int, hi: int, step: nat) {
    && (forall i :: 0 <= i < |ps| ==> ps[i] == lo + i * step && ps[i] < hi)
    && lo + |ps| * step >= hi
  }

  lemma {:induction false} PositionsStep(lo: nat, hi: nat, step: nat)
    requires step > 0
    ensures StepsUp(Positions(lo, hi, step), lo, hi, step)
    decreases hi - lo
  {
    if lo < hi {
      var rest := Positions(lo + step, hi, step);
      PositionsStep(lo + step, hi, step);
      OneStepBefore(rest, lo, hi, step);
    }
  }

  lemma OneStepBefore(rest: seq<nat>, lo: nat, hi: nat, step: nat)
    requires lo < hi && StepsUp(rest, lo + step, hi, step)
    ensures StepsUp([lo] + rest, lo, hi, step)
  {
    var ps := [lo] + rest;
    forall i | 0 <= i < |ps| ensures ps[i] == lo + i * step {
      if i > 0 {
        assert ps[i] == rest[i - 1];
        OneMoreStep(i - 1, step);
      }
    }
    OneMoreStep(|rest|, step);
  }

  lemma OneMoreStep(i: nat, step: nat)
    ensures (i + 1) * step == i * step + step
  {}

  /** What a slice selects: nothing between its bounds is skipped, and nothing else is taken. */
  lemma SliceSelects(s: Slice, n: nat) returns (lo: int, hi: int)
    requires s.step > 0
    ensures IsBound(s.start, 0, n, lo) && IsBound(s.stop, n, n, hi)
    ensures StepsUp(SlicePositions(s, n), lo, hi, s.step)
  {
    lo, hi := Clamp(s.start, 0, n), Clamp(s.stop, n, n);
    PositionsStep(lo, hi, s.step);
  }

  function Pick<T>(xs: seq<T>, ps: seq<nat>): seq<T>
    requires forall i :: 0 <= i < |ps| ==> ps[i] < |xs|
  {
    seq(|ps|, i requires 0 <= i < |ps| => xs[ps[i]])
  }

  // ----- Rows and the list of dictionaries that they stand for -----

  lemma ZipSnoc(ts: seq<int>, ls: seq<real>, rs: seq<Option<int>>, ds: seq<Option<string>>, t: int, l: Logprob)
    requires |ts| == |ls| == |rs| == |ds|
    ensures Zip(ts + [t], ls + [l.logprob], rs + [l.rank], ds + [l.decodedToken]) == Zip(ts, ls, rs, ds) + [(t, l)]
  {}

  lemma ZipSlice(ts: seq<int>, ls: seq<real>, rs: seq<Option<int>>, ds: seq<Option<string>>, lo: int, hi: int)
    requires |ts| == |ls| == |rs| == |ds| && 0 <= lo <= hi <= |ts|
    ensures Zip(ts[lo..hi], ls[lo..hi], rs[lo..hi], ds[lo..hi]) == Zip(ts, ls, rs, ds)[lo..hi]
  {}

  /** Positions are ranges of rows, in order. After a slice, rows between two positions may
      belong to neither. */
  ghost predicate Ranges(starts: seq<int>, ends: seq<int>, n: nat) {
    && |starts| == |ends|
    && (forall p :: 0 <= p < |starts| ==> 0 <= starts[p] <= ends[p] <= n)
    && forall p, q :: 0 <= p < q < |starts| ==> ends[p] <= starts[q]
  }

  /** No rows before, between or after the positions. */
  ghost predicate Contiguous(starts: seq<int>, ends: seq<int>, n: nat)
    requires Ranges(starts, ends, n)
  {
    && (starts == [] ==> n == 0)
    && (starts != [] ==> starts[0] == 0 && ends[|ends| - 1] == n)
    && forall p :: 0 <= p < |starts| - 1 ==> ends[p] == starts[p + 1]
  }

  function ViewOf(rows: Items, starts: seq<int>, ends: seq<int>): (v: seq<map<int, Logprob>>)
    requires Ranges(starts, ends, |rows|)
  {
    seq(|starts|, p requires 0 <= p < |starts| => Dict(rows[starts[p]..ends[p]]))
  }

  lemma RangesAppended(starts: seq<int>, ends: seq<int>, n: nat, more: nat)
    requires Ranges(starts, ends, n)
    ensures Ranges(starts + [n], ends + [n + more], n + more)
    ensures Contiguous(starts, ends, n) ==> Contiguous(starts + [n], ends + [n + more], n + more)
  {}

  lemma SameRange(rows: Items, items: Items, from: int, to: int)
    requires 0 <= from <= to <= |rows|
    ensures (rows + items)[from..to] == rows[from..to]
  {}

  lemma NewRange(rows: Items, items: Items)
    ensures (rows + items)[|rows|..|rows| + |items|] == items
  {}

  lemma OldPositions(rows: Items, starts: seq<int>, ends: seq<int>, items: Items)
    requires Ranges(starts, ends, |rows|)
    ensures Ranges(starts, ends, |rows + items|) && ViewOf(rows + items, starts, ends) == ViewOf(rows, starts, ends)
  {
    forall p | 0 <= p < |starts| ensures (rows + items)[starts[p]..ends[p]] == rows[starts[p]..ends[p]] {
      SameRange(rows, items, starts[p], ends[p]);
    }
  }

  lemma OnePosition(rows: Items, starts: seq<int>, ends: seq<int>, from: int, to: int, items: Items)
    requires 0 <= from <= to <= |rows| && rows[from..to] == items
    requires Ranges(starts, ends, |rows|) && Ranges(starts + [from], ends + [to], |rows|)
    ensures ViewOf(rows, starts + [from], ends + [to]) == ViewOf(rows, starts, ends) + [Dict(items)]
  {}

  /** Rows at the end and a range that spans them are one more position. */
  lemma ViewAppended(rows: Items, starts: seq<int>, ends: seq<int>, items: Items)
    requires Ranges(starts, ends, |rows|)
    ensures var rows', starts', ends' := rows + items, starts + [|rows|], ends + [|rows| + |items|];
            && Ranges(starts', ends', |rows'|)
            && ViewOf(rows', starts', ends') == ViewOf(rows, starts, ends) + [Dict(items)]
            && (Contiguous(starts, ends, |rows|) ==> Contiguous(starts', ends', |rows'|))
  {
    RangesAppended(starts, ends, |rows|, |items|);
    NewRange(rows, items);
    OldPositions(rows, starts, ends, items);
    OnePosition(rows + items, starts, ends, |rows|, |rows| + |items|, items);
  }

  function Shift(xs: seq<int>, offset: int): seq<int> {
    seq(|xs|, i requires 0 <= i < |xs| => xs[i] - offset)
  }

  /** The picked positions, strictly increasing ones out of `n`. */
  ghost predicate Picks(ps: seq<nat>, n: nat) {
    && ps != []
    && (forall i :: 0 <= i < |ps| ==> ps[i] < n)
    && forall i, j :: 0 <= i < j < |ps| ==> ps[i] < ps[j]
  }

  lemma PickedBetween(starts: seq<int>, ends: seq<int>, n: nat, ps: seq<nat>, i: nat)
    requires Ranges(starts, ends, n) && Picks(ps, |starts|) && i < |ps|
    ensures 0 <= starts[ps[0]] <= starts[ps[i]] <= ends[ps[i]] <= ends[ps[|ps| - 1]] <= n
  {
    assert i > 0 ==> ps[0] < ps[i];
    assert i < |ps| - 1 ==> ps[i] < ps[|ps| - 1];
  }

  lemma PickedRanges(starts: seq<int>, ends: seq<int>, n: nat, ps: seq<nat>)
    requires Ranges(starts, ends, n) && Picks(ps, |starts|)
    ensures var lo, hi := starts[ps[0]], ends[ps[|ps| - 1]];
            0 <= lo <= hi <= n && Ranges(Shift(Pick(starts, ps), lo), Shift(Pick(ends, ps), lo), hi - lo)
  {
    forall i | 0 <= i < |ps|
      ensures 0 <= starts[ps[0]] <= starts[ps[i]] <= ends[ps[i]] <= ends[ps[|ps| - 1]] <= n
    {
      PickedBetween(starts, ends, n, ps, i);
    }
  }

  /** Cutting out the rows from the first to the last picked position, and shifting the ranges,
      picks exactly those positions. */
  lemma ViewPicked(rows: Items, starts: seq<int>, ends: seq<int>, ps: seq<nat>)
    requires Ranges(starts, ends, |rows|) && Picks(ps, |starts|)
    ensures var lo, hi := starts[ps[0]], ends[ps[|ps| - 1]];
            && 0 <= lo <= hi <= |rows|
            && Ranges(Shift(Pick(starts, ps), lo), Shift(Pick(ends, ps), lo), hi - lo)
            && ViewOf(rows[lo..hi], Shift(Pick(starts, ps), lo), Shift(Pick(ends, ps), lo)) == Pick(ViewOf(rows, starts, ends), ps)
  {
    PickedRanges(starts, ends, |rows|, ps);
    var lo, hi := starts[ps[0]], ends[ps[|ps| - 1]];
    var picked := ViewOf(rows[lo..hi], Shift(Pick(starts, ps), lo), Shift(Pick(ends, ps), lo));
    forall i | 0 <= i < |ps| ensures picked[i] == ViewOf(rows, starts, ends)[ps[i]] {
      PickedBetween(starts, ends, |rows|, ps, i);
      SliceOfSlice(rows, lo, hi, starts[ps[i]], ends[ps[i]]);
    }
  }

  lemma SliceOfSlice(rows: Items, lo: int, hi: int, start: int, end: int)
    requires 0 <= lo <= start <= end <= hi <= |rows|
    ensures rows[lo..hi][start - lo..end - lo] == rows[start..end]
  {
    var cut := rows[lo..hi];
    forall i | 0 <= i < end - start ensures cut[start - lo..end - lo][i] == rows[start..end][i] {
      assert cut[start - lo + i] == rows[start + i];
    }
  }

  class FlatLogprobs {
    var startIndices: seq<int>
    var endIndices: seq<int>
    var tokenIds: seq<int>
    var logprobs: seq<real>
    var ranks: seq<Option<int>>
    var decodedTokens: seq<Option<string>>

    ghost predicate Valid()
      reads this
    {
      && |tokenIds| == |logprobs| == |ranks| == |decodedTokens|
      && Ranges(startIndices, endIndices, |logprobs|)
    }

    function Rows(): Items
      reads this
    {
      Zip(tokenIds, logprobs, ranks, decodedTokens)
    }

    /** The container as a plain list of dictionaries. */
    function View(): seq<map<int, Logprob>>
      reads this
      requires Valid()
    {
      ViewOf(Rows(), startIndices, endIndices)
    }

    ghost predicate NoGaps()
      reads this
      requires Valid()
    {
      Contiguous(startIndices, endIndices, |logprobs|)
    }

    constructor ()
      ensures Valid() && NoGaps() && View() == []
    {
      startIndices, endIndices := [], [];
      tokenIds, logprobs, ranks, decodedTokens := [], [], [], [];
    }

    constructor Of(startIndices: seq<int>, endIndices: seq<int>, tokenIds: seq<int>, logprobs: seq<real>,
                   ranks: seq<Option<int>>, decodedTokens: seq<Option<string>>)
      ensures this.startIndices == startIndices && this.endIndices == endIndices
      ensures this.tokenIds == tokenIds && this.logprobs == logprobs
      ensures this.ranks == ranks && this.decodedTokens == decodedTokens
    {
      this.startIndices, this.endIndices := startIndices, endIndices;
      this.tokenIds, this.logprobs, this.ranks, this.decodedTokens := tokenIds, logprobs, ranks, decodedTokens;
    }

    method PushRow(tokenId: int, l: Logprob)
      requires |tokenIds| == |logprobs| == |ranks| == |decodedTokens|
      modifies `tokenIds, `logprobs, `ranks, `decodedTokens
      ensures |tokenIds| == |logprobs| == |ranks| == |decodedTokens|
      ensures Rows() == old(Rows()) + [(tokenId, l)]
    {
      ZipSnoc(tokenIds, logprobs, ranks, decodedTokens, tokenId, l);
      tokenIds := tokenIds + [tokenId];
      logprobs := logprobs + [l.logprob];
      ranks := ranks + [l.rank];
      decodedTokens := decodedTokens + [l.decodedToken];
    }

    method PushItems(items: Items)
      requires |tokenIds| == |logprobs| == |ranks| == |decodedTokens|
      modifies `tokenIds, `logprobs, `ranks, `decodedTokens
      ensures |tokenIds| == |logprobs| == |ranks| == |decodedTokens|
      ensures Rows() == old(Rows()) + items
    {
      for i := 0 to |items|
        invariant |tokenIds| == |logprobs| == |ranks| == |decodedTokens|
        invariant Rows() == old(Rows()) + items[..i]
      {
        assert items[..i + 1] == items[..i] + [items[i]];
        PushRow(items[i].0, items[i].1);
      }
    }

    method PushColumns(tokenIds: seq<int>, logprobs: seq<real>, ranks: seq<Option<int>>, decodedTokens: seq<Option<string>>)
      requires |this.tokenIds| == |this.logprobs| == |this.ranks| == |this.decodedTokens|
      modifies `tokenIds, `logprobs, `ranks, `decodedTokens
      ensures |this.tokenIds| == |this.logprobs| == |this.ranks| == |this.decodedTokens|
      ensures Rows() == old(Rows()) + Zip(tokenIds, logprobs, ranks, decodedTokens)
    {
      ghost var items := Zip(tokenIds, logprobs, ranks, decodedTokens);
      for i := 0 to ZipLength(tokenIds, logprobs, ranks, decodedTokens)
        invariant |this.tokenIds| == |this.logprobs| == |this.ranks| == |this.decodedTokens|
        invariant Rows() == old(Rows()) + items[..i]
      {
        assert items[..i + 1] == items[..i] + [Row(tokenIds, logprobs, ranks, decodedTokens, i)];
        PushRow(tokenIds[i], Logprob(logprobs[i], ranks[i], decodedTokens[i]));
      }
    }

    /** Appends a dictionary; None becomes the empty one. */
    method Append(position: Option<Items>)
      requires Valid()
      modifies this
      ensures Valid() && (old(NoGaps()) ==> NoGaps())
      ensures View() == old(View()) + [Dict(if position.Some? then position.value else [])]
    {
      ghost var items := if position.Some? then position.value else [];
      ViewAppended(Rows(), startIndices, endIndices, items);
      startIndices := startIndices + [|logprobs|];
      if position.Some? && position.value != [] {
        PushItems(position.value);
      }
      endIndices := endIndices + [|logprobs|];
      assert Rows() == old(Rows()) + items;
    }

    /** Appends a position from columns, without a dictionary in between. */
    method AppendFast(tokenIds: seq<int>, logprobs: seq<real>, ranks: seq<Option<int>>, decodedTokens: seq<Option<string>>)
      requires Valid()
      modifies this
      ensures Valid() && (old(NoGaps()) ==> NoGaps())
      ensures View() == old(View()) + [Dict(Zip(tokenIds, logprobs, ranks, decodedTokens))]
    {
      ViewAppended(Rows(), startIndices, endIndices, Zip(tokenIds, logprobs, ranks, decodedTokens));
      startIndices := startIndices + [|this.logprobs|];
      PushColumns(tokenIds, logprobs, ranks, decodedTokens);
      endIndices := endIndices + [|this.logprobs|];
    }

    /** Appends several positions. */
    method Extend(positions: seq<Option<Items>>)
      requires Valid()
      modifies this
      ensures Valid() && (old(NoGaps()) ==> NoGaps())
      ensures View() == old(View()) + Dicts(positions)
      ensures |View()| == |old(View())| + |positions|
      ensures forall i :: 0 <= i < |positions| ==>
                View()[|old(View())| + i] == Dict(if positions[i].Some? then positions[i].value else [])
    {
      for i := 0 to |positions|
        invariant Valid() && (old(NoGaps()) ==> NoGaps())
        invariant View() == old(View()) + Dicts(positions)[..i]
      {
        Append(positions[i]);
      }
    }

    /** Reads one position, counting from the end if the index is negative. */
    method GetItem(index: int) returns (r: Option<map<int, Logprob>>)
      requires Valid()
      ensures r == if -|View()| <= index < |View()| then Some(View()[if index < 0 then index + |View()| else index]) else None
    {
      var n := |startIndices|;
      if index < -n || index >= n {
        return None;
      }
      var p := if index < 0 then index + n else index;
      var lo, hi := startIndices[p], endIndices[p];
      ghost var items := Rows()[lo..hi];
      var d: map<int, Logprob> := map[];
      for i := lo to hi
        invariant d == Dict(items[..i - lo])
      {
        DictSnoc(items, i - lo);
        d := d[tokenIds[i] := Logprob(logprobs[i], ranks[i], decodedTokens[i])];
      }
      assert items[..hi - lo] == items;
      r := Some(d);
    }

    /** A slice with positive step, as a container of its own; IndexError when it is empty. */
    method GetSlice(s: Slice) returns (r: Option<FlatLogprobs>)
      requires Valid() && s.step > 0
      ensures r.None? <==> SlicePositions(s, |startIndices|) == []
      ensures r.Some? ==> fresh(r.value) && r.value.Valid() && r.value.View() == Pick(View(), SlicePositions(s, |startIndices|))
      ensures r.Some? ==> |r.value.View()| == |SlicePositions(s, |startIndices|)|
      ensures r.Some? ==> forall i :: 0 <= i < |r.value.View()| ==>
                SlicePositions(s, |startIndices|)[i] < |View()| && r.value.View()[i] == View()[SlicePositions(s, |startIndices|)[i]]
    {
      var ps := SlicePositions(s, |startIndices|);
      if ps == [] {
        return None;
      }
      ghost var rows := Rows();
      ViewPicked(rows, startIndices, endIndices, ps);
      var minIndex, maxIndex := startIndices[ps[0]], endIndices[ps[|ps| - 1]];
      ZipSlice(tokenIds, logprobs, ranks, decodedTokens, minIndex, maxIndex);
      var cut := new FlatLogprobs.Of(Shift(Pick(startIndices, ps), minIndex), Shift(Pick(endIndices, ps), minIndex),
                                     tokenIds[minIndex..maxIndex], logprobs[minIndex..maxIndex],
                                     ranks[minIndex..maxIndex], decodedTokens[minIndex..maxIndex]);
      assert cut.Rows() == rows[minIndex..maxIndex];
      r := Some(cut);
    }

    /** Iterating yields the positions in order. */
    method Iterate() returns (all: seq<map<int, Logprob>>)
      requires Valid()
      ensures all == View()
    {
      all := [];
      for i := 0 to |startIndices|
        invariant all == View()[..i]
      {
        var d := GetItem(i);
        assert d.value == View()[i];
        assert View()[..i + 1] == View()[..i] + [View()[i]];
        all := all + [d.value];
      }
    }
  }

  function Dicts(positions: seq<Option<Items>>): seq<map<int, Logprob>> {
    seq(|positions|, i requires 0 <= i < |positions| => Dict(if positions[i].Some? then positions[i].value else []))
  }

  // ----- Whole runs: the container refines a plain list of dictionaries -----

  datatype Operation =
    | AppendOne(position: Option<Items>)
    | AppendColumns(tokenIds: seq<int>, logprobs: seq<real>, ranks: seq<Option<int>>, decodedTokens: seq<Option<string>>)
    | ExtendBy(positions: seq<Option<Items>>)
    | TakeSlice(s: Slice)

  /** The operation on a plain list; None stands for an exception. A slice with step zero raises on
      every list; an empty slice raises on the container, and the list is given that exception. */
  function ListStep(list: seq<map<int, Logprob>>, op: Operation): Option<seq<map<int, Logprob>>> {
    match op
    case AppendOne(position) => Some(list + [Dict(if position.Some? then position.value else [])])
    case AppendColumns(tokenIds, logprobs, ranks, decodedTokens) => Some(list + [Dict(Zip(tokenIds, logprobs, ranks, decodedTokens))])
    case ExtendBy(positions) => Some(list + Dicts(positions))
    case TakeSlice(s) =>
      if s.step == 0 || SlicePositions(s, |list|) == [] then None else Some(Pick(list, SlicePositions(s, |list|)))
  }

  function ListRun(ops: seq<Operation>): Option<seq<map<int, Logprob>>> {
    if ops == [] then Some([])
    else
      match ListRun(ops[..|ops| - 1])
      case None => None
      case Some(list) => ListStep(list, ops[|ops| - 1])
  }

  /** One operation on a container that is in use: the container to go on with. */
  method Step(flat: FlatLogprobs, op: Operation) returns (r: Option<FlatLogprobs>)
    requires flat.Valid()
    modifies flat
    ensures r.Some? ==> (r.value == flat || fresh(r.value)) && r.value.Valid()
    ensures ListStep(old(flat.View()), op) == if r.Some? then Some(r.value.View()) else None
  {
    r := Some(flat);
    match op
    case AppendOne(position) => flat.Append(position);
    case AppendColumns(tokenIds, logprobs, ranks, decodedTokens) => flat.AppendFast(tokenIds, logprobs, ranks, decodedTokens);
    case ExtendBy(positions) => flat.Extend(positions);
    case TakeSlice(s) =>
      if s.step == 0 {
        return None;
      }
      r := flat.GetSlice(s);
  }

  /** Every run of operations, slices appended to included, shows what the plain list shows. */
  method Run(ops: seq<Operation>) returns (r: Option<FlatLogprobs>)
    ensures r.Some? ==> r.value.Valid()
    ensures ListRun(ops) == if r.Some? then Some(r.value.View()) else None
  {
    var flat := new FlatLogprobs();
    for i := 0 to |ops|
      invariant fresh(flat) && flat.Valid()
      invariant ListRun(ops[..i]) == Some(flat.View())
    {
      assert ops[..i + 1][..i] == ops[..i];
      var next := Step(flat, ops[i]);
      if next.None? {
        RunStops(ops, i + 1);
        return None;
      }
      flat := next.value;
    }
    assert ops[..|ops|] == ops;
    r := Some(flat);
  }

  lemma {:induction false} RunStops(ops: seq<Operation>, k: nat)
    requires k <= |ops| && ListRun(ops[..k]).None?
    ensures ListRun(ops).None?
    decreases |ops|
  {
    if k < |ops| {
      assert ops[..|ops| - 1][..k] == ops[..k];
      RunStops(ops[..|ops| - 1], k);
    } else {
      assert ops[..k] == ops;
    }
  }

  // ----- The next position of a request -----

  /** The rank of the sampled token, then 1, 2, ... up to the number of logprobs asked for. */
  function RanksFor(rank: int, numLogprobs: int): seq<Option<int>> {
    [Some(rank)] + seq(if numLogprobs < 0 then 0 else numLogprobs, i => Some(i + 1))
  }

  /** -1 asks for as many as there are. */
  function Requested(numLogprobs: int, available: nat): int {
    if numLogprobs == -1 then available else numLogprobs
  }

  /** What is known about the next position: the sampled token comes first with its own rank, then
      the top ones with ranks 1, 2, ... as far as they were asked for and are there; of several rows
      with one token id the last counts. */
  ghost predicate NextPosition(d: map<int, Logprob>, tokenIds: seq<int>, logprobs: seq<real>, decodedTokens: seq<Option<string>>,
                               rank: int, numLogprobs: int)
  {
    && (forall t <- d :: exists i: nat :: IsLastRow(tokenIds, logprobs, decodedTokens, numLogprobs, t, i)
                          && d[t] == Logprob(logprobs[i], Some(if i == 0 then rank else i), decodedTokens[i]))
    && forall i: nat :: IsRow(tokenIds, logprobs, decodedTokens, numLogprobs, i) ==> tokenIds[i] in d
  }

  ghost predicate IsRow(tokenIds: seq<int>, logprobs: seq<real>, decodedTokens: seq<Option<string>>, numLogprobs: int, i: nat) {
    && i < |tokenIds| && i < |logprobs| && i < |decodedTokens|
    && (i == 0 || numLogprobs == -1 || i <= numLogprobs)
  }

  ghost predicate IsLastRow(tokenIds: seq<int>, logprobs: seq<real>, decodedTokens: seq<Option<string>>, numLogprobs: int, t: int, i: nat) {
    && IsRow(tokenIds, logprobs, decodedTokens, numLogprobs, i) && tokenIds[i] == t
    && forall j :: i < j && IsRow(tokenIds, logprobs, decodedTokens, numLogprobs, j) ==> tokenIds[j] != t
  }

  lemma RowsAre(tokenIds: seq<int>, logprobs: seq<real>, decodedTokens: seq<Option<string>>, rank: int, numLogprobs: int, items: Items)
    requires items == Zip(tokenIds, logprobs, RanksFor(rank, Requested(numLogprobs, |logprobs|)), decodedTokens)
    ensures forall i: nat :: i < |items| <==> IsRow(tokenIds, logprobs, decodedTokens, numLogprobs, i)
    ensures forall i :: 0 <= i < |items| ==>
              items[i] == (tokenIds[i], Logprob(logprobs[i], Some(if i == 0 then rank else i), decodedTokens[i]))
  {}

  lemma NextPositionHolds(tokenIds: seq<int>, logprobs: seq<real>, decodedTokens: seq<Option<string>>, rank: int, numLogprobs: int, items: Items)
    requires items == Zip(tokenIds, logprobs, RanksFor(rank, Requested(numLogprobs, |logprobs|)), decodedTokens)
    ensures NextPosition(Dict(items), tokenIds, logprobs, decodedTokens, rank, numLogprobs)
  {
    RowsAre(tokenIds, logprobs, decodedTokens, rank, numLogprobs, items);
    forall t | t in Dict(items)
      ensures exists i: nat :: IsLastRow(tokenIds, logprobs, decodedTokens, numLogprobs, t, i)
                && Dict(items)[t] == Logprob(logprobs[i], Some(if i == 0 then rank else i), decodedTokens[i])
    {
      var i := DictLastWins(items, t);
      assert IsLastRow(tokenIds, logprobs, decodedTokens, numLogprobs, t, i);
    }
    forall i: nat | IsRow(tokenIds, logprobs, decodedTokens, numLogprobs, i) ensures tokenIds[i] in Dict(items) {
      DictKeys(items, tokenIds[i]);
      assert items[i].0 == tokenIds[i];
    }
  }

  method AppendToFlat(request: FlatLogprobs, tokenIds: seq<int>, logprobs: seq<real>, decodedTokens: seq<Option<string>>,
                      rank: int, numLogprobs: int)
    requires request.Valid()
    modifies request
    ensures request.Valid()
    ensures request.View() == old(request.View())
            + [Dict(Zip(tokenIds, logprobs, RanksFor(rank, Requested(numLogprobs, |logprobs|)), decodedTokens))]
    ensures |request.View()| == |old(request.View())| + 1 && request.View()[..|old(request.View())|] == old(request.View())
    ensures NextPosition(request.View()[|old(request.View())|], tokenIds, logprobs, decodedTokens, rank, numLogprobs)
  {
    NextPositionHolds(tokenIds, logprobs, decodedTokens, rank, numLogprobs,
                      Zip(tokenIds, logprobs, RanksFor(rank, Requested(numLogprobs, |logprobs|)), decodedTokens));
    var n := if numLogprobs == -1 then |logprobs| else numLogprobs;
    request.AppendFast(tokenIds, logprobs, RanksFor(rank, n), decodedTokens);
  }

  /** The list branch builds the dictionary item by item and appends it. */
  method AppendToList(request: seq<map<int, Logprob>>, tokenIds: seq<int>, logprobs: seq<real>, decodedTokens: seq<Option<string>>,
                      rank: int, numLogprobs: int) returns (request': seq<map<int, Logprob>>)
    ensures request' == request + [Dict(Zip(tokenIds, logprobs, RanksFor(rank, Requested(numLogprobs, |logprobs|)), decodedTokens))]
    ensures |request'| == |request| + 1 && request'[..|request|] == request
    ensures NextPosition(request'[|request|], tokenIds, logprobs, decodedTokens, rank, numLogprobs)
  {
    var n := if numLogprobs == -1 then |logprobs| else numLogprobs;
    var ranks := RanksFor(rank, n);
    var d: map<int, Logprob> := map[];
    ghost var items := Zip(tokenIds, logprobs, ranks, decodedTokens);
    for i := 0 to ZipLength(tokenIds, logprobs, ranks, decodedTokens)
      invariant d == Dict(items[..i])
    {
      DictSnoc(items, i);
      d := d[tokenIds[i] := Logprob(logprobs[i], ranks[i], decodedTokens[i])];
    }
    assert items[..|items|] == items;
    NextPositionHolds(tokenIds, logprobs, decodedTokens, rank, numLogprobs, items);
    request' := request + [d];
  }
}
