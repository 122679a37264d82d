/**
 Index ranges such as "0-2, 4-6" (vllm/vllm/model_inspection.py, _format_index_ranges): how they
 are made, that they can be read back, and that there are no more of them than needed.
 */
module IndexRanges {
  import opened Options
  import opened Sorting

  datatype Range = Range(first: int, last: int)

  function Expand(r: Range): seq<int> {
    seq(if r.first > r.last then 0 else r.last - r.first + 1, i => r.first + i)
  }

  lemma ExpandLast(r: Range)
    requires r.first <= r.last
    ensures Expand(r) == Expand(Range(r.first, r.last - 1)) + [r.last]
  {}

  function ExpandAll(rs: seq<Range>): seq<int> {
    if rs == [] then [] else ExpandAll(rs[..|rs| - 1]) + Expand(rs[|rs| - 1])
  }

  /** One more number: it lengthens the last range or opens a new one. */
  function Extend(rs: seq<Range>, x: int): seq<Range> {
    if rs != [] && x == rs[|rs| - 1].last + 1 then rs[..|rs| - 1] + [Range(rs[|rs| - 1].first, x)]
    else rs + [Range(x, x)]
  }

  /** The maximal runs of consecutive numbers, from the left. */
  function Runs(xs: seq<int>): seq<Range> {
    if xs == [] then [] else Extend(Runs(xs[..|xs| - 1]), xs[|xs| - 1])
  }

  lemma RunsTake(xs: seq<int>, i: nat)
    requires i < |xs|
    ensures Runs(xs[..i + 1]) == Extend(Runs(xs[..i]), xs[i])
  {
    assert xs[..i + 1][..i] == xs[..i];
  }

  lemma {:induction false} RunsEnd(xs: seq<int>)
    requires xs != []
    ensures Runs(xs) != [] && Runs(xs)[|Runs(xs)| - 1].last == xs[|xs| - 1]
  {
    var front := Runs(xs[..|xs| - 1]);
    assert Runs(xs) == Extend(front, xs[|xs| - 1]);
  }

  ghost predicate Ordered(rs: seq<Range>) {
    forall k :: 0 <= k < |rs| ==> rs[k].first <= rs[k].last
  }

  lemma ExtendOrdered(rs: seq<Range>, x: int)
    requires Ordered(rs)
    ensures Ordered(Extend(rs, x))
  {}

  lemma {:induction false} RunsOrdered(xs: seq<int>)
    ensures Ordered(Runs(xs))
    decreases |xs|
  {
    if xs != [] {
      RunsOrdered(xs[..|xs| - 1]);
      ExtendOrdered(Runs(xs[..|xs| - 1]), xs[|xs| - 1]);
    }
  }

  lemma {:induction false} RunsStart(xs: seq<int>)
    ensures forall k :: 0 <= k < |Runs(xs)| ==> Runs(xs)[k].first in xs
    decreases |xs|
  {
    if xs != [] {
      RunsStart(xs[..|xs| - 1]);
    }
  }

  lemma ExpandOne(x: int)
    ensures Expand(Range(x, x)) == [x]
  {}

  lemma {:induction false} LengthenLast(init: seq<Range>, r: Range)
    requires r.first <= r.last
    ensures ExpandAll(init + [Range(r.first, r.last + 1)]) == ExpandAll(init + [r]) + [r.last + 1]
  {
    ExpandAllSnoc(init, r);
    ExpandAllSnoc(init, Range(r.first, r.last + 1));
    ExpandLast(Range(r.first, r.last + 1));
  }

  lemma {:induction false} ExtendExpands(rs: seq<Range>, x: int)
    requires Ordered(rs)
    ensures ExpandAll(Extend(rs, x)) == ExpandAll(rs) + [x]
  {
    if rs != [] && x == rs[|rs| - 1].last + 1 {
      var init, r := rs[..|rs| - 1], rs[|rs| - 1];
      assert init + [r] == rs;
      LengthenLast(init, r);
      assert Extend(rs, x) == init + [Range(r.first, r.last + 1)];
    } else {
      ExpandAllSnoc(rs, Range(x, x));
      ExpandOne(x);
    }
  }

  lemma ExpandAllSnoc(rs: seq<Range>, r: Range)
    ensures ExpandAll(rs + [r]) == ExpandAll(rs) + Expand(r)
  {
    assert (rs + [r])[..|rs|] == rs;
  }

  // ----- Text -----

  function Digit(d: nat): char
    requires d < 10
  {
    "0123456789"[d]
  }

  predicate AllDigits(s: string) {
    forall i :: 0 <= i < |s| ==> '0' <= s[i] <= '9'
  }

  function Decimal(n: nat): (s: string)
    ensures s != [] && AllDigits(s)
  {
    if n < 10 then [Digit(n)] else Decimal(n / 10) + [Digit(n % 10)]
  }

  function Str(n: int): string {
    if n < 0 then "-" + Decimal(-n) else Decimal(n)
  }

  function Join(parts: seq<string>, sep: string): string {
    if parts == [] then "" else if |parts| == 1 then parts[0] else parts[0] + sep + Join(parts[1..], sep)
  }

  function RangeText(r: Range): string {
    if r.first == r.last then Str(r.first) else Str(r.first) + "-" + Str(r.last)
  }

  function RangeTexts(rs: seq<Range>): seq<string> {
    seq(|rs|, i requires 0 <= i < |rs| => RangeText(rs[i]))
  }

  function SortedIndices(indices: seq<int>): (s: seq<int>)
    ensures multiset(s) == multiset(indices) && |s| == |indices|
    ensures forall i, j :: 0 <= i < j < |s| ==> s[i] <= s[j]
    ensures forall x <- s :: x in indices
  {
    SortSorts(indices, (a: int, b: int) => a <= b);
    SortMembers(indices, (a: int, b: int) => a <= b);
    Sort(indices, (a: int, b: int) => a <= b)
  }

  function IndexText(indices: seq<int>): string {
    Join(RangeTexts(Runs(SortedIndices(indices))), ", ")
  }

  method FormatIndexRanges(indices: seq<int>) returns (text: string)
    requires indices != []
    ensures text == IndexText(indices)
  {
    var sorted := SortedIndices(indices);
    var ranges := FormatSorted(sorted);
    text := Join(ranges, ", ");
  }

  lemma ExtendSnoc(init: seq<Range>, r: Range, x: int)
    ensures Extend(init + [r], x) == if x == r.last + 1 then init + [Range(r.first, x)] else init + [r] + [Range(x, x)]
  {
    assert (init + [r])[..|init|] == init;
  }

  lemma RangeTextsSnoc(rs: seq<Range>, r: Range)
    ensures RangeTexts(rs + [r]) == RangeTexts(rs) + [RangeText(r)]
  {}

  /** A range in words: one number, or its first and its last with a dash in between. */
  ghost predicate SaysRange(text: string, r: Range) {
    if r.first == r.last then SaysNumber(text, r.first)
    else exists a, b :: text == a + "-" + b && SaysNumber(a, r.first) && SaysNumber(b, r.last)
  }

  /** The usual way to write a number: its digits without a leading zero, behind its sign. */
  ghost predicate SaysNumber(text: string, n: int) {
    if n < 0 then text != "" && text[0] == '-' && SaysDigits(text[1..], -n) else SaysDigits(text, n)
  }

  ghost predicate SaysDigits(text: string, n: nat) {
    AllDigits(text) && Value(text) == n && text != "" && (text[0] == '0' ==> text == "0")
  }

  lemma {:induction false} DecimalSays(n: nat)
    ensures SaysDigits(Decimal(n), n) && (Decimal(n)[0] == '0' ==> n == 0)
    decreases n
  {
    ValueOfDecimal(n);
    if n >= 10 { DecimalSays(n / 10); }
  }

  lemma StrSays(n: int)
    ensures SaysNumber(Str(n), n)
  {
    var digits := Decimal(if n < 0 then -n else n);
    DecimalSays(if n < 0 then -n else n);
    SignOff(digits);
  }

  lemma SignOff(digits: string)
    ensures ("-" + digits)[0] == '-' && ("-" + digits)[1..] == digits
  {
  }

  lemma RangeSays(r: Range)
    ensures SaysRange(RangeText(r), r)
  {
    StrSays(r.first);
    StrSays(r.last);
    if r.first != r.last {
      assert RangeText(r) == Str(r.first) + "-" + Str(r.last);
    }
  }

  /** Joining is putting the separator between any two parts, and nothing else. */
  lemma {:induction false} JoinSplits(parts: seq<string>, sep: string, k: nat)
    requires k <= |parts|
    ensures Join([], sep) == "" && (|parts| == 1 ==> Join(parts, sep) == parts[0])
    ensures 0 < k < |parts| ==> Join(parts, sep) == Join(parts[..k], sep) + sep + Join(parts[k..], sep)
    decreases k
  {
    if 0 < k < |parts| {
      var tail := parts[1..];
      assert parts[..k][1..] == tail[..k - 1] && tail[k - 1..] == parts[k..];
      if k > 1 {
        JoinSplits(tail, sep, k - 1);
        SameGrouping(parts[0], sep, Join(tail[..k - 1], sep), Join(parts[k..], sep));
      }
    }
  }

  lemma SameGrouping(a: string, sep: string, b: string, c: string)
    ensures a + sep + (b + sep + c) == (a + sep + b) + sep + c
  {}

  method FormatSorted(sorted: seq<int>) returns (ranges: seq<string>)
    requires sorted != []
    ensures ranges == RangeTexts(Runs(sorted))
    ensures forall k :: 0 <= k < |ranges| ==> SaysRange(ranges[k], Runs(sorted)[k])
  {
    ranges := [];
    var start, end := sorted[0], sorted[0];
    ghost var done: seq<Range> := [];
    RunsTake(sorted, 0);
    for i := 1 to |sorted|
      invariant Runs(sorted[..i]) == done + [Range(start, end)]
      invariant ranges == RangeTexts(done)
    {
      var idx := sorted[i];
      RunsTake(sorted, i);
      ExtendSnoc(done, Range(start, end), idx);
      if idx == end + 1 {
        end := idx;
      } else {
        RangeTextsSnoc(done, Range(start, end));
        ranges := ranges + [if start == end then Str(start) else Str(start) + "-" + Str(end)];
        done := done + [Range(start, end)];
        start, end := idx, idx;
      }
    }
    assert sorted[..|sorted|] == sorted;
    RangeTextsSnoc(done, Range(start, end));
    ranges := ranges + [if start == end then Str(start) else Str(start) + "-" + Str(end)];
    forall k | 0 <= k < |ranges| ensures SaysRange(ranges[k], Runs(sorted)[k]) { RangeSays(Runs(sorted)[k]); }
  }

  // ----- Nothing is lost, and no range could be saved -----

  lemma {:induction false} RunsExpand(xs: seq<int>)
    ensures ExpandAll(Runs(xs)) == xs
    decreases |xs|
  {
    if xs != [] {
      var front, x := xs[..|xs| - 1], xs[|xs| - 1];
      RunsExpand(front);
      RunsOrdered(front);
      ExtendExpands(Runs(front), x);
      assert xs == front + [x];
    }
  }

  /** A new run begins exactly where a number does not follow its predecessor. */
  lemma RunsCount(xs: seq<int>, x: int)
    ensures |Runs(xs + [x])| == |Runs(xs)| + if xs != [] && x == xs[|xs| - 1] + 1 then 0 else 1
  {
    assert (xs + [x])[..|xs|] == xs && (xs + [x])[..|xs| + 1] == xs + [x];
    RunsTake(xs + [x], |xs|);
    if xs != [] { RunsEnd(xs); }
  }

  /** A further stretch of consecutive numbers costs at most one more run. */
  lemma {:induction false} OneMoreRange(xs: seq<int>, r: Range)
    ensures |Runs(xs + Expand(r))| <= |Runs(xs)| + 1
    ensures r.first <= r.last ==> Expand(r) != [] && Expand(r)[|Expand(r)| - 1] == r.last
    decreases r.last - r.first
  {
    if r.first > r.last {
      assert xs + Expand(r) == xs;
    } else {
      var shorter := Range(r.first, r.last - 1);
      OneMoreRange(xs, shorter);
      ExpandLast(r);
      var ys := xs + Expand(shorter);
      assert xs + Expand(r) == ys + [r.last];
      RunsCount(ys, r.last);
      if r.first == r.last { assert ys == xs; }
    }
  }

  /** No list of ranges that expands to the same numbers in the same order is shorter. */
  lemma {:induction false} FewestInOrder(rs: seq<Range>)
    ensures |Runs(ExpandAll(rs))| <= |rs|
    decreases |rs|
  {
    if rs != [] {
      FewestInOrder(rs[..|rs| - 1]);
      OneMoreRange(ExpandAll(rs[..|rs| - 1]), rs[|rs| - 1]);
    }
  }

  ghost predicate Increasing(xs: seq<int>) {
    forall i, j :: 0 <= i < j < |xs| ==> xs[i] < xs[j]
  }

  lemma {:induction false} InExpandAll(rs: seq<Range>, x: int)
    ensures x in ExpandAll(rs) <==> exists r <- rs :: r.first <= x <= r.last
    decreases |rs|
  {
    if rs != [] {
      var front, last := rs[..|rs| - 1], rs[|rs| - 1];
      InExpandAll(front, x);
      assert rs == front + [last];
      InExpand(last, x);
    }
  }

  lemma InExpand(r: Range, x: int)
    ensures x in Expand(r) <==> r.first <= x <= r.last
  {
    if r.first <= x <= r.last { assert Expand(r)[x - r.first] == x; }
  }

  ghost predicate Starts(rs: seq<Range>, xs: seq<int>) {
    && (forall k :: 0 <= k < |rs| ==> rs[k].first in xs && rs[k].first - 1 !in xs)
    && forall j, k :: 0 <= j < k < |rs| ==> rs[j].first < rs[k].first
  }

  lemma LastIsLargest(xs: seq<int>, y: int)
    requires Increasing(xs) && y in xs
    ensures y <= xs[|xs| - 1]
  {}

  lemma FollowsLastRun(xs: seq<int>, x: int, runs: seq<Range>)
    requires Increasing(xs) && (forall y <- xs :: y < x) && runs == Runs(xs)
    ensures x - 1 in xs ==> runs != [] && x == runs[|runs| - 1].last + 1
  {
    if x - 1 in xs {
      LastIsLargest(xs, x - 1);
      assert xs[|xs| - 1] in xs;
      RunsEnd(xs);
    }
  }

  lemma WithoutLast(xs: seq<int>)
    requires Increasing(xs) && xs != []
    ensures var front := xs[..|xs| - 1]; Increasing(front) && xs == front + [xs[|xs| - 1]] && forall y <- front :: y < xs[|xs| - 1]
  {}

  /** A run starts where the number before is missing, and no two runs start at the same. */
  lemma {:induction false} RunsStartFresh(xs: seq<int>, runs: seq<Range>)
    requires Increasing(xs) && runs == Runs(xs)
    ensures Starts(runs, xs)
    decreases |xs|
  {
    if xs != [] {
      var front, x := xs[..|xs| - 1], xs[|xs| - 1];
      var before := Runs(front);
      assert runs == Extend(before, x);
      WithoutLast(xs);
      RunsStartFresh(front, before);
      FollowsLastRun(front, x, before);
      ExtendStarts(before, front, x);
    }
  }

  lemma ExtendStarts(rs: seq<Range>, xs: seq<int>, x: int)
    requires Starts(rs, xs) && forall y <- xs :: y < x
    requires x - 1 in xs ==> rs != [] && x == rs[|rs| - 1].last + 1
    ensures Starts(Extend(rs, x), xs + [x])
  {
    var more := Extend(rs, x);
    forall k | 0 <= k < |rs| ensures more[k].first == rs[k].first < x {}
    forall k | 0 <= k < |more| ensures more[k].first in xs + [x] && more[k].first - 1 !in xs + [x] {
      if k < |rs| { assert rs[k].first in xs; }
    }
  }

  function Firsts(rs: seq<Range>): set<int> {
    set r | r in rs :: r.first
  }

  lemma {:induction false} FewFirsts(rs: seq<Range>)
    ensures |Firsts(rs)| <= |rs|
    decreases |rs|
  {
    if rs != [] {
      var front, last := rs[..|rs| - 1], rs[|rs| - 1];
      FewFirsts(front);
      assert rs == front + [last];
      assert Firsts(rs) == Firsts(front) + {last.first};
    }
  }

  lemma {:induction false} DistinctFirsts(rs: seq<Range>)
    requires forall j, k :: 0 <= j < k < |rs| ==> rs[j].first < rs[k].first
    ensures |Firsts(rs)| == |rs|
    decreases |rs|
  {
    if rs != [] {
      var front, last := rs[..|rs| - 1], rs[|rs| - 1];
      DistinctFirsts(front);
      assert rs == front + [last];
      assert Firsts(rs) == Firsts(front) + {last.first};
      assert last.first !in Firsts(front);
    }
  }

  /** A number without predecessor among those covered is the first one of some range. */
  lemma FreshIsFirst(rs: seq<Range>, x: int)
    requires x in ExpandAll(rs) && x - 1 !in ExpandAll(rs)
    ensures x in Firsts(rs)
  {
    InExpandAll(rs, x);
    InExpandAll(rs, x - 1);
  }

  lemma StartsAreFirsts(runs: seq<Range>, xs: seq<int>, rs: seq<Range>)
    requires Starts(runs, xs) && forall x :: x in xs <==> x in ExpandAll(rs)
    ensures Firsts(runs) <= Firsts(rs)
  {
    forall k | 0 <= k < |runs| ensures runs[k].first in Firsts(rs) {
      FreshIsFirst(rs, runs[k].first);
    }
  }

  lemma FewestForIncreasing(xs: seq<int>, rs: seq<Range>)
    requires Increasing(xs) && forall x :: x in xs <==> x in ExpandAll(rs)
    ensures |Runs(xs)| <= |rs|
  {
    RunsStartFresh(xs, Runs(xs));
    StartsAreFirsts(Runs(xs), xs, rs);
    FewStarts(Runs(xs), xs, rs);
  }

  lemma FewStarts(runs: seq<Range>, xs: seq<int>, rs: seq<Range>)
    requires Starts(runs, xs) && Firsts(runs) <= Firsts(rs)
    ensures |runs| <= |rs|
  {
    DistinctFirsts(runs);
    FewFirsts(rs);
    Subset(Firsts(runs), Firsts(rs));
  }

  lemma {:induction false} Subset(a: set<int>, b: set<int>)
    requires a <= b
    ensures |a| <= |b|
  {
    assert |b| == |a| + |b - a| by { assert b == a + (b - a); }
  }

  /** The printed ranges of distinct indices are as few as possible: no list of ranges, in any
      order and overlapping or not, covers exactly these indices and is shorter. */
  lemma FewestRanges(indices: seq<int>, rs: seq<Range>)
    requires Distinct(indices) && forall x :: x in indices <==> x in ExpandAll(rs)
    ensures |Runs(SortedIndices(indices))| <= |rs|
  {
    var sorted := SortedIndices(indices);
    forall x | x in sorted ensures multiset(sorted)[x] <= 1 {
      CountsFromDistinct(indices, x);
    }
    DistinctFromCounts(sorted);
    forall x ensures x in sorted <==> x in indices {
      assert x in multiset(sorted) <==> x in multiset(indices);
    }
    FewestForIncreasing(sorted, rs);
  }

  // ----- Reading the text back -----

  function Value(s: string): nat
    requires AllDigits(s)
  {
    if s == [] then 0 else Value(s[..|s| - 1]) * 10 + (s[|s| - 1] - '0') as nat
  }

  function LeadingDigits(s: string): (k: nat)
    ensures k <= |s| && AllDigits(s[..k])
    ensures k < |s| ==> !('0' <= s[k] <= '9')
  {
    if s == [] || !('0' <= s[0] <= '9') then 0
    else
      var k := LeadingDigits(s[1..]);
      assert s[..k + 1] == [s[0]] + s[1..][..k];
      k + 1
  }

  function ReadNumber(s: string): (r: Option<(nat, string)>)
    ensures r.Some? ==> |r.value.1| < |s|
  {
    var k := LeadingDigits(s);
    if k == 0 then None else Some((Value(s[..k]), s[k..]))
  }

  function ReadRange(s: string): (r: Option<(Range, string)>)
    ensures r.Some? ==> |r.value.1| < |s|
  {
    match ReadNumber(s)
    case None => None
    case Some((first, rest)) =>
      if rest != [] && rest[0] == '-' then
        match ReadNumber(rest[1..])
        case None => None
        case Some((last, rest')) => Some((Range(first, last), rest'))
      else Some((Range(first, first), rest))
  }

  function ReadRanges(s: string): Option<seq<Range>>
    decreases |s|
  {
    match ReadRange(s)
    case None => None
    case Some((r, rest)) =>
      if rest == [] then Some([r])
      else if |rest| >= 2 && rest[..2] == ", " then
        match ReadRanges(rest[2..])
        case None => None
        case Some(rs) => Some([r] + rs)
      else None
  }

  lemma {:induction false} ValueOfDecimal(n: nat)
    ensures Value(Decimal(n)) == n
  {
    if n < 10 {
      assert Decimal(n)[..0] == [];
    } else {
      ValueOfDecimal(n / 10);
      var s := Decimal(n / 10) + [Digit(n % 10)];
      assert s[..|s| - 1] == Decimal(n / 10);
    }
  }

  lemma {:induction false} DigitsEnd(s: string, rest: string)
    requires AllDigits(s)
    requires rest == [] || !('0' <= rest[0] <= '9')
    ensures LeadingDigits(s + rest) == |s|
    decreases |s|
  {
    if s == [] {
      assert s + rest == rest;
    } else {
      assert (s + rest)[1..] == s[1..] + rest;
      assert (s + rest)[0] == s[0];
      DigitsEnd(s[1..], rest);
    }
  }

  lemma NumberReadBack(n: nat, rest: string)
    requires rest == [] || !('0' <= rest[0] <= '9')
    ensures ReadNumber(Decimal(n) + rest) == Some((n, rest))
  {
    var s := Decimal(n) + rest;
    DigitsEnd(Decimal(n), rest);
    assert s[..|Decimal(n)|] == Decimal(n) && s[|Decimal(n)|..] == rest;
    ValueOfDecimal(n);
  }

  lemma Reassociate(a: string, b: string, rest: string)
    ensures a + "-" + b + rest == a + ("-" + (b + rest))
    ensures ("-" + (b + rest))[1..] == b + rest
  {}

  lemma PairReadBack(first: nat, last: nat, rest: string)
    requires rest == [] || !('0' <= rest[0] <= '9')
    ensures ReadRange(Decimal(first) + "-" + Decimal(last) + rest) == Some((Range(first, last), rest))
  {
    Reassociate(Decimal(first), Decimal(last), rest);
    NumberReadBack(first, "-" + (Decimal(last) + rest));
    NumberReadBack(last, rest);
  }

  lemma RangeReadBack(r: Range, rest: string)
    requires 0 <= r.first <= r.last && (rest == [] || rest[0] == ',')
    ensures ReadRange(RangeText(r) + rest) == Some((r, rest))
  {
    if r.first == r.last {
      NumberReadBack(r.first, rest);
    } else {
      PairReadBack(r.first, r.last, rest);
    }
  }

  lemma JoinedOne(rs: seq<Range>, text: string)
    requires |rs| == 1 && text == Join(RangeTexts(rs), ", ")
    ensures text == RangeText(rs[0]) + ""
  {}

  lemma JoinedMore(rs: seq<Range>, text: string) returns (rest: string)
    requires |rs| > 1 && text == Join(RangeTexts(rs), ", ")
    ensures rest == Join(RangeTexts(rs[1..]), ", ") && text == RangeText(rs[0]) + (", " + rest)
  {
    rest := Join(RangeTexts(rs[1..]), ", ");
    assert RangeTexts(rs)[1..] == RangeTexts(rs[1..]);
    Regroup(RangeText(rs[0]), ", ", rest);
  }

  lemma Regroup(a: string, b: string, c: string)
    ensures a + b + c == a + (b + c)
  {}

  lemma ReadLast(rs: seq<Range>, text: string)
    requires |rs| == 1 && 0 <= rs[0].first <= rs[0].last && text == RangeText(rs[0]) + ""
    ensures ReadRanges(text) == Some(rs)
  {
    assert rs == [rs[0]];
    RangeReadBack(rs[0], []);
  }

  lemma ReadFirst(rs: seq<Range>, rest: string, text: string)
    requires rs != [] && 0 <= rs[0].first <= rs[0].last && text == RangeText(rs[0]) + (", " + rest)
    requires ReadRanges(rest) == Some(rs[1..])
    ensures ReadRanges(text) == Some(rs)
  {
    var tail := ", " + rest;
    RangeReadBack(rs[0], tail);
    AfterComma(rest, tail);
    ReadThen(text, rs[0], tail, rest, rs);
  }

  lemma AfterComma(rest: string, tail: string)
    requires tail == ", " + rest
    ensures |tail| >= 2 && tail[..2] == ", " && tail[2..] == rest
  {}

  lemma ReadThen(text: string, r: Range, tail: string, rest: string, rs: seq<Range>)
    requires ReadRange(text) == Some((r, tail)) && |tail| >= 2 && tail[..2] == ", " && tail[2..] == rest
    requires rs != [] && rs[0] == r && ReadRanges(rest) == Some(rs[1..])
    ensures ReadRanges(text) == Some(rs)
  {
    assert rs == [r] + rs[1..];
  }

  lemma {:induction false} RangesReadBack(rs: seq<Range>, text: string)
    requires rs != [] && (forall k :: 0 <= k < |rs| ==> 0 <= rs[k].first <= rs[k].last) && text == Join(RangeTexts(rs), ", ")
    ensures ReadRanges(text) == Some(rs)
    decreases |rs|
  {
    if |rs| == 1 {
      JoinedOne(rs, text);
      ReadLast(rs, text);
    } else {
      var rest := JoinedMore(rs, text);
      RangesReadBack(rs[1..], rest);
      ReadFirst(rs, rest, text);
    }
  }

  /** Reading the printed ranges and expanding them gives the sorted indices back. */
  lemma IndexTextReadsBack(indices: seq<int>)
    requires indices != [] && forall i <- indices :: i >= 0
    ensures ReadRanges(IndexText(indices)).Some?
    ensures ExpandAll(ReadRanges(IndexText(indices)).value) == SortedIndices(indices)
  {
    var sorted := SortedIndices(indices);
    RunsExpand(sorted);
    RunsOrdered(sorted);
    RunsStart(sorted);
    RangesReadBack(Runs(sorted), IndexText(indices));
  }
}
