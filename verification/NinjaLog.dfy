/**
 Reading the build log (vllm/tools/report_build_time_ninja.py, ReadTargets): the lines of the
 last build, grouped by the hash of the command. Lines come split into their fields.
 */
module NinjaLog {
  import opened Options
  import opened Sorting
  import opened NinjaSweep
  import opened Numbers

  datatype Line = Malformed | Fields(startMs: int, endMs: int, name: string, cmdhash: string)

  datatype Record = Record(start: real, end: real, name: string, cmdhash: string)

  const HEADER := "# ninja log v5\n"

  function ToRecord(line: Line): Record
    requires line.Fields?
  {
    Record(line.startMs as real / 1000.0, line.endMs as real / 1000.0, line.name, line.cmdhash)
  }

  function WellFormed(lines: seq<Line>): seq<Record> {
    if lines == [] then []
    else
      var front, last := lines[..|lines| - 1], lines[|lines| - 1];
      WellFormed(front) + if last.Fields? then [ToRecord(last)] else []
  }

  // ----- Grouping by command hash -----

  /** The hashes in the order in which they first occur. */
  function FirstSeen(rs: seq<Record>): (hs: seq<string>)
    ensures forall h :: h in hs <==> exists r <- rs :: r.cmdhash == h
    ensures Distinct(hs)
  {
    if rs == [] then []
    else
      var front, last := rs[..|rs| - 1], rs[|rs| - 1];
      assert rs == front + [last];
      assert forall r :: r in rs <==> r in front || r == last;
      var hs := FirstSeen(front);
      if last.cmdhash in hs then hs else hs + [last.cmdhash]
  }

  function NamesOf(rs: seq<Record>, h: string): seq<string> {
    if rs == [] then []
    else
      var front, last := rs[..|rs| - 1], rs[|rs| - 1];
      NamesOf(front, h) + if last.cmdhash == h then [last.name] else []
  }

  /** `ts` groups `rs`: one target per hash in order of first appearance, with the times of the
      first line and the names of all lines of that hash. */
  ghost predicate Groups(ts: seq<Target>, rs: seq<Record>)
    reads ts
  {
    var hs := FirstSeen(rs);
    && |ts| == |hs| && Distinct(ts)
    && forall i :: 0 <= i < |hs| ==> Represents(ts[i], rs, hs[i])
  }

  ghost predicate Represents(t: Target, rs: seq<Record>, h: string)
    reads t
  {
    && t.targets == NamesOf(rs, h)
    && IsFirst(t.start, t.end, rs, h)
  }

  ghost predicate IsFirst(start: real, end: real, rs: seq<Record>, h: string) {
    exists k :: 0 <= k < |rs| && rs[k].cmdhash == h && start == rs[k].start && end == rs[k].end
                && forall j :: 0 <= j < k ==> rs[j].cmdhash != h
  }

  /** What one build writes: end times never decrease, one command has one time span. */
  ghost predicate OneBuild(rs: seq<Record>) {
    && (forall i, j :: 0 <= i < j < |rs| ==> rs[i].end <= rs[j].end)
    && forall i, j :: 0 <= i < j < |rs| && rs[i].cmdhash == rs[j].cmdhash ==> rs[i].start == rs[j].start && rs[i].end == rs[j].end
  }

  /** The lines from `c` up to `d` are a build, and with the next line they are none any more. */
  ghost predicate WholeBuild(rs: seq<Record>, c: int, d: int) {
    0 <= c < d < |rs| && OneBuild(rs[c..d]) && !OneBuild(rs[c..d + 1])
  }

  /** `starts` cuts the log into builds from its first line on: each goes on for as long as it
      looks like one build, and the last one reaches the end. */
  ghost predicate Builds(rs: seq<Record>, starts: seq<int>) {
    && starts != [] && starts[0] == 0
    && (forall k :: 0 < k < |starts| ==> WholeBuild(rs, starts[k - 1], starts[k]))
    && 0 <= starts[|starts| - 1] <= |rs| && OneBuild(rs[starts[|starts| - 1]..])
  }

  /** `cut` is where the last build begins. */
  ghost predicate LastBuild(rs: seq<Record>, cut: nat) {
    exists starts :: Builds(rs, starts) && cut == starts[|starts| - 1]
  }

  lemma WholeBuildIsLongest(rs: seq<Record>, c: int, d: int, e: int)
    requires WholeBuild(rs, c, d) && c <= e <= |rs| && OneBuild(rs[c..e])
    ensures e <= d
  {
    if d < e {
      PrefixIsOneBuild(rs[c..e], rs[c..d + 1]);
    }
  }

  lemma PrefixIsOneBuild(rs: seq<Record>, front: seq<Record>)
    requires OneBuild(rs) && front <= rs
    ensures OneBuild(front)
  {}

  lemma NothingAfterLast(rs: seq<Record>, starts: seq<int>, d: int)
    requires Builds(rs, starts)
    ensures !WholeBuild(rs, starts[|starts| - 1], d)
  {
    var c := starts[|starts| - 1];
    if c < d < |rs| {
      PrefixIsOneBuild(rs[c..], rs[c..d + 1]);
    }
  }

  /** While one cutting goes on, the other one has the same start there. */
  lemma SameStart(rs: seq<Record>, a: seq<int>, b: seq<int>, k: nat)
    requires Builds(rs, a) && Builds(rs, b) && 0 < k < |a| && k <= |b| && a[k - 1] == b[k - 1]
    ensures k < |b| && a[k] == b[k]
  {
    NothingAfterLast(rs, b, a[k]);
    assert WholeBuild(rs, a[k - 1], a[k]);
    assert WholeBuild(rs, b[k - 1], b[k]);
    WholeBuildIsLongest(rs, a[k - 1], a[k], b[k]);
    WholeBuildIsLongest(rs, a[k - 1], b[k], a[k]);
  }

  lemma {:induction false} SameStarts(rs: seq<Record>, a: seq<int>, b: seq<int>, k: nat)
    requires Builds(rs, a) && Builds(rs, b) && k <= |a|
    ensures k <= |b| && a[..k] == b[..k]
    decreases k
  {
    if k > 0 {
      SameStarts(rs, a, b, k - 1);
      if k > 1 {
        assert a[..k - 1][k - 2] == b[..k - 1][k - 2];
        SameStart(rs, a, b, k - 1);
      }
    }
  }

  /** A log has one last build. */
  lemma LastBuildIsUnique(rs: seq<Record>, cut: nat, cut': nat)
    requires LastBuild(rs, cut) && LastBuild(rs, cut')
    ensures cut == cut'
  {
    var a :| Builds(rs, a) && cut == a[|a| - 1];
    var b :| Builds(rs, b) && cut' == b[|b| - 1];
    SameStarts(rs, a, b, |a|);
    SameStarts(rs, b, a, |b|);
    assert a[..|a|] == a && b[..|b|] == b;
  }

  // ----- One more record -----

  lemma GroupsSnoc(rs: seq<Record>, r: Record, h: string)
    ensures FirstSeen(rs + [r]) == if r.cmdhash in FirstSeen(rs) then FirstSeen(rs) else FirstSeen(rs) + [r.cmdhash]
    ensures NamesOf(rs + [r], h) == NamesOf(rs, h) + if r.cmdhash == h then [r.name] else []
  {
    assert (rs + [r])[..|rs|] == rs;
  }

  lemma {:induction false} NoNames(rs: seq<Record>, h: string)
    requires h !in FirstSeen(rs)
    ensures NamesOf(rs, h) == []
    decreases |rs|
  {
    if rs != [] {
      assert rs[|rs| - 1] in rs;
      NoNames(rs[..|rs| - 1], h);
    }
  }

  lemma FirstStaysFirst(t: Target, rs: seq<Record>, r: Record, h: string)
    requires IsFirst(t.start, t.end, rs, h)
    ensures IsFirst(t.start, t.end, rs + [r], h)
  {
    var k :| 0 <= k < |rs| && rs[k].cmdhash == h && t.start == rs[k].start && t.end == rs[k].end
             && forall j :: 0 <= j < k ==> rs[j].cmdhash != h;
    assert (rs + [r])[k] == rs[k];
  }

  lemma NewIsFirst(t: Target, rs: seq<Record>, r: Record)
    requires r.cmdhash !in FirstSeen(rs) && t.start == r.start && t.end == r.end
    ensures IsFirst(t.start, t.end, rs + [r], r.cmdhash)
  {
    assert (rs + [r])[|rs|] == r;
    forall j | 0 <= j < |rs| ensures (rs + [r])[j].cmdhash != r.cmdhash {
      assert rs[j] in rs;
    }
  }

  /** A record continues the build exactly when neither test fires. */
  lemma Continues(rs: seq<Record>, r: Record, start: real, end: real)
    requires OneBuild(rs) && rs != []
    requires r.cmdhash in FirstSeen(rs) ==> IsFirst(start, end, rs, r.cmdhash)
    ensures OneBuild(rs + [r]) <==>
            && rs[|rs| - 1].end <= r.end
            && (r.cmdhash in FirstSeen(rs) ==> start == r.start && end == r.end)
  {
    var rs' := rs + [r];
    assert rs'[|rs|] == r && forall i :: 0 <= i < |rs| ==> rs'[i] == rs[i];
    if r.cmdhash in FirstSeen(rs) {
      var k :| 0 <= k < |rs| && rs[k].cmdhash == r.cmdhash && start == rs[k].start && end == rs[k].end;
      if OneBuild(rs') {
        assert rs'[k].cmdhash == rs'[|rs|].cmdhash;
      }
      if start == r.start && end == r.end && rs[|rs| - 1].end <= r.end {
        forall i | 0 <= i < |rs| && rs[i].cmdhash == r.cmdhash ensures rs[i].start == r.start && rs[i].end == r.end {
          assert i < k || i == k || k < i;
        }
        ContinuesWith(rs, r);
      }
    } else if rs[|rs| - 1].end <= r.end {
      forall i | 0 <= i < |rs| ensures rs[i].cmdhash != r.cmdhash { assert rs[i] in rs; }
      ContinuesWith(rs, r);
    }
  }

  lemma ContinuesWith(rs: seq<Record>, r: Record)
    requires OneBuild(rs) && rs != [] && rs[|rs| - 1].end <= r.end
    requires forall i :: 0 <= i < |rs| && rs[i].cmdhash == r.cmdhash ==> rs[i].start == r.start && rs[i].end == r.end
    ensures OneBuild(rs + [r])
  {
    var rs' := rs + [r];
    assert forall i :: 0 <= i < |rs| ==> rs'[i] == rs[i] && rs[i].end <= rs[|rs| - 1].end;
  }

  // ----- What the targets say about the lines -----

  /** `rs` are the lines that have all fields, in order, with times in seconds; `at` is where. */
  ghost predicate RecordsOf(lines: seq<Line>, at: seq<nat>, rs: seq<Record>) {
    && Ascending(at) && |at| == |rs|
    && (forall k :: 0 <= k < |at| ==> at[k] < |lines| && SaysLine(lines[at[k]], rs[k]))
    && forall i: nat :: HasFields(lines, 0, i) ==> i in at
  }

  ghost predicate HasFields(lines: seq<Line>, start: nat, i: nat) {
    start <= i < |lines| && lines[i].Fields?
  }

  ghost predicate SaysLine(line: Line, r: Record) {
    && line.Fields?
    && r.start * 1000.0 == line.startMs as real && r.end * 1000.0 == line.endMs as real
    && r.name == line.name && r.cmdhash == line.cmdhash
  }

  lemma {:induction false} WellFormedAt(lines: seq<Line>) returns (at: seq<nat>)
    ensures RecordsOf(lines, at, WellFormed(lines))
    decreases |lines|
  {
    if lines == [] {
      at := [];
    } else {
      var front, last := lines[..|lines| - 1], lines[|lines| - 1];
      at := WellFormedAt(front);
      assert lines == front + [last];
      MoreLines(front, last, at, WellFormed(front));
      if last.Fields? { at := at + [|front|]; }
    }
  }

  lemma MoreLines(front: seq<Line>, last: Line, at: seq<nat>, rs: seq<Record>)
    requires RecordsOf(front, at, rs)
    ensures if last.Fields? then RecordsOf(front + [last], at + [|front|], rs + [ToRecord(last)])
            else RecordsOf(front + [last], at, rs)
  {
    var lines := front + [last];
    forall k | 0 <= k < |at| ensures at[k] < |lines| && SaysLine(lines[at[k]], rs[k]) {
      assert lines[at[k]] == front[at[k]];
    }
    forall i: nat | HasFields(lines, 0, i) ensures i in at || i == |front| {
      if i < |front| { assert lines[i] == front[i] && HasFields(front, 0, i); }
    }
    if last.Fields? {
      RecordSaysLine(last);
      OneMorePosition(at, |front|);
    }
  }

  lemma RecordSaysLine(line: Line)
    requires line.Fields?
    ensures SaysLine(line, ToRecord(line))
  {}

  lemma OneMorePosition(at: seq<nat>, n: nat)
    requires Ascending(at) && forall k :: 0 <= k < |at| ==> at[k] < n
    ensures Ascending(at + [n]) && n in at + [n] && forall i <- at :: i in at + [n]
  {
    assert (at + [n])[|at|] == n;
  }

  /** A line of this hash, from line `start` on. */
  ghost predicate HasHash(lines: seq<Line>, start: nat, h: string, i: nat) {
    HasFields(lines, start, i) && lines[i].cmdhash == h
  }

  /** The target stands for the lines from `start` on that have the hash of line `first`: it has
      the times of that line, which is the first of them, and the names of all of them in order. */
  ghost predicate StandsFor(t: Target, lines: seq<Line>, start: nat, first: nat)
    reads t
  {
    && first < |lines| && lines[first].Fields?
    && HasHash(lines, start, lines[first].cmdhash, first)
    && (forall i: nat :: HasHash(lines, start, lines[first].cmdhash, i) ==> first <= i)
    && t.start * 1000.0 == lines[first].startMs as real && t.end * 1000.0 == lines[first].endMs as real
    && exists at :: NamesAt(t.targets, lines, start, lines[first].cmdhash, at)
  }

  ghost predicate NamesAt(names: seq<string>, lines: seq<Line>, start: nat, h: string, at: seq<nat>) {
    && Ascending(at) && |at| == |names|
    && (forall k :: 0 <= k < |at| ==> HasHash(lines, start, h, at[k]) && names[k] == lines[at[k]].name)
    && forall i: nat :: HasHash(lines, start, h, i) ==> i in at
  }

  /** One target per hash of the lines from `start` on, by the first line of each hash. */
  ghost predicate TargetsOf(ts: seq<Target>, lines: seq<Line>, start: nat, firsts: seq<nat>)
    reads ts
  {
    && Ascending(firsts) && |firsts| == |ts|
    && (forall k :: 0 <= k < |ts| ==> StandsFor(ts[k], lines, start, firsts[k]))
    && forall i: nat :: HasFields(lines, start, i) ==> exists k :: 0 <= k < |firsts| && HasHash(lines, start, lines[i].cmdhash, firsts[k])
  }

  lemma {:induction false} FirstsOf(rs: seq<Record>, hs: seq<string>) returns (firsts: seq<nat>)
    requires hs == FirstSeen(rs)
    ensures Ascending(firsts) && |firsts| == |hs|
    ensures forall k :: 0 <= k < |hs| ==> IsFirstOf(rs, hs[k], firsts[k])
    decreases |rs|
  {
    if rs == [] {
      firsts := [];
    } else {
      var front, last := rs[..|rs| - 1], rs[|rs| - 1];
      assert rs == front + [last];
      var before := FirstSeen(front);
      firsts := FirstsOf(front, before);
      forall k | 0 <= k < |before| ensures IsFirstOf(rs, before[k], firsts[k]) {
        assert rs[firsts[k]] == front[firsts[k]];
        assert forall j :: 0 <= j < firsts[k] ==> rs[j] == front[j];
      }
      if last.cmdhash !in before {
        assert forall j :: 0 <= j < |front| ==> rs[j] == front[j] && front[j] in front;
        firsts := firsts + [|front|];
      }
    }
  }

  ghost predicate IsFirstOf(rs: seq<Record>, h: string, k: nat) {
    k < |rs| && rs[k].cmdhash == h && forall j :: 0 <= j < k ==> rs[j].cmdhash != h
  }

  ghost predicate NamesAmong(rs: seq<Record>, h: string, names: seq<string>, at: seq<nat>) {
    && Ascending(at) && |at| == |names|
    && (forall k :: 0 <= k < |at| ==> at[k] < |rs| && rs[at[k]].cmdhash == h && names[k] == rs[at[k]].name)
    && forall i: nat :: i < |rs| && rs[i].cmdhash == h ==> i in at
  }

  lemma {:induction false} NamesOfAt(rs: seq<Record>, h: string, names: seq<string>) returns (at: seq<nat>)
    requires names == NamesOf(rs, h)
    ensures NamesAmong(rs, h, names, at)
    decreases |rs|
  {
    if rs == [] {
      at := [];
    } else {
      var front, last := rs[..|rs| - 1], rs[|rs| - 1];
      assert rs == front + [last];
      at := NamesOfAt(front, h, NamesOf(front, h));
      at := OneMoreName(front, last, h, NamesOf(front, h), at);
    }
  }

  lemma OneMoreName(front: seq<Record>, last: Record, h: string, names: seq<string>, at: seq<nat>) returns (at': seq<nat>)
    requires NamesAmong(front, h, names, at)
    ensures NamesAmong(front + [last], h, names + if last.cmdhash == h then [last.name] else [], at')
  {
    var rs := front + [last];
    assert forall i :: 0 <= i < |front| ==> rs[i] == front[i];
    at' := at;
    if last.cmdhash == h {
      OneMorePosition(at, |front|);
      at' := at + [|front|];
    }
  }

  /** The records from `cut` on are those of the lines from `start` on. */
  ghost predicate Kept(at: seq<nat>, cut: nat, start: nat) {
    forall k :: 0 <= k < |at| ==> (cut <= k <==> start <= at[k])
  }

  lemma KeptLine(lines: seq<Line>, at: seq<nat>, rs: seq<Record>, cut: nat, start: nat, i: nat) returns (k: nat)
    requires RecordsOf(lines, at, rs) && cut <= |rs| && Kept(at, cut, start)
    requires HasFields(lines, start, i)
    ensures k < |rs[cut..]| && at[cut + k] == i && SaysLine(lines[i], rs[cut..][k])
  {
    assert HasFields(lines, 0, i);
    var l :| 0 <= l < |at| && at[l] == i;
    k := l - cut;
    KeptRecord(lines, at, rs, cut, start, k);
  }

  lemma KeptRecord(lines: seq<Line>, at: seq<nat>, rs: seq<Record>, cut: nat, start: nat, k: nat)
    requires RecordsOf(lines, at, rs) && cut <= |rs| && Kept(at, cut, start) && k < |rs[cut..]|
    ensures HasFields(lines, start, at[cut + k]) && SaysLine(lines[at[cut + k]], rs[cut..][k])
  {
    assert rs[cut..][k] == rs[cut + k];
  }

  /** The line numbers of some kept records. */
  function LinesAt(at: seq<nat>, cut: nat, there: seq<nat>): (where: seq<nat>)
    requires forall k :: 0 <= k < |there| ==> cut + there[k] < |at|
    ensures |where| == |there| && forall k :: 0 <= k < |there| ==> where[k] == at[cut + there[k]]
  {
    seq(|there|, k requires 0 <= k < |there| => at[cut + there[k]])
  }

  lemma LinesAscend(at: seq<nat>, cut: nat, there: seq<nat>)
    requires Ascending(at) && Ascending(there) && forall k :: 0 <= k < |there| ==> cut + there[k] < |at|
    ensures Ascending(LinesAt(at, cut, there))
  {}

  /** From positions among the kept records to line numbers. */
  lemma NamesOnLines(lines: seq<Line>, at: seq<nat>, rs: seq<Record>, cut: nat, start: nat, h: string, names: seq<string>)
    returns (where: seq<nat>)
    requires RecordsOf(lines, at, rs) && cut <= |rs| && Kept(at, cut, start) && names == NamesOf(rs[cut..], h)
    ensures NamesAt(names, lines, start, h, where)
  {
    var kept := rs[cut..];
    var there := NamesOfAt(kept, h, names);
    where := LinesAt(at, cut, there);
    LinesAscend(at, cut, there);
    forall k | 0 <= k < |where| ensures HasHash(lines, start, h, where[k]) && names[k] == lines[where[k]].name {
      KeptRecord(lines, at, rs, cut, start, there[k]);
    }
    forall i: nat | HasHash(lines, start, h, i) ensures i in where {
      NameIsThere(lines, at, rs, cut, start, kept, h, names, there, where, i);
    }
  }

  lemma NameIsThere(lines: seq<Line>, at: seq<nat>, rs: seq<Record>, cut: nat, start: nat, kept: seq<Record>, h: string,
                    names: seq<string>, there: seq<nat>, where: seq<nat>, i: nat)
    requires RecordsOf(lines, at, rs) && cut <= |rs| && Kept(at, cut, start) && kept == rs[cut..]
    requires NamesAmong(kept, h, names, there) && where == LinesAt(at, cut, there) && HasHash(lines, start, h, i)
    ensures i in where
  {
    var k := KeptLine(lines, at, rs, cut, start, i);
    var l :| 0 <= l < |there| && there[l] == k;
    assert where[l] == i;
  }

  lemma StandsForIts(t: Target, lines: seq<Line>, at: seq<nat>, rs: seq<Record>, cut: nat, start: nat, h: string, k: nat)
    requires RecordsOf(lines, at, rs) && cut <= |rs| && Kept(at, cut, start)
    requires Represents(t, rs[cut..], h) && IsFirstOf(rs[cut..], h, k)
    ensures StandsFor(t, lines, start, at[cut + k]) && HasHash(lines, start, h, at[cut + k])
  {
    var kept, first := rs[cut..], at[cut + k];
    OneFirst(t, kept, h, k);
    KeptRecord(lines, at, rs, cut, start, k);
    forall i: nat | HasHash(lines, start, h, i) ensures first <= i {
      var j := KeptLine(lines, at, rs, cut, start, i);
    }
    var where := NamesOnLines(lines, at, rs, cut, start, h, t.targets);
  }

  lemma OneFirst(t: Target, kept: seq<Record>, h: string, k: nat)
    requires IsFirst(t.start, t.end, kept, h) && IsFirstOf(kept, h, k)
    ensures t.start == kept[k].start && t.end == kept[k].end
  {
    var l :| 0 <= l < |kept| && kept[l].cmdhash == h && t.start == kept[l].start && t.end == kept[l].end
             && forall j :: 0 <= j < l ==> kept[j].cmdhash != h;
    assert !(l < k) && !(k < l);
  }

  /** The grouped records, said of the lines. */
  lemma GroupsOfLines(ts: seq<Target>, lines: seq<Line>, at: seq<nat>, rs: seq<Record>, cut: nat, start: nat) returns (firsts: seq<nat>)
    requires RecordsOf(lines, at, rs) && cut <= |rs| && Kept(at, cut, start) && Groups(ts, rs[cut..])
    ensures TargetsOf(ts, lines, start, firsts)
  {
    var kept := rs[cut..];
    var hs := FirstSeen(kept);
    var there := FirstsOf(kept, hs);
    firsts := LinesAt(at, cut, there);
    LinesAscend(at, cut, there);
    forall k | 0 <= k < |ts| ensures StandsFor(ts[k], lines, start, firsts[k]) && HasHash(lines, start, hs[k], firsts[k]) {
      StandsForIts(ts[k], lines, at, rs, cut, start, hs[k], there[k]);
    }
    forall i: nat | HasFields(lines, start, i)
      ensures exists k :: 0 <= k < |firsts| && HasHash(lines, start, lines[i].cmdhash, firsts[k])
    {
      var k := HashIsSeen(lines, at, rs, cut, start, kept, hs, i);
      assert HasHash(lines, start, hs[k], firsts[k]);
    }
  }

  lemma HashIsSeen(lines: seq<Line>, at: seq<nat>, rs: seq<Record>, cut: nat, start: nat, kept: seq<Record>, hs: seq<string>, i: nat)
    returns (k: nat)
    requires RecordsOf(lines, at, rs) && cut <= |rs| && Kept(at, cut, start) && kept == rs[cut..]
    requires hs == FirstSeen(kept) && HasFields(lines, start, i)
    ensures k < |hs| && hs[k] == lines[i].cmdhash
  {
    var j := KeptLine(lines, at, rs, cut, start, i);
    IsSeen(kept, kept[j]);
    k :| 0 <= k < |hs| && hs[k] == kept[j].cmdhash;
  }

  lemma IsSeen(rs: seq<Record>, r: Record)
    requires r in rs
    ensures r.cmdhash in FirstSeen(rs)
  {
    var h := r.cmdhash;
    assert exists q <- rs :: q.cmdhash == h;
  }

  // ----- The dictionary of targets -----

  /** An insertion-ordered dictionary: its keys in order, and (ghost) its values in that order. */
  ghost predicate Ordered(dict: map<string, Target>, keys: seq<string>, ts: seq<Target>) {
    && |keys| == |ts|
    && (forall h <- dict :: h in keys)
    && forall i :: 0 <= i < |keys| ==> keys[i] in dict && dict[keys[i]] == ts[i]
  }

  /** The group of a known hash gets one more name. */
  method AppendName(ghost ts: seq<Target>, ghost rs: seq<Record>, r: Record, target: Target, ghost i: nat)
    requires Groups(ts, rs) && i < |ts| && target == ts[i] && FirstSeen(rs)[i] == r.cmdhash
    modifies target`targets
    ensures Groups(ts, rs + [r])
  {
    GroupsSnoc(rs, r, r.cmdhash);
    target.targets := target.targets + [r.name];
    forall j | 0 <= j < |ts| ensures Represents(ts[j], rs + [r], FirstSeen(rs)[j]) {
      GroupsSnoc(rs, r, FirstSeen(rs)[j]);
      FirstStaysFirst(ts[j], rs, r, FirstSeen(rs)[j]);
    }
  }

  /** Groups of other hashes stay what they are. */
  lemma OthersStay(ts: seq<Target>, rs: seq<Record>, r: Record)
    requires Groups(ts, rs) && r.cmdhash !in FirstSeen(rs)
    ensures forall j :: 0 <= j < |ts| ==> Represents(ts[j], rs + [r], FirstSeen(rs)[j])
  {
    forall j | 0 <= j < |ts| ensures Represents(ts[j], rs + [r], FirstSeen(rs)[j]) {
      GroupsSnoc(rs, r, FirstSeen(rs)[j]);
      FirstStaysFirst(ts[j], rs, r, FirstSeen(rs)[j]);
    }
  }

  lemma GroupAtEnd(ts: seq<Target>, target: Target, rs: seq<Record>, r: Record)
    requires Distinct(ts) && target !in ts && |ts| == |FirstSeen(rs)| && r.cmdhash !in FirstSeen(rs)
    requires forall j :: 0 <= j < |ts| ==> Represents(ts[j], rs + [r], FirstSeen(rs)[j])
    requires Represents(target, rs + [r], r.cmdhash)
    ensures Groups(ts + [target], rs + [r])
  {
    GroupsSnoc(rs, r, r.cmdhash);
  }

  /** A new hash gets a group of its own. */
  method OpenGroup(ghost ts: seq<Target>, ghost rs: seq<Record>, r: Record) returns (target: Target)
    requires Groups(ts, rs) && r.cmdhash !in FirstSeen(rs)
    ensures fresh(target) && Groups(ts + [target], rs + [r])
  {
    OthersStay(ts, rs, r);
    GroupsSnoc(rs, r, r.cmdhash);
    NoNames(rs, r.cmdhash);
    target := new Target(r.start, r.end);
    target.targets := target.targets + [r.name];
    NewIsFirst(target, rs, r);
    GroupAtEnd(ts, target, rs, r);
  }

  // ----- The loop -----

  lemma SameSlices(rs: seq<Record>, r: Record, c: nat, d: nat)
    requires c <= d <= |rs|
    ensures (rs + [r])[c..d] == rs[c..d] && (rs + [r])[c..] == rs[c..] + [r]
  {}

  lemma StillWhole(rs: seq<Record>, starts: seq<int>, r: Record)
    requires Builds(rs, starts)
    ensures forall k :: 0 < k < |starts| ==> WholeBuild(rs + [r], starts[k - 1], starts[k])
  {
    forall k | 0 < k < |starts| ensures WholeBuild(rs + [r], starts[k - 1], starts[k]) {
      assert WholeBuild(rs, starts[k - 1], starts[k]);
      SameSlices(rs, r, starts[k - 1], starts[k]);
      SameSlices(rs, r, starts[k - 1], starts[k] + 1);
    }
  }

  lemma BuildGoesOn(rs: seq<Record>, cut: nat, r: Record)
    requires cut <= |rs| && LastBuild(rs, cut) && OneBuild(rs[cut..] + [r])
    ensures LastBuild(rs + [r], cut)
  {
    var starts :| Builds(rs, starts) && cut == starts[|starts| - 1];
    StillWhole(rs, starts, r);
    SameSlices(rs, r, cut, |rs|);
    assert Builds(rs + [r], starts);
  }

  lemma OneMoreBuild(rs: seq<Record>, starts: seq<int>, cut: int, r: Record)
    requires Builds(rs, starts) && cut == starts[|starts| - 1]
    requires WholeBuild(rs + [r], cut, |rs|)
    ensures Builds(rs + [r], starts + [|rs|])
  {
    StillWhole(rs, starts, r);
    assert (rs + [r])[|rs|..] == [r];
  }

  lemma BuildStartsAnew(rs: seq<Record>, cut: nat, r: Record)
    requires cut < |rs| && LastBuild(rs, cut) && !OneBuild(rs[cut..] + [r])
    ensures LastBuild(rs + [r], |rs|)
  {
    var starts :| Builds(rs, starts) && cut == starts[|starts| - 1];
    assert (rs + [r])[cut..|rs|] == rs[cut..] && (rs + [r])[cut..|rs| + 1] == rs[cut..] + [r];
    OneMoreBuild(rs, starts, cut, r);
  }

  lemma BuildDecision(rs: seq<Record>, cut: nat, r: Record, keep: bool)
    requires cut <= |rs| && (rs != [] ==> cut < |rs|) && LastBuild(rs, cut)
    requires rs != [] ==> (keep <==> OneBuild(rs[cut..] + [r]))
    ensures LastBuild(rs + [r], if keep then cut else |rs|)
  {
    if rs == [] {
      assert rs + [r] == [r] && [r][0..] == [r];
      assert Builds([r], [0]);
    } else if keep {
      BuildGoesOn(rs, cut, r);
    } else {
      BuildStartsAnew(rs, cut, r);
    }
  }

  /** Whether the record `r` still belongs to the build read so far. */
  method StillSameBuild(dict: map<string, Target>, keys: seq<string>, ghost ts: seq<Target>, ghost cur: seq<Record>,
                        r: Record, lastEndSeen: real) returns (keep: bool)
    requires Ordered(dict, keys, ts) && keys == FirstSeen(cur) && Groups(ts, cur)
    requires cur != [] ==> lastEndSeen == cur[|cur| - 1].end
    requires cur == [] ==> keys == []
    ensures cur != [] && OneBuild(cur) ==> (keep <==> OneBuild(cur + [r]))
  {
    keep := r.end >= lastEndSeen;
    ghost var start, end := 0.0, 0.0;
    if r.cmdhash in dict {
      var target := dict[r.cmdhash];
      keep := keep && target.start == r.start && target.end == r.end;
      start, end := target.start, target.end;
      assert exists i :: 0 <= i < |keys| && keys[i] == r.cmdhash && ts[i] == target;
    }
    if cur != [] && OneBuild(cur) { Continues(cur, r, start, end); }
  }

  lemma OrderedSnoc(dict: map<string, Target>, keys: seq<string>, ts: seq<Target>, h: string, target: Target)
    requires Ordered(dict, keys, ts) && h !in dict
    ensures Ordered(dict[h := target], keys + [h], ts + [target])
  {
    assert forall k <- keys :: k in dict;
  }

  lemma OrderedKeys(dict: map<string, Target>, keys: seq<string>, ts: seq<Target>)
    requires Ordered(dict, keys, ts)
    ensures forall h :: h in keys <==> h in dict
  {}

  lemma FindKey(dict: map<string, Target>, keys: seq<string>, ts: seq<Target>, h: string) returns (j: nat)
    requires Ordered(dict, keys, ts) && h in dict
    ensures j < |keys| && keys[j] == h && dict[h] == ts[j]
  {
    j :| 0 <= j < |keys| && keys[j] == h;
  }

  /** The record's name goes into the group of its hash. */
  method AddRecord(dict: map<string, Target>, keys: seq<string>, ghost ts: seq<Target>, ghost cur: seq<Record>, r: Record)
    returns (dict': map<string, Target>, keys': seq<string>, ghost ts': seq<Target>)
    requires Ordered(dict, keys, ts) && keys == FirstSeen(cur) && Groups(ts, cur)
    modifies (set t | t in ts)`targets
    ensures Ordered(dict', keys', ts') && keys' == FirstSeen(cur + [r]) && Groups(ts', cur + [r])
    ensures forall t <- ts' :: t in ts || fresh(t)
  {
    GroupsSnoc(cur, r, r.cmdhash);
    if r.cmdhash in dict {
      ghost var j := FindKey(dict, keys, ts, r.cmdhash);
      AppendName(ts, cur, r, dict[r.cmdhash], j);
      dict', keys', ts' := dict, keys, ts;
    } else {
      OrderedKeys(dict, keys, ts);
      var target := OpenGroup(ts, cur, r);
      OrderedSnoc(dict, keys, ts, r.cmdhash, target);
      dict', keys', ts' := dict[r.cmdhash := target], keys + [r.cmdhash], ts + [target];
    }
  }

  /** What has been read so far: `rs`, of which the lines from `cut` on are kept and grouped. */
  ghost predicate Reading(dict: map<string, Target>, keys: seq<string>, ts: seq<Target>, rs: seq<Record>, cut: nat,
                          lastEndSeen: real, showAll: bool)
    reads ts
  {
    && cut <= |rs| && (rs != [] ==> cut < |rs| && lastEndSeen == rs[|rs| - 1].end)
    && Ordered(dict, keys, ts) && keys == FirstSeen(rs[cut..]) && Groups(ts, rs[cut..])
    && if showAll then cut == 0 else LastBuild(rs, cut)
  }

  /** Before a record is added, what is there is dropped if it belongs to an earlier build. */
  method DropEarlierBuild(dict: map<string, Target>, keys: seq<string>, ghost ts: seq<Target>, ghost rs: seq<Record>,
                          ghost cut: nat, lastEndSeen: real, showAll: bool, r: Record)
    returns (dict': map<string, Target>, keys': seq<string>, ghost ts': seq<Target>, ghost cut': nat)
    requires Reading(dict, keys, ts, rs, cut, lastEndSeen, showAll)
    ensures cut' <= |rs| && Ordered(dict', keys', ts') && keys' == FirstSeen(rs[cut'..]) && Groups(ts', rs[cut'..])
    ensures if showAll then cut' == 0 else LastBuild(rs + [r], cut')
    ensures ts' == ts || ts' == []
  {
    var keep := StillSameBuild(dict, keys, ts, rs[cut..], r, lastEndSeen);
    keep := keep || showAll;
    dict', keys', ts', cut' := dict, keys, ts, cut;
    if !showAll { BuildDecision(rs, cut, r, keep); }
    if !keep {
      dict', keys', ts', cut' := map[], [], [], |rs|;
    }
  }

  lemma ReadOne(dict: map<string, Target>, keys: seq<string>, ts: seq<Target>, rs: seq<Record>, cut: nat, showAll: bool, r: Record)
    requires cut <= |rs| && Ordered(dict, keys, ts) && keys == FirstSeen(rs[cut..] + [r]) && Groups(ts, rs[cut..] + [r])
    requires if showAll then cut == 0 else LastBuild(rs + [r], cut)
    ensures Reading(dict, keys, ts, rs + [r], cut, r.end, showAll)
  {
    assert (rs + [r])[cut..] == rs[cut..] + [r];
  }

  lemma NothingRead(lastEndSeen: real, showAll: bool)
    ensures Reading(map[], [], [], [], 0, lastEndSeen, showAll)
  {
    assert Builds([], [0]);
  }

  lemma OnLines(ts: seq<Target>, lines: seq<Line>, rs: seq<Record>, cut: nat)
    returns (at: seq<nat>, start: nat, firsts: seq<nat>)
    requires rs == WellFormed(lines) && cut <= |rs| && (rs != [] ==> cut < |rs|) && Groups(ts, rs[cut..])
    ensures RecordsOf(lines, at, rs) && Kept(at, cut, start) && TargetsOf(ts, lines, start, firsts)
    ensures cut == 0 ==> start == 0
  {
    at := WellFormedAt(lines);
    start := if cut == 0 then 0 else at[cut];
    firsts := GroupsOfLines(ts, lines, at, rs, cut, start);
  }

  /** One well-formed line. */
  method ReadRecord(dict: map<string, Target>, keys: seq<string>, ghost ts: seq<Target>, ghost rs: seq<Record>,
                    ghost cut: nat, lastEndSeen: real, showAll: bool, r: Record)
    returns (dict': map<string, Target>, keys': seq<string>, ghost ts': seq<Target>, ghost cut': nat)
    requires Reading(dict, keys, ts, rs, cut, lastEndSeen, showAll)
    modifies (set t | t in ts)`targets
    ensures Reading(dict', keys', ts', rs + [r], cut', r.end, showAll)
    ensures forall t <- ts' :: t in ts || fresh(t)
  {
    dict', keys', ts', cut' := DropEarlierBuild(dict, keys, ts, rs, cut, lastEndSeen, showAll, r);
    dict', keys', ts' := AddRecord(dict', keys', ts', rs[cut'..], r);
    ReadOne(dict', keys', ts', rs, cut', showAll, r);
  }

  /** Reads the log. With `showAll` every well-formed line counts, otherwise those of the last
      build; the result groups exactly those lines by their hash. */
  method ReadTargets(header: string, lines: seq<Line>, showAll: bool)
    returns (result: Option<seq<Target>>, ghost start: nat, ghost at: seq<nat>, ghost rs: seq<Record>, ghost cut: nat,
             ghost firsts: seq<nat>)
    ensures result.None? <==> header != "# ninja log v5\n"
    ensures result.Some? ==> RecordsOf(lines, at, rs) && Kept(at, cut, start) && cut <= |rs|
    ensures result.Some? ==> if showAll then start == 0 else LastBuild(rs, cut)
    ensures result.Some? ==> TargetsOf(result.value, lines, start, firsts)
    ensures result.Some? ==> rs == WellFormed(lines) && Groups(result.value, rs[cut..])
    ensures result.Some? ==> forall t <- result.value :: fresh(t)
  {
    start, at, rs, cut, firsts := 0, [], [], 0, [];
    if header != HEADER {
      return None, 0, [], [], 0, [];
    }
    var dict: map<string, Target>, keys: seq<string> := map[], [];
    var lastEndSeen := 0.0;
    ghost var ts: seq<Target> := [];
    NothingRead(lastEndSeen, showAll);
    for i := 0 to |lines|
      invariant rs == WellFormed(lines[..i])
      invariant Reading(dict, keys, ts, rs, cut, lastEndSeen, showAll)
      invariant fresh(set t | t in ts)
    {
      WellFormedSnoc(lines, i);
      if lines[i].Fields? {
        var r := ToRecord(lines[i]);
        dict, keys, ts, cut := ReadRecord(dict, keys, ts, rs, cut, lastEndSeen, showAll, r);
        rs := rs + [r];
        lastEndSeen := r.end;
      }
    }
    WellFormedAll(lines, rs);
    var values := Values(dict, keys, ts);
    at, start, firsts := OnLines(values, lines, rs, cut);
    result := Some(values);
  }

  lemma WellFormedAll(lines: seq<Line>, rs: seq<Record>)
    requires rs == WellFormed(lines[..|lines|])
    ensures rs == WellFormed(lines)
  {
    assert lines[..|lines|] == lines;
  }

  lemma WellFormedSnoc(lines: seq<Line>, i: nat)
    requires i < |lines|
    ensures WellFormed(lines[..i + 1]) == WellFormed(lines[..i]) + if lines[i].Fields? then [ToRecord(lines[i])] else []
  {
    assert lines[..i + 1][..i] == lines[..i];
  }

  method Values(dict: map<string, Target>, keys: seq<string>, ghost ts: seq<Target>) returns (values: seq<Target>)
    requires Ordered(dict, keys, ts)
    ensures values == ts
  {
    values := [];
    for i := 0 to |keys|
      invariant values == ts[..i]
    {
      values := values + [dict[keys[i]]];
    }
  }
}
