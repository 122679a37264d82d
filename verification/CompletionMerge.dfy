/**
 Merging streamed completions, on values (vllm/vllm/outputs.py, RequestOutput.add): what one
 added completion does, that splitting a stream differently does not matter, and what a whole
 stream adds up to.
 */
module CompletionMerge {
  import opened Options

  /** One completion of a request. Log probabilities are kept per position. */
  datatype Completion = Completion(
    index: int,
    text: string,
    tokenIds: seq<int>,
    cumulativeLogprob: Option<real>,
    logprobs: Option<seq<map<int, real>>>,
    finishReason: Option<string>,
    stopReason: Option<string>,
    loraRequest: Option<string>)

  /** Outputs after adding, and whether the assertion on log probabilities held. */
  datatype Added = Added(outs: seq<Completion>, ok: bool)

  function Find(outs: seq<Completion>, index: int): (i: nat)
    ensures i <= |outs|
    ensures i < |outs| ==> outs[i].index == index
    ensures forall j :: 0 <= j < i ==> outs[j].index != index
  {
    if outs == [] then 0 else if outs[0].index == index then 0 else 1 + Find(outs[1..], index)
  }

  /** New log probabilities need a place to go. */
  predicate HasRoomFor(c: Completion, next: Completion) {
    next.logprobs.Some? && next.logprobs.value != [] ==> c.logprobs.Some?
  }

  /** Text, tokens and log probabilities are appended, the closing fields are the newer ones. */
  function Combine(c: Completion, next: Completion): Completion {
    c.(text := c.text + next.text,
       tokenIds := c.tokenIds + next.tokenIds,
       logprobs := if c.logprobs.Some? && next.logprobs.Some? then Some(c.logprobs.value + next.logprobs.value) else c.logprobs,
       cumulativeLogprob := next.cumulativeLogprob,
       finishReason := next.finishReason,
       stopReason := next.stopReason)
  }

  /** A completion after a newer one of its index came in, and whether the assertion held: if
      not, text and tokens have been merged already. */
  function Absorbed(c: Completion, next: Completion): (Completion, bool) {
    if HasRoomFor(c, next) then (Combine(c, next), true)
    else (c.(text := c.text + next.text, tokenIds := c.tokenIds + next.tokenIds), false)
  }

  /** One completion is added: merged into the first one of its index, put in its place, or
      appended. */
  function AddOne(outs: seq<Completion>, next: Completion, aggregate: bool): Added {
    var i := Find(outs, next.index);
    if i == |outs| then Added(outs + [next], true)
    else if !aggregate then Added(outs[i := next], true)
    else Added(outs[i := Absorbed(outs[i], next).0], Absorbed(outs[i], next).1)
  }

  function AddAll(outs: seq<Completion>, nexts: seq<Completion>, aggregate: bool): Added {
    if nexts == [] then Added(outs, true)
    else
      var a := AddAll(outs, nexts[..|nexts| - 1], aggregate);
      if a.ok then AddOne(a.outs, nexts[|nexts| - 1], aggregate) else a
  }

  ghost predicate UniqueIndices(outs: seq<Completion>) {
    forall i, j :: 0 <= i < j < |outs| ==> outs[i].index != outs[j].index
  }

  /** Log probabilities are present everywhere or nowhere. */
  ghost predicate Uniform(outs: seq<Completion>, present: bool) {
    forall i :: 0 <= i < |outs| ==> outs[i].logprobs.Some? == present
  }

  // ----- Aggregation without failures -----

  function Merge(outs: seq<Completion>, next: Completion): (r: seq<Completion>)
    ensures |outs| <= |r| <= |outs| + 1
  {
    var i := Find(outs, next.index);
    if i == |outs| then outs + [next] else outs[i := Combine(outs[i], next)]
  }

  function MergeAll(outs: seq<Completion>, nexts: seq<Completion>): seq<Completion> {
    if nexts == [] then outs else Merge(MergeAll(outs, nexts[..|nexts| - 1]), nexts[|nexts| - 1])
  }

  lemma {:induction false} FindUnique(outs: seq<Completion>, i: nat, index: int)
    requires i < |outs| && outs[i].index == index && forall j :: 0 <= j < i ==> outs[j].index != index
    ensures Find(outs, index) == i
  {
    var f := Find(outs, index);
    assert f <= i;
  }

  /** Adding is merging as long as log probabilities are uniformly present or absent; the
      assertion then never fails. */
  lemma {:induction false} AddingIsMerging(outs: seq<Completion>, nexts: seq<Completion>, present: bool)
    requires Uniform(outs, present) && Uniform(nexts, present)
    ensures AddAll(outs, nexts, true) == Added(MergeAll(outs, nexts), true)
    ensures Uniform(MergeAll(outs, nexts), present)
    decreases |nexts|
  {
    if nexts != [] {
      AddingIsMerging(outs, nexts[..|nexts| - 1], present);
    }
  }

  // ----- Exactly when the assertion fails -----

  predicate Carries(c: Completion) {
    c.logprobs.Some? && c.logprobs.value != []
  }

  /** The completion of `index` was there first without log probabilities: in `outs`, or else as
      the first one of `nexts`. */
  predicate Lacks(outs: seq<Completion>, nexts: seq<Completion>, index: int) {
    var i, j := Find(outs, index), Find(nexts, index);
    if i < |outs| then outs[i].logprobs.None? else j < |nexts| && nexts[j].logprobs.None?
  }

  lemma FindSnoc(cs: seq<Completion>, c: Completion, index: int)
    ensures Find(cs + [c], index) ==
            if Find(cs, index) < |cs| then Find(cs, index) else if c.index == index then |cs| else |cs| + 1
  {
    var f := Find(cs + [c], index);
    if Find(cs, index) < |cs| {
      FindUnique(cs + [c], Find(cs, index), index);
    } else if c.index == index {
      FindUnique(cs + [c], |cs|, index);
    }
  }

  lemma FindUpdated(cs: seq<Completion>, i: nat, c: Completion, index: int)
    requires i < |cs| && c.index == cs[i].index
    ensures Find(cs[i := c], index) == Find(cs, index)
  {
    if Find(cs, index) < |cs| { FindUnique(cs[i := c], Find(cs, index), index); }
  }

  /** What adding one completion does to the presence of log probabilities at `index`: nothing,
      unless it is the first of its index. */
  lemma PresenceAfterOne(outs: seq<Completion>, next: Completion, index: int)
    requires AddOne(outs, next, true).ok
    ensures Lacks(AddOne(outs, next, true).outs, [], index) <==>
            Lacks(outs, [], index) || (Find(outs, index) == |outs| && next.index == index && next.logprobs.None?)
  {
    var i := Find(outs, next.index);
    if i == |outs| {
      FindSnoc(outs, next, index);
    } else {
      FindUpdated(outs, i, Absorbed(outs[i], next).0, index);
    }
  }

  lemma FoundAfterOne(outs: seq<Completion>, next: Completion, index: int)
    ensures var after := AddOne(outs, next, true).outs;
            Find(after, index) < |after| <==> Find(outs, index) < |outs| || next.index == index
  {
    var i := Find(outs, next.index);
    if i == |outs| {
      FindSnoc(outs, next, index);
    } else {
      FindUpdated(outs, i, Absorbed(outs[i], next).0, index);
    }
  }

  lemma LacksSnoc(outs: seq<Completion>, nexts: seq<Completion>, c: Completion, index: int)
    ensures Lacks(outs, nexts + [c], index) <==>
            || Lacks(outs, nexts, index)
            || (Find(outs, index) == |outs| && Find(nexts, index) == |nexts| && c.index == index && c.logprobs.None?)
  {
    FindSnoc(nexts, c, index);
  }

  /** As long as nothing failed, the outputs have the completions of both ... */
  lemma {:induction false} FoundAfterAll(outs: seq<Completion>, nexts: seq<Completion>, index: int, after: seq<Completion>)
    requires AddAll(outs, nexts, true) == Added(after, true)
    ensures Find(after, index) < |after| <==> Find(outs, index) < |outs| || Find(nexts, index) < |nexts|
    decreases |nexts|
  {
    if nexts != [] {
      var front, last := nexts[..|nexts| - 1], nexts[|nexts| - 1];
      var before := AddAll(outs, front, true).outs;
      FoundAfterAll(outs, front, index, before);
      FoundAfterOne(before, last, index);
      assert nexts == front + [last];
      FindSnoc(front, last, index);
    }
  }

  /** ... and lack log probabilities where the first one of an index lacked them. */
  lemma {:induction false} PresenceAfterAll(outs: seq<Completion>, nexts: seq<Completion>, index: int, after: seq<Completion>)
    requires AddAll(outs, nexts, true) == Added(after, true)
    ensures Lacks(after, [], index) <==> Lacks(outs, nexts, index)
    decreases |nexts|
  {
    if nexts != [] {
      var front, last := nexts[..|nexts| - 1], nexts[|nexts| - 1];
      var before := AddAll(outs, front, true).outs;
      PresenceAfterAll(outs, front, index, before);
      FoundAfterAll(outs, front, index, before);
      PresenceAfterOne(before, last, index);
      assert nexts == front + [last];
      LacksSnoc(outs, front, last, index);
    }
  }

  ghost predicate MeetsLack(outs: seq<Completion>, nexts: seq<Completion>, k: nat)
    requires k < |nexts|
  {
    Carries(nexts[k]) && Lacks(outs, nexts, nexts[k].index)
  }

  /** A lack that shows up later is not met by what came before. */
  lemma MeetsLackSnoc(outs: seq<Completion>, front: seq<Completion>, last: Completion, k: nat)
    requires k < |front|
    ensures MeetsLack(outs, front + [last], k) <==> MeetsLack(outs, front, k)
  {
    LacksSnoc(outs, front, last, front[k].index);
  }

  /** Adding a whole output fails exactly when one of its completions has log probabilities
      while the completion of its index, which came first, has none. */
  lemma {:induction false} AddFailsIff(outs: seq<Completion>, nexts: seq<Completion>)
    ensures !AddAll(outs, nexts, true).ok <==> exists k :: 0 <= k < |nexts| && MeetsLack(outs, nexts, k)
    decreases |nexts|
  {
    if nexts != [] {
      var front, last := nexts[..|nexts| - 1], nexts[|nexts| - 1];
      AddFailsIff(outs, front);
      assert nexts == front + [last];
      forall k | 0 <= k < |front| ensures MeetsLack(outs, nexts, k) <==> MeetsLack(outs, front, k) {
        MeetsLackSnoc(outs, front, last, k);
      }
      if AddAll(outs, front, true).ok {
        var before := AddAll(outs, front, true).outs;
        PresenceAfterAll(outs, front, last.index, before);
        LastFailsIff(before, outs, front, last);
        assert MeetsLack(outs, nexts, |front|) <==> Carries(last) && Lacks(outs, nexts, last.index);
      }
    }
  }

  lemma LastFailsIff(before: seq<Completion>, outs: seq<Completion>, front: seq<Completion>, last: Completion)
    requires Lacks(before, [], last.index) <==> Lacks(outs, front, last.index)
    ensures !AddOne(before, last, true).ok <==> Carries(last) && Lacks(outs, front + [last], last.index)
  {
    LacksSnoc(outs, front, last, last.index);
  }

  /** Replacing instead of merging never fails. */
  lemma {:induction false} ReplacingNeverFails(outs: seq<Completion>, nexts: seq<Completion>)
    ensures AddAll(outs, nexts, false).ok
    decreases |nexts|
  {
    if nexts != [] {
      ReplacingNeverFails(outs, nexts[..|nexts| - 1]);
    }
  }

  /** The last of `nexts` that has this index, if any has. */
  ghost predicate LastNext(nexts: seq<Completion>, index: int, k: nat) {
    k < |nexts| && nexts[k].index == index && forall j :: k < j < |nexts| ==> nexts[j].index != index
  }

  ghost predicate NoNext(nexts: seq<Completion>, index: int) {
    forall j :: 0 <= j < |nexts| ==> nexts[j].index != index
  }

  /** `c`, which stands at position `i` after replacing: the last of `nexts` of its index, or what
      stood there before. */
  ghost predicate Replaced(outs: seq<Completion>, nexts: seq<Completion>, i: nat, c: Completion) {
    && (i < |outs| ==> c.index == outs[i].index)
    && ((exists k: nat :: LastNext(nexts, c.index, k) && c == nexts[k])
        || (NoNext(nexts, c.index) && i < |outs| && c == outs[i]))
  }

  lemma ReplacedByLast(outs: seq<Completion>, front: seq<Completion>, last: Completion, i: nat)
    requires i < |outs| ==> last.index == outs[i].index
    ensures Replaced(outs, front + [last], i, last)
  {
    assert LastNext(front + [last], last.index, |front|) && (front + [last])[|front|] == last;
  }

  lemma StillReplaced(outs: seq<Completion>, front: seq<Completion>, last: Completion, i: nat, c: Completion)
    requires Replaced(outs, front, i, c) && c.index != last.index
    ensures Replaced(outs, front + [last], i, c)
  {
    if k: nat :| LastNext(front, c.index, k) && c == front[k] {
      assert LastNext(front + [last], c.index, k) && (front + [last])[k] == c;
    }
  }

  /** All completions after replacing, one per index. */
  ghost predicate AllReplaced(outs: seq<Completion>, nexts: seq<Completion>, after: seq<Completion>) {
    && UniqueIndices(after) && |outs| <= |after|
    && (forall i :: 0 <= i < |after| ==> Replaced(outs, nexts, i, after[i]))
    && forall k :: 0 <= k < |nexts| ==> HasIndex(after, nexts[k].index)
  }

  ghost predicate HasIndex(cs: seq<Completion>, index: int) {
    exists c <- cs :: c.index == index
  }

  lemma ReplaceOne(outs: seq<Completion>, front: seq<Completion>, last: Completion, before: seq<Completion>, after: seq<Completion>)
    requires AllReplaced(outs, front, before) && AddOne(before, last, false) == Added(after, true)
    ensures AllReplaced(outs, front + [last], after)
  {
    var at := Find(before, last.index);
    assert at < |after| && after[at] == last && last in after;
    forall i | 0 <= i < |after| ensures Replaced(outs, front + [last], i, after[i]) {
      if i == at {
        ReplacedByLast(outs, front, last, i);
      } else {
        StillReplaced(outs, front, last, i, before[i]);
      }
    }
    forall k | 0 <= k < |front + [last]| ensures HasIndex(after, (front + [last])[k].index) {
      if k < |front| { IndexStays(before, after, at, last, front[k].index); }
    }
  }

  lemma IndexStays(before: seq<Completion>, after: seq<Completion>, at: nat, last: Completion, index: int)
    requires HasIndex(before, index) && at <= |before|
    requires after == if at < |before| then before[at := last] else before + [last]
    requires at < |before| ==> before[at].index == last.index
    ensures HasIndex(after, index)
  {
    var i :| 0 <= i < |before| && before[i].index == index;
    assert after[i] in after && after[i].index == index;
  }

  /** Without aggregation the last word counts: after adding, the completion of each index of
      `nexts` is the last of `nexts` with that index, every other one of `outs` is what it was and
      where it was, and no index occurs twice. */
  lemma {:induction false} ReplacingKeepsTheLast(outs: seq<Completion>, nexts: seq<Completion>, after: seq<Completion>)
    requires UniqueIndices(outs) && after == AddAll(outs, nexts, false).outs
    ensures AllReplaced(outs, nexts, after)
    decreases |nexts|
  {
    if nexts == [] {
      NothingReplaced(outs);
    } else {
      var front, last, before := ReplaceStep(outs, nexts, after);
      ReplacingKeepsTheLast(outs, front, before);
      ReplaceOne(outs, front, last, before, after);
    }
  }

  lemma NothingReplaced(outs: seq<Completion>)
    requires UniqueIndices(outs)
    ensures AllReplaced(outs, [], outs)
  {
    forall i | 0 <= i < |outs| ensures Replaced(outs, [], i, outs[i]) {
      assert NoNext([], outs[i].index);
    }
  }

  lemma ReplaceStep(outs: seq<Completion>, nexts: seq<Completion>, after: seq<Completion>)
    returns (front: seq<Completion>, last: Completion, before: seq<Completion>)
    requires nexts != [] && after == AddAll(outs, nexts, false).outs
    ensures nexts == front + [last] && before == AddAll(outs, front, false).outs
    ensures AddOne(before, last, false) == Added(after, true)
  {
    front, last := nexts[..|nexts| - 1], nexts[|nexts| - 1];
    before := AddAll(outs, front, false).outs;
    ReplacingNeverFails(outs, front);
  }

  lemma ReplacingHolds(outs: seq<Completion>, nexts: seq<Completion>, after: Added)
    requires UniqueIndices(outs) && after == AddAll(outs, nexts, false)
    ensures after.ok && AllReplaced(outs, nexts, after.outs)
  {
    ReplacingNeverFails(outs, nexts);
    ReplacingKeepsTheLast(outs, nexts, after.outs);
  }

  lemma CombineAssociates(a: Completion, b: Completion, c: Completion, present: bool)
    requires a.logprobs.Some? == present && b.logprobs.Some? == present && c.logprobs.Some? == present
    ensures Combine(Combine(a, b), c) == Combine(a, Combine(b, c))
  {
    assert (a.text + b.text) + c.text == a.text + (b.text + c.text);
    assert (a.tokenIds + b.tokenIds) + c.tokenIds == a.tokenIds + (b.tokenIds + c.tokenIds);
    if present {
      assert (a.logprobs.value + b.logprobs.value) + c.logprobs.value == a.logprobs.value + (b.logprobs.value + c.logprobs.value);
    }
  }

  // ----- The split of a stream does not matter -----

  lemma MergeTwice(outs: seq<Completion>, b: Completion, c: Completion, present: bool)
    requires Uniform(outs, present) && b.logprobs.Some? == present && c.logprobs.Some? == present && b.index == c.index
    ensures Merge(outs, Combine(b, c)) == Merge(Merge(outs, b), c)
  {
    var i := Find(outs, b.index);
    FindUnique(Merge(outs, b), i, b.index);
    if i < |outs| {
      CombineAssociates(outs[i], b, c, present);
    }
  }

  /** Merging into one completion leaves the others where they are. */
  lemma MergeKeepsOthers(outs: seq<Completion>, z: Completion, index: int)
    requires index != z.index && Find(outs, z.index) < |outs|
    ensures Find(Merge(outs, z), index) == Find(outs, index)
  {
    FindUpdated(outs, Find(outs, z.index), Combine(outs[Find(outs, z.index)], z), index);
  }

  lemma MergeKeepsFound(outs: seq<Completion>, y: Completion, index: int)
    requires index != y.index && Find(outs, index) < |outs|
    ensures Find(Merge(outs, y), index) == Find(outs, index)
  {
    var j := Find(outs, y.index);
    if j < |outs| {
      FindUpdated(outs, j, Combine(outs[j], y), index);
    } else {
      FindSnoc(outs, y, index);
    }
  }

  /** Merges into different completions commute, once the completion is there. */
  lemma MergesCommute(outs: seq<Completion>, y: Completion, z: Completion)
    requires y.index != z.index && Find(outs, z.index) < |outs|
    ensures Merge(Merge(outs, z), y) == Merge(Merge(outs, y), z)
    ensures Find(Merge(outs, y), z.index) < |Merge(outs, y)|
  {
    MergeKeepsOthers(outs, z, y.index);
    MergeKeepsFound(outs, y, z.index);
    var i, j := Find(outs, z.index), Find(outs, y.index);
    if j < |outs| {
      assert outs[i := Combine(outs[i], z)][j := Combine(outs[j], y)] == outs[j := Combine(outs[j], y)][i := Combine(outs[i], z)];
    } else {
      assert outs[i := Combine(outs[i], z)] + [y] == (outs + [y])[i := Combine(outs[i], z)];
    }
  }

  lemma {:induction false} MergePastOthers(outs: seq<Completion>, rest: seq<Completion>, z: Completion)
    requires Find(outs, z.index) < |outs| && forall i :: 0 <= i < |rest| ==> rest[i].index != z.index
    ensures MergeAll(Merge(outs, z), rest) == Merge(MergeAll(outs, rest), z)
    ensures Find(MergeAll(outs, rest), z.index) < |MergeAll(outs, rest)|
    decreases |rest|
  {
    if rest != [] {
      MergePastOthers(outs, rest[..|rest| - 1], z);
      MergesCommute(MergeAll(outs, rest[..|rest| - 1]), rest[|rest| - 1], z);
    }
  }

  lemma {:induction false} MergeAllAppend(outs: seq<Completion>, a: seq<Completion>, b: seq<Completion>)
    ensures MergeAll(outs, a + b) == MergeAll(MergeAll(outs, a), b)
    decreases |b|
  {
    if b == [] {
      assert a + b == a;
    } else {
      assert (a + b)[..|a + b| - 1] == a + b[..|b| - 1];
      MergeAllAppend(outs, a, b[..|b| - 1]);
    }
  }

  lemma MergeKeepsUnique(outs: seq<Completion>, next: Completion)
    requires UniqueIndices(outs)
    ensures UniqueIndices(Merge(outs, next))
  {}

  lemma {:induction false} MergeAllKeepsUnique(outs: seq<Completion>, nexts: seq<Completion>)
    requires UniqueIndices(outs)
    ensures UniqueIndices(MergeAll(outs, nexts))
    decreases |nexts|
  {
    if nexts != [] {
      MergeAllKeepsUnique(outs, nexts[..|nexts| - 1]);
      MergeKeepsUnique(MergeAll(outs, nexts[..|nexts| - 1]), nexts[|nexts| - 1]);
    }
  }

  lemma {:induction false} MergeAllCons(outs: seq<Completion>, b: Completion, rest: seq<Completion>)
    ensures MergeAll(outs, [b] + rest) == MergeAll(Merge(outs, b), rest)
  {
    MergeAllAppend(outs, [b], rest);
    assert [b][..0] == [];
  }

  lemma {:induction false} MergeIntoMember(x: seq<Completion>, b: Completion, rest: seq<Completion>, z: Completion, present: bool)
    requires Uniform(x, present) && b.logprobs.Some? == present && z.logprobs.Some? == present && b.index == z.index
    requires forall i :: 0 <= i < |rest| ==> rest[i].index != z.index
    ensures MergeAll(x, [Combine(b, z)] + rest) == Merge(MergeAll(x, [b] + rest), z)
  {
    MergeAllCons(x, Combine(b, z), rest);
    MergeAllCons(x, b, rest);
    MergeTwice(x, b, z, present);
    FindUnique(Merge(x, b), Find(x, b.index), z.index);
    MergePastOthers(Merge(x, b), rest, z);
  }

  lemma {:induction false} MergeAllAround(a: seq<Completion>, b: seq<Completion>, i: nat, x: Completion)
    requires i < |b|
    ensures MergeAll(a, b[i := x]) == MergeAll(MergeAll(a, b[..i]), [x] + b[i + 1..])
  {
    assert b[i := x] == b[..i] + ([x] + b[i + 1..]);
    MergeAllAppend(a, b[..i], [x] + b[i + 1..]);
  }

  /** Adding one more completion to the second operand adds it to the sum. */
  lemma {:induction false} MergeIntoSecond(a: seq<Completion>, b: seq<Completion>, z: Completion, present: bool)
    requires Uniform(a, present) && Uniform(b, present) && z.logprobs.Some? == present && UniqueIndices(b)
    ensures MergeAll(a, Merge(b, z)) == Merge(MergeAll(a, b), z)
  {
    if Find(b, z.index) == |b| {
      assert (b + [z])[..|b|] == b;
    } else {
      MergeIntoFound(a, b, Find(b, z.index), z, present);
    }
  }

  lemma MergeIntoFound(a: seq<Completion>, b: seq<Completion>, i: nat, z: Completion, present: bool)
    requires Uniform(a, present) && Uniform(b, present) && z.logprobs.Some? == present && UniqueIndices(b)
    requires i == Find(b, z.index) < |b|
    ensures MergeAll(a, b[i := Combine(b[i], z)]) == Merge(MergeAll(a, b), z)
  {
    PiecesOfUnique(b, i, present, b[i + 1..]);
    AddingIsMerging(a, b[..i], present);
    MergeAllAround(a, b, i, b[i]);
    MergeAllAround(a, b, i, Combine(b[i], z));
    MergeIntoMember(MergeAll(a, b[..i]), b[i], b[i + 1..], z, present);
  }

  lemma PiecesOfUnique(b: seq<Completion>, i: nat, present: bool, rest: seq<Completion>)
    requires i < |b| && UniqueIndices(b) && Uniform(b, present) && rest == b[i + 1..]
    ensures b[i := b[i]] == b && Uniform(b[..i], present) && b[i].logprobs.Some? == present
    ensures forall j :: 0 <= j < |rest| ==> rest[j].index != b[i].index
  {}

  /** Merging is associative: it does not matter how a stream is cut into pieces. */
  lemma {:induction false} MergeAssociates(a: seq<Completion>, b: seq<Completion>, c: seq<Completion>, present: bool)
    requires Uniform(a, present) && Uniform(b, present) && Uniform(c, present) && UniqueIndices(b)
    ensures MergeAll(MergeAll(a, b), c) == MergeAll(a, MergeAll(b, c))
    decreases |c|
  {
    if c != [] {
      var front, z := c[..|c| - 1], c[|c| - 1];
      MergeAssociates(a, b, front, present);
      AddingIsMerging(b, front, present);
      MergeAllKeepsUnique(b, front);
      MergeIntoSecond(a, MergeAll(b, front), z, present);
    }
  }

  // ----- What a stream adds up to -----

  function TextOf(stream: seq<Completion>, index: int): string {
    if stream == [] then ""
    else TextOf(stream[..|stream| - 1], index) + if stream[|stream| - 1].index == index then stream[|stream| - 1].text else ""
  }

  function TokensOf(stream: seq<Completion>, index: int): seq<int> {
    if stream == [] then []
    else TokensOf(stream[..|stream| - 1], index) + if stream[|stream| - 1].index == index then stream[|stream| - 1].tokenIds else []
  }

  function LogprobsOf(stream: seq<Completion>, index: int): seq<map<int, real>> {
    if stream == [] then []
    else
      var last := stream[|stream| - 1];
      LogprobsOf(stream[..|stream| - 1], index) + if last.index == index && last.logprobs.Some? then last.logprobs.value else []
  }

  /** The last completion of an index in a stream. */
  ghost predicate IsLast(stream: seq<Completion>, index: int, k: nat) {
    k < |stream| && stream[k].index == index && forall j :: k < j < |stream| ==> stream[j].index != index
  }

  /** `c` is what the completions of one index in the stream add up to. */
  ghost predicate SumsUp(c: Completion, stream: seq<Completion>) {
    && c.text == TextOf(stream, c.index)
    && c.tokenIds == TokensOf(stream, c.index)
    && (c.logprobs.Some? ==> c.logprobs.value == LogprobsOf(stream, c.index))
    && exists k: nat :: ClosedBy(c, stream, k)
  }

  ghost predicate ClosedBy(c: Completion, stream: seq<Completion>, k: nat) {
    && IsLast(stream, c.index, k)
    && c.finishReason == stream[k].finishReason && c.stopReason == stream[k].stopReason
    && c.cumulativeLogprob == stream[k].cumulativeLogprob
  }

  lemma {:induction false} NothingOf(stream: seq<Completion>, index: int)
    requires forall k :: 0 <= k < |stream| ==> stream[k].index != index
    ensures TextOf(stream, index) == "" && TokensOf(stream, index) == [] && LogprobsOf(stream, index) == []
    decreases |stream|
  {
    if stream != [] {
      NothingOf(stream[..|stream| - 1], index);
    }
  }

  /** Every index of the stream has its completion. */
  ghost predicate AllFound(outs: seq<Completion>, stream: seq<Completion>) {
    forall k :: 0 <= k < |stream| ==> Find(outs, stream[k].index) < |outs|
  }

  lemma FoundStays(outs: seq<Completion>, z: Completion, index: int)
    ensures Find(outs, index) < |outs| || index == z.index ==> Find(Merge(outs, z), index) < |Merge(outs, z)|
  {
    var f := Find(outs, index);
    if f < |outs| { assert Merge(outs, z)[f].index == index; }
    if index == z.index { assert Merge(outs, z)[Find(outs, z.index)].index == index; }
  }

  lemma {:induction false} TakeInOne(front: seq<Completion>, z: Completion, index: int)
    ensures TextOf(front + [z], index) == TextOf(front, index) + if z.index == index then z.text else ""
    ensures TokensOf(front + [z], index) == TokensOf(front, index) + if z.index == index then z.tokenIds else []
    ensures LogprobsOf(front + [z], index)
         == LogprobsOf(front, index) + if z.index == index && z.logprobs.Some? then z.logprobs.value else []
  {
    assert (front + [z])[..|front|] == front;
  }

  lemma StepOnSameIndex(front: seq<Completion>, z: Completion, old': Completion)
    requires old'.index == z.index && old'.logprobs.Some? == z.logprobs.Some? && SumsUp(old', front)
    ensures SumsUp(Combine(old', z), front + [z])
  {
    TakeInOne(front, z, z.index);
    assert ClosedBy(Combine(old', z), front + [z], |front|);
  }

  lemma StepOnNewIndex(front: seq<Completion>, z: Completion)
    requires forall k :: 0 <= k < |front| ==> front[k].index != z.index
    ensures SumsUp(z, front + [z])
  {
    TakeInOne(front, z, z.index);
    NothingOf(front, z.index);
    assert ClosedBy(z, front + [z], |front|);
  }

  lemma StepOnOtherIndex(front: seq<Completion>, z: Completion, c: Completion)
    requires c.index != z.index && SumsUp(c, front)
    ensures SumsUp(c, front + [z])
  {
    TakeInOne(front, z, c.index);
    var k: nat :| ClosedBy(c, front, k);
    assert ClosedBy(c, front + [z], k);
  }

  lemma {:induction false} StreamStep(front: seq<Completion>, z: Completion, before: seq<Completion>, i: nat, present: bool)
    requires Uniform(before, present) && z.logprobs.Some? == present
    requires UniqueIndices(before) && AllFound(before, front)
    requires forall j :: 0 <= j < |before| ==> SumsUp(before[j], front)
    requires i < |Merge(before, z)|
    ensures SumsUp(Merge(before, z)[i], front + [z])
  {
    if i == |before| {
      StepOnNewIndex(front, z);
    } else if i == Find(before, z.index) {
      StepOnSameIndex(front, z, before[i]);
    } else {
      StepOnOtherIndex(front, z, before[i]);
    }
  }

  /** `outs` is what the whole stream adds up to. */
  ghost predicate AddsUp(outs: seq<Completion>, stream: seq<Completion>) {
    UniqueIndices(outs) && AllFound(outs, stream) && forall i :: 0 <= i < |outs| ==> SumsUp(outs[i], stream)
  }

  lemma AllFoundStays(front: seq<Completion>, z: Completion, before: seq<Completion>, after: seq<Completion>)
    requires AllFound(before, front) && after == Merge(before, z)
    ensures AllFound(after, front + [z])
  {
    forall k | 0 <= k < |front + [z]| ensures Find(after, (front + [z])[k].index) < |after| {
      FoundStays(before, z, (front + [z])[k].index);
    }
  }

  lemma OneMore(front: seq<Completion>, z: Completion, before: seq<Completion>, present: bool, after: seq<Completion>)
    requires z.logprobs.Some? == present && Uniform(before, present)
    requires AddsUp(before, front) && after == Merge(before, z)
    ensures AddsUp(after, front + [z])
  {
    MergeKeepsUnique(before, z);
    AllFoundStays(front, z, before, after);
    forall i | 0 <= i < |after| ensures SumsUp(after[i], front + [z]) {
      StreamStep(front, z, before, i, present);
    }
  }

  lemma {:induction false} FoldAddsUp(stream: seq<Completion>, present: bool, outs: seq<Completion>)
    requires Uniform(stream, present) && outs == MergeAll([], stream)
    ensures AddsUp(outs, stream)
    decreases |stream|
  {
    if stream != [] {
      var front, z := stream[..|stream| - 1], stream[|stream| - 1];
      var before := MergeAll([], front);
      FoldAddsUp(front, present, before);
      AddingIsMerging([], front, present);
      OneMore(front, z, before, present, outs);
      assert stream == front + [z];
    }
  }

  /** Folding any stream: one completion per index of the stream, each the concatenation of all
      that was streamed for it, with the closing fields of the last one. */
  lemma StreamAddsUp(stream: seq<Completion>, present: bool)
    requires Uniform(stream, present)
    ensures AddsUp(MergeAll([], stream), stream)
  {
    FoldAddsUp(stream, present, MergeAll([], stream));
  }

  // ----- Where associativity ends -----

  lemma LastOfIndex(stream: seq<Completion>, index: int, k: nat) returns (last: nat)
    requires k < |stream| && stream[k].index == index
    ensures k <= last && IsLast(stream, index, last)
  {
    last := k;
    while !IsLast(stream, index, last)
      invariant k <= last < |stream| && stream[last].index == index
      decreases |stream| - last
    {
      var j :| last < j < |stream| && stream[j].index == index;
      last := j;
    }
  }

  function ReasonOf(outs: seq<Completion>, index: int): Option<Option<string>> {
    var i := Find(outs, index);
    if i < |outs| then Some(outs[i].finishReason) else None
  }

  /** The completion of an index carries the closing fields of the last one in the stream. */
  lemma FinishOf(stream: seq<Completion>, present: bool, index: int, k: nat, outs: seq<Completion>)
    requires Uniform(stream, present) && IsLast(stream, index, k) && outs == MergeAll([], stream)
    ensures ReasonOf(outs, index) == Some(stream[k].finishReason)
  {
    FoldAddsUp(stream, present, outs);
    assert Find(outs, stream[k].index) < |outs|;
    assert SumsUp(outs[Find(outs, index)], stream);
  }

  lemma {:induction false} MergeIsStream(first: Completion, rest: seq<Completion>)
    ensures MergeAll([first], rest) == MergeAll([], [first] + rest)
  {
    MergeAllCons([], first, rest);
    assert Merge([], first) == [first];
  }

  lemma MergeAllOne(b: seq<Completion>, z: Completion)
    ensures MergeAll(b, [z]) == Merge(b, z)
  {
    assert [z][..0] == [];
  }

  lemma LastAfterUpdate(z: Completion, b: seq<Completion>, f: nat, x: Completion, last: nat)
    requires f < last && IsLast(b, z.index, last) && x.index == z.index
    ensures IsLast([z] + b[f := x], z.index, last + 1) && ([z] + b[f := x])[last + 1] == b[last]
  {
    var s := [z] + b[f := x];
    forall j | last + 1 < j < |s| ensures s[j].index != z.index {
      assert s[j] == b[j - 1];
    }
  }

  lemma LeftIsStream(z: Completion, b: seq<Completion>)
    ensures MergeAll(MergeAll([z], b), [z]) == MergeAll([], [z] + (b + [z]))
  {
    MergeAllAppend([z], b, [z]);
    MergeIsStream(z, b + [z]);
  }

  lemma RightIsStream(z: Completion, b: seq<Completion>, f: nat)
    requires f == Find(b, z.index) < |b|
    ensures MergeAll([z], MergeAll(b, [z])) == MergeAll([], [z] + b[f := Combine(b[f], z)])
  {
    MergeAllOne(b, z);
    MergeIsStream(z, b[f := Combine(b[f], z)]);
  }

  lemma LastAtEnd(z: Completion, b: seq<Completion>, present: bool)
    requires Uniform(b, present) && z.logprobs.Some? == present
    ensures IsLast([z] + (b + [z]), z.index, |b| + 1) && Uniform([z] + (b + [z]), present)
  {}

  lemma UniformUpdate(z: Completion, b: seq<Completion>, f: nat, x: Completion, present: bool)
    requires Uniform(b, present) && f < |b| && z.logprobs.Some? == x.logprobs.Some? == present
    ensures Uniform([z] + b[f := x], present)
  {}

  /** The stream behind each way of merging, and its last completion of the index. */
  lemma LeftStream(z: Completion, b: seq<Completion>, present: bool) returns (s: seq<Completion>, k: nat)
    requires Uniform(b, present) && z.logprobs.Some? == present
    ensures MergeAll(MergeAll([z], b), [z]) == MergeAll([], s) && Uniform(s, present)
    ensures IsLast(s, z.index, k) && s[k].finishReason == z.finishReason
  {
    s, k := [z] + (b + [z]), |b| + 1;
    LeftIsStream(z, b);
    LastAtEnd(z, b, present);
  }

  lemma RightStream(z: Completion, b: seq<Completion>, present: bool, f: nat, last: nat) returns (s: seq<Completion>, k: nat)
    requires Uniform(b, present) && z.logprobs.Some? == present
    requires f == Find(b, z.index) < last && IsLast(b, z.index, last)
    ensures MergeAll([z], MergeAll(b, [z])) == MergeAll([], s) && Uniform(s, present)
    ensures IsLast(s, z.index, k) && s[k].finishReason == b[last].finishReason
  {
    var x := Combine(b[f], z);
    s, k := [z] + b[f := x], last + 1;
    RightIsStream(z, b, f);
    LastAfterUpdate(z, b, f, x, last);
    UniformUpdate(z, b, f, x, present);
  }

  /** Unique indices in the middle operand are exactly what associativity takes: with an index
      repeated there, some operands around it are merged differently. */
  lemma {:induction false} RepeatedIndexBreaksAssociativity(b: seq<Completion>, present: bool) returns (a: seq<Completion>, c: seq<Completion>)
    requires Uniform(b, present) && !UniqueIndices(b)
    ensures Uniform(a, present) && Uniform(c, present)
    ensures MergeAll(MergeAll(a, b), c) != MergeAll(a, MergeAll(b, c))
  {
    var i, j :| 0 <= i < j < |b| && b[i].index == b[j].index;
    var last := LastOfIndex(b, b[i].index, j);
    var f := Find(b, b[i].index);
    assert f <= i;
    var reason := if b[last].finishReason == None then Some("stop") else None;
    var z := Completion(b[i].index, "", [], None, if present then Some([]) else None, reason, None, None);
    a, c := [z], [z];
    var left, k := LeftStream(z, b, present);
    FinishOf(left, present, z.index, k, MergeAll(MergeAll(a, b), c));
    var right, m := RightStream(z, b, present, f, last);
    FinishOf(right, present, z.index, m, MergeAll(a, MergeAll(b, c)));
  }
}
