/**
 Merging streamed request outputs in place (vllm/vllm/outputs.py, RequestOutput.add).
 */
module RequestOutputs {
  import opened Options
  import opened CompletionMerge
  import opened Sorting

  class CompletionOutput {
    const index: int
    var text: string
    var tokenIds: seq<int>
    var cumulativeLogprob: Option<real>
    var logprobs: Option<seq<map<int, real>>>
    var finishReason: Option<string>
    var stopReason: Option<string>
    const loraRequest: Option<string>

    function Value(): Completion
      reads this
    {
      Completion(index, text, tokenIds, cumulativeLogprob, logprobs, finishReason, stopReason, loraRequest)
    }

    constructor (c: Completion)
      ensures Value() == c
    {
      index, text, tokenIds, cumulativeLogprob := c.index, c.text, c.tokenIds, c.cumulativeLogprob;
      logprobs, finishReason, stopReason, loraRequest := c.logprobs, c.finishReason, c.stopReason, c.loraRequest;
    }

    /** Merges a newer completion of the same index; fails where the assertion does. */
    method Absorb(next: CompletionOutput) returns (ok: bool)
      requires next != this && next.index == index
      modifies this
      ensures (Value(), ok) == Absorbed(old(Value()), next.Value())
      ensures TakesIn(old(Value()), next.Value(), Value(), ok)
    {
      text := text + next.text;
      tokenIds := tokenIds + next.tokenIds;
      if next.logprobs.Some? && next.logprobs.value != [] {
        if logprobs.None? {
          return false;
        }
        logprobs := Some(logprobs.value + next.logprobs.value);
      } else if next.logprobs.Some? && logprobs.Some? {
        assert logprobs.value + next.logprobs.value == logprobs.value;
      }
      cumulativeLogprob := next.cumulativeLogprob;
      finishReason := next.finishReason;
      stopReason := next.stopReason;
      ok := true;
    }
  }

  /** Field by field what comes of `c` when `next` is merged into it. Text and tokens are appended
      in any case; where there is no place for the log probabilities nothing else happens. */
  ghost predicate TakesIn(c: Completion, next: Completion, c': Completion, ok: bool) {
    && c'.index == c.index && c'.loraRequest == c.loraRequest
    && c'.text == c.text + next.text && c'.tokenIds == c.tokenIds + next.tokenIds
    && (ok <==> c.logprobs.Some? || next.logprobs.None? || next.logprobs.value == [])
    && c'.logprobs == (if c.logprobs.Some? && next.logprobs.Some? then Some(c.logprobs.value + next.logprobs.value) else c.logprobs)
    && c'.cumulativeLogprob == (if ok then next else c).cumulativeLogprob
    && c'.finishReason == (if ok then next else c).finishReason
    && c'.stopReason == (if ok then next else c).stopReason
  }

  /** The completions from `before` with `next` added at its place `i`: appended when its index is
      new, and otherwise in place of the first one of its index or merged into it. */
  ghost predicate PutInPlace(before: seq<CompletionOutput>, values: seq<Completion>, next: CompletionOutput, i: nat, aggregate: bool,
                             after: seq<CompletionOutput>, ok: bool)
    requires |values| == |before|
    reads before, next, after
  {
    && i <= |before| && (forall j :: 0 <= j < i ==> values[j].index != next.index)
    && (i < |before| ==> values[i].index == next.index)
    && (forall j :: 0 <= j < |before| && (j != i || !aggregate) ==> before[j].Value() == values[j])
    && if i == |before| then ok && after == before + [next]
       else if aggregate then after == before && TakesIn(values[i], next.Value(), before[i].Value(), ok)
       else ok && after == before[i := next]
  }

  function Values(outs: seq<CompletionOutput>): seq<Completion>
    reads outs
  {
    seq(|outs|, i requires 0 <= i < |outs| reads outs => outs[i].Value())
  }

  class RequestOutput {
    var finished: bool
    var kvTransferParams: Option<string>
    var outputs: seq<CompletionOutput>

    /** The position of the first completion with this index, or one past the end. */
    method FindCompletion(index: int) returns (i: nat)
      ensures i == Find(Values(outputs), index)
    {
      i := 0;
      while i < |outputs|
        invariant i <= |outputs| && forall j :: 0 <= j < i ==> outputs[j].index != index
      {
        if outputs[i].index == index {
          FindUnique(Values(outputs), i, index);
          return;
        }
        i := i + 1;
      }
    }

    /** Merges into the completion at `i`; the other ones stay what they are. */
    method AbsorbAt(i: nat, next: CompletionOutput) returns (ok: bool)
      requires Distinct(outputs) && next !in outputs && i < |outputs| && outputs[i].index == next.index
      modifies outputs[i]
      ensures Values(outputs) == old(Values(outputs))[i := Absorbed(old(outputs[i].Value()), next.Value()).0]
      ensures ok == Absorbed(old(outputs[i].Value()), next.Value()).1
      ensures TakesIn(old(outputs[i].Value()), next.Value(), outputs[i].Value(), ok)
    {
      ok := outputs[i].Absorb(next);
    }

    /** Adds one completion. */
    method AddCompletion(next: CompletionOutput, aggregate: bool) returns (ok: bool, ghost place: nat)
      requires Distinct(outputs) && next !in outputs
      modifies `outputs, set o | o in outputs
      ensures AddOne(old(Values(outputs)), old(next.Value()), aggregate) == Added(Values(outputs), ok)
      ensures Distinct(outputs) && forall o <- outputs :: o in old(outputs) || o == next
      ensures next.Value() == old(next.Value())
      ensures PutInPlace(old(outputs), old(Values(outputs)), next, place, aggregate, outputs, ok)
    {
      ghost var before := Values(outputs);
      var i := FindCompletion(next.index);
      place := i;
      ok := true;
      if i < |outputs| {
        if aggregate {
          ok := AbsorbAt(i, next);
        } else {
          outputs := outputs[i := next];
          assert Values(outputs) == before[i := next.Value()];
        }
      } else {
        outputs := outputs + [next];
        assert Values(outputs) == before + [next.Value()];
      }
    }

    /** The outputs so far are `before` with the first `k` of `nexts` added, and the rest of the
        other output is still as it was. */
    ghost predicate Adding(others: seq<CompletionOutput>, before: seq<Completion>, nexts: seq<Completion>, k: nat, aggregate: bool)
      requires k <= |nexts| == |others|
      reads this, outputs, others
    {
      && AddAll(before, nexts[..k], aggregate) == Added(Values(outputs), true)
      && Distinct(outputs) && (forall j :: k <= j < |others| ==> others[j] !in outputs && others[j].Value() == nexts[j])
    }

    /** Adds completion `k` of the other output. */
    method AddNext(others: seq<CompletionOutput>, ghost before: seq<Completion>, ghost nexts: seq<Completion>, k: nat, aggregate: bool,
                   ghost all: set<CompletionOutput>)
      returns (ok: bool)
      requires k < |others| == |nexts| && Distinct(others) && Adding(others, before, nexts, k, aggregate)
      requires (forall o <- outputs :: o in all) && others[k] in all
      modifies `outputs, all
      ensures ok ==> Adding(others, before, nexts, k + 1, aggregate)
      ensures !ok ==> AddAll(before, nexts, aggregate) == Added(Values(outputs), false) && Distinct(outputs)
      ensures forall o <- outputs :: o in all
    {
      assert nexts[..k + 1][..k] == nexts[..k];
      ghost var place;
      ok, place := AddCompletion(others[k], aggregate);
      if !ok { FailureEnds(before, nexts, k, aggregate); }
    }

    /** Adds the completions of the other output in order. */
    method AddEach(others: seq<CompletionOutput>, aggregate: bool, ghost all: set<CompletionOutput>) returns (ok: bool)
      requires Distinct(outputs) && Distinct(others) && forall o <- outputs :: o !in others
      requires (forall o <- outputs :: o in all) && forall o <- others :: o in all
      modifies `outputs, all
      ensures AddAll(old(Values(outputs)), old(Values(others)), aggregate) == Added(Values(outputs), ok)
      ensures Distinct(outputs) && forall o <- outputs :: o in all
    {
      ghost var before, nexts := Values(outputs), Values(others);
      ok := true;
      for k := 0 to |others|
        invariant ok && Adding(others, before, nexts, k, aggregate)
        invariant forall o <- outputs :: o in all
      {
        ok := AddNext(others, before, nexts, k, aggregate, all);
        if !ok {
          return;
        }
      }
      assert nexts[..|nexts|] == nexts;
    }

    /** Merges a subsequent output into this one: by appending to completions of the same index
        or by replacing them. */
    method Add(nextOutput: RequestOutput, aggregate: bool) returns (ok: bool)
      requires nextOutput != this && Distinct(outputs) && Distinct(nextOutput.outputs)
      requires forall o <- outputs :: o !in nextOutput.outputs
      modifies this, (set o | o in outputs), (set o | o in nextOutput.outputs)
      ensures !aggregate && UniqueIndices(old(Values(outputs))) ==>
                ok && AllReplaced(old(Values(outputs)), old(Values(nextOutput.outputs)), Values(outputs))
      ensures AddAll(old(Values(outputs)), old(Values(nextOutput.outputs)), aggregate) == Added(Values(outputs), ok)
      ensures finished == (old(finished) || nextOutput.finished)
      ensures kvTransferParams == nextOutput.kvTransferParams
      ensures Distinct(outputs) && forall o <- outputs :: o in old(outputs) || o in nextOutput.outputs
    {
      ghost var before, nexts := Values(outputs), Values(nextOutput.outputs);
      finished := finished || nextOutput.finished;
      kvTransferParams := nextOutput.kvTransferParams;
      ok := AddEach(nextOutput.outputs, aggregate, (set o | o in outputs) + set o | o in nextOutput.outputs);
      if !aggregate && UniqueIndices(before) {
        ReplacingHolds(before, nexts, Added(Values(outputs), ok));
      }
    }
  }

  lemma {:induction false} FailureEnds(outs: seq<Completion>, nexts: seq<Completion>, k: nat, aggregate: bool)
    requires k < |nexts| && !AddAll(outs, nexts[..k + 1], aggregate).ok
    ensures AddAll(outs, nexts, aggregate) == AddAll(outs, nexts[..k + 1], aggregate)
    decreases |nexts|
  {
    if k + 1 < |nexts| {
      assert nexts[..|nexts| - 1][..k + 1] == nexts[..k + 1];
      FailureEnds(outs, nexts[..|nexts| - 1], k, aggregate);
    } else {
      assert nexts[..k + 1] == nexts;
    }
  }
}
