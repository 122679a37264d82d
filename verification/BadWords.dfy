/**
 Banning words while generating (vllm/vllm/logits_process.py, NoBadWordsLogitsProcessor).
 Logits are exact reals or minus infinity.
 */
module BadWords {
  import opened Options

  datatype Logit = NegInf | Fin(value: real) {
    function Plus(other: Logit): Logit {
      if NegInf? || other.NegInf? then NegInf else Fin(value + other.value)
    }
  }

  type Word = seq<int>

  // ----- What is to be banned -----

  ghost predicate EndsWith(tokens: seq<int>, w: Word) {
    |w| <= |tokens| && tokens[|tokens| - |w|..] == w
  }

  /** `t` would complete a bad word. */
  ghost predicate Blocked(words: seq<Word>, past: seq<int>, t: int) {
    exists w <- words :: EndsWith(past + [t], w)
  }

  ghost predicate OccursAt(tokens: seq<int>, w: Word, i: int) {
    0 <= i <= |tokens| - |w| && tokens[i..i + |w|] == w
  }

  ghost predicate Occurs(tokens: seq<int>, w: Word) {
    exists i :: OccursAt(tokens, w, i)
  }

  ghost predicate NonEmpty(words: seq<Word>) {
    forall w <- words :: w != []
  }

  ghost predicate WordInBounds(w: Word, vocabSize: nat) {
    forall j :: 0 <= j < |w| ==> 0 <= w[j] < vocabSize
  }

  ghost predicate InBounds(words: seq<Word>, vocabSize: nat) {
    forall i :: 0 <= i < |words| ==> WordInBounds(words[i], vocabSize)
  }

  ghost predicate Outside(t: int, vocabSize: nat) {
    t < 0 || t >= vocabSize
  }

  ghost predicate Mentioned(words: seq<Word>, t: int) {
    exists w <- words :: t in w
  }

  lemma MentionedSnoc(words: seq<Word>, i: nat)
    requires i < |words|
    ensures forall t :: Mentioned(words[..i + 1], t) <==> Mentioned(words[..i], t) || t in words[i]
  {
    assert words[..i + 1] == words[..i] + [words[i]];
    forall t ensures Mentioned(words[..i + 1], t) <==> Mentioned(words[..i], t) || t in words[i] {
      assert forall w :: w in words[..i + 1] <==> w in words[..i] || w == words[i];
    }
  }

  /** The processor: the words, and the bias of the one-token words once it is known. */
  class NoBadWordsLogitsProcessor {
    const badWordsIds: seq<Word>
    var wordBias: Option<seq<Logit>>

    ghost predicate Valid()
      reads this
    {
      && NonEmpty(badWordsIds)
      && (wordBias.Some? ==> InBounds(badWordsIds, |wordBias.value|) && IsBias(wordBias.value, badWordsIds, Always))
    }

    constructor (badWordsIds: seq<Word>)
      requires NonEmpty(badWordsIds)
      ensures Valid() && wordBias.None? && this.badWordsIds == badWordsIds
    {
      this.badWordsIds := badWordsIds;
      wordBias := None;
    }

    /** The token ids that are outside the vocabulary. */
    method InvalidTokenIds(vocabSize: nat) returns (invalid: seq<int>)
      ensures invalid == [] <==> InBounds(badWordsIds, vocabSize)
      ensures forall t :: t in invalid <==> Outside(t, vocabSize) && Mentioned(badWordsIds, t)
    {
      invalid := [];
      for i := 0 to |badWordsIds|
        invariant invalid == [] <==> InBounds(badWordsIds[..i], vocabSize)
        invariant forall t :: t in invalid <==> Outside(t, vocabSize) && Mentioned(badWordsIds[..i], t)
      {
        var w := badWordsIds[i];
        for j := 0 to |w|
          invariant invalid == [] <==> InBounds(badWordsIds[..i], vocabSize) && WordInBounds(w[..j], vocabSize)
          invariant forall t :: t in invalid <==> Outside(t, vocabSize) && (Mentioned(badWordsIds[..i], t) || t in w[..j])
        {
          assert w[..j + 1] == w[..j] + [w[j]];
          assert WordInBounds(w[..j + 1], vocabSize) <==> WordInBounds(w[..j], vocabSize) && 0 <= w[j] < vocabSize;
          if w[j] < 0 || w[j] >= vocabSize {
            invalid := invalid + [w[j]];
          }
        }
        assert w[..|w|] == w;
        MentionedSnoc(badWordsIds, i);
        assert InBounds(badWordsIds[..i + 1], vocabSize) <==> InBounds(badWordsIds[..i], vocabSize) && WordInBounds(w, vocabSize);
      }
      assert badWordsIds[..|badWordsIds|] == badWordsIds;
    }

    /** The bias for words of one token; ValueError when a word is outside the vocabulary. */
    method InitWordBias(vocabSize: nat) returns (ok: bool)
      requires Valid() && wordBias.None?
      modifies `wordBias
      ensures Valid()
      ensures ok <==> InBounds(badWordsIds, vocabSize)
      ensures if ok then wordBias.Some? && |wordBias.value| == vocabSize else wordBias.None?
    {
      var invalid := InvalidTokenIds(vocabSize);
      if invalid != [] {
        return false;
      }
      var bias := seq(vocabSize, _ => Fin(0.0));
      for i := 0 to |badWordsIds|
        invariant |bias| == vocabSize && IsBias(bias, badWordsIds[..i], Always)
      {
        var w := badWordsIds[i];
        assert WordInBounds(w, vocabSize);
        ghost var before := bias;
        if |w| == 1 {
          bias := bias[w[0] := NegInf];
        }
        OneMoreWord(before, bias, badWordsIds, i, Always);
      }
      assert badWordsIds[..|badWordsIds|] == badWordsIds;
      wordBias := Some(bias);
      ok := true;
    }

    /** Adds the bans for the next token. It fails when a word is outside the vocabulary. */
    method Call(past: seq<int>, logits: seq<Logit>) returns (ok: bool, result: seq<Logit>)
      requires Valid()
      requires wordBias.Some? ==> |logits| == |wordBias.value|
      modifies `wordBias
      ensures Valid()
      ensures ok <==> InBounds(badWordsIds, |logits|)
      ensures if ok then wordBias.Some? && |wordBias.value| == |logits| else wordBias == old(wordBias)
      ensures ok ==> |result| == |logits| && forall t :: 0 <= t < |logits| ==>
                       result[t] == if Blocked(badWordsIds, past, t) then NegInf else logits[t]
    {
      result := [];
      if wordBias.None? {
        ok := InitWordBias(|logits|);
        if !ok {
          return;
        }
      }
      var lastTokenBias := LastTokenBias(past, |logits|);
      ok := true;
      result := seq(|logits|, t requires 0 <= t < |logits| && t < |lastTokenBias| && wordBias.Some? && t < |wordBias.value| reads this =>
                      logits[t].Plus(wordBias.value[t]).Plus(lastTokenBias[t]));
      forall t | 0 <= t < |logits|
        ensures result[t] == if Blocked(badWordsIds, past, t) then NegInf else logits[t]
      {
        BansAreBlocks(badWordsIds, past, t);
      }
    }

    method LastTokenBias(past: seq<int>, vocabSize: nat) returns (bias: seq<Logit>)
      requires Valid() && InBounds(badWordsIds, vocabSize)
      ensures |bias| == vocabSize && IsBias(bias, badWordsIds, After(past))
    {
      bias := seq(vocabSize, _ => Fin(0.0));
      for i := 0 to |badWordsIds|
        invariant |bias| == vocabSize && IsBias(bias, badWordsIds[..i], After(past))
      {
        var w := badWordsIds[i];
        assert WordInBounds(w, vocabSize) && w in badWordsIds;
        ghost var before := bias;
        if |w| == 1 {
          OneMoreWord(before, bias, badWordsIds, i, After(past));
          continue;
        }
        if |w| > |past| + 1 {
          OneMoreWord(before, bias, badWordsIds, i, After(past));
          continue;
        }
        var prefixLength := |w| - 1;
        var lastTokenId := w[|w| - 1];
        var actualPrefix := past[|past| - prefixLength..];
        var expectedPrefix := w[..prefixLength];
        assert |actualPrefix| == |expectedPrefix|;
        var isMatch := actualPrefix == expectedPrefix;
        bias := bias[lastTokenId := bias[lastTokenId].Plus(if isMatch then NegInf else Fin(0.0))];
        OneMoreWord(before, bias, badWordsIds, i, After(past));
      }
      assert badWordsIds[..|badWordsIds|] == badWordsIds;
    }
  }

  /** How a word bans a token: a word of one token always bans it, a longer one after its prefix. */
  datatype Rule = Always | After(past: seq<int>) {
    ghost predicate Bans(w: Word, t: int) {
      match this
      case Always => |w| == 1 && w[0] == t
      case After(past) =>
        1 < |w| <= |past| + 1 && w[|w| - 1] == t && past[|past| - (|w| - 1)..] == w[..|w| - 1]
    }
  }

  ghost predicate Banned(words: seq<Word>, rule: Rule, t: int) {
    exists w <- words :: rule.Bans(w, t)
  }

  /** Minus infinity where some word bans, zero elsewhere. */
  ghost predicate IsBias(bias: seq<Logit>, words: seq<Word>, rule: Rule) {
    forall t :: 0 <= t < |bias| ==> bias[t] == if Banned(words, rule, t) then NegInf else Fin(0.0)
  }

  /** One more word sets its own bans to minus infinity. */
  lemma OneMoreWord(bias: seq<Logit>, after: seq<Logit>, words: seq<Word>, i: nat, rule: Rule)
    requires i < |words| && IsBias(bias, words[..i], rule) && |after| == |bias|
    requires forall t :: 0 <= t < |bias| ==> after[t] == if rule.Bans(words[i], t) then NegInf else bias[t]
    ensures IsBias(after, words[..i + 1], rule)
  {
    assert words[..i + 1] == words[..i] + [words[i]];
    forall t | 0 <= t < |after|
      ensures Banned(words[..i + 1], rule, t) <==> Banned(words[..i], rule, t) || rule.Bans(words[i], t)
    {
      assert forall w :: w in words[..i + 1] <==> w in words[..i] || w == words[i];
    }
  }

  lemma BanIsBlock(w: Word, past: seq<int>, t: int)
    requires w != []
    ensures Always.Bans(w, t) || After(past).Bans(w, t) <==> EndsWith(past + [t], w)
  {
    var all := past + [t];
    if |w| <= |all| {
      var tail := all[|all| - |w|..];
      assert tail == past[|past| - (|w| - 1)..] + [t];
      assert w == w[..|w| - 1] + [w[|w| - 1]];
    }
  }

  lemma BansAreBlocks(words: seq<Word>, past: seq<int>, t: int)
    requires NonEmpty(words)
    ensures Blocked(words, past, t) <==>
            Banned(words, Always, t) || Banned(words, After(past), t)
  {
    forall w | w in words ensures Always.Bans(w, t) || After(past).Bans(w, t) <==> EndsWith(past + [t], w) {
      BanIsBlock(w, past, t);
    }
  }

  // ----- Whole generations -----

  /** Every token was allowed when it was picked. */
  ghost predicate Picked(words: seq<Word>, output: seq<int>) {
    forall k :: 0 <= k < |output| ==> !Blocked(words, output[..k], output[k])
  }

  lemma OccursUpTo(tokens: seq<int>, w: Word, k: nat)
    requires k < |tokens| && EndsWith(tokens[..k] + [tokens[k]], w)
    ensures Occurs(tokens, w)
  {
    var all := tokens[..k] + [tokens[k]];
    assert all == tokens[..k + 1];
    var i := k + 1 - |w|;
    assert tokens[i..i + |w|] == all[|all| - |w|..];
    assert OccursAt(tokens, w, i);
  }

  /** Over any run from an empty past, with any logits: picking only tokens that the processor did
      not set to minus infinity keeps every bad word out, and rules out nothing else. */
  lemma NoBadWordIsGenerated(words: seq<Word>, output: seq<int>)
    requires NonEmpty(words)
    ensures Picked(words, output) <==> forall w <- words :: !Occurs(output, w)
  {
    if Picked(words, output) {
      forall w | w in words ensures !Occurs(output, w) {
        forall i ensures !OccursAt(output, w, i) {
          if 0 <= i <= |output| - |w| {
            var k := i + |w| - 1;
            assert output[..k] + [output[k]] == output[..k + 1];
            assert output[..k + 1][k + 1 - |w|..] == output[i..i + |w|];
            assert !Blocked(words, output[..k], output[k]);
          }
        }
      }
    }
    if !Picked(words, output) {
      var k :| 0 <= k < |output| && Blocked(words, output[..k], output[k]);
      var w :| w in words && EndsWith(output[..k] + [output[k]], w);
      OccursUpTo(output, w, k);
    }
  }

  /** A generation with the processor in the loop; `logitsOf` is the model and `pick` chooses
      among the tokens that are left. It ends early when a word is outside the vocabulary or
      nothing is left to pick. */
  method Generate(p: NoBadWordsLogitsProcessor, vocabSize: nat, steps: nat,
                  logitsOf: seq<int> -> seq<Logit>, pick: seq<Logit> -> int) returns (output: seq<int>)
    requires p.Valid() && p.wordBias.None?
    requires forall past :: |logitsOf(past)| == vocabSize
    modifies p`wordBias
    ensures forall w <- p.badWordsIds :: !Occurs(output, w)
  {
    output := [];
    for i := 0 to steps
      invariant p.Valid() && (p.wordBias.Some? ==> |p.wordBias.value| == vocabSize)
      invariant Picked(p.badWordsIds, output)
    {
      var ok, processed := p.Call(output, logitsOf(output));
      if !ok {
        break;
      }
      var t := pick(processed);
      if !(0 <= t < vocabSize) || processed[t].NegInf? {
        break;
      }
      PickedMore(p.badWordsIds, output, t);
      output := output + [t];
    }
    NoBadWordIsGenerated(p.badWordsIds, output);
  }

  lemma PickedMore(words: seq<Word>, output: seq<int>, t: int)
    requires Picked(words, output) && !Blocked(words, output, t)
    ensures Picked(words, output + [t])
  {
    var more := output + [t];
    forall k | 0 <= k < |more| ensures !Blocked(words, more[..k], more[k]) {
      if k < |output| {
        assert more[..k] == output[..k];
      } else {
        assert more[..k] == output;
      }
    }
  }
}
