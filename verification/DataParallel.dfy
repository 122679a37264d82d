/**
 Token counts of data-parallel ranks (vllm/vllm/forward_context.py): sequence-parallel shards,
 their running totals, and the chunks that all ranks go through in lockstep.
 */
module DataParallel {
  import opened Numbers
  import opened Options

  /** `a // b` for a positive `b`. */
  function FloorDiv(a: int, b: int): int
    requires b > 0
  {
    a / b
  }

  function Repeat(x: int, n: nat): seq<int> {
    seq(n, _ => x)
  }

  function RepeatInterleave(xs: seq<int>, n: nat): seq<int> {
    if xs == [] then [] else RepeatInterleave(xs[..|xs| - 1], n) + Repeat(xs[|xs| - 1], n)
  }

  /** `ceil(tokens / sp)` per rank, as _compute_sp_num_tokens writes it. */
  function Ceilings(tokens: seq<int>, sp: int): seq<int>
    requires sp > 0
  {
    seq(|tokens|, i requires 0 <= i < |tokens| => FloorDiv(tokens[i] + sp - 1, sp))
  }

  /** _compute_sp_num_tokens: one shard per sequence-parallel rank. */
  function SpNumTokens(tokens: seq<int>, sp: int): seq<int>
    requires sp > 0
  {
    RepeatInterleave(Ceilings(tokens, sp), sp)
  }

  function CumSum(xs: seq<int>): seq<int> {
    seq(|xs|, i requires 0 <= i < |xs| => Sum(xs[..i + 1]))
  }

  ghost predicate Counts(tokens: seq<int>) {
    forall i :: 0 <= i < |tokens| ==> tokens[i] >= 0
  }

  // ----- One chunk -----

  /** What rank `i` processes in chunk `c`, at least one token even when it is done. */
  function ChunkTokens(tokens: int, maxTokens: int, c: int): int {
    var n := Min(maxTokens, tokens - maxTokens * c);
    if n <= 0 then 1 else n
  }

  /** _compute_chunked_local_num_tokens. */
  method ChunkedLocalNumTokens(tokens: seq<int>, sp: int, maxTokens: int, c: int) returns (sizes: seq<int>)
    requires sp > 0
    ensures |sizes| == |SpNumTokens(tokens, sp)|
    ensures forall i :: 0 <= i < |sizes| ==> sizes[i] == ChunkTokens(SpNumTokens(tokens, sp)[i], maxTokens, c)
  {
    var spTokens := SpNumTokens(tokens, sp);
    sizes := Repeat(-1, |spTokens|);
    for i := 0 to |spTokens|
      invariant |sizes| == |spTokens|
      invariant forall j :: 0 <= j < i ==> sizes[j] == ChunkTokens(spTokens[j], maxTokens, c)
    {
      sizes := sizes[i := Min(maxTokens, spTokens[i] - maxTokens * c)];
      if sizes[i] <= 0 {
        sizes := sizes[i := 1];
      }
    }
  }

  // ----- All chunks: tokens are conserved -----

  /** A rank has nothing left in chunk `c`. */
  predicate Idle(tokens: int, maxTokens: int, c: int) {
    tokens <= maxTokens * c
  }

  function IdleChunks(tokens: int, maxTokens: int, chunks: nat): nat {
    if chunks == 0 then 0
    else IdleChunks(tokens, maxTokens, chunks - 1) + if Idle(tokens, maxTokens, chunks - 1) then 1 else 0
  }

  function Processed(tokens: int, maxTokens: int, chunks: nat): int {
    if chunks == 0 then 0 else Processed(tokens, maxTokens, chunks - 1) + ChunkTokens(tokens, maxTokens, chunks - 1)
  }

  lemma {:induction false} ProcessedSoFar(tokens: int, maxTokens: int, chunks: nat)
    requires tokens >= 0 && maxTokens > 0
    ensures Processed(tokens, maxTokens, chunks) == Min(tokens, maxTokens * chunks) + IdleChunks(tokens, maxTokens, chunks)
    decreases chunks
  {
    if chunks > 0 {
      ProcessedSoFar(tokens, maxTokens, chunks - 1);
      assert maxTokens * chunks == maxTokens * (chunks - 1) + maxTokens;
    }
  }

  /** The number of chunks that the largest rank needs. */
  function ChunksNeeded(shards: seq<int>, maxTokens: int): int
    requires maxTokens > 0
  {
    if shards == [] then 0
    else Max(ChunksNeeded(shards[..|shards| - 1], maxTokens), FloorDiv(shards[|shards| - 1] + maxTokens - 1, maxTokens))
  }

  lemma CeilingDivision(n: int, d: int)
    requires n >= 0 && d > 0
    ensures FloorDiv(n + d - 1, d) >= 0
    ensures n <= d * FloorDiv(n + d - 1, d) < n + d
  {
    var q, r := (n + d - 1) / d, (n + d - 1) % d;
    assert n + d - 1 == d * q + r;
  }

  lemma {:induction false} EnoughChunks(shards: seq<int>, maxTokens: int, i: nat)
    requires maxTokens > 0 && Counts(shards) && i < |shards|
    ensures ChunksNeeded(shards, maxTokens) >= 0
    ensures shards[i] <= maxTokens * ChunksNeeded(shards, maxTokens)
    decreases |shards|
  {
    var front, last := shards[..|shards| - 1], shards[|shards| - 1];
    var q := FloorDiv(last + maxTokens - 1, maxTokens);
    CeilingDivision(last, maxTokens);
    var c := ChunksNeeded(shards, maxTokens);
    assert q <= c;
    ScaleUp(q, c, maxTokens);
    if i < |front| {
      EnoughChunks(front, maxTokens, i);
      ScaleUp(ChunksNeeded(front, maxTokens), c, maxTokens);
    }
  }

  lemma ScaleUp(a: int, b: int, m: int)
    requires a <= b && m > 0
    ensures m * a <= m * b
  {}

  /** No chunk is one too many: in each of them some rank still has tokens. */
  lemma {:induction false} SomeRankIsBusy(shards: seq<int>, maxTokens: int, c: nat) returns (i: nat)
    requires maxTokens > 0 && Counts(shards) && c < ChunksNeeded(shards, maxTokens)
    ensures i < |shards| && !Idle(shards[i], maxTokens, c)
    decreases |shards|
  {
    var front, last := shards[..|shards| - 1], shards[|shards| - 1];
    var q := FloorDiv(last + maxTokens - 1, maxTokens);
    CeilingDivision(last, maxTokens);
    if c < q {
      i := |front|;
      ScaleUp(c + 1, q, maxTokens);
      assert maxTokens * (c + 1) == maxTokens * c + maxTokens;
    } else {
      i := SomeRankIsBusy(front, maxTokens, c);
    }
  }

  /** Lockstep conserves tokens: over the chunks that the largest rank needs, each rank processes
      between one token and the maximum per chunk, and altogether exactly its own tokens plus one
      for every chunk in which it has nothing left. */
  lemma LockstepConserves(tokens: seq<int>, sp: int, maxTokens: int, i: nat)
    requires sp > 0 && maxTokens > 0 && Counts(tokens) && i < |SpNumTokens(tokens, sp)|
    ensures var shards := SpNumTokens(tokens, sp);
            var chunks := ChunksNeeded(shards, maxTokens);
            && chunks >= 0
            && Processed(shards[i], maxTokens, chunks) == shards[i] + IdleChunks(shards[i], maxTokens, chunks)
            && forall c :: 0 <= c < chunks ==> 1 <= ChunkTokens(shards[i], maxTokens, c) <= maxTokens
  {
    var shards := SpNumTokens(tokens, sp);
    ShardsAreCounts(tokens, sp);
    EnoughChunks(shards, maxTokens, i);
    ProcessedSoFar(shards[i], maxTokens, ChunksNeeded(shards, maxTokens));
  }

  lemma {:induction false} InterleavedFrom(xs: seq<int>, n: nat)
    ensures forall i :: 0 <= i < |RepeatInterleave(xs, n)| ==> RepeatInterleave(xs, n)[i] in xs
    decreases |xs|
  {
    if xs != [] {
      InterleavedFrom(xs[..|xs| - 1], n);
    }
  }

  lemma {:induction false} SumInterleaved(xs: seq<int>, n: nat)
    ensures Sum(RepeatInterleave(xs, n)) == n * Sum(xs)
    decreases |xs|
  {
    if xs != [] {
      var front, x := xs[..|xs| - 1], xs[|xs| - 1];
      SumInterleaved(front, n);
      SumAppend(RepeatInterleave(front, n), Repeat(x, n));
      SumRepeat(x, n);
      Distribute(n, Sum(front), x);
    }
  }

  lemma Distribute(n: nat, a: int, b: int)
    ensures n * (a + b) == n * a + n * b
  {}

  lemma {:induction false} SumAppend(a: seq<int>, b: seq<int>)
    ensures Sum(a + b) == Sum(a) + Sum(b)
    decreases |b|
  {
    if b == [] {
      assert a + b == a;
    } else {
      assert (a + b)[..|a + b| - 1] == a + b[..|b| - 1];
      SumAppend(a, b[..|b| - 1]);
    }
  }

  lemma {:induction false} SumRepeat(x: int, n: nat)
    ensures Sum(Repeat(x, n)) == n * x
    decreases n
  {
    if n > 0 {
      assert Repeat(x, n)[..n - 1] == Repeat(x, n - 1);
      SumRepeat(x, n - 1);
      assert n * x == (n - 1) * x + x;
    }
  }

  lemma ShardsAreCounts(tokens: seq<int>, sp: int)
    requires sp > 0 && Counts(tokens)
    ensures Counts(SpNumTokens(tokens, sp))
  {
    var ceilings := Ceilings(tokens, sp);
    InterleavedFrom(ceilings, sp);
    forall i | 0 <= i < |tokens| ensures ceilings[i] >= 0 { CeilingDivision(tokens[i], sp); }
  }

  // ----- Running totals over the shards -----

  /** cu_tokens_across_sp, with its own formula for the ceiling. */
  function CuTokensAcrossSp(tokens: seq<int>, sp: int): seq<int>
    requires sp > 0
  {
    CumSum(RepeatInterleave(seq(|tokens|, i requires 0 <= i < |tokens| => FloorDiv(tokens[i] - 1 + sp, sp)), sp))
  }

  lemma {:induction false} CeilingsBound(tokens: seq<int>, sp: int)
    requires sp > 0 && Counts(tokens)
    ensures Sum(tokens) <= sp * Sum(Ceilings(tokens, sp)) <= Sum(tokens) + |tokens| * (sp - 1)
    decreases |tokens|
  {
    if tokens != [] {
      var front, x := tokens[..|tokens| - 1], tokens[|tokens| - 1];
      CeilingsBound(front, sp);
      CeilingDivision(x, sp);
      assert Ceilings(tokens, sp)[..|tokens| - 1] == Ceilings(front, sp);
      OneMore(Sum(front), Sum(Ceilings(front, sp)), |front|, x, FloorDiv(x + sp - 1, sp), sp);
    }
  }

  lemma OneMore(total: int, ceilings: int, n: nat, x: int, q: int, sp: int)
    requires total <= sp * ceilings <= total + n * (sp - 1)
    requires x <= sp * q < x + sp
    ensures total + x <= sp * (ceilings + q) <= total + x + (n + 1) * (sp - 1)
  {
    assert sp * (ceilings + q) == sp * ceilings + sp * q;
    assert (n + 1) * (sp - 1) == n * (sp - 1) + (sp - 1);
  }

  /** The running totals are those of the shard sizes; the last one covers all tokens, with less
      than one shard's rounding per data-parallel rank on top. */
  lemma CuTokensArePrefixSums(tokens: seq<int>, sp: int)
    requires sp > 0 && Counts(tokens)
    ensures var cu := CuTokensAcrossSp(tokens, sp);
            && cu == CumSum(SpNumTokens(tokens, sp)) && RunningTotals(cu, SpNumTokens(tokens, sp))
            && (tokens != [] ==> |cu| > 0 && Sum(tokens) <= cu[|cu| - 1] <= Sum(tokens) + |tokens| * (sp - 1))
  {
    var shards := SpNumTokens(tokens, sp);
    var cu := CumSum(shards);
    TotalsOfShards(tokens, sp);
    AllSteps(shards, cu);
    LastTotal(tokens, sp, shards, cu);
  }

  /** Each total is the one before it and one more number. */
  ghost predicate RunningTotals(cu: seq<int>, xs: seq<int>) {
    |cu| == |xs| && forall k :: 0 <= k < |cu| ==> cu[k] == xs[k] + if k == 0 then 0 else cu[k - 1]
  }

  lemma TotalsOfShards(tokens: seq<int>, sp: int)
    requires sp > 0
    ensures CuTokensAcrossSp(tokens, sp) == CumSum(SpNumTokens(tokens, sp))
  {
    var a := seq(|tokens|, i requires 0 <= i < |tokens| => FloorDiv(tokens[i] - 1 + sp, sp));
    assert a == Ceilings(tokens, sp);
  }

  lemma AllSteps(xs: seq<int>, cu: seq<int>)
    requires cu == CumSum(xs)
    ensures RunningTotals(cu, xs)
  {
    forall k | 0 <= k < |cu| ensures cu[k] == xs[k] + if k == 0 then 0 else cu[k - 1] {
      CumSumSteps(xs, k);
    }
  }

  lemma LastTotal(tokens: seq<int>, sp: int, shards: seq<int>, cu: seq<int>)
    requires sp > 0 && Counts(tokens) && shards == SpNumTokens(tokens, sp) && cu == CumSum(shards)
    ensures tokens != [] ==> |cu| > 0 && Sum(tokens) <= cu[|cu| - 1] <= Sum(tokens) + |tokens| * (sp - 1)
  {
    SumInterleaved(Ceilings(tokens, sp), sp);
    CeilingsBound(tokens, sp);
    if tokens != [] {
      assert shards != [];
      assert shards[..|shards|] == shards;
    }
  }

  /** Shard `j` of rank `r` has the number of tokens of the rank divided by the shards, rounded up. */
  ghost predicate IsShard(tokens: seq<int>, sp: int, r: nat, q: int)
    requires r < |tokens|
  {
    tokens[r] <= sp * q < tokens[r] + sp
  }

  lemma {:induction false} InterleavedAt(xs: seq<int>, n: nat, r: nat, j: nat)
    requires r < |xs| && j < n
    ensures |RepeatInterleave(xs, n)| == |xs| * n && r * n + j < |xs| * n
    ensures RepeatInterleave(xs, n)[r * n + j] == xs[r]
    decreases |xs|
  {
    var front, x := xs[..|xs| - 1], xs[|xs| - 1];
    InterleavedLength(front, n);
    InterleavedLength(xs, n);
    Blocks(r, |front|, n, j);
    var all := RepeatInterleave(front, n) + Repeat(x, n);
    assert RepeatInterleave(xs, n) == all;
    if r < |front| {
      InterleavedAt(front, n, r, j);
      assert all[r * n + j] == RepeatInterleave(front, n)[r * n + j];
    } else {
      assert all[r * n + j] == Repeat(x, n)[j];
    }
  }

  lemma Blocks(r: nat, m: nat, n: nat, j: nat)
    requires r <= m && j < n
    ensures r < m ==> r * n + j < m * n
    ensures m * n + n == (m + 1) * n
    ensures r * n + j < (m + 1) * n
  {
    if r < m { assert (r + 1) * n <= m * n; }
  }

  lemma {:induction false} InterleavedLength(xs: seq<int>, n: nat)
    ensures |RepeatInterleave(xs, n)| == |xs| * n
    decreases |xs|
  {
    if xs != [] {
      InterleavedLength(xs[..|xs| - 1], n);
      assert |xs| * n == (|xs| - 1) * n + n;
    }
  }

  /** Each rank has its shards side by side, all of one size. */
  lemma ShardsSideBySide(tokens: seq<int>, sp: int, r: nat, j: nat)
    requires sp > 0 && Counts(tokens) && r < |tokens| && j < sp
    ensures |SpNumTokens(tokens, sp)| == |tokens| * sp && r * sp + j < |tokens| * sp
    ensures IsShard(tokens, sp, r, SpNumTokens(tokens, sp)[r * sp + j])
  {
    InterleavedAt(Ceilings(tokens, sp), sp, r, j);
    CeilingDivision(tokens[r], sp);
  }

  lemma CumSumSteps(xs: seq<int>, k: nat)
    requires k < |xs|
    ensures CumSum(xs)[k] == xs[k] + if k == 0 then 0 else CumSum(xs)[k - 1]
  {
    var up := xs[..k + 1];
    assert up[..|up| - 1] == xs[..k] && up[|up| - 1] == xs[k];
    if k == 0 {
      assert xs[..k] == [] && Sum([]) == 0;
    }
  }

  method AddSizes(ghost shards: seq<int>, ghost maxTokens: int, ghost c: nat, totals: seq<int>, sizes: seq<int>) returns (sums: seq<int>)
    requires |totals| == |sizes| == |shards|
    requires forall i :: 0 <= i < |shards| ==> totals[i] == Processed(shards[i], maxTokens, c)
    requires forall i :: 0 <= i < |shards| ==> sizes[i] == ChunkTokens(shards[i], maxTokens, c)
    ensures |sums| == |shards|
    ensures forall i :: 0 <= i < |shards| ==> sums[i] == Processed(shards[i], maxTokens, c + 1)
  {
    sums := seq(|totals|, i requires 0 <= i < |totals| && i < |sizes| => totals[i] + sizes[i]);
  }

  // ----- The metadata object -----

  class DPMetadata {
    const numTokensAcrossDp: seq<int>
    var localSizes: Option<seq<int>>

    constructor (numTokensAcrossDp: seq<int>)
      ensures this.numTokensAcrossDp == numTokensAcrossDp && localSizes == None
    {
      this.numTokensAcrossDp, localSizes := numTokensAcrossDp, None;
    }

    /** Entering chunked_sizes. */
    method EnterChunk(sp: int, maxTokens: int, c: int) returns (sizes: seq<int>)
      requires sp > 0
      modifies `localSizes
      ensures localSizes == Some(sizes)
      ensures |sizes| == |SpNumTokens(numTokensAcrossDp, sp)|
      ensures forall i :: 0 <= i < |sizes| ==> sizes[i] == ChunkTokens(SpNumTokens(numTokensAcrossDp, sp)[i], maxTokens, c)
    {
      sizes := ChunkedLocalNumTokens(numTokensAcrossDp, sp, maxTokens, c);
      localSizes := Some(sizes);
    }

    /** Leaving it, normally or by an exception. */
    method Leave()
      modifies `localSizes
      ensures localSizes == None
    {
      localSizes := None;
    }

    /** A whole chunked forward pass: in every chunk every rank has something to do, over all chunks
        each rank gets its tokens and one more for every idle chunk, and nothing is left set. */
    method ForwardInChunks(sp: int, maxTokens: int) returns (totals: seq<int>)
      requires sp > 0 && maxTokens > 0 && Counts(numTokensAcrossDp) && localSizes == None
      modifies `localSizes
      ensures localSizes == None
      ensures var shards := SpNumTokens(numTokensAcrossDp, sp);
              var chunks := ChunksNeeded(shards, maxTokens);
              && |totals| == |shards| && chunks >= 0
              && forall i :: 0 <= i < |shards| ==> totals[i] == shards[i] + IdleChunks(shards[i], maxTokens, chunks)
    {
      var shards := SpNumTokens(numTokensAcrossDp, sp);
      var chunks := ChunksNeeded(shards, maxTokens);
      if shards != [] { LockstepConserves(numTokensAcrossDp, sp, maxTokens, 0); }
      totals := Repeat(0, |shards|);
      for c := 0 to chunks
        invariant localSizes == None && |totals| == |shards|
        invariant forall i :: 0 <= i < |shards| ==> totals[i] == Processed(shards[i], maxTokens, c)
      {
        var sizes := EnterChunk(sp, maxTokens, c);
        totals := AddSizes(shards, maxTokens, c, totals, sizes);
        Leave();
      }
      forall i | 0 <= i < |shards| ensures totals[i] == shards[i] + IdleChunks(shards[i], maxTokens, chunks) {
        LockstepConserves(numTokensAcrossDp, sp, maxTokens, i);
      }
    }
  }
}
