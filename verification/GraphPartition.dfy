/**
 Graph partition signatures: what each compiled partition of a scheduled graph takes in,
 frees and hands back (vllm/vllm/env_override.py, get_graph_partition_signature_patched).

 The signature of a partition depends only on the partition and on the names that the
 partitions after it still want; `Unmet` is that backward set.
 */
module GraphPartition {
  import opened Numbers

  type Name = string

  /** What the none-layout test asks of a scheduled buffer. */
  datatype Buffer = Allocated | NoneLayout(isMutation: bool)

  /** A scheduled node: the names it reads and writes, the buffers it defines, and the
      storages that nobody uses after it. */
  datatype Node = Node(
    op: string,
    readNames: set<Name>,
    writeNames: set<Name>,
    outputs: set<Name>,
    lastUsage: set<Name>)

  /** The scheduler's tables: name_to_buf, mutation_real_name, the keys of
      get_name_to_nodes(), and the constants and output names of the graph. */
  datatype Graph = Graph(
    buffers: map<Name, Buffer>,
    realName: map<Name, Name>,
    nodeNames: set<Name>,
    constants: set<Name>,
    outputNames: set<Name>)

  datatype Signature = Signature(
    inputNodes: set<Name>,
    outputNodes: set<Name>,
    inputDeallocation: map<Name, bool>,
    skipCudagraph: bool,
    constantNames: set<Name>)

  /** A mutated buffer names its storage directly: one look-up resolves any name. */
  predicate Resolved(g: Graph) {
    forall n <- g.realName :: g.realName[n] !in g.realName
  }

  function Real(g: Graph, n: Name): Name {
    if n in g.realName then g.realName[n] else n
  }

  /** A buffer without storage. A mutation output stands for the buffer it mutates. */
  predicate IsNoneLayout(g: Graph, n: Name)
    requires Resolved(g)
    decreases n in g.realName
  {
    n in g.buffers &&
    match g.buffers[n]
    case Allocated => false
    case NoneLayout(isMutation) =>
      if isMutation && n in g.realName && g.realName[n] != "" then IsNoneLayout(g, g.realName[n])
      else true
  }

  // ----- The names a partition mentions -----

  function OutputNames(p: seq<Node>): set<Name> {
    set x, n | x in p && n in x.outputs :: n
  }

  function AccessedNames(p: seq<Node>): set<Name> {
    set x, n | x in p && n in x.readNames + x.writeNames :: n
  }

  function NamesToFree(p: seq<Node>): set<Name> {
    set x, n | x in p && n in x.lastUsage :: n
  }

  function RealNames(g: Graph, names: set<Name>): set<Name> {
    set n | n in names :: Real(g, n)
  }

  // ----- One partition's signature, given the names still wanted after it -----

  function InputNames(g: Graph, p: seq<Node>): set<Name>
    requires Resolved(g)
  {
    var outputs := OutputNames(p);
    RealNames(g, (set n | n in AccessedNames(p) && !IsNoneLayout(g, n)) - outputs)
    + (NamesToFree(p) - outputs) * g.nodeNames
  }

  function ReturnedNames(g: Graph, p: seq<Node>, unmet: set<Name>): set<Name>
    requires Resolved(g)
  {
    RealNames(g, OutputNames(p) * unmet + (InputNames(g, p) * g.nodeNames - NamesToFree(p)))
  }

  function SignatureOf(g: Graph, p: seq<Node>, unmet: set<Name>, skip: bool): Signature
    requires Resolved(g)
  {
    var inputs := InputNames(g, p);
    Signature(
      inputs * g.nodeNames,
      set n | n in ReturnedNames(g, p, unmet) && !IsNoneLayout(g, n),
      map n | n in inputs * g.nodeNames :: n in NamesToFree(p),
      skip,
      inputs * g.constants)
  }

  // ----- The backward pass -----

  /** The names wanted by `ps` or by the graph's caller and not handed over inside `ps`. */
  function Unmet(g: Graph, ps: seq<seq<Node>>): set<Name>
    requires Resolved(g)
  {
    if ps == [] then g.outputNames
    else
      var unmet := Unmet(g, ps[1..]);
      InputNames(g, ps[0]) + (unmet - ReturnedNames(g, ps[0], unmet))
  }

  function Signatures(g: Graph, ps: seq<seq<Node>>, skips: seq<bool>): (sigs: seq<Signature>)
    requires Resolved(g) && |ps| == |skips|
    ensures |sigs| == |ps|
  {
    if ps == [] then []
    else [SignatureOf(g, ps[0], Unmet(g, ps[1..]), skips[0])] + Signatures(g, ps[1..], skips[1..])
  }

  /** The signature carries the flag, and says of exactly its inputs whether they are deallocated. */
  ghost predicate Flagged(signature: Signature, skip: bool) {
    signature.skipCudagraph == skip && signature.inputDeallocation.Keys == signature.inputNodes
  }

  /** Each signature depends on its own partition and on what is wanted after it. It carries the
      flag of its partition. */
  lemma {:induction false} SignatureAt(g: Graph, ps: seq<seq<Node>>, skips: seq<bool>, k: nat)
    requires Resolved(g) && k < |ps| == |skips|
    ensures Signatures(g, ps, skips)[k] == SignatureOf(g, ps[k], Unmet(g, ps[k + 1..]), skips[k])
    ensures Flagged(Signatures(g, ps, skips)[k], skips[k])
    decreases k
  {
    if k > 0 {
      SignatureAt(g, ps[1..], skips[1..], k - 1);
      assert ps[1..][k..] == ps[k + 1..];
    }
  }

  // ----- The algorithm -----

  /** Every buffer a partition defines, and every storage a mutation names, has a node,
      so that the look-ups of output nodes succeed. */
  ghost predicate NamesKnown(g: Graph, ps: seq<seq<Node>>) {
    RealNamesKnown(g) && forall p <- ps :: OutputNames(p) <= g.nodeNames
  }

  ghost predicate RealNamesKnown(g: Graph) {
    forall n <- g.realName :: g.realName[n] in g.nodeNames
  }

  method PartitionNames(p: seq<Node>) returns (outputs: set<Name>, accessed: set<Name>, toFree: set<Name>)
    ensures outputs == OutputNames(p) && accessed == AccessedNames(p) && toFree == NamesToFree(p)
  {
    outputs, accessed, toFree := {}, {}, {};
    for i := 0 to |p|
      invariant outputs == OutputNames(p[..i])
      invariant accessed == AccessedNames(p[..i])
      invariant toFree == NamesToFree(p[..i])
    {
      NamesOfSnoc(p[..i], p[i]);
      assert p[..i + 1] == p[..i] + [p[i]];
      outputs := outputs + p[i].outputs;
      accessed := accessed + (p[i].readNames + p[i].writeNames);
      toFree := toFree + p[i].lastUsage;
    }
    assert p[..|p|] == p;
  }

  lemma NamesOfSnoc(p: seq<Node>, x: Node)
    ensures OutputNames(p + [x]) == OutputNames(p) + x.outputs
    ensures AccessedNames(p + [x]) == AccessedNames(p) + (x.readNames + x.writeNames)
    ensures NamesToFree(p + [x]) == NamesToFree(p) + x.lastUsage
  {
    assert forall y :: y in p + [x] <==> y in p || y == x;
    forall n ensures n in AccessedNames(p + [x]) <==> n in AccessedNames(p) + (x.readNames + x.writeNames) {
      if n in x.readNames + x.writeNames { assert x in p + [x] && n in x.readNames + x.writeNames; }
    }
  }

  /** One turn of the backward loop: the signature and the names wanted before it. */
  method PartitionSignature(g: Graph, partition: seq<Node>, unmetOutputNames: set<Name>, skip: bool)
    returns (signature: Signature, unmetBefore: set<Name>)
    requires Resolved(g)
    requires RealNamesKnown(g) && OutputNames(partition) <= g.nodeNames
    ensures signature == SignatureOf(g, partition, unmetOutputNames, skip)
    ensures Flagged(signature, skip)
    ensures unmetBefore == InputNames(g, partition) + (unmetOutputNames - ReturnedNames(g, partition, unmetOutputNames))
  {
    var outputNames, accessed, bufferNamesToFree := PartitionNames(partition);
    var returned := outputNames * unmetOutputNames;

    var inputNames := (set n | n in accessed && !IsNoneLayout(g, n)) - outputNames;
    inputNames := set n | n in inputNames :: Real(g, n);
    inputNames := inputNames + (set n | n in bufferNamesToFree - outputNames && n in g.nodeNames);
    assert inputNames == InputNames(g, partition);

    var inputNodes := set n | n in inputNames && n in g.nodeNames;
    var inputDeallocation := map n | n in inputNames && n in g.nodeNames :: n in bufferNamesToFree;

    returned := returned + (set n | n in inputNames && n in g.nodeNames && n !in bufferNamesToFree);
    assert returned == outputNames * unmetOutputNames + (inputNames * g.nodeNames - bufferNamesToFree);
    returned := set n | n in returned :: Real(g, n);
    assert returned == ReturnedNames(g, partition, unmetOutputNames);
    assert returned <= g.nodeNames;  // every look-up succeeds
    var outputNodes := set n | n in returned && !IsNoneLayout(g, n);
    var constantNames := set n | n in inputNames && n in g.constants;

    assert inputNodes == inputNames * g.nodeNames && constantNames == inputNames * g.constants;
    signature := Signature(inputNodes, outputNodes, inputDeallocation, skip, constantNames);
    unmetBefore := inputNames + (unmetOutputNames - returned);
  }

  lemma BackwardStep(g: Graph, ps: seq<seq<Node>>, skips: seq<bool>, k: nat)
    requires Resolved(g) && k < |ps| == |skips|
    ensures var unmet := Unmet(g, ps[k + 1..]);
            && Unmet(g, ps[k..]) == InputNames(g, ps[k]) + (unmet - ReturnedNames(g, ps[k], unmet))
            && Signatures(g, ps[k..], skips[k..])
            == [SignatureOf(g, ps[k], unmet, skips[k])] + Signatures(g, ps[k + 1..], skips[k + 1..])
  {
    assert ps[k..][1..] == ps[k + 1..] && skips[k..][1..] == skips[k + 1..];
  }

  /** Prepends the signature of partition `k`. */
  method PrependSignature(g: Graph, ps: seq<seq<Node>>, skips: seq<bool>, k: nat, unmetOutputNames: set<Name>, signatures: seq<Signature>)
    returns (unmetBefore: set<Name>, more: seq<Signature>)
    requires Resolved(g) && k < |ps| == |skips|
    requires RealNamesKnown(g) && OutputNames(ps[k]) <= g.nodeNames
    requires unmetOutputNames == Unmet(g, ps[k + 1..]) && signatures == Signatures(g, ps[k + 1..], skips[k + 1..])
    ensures unmetBefore == Unmet(g, ps[k..]) && more == Signatures(g, ps[k..], skips[k..])
  {
    var signature;
    signature, unmetBefore := PartitionSignature(g, ps[k], unmetOutputNames, skips[k]);
    more := [signature] + signatures;
    BackwardStep(g, ps, skips, k);
  }

  method BackwardPass(g: Graph, ps: seq<seq<Node>>, skips: seq<bool>) returns (signatures: seq<Signature>)
    requires Resolved(g) && |ps| == |skips|
    requires NamesKnown(g, ps)
    ensures signatures == Signatures(g, ps, skips)
    ensures |signatures| == |ps| && forall k :: 0 <= k < |ps| ==> Flagged(signatures[k], skips[k])
  {
    signatures := [];
    var unmetOutputNames := g.outputNames;
    var k := |ps|;
    while k > 0
      invariant 0 <= k <= |ps|
      invariant unmetOutputNames == Unmet(g, ps[k..])
      invariant signatures == Signatures(g, ps[k..], skips[k..])
    {
      k := k - 1;
      assert ps[k] in ps;
      unmetOutputNames, signatures := PrependSignature(g, ps, skips, k, unmetOutputNames, signatures);
    }
    assert ps[0..] == ps && skips[0..] == skips;
    AllFlagged(g, ps, skips, signatures);
  }

  lemma AllFlagged(g: Graph, ps: seq<seq<Node>>, skips: seq<bool>, signatures: seq<Signature>)
    requires Resolved(g) && |ps| == |skips| && signatures == Signatures(g, ps, skips)
    ensures |signatures| == |ps| && forall k :: 0 <= k < |ps| ==> Flagged(signatures[k], skips[k])
  {
    forall k | 0 <= k < |ps| ensures Flagged(signatures[k], skips[k]) {
      SignatureAt(g, ps, skips, k);
    }
  }

  /** Partitions and flags are paired from the back, as far as both go: each signature carries the
      flag that is paired with its partition. */
  method GetGraphPartitionSignature(g: Graph, partitions: seq<seq<Node>>, skipCudagraphs: seq<bool>)
    returns (signatures: seq<Signature>)
    requires Resolved(g)
    requires NamesKnown(g, partitions)
    ensures
      var m := Min(|partitions|, |skipCudagraphs|);
      signatures == Signatures(g, partitions[|partitions| - m..], skipCudagraphs[|skipCudagraphs| - m..])
    ensures |signatures| == Min(|partitions|, |skipCudagraphs|)
    ensures forall k :: 0 <= k < |signatures| ==> Flagged(signatures[k], skipCudagraphs[|skipCudagraphs| - |signatures| + k])
  {
    var m := Min(|partitions|, |skipCudagraphs|);
    var ps, skips := partitions[|partitions| - m..], skipCudagraphs[|skipCudagraphs| - m..];
    assert forall p <- ps :: p in partitions;
    signatures := BackwardPass(g, ps, skips);
  }
}
