/**
 What a well-formed schedule looks like, and what the backward pass of GraphPartition then
 computes: the set of unmet names is exact, buffers are freed once and never used afterwards,
 and every input of a partition is either freed in it or handed back.

 Which names have storage is read off the tables here (`HasStorage`), not asked of the pass's own
 test; where the two agree is a result (`LayoutTestExactIff`).
 */
module GraphLiveness {
  import opened GraphPartition

  // ----- Storage -----

  /** A name has storage when the buffer at the end of its alias has a layout. Names without a
      buffer are graph inputs and constants. */
  predicate HasStorage(g: Graph, n: Name) {
    Real(g, n) in g.buffers ==> g.buffers[Real(g, n)].Allocated?
  }

  /** What the tables say about alias `n` is what the none-layout test makes of it: a buffer of
      its own without layout is passed over for a mutation output only, and any other buffer
      stands for storage. */
  ghost predicate AliasOk(g: Graph, n: Name)
    requires n in g.realName
  {
    if n in g.buffers && g.buffers[n].NoneLayout? then
      (g.buffers[n].isMutation && g.realName[n] != "") || !HasStorage(g, n)
    else HasStorage(g, n)
  }

  ghost predicate LayoutsOk(g: Graph) {
    forall n <- g.realName :: AliasOk(g, n)
  }

  lemma UnaliasedTest(g: Graph, n: Name)
    requires Resolved(g) && n !in g.realName
    ensures IsNoneLayout(g, n) <==> !HasStorage(g, n)
  {}

  lemma AliasTest(g: Graph, n: Name)
    requires Resolved(g) && n in g.realName
    ensures (IsNoneLayout(g, n) <==> !HasStorage(g, n)) <==> AliasOk(g, n)
  {
    UnaliasedTest(g, g.realName[n]);
  }

  /** The none-layout test, with its step through the mutated buffer, finds out exactly what has
      no storage, on exactly the tables whose aliases are in order. */
  lemma LayoutTestExactIff(g: Graph)
    requires Resolved(g)
    ensures (forall n :: IsNoneLayout(g, n) <==> !HasStorage(g, n)) <==> LayoutsOk(g)
  {
    forall n ensures (IsNoneLayout(g, n) <==> !HasStorage(g, n)) <==> (n in g.realName ==> AliasOk(g, n)) {
      if n in g.realName { AliasTest(g, n); } else { UnaliasedTest(g, n); }
    }
  }

  // ----- Well-formed schedules -----

  /** Storages a node reads from outside itself, and storages it (over)writes. */
  function Needs(g: Graph, x: Node): set<Name>
    requires Resolved(g)
  {
    set n | n in x.readNames + x.writeNames - x.outputs && HasStorage(g, n) :: Real(g, n)
  }

  function Written(g: Graph, x: Node): set<Name>
    requires Resolved(g)
  {
    set n | n in x.outputs && HasStorage(g, n) :: Real(g, n)
  }

  /** The storages that `x` gives up, whether or not it reads or writes them itself; a buffer
      without storage needs no freeing. */
  function FreedStorages(g: Graph, x: Node): set<Name>
    requires Resolved(g)
  {
    set l | l in x.lastUsage && l in g.nodeNames && HasStorage(g, l)
  }

  function Touched(g: Graph, x: Node): set<Name>
    requires Resolved(g)
  {
    Needs(g, x) + Written(g, x) + FreedStorages(g, x)
  }

  /** The tables agree: storages are not themselves aliases, an alias stands for a node, and
      constants are neither nodes nor aliases. */
  ghost predicate TablesOk(g: Graph) {
    && Resolved(g)
    && (forall n <- g.realName :: g.realName[n] in g.nodeNames)
    && g.constants !! g.nodeNames + g.realName.Keys
  }

  /** Node `x` may run when `known` are the names defined so far: it defines new names only,
      mentions known ones only, and mutates only storages that it depends on. It may free any
      known storage, be it one that it does not mention. */
  ghost predicate NodeOk(g: Graph, known: set<Name>, x: Node)
    requires Resolved(g)
  {
    && x.readNames + x.writeNames <= known + x.outputs + g.constants
    && x.outputs !! known
    && x.outputs <= g.nodeNames
    && (forall l <- FreedStorages(g, x) :: l in known + x.outputs && l !in g.realName)
    && forall n <- x.outputs :: n in g.realName && HasStorage(g, n) ==> g.realName[n] in Needs(g, x)
  }

  /** `last_usage` is truthful: what `x` frees is used by no later node and freed by none, and is
      not what the graph returns. There is nothing to use or free of a buffer without storage. */
  ghost predicate FreesOk(g: Graph, x: Node, later: seq<Node>)
    requires Resolved(g)
  {
    && x.lastUsage !! RealNames(g, g.outputNames)
    && (forall y <- later :: x.lastUsage !! Touched(g, y))
    && forall y <- later :: x.lastUsage - g.nodeNames !! y.lastUsage
  }

  /** The nodes are in topological order, each name is produced once, frees are truthful. */
  ghost predicate ScheduleOk(g: Graph, known: set<Name>, nodes: seq<Node>)
    requires Resolved(g)
    decreases |nodes|
  {
    nodes != [] ==>
      && NodeOk(g, known, nodes[0])
      && FreesOk(g, nodes[0], nodes[1..])
      && ScheduleOk(g, known + nodes[0].outputs, nodes[1..])
  }

  /** The storage behind a name with storage is known as soon as the name is. */
  ghost predicate Closed(g: Graph, known: set<Name>)
    requires Resolved(g)
  {
    && known <= g.nodeNames
    && forall n <- known :: HasStorage(g, n) ==> Real(g, n) in known
  }

  function Flatten(ps: seq<seq<Node>>): seq<Node> {
    if ps == [] then [] else ps[0] + Flatten(ps[1..])
  }

  /** A schedule cut into partitions in any way. */
  ghost predicate WellScheduled(g: Graph, known: set<Name>, ps: seq<seq<Node>>) {
    && TablesOk(g)
    && Closed(g, known)
    && ScheduleOk(g, known, Flatten(ps))
  }

  /** The only buffers without storage that the partition frees are its own. */
  ghost predicate FreesOwn(g: Graph, p: seq<Node>)
    requires Resolved(g)
  {
    forall l <- NamesToFree(p) * g.nodeNames :: !HasStorage(g, l) ==> l in OutputNames(p)
  }

  ghost predicate AllFreeOwn(g: Graph, ps: seq<seq<Node>>)
    requires Resolved(g)
  {
    forall k :: 0 <= k < |ps| ==> FreesOwn(g, ps[k])
  }

  /** The input names of the partition have storage, and no storage is missing that it touches
      and does not define. */
  ghost predicate InputsRight(g: Graph, p: seq<Node>)
    requires Resolved(g)
  {
    && (forall n <- InputNames(g, p) :: HasStorage(g, n))
    && forall x <- p, n <- Touched(g, x) :: n in OutputNames(p) || n in InputNames(g, p)
  }

  ghost predicate AllInputsRight(g: Graph, ps: seq<seq<Node>>)
    requires Resolved(g)
  {
    forall k :: 0 <= k < |ps| ==> InputsRight(g, ps[k])
  }

  /** The input on which the pass keeps its promises. */
  ghost predicate PartitionedOk(g: Graph, known: set<Name>, ps: seq<seq<Node>>) {
    WellScheduled(g, known, ps) && AllInputsRight(g, ps)
  }

  /** Where each node frees at most its own buffers without storage, any cut will do. */
  lemma OwnFreesFitAnyCut(g: Graph, ps: seq<seq<Node>>)
    requires Resolved(g)
    requires forall p <- ps, x <- p, l <- x.lastUsage :: !HasStorage(g, l) ==> l in x.outputs
    ensures AllFreeOwn(g, ps)
  {
    forall k, l | 0 <= k < |ps| && l in NamesToFree(ps[k]) && !HasStorage(g, l) ensures l in OutputNames(ps[k]) {
      var x :| x in ps[k] && l in x.lastUsage;
      assert ps[k] in ps;
    }
  }

  // ----- Stepping through a schedule -----

  lemma NamesOfCons(p: seq<Node>)
    requires p != []
    ensures OutputNames(p) == p[0].outputs + OutputNames(p[1..])
    ensures AccessedNames(p) == p[0].readNames + p[0].writeNames + AccessedNames(p[1..])
    ensures NamesToFree(p) == p[0].lastUsage + NamesToFree(p[1..])
  {
    assert p == [p[0]] + p[1..];
    assert forall y :: y in p <==> y == p[0] || y in p[1..];
    assert p[0] in p;
  }

  lemma KnownStaysClosed(g: Graph, known: set<Name>, x: Node)
    requires TablesOk(g) && Closed(g, known) && NodeOk(g, known, x)
    ensures Closed(g, known + x.outputs)
    ensures Needs(g, x) <= known + g.constants
    ensures Touched(g, x) <= known + x.outputs + g.constants
    ensures forall n <- Touched(g, x) :: n !in g.realName && HasStorage(g, n)
  {
    forall n | n in Needs(g, x) ensures n in known + g.constants {
      var m :| m in x.readNames + x.writeNames - x.outputs && HasStorage(g, m) && n == Real(g, m);
    }
  }

  /** A schedule in two parts: the second one starts from what the first one defined. */
  lemma {:induction false} ScheduleOfRest(g: Graph, known: set<Name>, p: seq<Node>, rest: seq<Node>)
    requires TablesOk(g) && Closed(g, known) && ScheduleOk(g, known, p + rest)
    ensures ScheduleOk(g, known + OutputNames(p), rest)
    ensures Closed(g, known + OutputNames(p))
    ensures OutputNames(p) !! known
    decreases |p|
  {
    if p == [] {
      assert p + rest == rest && known + OutputNames(p) == known;
    } else {
      var x, tail := p[0], p[1..];
      assert (p + rest)[1..] == tail + rest;
      KnownStaysClosed(g, known, x);
      ScheduleOfRest(g, known + x.outputs, tail, rest);
      NamesOfCons(p);
      assert known + x.outputs + OutputNames(tail) == known + OutputNames(p);
    }
  }

  /** What the first part frees the second one neither touches nor, if it is no node's name,
      frees. */
  lemma {:induction false} FreedApart(g: Graph, known: set<Name>, p: seq<Node>, rest: seq<Node>, l: Name)
    requires Resolved(g) && ScheduleOk(g, known, p + rest) && l in NamesToFree(p)
    ensures l !in RealNames(g, g.outputNames)
    ensures forall y <- rest :: l !in Touched(g, y) && (l in g.nodeNames || l !in y.lastUsage)
    decreases |p|
  {
    var x, tail := p[0], p[1..];
    assert (p + rest)[1..] == tail + rest;
    if l in x.lastUsage {
      assert FreesOk(g, x, tail + rest);
      assert forall y <- rest :: y in tail + rest;
    } else {
      NamesOfCons(p);
      FreedApart(g, known + x.outputs, tail, rest, l);
    }
  }

  /** What the first part touches is known when it has run, and is a storage. */
  lemma {:induction false} TouchedIsKnown(g: Graph, known: set<Name>, p: seq<Node>, rest: seq<Node>, x: Node)
    requires TablesOk(g) && Closed(g, known) && ScheduleOk(g, known, p + rest) && x in p
    ensures Touched(g, x) <= known + OutputNames(p) + g.constants
    ensures forall n <- Touched(g, x) :: n !in g.realName && HasStorage(g, n)
    decreases |p|
  {
    assert (p + rest)[1..] == p[1..] + rest;
    NamesOfCons(p);
    KnownStaysClosed(g, known, p[0]);
    if x != p[0] {
      TouchedIsKnown(g, known + p[0].outputs, p[1..], rest, x);
    }
  }

  lemma SplitSchedule(g: Graph, known: set<Name>, p: seq<Node>, rest: seq<Node>)
    requires TablesOk(g) && Closed(g, known) && ScheduleOk(g, known, p + rest)
    ensures ScheduleOk(g, known + OutputNames(p), rest)
    ensures Closed(g, known + OutputNames(p))
    ensures OutputNames(p) !! known
    ensures forall l <- NamesToFree(p), y <- rest :: l !in Touched(g, y)
    ensures NamesToFree(p) !! RealNames(g, g.outputNames)
    ensures forall x <- p :: Touched(g, x) <= known + OutputNames(p) + g.constants
    ensures forall x <- p, n <- Touched(g, x) :: n !in g.realName && HasStorage(g, n)
  {
    ScheduleOfRest(g, known, p, rest);
    forall l | l in NamesToFree(p)
      ensures l !in RealNames(g, g.outputNames) && forall y <- rest :: l !in Touched(g, y)
    {
      FreedApart(g, known, p, rest, l);
    }
    forall x | x in p
      ensures Touched(g, x) <= known + OutputNames(p) + g.constants
      ensures forall n <- Touched(g, x) :: n !in g.realName && HasStorage(g, n)
    {
      TouchedIsKnown(g, known, p, rest, x);
    }
  }

  /** Whatever storage a part of the schedule reads or writes and does not define itself, it
      mentions by a name that was known before. */
  lemma {:induction false} TouchedFromOutside(g: Graph, known: set<Name>, p: seq<Node>, rest: seq<Node>, x: Node, n: Name)
    returns (m: Name)
    requires TablesOk(g) && Closed(g, known) && ScheduleOk(g, known, p + rest)
    requires x in p && n in Needs(g, x) + Written(g, x) && n !in OutputNames(p)
    ensures m in AccessedNames(p) && m in known + g.constants && HasStorage(g, m) && Real(g, m) == n
    decreases |p|
  {
    var first, tail := p[0], p[1..];
    assert (p + rest)[1..] == tail + rest;
    NamesOfCons(p);
    if n in Needs(g, first) {
      m :| m in first.readNames + first.writeNames - first.outputs && HasStorage(g, m) && n == Real(g, m);
    } else {
      assert n !in Written(g, first);  // defined storages are excluded, mutated ones are needed
      KnownStaysClosed(g, known, first);
      m := TouchedFromOutside(g, known + first.outputs, tail, rest, x, n);
    }
  }

  lemma {:induction false} AccessedIsKnown(g: Graph, known: set<Name>, p: seq<Node>, rest: seq<Node>)
    requires TablesOk(g) && Closed(g, known) && ScheduleOk(g, known, p + rest)
    ensures AccessedNames(p) <= known + OutputNames(p) + g.constants
    ensures OutputNames(p) <= g.nodeNames
    decreases |p|
  {
    if p != [] {
      NamesOfCons(p);
      assert (p + rest)[1..] == p[1..] + rest;
      KnownStaysClosed(g, known, p[0]);
      AccessedIsKnown(g, known + p[0].outputs, p[1..], rest);
    }
  }

  // ----- One partition of a well-formed schedule -----

  /** Storages used by a stretch of nodes. */
  ghost predicate Uses(g: Graph, p: seq<Node>, n: Name)
    requires Resolved(g)
  {
    exists x <- p :: n in Touched(g, x)
  }

  /** Where an input name comes from: an access by a name that was known before, or a free. */
  lemma InputOrigin(g: Graph, known: set<Name>, p: seq<Node>, rest: seq<Node>, n: Name)
    requires TablesOk(g) && Closed(g, known) && ScheduleOk(g, known, p + rest)
    requires n in InputNames(g, p)
    ensures
      || (n in NamesToFree(p) - OutputNames(p) && n in g.nodeNames)
      || (exists m <- AccessedNames(p) - OutputNames(p) :: m in known + g.constants && !IsNoneLayout(g, m) && Real(g, m) == n)
  {
    AccessedIsKnown(g, known, p, rest);
    if !(n in NamesToFree(p) - OutputNames(p) && n in g.nodeNames) {
      var m :| m in AccessedNames(p) && !IsNoneLayout(g, m) && m !in OutputNames(p) && n == Real(g, m);
    }
  }

  /** An input with storage is one that the partition touches and does not define. */
  lemma InputWithStorage(g: Graph, known: set<Name>, p: seq<Node>, rest: seq<Node>, n: Name)
    requires TablesOk(g) && Closed(g, known) && ScheduleOk(g, known, p + rest)
    requires n in InputNames(g, p) && HasStorage(g, n)
    ensures Uses(g, p, n) && n !in OutputNames(p) && n in known + g.constants && n !in g.realName
  {
    SplitSchedule(g, known, p, rest);
    AccessedIsKnown(g, known, p, rest);
    InputOrigin(g, known, p, rest, n);
    if n in NamesToFree(p) && n in g.nodeNames {
      var x :| x in p && n in x.lastUsage;
      assert n in FreedStorages(g, x);
    } else {
      var m :| m in AccessedNames(p) - OutputNames(p) && m in known + g.constants && !IsNoneLayout(g, m) && Real(g, m) == n;
      AccessedIsUsed(g, p, m);
    }
  }

  /** A name that a partition accesses and does not define is a use of the storage behind it. */
  lemma AccessedIsUsed(g: Graph, p: seq<Node>, m: Name)
    requires Resolved(g) && m in AccessedNames(p) - OutputNames(p) && HasStorage(g, m)
    ensures Uses(g, p, Real(g, m))
  {
    var x :| x in p && m in x.readNames + x.writeNames;
    assert m !in x.outputs;
    assert Real(g, m) in Needs(g, x);
  }

  /** The inputs of a partition are exactly the storages it uses and does not define. */
  lemma InputsAreUses(g: Graph, known: set<Name>, p: seq<Node>, rest: seq<Node>, n: Name)
    requires TablesOk(g) && Closed(g, known) && ScheduleOk(g, known, p + rest) && InputsRight(g, p)
    ensures n in InputNames(g, p) <==> Uses(g, p, n) && n !in OutputNames(p)
    ensures n in InputNames(g, p) ==> n in known + g.constants && n !in g.realName && HasStorage(g, n)
  {
    if n in InputNames(g, p) { InputWithStorage(g, known, p, rest, n); }
  }

  /** Some name that the partition accesses from outside, and that the test lets through, or that
      it frees, leads to the storage `n`. */
  ghost predicate Reached(g: Graph, p: seq<Node>, n: Name)
    requires Resolved(g)
  {
    || n in NamesToFree(p)
    || exists m <- AccessedNames(p) - OutputNames(p) :: !IsNoneLayout(g, m) && Real(g, m) == n
  }

  /** What is accessed and not defined here is kept out if it has no storage; if it has and is
      kept out by mistake, its storage is defined here or reached in another way. */
  ghost predicate GuardRight(g: Graph, p: seq<Node>, m: Name)
    requires Resolved(g)
  {
    if HasStorage(g, m) then IsNoneLayout(g, m) ==> Real(g, m) in OutputNames(p) || Reached(g, p, Real(g, m))
    else IsNoneLayout(g, m)
  }

  /** Every access is guarded rightly, and what is freed and not defined here, which nothing
      guards, has storage. */
  ghost predicate GuardsRight(g: Graph, p: seq<Node>)
    requires Resolved(g)
  {
    FreesOwn(g, p) && forall m <- AccessedNames(p) - OutputNames(p) :: GuardRight(g, p, m)
  }

  /** Name by name: the inputs of a partition are right exactly when the guards are. */
  lemma InputsRightIffGuards(g: Graph, known: set<Name>, p: seq<Node>, rest: seq<Node>)
    requires TablesOk(g) && Closed(g, known) && ScheduleOk(g, known, p + rest)
    ensures InputsRight(g, p) <==> GuardsRight(g, p)
  {
    if InputsRight(g, p) {
      forall l | l in NamesToFree(p) * g.nodeNames && !HasStorage(g, l) ensures l in OutputNames(p) {
        FreeIsInput(g, p, l);
      }
      forall m | m in AccessedNames(p) - OutputNames(p) ensures GuardRight(g, p, m) {
        RightGuard(g, known, p, rest, m);
      }
    }
    if GuardsRight(g, p) {
      forall n | n in InputNames(g, p) ensures HasStorage(g, n) {
        InputOrigin(g, known, p, rest, n);
      }
      forall x, n | x in p && n in Touched(g, x) && n !in OutputNames(p) ensures n in InputNames(g, p) {
        ReachedIsInput(g, known, p, rest, x, n);
      }
    }
  }

  lemma RightGuard(g: Graph, known: set<Name>, p: seq<Node>, rest: seq<Node>, m: Name)
    requires TablesOk(g) && Closed(g, known) && ScheduleOk(g, known, p + rest) && InputsRight(g, p)
    requires m in AccessedNames(p) - OutputNames(p)
    ensures GuardRight(g, p, m)
  {
    if !IsNoneLayout(g, m) {
      LetThrough(g, p, m);
    } else if HasStorage(g, m) {
      AccessedIsUsed(g, p, m);
      if Real(g, m) !in OutputNames(p) { InputOrigin(g, known, p, rest, Real(g, m)); }
    }
  }

  lemma LetThrough(g: Graph, p: seq<Node>, m: Name)
    requires Resolved(g) && m in AccessedNames(p) - OutputNames(p) && !IsNoneLayout(g, m)
    ensures Real(g, m) in InputNames(g, p)
    ensures HasStorage(g, Real(g, m)) <==> HasStorage(g, m)
  {}

  lemma ReachedIsInput(g: Graph, known: set<Name>, p: seq<Node>, rest: seq<Node>, x: Node, n: Name)
    requires TablesOk(g) && Closed(g, known) && ScheduleOk(g, known, p + rest) && GuardsRight(g, p)
    requires x in p && n in Touched(g, x) && n !in OutputNames(p)
    ensures n in InputNames(g, p)
  {
    if n in FreedStorages(g, x) {
      FreeIsInput(g, p, n);
    } else {
      SplitSchedule(g, known, p, rest);
      AccessedIsKnown(g, known, p, rest);
      var m := TouchedFromOutside(g, known, p, rest, x, n);
      assert m !in OutputNames(p);
      assert GuardRight(g, p, m);
    }
  }

  /** What is freed and not defined here is taken as an input, accessed or not. */
  lemma FreeIsInput(g: Graph, p: seq<Node>, l: Name)
    requires Resolved(g) && l in NamesToFree(p) * g.nodeNames
    ensures l in InputNames(g, p) || l in OutputNames(p)
  {}

  /** With aliases in order the inputs of a partition are right exactly when it frees no buffer
      without storage but its own. */
  lemma InputsRightIff(g: Graph, known: set<Name>, p: seq<Node>, rest: seq<Node>)
    requires TablesOk(g) && Closed(g, known) && ScheduleOk(g, known, p + rest) && LayoutsOk(g)
    ensures InputsRight(g, p) <==> FreesOwn(g, p)
  {
    SplitSchedule(g, known, p, rest);
    LayoutTestExactIff(g);
    if FreesOwn(g, p) {
      forall n | n in InputNames(g, p) ensures HasStorage(g, n) {
        OwnFreesInput(g, known, p, rest, n);
      }
      forall x, n | x in p && n in Touched(g, x) && n !in OutputNames(p) ensures n in InputNames(g, p) {
        TouchedIsInput(g, known, p, rest, x, n);
      }
    } else {
      var l :| l in NamesToFree(p) * g.nodeNames && !HasStorage(g, l) && l !in OutputNames(p);
      FreeIsInput(g, p, l);
    }
  }

  lemma OwnFreesInput(g: Graph, known: set<Name>, p: seq<Node>, rest: seq<Node>, n: Name)
    requires TablesOk(g) && Closed(g, known) && ScheduleOk(g, known, p + rest) && LayoutsOk(g) && FreesOwn(g, p)
    requires n in InputNames(g, p)
    ensures HasStorage(g, n)
  {
    InputOrigin(g, known, p, rest, n);
    LayoutTestExactIff(g);
  }

  lemma TouchedIsInput(g: Graph, known: set<Name>, p: seq<Node>, rest: seq<Node>, x: Node, n: Name)
    requires TablesOk(g) && Closed(g, known) && ScheduleOk(g, known, p + rest) && LayoutsOk(g)
    requires x in p && n in Touched(g, x) && n !in OutputNames(p)
    ensures n in InputNames(g, p)
  {
    if n in FreedStorages(g, x) {
      FreeIsInput(g, p, n);
    } else {
      SplitSchedule(g, known, p, rest);
      LayoutTestExactIff(g);
      var m := TouchedFromOutside(g, known, p, rest, x, n);
      assert m !in OutputNames(p);
    }
  }

  /** The input names of a partition that have a node and are not freed in it are given back;
      what it defines is given back when it is wanted later. */
  lemma ReturnedExactly(g: Graph, known: set<Name>, ps: seq<seq<Node>>, n: Name)
    requires PartitionedOk(g, known, ps) && ps != [] && n !in g.realName
    ensures n in ReturnedNames(g, ps[0], Unmet(g, ps[1..])) <==>
            || (n in OutputNames(ps[0]) && n in Unmet(g, ps[1..]))
            || (n in InputNames(g, ps[0]) && n in g.nodeNames && n !in NamesToFree(ps[0]))
            || (exists m <- OutputNames(ps[0]) * Unmet(g, ps[1..]) :: m in g.realName && g.realName[m] == n)
  {
    var p, unmet := ps[0], Unmet(g, ps[1..]);
    forall m | m in InputNames(g, p) ensures m !in g.realName {
      InputsAreUses(g, known, p, Flatten(ps[1..]), m);
    }
    if exists m <- OutputNames(p) * unmet :: m in g.realName && g.realName[m] == n {
      var m :| m in OutputNames(p) * unmet && m in g.realName && g.realName[m] == n;
      assert Real(g, m) == n;
    }
    if n in OutputNames(p) && n in unmet { assert Real(g, n) == n; }
    if n in InputNames(g, p) && n in g.nodeNames && n !in NamesToFree(p) { assert Real(g, n) == n; }
  }

  // ----- The backward set is exact -----

  /** Independent of the pass: a storage is wanted when nothing from here on defines it, and
      some node from here on uses it or the graph returns it. */
  ghost predicate Wanted(g: Graph, nodes: seq<Node>, n: Name)
    requires Resolved(g)
  {
    n !in OutputNames(nodes) && (n in g.outputNames || Uses(g, nodes, n))
  }

  lemma UsesAppend(g: Graph, p: seq<Node>, rest: seq<Node>, n: Name)
    requires Resolved(g)
    ensures Uses(g, p + rest, n) <==> Uses(g, p, n) || Uses(g, rest, n)
    ensures OutputNames(p + rest) == OutputNames(p) + OutputNames(rest)
  {
    assert forall x :: x in p + rest <==> x in p || x in rest;
  }

  lemma WantedStep(g: Graph, known: set<Name>, p: seq<Node>, rest: seq<Node>, n: Name)
    requires TablesOk(g) && Closed(g, known) && ScheduleOk(g, known, p + rest) && InputsRight(g, p)
    ensures Wanted(g, p + rest, n) <==> n in InputNames(g, p) || (Wanted(g, rest, n) && n !in OutputNames(p))
  {
    UsesAppend(g, p, rest, n);
    InputsAreUses(g, known, p, rest, n);
    SplitSchedule(g, known, p, rest);
    assert rest + [] == rest;
    SplitSchedule(g, known + OutputNames(p), rest, []);
    AccessedIsKnown(g, known + OutputNames(p), rest, []);
  }

  lemma UnmetStep(g: Graph, known: set<Name>, ps: seq<seq<Node>>, n: Name)
    requires PartitionedOk(g, known, ps) && ps != [] && n !in g.realName && HasStorage(g, n)
    ensures n in Unmet(g, ps) <==>
            n in InputNames(g, ps[0]) || (n in Unmet(g, ps[1..]) && n !in OutputNames(ps[0]))
  {
    var p, unmet := ps[0], Unmet(g, ps[1..]);
    ReturnedExactly(g, known, ps, n);
    if exists m <- OutputNames(p) * unmet :: m in g.realName && g.realName[m] == n {
      var m :| m in OutputNames(p) * unmet && m in g.realName && g.realName[m] == n;
      var x :| x in p && m in x.outputs;
      assert n in Written(g, x);
      InputsAreUses(g, known, p, Flatten(ps[1..]), n);
    }
  }

  /** Before a partition the set holds exactly the wanted storages. A mutation output that the
      graph itself returns stays in the set throughout, as only storages are ever removed. */
  lemma {:induction false} UnmetExact(g: Graph, known: set<Name>, ps: seq<seq<Node>>, n: Name)
    requires PartitionedOk(g, known, ps) && HasStorage(g, n)
    ensures n in Unmet(g, ps) <==>
            if n in g.realName then n in g.outputNames else Wanted(g, Flatten(ps), n)
    decreases |ps|
  {
    if ps != [] {
      var p, rest := ps[0], Flatten(ps[1..]);
      SplitSchedule(g, known, p, rest);
      UnmetExact(g, known + OutputNames(p), ps[1..], n);
      if n in g.realName {
        InputsAreUses(g, known, p, rest, n);
      } else {
        UnmetStep(g, known, ps, n);
        WantedStep(g, known, p, rest, n);
      }
    }
  }

  // ----- All partitions of a schedule -----

  /** What is known before partition `k`. */
  function KnownBefore(known: set<Name>, ps: seq<seq<Node>>, k: nat): set<Name>
    requires k <= |ps|
    decreases k
  {
    if k == 0 then known else KnownBefore(known + OutputNames(ps[0]), ps[1..], k - 1)
  }

  /** The schedule from partition `k` on. */
  lemma {:induction false} SuffixScheduled(g: Graph, known: set<Name>, ps: seq<seq<Node>>, k: nat, before: set<Name>, suffix: seq<seq<Node>>)
    requires WellScheduled(g, known, ps) && k <= |ps|
    requires before == KnownBefore(known, ps, k) && suffix == ps[k..]
    ensures WellScheduled(g, before, suffix)
    ensures known <= before && before + OutputNames(Flatten(suffix)) == known + OutputNames(Flatten(ps))
    decreases k
  {
    if k == 0 {
      assert suffix == ps;
    } else {
      UsesAppend(g, ps[0], Flatten(ps[1..]), "");
      SplitSchedule(g, known, ps[0], Flatten(ps[1..]));
      assert suffix == ps[1..][k - 1..];
      SuffixScheduled(g, known + OutputNames(ps[0]), ps[1..], k - 1, before, suffix);
    }
  }

  /** The schedule after the first partition. */
  lemma TailOk(g: Graph, known: set<Name>, ps: seq<seq<Node>>)
    requires PartitionedOk(g, known, ps) && ps != []
    ensures PartitionedOk(g, known + OutputNames(ps[0]), ps[1..])
  {
    SplitSchedule(g, known, ps[0], Flatten(ps[1..]));
    forall i | 0 <= i < |ps[1..]| ensures InputsRight(g, ps[1..][i]) {
      assert ps[1..][i] == ps[i + 1];
    }
  }

  lemma SuffixOk(g: Graph, known: set<Name>, ps: seq<seq<Node>>, k: nat)
    requires PartitionedOk(g, known, ps) && k <= |ps|
    ensures PartitionedOk(g, KnownBefore(known, ps, k), ps[k..])
    ensures known <= KnownBefore(known, ps, k)
    ensures KnownBefore(known, ps, k) + OutputNames(Flatten(ps[k..])) == known + OutputNames(Flatten(ps))
  {
    SuffixScheduled(g, known, ps, k, KnownBefore(known, ps, k), ps[k..]);
    forall i | 0 <= i < |ps[k..]| ensures InputsRight(g, ps[k..][i]) {
      assert ps[k..][i] == ps[k + i];
    }
  }

  lemma {:induction false} InFlatten(ps: seq<seq<Node>>, x: Node)
    ensures x in Flatten(ps) <==> exists p <- ps :: x in p
    decreases |ps|
  {
    if ps != [] {
      InFlatten(ps[1..], x);
      assert ps == [ps[0]] + ps[1..];
      assert forall p :: p in ps <==> p == ps[0] || p in ps[1..];
    }
  }

  /** The schedule as partition `k` sees it. */
  lemma ScheduleAt(g: Graph, known: set<Name>, ps: seq<seq<Node>>, k: nat)
    requires WellScheduled(g, known, ps) && k < |ps|
    ensures Closed(g, KnownBefore(known, ps, k))
    ensures ScheduleOk(g, KnownBefore(known, ps, k), ps[k] + Flatten(ps[k + 1..]))
  {
    SuffixScheduled(g, known, ps, k, KnownBefore(known, ps, k), ps[k..]);
    assert ps[k..][0] == ps[k] && ps[k..][1..] == ps[k + 1..];
  }

  lemma AtPartition(g: Graph, known: set<Name>, ps: seq<seq<Node>>, k: nat)
    requires PartitionedOk(g, known, ps) && k < |ps|
    ensures Closed(g, KnownBefore(known, ps, k)) && InputsRight(g, ps[k])
    ensures ScheduleOk(g, KnownBefore(known, ps, k), ps[k] + Flatten(ps[k + 1..]))
  {
    ScheduleAt(g, known, ps, k);
  }

  ghost predicate AllGuardsRight(g: Graph, ps: seq<seq<Node>>)
    requires Resolved(g)
  {
    forall k :: 0 <= k < |ps| ==> GuardsRight(g, ps[k])
  }

  lemma AllInputsRightIffGuards(g: Graph, known: set<Name>, ps: seq<seq<Node>>)
    requires WellScheduled(g, known, ps)
    ensures AllInputsRight(g, ps) <==> AllGuardsRight(g, ps)
  {
    forall k | 0 <= k < |ps| ensures InputsRight(g, ps[k]) <==> GuardsRight(g, ps[k]) {
      ScheduleAt(g, known, ps, k);
      InputsRightIffGuards(g, KnownBefore(known, ps, k), ps[k], Flatten(ps[k + 1..]));
    }
  }

  /** With aliases in order all inputs are right exactly when each partition frees no buffer
      without storage but its own. */
  lemma AllInputsRightIff(g: Graph, known: set<Name>, ps: seq<seq<Node>>)
    requires WellScheduled(g, known, ps) && LayoutsOk(g)
    ensures AllInputsRight(g, ps) <==> AllFreeOwn(g, ps)
  {
    forall k | 0 <= k < |ps| ensures InputsRight(g, ps[k]) <==> FreesOwn(g, ps[k]) {
      ScheduleAt(g, known, ps, k);
      InputsRightIff(g, KnownBefore(known, ps, k), ps[k], Flatten(ps[k + 1..]));
    }
  }

  lemma UsedLaterOn(g: Graph, ps: seq<seq<Node>>, i: nat, j: nat, n: Name)
    requires Resolved(g) && i < j < |ps|
    ensures n in OutputNames(ps[j]) ==> n in OutputNames(Flatten(ps[i + 1..]))
    ensures Uses(g, ps[j], n) ==> Uses(g, Flatten(ps[i + 1..]), n)
    ensures n in NamesToFree(ps[j]) ==> n in NamesToFree(Flatten(ps[i + 1..]))
  {
    assert ps[i + 1..][j - i - 1] == ps[j];
    forall y | y in ps[j] ensures y in Flatten(ps[i + 1..]) {
      InFlatten(ps[i + 1..], y);
    }
  }

  /** What partition `i` frees no later node touches. */
  lemma FreedIsGone(g: Graph, known: set<Name>, ps: seq<seq<Node>>, i: nat, n: Name)
    requires PartitionedOk(g, known, ps) && i < |ps| && n in NamesToFree(ps[i])
    ensures !Uses(g, Flatten(ps[i + 1..]), n)
  {
    AtPartition(g, known, ps, i);
    FreedApart(g, KnownBefore(known, ps, i), ps[i], Flatten(ps[i + 1..]), n);
  }

  /** A buffer without storage that partition `i` frees is its own, and no later one defines it. */
  lemma FreedIsNotDefined(g: Graph, known: set<Name>, ps: seq<seq<Node>>, i: nat, n: Name)
    requires PartitionedOk(g, known, ps) && i < |ps| && n in NamesToFree(ps[i]) * g.nodeNames && !HasStorage(g, n)
    ensures n !in OutputNames(Flatten(ps[i + 1..]))
  {
    AtPartition(g, known, ps, i);
    FreeIsInput(g, ps[i], n);
    NotDefinedAgain(g, KnownBefore(known, ps, i), ps[i], Flatten(ps[i + 1..]), n);
  }

  /** A name that is no node's is freed at most once, too. */
  lemma OtherFreedOnce(g: Graph, known: set<Name>, ps: seq<seq<Node>>, i: nat, j: nat, n: Name)
    requires PartitionedOk(g, known, ps) && i < j < |ps| && n in NamesToFree(ps[i]) - g.nodeNames
    ensures n !in NamesToFree(ps[j])
  {
    AtPartition(g, known, ps, i);
    FreedApart(g, KnownBefore(known, ps, i), ps[i], Flatten(ps[i + 1..]), n);
    UsedLaterOn(g, ps, i, j, n);
  }

  /** What partition `j` frees it touches, or defines as a buffer without storage, unless it is
      no node's name. */
  lemma FreedIsOwn(g: Graph, known: set<Name>, ps: seq<seq<Node>>, j: nat, n: Name)
    requires PartitionedOk(g, known, ps) && j < |ps| && n in NamesToFree(ps[j]) * g.nodeNames
    ensures Uses(g, ps[j], n) || (!HasStorage(g, n) && n in OutputNames(ps[j]))
  {
    AtPartition(g, known, ps, j);
    FreeIsInput(g, ps[j], n);
    if HasStorage(g, n) {
      var y :| y in ps[j] && n in y.lastUsage;
      assert n in FreedStorages(g, y);
    }
  }

  /** A storage freed in one partition is no input of any later one, and so is not freed again:
      no use after free and no double free over the whole run. */
  lemma FreedOnce(g: Graph, known: set<Name>, ps: seq<seq<Node>>, skips: seq<bool>, i: nat, j: nat)
    requires PartitionedOk(g, known, ps) && |skips| == |ps| && i < j < |ps|
    ensures NamesToFree(ps[i]) !! Signatures(g, ps, skips)[j].inputNodes
    ensures NamesToFree(ps[i]) !! NamesToFree(ps[j])
  {
    SignatureAt(g, ps, skips, j);
    AtPartition(g, known, ps, j);
    forall n | n in NamesToFree(ps[i]) ensures n !in InputNames(g, ps[j]) && n !in NamesToFree(ps[j]) {
      FreedIsGone(g, known, ps, i, n);
      UsedLaterOn(g, ps, i, j, n);
      InputsAreUses(g, KnownBefore(known, ps, j), ps[j], Flatten(ps[j + 1..]), n);
      if n !in g.nodeNames {
        OtherFreedOnce(g, known, ps, i, j, n);
      } else if n in NamesToFree(ps[j]) {
        FreedIsOwn(g, known, ps, j, n);
        if !HasStorage(g, n) { FreedIsNotDefined(g, known, ps, i, n); }
      }
    }
  }

  /** The constants of a partition are exactly those that it uses. */
  lemma ConstantsAreUses(g: Graph, known: set<Name>, ps: seq<seq<Node>>, skips: seq<bool>, k: nat, n: Name)
    requires PartitionedOk(g, known, ps) && |skips| == |ps| && k < |ps|
    ensures n in Signatures(g, ps, skips)[k].constantNames <==> n in g.constants && Uses(g, ps[k], n)
  {
    SignatureAt(g, ps, skips, k);
    AtPartition(g, known, ps, k);
    AccessedIsKnown(g, KnownBefore(known, ps, k), ps[k], Flatten(ps[k + 1..]));
    InputsAreUses(g, KnownBefore(known, ps, k), ps[k], Flatten(ps[k + 1..]), n);
  }

  /** Every input of a partition is freed in it or handed back: never both, never neither. */
  lemma FreedOrHandedBack(g: Graph, known: set<Name>, ps: seq<seq<Node>>, skips: seq<bool>, k: nat, n: Name)
    requires PartitionedOk(g, known, ps) && |skips| == |ps| && k < |ps|
    requires n in Signatures(g, ps, skips)[k].inputNodes
    ensures n in Signatures(g, ps, skips)[k].inputDeallocation
    ensures Signatures(g, ps, skips)[k].inputDeallocation[n] <==> n in NamesToFree(ps[k])
    ensures Signatures(g, ps, skips)[k].inputDeallocation[n] <==> n !in Signatures(g, ps, skips)[k].outputNodes
  {
    SignatureAt(g, ps, skips, k);
    AtPartition(g, known, ps, k);
    InputsAreUses(g, KnownBefore(known, ps, k), ps[k], Flatten(ps[k + 1..]), n);
    UnaliasedTest(g, n);
    ReturnedAt(g, known, ps, k, n);
    if n in NamesToFree(ps[k]) { FreedIsNotReturned(g, known, ps, k, n); }
    if MutationReturned(g, ps, k, n) { ReturnedMutation(g, known, ps, k, n); }
  }

  lemma FreedIsNotReturned(g: Graph, known: set<Name>, ps: seq<seq<Node>>, k: nat, n: Name)
    requires PartitionedOk(g, known, ps) && k < |ps| && n in NamesToFree(ps[k])
    ensures n !in RealNames(g, g.outputNames)
  {
    AtPartition(g, known, ps, k);
    SplitSchedule(g, KnownBefore(known, ps, k), ps[k], Flatten(ps[k + 1..]));
  }

  lemma ReturnedAt(g: Graph, known: set<Name>, ps: seq<seq<Node>>, k: nat, n: Name)
    requires PartitionedOk(g, known, ps) && k < |ps| && n !in g.realName
    ensures n in ReturnedNames(g, ps[k], Unmet(g, ps[k + 1..])) <==>
            || (n in OutputNames(ps[k]) && n in Unmet(g, ps[k + 1..]))
            || (n in InputNames(g, ps[k]) && n in g.nodeNames && n !in NamesToFree(ps[k]))
            || MutationReturned(g, ps, k, n)
  {
    SuffixOk(g, known, ps, k);
    assert ps[k..][0] == ps[k] && ps[k..][1..] == ps[k + 1..];
    ReturnedExactly(g, KnownBefore(known, ps, k), ps[k..], n);
  }

  /** Whatever the graph returns is a constant or is known when the schedule has run. */
  ghost predicate OutputsExist(g: Graph, known: set<Name>, ps: seq<seq<Node>>) {
    g.outputNames <= known + OutputNames(Flatten(ps)) + g.constants
  }

  lemma OutputsExistInTail(g: Graph, known: set<Name>, ps: seq<seq<Node>>)
    requires Resolved(g) && OutputsExist(g, known, ps) && ps != []
    ensures OutputsExist(g, known + OutputNames(ps[0]), ps[1..])
  {
    UsesAppend(g, ps[0], Flatten(ps[1..]), "");
  }

  /** What is known after partition `k` no later partition defines. */
  lemma NotDefinedLater(g: Graph, known: set<Name>, ps: seq<seq<Node>>, k: nat, j: nat, n: Name)
    requires PartitionedOk(g, known, ps) && k < j < |ps|
    requires n in KnownBefore(known, ps, k) + OutputNames(ps[k])
    ensures n !in OutputNames(ps[j])
  {
    var before, rest := KnownBefore(known, ps, k), Flatten(ps[k + 1..]);
    AtPartition(g, known, ps, k);
    SplitSchedule(g, before, ps[k], rest);
    assert rest + [] == rest;
    SplitSchedule(g, before + OutputNames(ps[k]), rest, []);
    UsedLaterOn(g, ps, k, j, n);
  }

  lemma UsedByPartition(g: Graph, known: set<Name>, ps: seq<seq<Node>>, skips: seq<bool>, k: nat, j: nat, n: Name)
    requires PartitionedOk(g, known, ps) && |skips| == |ps| && k < j < |ps|
    requires n in KnownBefore(known, ps, k) + OutputNames(ps[k]) && n in g.nodeNames
    ensures n in Signatures(g, ps, skips)[j].inputNodes <==> Uses(g, ps[j], n)
  {
    SignatureAt(g, ps, skips, j);
    AtPartition(g, known, ps, j);
    NotDefinedLater(g, known, ps, k, j, n);
    InputsAreUses(g, KnownBefore(known, ps, j), ps[j], Flatten(ps[j + 1..]), n);
  }

  lemma {:induction false} UsesFlatten(g: Graph, ps: seq<seq<Node>>, n: Name)
    requires Resolved(g)
    ensures Uses(g, Flatten(ps), n) <==> exists j :: 0 <= j < |ps| && Uses(g, ps[j], n)
    decreases |ps|
  {
    if ps != [] {
      UsesFlatten(g, ps[1..], n);
      UsesAppend(g, ps[0], Flatten(ps[1..]), n);
      assert forall j :: 1 <= j < |ps| ==> ps[j] == ps[1..][j - 1];
    }
  }

  lemma UsedLater(g: Graph, known: set<Name>, ps: seq<seq<Node>>, skips: seq<bool>, k: nat, n: Name)
    requires PartitionedOk(g, known, ps) && |skips| == |ps| && k < |ps|
    requires n in KnownBefore(known, ps, k) + OutputNames(ps[k]) && n in g.nodeNames
    ensures Uses(g, Flatten(ps[k + 1..]), n) <==>
            exists j :: k < j < |ps| && n in Signatures(g, ps, skips)[j].inputNodes
  {
    var later := ps[k + 1..];
    forall j | k < j < |ps|
      ensures n in Signatures(g, ps, skips)[j].inputNodes <==> Uses(g, later[j - k - 1], n)
    {
      UsedByPartition(g, known, ps, skips, k, j, n);
    }
    UsesFlatten(g, later, n);
    if i :| 0 <= i < |later| && Uses(g, later[i], n) {
      assert n in Signatures(g, ps, skips)[k + 1 + i].inputNodes;
    }
  }

  /** If a storage becomes known in `p`, so does every mutation of it that is known later. */
  lemma MutationIsLater(g: Graph, known: set<Name>, p: seq<Node>, rest: seq<Node>, n: Name, m: Name)
    requires TablesOk(g) && Closed(g, known) && ScheduleOk(g, known, p + rest)
    requires n in OutputNames(p) && m in g.realName && g.realName[m] == n && HasStorage(g, n)
    requires m in known + OutputNames(p + rest)
    ensures m in OutputNames(p) || Uses(g, rest, n)
  {
    SplitSchedule(g, known, p, rest);
    UsesAppend(g, p, rest, n);
    assert HasStorage(g, m) && Real(g, m) == n;
    if m in OutputNames(rest) {
      var y :| y in rest && m in y.outputs;
      assert n in Written(g, y);
    }
  }

  /** Some mutation of `n` that partition `k` defines is still unmet after it. */
  ghost predicate MutationReturned(g: Graph, ps: seq<seq<Node>>, k: nat, n: Name)
    requires Resolved(g) && k < |ps|
  {
    exists m <- OutputNames(ps[k]) * Unmet(g, ps[k + 1..]) :: m in g.realName && g.realName[m] == n
  }

  lemma DefinedIsReturned(g: Graph, known: set<Name>, ps: seq<seq<Node>>, skips: seq<bool>, k: nat, n: Name)
    requires PartitionedOk(g, known, ps) && |skips| == |ps| && k < |ps|
    requires n in OutputNames(ps[k]) && n !in g.realName && HasStorage(g, n)
    ensures n in Signatures(g, ps, skips)[k].outputNodes <==>
            n in Unmet(g, ps[k + 1..]) || MutationReturned(g, ps, k, n)
  {
    UnaliasedTest(g, n);
    SignatureAt(g, ps, skips, k);
    AtPartition(g, known, ps, k);
    ReturnedAt(g, known, ps, k, n);
    InputsAreUses(g, KnownBefore(known, ps, k), ps[k], Flatten(ps[k + 1..]), n);
  }

  lemma UnmetAfter(g: Graph, known: set<Name>, ps: seq<seq<Node>>, k: nat, n: Name)
    requires PartitionedOk(g, known, ps) && k < |ps| && HasStorage(g, n)
    requires n in OutputNames(ps[k])
    ensures n in Unmet(g, ps[k + 1..]) <==>
            n in g.outputNames || (n !in g.realName && Uses(g, Flatten(ps[k + 1..]), n))
  {
    AtPartition(g, known, ps, k);
    SuffixOk(g, known, ps, k);
    assert ps[k..][0] == ps[k] && ps[k..][1..] == ps[k + 1..];
    var before, rest := KnownBefore(known, ps, k), Flatten(ps[k + 1..]);
    SplitSchedule(g, before, ps[k], rest);
    UnmetExact(g, before + OutputNames(ps[k]), ps[k + 1..], n);
    NotDefinedAgain(g, before, ps[k], rest, n);
  }

  lemma MutationUnmet(g: Graph, known: set<Name>, ps: seq<seq<Node>>, k: nat, n: Name, m: Name)
    requires PartitionedOk(g, known, ps) && k < |ps| && OutputsExist(g, known, ps)
    requires n in OutputNames(ps[k]) && HasStorage(g, n)
    requires m in g.outputNames && m in g.realName && g.realName[m] == n
    ensures MutationReturned(g, ps, k, n) || Uses(g, Flatten(ps[k + 1..]), n)
  {
    AtPartition(g, known, ps, k);
    SuffixOk(g, known, ps, k);
    AccessedIsKnown(g, KnownBefore(known, ps, k), ps[k], Flatten(ps[k + 1..]));
    UsesAppend(g, ps[k], Flatten(ps[k + 1..]), n);
    assert Flatten(ps[k..]) == ps[k] + Flatten(ps[k + 1..]) by { assert ps[k..][1..] == ps[k + 1..]; }
    MutationIsLater(g, KnownBefore(known, ps, k), ps[k], Flatten(ps[k + 1..]), n, m);
    if m in OutputNames(ps[k]) { UnmetAfter(g, known, ps, k, m); }
  }

  lemma ReturnedMutation(g: Graph, known: set<Name>, ps: seq<seq<Node>>, k: nat, n: Name)
    requires PartitionedOk(g, known, ps) && k < |ps| && HasStorage(g, n) && MutationReturned(g, ps, k, n)
    ensures n in RealNames(g, g.outputNames)
  {
    var m :| m in OutputNames(ps[k]) * Unmet(g, ps[k + 1..]) && m in g.realName && g.realName[m] == n;
    UnmetAfter(g, known, ps, k, m);
    assert Real(g, m) == n;
  }

  /** A storage that a partition defines is returned exactly when a later partition takes it as
      an input or the graph itself returns it (under its own name or that of a mutation). */
  lemma ReturnedIffWantedLater(g: Graph, known: set<Name>, ps: seq<seq<Node>>, skips: seq<bool>, k: nat, n: Name)
    requires PartitionedOk(g, known, ps) && |skips| == |ps| && k < |ps| && OutputsExist(g, known, ps)
    requires n in OutputNames(ps[k]) && n !in g.realName && HasStorage(g, n)
    ensures n in Signatures(g, ps, skips)[k].outputNodes <==>
            || n in RealNames(g, g.outputNames)
            || exists j :: k < j < |ps| && n in Signatures(g, ps, skips)[j].inputNodes
  {
    AtPartition(g, known, ps, k);
    AccessedIsKnown(g, KnownBefore(known, ps, k), ps[k], Flatten(ps[k + 1..]));
    DefinedIsReturned(g, known, ps, skips, k, n);
    UnmetAfter(g, known, ps, k, n);
    UsedLater(g, known, ps, skips, k, n);
    assert n in g.outputNames ==> Real(g, n) == n;
    if n in RealNames(g, g.outputNames) {
      var m :| m in g.outputNames && Real(g, m) == n;
      if m in g.realName { MutationUnmet(g, known, ps, k, n, m); }
    }
    if MutationReturned(g, ps, k, n) { ReturnedMutation(g, known, ps, k, n); }
  }

  lemma NotDefinedAgain(g: Graph, known: set<Name>, p: seq<Node>, rest: seq<Node>, n: Name)
    requires TablesOk(g) && Closed(g, known) && ScheduleOk(g, known, p + rest)
    ensures n in OutputNames(p) ==> n !in OutputNames(rest)
  {
    SplitSchedule(g, known, p, rest);
    assert rest + [] == rest;
    SplitSchedule(g, known + OutputNames(p), rest, []);
  }

  /** A buffer without storage is an input of a partition exactly when the partition is told to
      free such a buffer, which the none-layout test does not guard, or accesses it by an alias
      that the test lets through. */
  lemma NoneLayoutInputIff(g: Graph, p: seq<Node>, unmet: set<Name>, skip: bool)
    requires TablesOk(g)
    ensures (exists n <- SignatureOf(g, p, unmet, skip).inputNodes :: !HasStorage(g, n)) <==>
            || (exists n <- NamesToFree(p) - OutputNames(p) :: n in g.nodeNames && !HasStorage(g, n))
            || (exists m <- AccessedNames(p) - OutputNames(p) :: !IsNoneLayout(g, m) && Real(g, m) in g.nodeNames && !HasStorage(g, m))
  {
    if n :| n in NamesToFree(p) - OutputNames(p) && n in g.nodeNames && !HasStorage(g, n) {
      assert n in SignatureOf(g, p, unmet, skip).inputNodes;
    }
    if m :| m in AccessedNames(p) - OutputNames(p) && !IsNoneLayout(g, m) && Real(g, m) in g.nodeNames && !HasStorage(g, m) {
      assert Real(g, m) in SignatureOf(g, p, unmet, skip).inputNodes && !HasStorage(g, Real(g, m));
    }
    if n :| n in SignatureOf(g, p, unmet, skip).inputNodes && !HasStorage(g, n) {
      if n !in NamesToFree(p) - OutputNames(p) {
        var m :| m in AccessedNames(p) && !IsNoneLayout(g, m) && m !in OutputNames(p) && n == Real(g, m);
      }
    }
  }
}
