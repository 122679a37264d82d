/**
 Cutting a schedule into partitions preserves its meaning: running the partitions one after
 another, each in a scope of its own that holds its signature's inputs only and hands back its
 signature's outputs only, gives what running all nodes in one scope gives.

 Kernels are uninterpreted: `kernel(x, inputs, s)` is what node `x` stores in `s`.
 */
module GraphMeaning {
  import opened Options
  import opened GraphPartition
  import opened GraphLiveness

  type Env<V> = map<Name, V>
  type Kernel<!V> = (Node, map<Name, V>, Name) -> V

  function Restrict<V>(env: Env<V>, names: set<Name>): Env<V> {
    map n | n in names && n in env :: env[n]
  }

  /** What `x` stores when it reads from `env`. */
  function Stores<V>(g: Graph, kernel: Kernel<V>, x: Node, env: Env<V>): Env<V>
    requires Resolved(g)
  {
    map s | s in Written(g, x) :: kernel(x, Restrict(env, Needs(g, x)), s)
  }

  // ----- One flat scope, nothing is ever freed -----

  function RunFlat<V>(g: Graph, kernel: Kernel<V>, consts: Env<V>, nodes: seq<Node>, env: Env<V>): Env<V>
    requires Resolved(g)
  {
    if nodes == [] then env
    else RunFlat(g, kernel, consts, nodes[1..], env + Stores(g, kernel, nodes[0], env + consts))
  }

  // ----- Partitions: a missing name, a use after free or a double free fails -----

  function RunLocal<V>(g: Graph, kernel: Kernel<V>, consts: Env<V>, nodes: seq<Node>, env: Env<V>): Option<Env<V>>
    requires Resolved(g)
  {
    if nodes == [] then Some(env)
    else
      var x := nodes[0];
      var stored := env + Stores(g, kernel, x, env + consts);
      if Needs(g, x) <= (env + consts).Keys && FreedStorages(g, x) <= stored.Keys then
        RunLocal(g, kernel, consts, nodes[1..], stored - x.lastUsage)
      else None
  }

  function RunPartition<V>(g: Graph, kernel: Kernel<V>, consts: Env<V>, p: seq<Node>, sig: Signature, env: Env<V>): Option<Env<V>>
    requires Resolved(g)
  {
    if sig.inputNodes <= env.Keys && sig.constantNames <= consts.Keys then
      match RunLocal(g, kernel, Restrict(consts, sig.constantNames), p, Restrict(env, sig.inputNodes))
      case None => None
      case Some(left) =>
        if sig.outputNodes <= left.Keys then Some((env - sig.inputNodes) + Restrict(left, sig.outputNodes))
        else None
    else None
  }

  function RunPartitions<V>(g: Graph, kernel: Kernel<V>, consts: Env<V>, ps: seq<seq<Node>>, sigs: seq<Signature>, env: Env<V>): Option<Env<V>>
    requires Resolved(g) && |ps| == |sigs|
  {
    if ps == [] then Some(env)
    else
      match RunPartition(g, kernel, consts, ps[0], sigs[0], env)
      case None => None
      case Some(next) => RunPartitions(g, kernel, consts, ps[1..], sigs[1..], next)
  }

  // ----- Agreement of two scopes on some storages -----

  ghost predicate Agree<V>(env: Env<V>, flat: Env<V>, names: iset<Name>) {
    forall n <- names :: n in env && n in flat && env[n] == flat[n]
  }

  /** The storages that a partition must find: those it uses or is to hand back (`keep`), and
      does not define. */
  ghost function MustFind(g: Graph, p: seq<Node>, keep: set<Name>): iset<Name>
    requires Resolved(g)
  {
    iset n | n in g.nodeNames && n !in OutputNames(p) && HasStorage(g, n) && (n in keep || Uses(g, p, n))
  }

  lemma SameStores<V>(g: Graph, kernel: Kernel<V>, x: Node, env: Env<V>, env': Env<V>)
    requires Resolved(g)
    requires forall n <- Needs(g, x) :: n in env && n in env' && env[n] == env'[n]
    ensures Stores(g, kernel, x, env) == Stores(g, kernel, x, env')
  {
    assert Restrict(env, Needs(g, x)) == Restrict(env', Needs(g, x));
  }

  lemma StoresAgree<V>(g: Graph, kernel: Kernel<V>, consts: Env<V>, visible: Env<V>, known: set<Name>, p: seq<Node>, rest: seq<Node>,
                       keep: set<Name>, env: Env<V>, flat: Env<V>)
    requires TablesOk(g) && Closed(g, known) && ScheduleOk(g, known, p + rest) && p != []
    requires consts.Keys == g.constants
    requires forall n <- g.constants :: Uses(g, p, n) ==> n in visible
    requires forall n <- visible :: n in consts && visible[n] == consts[n]
    requires Agree(env, flat, MustFind(g, p, keep))
    ensures Needs(g, p[0]) <= (env + visible).Keys
    ensures Stores(g, kernel, p[0], env + visible) == Stores(g, kernel, p[0], flat + consts)
  {
    var x := p[0];
    SplitSchedule(g, known, p, rest);
    KnownStaysClosed(g, known, x);
    assert x in p;
    var inner, outer := env + visible, flat + consts;
    forall n | n in Needs(g, x) ensures n in inner && n in outer && inner[n] == outer[n] {
      assert Uses(g, p, n);
      if n in g.nodeNames {
        assert n in MustFind(g, p, keep);
      }
    }
    SameStores(g, kernel, x, inner, outer);
  }

  lemma FreesAreFound<V>(g: Graph, known: set<Name>, p: seq<Node>, rest: seq<Node>, keep: set<Name>, env: Env<V>, flat: Env<V>, stores: Env<V>)
    requires TablesOk(g) && Closed(g, known) && ScheduleOk(g, known, p + rest) && p != []
    requires Agree(env, flat, MustFind(g, p, keep)) && stores.Keys == Written(g, p[0])
    ensures FreedStorages(g, p[0]) <= (env + stores).Keys
  {
    forall n | n in FreedStorages(g, p[0]) ensures n in env + stores {
      if n !in Written(g, p[0]) { FreeIsFound(g, known, p, rest, keep, n); }
    }
  }

  /** What the first node frees and does not define it finds, whether or not it reads it. */
  lemma FreeIsFound(g: Graph, known: set<Name>, p: seq<Node>, rest: seq<Node>, keep: set<Name>, n: Name)
    requires TablesOk(g) && Closed(g, known) && ScheduleOk(g, known, p + rest) && p != []
    requires n in FreedStorages(g, p[0]) && n !in Written(g, p[0])
    ensures n in MustFind(g, p, keep)
  {
    assert Real(g, n) == n;
    assert p[0] in p && n in Touched(g, p[0]);
    SplitSchedule(g, known, p, rest);
  }

  /** After the first node the rest finds what it must. */
  lemma NextAgrees<V>(g: Graph, known: set<Name>, p: seq<Node>, rest: seq<Node>, keep: set<Name>, env: Env<V>, flat: Env<V>, stores: Env<V>)
    requires TablesOk(g) && Closed(g, known) && ScheduleOk(g, known, p + rest) && p != []
    requires keep !! NamesToFree(p) && forall n <- keep :: n !in g.realName
    requires Agree(env, flat, MustFind(g, p, keep)) && stores.Keys == Written(g, p[0])
    ensures Agree((env + stores) - p[0].lastUsage, flat + stores, MustFind(g, p[1..], keep))
  {
    forall n | n in MustFind(g, p[1..], keep)
      ensures n !in p[0].lastUsage && (n in stores || n in MustFind(g, p, keep))
    {
      FoundNext(g, known, p, rest, keep, n);
    }
  }

  /** Inside a partition nothing it reads, frees or hands back is ever missing. */
  lemma {:induction false} LocalRunAgrees<V>(g: Graph, kernel: Kernel<V>, consts: Env<V>, visible: Env<V>, known: set<Name>, p: seq<Node>, rest: seq<Node>,
                                             keep: set<Name>, env: Env<V>, flat: Env<V>)
    requires TablesOk(g) && Closed(g, known) && ScheduleOk(g, known, p + rest)
    requires consts.Keys == g.constants
    requires forall n <- g.constants :: Uses(g, p, n) ==> n in visible
    requires forall n <- visible :: n in consts && visible[n] == consts[n]
    requires keep !! NamesToFree(p)
    requires forall n <- keep :: n in g.nodeNames && HasStorage(g, n) && n !in g.realName
    requires Agree(env, flat, MustFind(g, p, keep))
    ensures var left := RunLocal(g, kernel, visible, p, env);
            left.Some? && Agree(left.value, RunFlat(g, kernel, consts, p, flat), iset n | n in keep)
    decreases |p|
  {
    if p == [] {
      assert forall n <- keep :: n in MustFind(g, p, keep);
    } else {
      var stores := Stores(g, kernel, p[0], flat + consts);
      StoresAgree(g, kernel, consts, visible, known, p, rest, keep, env, flat);
      FreesAreFound(g, known, p, rest, keep, env, flat, stores);
      NextAgrees(g, known, p, rest, keep, env, flat, stores);
      OneNode(g, kernel, consts, visible, p, env, flat, stores);
      AfterFirst(g, known, p, rest);
      LocalRunAgrees(g, kernel, consts, visible, known + p[0].outputs, p[1..], rest, keep, (env + stores) - p[0].lastUsage, flat + stores);
    }
  }

  lemma OneNode<V>(g: Graph, kernel: Kernel<V>, consts: Env<V>, visible: Env<V>, p: seq<Node>, env: Env<V>, flat: Env<V>, stores: Env<V>)
    requires Resolved(g) && p != [] && Needs(g, p[0]) <= (env + visible).Keys && FreedStorages(g, p[0]) <= (env + stores).Keys
    requires stores == Stores(g, kernel, p[0], env + visible) == Stores(g, kernel, p[0], flat + consts)
    ensures RunLocal(g, kernel, visible, p, env) == RunLocal(g, kernel, visible, p[1..], (env + stores) - p[0].lastUsage)
    ensures RunFlat(g, kernel, consts, p, flat) == RunFlat(g, kernel, consts, p[1..], flat + stores)
  {}

  lemma AfterFirst(g: Graph, known: set<Name>, p: seq<Node>, rest: seq<Node>)
    requires TablesOk(g) && Closed(g, known) && ScheduleOk(g, known, p + rest) && p != []
    ensures Closed(g, known + p[0].outputs) && ScheduleOk(g, known + p[0].outputs, p[1..] + rest)
    ensures NamesToFree(p[1..]) <= NamesToFree(p)
    ensures forall n :: Uses(g, p[1..], n) ==> Uses(g, p, n)
  {
    assert (p + rest)[1..] == p[1..] + rest;
    KnownStaysClosed(g, known, p[0]);
    NamesOfCons(p);
    assert forall y :: y in p[1..] ==> y in p;
  }

  lemma FoundNext(g: Graph, known: set<Name>, p: seq<Node>, rest: seq<Node>, keep: set<Name>, n: Name)
    requires TablesOk(g) && Closed(g, known) && ScheduleOk(g, known, p + rest) && p != []
    requires keep !! NamesToFree(p)
    requires forall n <- keep :: n !in g.realName
    requires n in MustFind(g, p[1..], keep)
    ensures n !in p[0].lastUsage
    ensures n in Written(g, p[0]) || n in MustFind(g, p, keep)
  {
    var x, tail := p[0], p[1..];
    NamesOfCons(p);
    NotFreedBefore(g, known, p, rest, n);
    if n in x.outputs {
      assert Real(g, n) == n;
    }
  }

  lemma NotFreedBefore(g: Graph, known: set<Name>, p: seq<Node>, rest: seq<Node>, n: Name)
    requires TablesOk(g) && Closed(g, known) && ScheduleOk(g, known, p + rest) && p != []
    ensures Uses(g, p[1..], n) ==> n !in p[0].lastUsage && Uses(g, p, n) && n !in g.realName
  {
    if Uses(g, p[1..], n) {
      var y :| y in p[1..] && n in Touched(g, y);
      NotFreedByFirst(g, known, p, rest, y);
      assert y in p;
      TouchedIsKnown(g, known, p, rest, y);
    }
  }

  lemma NotFreedByFirst(g: Graph, known: set<Name>, p: seq<Node>, rest: seq<Node>, y: Node)
    requires Resolved(g) && ScheduleOk(g, known, p + rest) && p != [] && y in p[1..]
    ensures p[0].lastUsage !! Touched(g, y)
  {
    assert (p + rest)[1..] == p[1..] + rest;
    assert FreesOk(g, p[0], p[1..] + rest);
    assert y in p[1..] + rest;
  }

  // ----- The whole run -----

  /** The storages that must survive up to `ps`: those wanted from there on, and those the
      graph returns that are not to be defined any more. */
  ghost function Needed(g: Graph, ps: seq<seq<Node>>): iset<Name>
    requires Resolved(g)
  {
    iset n | && n in g.nodeNames && n !in g.realName && HasStorage(g, n)
             && (n in Unmet(g, ps) || (n in RealNames(g, g.outputNames) && n !in OutputNames(Flatten(ps))))
  }

  /** What one partition of a well-formed run takes in and hands back. */
  lemma InputsFound(g: Graph, known: set<Name>, ps: seq<seq<Node>>, n: Name)
    requires PartitionedOk(g, known, ps) && ps != []
    requires n in InputNames(g, ps[0]) * g.nodeNames
    ensures n in Needed(g, ps)
  {
    InputsAreUses(g, known, ps[0], Flatten(ps[1..]), n);
  }

  lemma WantedIsNotFreed(g: Graph, known: set<Name>, ps: seq<seq<Node>>, n: Name)
    requires PartitionedOk(g, known, ps) && ps != []
    requires n in Unmet(g, ps[1..]) && HasStorage(g, n)
    ensures Real(g, n) !in NamesToFree(ps[0])
  {
    SplitSchedule(g, known, ps[0], Flatten(ps[1..]));
    UnmetExact(g, known + OutputNames(ps[0]), ps[1..], n);
    if n !in g.outputNames {
      var y :| y in Flatten(ps[1..]) && n in Touched(g, y);
    }
  }

  lemma OutputsFound(g: Graph, known: set<Name>, ps: seq<seq<Node>>, skip: bool, n: Name)
    requires PartitionedOk(g, known, ps) && ps != []
    requires n in SignatureOf(g, ps[0], Unmet(g, ps[1..]), skip).outputNodes
    ensures n in g.nodeNames && HasStorage(g, n) && n !in g.realName
    ensures n !in NamesToFree(ps[0])
    ensures n in OutputNames(ps[0]) + InputNames(g, ps[0])
  {
    var p, unmet := ps[0], Unmet(g, ps[1..]);
    ReturnedExactly(g, known, ps, n);
    AccessedIsKnown(g, known, p, Flatten(ps[1..]));
    if n in OutputNames(p) && n in unmet {
      WantedIsNotFreed(g, known, ps, n);
    } else if m :| m in OutputNames(p) * unmet && m in g.realName && g.realName[m] == n {
      WantedIsNotFreed(g, known, ps, m);
      var x :| x in p && m in x.outputs;
      assert n in Written(g, x);
      InputsAreUses(g, known, p, Flatten(ps[1..]), n);
    }
  }

  lemma ReturnedByGraphIsKept(g: Graph, known: set<Name>, ps: seq<seq<Node>>, skip: bool, n: Name)
    requires PartitionedOk(g, known, ps) && ps != [] && OutputsExist(g, known, ps)
    requires n in OutputNames(ps[0]) && n in RealNames(g, g.outputNames) && n !in g.realName && HasStorage(g, n)
    ensures n in SignatureOf(g, ps[0], Unmet(g, ps[1..]), skip).outputNodes
  {
    var p, rest := ps[0], ps[1..];
    SplitSchedule(g, known, p, Flatten(rest));
    NotDefinedAgain(g, known, p, Flatten(rest), n);
    ReturnedExactly(g, known, ps, n);
    UnmetExact(g, known + OutputNames(p), rest, n);
    var m :| m in g.outputNames && Real(g, m) == n;
    if m in g.realName {
      MutationIsLater(g, known, p, Flatten(rest), n, m);
      UnmetExact(g, known + OutputNames(p), rest, m);
    }
  }

  /** What must survive and is not handed back here is left alone here. */
  lemma PassedBy(g: Graph, known: set<Name>, ps: seq<seq<Node>>, skip: bool, n: Name)
    requires PartitionedOk(g, known, ps) && ps != [] && OutputsExist(g, known, ps)
    requires n in Needed(g, ps[1..]) && n !in SignatureOf(g, ps[0], Unmet(g, ps[1..]), skip).outputNodes
    ensures n in Needed(g, ps) && n !in InputNames(g, ps[0]) && !Uses(g, ps[0], n)
  {
    var p, rest := ps[0], Flatten(ps[1..]);
    ReturnedExactly(g, known, ps, n);
    SplitSchedule(g, known, p, rest);
    UsesAppend(g, p, rest, n);
    UnmetStep(g, known, ps, n);
    InputsAreUses(g, known, p, rest, n);
    if n in Unmet(g, ps[1..]) {
      WantedIsNotFreed(g, known, ps, n);
    } else if n in OutputNames(p) {
      ReturnedByGraphIsKept(g, known, ps, skip, n);
    }
  }

  lemma UsedIsKnown(g: Graph, known: set<Name>, nodes: seq<Node>, n: Name)
    requires TablesOk(g) && Closed(g, known) && ScheduleOk(g, known, nodes)
    requires Uses(g, nodes, n) && n !in OutputNames(nodes) && n in g.nodeNames
    ensures n in known
  {
    assert nodes + [] == nodes;
    SplitSchedule(g, known, nodes, []);
  }

  lemma ReturnedIsKnown(g: Graph, known: set<Name>, ps: seq<seq<Node>>, n: Name)
    requires PartitionedOk(g, known, ps) && OutputsExist(g, known, ps)
    requires n in RealNames(g, g.outputNames) && n !in OutputNames(Flatten(ps)) && n in g.nodeNames && HasStorage(g, n)
    ensures n in known
  {
    var m :| m in g.outputNames && Real(g, m) == n;
    if m in OutputNames(Flatten(ps)) {
      var x :| x in Flatten(ps) && m in x.outputs;
      assert n in Written(g, x);
      UsedIsKnown(g, known, Flatten(ps), n);
    }
  }

  /** At the start only the graph's inputs are needed. */
  lemma NeededIsKnown(g: Graph, known: set<Name>, ps: seq<seq<Node>>, n: Name)
    requires PartitionedOk(g, known, ps) && OutputsExist(g, known, ps)
    requires n in Needed(g, ps)
    ensures n in known
  {
    if n in Unmet(g, ps) {
      UnmetExact(g, known, ps, n);
      if Uses(g, Flatten(ps), n) {
        UsedIsKnown(g, known, Flatten(ps), n);
      } else {
        assert Real(g, n) == n;
        ReturnedIsKnown(g, known, ps, n);
      }
    } else {
      ReturnedIsKnown(g, known, ps, n);
    }
  }

  lemma {:induction false} UntouchedIsKept<V>(g: Graph, kernel: Kernel<V>, consts: Env<V>, p: seq<Node>, flat: Env<V>, n: Name)
    requires Resolved(g) && n in flat && !Uses(g, p, n)
    ensures n in RunFlat(g, kernel, consts, p, flat) && RunFlat(g, kernel, consts, p, flat)[n] == flat[n]
    decreases |p|
  {
    if p != [] {
      assert p[0] in p;
      assert forall y <- p[1..] :: y in p;
      UntouchedIsKept(g, kernel, consts, p[1..], flat + Stores(g, kernel, p[0], flat + consts), n);
    }
  }

  lemma InnerAgrees<V>(g: Graph, known: set<Name>, ps: seq<seq<Node>>, skip: bool, env: Env<V>, flat: Env<V>)
    requires PartitionedOk(g, known, ps) && ps != []
    requires Agree(env, flat, Needed(g, ps))
    ensures var sig := SignatureOf(g, ps[0], Unmet(g, ps[1..]), skip);
            && sig.inputNodes <= env.Keys
            && Agree(Restrict(env, sig.inputNodes), flat, MustFind(g, ps[0], sig.outputNodes))
  {
    var p, rest, sig := ps[0], Flatten(ps[1..]), SignatureOf(g, ps[0], Unmet(g, ps[1..]), skip);
    forall n | n in sig.inputNodes ensures n in env && n in flat && env[n] == flat[n] {
      InputsFound(g, known, ps, n);
    }
    forall n | n in MustFind(g, p, sig.outputNodes) ensures n in sig.inputNodes {
      InputsAreUses(g, known, p, rest, n);
      if n in sig.outputNodes { OutputsFound(g, known, ps, skip, n); }
    }
  }

  lemma OuterAgrees<V>(g: Graph, kernel: Kernel<V>, consts: Env<V>, known: set<Name>, ps: seq<seq<Node>>, skip: bool, env: Env<V>, flat: Env<V>, left: Env<V>)
    requires PartitionedOk(g, known, ps) && OutputsExist(g, known, ps) && ps != []
    requires Agree(env, flat, Needed(g, ps))
    requires Agree(left, RunFlat(g, kernel, consts, ps[0], flat), iset n | n in SignatureOf(g, ps[0], Unmet(g, ps[1..]), skip).outputNodes)
    ensures var sig := SignatureOf(g, ps[0], Unmet(g, ps[1..]), skip);
            Agree((env - sig.inputNodes) + Restrict(left, sig.outputNodes), RunFlat(g, kernel, consts, ps[0], flat), Needed(g, ps[1..]))
  {
    var sig := SignatureOf(g, ps[0], Unmet(g, ps[1..]), skip);
    var next := (env - sig.inputNodes) + Restrict(left, sig.outputNodes);
    var flat' := RunFlat(g, kernel, consts, ps[0], flat);
    forall n | n in Needed(g, ps[1..]) ensures n in next && n in flat' && next[n] == flat'[n] {
      if n !in sig.outputNodes {
        PassedBy(g, known, ps, skip, n);
        UntouchedIsKept(g, kernel, consts, ps[0], flat, n);
      }
    }
  }

  /** What a partition hands back it has not freed, and its storage is not an alias. */
  lemma OutputsAreKept(g: Graph, known: set<Name>, ps: seq<seq<Node>>, skip: bool)
    requires PartitionedOk(g, known, ps) && ps != []
    ensures var outputs := SignatureOf(g, ps[0], Unmet(g, ps[1..]), skip).outputNodes;
            && outputs !! NamesToFree(ps[0])
            && forall n <- outputs :: n in g.nodeNames && HasStorage(g, n) && n !in g.realName
  {
    forall n | n in SignatureOf(g, ps[0], Unmet(g, ps[1..]), skip).outputNodes
      ensures n in g.nodeNames && HasStorage(g, n) && n !in g.realName && n !in NamesToFree(ps[0])
    {
      OutputsFound(g, known, ps, skip, n);
    }
  }

  /** The constants a partition uses are passed to it. */
  lemma ConstantsArePassed(g: Graph, known: set<Name>, ps: seq<seq<Node>>, skip: bool, n: Name)
    requires PartitionedOk(g, known, ps) && ps != [] && n in g.constants && Uses(g, ps[0], n)
    ensures n in SignatureOf(g, ps[0], Unmet(g, ps[1..]), skip).constantNames
  {
    AccessedIsKnown(g, known, ps[0], Flatten(ps[1..]));
    InputsAreUses(g, known, ps[0], Flatten(ps[1..]), n);
  }

  /** The partition runs in the scope that its signature makes, and what it hands back agrees. */
  lemma InsideAgrees<V>(g: Graph, kernel: Kernel<V>, consts: Env<V>, known: set<Name>, ps: seq<seq<Node>>, skip: bool, env: Env<V>, flat: Env<V>)
    requires PartitionedOk(g, known, ps) && ps != [] && consts.Keys == g.constants
    requires Agree(env, flat, Needed(g, ps))
    ensures var sig := SignatureOf(g, ps[0], Unmet(g, ps[1..]), skip);
            var left := RunLocal(g, kernel, Restrict(consts, sig.constantNames), ps[0], Restrict(env, sig.inputNodes));
            && sig.inputNodes <= env.Keys
            && left.Some?
            && Agree(left.value, RunFlat(g, kernel, consts, ps[0], flat), iset n | n in sig.outputNodes)
  {
    var sig := SignatureOf(g, ps[0], Unmet(g, ps[1..]), skip);
    InnerAgrees(g, known, ps, skip, env, flat);
    OutputsAreKept(g, known, ps, skip);
    forall n | n in g.constants && Uses(g, ps[0], n) ensures n in Restrict(consts, sig.constantNames) {
      ConstantsArePassed(g, known, ps, skip, n);
    }
    LocalRunAgrees(g, kernel, consts, Restrict(consts, sig.constantNames), known, ps[0], Flatten(ps[1..]), sig.outputNodes,
                   Restrict(env, sig.inputNodes), flat);
  }

  /** One partition turns agreement on what is needed before it into agreement on what is
      needed after it. */
  lemma PartitionAgrees<V>(g: Graph, kernel: Kernel<V>, consts: Env<V>, known: set<Name>, ps: seq<seq<Node>>, skip: bool, env: Env<V>, flat: Env<V>)
    requires PartitionedOk(g, known, ps) && OutputsExist(g, known, ps) && ps != [] && consts.Keys == g.constants
    requires Agree(env, flat, Needed(g, ps))
    ensures var next := RunPartition(g, kernel, consts, ps[0], SignatureOf(g, ps[0], Unmet(g, ps[1..]), skip), env);
            next.Some? && Agree(next.value, RunFlat(g, kernel, consts, ps[0], flat), Needed(g, ps[1..]))
  {
    var sig := SignatureOf(g, ps[0], Unmet(g, ps[1..]), skip);
    InsideAgrees(g, kernel, consts, known, ps, skip, env, flat);
    var left := RunLocal(g, kernel, Restrict(consts, sig.constantNames), ps[0], Restrict(env, sig.inputNodes)).value;
    assert sig.outputNodes <= left.Keys;
    OuterAgrees(g, kernel, consts, known, ps, skip, env, flat, left);
  }

  lemma RunPartitionsCons<V>(g: Graph, kernel: Kernel<V>, consts: Env<V>, ps: seq<seq<Node>>, skips: seq<bool>, env: Env<V>)
    requires Resolved(g) && ps != [] && |skips| == |ps|
    ensures RunPartitions(g, kernel, consts, ps, Signatures(g, ps, skips), env) ==
            match RunPartition(g, kernel, consts, ps[0], SignatureOf(g, ps[0], Unmet(g, ps[1..]), skips[0]), env)
            case None => None
            case Some(next) => RunPartitions(g, kernel, consts, ps[1..], Signatures(g, ps[1..], skips[1..]), next)
  {
    assert Signatures(g, ps, skips)[1..] == Signatures(g, ps[1..], skips[1..]);
  }

  lemma {:induction false} RunFlatAppend<V>(g: Graph, kernel: Kernel<V>, consts: Env<V>, p: seq<Node>, rest: seq<Node>, env: Env<V>)
    requires Resolved(g)
    ensures RunFlat(g, kernel, consts, p + rest, env) == RunFlat(g, kernel, consts, rest, RunFlat(g, kernel, consts, p, env))
    decreases |p|
  {
    if p == [] {
      assert p + rest == rest;
    } else {
      assert (p + rest)[1..] == p[1..] + rest;
      RunFlatAppend(g, kernel, consts, p[1..], rest, env + Stores(g, kernel, p[0], env + consts));
    }
  }

  lemma {:induction false} RunAgrees<V>(g: Graph, kernel: Kernel<V>, consts: Env<V>, known: set<Name>, ps: seq<seq<Node>>, skips: seq<bool>, env: Env<V>, flat: Env<V>)
    requires PartitionedOk(g, known, ps) && OutputsExist(g, known, ps) && consts.Keys == g.constants && |skips| == |ps|
    requires Agree(env, flat, Needed(g, ps))
    ensures var end := RunPartitions(g, kernel, consts, ps, Signatures(g, ps, skips), env);
            end.Some? && Agree(end.value, RunFlat(g, kernel, consts, Flatten(ps), flat), Needed(g, []))
    decreases |ps|
  {
    if ps != [] {
      var sig, p := SignatureOf(g, ps[0], Unmet(g, ps[1..]), skips[0]), ps[0];
      RunPartitionsCons(g, kernel, consts, ps, skips, env);
      PartitionAgrees(g, kernel, consts, known, ps, skips[0], env, flat);
      TailOk(g, known, ps);
      OutputsExistInTail(g, known, ps);
      RunFlatAppend(g, kernel, consts, p, Flatten(ps[1..]), flat);
      RunAgrees(g, kernel, consts, known + OutputNames(p), ps[1..], skips[1..],
                RunPartition(g, kernel, consts, p, sig, env).value, RunFlat(g, kernel, consts, p, flat));
    }
  }

  /** Two scopes hold the same values behind the names that the graph returns. */
  ghost predicate SameOutputs<V>(g: Graph, env: Env<V>, flat: Env<V>)
    requires Resolved(g)
  {
    forall n <- g.outputNames - g.constants :: HasStorage(g, n) ==>
      && Real(g, n) in env && Real(g, n) in flat
      && env[Real(g, n)] == flat[Real(g, n)]
  }

  lemma AgreementCoversOutputs<V>(g: Graph, known: set<Name>, ps: seq<seq<Node>>, env: Env<V>, flat: Env<V>)
    requires PartitionedOk(g, known, ps) && OutputsExist(g, known, ps)
    requires Agree(env, flat, Needed(g, []))
    ensures SameOutputs(g, env, flat)
  {
    assert Flatten(ps) + [] == Flatten(ps);
    AccessedIsKnown(g, known, Flatten(ps), []);
    forall n | n in g.outputNames - g.constants && HasStorage(g, n)
      ensures Real(g, n) in Needed(g, [])
    {}
  }

  lemma InputsAgree<V>(g: Graph, ps: seq<seq<Node>>, inputs: Env<V>)
    requires PartitionedOk(g, inputs.Keys, ps) && OutputsExist(g, inputs.Keys, ps)
    ensures Agree(inputs, inputs, Needed(g, ps))
  {
    forall n | n in Needed(g, ps) ensures n in inputs {
      NeededIsKnown(g, inputs.Keys, ps, n);
    }
  }

  /** The main theorem. For every well-formed schedule, however it is cut, the partitioned run
      never misses a name, and every storage the graph returns ends with the value that it has
      after all nodes ran in one scope. */
  lemma PartitionsPreserveMeaning<V>(g: Graph, kernel: Kernel<V>, consts: Env<V>, ps: seq<seq<Node>>, skips: seq<bool>, inputs: Env<V>)
    requires PartitionedOk(g, inputs.Keys, ps) && OutputsExist(g, inputs.Keys, ps)
    requires consts.Keys == g.constants && |skips| == |ps|
    ensures var end := RunPartitions(g, kernel, consts, ps, Signatures(g, ps, skips), inputs);
            end.Some? && SameOutputs(g, end.value, RunFlat(g, kernel, consts, Flatten(ps), inputs))
  {
    InputsAgree(g, ps, inputs);
    RunAgrees(g, kernel, consts, inputs.Keys, ps, skips, inputs, inputs);
    var end := RunPartitions(g, kernel, consts, ps, Signatures(g, ps, skips), inputs).value;
    AgreementCoversOutputs(g, inputs.Keys, ps, end, RunFlat(g, kernel, consts, Flatten(ps), inputs));
  }

  // ----- Everything that is left in scope -----

  /** Whatever the scope holds is known and has the flat run's value. */
  ghost predicate Faithful<V>(env: Env<V>, flat: Env<V>, known: set<Name>) {
    forall n <- env :: n in known && n in flat && env[n] == flat[n]
  }

  lemma OutputIsKnown(g: Graph, known: set<Name>, ps: seq<seq<Node>>, skip: bool, n: Name)
    requires PartitionedOk(g, known, ps) && ps != []
    requires n in SignatureOf(g, ps[0], Unmet(g, ps[1..]), skip).outputNodes
    ensures n in known + OutputNames(ps[0])
  {
    OutputsFound(g, known, ps, skip, n);
    InputsAreUses(g, known, ps[0], Flatten(ps[1..]), n);
  }

  /** What was in scope before and does not enter the partition is left alone by it. */
  lemma BypassedIsUntouched(g: Graph, known: set<Name>, ps: seq<seq<Node>>, n: Name)
    requires PartitionedOk(g, known, ps) && ps != []
    requires n in known && n !in InputNames(g, ps[0]) * g.nodeNames
    ensures !Uses(g, ps[0], n)
  {
    InputsAreUses(g, known, ps[0], Flatten(ps[1..]), n);
    SplitSchedule(g, known, ps[0], Flatten(ps[1..]));
  }

  lemma PartitionIsFaithful<V>(g: Graph, kernel: Kernel<V>, consts: Env<V>, known: set<Name>, ps: seq<seq<Node>>, skip: bool, env: Env<V>, flat: Env<V>)
    requires PartitionedOk(g, known, ps) && ps != [] && consts.Keys == g.constants
    requires Agree(env, flat, Needed(g, ps)) && Faithful(env, flat, known)
    ensures var next := RunPartition(g, kernel, consts, ps[0], SignatureOf(g, ps[0], Unmet(g, ps[1..]), skip), env);
            next.Some? && Faithful(next.value, RunFlat(g, kernel, consts, ps[0], flat), known + OutputNames(ps[0]))
  {
    var sig := SignatureOf(g, ps[0], Unmet(g, ps[1..]), skip);
    InsideAgrees(g, kernel, consts, known, ps, skip, env, flat);
    var left := RunLocal(g, kernel, Restrict(consts, sig.constantNames), ps[0], Restrict(env, sig.inputNodes)).value;
    assert sig.outputNodes <= left.Keys;
    forall n | n in sig.outputNodes ensures n in known + OutputNames(ps[0]) {
      OutputIsKnown(g, known, ps, skip, n);
    }
    var flat' := RunFlat(g, kernel, consts, ps[0], flat);
    forall n | n in env - sig.inputNodes ensures n in flat' && flat'[n] == flat[n] {
      BypassedIsUntouched(g, known, ps, n);
      UntouchedIsKept(g, kernel, consts, ps[0], flat, n);
    }
  }

  /** A storage that is in scope and that the partition does not free is in scope afterwards. */
  lemma UnfreedStays<V>(g: Graph, kernel: Kernel<V>, consts: Env<V>, known: set<Name>, ps: seq<seq<Node>>, skip: bool, env: Env<V>, n: Name)
    requires PartitionedOk(g, known, ps) && ps != []
    requires n in env && n !in NamesToFree(ps[0]) && n !in g.realName && HasStorage(g, n)
    ensures var next := RunPartition(g, kernel, consts, ps[0], SignatureOf(g, ps[0], Unmet(g, ps[1..]), skip), env);
            next.Some? ==> n in next.value
  {
    ReturnedExactly(g, known, ps, n);
  }

  lemma {:induction false} RunIsFaithful<V>(g: Graph, kernel: Kernel<V>, consts: Env<V>, known: set<Name>, ps: seq<seq<Node>>, skips: seq<bool>, env: Env<V>, flat: Env<V>)
    requires PartitionedOk(g, known, ps) && OutputsExist(g, known, ps) && consts.Keys == g.constants && |skips| == |ps|
    requires Agree(env, flat, Needed(g, ps)) && Faithful(env, flat, known)
    ensures var end, flatEnd := RunPartitions(g, kernel, consts, ps, Signatures(g, ps, skips), env), RunFlat(g, kernel, consts, Flatten(ps), flat);
            && end.Some? && Faithful(end.value, flatEnd, known + OutputNames(Flatten(ps)))
            && forall n <- env :: n !in NamesToFree(Flatten(ps)) && n !in g.realName && HasStorage(g, n) ==> n in end.value
    decreases |ps|
  {
    if ps != [] {
      var sig, p, tail := SignatureOf(g, ps[0], Unmet(g, ps[1..]), skips[0]), ps[0], Flatten(ps[1..]);
      RunPartitionsCons(g, kernel, consts, ps, skips, env);
      PartitionAgrees(g, kernel, consts, known, ps, skips[0], env, flat);
      PartitionIsFaithful(g, kernel, consts, known, ps, skips[0], env, flat);
      TailOk(g, known, ps);
      OutputsExistInTail(g, known, ps);
      NamesOfAppend(g, p, tail);
      RunFlatAppend(g, kernel, consts, p, tail, flat);
      var next := RunPartition(g, kernel, consts, p, sig, env).value;
      forall n | n in env && n !in NamesToFree(p) && n !in g.realName && HasStorage(g, n) ensures n in next {
        UnfreedStays(g, kernel, consts, known, ps, skips[0], env, n);
      }
      RunIsFaithful(g, kernel, consts, known + OutputNames(p), ps[1..], skips[1..], next, RunFlat(g, kernel, consts, p, flat));
    }
  }

  lemma NamesOfAppend(g: Graph, p: seq<Node>, rest: seq<Node>)
    requires Resolved(g)
    ensures OutputNames(p + rest) == OutputNames(p) + OutputNames(rest)
    ensures NamesToFree(p + rest) == NamesToFree(p) + NamesToFree(rest)
  {
    assert forall x :: x in p + rest <==> x in p || x in rest;
  }

  /** Returned or not: every storage that the partitioned run leaves in scope has the flat run's
      value, and every input that no node frees is still in scope, with all updates in place. */
  lemma FinalScopeIsFaithful<V>(g: Graph, kernel: Kernel<V>, consts: Env<V>, ps: seq<seq<Node>>, skips: seq<bool>, inputs: Env<V>)
    requires PartitionedOk(g, inputs.Keys, ps) && OutputsExist(g, inputs.Keys, ps)
    requires consts.Keys == g.constants && |skips| == |ps|
    ensures var end, flat := RunPartitions(g, kernel, consts, ps, Signatures(g, ps, skips), inputs), RunFlat(g, kernel, consts, Flatten(ps), inputs);
            && end.Some?
            && (forall n <- end.value :: n in flat && end.value[n] == flat[n])
            && forall n <- inputs :: n !in NamesToFree(Flatten(ps)) && n !in g.realName && HasStorage(g, n) ==> n in end.value
  {
    InputsAgree(g, ps, inputs);
    RunIsFaithful(g, kernel, consts, inputs.Keys, ps, skips, inputs, inputs);
  }

  // ----- Exactly when the meaning is preserved -----

  ghost predicate StorageOnly<V>(g: Graph, env: Env<V>)
    requires Resolved(g)
  {
    forall n <- env :: HasStorage(g, n)
  }

  lemma StorageStaysOnly<V>(g: Graph, kernel: Kernel<V>, consts: Env<V>, p: seq<Node>, unmet: set<Name>, skip: bool, env: Env<V>)
    requires Resolved(g) && StorageOnly(g, env)
    ensures var next := RunPartition(g, kernel, consts, p, SignatureOf(g, p, unmet, skip), env);
            next.Some? ==> StorageOnly(g, next.value)
  {
    forall n | n in SignatureOf(g, p, unmet, skip).outputNodes ensures HasStorage(g, n) {
      assert n !in g.realName;
      UnaliasedTest(g, n);
    }
  }

  /** An input without storage is in no scope. */
  lemma WrongInputFails<V>(g: Graph, kernel: Kernel<V>, consts: Env<V>, p: seq<Node>, unmet: set<Name>, skip: bool, env: Env<V>, n: Name)
    requires Resolved(g) && StorageOnly(g, env) && n in InputNames(g, p) * g.nodeNames && !HasStorage(g, n)
    ensures RunPartition(g, kernel, consts, p, SignatureOf(g, p, unmet, skip), env).None?
  {
    assert n in SignatureOf(g, p, unmet, skip).inputNodes && n !in env;
  }

  /** A storage that is touched and neither there nor defined stops the run: the first node that
      touches it reads it or frees it. */
  lemma {:induction false} MissingStorageFails<V>(g: Graph, kernel: Kernel<V>, visible: Env<V>, known: set<Name>, p: seq<Node>, rest: seq<Node>, env: Env<V>, n: Name)
    requires TablesOk(g) && Closed(g, known) && ScheduleOk(g, known, p + rest)
    requires Uses(g, p, n) && n !in OutputNames(p) && n !in env && n !in visible
    ensures RunLocal(g, kernel, visible, p, env).None?
    decreases |p|
  {
    if n in Needs(g, p[0]) {
      UnreadableFails(g, kernel, visible, p, env, n);
    } else if n in FreedStorages(g, p[0]) {
      UnreadIsUnwritten(g, known, p[0], n);
    } else {
      FirstLeavesOut(g, known, p, rest, n);
      var env' := env + Stores(g, kernel, p[0], env + visible) - p[0].lastUsage;
      MissingStorageFails(g, kernel, visible, known + p[0].outputs, p[1..], rest, env', n);
    }
  }

  /** The first node neither reads nor defines nor frees `n`: then it does not write it, and a
      later one uses it. */
  lemma FirstLeavesOut(g: Graph, known: set<Name>, p: seq<Node>, rest: seq<Node>, n: Name)
    requires TablesOk(g) && Closed(g, known) && p != [] && ScheduleOk(g, known, p + rest)
    requires Uses(g, p, n) && n !in OutputNames(p) && n !in Needs(g, p[0]) + FreedStorages(g, p[0])
    ensures n !in Written(g, p[0]) && Uses(g, p[1..], n) && n !in OutputNames(p[1..])
    ensures Closed(g, known + p[0].outputs) && ScheduleOk(g, known + p[0].outputs, p[1..] + rest)
  {
    NamesOfCons(p);
    assert (p + rest)[1..] == p[1..] + rest;
    KnownStaysClosed(g, known, p[0]);
    UnreadIsUnwritten(g, known, p[0], n);
    UsesInTail(g, p, n);
  }

  lemma UnreadableFails<V>(g: Graph, kernel: Kernel<V>, visible: Env<V>, p: seq<Node>, env: Env<V>, n: Name)
    requires Resolved(g) && p != [] && n in Needs(g, p[0]) && n !in env && n !in visible
    ensures RunLocal(g, kernel, visible, p, env).None?
  {
    assert n !in env + visible;
  }

  lemma UsesInTail(g: Graph, p: seq<Node>, n: Name)
    requires Resolved(g) && p != [] && Uses(g, p, n) && n !in Touched(g, p[0])
    ensures Uses(g, p[1..], n)
  {
    var y :| y in p && n in Touched(g, y);
    assert p == [p[0]] + p[1..];
  }

  lemma UnreadIsUnwritten(g: Graph, known: set<Name>, x: Node, n: Name)
    requires TablesOk(g) && NodeOk(g, known, x) && n !in Needs(g, x) && n !in x.outputs
    ensures n !in Written(g, x)
  {}

  lemma MissingInputFails<V>(g: Graph, kernel: Kernel<V>, consts: Env<V>, known: set<Name>, p: seq<Node>, rest: seq<Node>, unmet: set<Name>, skip: bool, env: Env<V>, n: Name)
    requires TablesOk(g) && Closed(g, known) && ScheduleOk(g, known, p + rest)
    requires Uses(g, p, n) && n !in OutputNames(p) && n !in InputNames(g, p)
    ensures RunPartition(g, kernel, consts, p, SignatureOf(g, p, unmet, skip), env).None?
  {
    var sig := SignatureOf(g, p, unmet, skip);
    MissingStorageFails(g, kernel, Restrict(consts, sig.constantNames), known, p, rest, Restrict(env, sig.inputNodes), n);
  }

  lemma WrongInputHasNode(g: Graph, known: set<Name>, p: seq<Node>, rest: seq<Node>, n: Name)
    requires TablesOk(g) && Closed(g, known) && ScheduleOk(g, known, p + rest)
    requires n in InputNames(g, p) && !HasStorage(g, n)
    ensures n in g.nodeNames
  {
    InputOrigin(g, known, p, rest, n);
    if !(n in NamesToFree(p) - OutputNames(p) && n in g.nodeNames) {
      var m :| m in known + g.constants && !IsNoneLayout(g, m) && Real(g, m) == n;
      if m !in g.realName { UnaliasedTest(g, m); }
    }
  }

  /** A partition whose inputs are not right does not run. */
  lemma WrongInputsFail<V>(g: Graph, kernel: Kernel<V>, consts: Env<V>, known: set<Name>, p: seq<Node>, rest: seq<Node>, unmet: set<Name>, skip: bool, env: Env<V>)
    requires TablesOk(g) && Closed(g, known) && ScheduleOk(g, known, p + rest) && StorageOnly(g, env)
    requires !InputsRight(g, p)
    ensures RunPartition(g, kernel, consts, p, SignatureOf(g, p, unmet, skip), env).None?
  {
    if n :| n in InputNames(g, p) && !HasStorage(g, n) {
      WrongInputHasNode(g, known, p, rest, n);
      WrongInputFails(g, kernel, consts, p, unmet, skip, env, n);
    } else {
      var x, n :| x in p && n in Touched(g, x) && n !in OutputNames(p) && n !in InputNames(g, p);
      MissingInputFails(g, kernel, consts, known, p, rest, unmet, skip, env, n);
    }
  }

  lemma {:induction false} RunStops<V>(g: Graph, kernel: Kernel<V>, consts: Env<V>, known: set<Name>, ps: seq<seq<Node>>, skips: seq<bool>, env: Env<V>, k: nat)
    requires WellScheduled(g, known, ps) && |skips| == |ps| && StorageOnly(g, env)
    requires k < |ps| && !InputsRight(g, ps[k])
    ensures RunPartitions(g, kernel, consts, ps, Signatures(g, ps, skips), env).None?
    decreases k
  {
    var unmet := Unmet(g, ps[1..]);
    RunPartitionsCons(g, kernel, consts, ps, skips, env);
    if k == 0 {
      WrongInputsFail(g, kernel, consts, known, ps[0], Flatten(ps[1..]), unmet, skips[0], env);
    } else {
      assert ps[1..][k - 1] == ps[k];
      StorageStaysOnly(g, kernel, consts, ps[0], unmet, skips[0], env);
      SplitSchedule(g, known, ps[0], Flatten(ps[1..]));
      var next := RunPartition(g, kernel, consts, ps[0], SignatureOf(g, ps[0], unmet, skips[0]), env);
      if next.Some? {
        RunStops(g, kernel, consts, known + OutputNames(ps[0]), ps[1..], skips[1..], next.value, k - 1);
      }
    }
  }

  /** For every well-formed schedule on allocated inputs, whatever the tables of layouts and
      aliases: a cut preserves the meaning exactly when in each partition nothing without storage
      is freed that it does not define, and no access is mistaken by the none-layout test so that
      a storage is missing or a name without storage let through; that is, when its inputs have
      storage and none is missing. Otherwise the run does not even end. */
  lemma MeaningPreservedIff<V>(g: Graph, kernel: Kernel<V>, consts: Env<V>, ps: seq<seq<Node>>, skips: seq<bool>, inputs: Env<V>)
    requires WellScheduled(g, inputs.Keys, ps) && OutputsExist(g, inputs.Keys, ps)
    requires consts.Keys == g.constants && |skips| == |ps| && StorageOnly(g, inputs)
    ensures var end := RunPartitions(g, kernel, consts, ps, Signatures(g, ps, skips), inputs);
            && (AllGuardsRight(g, ps) <==> AllInputsRight(g, ps))
            && (AllGuardsRight(g, ps) <==> end.Some?)
            && (AllGuardsRight(g, ps) <==>
                end.Some? && SameOutputs(g, end.value, RunFlat(g, kernel, consts, Flatten(ps), inputs)))
  {
    AllInputsRightIffGuards(g, inputs.Keys, ps);
    if AllInputsRight(g, ps) {
      PartitionsPreserveMeaning(g, kernel, consts, ps, skips, inputs);
    } else {
      var k :| 0 <= k < |ps| && !InputsRight(g, ps[k]);
      RunStops(g, kernel, consts, inputs.Keys, ps, skips, inputs, k);
    }
  }

  /** Where the aliases are in order the none-layout test is right, and the meaning is preserved
      exactly when no partition has to free a buffer without storage that another one defined. */
  lemma MeaningPreservedIffFreesOwn<V>(g: Graph, kernel: Kernel<V>, consts: Env<V>, ps: seq<seq<Node>>, skips: seq<bool>, inputs: Env<V>)
    requires WellScheduled(g, inputs.Keys, ps) && OutputsExist(g, inputs.Keys, ps) && LayoutsOk(g)
    requires consts.Keys == g.constants && |skips| == |ps| && StorageOnly(g, inputs)
    ensures var end := RunPartitions(g, kernel, consts, ps, Signatures(g, ps, skips), inputs);
            AllFreeOwn(g, ps) <==>
            end.Some? && SameOutputs(g, end.value, RunFlat(g, kernel, consts, Flatten(ps), inputs))
  {
    AllInputsRightIff(g, inputs.Keys, ps);
    MeaningPreservedIff(g, kernel, consts, ps, skips, inputs);
  }
}
