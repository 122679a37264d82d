/**
 Schedules that meet the hypotheses of the partition theorems, and schedules on which the
 partition signatures fail.
 */
module GraphExamples {
  import opened GraphPartition
  import opened GraphLiveness
  import opened GraphMeaning
  import opened Options

  // ----- Schedules in order -----

  ghost predicate IsMutating(b: Node, c: Node, g: Graph) {
    && g == Graph(map["buf1" := NoneLayout(true)], map["buf1" := "arg0"], {"arg0", "buf1", "buf2"}, {}, {"buf2"})
    && b == Node("mutate", {"arg0"}, {"buf1"}, {"buf1"}, {})
    && c == Node("read", {"buf1"}, {"buf2"}, {"buf2"}, {"arg0"})
  }

  /** The first partition writes its input in place, the second reads the new version and frees
      the storage. */
  lemma MutatingSchedule(b: Node, c: Node, g: Graph)
    requires IsMutating(b, c, g)
    ensures PartitionedOk(g, {"arg0"}, [[b], [c]]) && LayoutsOk(g)
  {
    MutatingNodesOk(b, c, g);
    TwoNodes(g, {"arg0"}, b, c);
    OwnFreesFitAnyCut(g, [[b], [c]]);
    AllInputsRightIff(g, {"arg0"}, [[b], [c]]);
  }

  lemma MutatingNodesOk(b: Node, c: Node, g: Graph)
    requires IsMutating(b, c, g)
    ensures TablesOk(g) && Closed(g, {"arg0"}) && LayoutsOk(g)
    ensures NodeOk(g, {"arg0"}, b) && FreesOk(g, b, [c])
    ensures NodeOk(g, {"arg0"} + b.outputs, c) && FreesOk(g, c, [])
    ensures forall x <- [b, c], l <- x.lastUsage :: HasStorage(g, l)
  {
    assert HasStorage(g, "arg0") && HasStorage(g, "buf1") && HasStorage(g, "buf2");
    assert Real(g, "arg0") == "arg0" && Real(g, "buf1") == "arg0" && Real(g, "buf2") == "buf2";
    assert b.readNames + b.writeNames - b.outputs == {"arg0"} && Needs(g, b) == {"arg0"};
    assert c.readNames + c.writeNames - c.outputs == {"buf1"} && Needs(g, c) == {"arg0"};
    assert RealNames(g, g.outputNames) == {"buf2"};
  }

  lemma FlattenTwo(b: Node, c: Node)
    ensures Flatten([[b], [c]]) == [b, c]
  {
    assert Flatten([]) == [];
    assert [[c]][1..] == [] && Flatten([[c]]) == [c];
    assert [[b], [c]][1..] == [[c]] && [b] + [c] == [b, c];
  }

  lemma TwoNodes(g: Graph, known: set<Name>, b: Node, c: Node)
    requires TablesOk(g) && Closed(g, known)
    requires NodeOk(g, known, b) && FreesOk(g, b, [c])
    requires NodeOk(g, known + b.outputs, c) && FreesOk(g, c, [])
    ensures WellScheduled(g, known, [[b], [c]])
  {
    FlattenTwo(b, c);
    assert [b, c][1..] == [c] && [c][1..] == [];
  }

  /** A node is itself the last user of its buffer without storage. */
  lemma OwnBufferSchedule(x: Node, g: Graph)
    requires g == Graph(map["buf0" := NoneLayout(false)], map[], {"arg0", "buf0"}, {}, {"arg0"})
    requires x == Node("op", {"arg0"}, {"buf0"}, {"buf0"}, {"buf0"})
    ensures PartitionedOk(g, {"arg0"}, [[x]]) && LayoutsOk(g)
  {
    assert !HasStorage(g, "buf0") && HasStorage(g, "arg0");
    assert RealNames(g, g.outputNames) == {"arg0"};
    assert Flatten([[x]]) == [x] && [x][1..] == [];
    OwnFreesFitAnyCut(g, [[x]]);
    AllInputsRightIff(g, {"arg0"}, [[x]]);
  }

  ghost predicate IsViewSchedule(a: Node, v: Node, c: Node, g: Graph) {
    && g == Graph(map["buf0" := Allocated, "buf1" := Allocated, "buf2" := Allocated], map[], {"arg0", "buf0", "buf1", "buf2"}, {}, {"buf2"})
    && a == Node("a", {"arg0"}, {"buf0"}, {"buf0"}, {})
    && v == Node("view", {"buf0"}, {"buf1"}, {"buf1"}, {})
    && c == Node("c", {"buf1"}, {"buf2"}, {"buf2"}, {"buf0", "buf1"})
  }

  /** The last user of a view frees the viewed buffer too, which an earlier partition allocated
      and which its own partition never mentions. The buffer is an input for that reason alone,
      and the run ends. */
  lemma ViewSchedule<V>(a: Node, v: Node, c: Node, g: Graph, kernel: Kernel<V>, inputs: Env<V>)
    requires IsViewSchedule(a, v, c, g) && inputs.Keys == {"arg0"}
    ensures PartitionedOk(g, {"arg0"}, [[a, v], [c]]) && LayoutsOk(g)
    ensures "buf0" in InputNames(g, [c]) && "buf0" !in AccessedNames([c])
    ensures RunPartitions(g, kernel, map[], [[a, v], [c]], Signatures(g, [[a, v], [c]], [false, false]), inputs).Some?
  {
    ViewIsScheduled(a, v, c, g);
    NamesOfOne(c);
    FreeIsInput(g, [c], "buf0");
    OwnFreesFitAnyCut(g, [[a, v], [c]]);
    AllInputsRightIff(g, {"arg0"}, [[a, v], [c]]);
    FlattenView(a, v, c);
    assert c in Flatten([[a, v], [c]]);
    PartitionsPreserveMeaning(g, kernel, map[], [[a, v], [c]], [false, false], inputs);
  }

  lemma FlattenView(a: Node, v: Node, c: Node)
    ensures Flatten([[a, v], [c]]) == [a, v, c]
  {
    assert [[c]][1..] == [] && Flatten([[c]]) == [c];
    assert [[a, v], [c]][1..] == [[c]] && [a, v] + [c] == [a, v, c];
  }

  lemma ViewIsScheduled(a: Node, v: Node, c: Node, g: Graph)
    requires IsViewSchedule(a, v, c, g)
    ensures WellScheduled(g, {"arg0"}, [[a, v], [c]])
  {
    FlattenView(a, v, c);
    assert RealNames(g, g.outputNames) == {"buf2"};
    ViewNodesOk(a, v, c, g);
    assert [a, v, c][1..] == [v, c] && [v, c][1..] == [c] && [c][1..] == [];
    assert ScheduleOk(g, {"arg0"} + a.outputs + v.outputs, [c]);
    assert ScheduleOk(g, {"arg0"} + a.outputs, [v, c]);
  }

  lemma ViewNodesOk(a: Node, v: Node, c: Node, g: Graph)
    requires IsViewSchedule(a, v, c, g)
    ensures TablesOk(g) && Closed(g, {"arg0"})
    ensures NodeOk(g, {"arg0"}, a) && NodeOk(g, {"arg0"} + a.outputs, v) && NodeOk(g, {"arg0"} + a.outputs + v.outputs, c)
  {}

  // ----- Schedules on which the signatures fail -----

  lemma NamesOfOne(x: Node)
    ensures OutputNames([x]) == x.outputs && NamesToFree([x]) == x.lastUsage
    ensures AccessedNames([x]) == x.readNames + x.writeNames
  {
    NamesOfCons([x]);
    assert [x][1..] == [];
  }

  lemma StrayFreeIsWrong(c: Node, g: Graph)
    requires g == Graph(map["buf0" := NoneLayout(false), "buf1" := Allocated], map[], {"arg0", "buf0", "buf1"}, {}, {"buf1"})
    requires c == Node("op", {"arg0", "buf0"}, {"buf1"}, {"buf1"}, {"buf0", "arg0"})
    ensures !FreesOwn(g, [c]) && !InputsRight(g, [c])
  {
    NamesOfOne(c);
    assert "buf0" in NamesToFree([c]) - OutputNames([c]) && !HasStorage(g, "buf0");
    assert "buf0" in InputNames(g, [c]);
  }

  lemma LostInput(c: Node, g: Graph)
    requires g == Graph(map["buf0" := NoneLayout(false), "out1" := Allocated], map["buf0" := "arg0"], {"arg0", "buf0", "out1"}, {}, {"out1"})
    requires c == Node("read", {"buf0"}, {"out1"}, {"out1"}, {})
    ensures Resolved(g) && InputNames(g, [c]) == {} && !InputsRight(g, [c]) && FreesOwn(g, [c])
  {
    NamesOfOne(c);
    assert IsNoneLayout(g, "buf0") && HasStorage(g, "buf0") && Real(g, "buf0") == "arg0";
    assert "buf0" in c.readNames + c.writeNames - c.outputs && "arg0" in Touched(g, c);
    assert c in [c] && "arg0" !in OutputNames([c]);
  }

  /** A buffer without storage is defined in one partition and freed in the next: the second
      one wants it as an input, and the run stops there. */
  lemma StrayFreeSchedule<V>(b: Node, c: Node, g: Graph, kernel: Kernel<V>, inputs: Env<V>)
    requires g == Graph(map["buf0" := NoneLayout(false), "buf1" := Allocated], map[], {"arg0", "buf0", "buf1"}, {}, {"buf1"})
    requires b == Node("effect", {"arg0"}, {"buf0"}, {"buf0"}, {})
    requires c == Node("op", {"arg0", "buf0"}, {"buf1"}, {"buf1"}, {"buf0", "arg0"})
    requires inputs.Keys == {"arg0"}
    ensures WellScheduled(g, {"arg0"}, [[b], [c]]) && LayoutsOk(g) && !AllFreeOwn(g, [[b], [c]])
    ensures RunPartitions(g, kernel, map[], [[b], [c]], Signatures(g, [[b], [c]], [false, false]), inputs).None?
  {
    assert !HasStorage(g, "buf0") && HasStorage(g, "arg0") && HasStorage(g, "buf1");
    assert "arg0" in c.readNames + c.writeNames - c.outputs && Real(g, "arg0") == "arg0";
    assert RealNames(g, g.outputNames) == {"buf1"};
    TwoNodes(g, {"arg0"}, b, c);
    StrayFreeIsWrong(c, g);
    assert [[b], [c]][1] == [c];
    RunOfTwoStops(g, kernel, b, c, inputs);
  }

  lemma ReturnedByTwo(g: Graph, known: set<Name>, b: Node, c: Node)
    requires g.outputNames <= c.outputs
    ensures OutputsExist(g, known, [[b], [c]])
  {
    FlattenTwo(b, c);
    assert c in [b, c];
  }

  lemma RunOfTwoStops<V>(g: Graph, kernel: Kernel<V>, b: Node, c: Node, inputs: Env<V>)
    requires WellScheduled(g, inputs.Keys, [[b], [c]]) && StorageOnly(g, inputs) && !InputsRight(g, [c])
    requires g.constants == {} && g.outputNames <= c.outputs
    ensures RunPartitions(g, kernel, map[], [[b], [c]], Signatures(g, [[b], [c]], [false, false]), inputs).None?
  {
    assert [[b], [c]][1] == [c];
    ReturnedByTwo(g, inputs.Keys, b, c);
    MeaningPreservedIff(g, kernel, map[], [[b], [c]], [false, false], inputs);
  }

  ghost predicate IsLostAlias(b: Node, c: Node, g: Graph) {
    && g == Graph(map["buf0" := NoneLayout(false), "out1" := Allocated], map["buf0" := "arg0"], {"arg0", "buf0", "out1"}, {}, {"out1"})
    && b == Node("index_put_", {"arg0"}, {"buf0"}, {"buf0"}, {})
    && c == Node("read", {"buf0"}, {"out1"}, {"out1"}, {})
  }

  /** The buffer of an in-place kernel has no layout, is no mutation output, and stands for the
      storage that the kernel writes. The test takes it for a buffer without storage, and the
      partition that reads the new version is not passed the storage. */
  lemma LostAliasSchedule<V>(b: Node, c: Node, g: Graph, kernel: Kernel<V>, inputs: Env<V>)
    requires IsLostAlias(b, c, g) && inputs.Keys == {"arg0"}
    ensures WellScheduled(g, {"arg0"}, [[b], [c]]) && AllFreeOwn(g, [[b], [c]])
    ensures IsNoneLayout(g, "buf0") && HasStorage(g, "buf0") && InputNames(g, [c]) == {}
    ensures RunPartitions(g, kernel, map[], [[b], [c]], Signatures(g, [[b], [c]], [false, false]), inputs).None?
  {
    LostIsScheduled(b, c, g);
    LostInput(c, g);
    FreesNothing(g, b, c);
    assert StorageOnly(g, inputs) by { assert HasStorage(g, "arg0"); }
    RunOfTwoStops(g, kernel, b, c, inputs);
  }

  lemma FreesNothing(g: Graph, b: Node, c: Node)
    requires Resolved(g) && b.lastUsage == {} && c.lastUsage == {}
    ensures AllFreeOwn(g, [[b], [c]])
  {
    NamesOfOne(b);
    NamesOfOne(c);
    assert [[b], [c]][0] == [b] && [[b], [c]][1] == [c];
  }

  lemma LostIsScheduled(b: Node, c: Node, g: Graph)
    requires IsLostAlias(b, c, g)
    ensures WellScheduled(g, {"arg0"}, [[b], [c]])
  {
    LostNodesOk(b, c, g);
    TwoNodes(g, {"arg0"}, b, c);
  }

  lemma LostNodesOk(b: Node, c: Node, g: Graph)
    requires IsLostAlias(b, c, g)
    ensures TablesOk(g) && Closed(g, {"arg0"}) && NodeOk(g, {"arg0"}, b) && FreesOk(g, b, [c])
    ensures NodeOk(g, {"arg0"} + b.outputs, c) && FreesOk(g, c, [])
  {
    assert HasStorage(g, "buf0") && HasStorage(g, "arg0") && Real(g, "buf0") == "arg0";
    assert "arg0" in b.readNames + b.writeNames - b.outputs && Real(g, "arg0") == "arg0";
    assert "arg0" in Needs(g, b);
  }
}
