/**
 Where the children of a module stand in its printout (vllm/vllm/model_inspection.py,
 _format_module_tree): said of the positions of the children themselves.
 */
module ModuleLayout {
  import opened Numbers
  import opened ModuleSignature
  import opened ModuleTree
  import opened ModulePrinter
  import opened Sorting

  /** The positions of all numbered children, or of all others, in order. */
  ghost predicate PositionsOf(children: seq<(Key, Module)>, at: seq<nat>, numbered: bool) {
    && Ascending(at)
    && (forall k :: 0 <= k < |at| ==> at[k] < |children|)
    && forall p: nat :: p < |children| ==> (p in at <==> children[p].0.Index? == numbered)
  }

  lemma PositionsSnoc(children: seq<(Key, Module)>, at: seq<nat>, numbered: bool) returns (at': seq<nat>)
    requires children != [] && PositionsOf(children[..|children| - 1], at, numbered)
    ensures at' == if children[|children| - 1].0.Index? == numbered then at + [|children| - 1] else at
    ensures PositionsOf(children, at', numbered)
  {
    var front, n := children[..|children| - 1], |children| - 1;
    at' := if children[n].0.Index? == numbered then at + [n] else at;
    forall p: nat | p < |children| ensures p in at' <==> children[p].0.Index? == numbered {
      if p < n { assert front[p] == children[p]; }
    }
  }

  ghost predicate NumberedFrom(children: seq<(Key, Module)>, at: seq<nat>, xs: seq<(int, Module)>) {
    |xs| == |at| && forall k :: 0 <= k < |at| ==>
      at[k] < |children| && children[at[k]].0.Index? && xs[k] == (children[at[k]].0.i, children[at[k]].1)
  }

  ghost predicate OthersFrom(children: seq<(Key, Module)>, at: seq<nat>, xs: seq<(string, Module)>) {
    |xs| == |at| && forall k :: 0 <= k < |at| ==>
      at[k] < |children| && children[at[k]].0.Name? && xs[k] == (children[at[k]].0.name, children[at[k]].1)
  }

  lemma MoreNumbered(front: seq<(Key, Module)>, last: (Key, Module), at: seq<nat>, xs: seq<(int, Module)>)
    requires NumberedFrom(front, at, xs)
    ensures if last.0.Index? then NumberedFrom(front + [last], at + [|front|], xs + [(last.0.i, last.1)])
            else NumberedFrom(front + [last], at, xs)
  {
    assert forall k :: 0 <= k < |at| ==> (front + [last])[at[k]] == front[at[k]];
  }

  lemma MoreOthers(front: seq<(Key, Module)>, last: (Key, Module), at: seq<nat>, xs: seq<(string, Module)>)
    requires OthersFrom(front, at, xs)
    ensures if last.0.Name? then OthersFrom(front + [last], at + [|front|], xs + [(last.0.name, last.1)])
            else OthersFrom(front + [last], at, xs)
  {
    assert forall k :: 0 <= k < |at| ==> (front + [last])[at[k]] == front[at[k]];
  }

  lemma {:induction false} NumberedAt(children: seq<(Key, Module)>, xs: seq<(int, Module)>) returns (at: seq<nat>)
    requires xs == Numbered(children)
    ensures PositionsOf(children, at, true) && NumberedFrom(children, at, xs)
    decreases |children|
  {
    if children == [] {
      at := [];
    } else {
      var front, last := children[..|children| - 1], children[|children| - 1];
      var before := Numbered(front);
      assert children == front + [last] && xs == before + if last.0.Index? then [(last.0.i, last.1)] else [];
      at := NumberedAt(front, before);
      MoreNumbered(front, last, at, before);
      at := PositionsSnoc(children, at, true);
    }
  }

  lemma {:induction false} OthersAt(children: seq<(Key, Module)>, xs: seq<(string, Module)>) returns (at: seq<nat>)
    requires xs == Others(children)
    ensures PositionsOf(children, at, false) && OthersFrom(children, at, xs)
    decreases |children|
  {
    if children == [] {
      at := [];
    } else {
      var front, last := children[..|children| - 1], children[|children| - 1];
      var before := Others(front);
      assert children == front + [last] && xs == before + if last.0.Name? then [(last.0.name, last.1)] else [];
      at := OthersAt(front, before);
      MoreOthers(front, last, at, before);
      at := PositionsSnoc(children, at, false);
    }
  }

  // ----- Named children -----

  /** The last blocks are those of the named children, in the order of the children. */
  ghost predicate NamedLast(m: Module, subs: seq<Block>, named: seq<nat>) {
    && PositionsOf(m.children, named, false) && |named| <= |subs|
    && forall k :: 0 <= k < |named| ==>
         && m.children[named[k]].0.Name?
         && subs[|subs| - |named| + k] == Collapse(m.children[named[k]].1, Named(m.children[named[k]].0.name))
  }

  lemma OtherBlock(m: Module, others: seq<(string, Module)>, k: nat, bs: seq<Block>)
    requires (forall x <- others :: x.1 < m) && bs == CollapseOthers(m, others) && k < |others|
    ensures bs[k] == Collapse(others[k].1, Named(others[k].0))
  {
    CollapseOthersAt(m, others, k, bs, others[k], Collapse(others[k].1, Named(others[k].0)));
  }

  lemma NamedInOrder(m: Module, tag: Label) returns (named: seq<nat>)
    ensures NamedLast(m, Collapse(m, tag).subs, named)
    ensures |Collapse(m, tag).subs| == |SortedGroups(m)| + |named|
  {
    ChildrenAreSmaller(m, m.children);
    GroupsAreOk(Numbered(m.children));
    var others := Others(m.children);
    named := OthersAt(m.children, others);
    var gs, bs := CollapseGroups(m, SortedGroups(m)), CollapseOthers(m, others);
    assert Collapse(m, tag).subs == gs + bs;
    forall k | 0 <= k < |named|
      ensures (gs + bs)[|gs| + k] == Collapse(m.children[named[k]].1, Named(m.children[named[k]].0.name))
    {
      OtherBlock(m, others, k, bs);
    }
  }

  // ----- Groups -----

  /** What one more member does to the groups. */
  lemma {:induction false} AfterAddMember(gs: seq<Group>, sig: string, x: (int, Module), g: Group)
    requires DistinctSignatures(gs) && g in AddMember(gs, sig, x)
    ensures
      || (g in gs && g.sig != sig)
      || (exists h <- gs :: h.sig == sig && g == Group(sig, h.members + [x]))
      || ((forall h <- gs :: h.sig != sig) && g == Group(sig, [x]))
    decreases |gs|
  {
    if gs != [] {
      assert gs == [gs[0]] + gs[1..] && gs[0] in gs;
      if gs[0].sig == sig {
        if g != Group(sig, gs[0].members + [x]) {
          var j :| 0 <= j < |gs[1..]| && gs[1..][j] == g;
          assert gs[j + 1] == g;
        }
      } else if g != gs[0] {
        AfterAddMember(gs[1..], sig, x, g);
      }
    }
  }

  /** The members of a group are all numbered children of its signature, in order. */
  ghost predicate MembersAt(g: Group, numbered: seq<(int, Module)>, at: seq<nat>) {
    && Ascending(at) && |at| == |g.members|
    && (forall t :: 0 <= t < |at| ==> at[t] < |numbered| && g.members[t] == numbered[at[t]])
    && forall p: nat :: p < |numbered| ==> (p in at <==> Signature(numbered[p].1) == g.sig)
  }

  lemma OtherMember(g: Group, front: seq<(int, Module)>, x: (int, Module), at: seq<nat>)
    requires MembersAt(g, front, at) && Signature(x.1) != g.sig
    ensures MembersAt(g, front + [x], at)
  {
    forall p: nat | p < |front + [x]| ensures p in at <==> Signature((front + [x])[p].1) == g.sig {
      if p < |front| { assert (front + [x])[p] == front[p]; }
    }
  }

  lemma OneMoreMember(g: Group, front: seq<(int, Module)>, x: (int, Module), at: seq<nat>)
    requires MembersAt(g, front, at) && Signature(x.1) == g.sig
    ensures MembersAt(Group(g.sig, g.members + [x]), front + [x], at + [|front|])
  {
    var numbered, at', more := front + [x], at + [|front|], Group(g.sig, g.members + [x]);
    forall p: nat | p < |numbered| ensures p in at' <==> Signature(numbered[p].1) == more.sig {
      if p < |front| { assert numbered[p] == front[p]; }
    }
    forall t | 0 <= t < |at'| ensures at'[t] < |numbered| && more.members[t] == numbered[at'[t]] {
      if t < |at| { assert numbered[at[t]] == front[at[t]]; }
    }
  }

  lemma FirstMember(front: seq<(int, Module)>, x: (int, Module))
    requires forall y <- front :: Signature(y.1) != Signature(x.1)
    ensures MembersAt(Group(Signature(x.1), [x]), front + [x], [|front|])
  {
    forall p: nat | p < |front + [x]| ensures p in [|front|] <==> Signature((front + [x])[p].1) == Signature(x.1) {
      if p < |front| { assert front[p] in front; }
    }
  }

  /** No group has the signature, so no child so far has it. */
  lemma NoneOfSignature(front: seq<(int, Module)>, sig: string)
    requires forall h <- GroupsOf(front) :: h.sig != sig
    ensures forall y <- front :: Signature(y.1) != sig
  {
    forall y | y in front ensures Signature(y.1) != sig {
      GroupsHaveMembers(front, y);
      GroupsAreOk(front);
      var h :| h in GroupsOf(front) && y in h.members;
    }
  }

  lemma {:induction false} GroupAt(numbered: seq<(int, Module)>, g: Group) returns (at: seq<nat>)
    requires g in GroupsOf(numbered)
    ensures MembersAt(g, numbered, at)
    decreases |numbered|
  {
    var front, x := numbered[..|numbered| - 1], numbered[|numbered| - 1];
    var sig := Signature(x.1);
    assert numbered == front + [x];
    GroupsHaveMembers(front, x);
    AfterAddMember(GroupsOf(front), sig, x, g);
    if g in GroupsOf(front) && g.sig != sig {
      at := GroupAt(front, g);
      OtherMember(g, front, x, at);
    } else if h :| h in GroupsOf(front) && h.sig == sig && g == Group(sig, h.members + [x]) {
      at := GroupAt(front, h);
      OneMoreMember(h, front, x, at);
      at := at + [|front|];
    } else {
      NoneOfSignature(front, sig);
      FirstMember(front, x);
      at := [|front|];
    }
  }

  /** `at` are the positions of all numbered children with one signature, in order. */
  ghost predicate OneSignature(children: seq<(Key, Module)>, at: seq<nat>) {
    && at != [] && Ascending(at)
    && (forall t :: 0 <= t < |at| ==> at[t] < |children|)
    && forall p: nat :: p < |children| ==>
         (p in at <==> children[p].0.Index? && Signature(children[p].1) == Signature(children[at[0]].1))
  }

  /** The block of a group: its first child's, under the indices of all of them in order. */
  ghost predicate PrintsGroup(children: seq<(Key, Module)>, at: seq<nat>, b: Block)
    requires OneSignature(children, at)
  {
    && b.tag.Grouped? && |b.tag.indices| == |at|
    && (forall t :: 0 <= t < |at| ==> children[at[t]].0.Index? && b.tag.indices[t] == children[at[t]].0.i)
    && b == Collapse(children[at[0]].1, b.tag)
  }

  /** From positions among the numbered children to positions among all. */
  lemma Through(children: seq<(Key, Module)>, all: seq<nat>, numbered: seq<(int, Module)>, g: Group, at: seq<nat>, there: seq<nat>)
    requires PositionsOf(children, all, true) && NumberedFrom(children, all, numbered)
    requires GroupOk(g) && MembersAt(g, numbered, at)
    requires |there| == |at| && forall t :: 0 <= t < |at| ==> there[t] == all[at[t]]
    ensures OneSignature(children, there)
    ensures forall t :: 0 <= t < |at| ==> children[there[t]].0.Index? && g.members[t] == (children[there[t]].0.i, children[there[t]].1)
    ensures Signature(children[there[0]].1) == g.sig
  {
    assert g.members[0] in g.members;
    forall p: nat | p < |children|
      ensures p in there <==> children[p].0.Index? && Signature(children[p].1) == Signature(children[there[0]].1)
    {
      InThrough(children, all, numbered, g, at, there, p);
    }
  }

  lemma InThrough(children: seq<(Key, Module)>, all: seq<nat>, numbered: seq<(int, Module)>, g: Group, at: seq<nat>, there: seq<nat>, p: nat)
    requires PositionsOf(children, all, true) && NumberedFrom(children, all, numbered) && p < |children|
    requires MembersAt(g, numbered, at)
    requires |there| == |at| && forall t :: 0 <= t < |at| ==> there[t] == all[at[t]]
    ensures p in there <==> children[p].0.Index? && Signature(children[p].1) == g.sig
  {
    if p in there {
      var t :| 0 <= t < |there| && there[t] == p;
      assert at[t] in at;
    }
    if children[p].0.Index? && Signature(children[p].1) == g.sig {
      var k :| 0 <= k < |all| && all[k] == p;
      assert k in at;
      var t :| 0 <= t < |at| && at[t] == k;
      assert there[t] == p;
    }
  }

  lemma GroupPrinted(m: Module, g: Group, b: Block, indices: seq<int>) returns (there: seq<nat>)
    requires g in SortedGroups(m) && g.members != [] && indices == Indices(g.members)
    requires b == Collapse(g.members[0].1, Grouped(indices)) && b.tag == Grouped(indices)
    ensures GroupIsAt(m, b, g, there)
  {
    var numbered := Numbered(m.children);
    GroupsAreOk(numbered);
    var all := NumberedAt(m.children, numbered);
    var at := GroupAt(numbered, g);
    there := seq(|at|, t requires 0 <= t < |at| => all[at[t]]);
    Through(m.children, all, numbered, g, at, there);
    PrintedAt(m.children, there, g, b, indices);
  }

  lemma PrintedAt(children: seq<(Key, Module)>, there: seq<nat>, g: Group, b: Block, indices: seq<int>)
    requires OneSignature(children, there) && |there| == |g.members| && indices == Indices(g.members)
    requires forall t :: 0 <= t < |there| ==> children[there[t]].0.Index? && g.members[t] == (children[there[t]].0.i, children[there[t]].1)
    requires b == Collapse(g.members[0].1, Grouped(indices)) && b.tag == Grouped(indices)
    ensures PrintsGroup(children, there, b)
  {}

  lemma GroupBlock(m: Module, tag: Label, k: nat)
    requires k < |SortedGroups(m)| <= |Collapse(m, tag).subs| && SortedGroups(m)[k].members != []
    ensures var g := SortedGroups(m)[k];
            && Collapse(m, tag).subs[k] == Collapse(g.members[0].1, Grouped(Indices(g.members)))
            && Collapse(m, tag).subs[k].tag == Grouped(Indices(g.members))
  {
    ChildrenAreSmaller(m, m.children);
    GroupsAreOk(Numbered(m.children));
    var gs := SortedGroups(m);
    var bs := CollapseGroups(m, gs);
    assert Collapse(m, tag).subs == bs + CollapseOthers(m, Others(m.children));
    CollapseGroupsAt(m, gs, k, bs, gs[k], Collapse(gs[k].members[0].1, Grouped(Indices(gs[k].members))));
  }

  /** The groups come first, each with all numbered children of one signature, by the index of
      the first of them. */
  ghost predicate GroupsFirst(m: Module, subs: seq<Block>, groups: seq<seq<nat>>) {
    && |groups| <= |subs|
    && (forall k :: 0 <= k < |groups| ==> OneSignature(m.children, groups[k]) && PrintsGroup(m.children, groups[k], subs[k]))
    && (forall k, l :: 0 <= k < l < |groups| ==>
          && Signature(m.children[groups[k][0]].1) != Signature(m.children[groups[l][0]].1)
          && m.children[groups[k][0]].0.i <= m.children[groups[l][0]].0.i)
    && forall p: nat :: p < |m.children| && m.children[p].0.Index? ==> exists k :: 0 <= k < |groups| && p in groups[k]
  }

  lemma {:induction false} GroupPositions(m: Module, tag: Label, gs: seq<Group>, subs: seq<Block>, n: nat) returns (groups: seq<seq<nat>>)
    requires gs == SortedGroups(m) && subs == Collapse(m, tag).subs && n <= |gs| <= |subs|
    ensures |groups| == n && forall k :: 0 <= k < n ==> GroupIsAt(m, subs[k], gs[k], groups[k])
    decreases n
  {
    if n == 0 {
      groups := [];
    } else {
      var before := GroupPositions(m, tag, gs, subs, n - 1);
      var at := NextGroup(m, tag, gs, subs, n - 1);
      groups := before + [at];
      forall k | 0 <= k < n ensures GroupIsAt(m, subs[k], gs[k], groups[k]) {
        if k < n - 1 {
          SameGroupAt(m, subs[k], gs[k], before[k], groups[k]);
        } else {
          SameGroupAt(m, subs[k], gs[k], at, groups[k]);
        }
      }
    }
  }

  lemma SameGroupAt(m: Module, b: Block, g: Group, at: seq<nat>, at': seq<nat>)
    requires GroupIsAt(m, b, g, at) && at' == at
    ensures GroupIsAt(m, b, g, at')
  {}

  lemma NextGroup(m: Module, tag: Label, gs: seq<Group>, subs: seq<Block>, k: nat) returns (at: seq<nat>)
    requires gs == SortedGroups(m) && subs == Collapse(m, tag).subs && k < |gs| <= |subs|
    ensures GroupIsAt(m, subs[k], gs[k], at)
  {
    GroupsAreOk(Numbered(m.children));
    assert gs[k] in gs;
    GroupBlock(m, tag, k);
    at := GroupPrinted(m, gs[k], subs[k], Indices(gs[k].members));
  }

  ghost predicate GroupIsAt(m: Module, b: Block, g: Group, at: seq<nat>) {
    && OneSignature(m.children, at) && PrintsGroup(m.children, at, b)
    && m.children[at[0]].0.Index? && Signature(m.children[at[0]].1) == g.sig && m.children[at[0]].0.i == FirstIndex(g)
  }

  /** The layout of a printout: groups by their first index, then the named children in order. */
  lemma Layout(m: Module, tag: Label) returns (groups: seq<seq<nat>>, named: seq<nat>)
    ensures |Collapse(m, tag).subs| == |groups| + |named|
    ensures GroupsFirst(m, Collapse(m, tag).subs, groups)
    ensures NamedLast(m, Collapse(m, tag).subs, named)
  {
    named := NamedInOrder(m, tag);
    groups := GroupPositions(m, tag, SortedGroups(m), Collapse(m, tag).subs, |SortedGroups(m)|);
    var gs, subs := SortedGroups(m), Collapse(m, tag).subs;
    forall k, l | 0 <= k < l < |groups|
      ensures Signature(m.children[groups[k][0]].1) != Signature(m.children[groups[l][0]].1)
      ensures m.children[groups[k][0]].0.i <= m.children[groups[l][0]].0.i
    {
      GroupsApart(m, gs, subs[k], subs[l], groups[k], groups[l], k, l);
    }
    forall p: nat | p < |m.children| && m.children[p].0.Index? ensures exists k :: 0 <= k < |groups| && p in groups[k] {
      var k := GroupOfChild(m, p);
      InItsGroup(m, subs[k], gs[k], groups[k], p);
    }
  }

  lemma GroupsApart(m: Module, gs: seq<Group>, a: Block, b: Block, at: seq<nat>, bt: seq<nat>, k: nat, l: nat)
    requires gs == SortedGroups(m) && k < l < |gs| && GroupIsAt(m, a, gs[k], at) && GroupIsAt(m, b, gs[l], bt)
    ensures Signature(m.children[at[0]].1) != Signature(m.children[bt[0]].1)
    ensures m.children[at[0]].0.i <= m.children[bt[0]].0.i
  {
    GroupsInOrder(m, k, l);
    SortedSignatures(m, k, l);
  }

  lemma InItsGroup(m: Module, b: Block, g: Group, at: seq<nat>, p: nat)
    requires GroupIsAt(m, b, g, at) && p < |m.children| && m.children[p].0.Index? && Signature(m.children[p].1) == g.sig
    ensures p in at
  {}

  lemma GroupOfChild(m: Module, p: nat) returns (k: nat)
    requires p < |m.children| && m.children[p].0.Index?
    ensures k < |SortedGroups(m)| && SortedGroups(m)[k].sig == Signature(m.children[p].1)
  {
    var numbered := Numbered(m.children);
    var all := NumberedAt(m.children, numbered);
    var j :| 0 <= j < |all| && all[j] == p;
    assert numbered[j] in numbered;
    var g := OneGroupPerSignature(m, numbered[j]);
    GroupsAreOk(numbered);
    k :| 0 <= k < |SortedGroups(m)| && SortedGroups(m)[k] == g;
  }

  lemma SortedSignatures(m: Module, k: nat, l: nat)
    requires k < l < |SortedGroups(m)|
    ensures SortedGroups(m)[k].sig != SortedGroups(m)[l].sig
  {
    var numbered := Numbered(m.children);
    var gs, sorted := GroupsOf(numbered), SortedGroups(m);
    GroupsAreOk(numbered);
    assert sorted[k] in gs && sorted[k].members != [];
    GroupsHaveMembers(numbered, sorted[k].members[0]);
    if sorted[k].sig == sorted[l].sig {
      SameSignatureSameGroup(gs, sorted[k], sorted[l]);
      TwiceInSorted(gs, sorted, k, l);
    }
  }

  lemma SameSignatureSameGroup(gs: seq<Group>, g: Group, h: Group)
    requires DistinctSignatures(gs) && g in gs && h in gs && g.sig == h.sig
    ensures g == h
  {
    var i :| 0 <= i < |gs| && gs[i] == g;
    var j :| 0 <= j < |gs| && gs[j] == h;
  }

  lemma TwiceInSorted(gs: seq<Group>, sorted: seq<Group>, k: nat, l: nat)
    requires DistinctSignatures(gs) && multiset(sorted) == multiset(gs) && k < l < |sorted|
    ensures sorted[k] != sorted[l]
  {
    forall g | g in sorted ensures multiset(sorted)[g] <= 1 {
      CountsFromDistinct(gs, g);
    }
    DistinctFromCounts(sorted);
  }
}
