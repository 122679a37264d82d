/**
 The module tree printer (vllm/vllm/model_inspection.py, _format_module_tree): numbered children
 with the same signature are printed once, under the list of their indices.

 A `Block` is a printout before it becomes lines. `Collapse` says which blocks are printed,
 `Render` how they look, and `FormatModuleTree` produces exactly those lines.
 */
module ModuleTree {
  import opened Sorting
  import opened ModuleSignature

  datatype Label = Named(name: string) | Grouped(indices: seq<int>)

  datatype Block = Block(tag: Label, info: string, subs: seq<Block>)

  /** Numbered children that share a signature. */
  datatype Group = Group(sig: string, members: seq<(int, Module)>)

  // ----- Numbered and other children -----

  function Numbered(children: seq<(Key, Module)>): seq<(int, Module)> {
    if children == [] then []
    else
      var last := children[|children| - 1];
      Numbered(children[..|children| - 1]) + if last.0.Index? then [(last.0.i, last.1)] else []
  }

  function Others(children: seq<(Key, Module)>): seq<(string, Module)> {
    if children == [] then []
    else
      var last := children[|children| - 1];
      Others(children[..|children| - 1]) + if last.0.Name? then [(last.0.name, last.1)] else []
  }

  // ----- Groups -----

  /** Adds to the first group of that signature, or opens a new one at the end. */
  function AddMember(gs: seq<Group>, sig: string, x: (int, Module)): seq<Group> {
    if gs == [] then [Group(sig, [x])]
    else if gs[0].sig == sig then [Group(sig, gs[0].members + [x])] + gs[1..]
    else [gs[0]] + AddMember(gs[1..], sig, x)
  }

  function GroupsOf(numbered: seq<(int, Module)>): seq<Group> {
    if numbered == [] then []
    else
      var last := numbered[|numbered| - 1];
      AddMember(GroupsOf(numbered[..|numbered| - 1]), Signature(last.1), last)
  }

  function FirstIndex(g: Group): int {
    if g.members == [] then 0 else g.members[0].0
  }

  predicate NotAfter(a: Group, b: Group) {
    FirstIndex(a) <= FirstIndex(b)
  }

  function ByFirstIndex(gs: seq<Group>): (r: seq<Group>)
    ensures multiset(r) == multiset(gs) && |r| == |gs|
    ensures (forall g <- r :: g in gs) && (forall g <- gs :: g in r)
  {
    SortMembers(gs, NotAfter);
    Sort(gs, NotAfter)
  }

  /** The groups of a module's numbered children, in the order in which they are printed. */
  function SortedGroups(m: Module): seq<Group> {
    ByFirstIndex(GroupsOf(Numbered(m.children)))
  }

  /** Groups are printed in the order of the indices of their first members. */
  lemma GroupsInOrder(m: Module, i: nat, j: nat)
    requires i < j < |SortedGroups(m)|
    ensures FirstIndex(SortedGroups(m)[i]) <= FirstIndex(SortedGroups(m)[j])
  {
    SortSorts(GroupsOf(Numbered(m.children)), NotAfter);
  }

  function Indices(members: seq<(int, Module)>): seq<int> {
    seq(|members|, i requires 0 <= i < |members| => members[i].0)
  }

  /** A group is never empty and all its members carry its signature. */
  ghost predicate GroupOk(g: Group) {
    g.members != [] && forall x <- g.members :: Signature(x.1) == g.sig
  }

  ghost predicate MembersFrom(g: Group, numbered: seq<(int, Module)>) {
    forall x <- g.members :: x in numbered
  }

  lemma {:induction false} AddMemberKeeps(gs: seq<Group>, x: (int, Module), numbered: seq<(int, Module)>)
    requires forall g <- gs :: GroupOk(g) && MembersFrom(g, numbered)
    requires x in numbered
    ensures forall g <- AddMember(gs, Signature(x.1), x) :: GroupOk(g) && MembersFrom(g, numbered)
    decreases |gs|
  {
    if gs != [] {
      assert gs[0] in gs;
      assert forall g <- gs[1..] :: g in gs;
      AddMemberKeeps(gs[1..], x, numbered);
    }
  }

  lemma {:induction false} GroupsAreOk(numbered: seq<(int, Module)>)
    ensures forall g <- GroupsOf(numbered) :: GroupOk(g) && MembersFrom(g, numbered)
    decreases |numbered|
  {
    if numbered != [] {
      var front, last := numbered[..|numbered| - 1], numbered[|numbered| - 1];
      GroupsAreOk(front);
      assert forall x <- front :: x in numbered;
      AddMemberKeeps(GroupsOf(front), last, numbered);
    }
  }

  lemma {:induction false} ChildrenAreSmaller(m: Module, children: seq<(Key, Module)>)
    requires forall c <- children :: c.1 < m
    ensures forall x <- Numbered(children) :: x.1 < m
    ensures forall x <- Others(children) :: x.1 < m
    decreases |children|
  {
    if children != [] {
      ChildrenAreSmaller(m, children[..|children| - 1]);
    }
  }

  ghost predicate DistinctSignatures(gs: seq<Group>) {
    forall i, j :: 0 <= i < j < |gs| ==> gs[i].sig != gs[j].sig
  }

  ghost predicate HasMember(gs: seq<Group>, x: (int, Module)) {
    exists g <- gs :: x in g.members
  }

  lemma {:induction false} NoOtherSignature(gs: seq<Group>, sig: string, x: (int, Module), other: string)
    requires sig != other && forall g <- gs :: g.sig != other
    ensures forall g <- AddMember(gs, sig, x) :: g.sig != other
    decreases |gs|
  {
    if gs != [] && gs[0].sig != sig {
      NoOtherSignature(gs[1..], sig, x, other);
    }
  }

  lemma {:induction false} SignaturesStayDistinct(gs: seq<Group>, sig: string, x: (int, Module))
    requires DistinctSignatures(gs)
    ensures DistinctSignatures(AddMember(gs, sig, x))
    decreases |gs|
  {
    if gs != [] && gs[0].sig != sig {
      SignaturesStayDistinct(gs[1..], sig, x);
      NoOtherSignature(gs[1..], sig, x, gs[0].sig);
      var tail := AddMember(gs[1..], sig, x);
      assert forall j :: 0 <= j < |tail| ==> tail[j] in tail;
    }
  }

  lemma {:induction false} AddMemberAdds(gs: seq<Group>, sig: string, x: (int, Module), y: (int, Module))
    ensures HasMember(AddMember(gs, sig, x), y) <==> y == x || HasMember(gs, y)
    decreases |gs|
  {
    var after := AddMember(gs, sig, x);
    if gs == [] {
      assert after[0] in after && after[0].members[0] == x;
    } else if gs[0].sig == sig {
      assert after == [Group(sig, gs[0].members + [x])] + gs[1..] && gs == [gs[0]] + gs[1..];
      assert forall g :: g in after <==> g == Group(sig, gs[0].members + [x]) || g in gs[1..];
    } else {
      AddMemberAdds(gs[1..], sig, x, y);
      assert gs == [gs[0]] + gs[1..];
      assert forall g :: g in after <==> g == gs[0] || g in AddMember(gs[1..], sig, x);
    }
  }

  lemma {:induction false} GroupsHaveMembers(numbered: seq<(int, Module)>, y: (int, Module))
    ensures DistinctSignatures(GroupsOf(numbered))
    ensures HasMember(GroupsOf(numbered), y) <==> y in numbered
    decreases |numbered|
  {
    if numbered != [] {
      var front, last := numbered[..|numbered| - 1], numbered[|numbered| - 1];
      GroupsHaveMembers(front, y);
      SignaturesStayDistinct(GroupsOf(front), Signature(last.1), last);
      AddMemberAdds(GroupsOf(front), Signature(last.1), last, y);
      assert numbered == front + [last];
    }
  }

  /** Two children are printed as one exactly when their signatures are equal: every numbered
      child is in one group, and all children of its signature are in that one. */
  lemma OneGroupPerSignature(m: Module, x: (int, Module)) returns (g: Group)
    requires x in Numbered(m.children)
    ensures g in SortedGroups(m) && x in g.members
    ensures forall h <- SortedGroups(m) :: x in h.members ==> h == g
    ensures forall y <- Numbered(m.children) :: y in g.members <==> Signature(y.1) == Signature(x.1)
  {
    var numbered := Numbered(m.children);
    var gs := GroupsOf(numbered);
    GroupsAreOk(numbered);
    GroupsHaveMembers(numbered, x);
    g :| g in gs && x in g.members;
    forall h | h in gs && h.sig == g.sig ensures h == g {
      var i :| 0 <= i < |gs| && gs[i] == g;
      var j :| 0 <= j < |gs| && gs[j] == h;
    }
    forall y | y in numbered ensures y in g.members <==> Signature(y.1) == Signature(x.1) {
      GroupsHaveMembers(numbered, y);
      var h :| h in gs && y in h.members;
    }
  }

  // ----- Collapsing -----

  function Collapse(m: Module, tag: Label): Block
    decreases m, 1
  {
    ChildrenAreSmaller(m, m.children);
    GroupsAreOk(Numbered(m.children));
    Block(tag, m.info,
      CollapseGroups(m, SortedGroups(m)) + CollapseOthers(m, Others(m.children)))
  }

  function CollapseGroups(ghost m: Module, gs: seq<Group>): (bs: seq<Block>)
    requires forall g <- gs :: g.members != [] && g.members[0].1 < m
    ensures |bs| == |gs|
    decreases m, 0, |gs|
  {
    if gs == [] then []
    else
      assert gs[0] in gs;
      [Collapse(gs[0].members[0].1, Grouped(Indices(gs[0].members)))] + CollapseGroups(m, gs[1..])
  }

  function CollapseOthers(ghost m: Module, others: seq<(string, Module)>): (bs: seq<Block>)
    requires forall x <- others :: x.1 < m
    ensures |bs| == |others|
    decreases m, 0, |others|
  {
    if others == [] then []
    else
      assert others[0] in others;
      [Collapse(others[0].1, Named(others[0].0))] + CollapseOthers(m, others[1..])
  }

  // ----- Nothing is lost by collapsing -----

  /** How often `info` stands at `path` in a module. */
  function Count(m: Module, path: seq<Key>, info: string): nat
    decreases |path|, 0
  {
    if path == [] then (if m.info == info then 1 else 0) else CountAmong(m.children, path, info)
  }

  function CountAmong(children: seq<(Key, Module)>, path: seq<Key>, info: string): nat
    requires path != []
    decreases |path| - 1, 1, |children|
  {
    if children == [] then 0
    else
      var last := children[|children| - 1];
      CountAmong(children[..|children| - 1], path, info) + if last.0 == path[0] then Count(last.1, path[1..], info) else 0
  }

  /** How often `info` stands at `path` in a printout, each index of a group standing for one
      copy of what is printed below it. */
  function BlockCount(b: Block, path: seq<Key>, info: string): nat
    decreases |path|, 0
  {
    if path == [] then (if b.info == info then 1 else 0) else BlockCountAmong(b.subs, path, info)
  }

  function BlockCountAmong(bs: seq<Block>, path: seq<Key>, info: string): nat
    requires path != []
    decreases |path| - 1, 1, |bs|
  {
    if bs == [] then 0
    else Copies(bs[0].tag, path[0]) * BlockCount(bs[0], path[1..], info) + BlockCountAmong(bs[1..], path, info)
  }

  function Copies(tag: Label, k: Key): nat {
    match tag
    case Named(name) => if k == Name(name) then 1 else 0
    case Grouped(indices) => if k.Index? then multiset(indices)[k.i] else 0
  }

  function CountMembers(members: seq<(int, Module)>, k: Key, rest: seq<Key>, info: string): nat {
    if members == [] then 0
    else
      var last := members[|members| - 1];
      CountMembers(members[..|members| - 1], k, rest, info) + if k == Index(last.0) then Count(last.1, rest, info) else 0
  }

  function CountOthers(others: seq<(string, Module)>, k: Key, rest: seq<Key>, info: string): nat {
    if others == [] then 0
    else (if k == Name(others[0].0) then Count(others[0].1, rest, info) else 0) + CountOthers(others[1..], k, rest, info)
  }

  function CountGroups(gs: seq<Group>, k: Key, rest: seq<Key>, info: string): nat {
    if gs == [] then 0 else CountMembers(gs[0].members, k, rest, info) + CountGroups(gs[1..], k, rest, info)
  }

  lemma {:induction false} CountOthersSnoc(others: seq<(string, Module)>, x: (string, Module), k: Key, rest: seq<Key>, info: string)
    ensures CountOthers(others + [x], k, rest, info)
         == CountOthers(others, k, rest, info) + if k == Name(x.0) then Count(x.1, rest, info) else 0
    decreases |others|
  {
    if others == [] {
      assert others + [x] == [x];
    } else {
      assert (others + [x])[1..] == others[1..] + [x];
      CountOthersSnoc(others[1..], x, k, rest, info);
    }
  }

  lemma CountMembersSnoc(members: seq<(int, Module)>, x: (int, Module), k: Key, rest: seq<Key>, info: string)
    ensures CountMembers(members + [x], k, rest, info)
         == CountMembers(members, k, rest, info) + if k == Index(x.0) then Count(x.1, rest, info) else 0
  {
    assert (members + [x])[..|members|] == members;
  }

  lemma {:induction false} CountSplits(children: seq<(Key, Module)>, path: seq<Key>, info: string)
    requires path != []
    ensures CountAmong(children, path, info)
         == CountMembers(Numbered(children), path[0], path[1..], info) + CountOthers(Others(children), path[0], path[1..], info)
    decreases |children|
  {
    if children != [] {
      var front, last := children[..|children| - 1], children[|children| - 1];
      CountSplits(front, path, info);
      if last.0.Index? {
        assert Others(children) == Others(front) && last.0 == Index(last.0.i);
        CountMembersSnoc(Numbered(front), (last.0.i, last.1), path[0], path[1..], info);
      } else {
        assert Numbered(children) == Numbered(front) && last.0 == Name(last.0.name);
        CountOthersSnoc(Others(front), (last.0.name, last.1), path[0], path[1..], info);
      }
    }
  }

  lemma {:induction false} CountAddMember(gs: seq<Group>, sig: string, x: (int, Module), k: Key, rest: seq<Key>, info: string)
    ensures CountGroups(AddMember(gs, sig, x), k, rest, info)
         == CountGroups(gs, k, rest, info) + if k == Index(x.0) then Count(x.1, rest, info) else 0
    decreases |gs|
  {
    CountMembersSnoc([], x, k, rest, info);
    assert [] + [x] == [x];
    if gs != [] {
      if gs[0].sig == sig {
        CountMembersSnoc(gs[0].members, x, k, rest, info);
      } else {
        CountAddMember(gs[1..], sig, x, k, rest, info);
      }
    }
  }

  /** Every numbered child is in the groups, and exactly once. */
  lemma {:induction false} GroupsCountAll(numbered: seq<(int, Module)>, k: Key, rest: seq<Key>, info: string)
    ensures CountGroups(GroupsOf(numbered), k, rest, info) == CountMembers(numbered, k, rest, info)
    decreases |numbered|
  {
    if numbered != [] {
      var front, last := numbered[..|numbered| - 1], numbered[|numbered| - 1];
      GroupsCountAll(front, k, rest, info);
      CountAddMember(GroupsOf(front), Signature(last.1), last, k, rest, info);
    }
  }

  lemma {:induction false} CountGroupsSplit(gs: seq<Group>, i: nat, k: Key, rest: seq<Key>, info: string)
    requires i < |gs|
    ensures CountGroups(gs, k, rest, info)
         == CountMembers(gs[i].members, k, rest, info) + CountGroups(gs[..i] + gs[i + 1..], k, rest, info)
    decreases i
  {
    if i == 0 {
      assert gs[..0] + gs[1..] == gs[1..];
    } else {
      CountGroupsSplit(gs[1..], i - 1, k, rest, info);
      assert (gs[..i] + gs[i + 1..])[1..] == gs[1..][..i - 1] + gs[1..][i..];
    }
  }

  lemma {:induction false} CountGroupsPermuted(gs: seq<Group>, hs: seq<Group>, k: Key, rest: seq<Key>, info: string)
    requires multiset(gs) == multiset(hs)
    ensures CountGroups(gs, k, rest, info) == CountGroups(hs, k, rest, info)
    decreases |gs|
  {
    if gs == [] {
      assert |multiset(hs)| == |hs| == 0;
    } else {
      var i := FindFirst(gs, hs);
      CountGroupsSplit(hs, i, k, rest, info);
      CountGroupsPermuted(gs[1..], hs[..i] + hs[i + 1..], k, rest, info);
    }
  }

  /** The members of a group are the same module, so one copy stands for all of them. */
  lemma {:induction false} MembersAreCopies(members: seq<(int, Module)>, rep: Module, k: Key, rest: seq<Key>, info: string)
    requires forall x <- members :: x.1 == rep
    ensures CountMembers(members, k, rest, info) == Copies(Grouped(Indices(members)), k) * Count(rep, rest, info)
    decreases |members|
  {
    if members == [] {
      assert Copies(Grouped(Indices(members)), k) == 0;
    } else {
      var front, last := members[..|members| - 1], members[|members| - 1];
      MembersAreCopies(front, rep, k, rest, info);
      assert Indices(members) == Indices(front) + [last.0];
      CopiesSnoc(Indices(front), last.0, k);
      OneMoreCopy(Copies(Grouped(Indices(front)), k), k == Index(last.0), Count(rep, rest, info));
    }
  }

  lemma CopiesSnoc(indices: seq<int>, i: int, k: Key)
    ensures Copies(Grouped(indices + [i]), k) == Copies(Grouped(indices), k) + if k == Index(i) then 1 else 0
  {}

  lemma OneMoreCopy(n: nat, more: bool, c: nat)
    ensures (n + if more then 1 else 0) * c == n * c + if more then c else 0
  {}

  lemma BlockCountCons(b: Block, bs: seq<Block>, path: seq<Key>, info: string)
    requires path != []
    ensures BlockCountAmong([b] + bs, path, info)
         == Copies(b.tag, path[0]) * BlockCount(b, path[1..], info) + BlockCountAmong(bs, path, info)
  {
    assert ([b] + bs)[1..] == bs;
  }

  lemma {:induction false} GroupsCollapse(m: Module, gs: seq<Group>, path: seq<Key>, info: string)
    requires path != []
    requires forall g <- gs :: GroupOk(g) && g.members != [] && g.members[0].1 < m && forall x <- g.members :: Plain(x.1)
    ensures BlockCountAmong(CollapseGroups(m, gs), path, info) == CountGroups(gs, path[0], path[1..], info)
    decreases |path|, 0, |gs|
  {
    if gs != [] {
      var g := gs[0];
      assert g in gs;
      var rep := g.members[0].1;
      forall x | x in g.members ensures x.1 == rep {
        assert g.members[0] in g.members;
        SignatureIsInjective(x.1, rep);
      }
      CollapseIsLossless(rep, Grouped(Indices(g.members)), path[1..], info);
      MembersAreCopies(g.members, rep, path[0], path[1..], info);
      GroupsCollapse(m, gs[1..], path, info);
      BlockCountCons(Collapse(rep, Grouped(Indices(g.members))), CollapseGroups(m, gs[1..]), path, info);
    }
  }

  lemma {:induction false} OthersCollapse(m: Module, others: seq<(string, Module)>, path: seq<Key>, info: string)
    requires path != [] && forall x <- others :: x.1 < m && Plain(x.1)
    ensures BlockCountAmong(CollapseOthers(m, others), path, info) == CountOthers(others, path[0], path[1..], info)
    decreases |path|, 0, |others|
  {
    if others != [] {
      assert others[0] in others;
      CollapseIsLossless(others[0].1, Named(others[0].0), path[1..], info);
      OthersCollapse(m, others[1..], path, info);
      BlockCountCons(Collapse(others[0].1, Named(others[0].0)), CollapseOthers(m, others[1..]), path, info);
    }
  }

  lemma {:induction false} BlockCountAppend(a: seq<Block>, b: seq<Block>, path: seq<Key>, info: string)
    requires path != []
    ensures BlockCountAmong(a + b, path, info) == BlockCountAmong(a, path, info) + BlockCountAmong(b, path, info)
    decreases |a|
  {
    if a == [] {
      assert a + b == b;
    } else {
      assert (a + b)[1..] == a[1..] + b;
      BlockCountAppend(a[1..], b, path, info);
    }
  }

  lemma {:induction false} PlainChildren(children: seq<(Key, Module)>)
    requires forall c <- children :: Plain(c.1)
    ensures forall x <- Numbered(children) :: Plain(x.1)
    ensures forall x <- Others(children) :: Plain(x.1)
    decreases |children|
  {
    if children != [] {
      PlainChildren(children[..|children| - 1]);
    }
  }

  lemma SortedGroupsOk(m: Module)
    requires Plain(m)
    ensures forall g <- SortedGroups(m) ::
              GroupOk(g) && g.members != [] && g.members[0].1 < m && forall x <- g.members :: Plain(x.1)
  {
    ChildrenAreSmaller(m, m.children);
    GroupsAreOk(Numbered(m.children));
    PlainChildren(m.children);
  }

  lemma GroupsHoldTheChildren(m: Module, path: seq<Key>, info: string)
    requires path != []
    ensures Count(m, path, info)
         == CountGroups(SortedGroups(m), path[0], path[1..], info) + CountOthers(Others(m.children), path[0], path[1..], info)
  {
    var numbered := Numbered(m.children);
    CountSplits(m.children, path, info);
    GroupsCountAll(numbered, path[0], path[1..], info);
    CountGroupsPermuted(SortedGroups(m), GroupsOf(numbered), path[0], path[1..], info);
  }

  /** The main theorem: expanding every "N x" group of the printout gives the module back. Every
      info stands at every path as often as in the module, so nothing is dropped, duplicated or
      attributed to the wrong index. */
  lemma {:induction false} CollapseIsLossless(m: Module, tag: Label, path: seq<Key>, info: string)
    requires Plain(m)
    ensures BlockCount(Collapse(m, tag), path, info) == Count(m, path, info)
    decreases |path|, 1
  {
    if path != [] {
      var gs, others := SortedGroups(m), Others(m.children);
      ChildrenAreSmaller(m, m.children);
      PlainChildren(m.children);
      SortedGroupsOk(m);
      GroupsHoldTheChildren(m, path, info);
      GroupsCollapse(m, gs, path, info);
      OthersCollapse(m, others, path, info);
      BlockCountAppend(CollapseGroups(m, gs), CollapseOthers(m, others), path, info);
    }
  }
}
