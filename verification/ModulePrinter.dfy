/**
 The lines of the module tree (vllm/vllm/model_inspection.py, _format_module_tree).
 */
module ModulePrinter {
  import opened IndexRanges
  import opened ModuleSignature
  import opened ModuleTree

  function Spaces(indent: nat): string {
    if indent == 0 then "" else "  " + Spaces(indent - 1)
  }

  function TagText(tag: Label): string {
    match tag
    case Named(name) => if name == "" then "" else "(" + name + "): "
    case Grouped(indices) =>
      if |indices| > 1 then "(" + IndexText(indices) + "): " + Str(|indices|) + " x "
      else if |indices| == 1 then "(" + Str(indices[0]) + "): "
      else ""
  }

  function FirstText(b: Block): string {
    b.info + if b.subs == [] then "" else "("
  }

  /** A block as lines: one for a leaf, otherwise an opening line, the blocks below, a closing line. */
  function Render(b: Block, indent: nat): (lines: seq<string>)
    ensures lines != []
    decreases b, 1
  {
    [Spaces(indent) + TagText(b.tag) + FirstText(b)] +
    if b.subs == [] then [] else RenderAll(b.subs, indent + 1) + [Spaces(indent) + ")"]
  }

  function RenderAll(bs: seq<Block>, indent: nat): seq<string>
    decreases bs, 0
  {
    if bs == [] then [] else Render(bs[0], indent) + RenderAll(bs[1..], indent)
  }

  lemma {:induction false} RenderAllAppend(a: seq<Block>, b: seq<Block>, indent: nat)
    ensures RenderAll(a + b, indent) == RenderAll(a, indent) + RenderAll(b, indent)
    decreases |a|
  {
    if a == [] {
      assert a + b == b;
    } else {
      assert (a + b)[1..] == a[1..] + b;
      RenderAllAppend(a[1..], b, indent);
    }
  }

  lemma {:induction false} RenderAllTake(bs: seq<Block>, i: nat, indent: nat)
    requires i < |bs|
    ensures RenderAll(bs[..i + 1], indent) == RenderAll(bs[..i], indent) + Render(bs[i], indent)
  {
    assert bs[..i + 1] == bs[..i] + [bs[i]];
    RenderAllAppend(bs[..i], [bs[i]], indent);
    assert RenderAll([bs[i]], indent) == Render(bs[i], indent) + [];
  }

  // ----- The margin of the lines -----

  lemma {:induction false} SpacesAre(indent: nat)
    ensures |Spaces(indent)| == 2 * indent && forall i :: 0 <= i < |Spaces(indent)| ==> Spaces(indent)[i] == ' '
    decreases indent
  {
    if indent > 0 {
      SpacesAre(indent - 1);
    }
  }

  lemma {:induction false} NoLineIsOutdented(b: Block, indent: nat)
    ensures forall line <- Render(b, indent) :: Spaces(indent) <= line
    decreases b, 1
  {
    if b.subs != [] {
      NoLineOfAllIsOutdented(b.subs, indent + 1);
      SpacesAre(indent);
      SpacesAre(indent + 1);
    }
  }

  lemma {:induction false} NoLineOfAllIsOutdented(bs: seq<Block>, indent: nat)
    ensures forall line <- RenderAll(bs, indent) :: Spaces(indent) <= line
    decreases bs, 0
  {
    if bs != [] {
      NoLineIsOutdented(bs[0], indent);
      NoLineOfAllIsOutdented(bs[1..], indent);
    }
  }

  // ----- Stripping the indentation of a first line -----

  predicate IsSpace(c: char) {
    c == ' ' || c == '\t' || c == '\n' || c == '\r'
  }

  function LStrip(s: string): string {
    if s != [] && IsSpace(s[0]) then LStrip(s[1..]) else s
  }

  /** An info starts with the name of a class. */
  ghost predicate Printable(m: Module) {
    m.info != "" && !IsSpace(m.info[0]) && forall c <- m.children :: Printable(c.1)
  }

  lemma {:induction false} StripsIndentation(indent: nat, s: string)
    requires s != "" && !IsSpace(s[0])
    ensures LStrip(Spaces(indent) + s) == s
    decreases indent
  {
    if indent == 0 {
      assert Spaces(indent) + s == s;
    } else {
      var l := Spaces(indent) + s;
      assert l[1..][1..] == Spaces(indent - 1) + s;
      StripsIndentation(indent - 1, s);
    }
  }

  /** Putting a tag in front of the stripped first line gives the tagged block. */
  lemma {:induction false} Retag(b: Block, tag: Label, indent: nat)
    requires b.tag == Named("") && b.info != "" && !IsSpace(b.info[0])
    ensures var bare := Render(b, indent);
            Render(b.(tag := tag), indent) == bare[0 := Spaces(indent) + TagText(tag) + LStrip(bare[0])]
  {
    StripsIndentation(indent, FirstText(b));
    assert Spaces(indent) + TagText(b.tag) == Spaces(indent);
    assert FirstText(b.(tag := tag)) == FirstText(b);
  }

  // ----- The algorithm -----

  method SplitChildren(children: seq<(Key, Module)>) returns (numbered: seq<(int, Module)>, others: seq<(string, Module)>)
    ensures numbered == Numbered(children) && others == Others(children)
  {
    numbered, others := [], [];
    for i := 0 to |children|
      invariant numbered == Numbered(children[..i]) && others == Others(children[..i])
    {
      assert children[..i + 1][..i] == children[..i];
      match children[i].0
      case Index(idx) => numbered := numbered + [(idx, children[i].1)];
      case Name(name) => others := others + [(name, children[i].1)];
    }
    assert children[..|children|] == children;
  }

  method GroupNumbered(numbered: seq<(int, Module)>) returns (groups: seq<Group>)
    ensures groups == ByFirstIndex(GroupsOf(numbered))
  {
    groups := [];
    for i := 0 to |numbered|
      invariant groups == GroupsOf(numbered[..i])
    {
      assert numbered[..i + 1][..i] == numbered[..i];
      groups := AddMember(groups, Signature(numbered[i].1), numbered[i]);
    }
    assert numbered[..|numbered|] == numbered;
    groups := ByFirstIndex(groups);
  }

  lemma FirstGroup(m: Module, gs: seq<Group>, bs: seq<Block>, g: Group, b: Block)
    requires gs != [] && (forall g <- gs :: g.members != [] && g.members[0].1 < m) && bs == CollapseGroups(m, gs)
    requires g == gs[0] && b == Collapse(g.members[0].1, Grouped(Indices(g.members)))
    ensures bs[0] == b
  {}

  lemma OtherGroups(m: Module, gs: seq<Group>, bs: seq<Block>)
    requires gs != [] && (forall g <- gs :: g.members != [] && g.members[0].1 < m) && bs == CollapseGroups(m, gs)
    ensures (forall g <- gs[1..] :: g.members != [] && g.members[0].1 < m) && bs[1..] == CollapseGroups(m, gs[1..])
  {}

  lemma {:induction false} GroupsFrom(m: Module, gs: seq<Group>, i: nat, bs: seq<Block>, rest: seq<Group>)
    requires (forall g <- gs :: g.members != [] && g.members[0].1 < m) && i <= |gs|
    requires bs == CollapseGroups(m, gs) && rest == gs[i..]
    ensures (forall g <- rest :: g.members != [] && g.members[0].1 < m) && bs[i..] == CollapseGroups(m, rest)
    decreases i
  {
    if i == 0 {
      Suffixes(gs, 0);
      Suffixes(bs, 0);
    } else {
      OtherGroups(m, gs, bs);
      Suffixes(gs, i);
      Suffixes(bs, i);
      GroupsFrom(m, gs[1..], i - 1, bs[1..], rest);
    }
  }

  lemma Suffixes<T>(xs: seq<T>, i: nat)
    requires i <= |xs|
    ensures i == 0 ==> xs[i..] == xs
    ensures i > 0 ==> xs[1..][i - 1..] == xs[i..]
  {}

  lemma CollapseGroupsAt(m: Module, gs: seq<Group>, i: nat, bs: seq<Block>, g: Group, b: Block)
    requires (forall g <- gs :: g.members != [] && g.members[0].1 < m) && i < |gs| && g == gs[i]
    requires bs == CollapseGroups(m, gs)
    requires b == Collapse(g.members[0].1, Grouped(Indices(g.members)))
    ensures bs[i] == b
  {
    GroupsFrom(m, gs, i, bs, gs[i..]);
    FirstGroup(m, gs[i..], bs[i..], g, b);
  }

  lemma FirstOther(m: Module, others: seq<(string, Module)>, bs: seq<Block>, x: (string, Module), b: Block)
    requires others != [] && (forall x <- others :: x.1 < m) && bs == CollapseOthers(m, others)
    requires x == others[0] && b == Collapse(x.1, Named(x.0))
    ensures bs[0] == b
  {}

  lemma OtherOthers(m: Module, others: seq<(string, Module)>, bs: seq<Block>)
    requires others != [] && (forall x <- others :: x.1 < m) && bs == CollapseOthers(m, others)
    ensures (forall x <- others[1..] :: x.1 < m) && bs[1..] == CollapseOthers(m, others[1..])
  {}

  lemma {:induction false} OthersFrom(m: Module, others: seq<(string, Module)>, i: nat, bs: seq<Block>, rest: seq<(string, Module)>)
    requires (forall x <- others :: x.1 < m) && i <= |others|
    requires bs == CollapseOthers(m, others) && rest == others[i..]
    ensures (forall x <- rest :: x.1 < m) && bs[i..] == CollapseOthers(m, rest)
    decreases i
  {
    if i == 0 {
      Suffixes(others, 0);
      Suffixes(bs, 0);
    } else {
      OtherOthers(m, others, bs);
      Suffixes(others, i);
      Suffixes(bs, i);
      OthersFrom(m, others[1..], i - 1, bs[1..], rest);
    }
  }

  lemma CollapseOthersAt(m: Module, others: seq<(string, Module)>, i: nat, bs: seq<Block>, x: (string, Module), b: Block)
    requires (forall x <- others :: x.1 < m) && i < |others| && x == others[i]
    requires bs == CollapseOthers(m, others)
    requires b == Collapse(x.1, Named(x.0))
    ensures bs[i] == b
  {
    OthersFrom(m, others, i, bs, others[i..]);
    FirstOther(m, others[i..], bs[i..], x, b);
  }

  lemma {:induction false} PrintableChildren(m: Module, children: seq<(Key, Module)>)
    requires forall c <- children :: c.1 < m && Printable(c.1)
    ensures forall x <- Numbered(children) :: x.1 < m && Printable(x.1)
    ensures forall x <- Others(children) :: x.1 < m && Printable(x.1)
    ensures |Numbered(children)| + |Others(children)| == |children|
    decreases |children|
  {
    if children != [] {
      PrintableChildren(m, children[..|children| - 1]);
    }
  }

  /** The lines of one group: its first member's, with the indices in front. */
  method FormatGroup(group: Group, bareLines: seq<string>, indent: nat) returns (lines: seq<string>)
    requires group.members != [] && Printable(group.members[0].1)
    requires bareLines == Render(Collapse(group.members[0].1, Named("")), indent)
    ensures lines == Render(Collapse(group.members[0].1, Grouped(Indices(group.members))), indent)
  {
    var indices := Indices(group.members);
    Retag(Collapse(group.members[0].1, Named("")), Grouped(indices), indent);
    lines := bareLines;
    var firstLine := LStrip(lines[0]);
    var childPrefix := Spaces(indent);
    if |indices| > 1 {
      var rangeStr := FormatIndexRanges(indices);
      lines := lines[0 := childPrefix + ("(" + rangeStr + "): " + Str(|indices|) + " x ") + firstLine];
    } else {
      lines := lines[0 := childPrefix + ("(" + Str(indices[0]) + "): ") + firstLine];
    }
  }

  method FormatGroups(ghost m: Module, groups: seq<Group>, indent: nat) returns (lines: seq<string>)
    requires forall g <- groups :: g.members != [] && g.members[0].1 < m && Printable(g.members[0].1)
    ensures lines == RenderAll(CollapseGroups(m, groups), indent)
    decreases m, 0
  {
    lines := [];
    ghost var blocks := CollapseGroups(m, groups);
    for i := 0 to |groups|
      invariant lines == RenderAll(blocks[..i], indent)
    {
      CollapseGroupsAt(m, groups, i, blocks, groups[i], Collapse(groups[i].members[0].1, Grouped(Indices(groups[i].members))));
      RenderAllTake(blocks, i, indent);
      assert groups[i] in groups;
      var bareLines := FormatModuleTree(groups[i].members[0].1, "", indent);
      var childLines := FormatGroup(groups[i], bareLines, indent);
      lines := lines + childLines;
    }
    assert blocks[..|groups|] == blocks;
  }

  method FormatOthers(ghost m: Module, others: seq<(string, Module)>, indent: nat) returns (lines: seq<string>)
    requires forall x <- others :: x.1 < m && Printable(x.1)
    ensures lines == RenderAll(CollapseOthers(m, others), indent)
    decreases m, 0
  {
    lines := [];
    ghost var blocks := CollapseOthers(m, others);
    for i := 0 to |others|
      invariant lines == RenderAll(blocks[..i], indent)
    {
      CollapseOthersAt(m, others, i, blocks, others[i], Collapse(others[i].1, Named(others[i].0)));
      RenderAllTake(blocks, i, indent);
      assert others[i] in others;
      var childLines := FormatModuleTree(others[i].1, others[i].0, indent);
      lines := lines + childLines;
    }
    assert blocks[..|others|] == blocks;
  }

  lemma GroupsReady(m: Module)
    requires Printable(m)
    ensures forall g <- SortedGroups(m) :: g.members != [] && g.members[0].1 < m && Printable(g.members[0].1)
    ensures forall x <- Others(m.children) :: x.1 < m && Printable(x.1)
    ensures forall tag :: Collapse(m, tag).subs == [] <==> m.children == []
  {
    PrintableChildren(m, m.children);
    GroupsAreOk(Numbered(m.children));
    forall tag ensures Collapse(m, tag).subs == [] <==> m.children == [] { SomeBlocks(m, tag); }
    forall g | g in GroupsOf(Numbered(m.children)) ensures g.members != [] && g.members[0].1 < m && Printable(g.members[0].1) {
      assert g.members[0] in g.members;
    }
  }

  lemma {:induction false} RenderOfCollapse(m: Module, tag: Label, indent: nat)
    requires Printable(m)
    requires forall g <- SortedGroups(m) :: g.members != [] && g.members[0].1 < m
    requires forall x <- Others(m.children) :: x.1 < m
    requires Collapse(m, tag).subs == [] <==> m.children == []
    ensures var head := Spaces(indent) + TagText(tag);
            Render(Collapse(m, tag), indent) ==
            if m.children == [] then [head + (m.info + "")]
            else [head + (m.info + "(")] +
                 (RenderAll(CollapseGroups(m, SortedGroups(m)), indent + 1)
                  + RenderAll(CollapseOthers(m, Others(m.children)), indent + 1)
                  + [Spaces(indent) + ")"])
  {
    RenderAllAppend(CollapseGroups(m, SortedGroups(m)), CollapseOthers(m, Others(m.children)), indent + 1);
  }

  /** Two blanks per level: a leaf is one line, any other module a line that opens, lines further in,
      and a line that closes. */
  ghost predicate Framed(lines: seq<string>, leaf: bool, info: string, name: string, indent: nat) {
    var margin := seq(2 * indent, _ => ' ');
    && lines != []
    && lines[0] == margin + (if name == "" then "" else "(" + name + "): ") + (info + if leaf then "" else "(")
    && if leaf then |lines| == 1
       else
         && |lines| > 2
         && lines[|lines| - 1] == margin + ")"
         && forall k :: 0 < k < |lines| - 1 ==> margin + "  " <= lines[k]
  }

  lemma BlockIsFramed(b: Block, name: string, indent: nat)
    requires b.tag == Named(name)
    ensures Framed(Render(b, indent), b.subs == [], b.info, name, indent)
  {
    var margin, lines := seq(2 * indent, _ => ' '), Render(b, indent);
    SpacesAre(indent);
    assert Spaces(indent) == margin;
    if b.subs != [] {
      var below := RenderAll(b.subs, indent + 1);
      assert lines == [lines[0]] + below + [margin + ")"];
      SomeLine(b.subs, indent + 1);
      NoLineOfAllIsOutdented(b.subs, indent + 1);
      SpacesAre(indent + 1);
      assert Spaces(indent + 1) == margin + "  ";
      Between(lines, below, margin + ")", margin + "  ");
    }
  }

  lemma Between(lines: seq<string>, below: seq<string>, closing: string, margin: string)
    requires lines != [] && lines == [lines[0]] + below + [closing]
    requires forall line <- below :: margin <= line
    ensures lines[|lines| - 1] == closing && forall k :: 0 < k < |lines| - 1 ==> margin <= lines[k]
  {
    forall k | 0 < k < |lines| - 1 ensures margin <= lines[k] {
      assert lines[k] == below[k - 1] && below[k - 1] in below;
    }
  }

  lemma SomeLine(bs: seq<Block>, indent: nat)
    requires bs != []
    ensures RenderAll(bs, indent) != []
  {}

  method FormatModuleTree(m: Module, name: string, indent: nat) returns (lines: seq<string>)
    requires Printable(m)
    ensures lines == Render(Collapse(m, Named(name)), indent)
    ensures Framed(lines, m.children == [], m.info, name, indent)
    decreases m, 1
  {
    var prefix := Spaces(indent);
    var head := prefix + (if name != "" then "(" + name + "): " else "");
    GroupsReady(m);
    RenderOfCollapse(m, Named(name), indent);
    BlockIsFramed(Collapse(m, Named(name)), name, indent);
    if m.children == [] {
      return [head + (m.info + "")];
    }
    var numbered, others := SplitChildren(m.children);
    var groups := GroupNumbered(numbered);
    var groupLines := FormatGroups(m, groups, indent + 1);
    var otherLines := FormatOthers(m, others, indent + 1);
    lines := [head + (m.info + "(")] + (groupLines + otherLines + [prefix + ")"]);
  }

  /** The first line of a block and those after it. */
  lemma PartsOf(b: Block, indent: nat) returns (line: string, more: seq<string>)
    ensures Render(b, indent) == [line] + more
    ensures line == Spaces(indent) + TagText(b.tag) + FirstText(b)
    ensures more == if b.subs == [] then [] else RenderAll(b.subs, indent + 1) + [Spaces(indent) + ")"]
  {
    line, more := Render(b, indent)[0], Render(b, indent)[1..];
  }

  lemma TagByIndex(b: Block, i: int, indent: nat)
    ensures Render(b.(tag := Grouped([i])), indent)
         == Render(b, indent)[0 := Spaces(indent) + "(" + Str(i) + "): " + FirstText(b)]
  {
    var tagged := b.(tag := Grouped([i]));
    var line, more := PartsOf(b, indent);
    var line', more' := PartsOf(tagged, indent);
    Brackets(Spaces(indent), Str(i), FirstText(b));
  }

  lemma Brackets(margin: string, tag: string, text: string)
    ensures margin + ("(" + tag + "): ") + text == margin + "(" + tag + "): " + text
  {}

  /** Printing a member of a group on its own gives the lines of the group, with the member's
      index in front instead of the group's indices. */
  lemma EveryMemberPrintsAlike(m: Module, g: Group, x: (int, Module), indent: nat)
    requires Plain(m) && g in SortedGroups(m) && x in g.members
    ensures var printed := Collapse(g.members[0].1, Grouped(Indices(g.members)));
            Render(Collapse(x.1, Grouped([x.0])), indent) ==
            Render(printed, indent)[0 := Spaces(indent) + "(" + Str(x.0) + "): " + FirstText(printed)]
  {
    SameModule(m, g, x);
    TagByIndex(Collapse(x.1, Grouped(Indices(g.members))), x.0, indent);
  }

  lemma SameModule(m: Module, g: Group, x: (int, Module))
    requires Plain(m) && g in SortedGroups(m) && x in g.members
    ensures x.1 == g.members[0].1
  {
    SortedGroupsOk(m);
    assert g.members[0] in g.members;
    SignatureIsInjective(x.1, g.members[0].1);
  }

  /** A module has children exactly when its printout has blocks below. */
  lemma SomeBlocks(m: Module, tag: Label)
    requires |Numbered(m.children)| + |Others(m.children)| == |m.children|
    ensures Collapse(m, tag).subs == [] <==> m.children == []
  {
    GroupsExist(Numbered(m.children));
  }

  lemma {:induction false} GroupsExist(numbered: seq<(int, Module)>)
    ensures GroupsOf(numbered) == [] <==> numbered == []
  {
    if numbered != [] {
      var last := numbered[|numbered| - 1];
      assert AddMember(GroupsOf(numbered[..|numbered| - 1]), Signature(last.1), last) != [];
    }
  }
}
