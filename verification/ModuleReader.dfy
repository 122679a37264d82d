/**
 Reading a printed module tree back (vllm/vllm/model_inspection.py, _format_module_tree): the
 lines alone determine which info stands at which path, and how often.
 */
module ModuleReader {
  import opened Options
  import opened IndexRanges
  import opened ModuleSignature
  import opened ModuleTree
  import opened ModulePrinter

  // ----- The reader -----

  function IndexOf(s: string, c: char): (k: nat)
    ensures k <= |s| && c !in s[..k] && (k < |s| ==> s[k] == c)
  {
    if s == "" || s[0] == c then 0
    else
      var k := IndexOf(s[1..], c);
      assert s[..k + 1] == [s[0]] + s[1..][..k];
      k + 1
  }

  /** The label in front of an info: a name, an index, or the indices of a group and their count. */
  function ReadHead(text: string): (Label, string) {
    var k := IndexOf(text, ')');
    if text == "" || text[0] != '(' || k + 3 > |text| || text[k..k + 3] != "): " then (Named(""), text)
    else
      match ReadRanges(text[1..k])
      case None => (Named(text[1..k]), text[k + 3..])
      case Some(rs) => ReadCount(ExpandAll(rs), text[k + 3..])
  }

  function ReadCount(indices: seq<int>, text: string): (Label, string) {
    var count := Str(|indices|) + " x ";
    if |indices| > 1 && count <= text then (Grouped(indices), text[|count|..]) else (Grouped(indices), text)
  }

  predicate Opens(body: string) {
    body != "" && body[|body| - 1] == '('
  }

  /** One block and the lines after it. */
  function Read(lines: seq<string>, indent: nat): (r: Option<(Block, seq<string>)>)
    ensures r.Some? ==> |r.value.1| < |lines|
    decreases |lines|, 0
  {
    if lines == [] || !(Spaces(indent) <= lines[0]) then None
    else
      var body := lines[0][|Spaces(indent)|..];
      if Opens(body) then
        var head := ReadHead(body[..|body| - 1]);
        match ReadMany(lines[1..], indent)
        case None => None
        case Some((subs, rest)) => Some((Block(head.0, head.1, subs), rest))
      else
        var head := ReadHead(body);
        Some((Block(head.0, head.1, []), lines[1..]))
  }

  /** The blocks up to the closing line, and the lines after it. */
  function ReadMany(lines: seq<string>, indent: nat): (r: Option<(seq<Block>, seq<string>)>)
    ensures r.Some? ==> |r.value.1| < |lines|
    decreases |lines|, 1
  {
    if lines == [] then None
    else if lines[0] == Spaces(indent) + ")" then Some(([], lines[1..]))
    else
      match Read(lines, indent + 1)
      case None => None
      case Some((b, rest)) =>
        match ReadMany(rest, indent)
        case None => None
        case Some((bs, rest')) => Some(([b] + bs, rest'))
  }

  // ----- What can be read -----

  ghost predicate InfoOk(info: string) {
    info != "" && info[0] != '(' && info[|info| - 1] != '('
  }

  ghost predicate NameOk(name: string) {
    ')' !in name && ReadRanges(name).None?
  }

  ghost predicate LabelOk(tag: Label) {
    match tag
    case Named(name) => NameOk(name)
    case Grouped(indices) => indices != [] && forall i <- indices :: i >= 0
  }

  ghost predicate Readable(b: Block) {
    LabelOk(b.tag) && InfoOk(b.info) && forall s <- b.subs :: Readable(s)
  }

  /** An info is neither empty nor does it look like a label or an opening line; a name is no
      list of ranges. */
  ghost predicate ReadableModule(m: Module) {
    && InfoOk(m.info)
    && forall c <- m.children :: (if c.0.Index? then c.0.i >= 0 else NameOk(c.0.name)) && ReadableModule(c.1)
  }

  // ----- Labels are read back -----

  /** The text shows the indices of a group in order. */
  function Shown(tag: Label): Label {
    match tag
    case Named(name) => tag
    case Grouped(indices) => Grouped(SortedIndices(indices))
  }

  function ShownBlock(b: Block): Block {
    Block(Shown(b.tag), b.info, ShownBlocks(b.subs))
  }

  function ShownBlocks(bs: seq<Block>): seq<Block> {
    if bs == [] then [] else [ShownBlock(bs[0])] + ShownBlocks(bs[1..])
  }

  lemma {:induction false} IndexOfFirst(a: string, c: char, rest: string)
    requires c !in a
    ensures IndexOf(a + [c] + rest, c) == |a|
    decreases |a|
  {
    if a == "" {
      assert a + [c] + rest == [c] + rest;
    } else {
      assert (a + [c] + rest)[1..] == a[1..] + [c] + rest;
      IndexOfFirst(a[1..], c, rest);
    }
  }

  lemma {:induction false} NoParenInDecimal(n: nat)
    ensures ')' !in Decimal(n)
  {
    assert AllDigits(Decimal(n));
  }

  lemma NoParenInRange(r: Range)
    ensures ')' !in RangeText(r)
  {
    NoParenInDecimal(if r.first < 0 then -r.first else r.first);
    NoParenInDecimal(if r.last < 0 then -r.last else r.last);
  }

  lemma {:induction false} NoParenInJoin(rs: seq<Range>)
    ensures ')' !in Join(RangeTexts(rs), ", ")
    decreases |rs|
  {
    if rs != [] {
      NoParenInRange(rs[0]);
      assert RangeTexts(rs)[1..] == RangeTexts(rs[1..]);
      NoParenInJoin(rs[1..]);
    }
  }

  lemma OneIndex(i: int)
    ensures SortedIndices([i]) == [i] && IndexText([i]) == Str(i)
  {
    assert SortedIndices([i])[0] in [i];
    assert SortedIndices([i]) == [i];
    assert [i][..0] == [] && Runs([i]) == [Range(i, i)];
    assert RangeTexts([Range(i, i)]) == [Str(i)];
  }

  /** What stands before the count of a group. */
  lemma GroupText(indices: seq<int>)
    requires indices != []
    ensures TagText(Grouped(indices)) ==
            "(" + IndexText(indices) + "): " + if |indices| > 1 then Str(|indices|) + " x " else ""
  {
    if |indices| == 1 {
      OneIndex(indices[0]);
      assert indices == [indices[0]];
    }
  }

  lemma HeadOf(inside: string, text: string)
    requires ')' !in inside
    ensures var s := "(" + inside + "): " + text;
            && IndexOf(s, ')') == |inside| + 1 && |inside| + 4 <= |s|
            && s[0] == '(' && s[1..|inside| + 1] == inside && s[|inside| + 4..] == text
            && s[|inside| + 1..|inside| + 4] == "): "
  {
    var s := "(" + inside + "): " + text;
    assert s == ("(" + inside) + [')'] + (": " + text);
    IndexOfFirst("(" + inside, ')', ": " + text);
  }

  lemma NameReadBack(name: string, info: string)
    requires NameOk(name) && InfoOk(info)
    ensures ReadHead(TagText(Named(name)) + info) == (Named(name), info)
  {
    if name == "" {
      assert TagText(Named(name)) + info == info;
    } else {
      HeadOf(name, info);
    }
  }

  lemma CountReadBack(indices: seq<int>, info: string)
    ensures ReadCount(indices, (if |indices| > 1 then Str(|indices|) + " x " else "") + info) == (Grouped(indices), info)
  {
    if |indices| > 1 {
      var n := Str(|indices|) + " x ";
      assert (n + info)[|n|..] == info && n <= n + info;
    } else {
      assert "" + info == info;
    }
  }

  lemma ReadGroup(inside: string, count: string, info: string, indices: seq<int>)
    requires ')' !in inside && ReadRanges(inside).Some? && ExpandAll(ReadRanges(inside).value) == indices
    requires ReadCount(indices, count + info) == (Grouped(indices), info)
    ensures ReadHead("(" + inside + "): " + (count + info)) == (Grouped(indices), info)
  {
    HeadOf(inside, count + info);
  }

  lemma Reassociate3(inside: string, count: string, info: string)
    ensures "(" + inside + "): " + count + info == "(" + inside + "): " + (count + info)
  {}

  lemma GroupReadBack(indices: seq<int>, info: string)
    requires indices != [] && forall i <- indices :: i >= 0
    ensures ReadHead(TagText(Grouped(indices)) + info) == (Shown(Grouped(indices)), info)
  {
    var inside, count := IndexText(indices), if |indices| > 1 then Str(|indices|) + " x " else "";
    GroupText(indices);
    Reassociate3(inside, count, info);
    NoParenInJoin(Runs(SortedIndices(indices)));
    IndexTextReadsBack(indices);
    CountReadBack(SortedIndices(indices), info);
    ReadGroup(inside, count, info, SortedIndices(indices));
  }

  lemma HeadReadBack(tag: Label, info: string)
    requires LabelOk(tag) && InfoOk(info)
    ensures ReadHead(TagText(tag) + info) == (Shown(tag), info)
  {
    match tag
    case Named(name) => NameReadBack(name, info);
    case Grouped(indices) => GroupReadBack(indices, info);
  }

  // ----- Blocks are read back -----

  lemma AfterSpaces(spaces: string, tag: string, first: string)
    ensures (spaces + tag + first)[|spaces|..] == tag + first
  {}

  lemma OpensIff(b: Block, body: string)
    requires Readable(b) && body == TagText(b.tag) + FirstText(b)
    ensures Opens(body) <==> b.subs != []
    ensures (if b.subs != [] then body[..|body| - 1] else body) == TagText(b.tag) + b.info
  {
    if b.subs == [] {
      assert b.info + "" == b.info;
    } else {
      assert TagText(b.tag) + (b.info + "(") == TagText(b.tag) + b.info + "(";
    }
  }

  lemma Associate<T>(a: seq<T>, b: seq<T>, c: seq<T>)
    ensures a + b + c == a + (b + c)
  {}

  /** Reading `body` gives `said`, and whether more lines belong to the block. */
  ghost predicate Says(body: string, opens: bool, said: (Label, string)) {
    && Opens(body) == opens
    && ReadHead(if opens then body[..|body| - 1] else body) == said
  }

  /** What the first line of a block says after its indentation. */
  lemma BodySays(b: Block, body: string)
    requires Readable(b) && body == TagText(b.tag) + FirstText(b)
    ensures Says(body, b.subs != [], (Shown(b.tag), b.info))
  {
    OpensIff(b, body);
    HeadReadBack(b.tag, b.info);
  }

  lemma ReadLeaf(lines: seq<string>, indent: nat, body: string, said: (Label, string))
    requires lines != [] && Spaces(indent) <= lines[0] && body == lines[0][|Spaces(indent)|..] && Says(body, false, said)
    ensures Read(lines, indent) == Some((Block(said.0, said.1, []), lines[1..]))
  {}

  lemma ReadNode(lines: seq<string>, indent: nat, body: string, said: (Label, string), subs: seq<Block>, rest: seq<string>)
    requires lines != [] && Spaces(indent) <= lines[0] && body == lines[0][|Spaces(indent)|..] && Says(body, true, said)
    requires ReadMany(lines[1..], indent) == Some((subs, rest))
    ensures Read(lines, indent) == Some((Block(said.0, said.1, subs), rest))
  {}

  lemma FirstLine(lines: seq<string>, line: string, more: seq<string>, rest: seq<string>, spaces: string, tag: string, first: string)
    requires lines == [line] + more + rest && line == spaces + tag + first
    ensures lines != [] && spaces <= lines[0] && lines[0][|spaces|..] == tag + first && lines[1..] == more + rest
  {
    AfterSpaces(spaces, tag, first);
  }

  lemma {:induction false} ReadRendered(b: Block, indent: nat, rest: seq<string>, lines: seq<string>)
    requires Readable(b) && lines == Render(b, indent) + rest
    ensures Read(lines, indent) == Some((ShownBlock(b), rest))
    decreases b, 1
  {
    var line, more := PartsOf(b, indent);
    var body, said := TagText(b.tag) + FirstText(b), (Shown(b.tag), b.info);
    FirstLine(lines, line, more, rest, Spaces(indent), TagText(b.tag), FirstText(b));
    BodySays(b, body);
    if b.subs == [] {
      assert more + rest == rest;
      ReadLeaf(lines, indent, body, said);
    } else {
      Associate(RenderAll(b.subs, indent + 1), [Spaces(indent) + ")"], rest);
      ReadRenderedAll(b.subs, indent, rest, more + rest);
      ReadNode(lines, indent, body, said, ShownBlocks(b.subs), rest);
    }
  }

  lemma NotClosing(b: Block, indent: nat)
    ensures Render(b, indent + 1)[0] != Spaces(indent) + ")"
  {
    var line := Render(b, indent + 1)[0];
    SpacesAre(indent + 1);
    SpacesAre(indent);
    if |Spaces(indent)| < |line| {
      assert line[|Spaces(indent)|] == Spaces(indent + 1)[|Spaces(indent)|];
      assert (Spaces(indent) + ")")[|Spaces(indent)|] == ')';
    }
  }

  lemma ReadClosing(lines: seq<string>, indent: nat, rest: seq<string>)
    requires lines == [Spaces(indent) + ")"] + rest
    ensures ReadMany(lines, indent) == Some(([], rest))
  {
    assert lines[1..] == rest;
  }

  lemma ReadManyCons(lines: seq<string>, indent: nat, b: Block, tail: seq<string>, bs: seq<Block>, rest: seq<string>)
    requires lines != [] && lines[0] != Spaces(indent) + ")"
    requires Read(lines, indent + 1) == Some((b, tail)) && ReadMany(tail, indent) == Some((bs, rest))
    ensures ReadMany(lines, indent) == Some(([b] + bs, rest))
  {}

  lemma {:induction false} ReadRenderedAll(bs: seq<Block>, indent: nat, rest: seq<string>, lines: seq<string>)
    requires forall b <- bs :: Readable(b)
    requires lines == RenderAll(bs, indent + 1) + ([Spaces(indent) + ")"] + rest)
    ensures ReadMany(lines, indent) == Some((ShownBlocks(bs), rest))
    decreases bs, 0
  {
    if bs == [] {
      ReadClosing(lines, indent, rest);
    } else {
      var first, tail := Render(bs[0], indent + 1), RenderAll(bs[1..], indent + 1) + ([Spaces(indent) + ")"] + rest);
      Associate(first, RenderAll(bs[1..], indent + 1), [Spaces(indent) + ")"] + rest);
      assert bs[0] in bs && lines == first + tail && lines[0] == first[0];
      NotClosing(bs[0], indent);
      ReadRendered(bs[0], indent + 1, tail, lines);
      ReadRenderedAll(bs[1..], indent, rest, tail);
      ReadManyCons(lines, indent, ShownBlock(bs[0]), tail, ShownBlocks(bs[1..]), rest);
    }
  }

  // ----- What a printed module says -----

  lemma {:induction false} ReadableChildren(children: seq<(Key, Module)>)
    requires forall c <- children :: (if c.0.Index? then c.0.i >= 0 else NameOk(c.0.name)) && ReadableModule(c.1)
    ensures forall x <- Numbered(children) :: x.0 >= 0 && ReadableModule(x.1)
    ensures forall x <- Others(children) :: NameOk(x.0) && ReadableModule(x.1)
    decreases |children|
  {
    if children != [] {
      ReadableChildren(children[..|children| - 1]);
    }
  }

  lemma IndicesAre(members: seq<(int, Module)>)
    requires members != [] && forall x <- members :: x.0 >= 0
    ensures LabelOk(Grouped(Indices(members)))
  {
    forall i | i in Indices(members) ensures i >= 0 {
      var k :| 0 <= k < |members| && Indices(members)[k] == i;
      assert members[k] in members;
    }
  }

  lemma {:induction false} GroupsAreReadable(m: Module, gs: seq<Group>)
    requires forall g <- gs :: g.members != [] && g.members[0].1 < m && forall x <- g.members :: x.0 >= 0 && ReadableModule(x.1)
    ensures forall b <- CollapseGroups(m, gs) :: Readable(b)
    decreases m, 0, |gs|
  {
    if gs != [] {
      var g := gs[0];
      assert g in gs && g.members[0] in g.members;
      IndicesAre(g.members);
      CollapseIsReadable(g.members[0].1, Grouped(Indices(g.members)));
      GroupsAreReadable(m, gs[1..]);
    }
  }

  lemma {:induction false} OthersAreReadable(m: Module, others: seq<(string, Module)>)
    requires forall x <- others :: x.1 < m && NameOk(x.0) && ReadableModule(x.1)
    ensures forall b <- CollapseOthers(m, others) :: Readable(b)
    decreases m, 0, |others|
  {
    if others != [] {
      assert others[0] in others;
      CollapseIsReadable(others[0].1, Named(others[0].0));
      OthersAreReadable(m, others[1..]);
    }
  }

  lemma ReadableGroups(m: Module)
    requires ReadableModule(m)
    ensures forall g <- SortedGroups(m) ::
              g.members != [] && g.members[0].1 < m && forall x <- g.members :: x.0 >= 0 && ReadableModule(x.1)
  {
    ReadableChildren(m.children);
    ChildrenAreSmaller(m, m.children);
    GroupsAreOk(Numbered(m.children));
  }

  lemma {:induction false} CollapseIsReadable(m: Module, tag: Label)
    requires ReadableModule(m) && LabelOk(tag)
    ensures Readable(Collapse(m, tag))
    decreases m, 1
  {
    ReadableGroups(m);
    ReadableChildren(m.children);
    ChildrenAreSmaller(m, m.children);
    GroupsAreReadable(m, SortedGroups(m));
    OthersAreReadable(m, Others(m.children));
  }

  lemma {:induction false} ShownCounts(b: Block, path: seq<Key>, info: string)
    ensures BlockCount(ShownBlock(b), path, info) == BlockCount(b, path, info)
    decreases |path|, 0
  {
    if path != [] {
      ShownCountsAll(b.subs, path, info);
    }
  }

  lemma {:induction false} ShownCountsAll(bs: seq<Block>, path: seq<Key>, info: string)
    requires path != []
    ensures BlockCountAmong(ShownBlocks(bs), path, info) == BlockCountAmong(bs, path, info)
    decreases |path| - 1, 1, |bs|
  {
    if bs != [] {
      ShownCounts(bs[0], path[1..], info);
      ShownCountsAll(bs[1..], path, info);
      BlockCountCons(ShownBlock(bs[0]), ShownBlocks(bs[1..]), path, info);
    }
  }

  /** The text loses nothing: reading the printed lines back leaves none over, and expanding what
      was read gives every info at every path as often as in the module. */
  lemma TextIsLossless(m: Module, name: string, path: seq<Key>, info: string) returns (b: Block)
    requires Plain(m) && ReadableModule(m) && NameOk(name)
    ensures Read(Render(Collapse(m, Named(name)), 0), 0) == Some((b, []))
    ensures BlockCount(b, path, info) == Count(m, path, info)
  {
    var printed := Collapse(m, Named(name));
    b := ShownBlock(printed);
    CollapseIsReadable(m, Named(name));
    assert Render(printed, 0) + [] == Render(printed, 0);
    ReadRendered(printed, 0, [], Render(printed, 0));
    ShownCounts(printed, path, info);
    CollapseIsLossless(m, Named(name), path, info);
  }

  /** Modules that print alike are alike: the same infos at the same paths, equally often. */
  lemma SameTextSameModule(a: Module, b: Module, name: string, path: seq<Key>, info: string)
    requires Plain(a) && ReadableModule(a) && Plain(b) && ReadableModule(b) && NameOk(name)
    requires Render(Collapse(a, Named(name)), 0) == Render(Collapse(b, Named(name)), 0)
    ensures Count(a, path, info) == Count(b, path, info)
  {
    var x := TextIsLossless(a, name, path, info);
    var y := TextIsLossless(b, name, path, info);
  }
}
