/**
 Signatures of modules (vllm/vllm/model_inspection.py, _get_child_signature): the preorder
 listing of path and info, as one string. Equal signatures mean equal modules.
 */
module ModuleSignature {
  import opened IndexRanges

  /** The name of a child: one that int() accepts, or any other. */
  datatype Key = Index(i: int) | Name(name: string)

  /** A module: its own info string, and its named children in order. */
  datatype Module = Module(info: string, children: seq<(Key, Module)>)

  function KeyText(k: Key): string {
    match k
    case Index(i) => Str(i)
    case Name(name) => name
  }

  // ----- The signature -----

  function Under(prefix: string, name: string): string {
    if prefix == "" then name else prefix + "." + name
  }

  /** named_modules(): the module itself, then its children, depth first. */
  function NamedModules(m: Module, prefix: string): seq<(string, string)>
    decreases m, 1
  {
    [(prefix, m.info)] + NamedChildren(m, m.children, prefix)
  }

  function NamedChildren(ghost m: Module, children: seq<(Key, Module)>, prefix: string): seq<(string, string)>
    requires forall c <- children :: c.1 < m
    decreases m, 0, |children|
  {
    if children == [] then []
    else NamedModules(children[0].1, Under(prefix, KeyText(children[0].0))) + NamedChildren(m, children[1..], prefix)
  }

  function SignatureLines(named: seq<(string, string)>): seq<string> {
    seq(|named|, i requires 0 <= i < |named| => named[i].0 + ":" + named[i].1)
  }

  function Signature(m: Module): string {
    Join(SignatureLines(NamedModules(m, "")), "\n")
  }

  // ----- Names and infos that the signature can tell apart -----

  predicate PlainName(s: string) {
    s != "" && '.' !in s && ':' !in s && '\n' !in s
  }

  /** A child name that int() rejects is not a numeral. */
  ghost predicate PlainKey(k: Key) {
    k.Name? ==> PlainName(k.name) && forall i: int :: k.name != Str(i)
  }

  ghost predicate Plain(m: Module) {
    '\n' !in m.info && forall c <- m.children :: PlainKey(c.0) && Plain(c.1)
  }

  lemma {:induction false} StrSign(n: int)
    ensures Str(n)[0] == '-' <==> n < 0
  {
    if n >= 0 { assert AllDigits(Decimal(n)); }
  }

  lemma DecimalIsInjective(m: nat, n: nat)
    requires Decimal(m) == Decimal(n)
    ensures m == n
  {
    ValueOfDecimal(m);
    ValueOfDecimal(n);
  }

  lemma ConsIsInjective<T>(x: T, xs: seq<T>, y: T, ys: seq<T>)
    requires [x] + xs == [y] + ys
    ensures x == y && xs == ys
  {
    assert ([x] + xs)[0] == x && ([y] + ys)[0] == y;
    assert ([x] + xs)[1..] == xs && ([y] + ys)[1..] == ys;
  }

  lemma NegativeIsInjective(m: nat, n: nat)
    requires "-" + Decimal(m) == "-" + Decimal(n)
    ensures m == n
  {
    ConsIsInjective('-', Decimal(m), '-', Decimal(n));
    DecimalIsInjective(m, n);
  }

  lemma StrIsInjective(i: int, j: int)
    requires Str(i) == Str(j)
    ensures i == j
  {
    StrSign(i);
    StrSign(j);
    if i >= 0 {
      DecimalIsInjective(i, j);
    } else {
      NegativeIsInjective(-i, -j);
    }
  }

  lemma KeyTextIsPlain(k: Key)
    requires PlainKey(k)
    ensures PlainName(KeyText(k))
  {
    if k.Index? {
      var d := if k.i < 0 then Decimal(-k.i) else Decimal(k.i);
      assert AllDigits(d);
    }
  }

  lemma KeyTextIsInjective(a: Key, b: Key)
    requires PlainKey(a) && PlainKey(b) && KeyText(a) == KeyText(b)
    ensures a == b
  {
    if a.Index? && b.Index? { StrIsInjective(a.i, b.i); }
  }

  // ----- Splitting strings -----

  lemma SeparatorNotBefore(a: string, b: string, restA: string, restB: string, c: char)
    requires c !in b && a + [c] + restA == b + [c] + restB
    ensures |b| <= |a|
  {
    assert (a + [c] + restA)[|a|] == c;
    forall k | 0 <= k < |b| ensures (b + [c] + restB)[k] != c {
      assert (b + [c] + restB)[k] == b[k];
    }
  }

  lemma FirstSeparator(a: string, b: string, restA: string, restB: string, c: char)
    requires c !in a && c !in b && a + [c] + restA == b + [c] + restB
    ensures a == b && restA == restB
  {
    SeparatorNotBefore(a, b, restA, restB, c);
    SeparatorNotBefore(b, a, restB, restA, c);
    assert a == (a + [c] + restA)[..|a|] && b == (b + [c] + restB)[..|a|];
    assert restA == (a + [c] + restA)[|a| + 1..] && restB == (b + [c] + restB)[|a| + 1..];
  }

  ghost predicate NoNewlines(parts: seq<string>) {
    forall p <- parts :: '\n' !in p
  }

  lemma JoinHasNewline(parts: seq<string>)
    requires parts != [] && NoNewlines(parts)
    ensures '\n' in Join(parts, "\n") <==> |parts| > 1
  {
    assert parts[0] in parts;
    if |parts| > 1 {
      assert (parts[0] + "\n" + Join(parts[1..], "\n"))[|parts[0]|] == '\n';
    }
  }

  lemma {:induction false} JoinIsInjective(xs: seq<string>, ys: seq<string>)
    requires xs != [] && ys != [] && NoNewlines(xs) && NoNewlines(ys)
    requires Join(xs, "\n") == Join(ys, "\n")
    ensures xs == ys
    decreases |xs|
  {
    assert xs[0] in xs && ys[0] in ys;
    JoinHasNewline(xs);
    JoinHasNewline(ys);
    if |xs| == 1 {
      assert xs == [xs[0]] && ys == [ys[0]];
    } else {
      FirstSeparator(xs[0], ys[0], Join(xs[1..], "\n"), Join(ys[1..], "\n"), '\n');
      JoinIsInjective(xs[1..], ys[1..]);
      assert xs == [xs[0]] + xs[1..] && ys == [ys[0]] + ys[1..];
    }
  }

  lemma LinesAreInjective(a: seq<(string, string)>, b: seq<(string, string)>)
    requires forall x <- a :: ':' !in x.0
    requires forall x <- b :: ':' !in x.0
    requires SignatureLines(a) == SignatureLines(b)
    ensures a == b
  {
    assert |a| == |SignatureLines(a)| == |b|;
    forall i | 0 <= i < |a| ensures a[i] == b[i] {
      assert SignatureLines(a)[i] == SignatureLines(b)[i];
      FirstSeparator(a[i].0, b[i].0, a[i].1, b[i].1, ':');
    }
  }

  // ----- The listing determines the module -----

  /** `path` names something strictly inside `prefix`. */
  predicate Below(prefix: string, path: string) {
    prefix == "" || prefix + "." <= path
  }

  lemma ChildIsBelow(prefix: string, name: string)
    ensures Below(prefix, Under(prefix, name))
  {}

  lemma SiblingIsNotBelow(prefix: string, a: string, b: string)
    requires PlainName(a) && PlainName(b)
    ensures !Below(Under(prefix, a), Under(prefix, b))
  {
    var p := if prefix == "" then "" else prefix + ".";
    assert Under(prefix, a) == p + a && Under(prefix, b) == p + b;
    assert (p + a + ".")[|p| + |a|] == '.';
    if |a| < |b| {
      assert (p + b)[|p| + |a|] == b[|a|] && b[|a|] in b;
    }
  }

  lemma OutsideStaysOutside(prefix: string, name: string, path: string)
    requires name != "" && !Below(prefix, path)
    ensures !Below(Under(prefix, name), path)
  {
    if prefix + "." + name + "." <= path {
      assert prefix + "." <= prefix + "." + name + ".";
    }
  }

  /** The listing goes on with something outside `prefix`. */
  ghost predicate Leaves(prefix: string, rest: seq<(string, string)>) {
    rest != [] ==> !Below(prefix, rest[0].0)
  }

  lemma {:induction false} ListingIsInjective(a: Module, b: Module, prefix: string, restA: seq<(string, string)>, restB: seq<(string, string)>)
    requires Plain(a) && Plain(b)
    requires NamedModules(a, prefix) + restA == NamedModules(b, prefix) + restB
    requires Leaves(prefix, restA) && Leaves(prefix, restB)
    ensures a == b && restA == restB
    decreases a, 1
  {
    ListingCons(a, prefix, restA);
    ListingCons(b, prefix, restB);
    ConsIsInjective((prefix, a.info), NamedChildren(a, a.children, prefix) + restA,
                    (prefix, b.info), NamedChildren(b, b.children, prefix) + restB);
    ChildrenAreInjective(a, b, a.children, b.children, prefix, restA, restB);
  }

  lemma ListingCons(m: Module, prefix: string, rest: seq<(string, string)>)
    ensures NamedModules(m, prefix) + rest == [(prefix, m.info)] + (NamedChildren(m, m.children, prefix) + rest)
  {}

  lemma {:induction false} FirstOfChildren(m: Module, children: seq<(Key, Module)>, prefix: string, rest: seq<(string, string)>)
    requires (forall c <- children :: c.1 < m) && children != []
    ensures var l := NamedChildren(m, children, prefix) + rest;
            l != [] && l[0].0 == Under(prefix, KeyText(children[0].0))
  {}

  lemma {:induction false} ChildrenAreInjective(a: Module, b: Module, as': seq<(Key, Module)>, bs: seq<(Key, Module)>,
                                                prefix: string, restA: seq<(string, string)>, restB: seq<(string, string)>)
    requires (forall c <- as' :: c.1 < a && PlainKey(c.0) && Plain(c.1))
    requires (forall c <- bs :: c.1 < b && PlainKey(c.0) && Plain(c.1))
    requires NamedChildren(a, as', prefix) + restA == NamedChildren(b, bs, prefix) + restB
    requires Leaves(prefix, restA) && Leaves(prefix, restB)
    ensures as' == bs && restA == restB
    decreases a, 0, |as'|
  {
    BothHaveChildren(a, b, as', bs, prefix, restA, restB);
    if as' != [] {
      var path := Under(prefix, KeyText(as'[0].0));
      var moreA, moreB := NamedChildren(a, as'[1..], prefix) + restA, NamedChildren(b, bs[1..], prefix) + restB;
      PeelChild(a, b, as', bs, prefix, restA, restB);
      LeavesChild(a, as', prefix, restA);
      LeavesChild(b, bs, prefix, restB);
      ListingIsInjective(as'[0].1, bs[0].1, path, moreA, moreB);
      ChildrenAreInjective(a, b, as'[1..], bs[1..], prefix, restA, restB);
      assert as' == [as'[0]] + as'[1..] && bs == [bs[0]] + bs[1..];
    } else {
      assert NamedChildren(a, as', prefix) + restA == restA && NamedChildren(b, bs, prefix) + restB == restB;
    }
  }

  lemma {:induction false} BothHaveChildren(a: Module, b: Module, as': seq<(Key, Module)>, bs: seq<(Key, Module)>,
                         prefix: string, restA: seq<(string, string)>, restB: seq<(string, string)>)
    requires (forall c <- as' :: c.1 < a) && (forall c <- bs :: c.1 < b)
    requires NamedChildren(a, as', prefix) + restA == NamedChildren(b, bs, prefix) + restB
    requires Leaves(prefix, restA) && Leaves(prefix, restB)
    ensures as' == [] <==> bs == []
  {
    if as' == [] { assert NamedChildren(a, as', prefix) + restA == restA; }
    if bs == [] { assert NamedChildren(b, bs, prefix) + restB == restB; }
    if as' != [] {
      FirstOfChildren(a, as', prefix, restA);
      ChildIsBelow(prefix, KeyText(as'[0].0));
    }
    if bs != [] {
      FirstOfChildren(b, bs, prefix, restB);
      ChildIsBelow(prefix, KeyText(bs[0].0));
    }
  }

  lemma {:induction false} PeelChild(a: Module, b: Module, as': seq<(Key, Module)>, bs: seq<(Key, Module)>,
                  prefix: string, restA: seq<(string, string)>, restB: seq<(string, string)>)
    requires (forall c <- as' :: c.1 < a && PlainKey(c.0)) && (forall c <- bs :: c.1 < b && PlainKey(c.0))
    requires as' != [] && bs != []
    requires NamedChildren(a, as', prefix) + restA == NamedChildren(b, bs, prefix) + restB
    ensures as'[0].0 == bs[0].0
    ensures NamedModules(as'[0].1, Under(prefix, KeyText(as'[0].0))) + (NamedChildren(a, as'[1..], prefix) + restA)
         == NamedModules(bs[0].1, Under(prefix, KeyText(as'[0].0))) + (NamedChildren(b, bs[1..], prefix) + restB)
  {
    FirstOfChildren(a, as', prefix, restA);
    FirstOfChildren(b, bs, prefix, restB);
    SameName(prefix, as'[0].0, bs[0].0);
    FirstChildFirst(a, as', prefix, restA);
    FirstChildFirst(b, bs, prefix, restB);
  }

  lemma {:induction false} FirstChildFirst(m: Module, children: seq<(Key, Module)>, prefix: string, rest: seq<(string, string)>)
    requires (forall c <- children :: c.1 < m) && children != []
    ensures NamedChildren(m, children, prefix) + rest
         == NamedModules(children[0].1, Under(prefix, KeyText(children[0].0))) + (NamedChildren(m, children[1..], prefix) + rest)
  {}

  lemma SameName(prefix: string, a: Key, b: Key)
    requires PlainKey(a) && PlainKey(b) && Under(prefix, KeyText(a)) == Under(prefix, KeyText(b))
    ensures a == b
  {
    var p := if prefix == "" then "" else prefix + ".";
    assert Under(prefix, KeyText(a)) == p + KeyText(a) && Under(prefix, KeyText(b)) == p + KeyText(b);
    assert KeyText(a) == (p + KeyText(a))[|p|..] && KeyText(b) == (p + KeyText(b))[|p|..];
    KeyTextIsInjective(a, b);
  }

  lemma LeavesChild(m: Module, children: seq<(Key, Module)>, prefix: string, rest: seq<(string, string)>)
    requires children != [] && (forall c <- children :: c.1 < m && PlainKey(c.0))
    requires Leaves(prefix, rest)
    ensures Leaves(Under(prefix, KeyText(children[0].0)), NamedChildren(m, children[1..], prefix) + rest)
  {
    var name := KeyText(children[0].0);
    KeyTextIsPlain(children[0].0);
    if |children| > 1 {
      assert children[1..][0] == children[1];
      FirstOfChildren(m, children[1..], prefix, rest);
      KeyTextIsPlain(children[1].0);
      SiblingIsNotBelow(prefix, name, KeyText(children[1].0));
    } else {
      assert NamedChildren(m, children[1..], prefix) + rest == rest;
      if rest != [] { OutsideStaysOutside(prefix, name, rest[0].0); }
    }
  }

  // ----- Paths in a listing have neither colons nor newlines -----

  lemma {:induction false} PathsArePlain(m: Module, prefix: string)
    requires Plain(m) && ':' !in prefix && '\n' !in prefix
    ensures forall x <- NamedModules(m, prefix) :: ':' !in x.0 && '\n' !in x.0 && '\n' !in x.1
    decreases m, 1
  {
    ChildPathsArePlain(m, m.children, prefix);
  }

  lemma {:induction false} ChildPathsArePlain(m: Module, children: seq<(Key, Module)>, prefix: string)
    requires forall c <- children :: c.1 < m && PlainKey(c.0) && Plain(c.1)
    requires ':' !in prefix && '\n' !in prefix
    ensures forall x <- NamedChildren(m, children, prefix) :: ':' !in x.0 && '\n' !in x.0 && '\n' !in x.1
    decreases m, 0, |children|
  {
    if children != [] {
      KeyTextIsPlain(children[0].0);
      PathsArePlain(children[0].1, Under(prefix, KeyText(children[0].0)));
      ChildPathsArePlain(m, children[1..], prefix);
    }
  }

  /** Children with equal signatures are the same module through and through: same infos, same
      names, same nesting. */
  lemma SignatureIsInjective(a: Module, b: Module)
    requires Plain(a) && Plain(b) && Signature(a) == Signature(b)
    ensures a == b
  {
    var la, lb := NamedModules(a, ""), NamedModules(b, "");
    PathsArePlain(a, "");
    PathsArePlain(b, "");
    NoNewlinesInLines(la);
    NoNewlinesInLines(lb);
    JoinIsInjective(SignatureLines(la), SignatureLines(lb));
    LinesAreInjective(la, lb);
    assert la + [] == la && lb + [] == lb;
    ListingIsInjective(a, b, "", [], []);
  }

  lemma NoNewlinesInLines(named: seq<(string, string)>)
    requires forall x <- named :: '\n' !in x.0 && '\n' !in x.1
    ensures NoNewlines(SignatureLines(named))
  {
    forall i | 0 <= i < |named| ensures '\n' !in SignatureLines(named)[i] {
      assert named[i] in named;
    }
  }
}
