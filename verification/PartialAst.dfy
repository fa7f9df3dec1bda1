/**
 Parse trees of replies that are still arriving (common/peg-parser.h), and how such a tree
 grows: only partial nodes change, and only along the rightmost spine.
 */
module PartialAst {
  import opened Wrappers

  datatype Rule =
    | Number | Bool | Null | StringContent | String | Array | DictKeyName | DictKey | DictKv | Dict | Value
    | OtherRule

  datatype Tag =
    | Reasoning | Content
    | Tool | ToolOpen | ToolName | ToolArgs | ToolClose
    | Arg | ArgOpen | ArgName | ArgValue | ArgStringValue | ArgObject | ArgArray | ArgItem | ArgClose
    | OtherTag

  datatype Ast = Ast(rule: Rule, tag: Tag, text: string, children: seq<Ast>, partial: bool)

  /** `b` is `a` after more input. */
  predicate Grows(a: Ast, b: Ast)
    decreases a, 0
  {
    || a == b
    || (a.partial && a.rule == b.rule && a.tag == b.tag && a.text <= b.text && ListGrows(a.children, b.children))
  }

  /** All but the last element stay; the last may grow; more may follow. */
  predicate ListGrows(xs: seq<Ast>, ys: seq<Ast>)
    decreases xs, 1
  {
    xs == [] || (|xs| <= |ys| && xs[..|xs| - 1] == ys[..|xs| - 1] && Grows(xs[|xs| - 1], ys[|xs| - 1]))
  }

  lemma GrowsReflexive(xs: seq<Ast>)
    ensures ListGrows(xs, xs)
  {
  }

  /** A partial node grows with its only child. */
  lemma OnlyChildGrows(a: Ast, b: Ast, x: Ast, y: Ast)
    requires a.partial && a.rule == b.rule && a.tag == b.tag && a.text <= b.text
    requires a.children == [x] && b.children == [y] && Grows(x, y)
    ensures Grows(a, b)
  {
    assert ListGrows([x], [y]);
  }

  /** Peeling a common first element. */
  lemma ListGrowsTail(xs: seq<Ast>, ys: seq<Ast>)
    requires |xs| > 1 && ListGrows(xs, ys)
    ensures xs[0] == ys[0] && ListGrows(xs[1..], ys[1..])
  {
    assert xs[0] == xs[..|xs| - 1][0] == ys[..|xs| - 1][0];
    assert xs[1..][..|xs| - 2] == xs[..|xs| - 1][1..];
    assert ys[1..][..|xs| - 2] == ys[..|xs| - 1][1..];
  }

  function Size(a: Ast): (n: nat)
    ensures n > 0
    decreases a, 0
  {
    1 + ListSize(a.children)
  }

  function ListSize(xs: seq<Ast>): nat
    decreases xs, 1
  {
    if xs == [] then 0 else Size(xs[0]) + ListSize(xs[1..])
  }

  /** How deep `find_by_tag` looks when it is not told. */
  const FIND_DEPTH := 3

  /** `find_by_tag`: the first node with the tag, in visiting order, at most `depth` levels down. */
  function FindByTag(ns: seq<Ast>, tag: Tag, depth: nat): (r: Option<Ast>)
    ensures r.Some? ==> r.value.tag == tag
    decreases ns
  {
    if ns == [] then None
    else if ns[0].tag == tag then Some(ns[0])
    else
      var inside := if depth > 1 then FindByTag(ns[0].children, tag, depth - 1) else None;
      if inside.Some? then inside else FindByTag(ns[1..], tag, depth)
  }

  /** The nodes at most `depth` levels down, in visiting order. */
  function Within(ns: seq<Ast>, depth: nat): seq<Ast>
    requires depth > 0
    decreases ns
  {
    if ns == [] then []
    else [ns[0]] + (if depth > 1 then Within(ns[0].children, depth - 1) else []) + Within(ns[1..], depth)
  }

  /** The first of some nodes that has the tag. */
  predicate FirstTagged(ns: seq<Ast>, tag: Tag, found: Option<Ast>) {
    match found
    case None => forall i :: 0 <= i < |ns| ==> ns[i].tag != tag
    case Some(n) =>
      exists i :: 0 <= i < |ns| && ns[i] == n && n.tag == tag && forall j :: 0 <= j < i ==> ns[j].tag != tag
  }

  lemma FirstIsOne(ns: seq<Ast>, tag: Tag, a: Option<Ast>, b: Option<Ast>)
    requires FirstTagged(ns, tag, a) && FirstTagged(ns, tag, b)
    ensures a == b
  {
  }

  lemma FirstOfThree(n: Ast, inside: seq<Ast>, rest: seq<Ast>, tag: Tag, a: Option<Ast>, b: Option<Ast>)
    requires FirstTagged(inside, tag, a) && FirstTagged(rest, tag, b)
    ensures FirstTagged([n] + inside + rest, tag, if n.tag == tag then Some(n) else if a.Some? then a else b)
  {
    var all := [n] + inside + rest;
    if n.tag == tag {
      assert all[0] == n;
    } else if a.Some? {
      var i :| 0 <= i < |inside| && inside[i] == a.value && a.value.tag == tag
               && forall j :: 0 <= j < i ==> inside[j].tag != tag;
      assert all[i + 1] == a.value && forall j :: 0 < j < i + 1 ==> all[j] == inside[j - 1];
    } else if b.Some? {
      var i :| 0 <= i < |rest| && rest[i] == b.value && b.value.tag == tag
               && forall j :: 0 <= j < i ==> rest[j].tag != tag;
      var k := 1 + |inside|;
      assert all[k + i] == b.value;
      assert forall j :: 0 < j < k ==> all[j] == inside[j - 1];
      assert forall j :: k <= j < k + i ==> all[j] == rest[j - k];
    }
  }

  lemma {:induction false} FindsFirst(ns: seq<Ast>, tag: Tag, depth: nat)
    requires depth > 0
    ensures FirstTagged(Within(ns, depth), tag, FindByTag(ns, tag, depth))
    decreases ns
  {
    if ns != [] {
      FindsFirst(ns[1..], tag, depth);
      var inside := if depth > 1 then Within(ns[0].children, depth - 1) else [];
      var found := if depth > 1 then FindByTag(ns[0].children, tag, depth - 1) else None;
      if depth > 1 { FindsFirst(ns[0].children, tag, depth - 1); }
      FirstOfThree(ns[0], inside, Within(ns[1..], depth), tag, found, FindByTag(ns[1..], tag, depth));
    }
  }

  /** What was found stays found, and may have grown. */
  lemma {:induction false} FoundGrows(xs: seq<Ast>, ys: seq<Ast>, tag: Tag, depth: nat)
    requires ListGrows(xs, ys) && FindByTag(xs, tag, depth).Some?
    ensures FindByTag(ys, tag, depth).Some? && Grows(FindByTag(xs, tag, depth).value, FindByTag(ys, tag, depth).value)
    decreases xs
  {
    if |xs| > 1 {
      ListGrowsTail(xs, ys);
      if xs[0].tag != tag && !(depth > 1 && FindByTag(xs[0].children, tag, depth - 1).Some?) {
        FoundGrows(xs[1..], ys[1..], tag, depth);
      }
    } else if xs[0].tag != tag && xs[0] != ys[0] {
      FoundGrows(xs[0].children, ys[0].children, tag, depth - 1);
    }
  }
}
