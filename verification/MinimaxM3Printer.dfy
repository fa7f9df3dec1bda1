/**
 The MiniMax M3 printers (common/chat-peg-parser.cpp, `minimax_m3_*`): the XML-like arguments
 of a tool call, possibly incomplete, as JSON text.
 */
module MinimaxM3Printer {
  import opened Sequences
  import opened Wrappers
  import opened Text
  import opened PartialAst
  import opened PythonLiterals
  import opened OpenValues

  /** `minimax_m3_collect`: the outermost nodes with the tag. */
  function Collect(ns: seq<Ast>, tag: Tag): (r: seq<Ast>)
    ensures forall i :: 0 <= i < |r| ==> Size(r[i]) <= ListSize(ns)
    decreases ns
  {
    if ns == [] then []
    else (if ns[0].tag == tag then [ns[0]] else Collect(ns[0].children, tag)) + Collect(ns[1..], tag)
  }

  predicate IsValueTag(tag: Tag) { tag.ArgValue? || tag.ArgStringValue? || tag.ArgObject? || tag.ArgArray? }

  /** `minimax_m3_value_of` */
  function ValueOf(ns: seq<Ast>): (r: Option<Ast>)
    ensures r.Some? ==> Size(r.value) <= ListSize(ns)
    decreases |ns|
  {
    if ns == [] then None else if IsValueTag(ns[0].tag) then Some(ns[0]) else ValueOf(ns[1..])
  }

  function ValueToJson(v: Option<Ast>, closed: bool): string
    decreases if v.Some? then Size(v.value) else 0, 2
  {
    if v.None? then ""
    else
      var n := v.value;
      if n.tag.ArgObject? then ContainerToJson(n, true, closed)
      else if n.tag.ArgArray? then ContainerToJson(n, false, closed)
      else if n.tag.ArgStringValue? then "\"" + Escape(n.text) + (if closed then "\"" else "")
      else n.text
  }

  function MemberToJson(n: Ast): string
    decreases Size(n), 0, 0
  {
    var name := FindByTag(n.children, ArgName, FIND_DEPTH);
    if name.None? then ""
    else Dump(name.value.text) + ":" + ValueToJson(ValueOf(n.children), !n.partial)
  }

  function EntryToJson(n: Ast, isObject: bool): string
    decreases Size(n), 0, 1
  {
    if isObject then MemberToJson(n) else ValueToJson(ValueOf(n.children), !n.partial)
  }

  function Entries(ns: seq<Ast>, isObject: bool, addComma: bool, ghost bound: nat): string
    requires forall i :: 0 <= i < |ns| ==> Size(ns[i]) < bound
    decreases bound, 0, 2 + |ns|
  {
    if ns == [] then ""
    else
      var text := EntryToJson(ns[0], isObject);
      if text == "" then Entries(ns[1..], isObject, addComma, bound)
      else (if addComma then "," else "") + text + Entries(ns[1..], isObject, true, bound)
  }

  function EntriesOf(n: Ast, isObject: bool): (r: seq<Ast>)
    ensures forall i :: 0 <= i < |r| ==> Size(r[i]) < Size(n)
  {
    Collect(n.children, if isObject then Arg else ArgItem)
  }

  function ContainerToJson(n: Ast, isObject: bool, closed: bool): string
    decreases Size(n), 1
  {
    (if isObject then "{" else "[") + Entries(EntriesOf(n, isObject), isObject, false, Size(n))
    + (if closed then (if isObject then "}" else "]") else "")
  }

  // ----- growing -----

  /** Argument names are parsed atomically, so an incomplete tree never holds part of one. */
  predicate NamesComplete(n: Ast)
    decreases n
  {
    (n.tag.ArgName? ==> !n.partial) && forall i :: 0 <= i < |n.children| ==> NamesComplete(n.children[i])
  }

  predicate AllNamesComplete(ns: seq<Ast>) { forall i :: 0 <= i < |ns| ==> NamesComplete(ns[i]) }

  /** A complete name that was found stays as it is. */
  lemma FindGrows(xs: seq<Ast>, ys: seq<Ast>, depth: nat)
    requires ListGrows(xs, ys) && AllNamesComplete(xs)
    ensures FindByTag(xs, ArgName, depth).Some? ==> FindByTag(ys, ArgName, depth) == FindByTag(xs, ArgName, depth)
  {
    if FindByTag(xs, ArgName, depth).Some? {
      FoundGrows(xs, ys, ArgName, depth);
      FoundComplete(xs, depth);
    }
  }

  lemma {:induction false} FoundComplete(xs: seq<Ast>, depth: nat)
    requires AllNamesComplete(xs)
    ensures FindByTag(xs, ArgName, depth).Some? ==> !FindByTag(xs, ArgName, depth).value.partial
    decreases xs
  {
    if xs != [] {
      if depth > 1 { FoundComplete(xs[0].children, depth - 1); }
      FoundComplete(xs[1..], depth);
    }
  }

  lemma {:induction false} CollectGrows(xs: seq<Ast>, ys: seq<Ast>, tag: Tag)
    requires ListGrows(xs, ys)
    ensures ListGrows(Collect(xs, tag), Collect(ys, tag))
    decreases xs
  {
    if xs != [] {
      CollectCons(xs, tag);
      CollectCons(ys, tag);
      if |xs| > 1 {
        ListGrowsTail(xs, ys);
        CollectGrows(xs[1..], ys[1..], tag);
        PrependGrows(Collect([xs[0]], tag), Collect(xs[1..], tag), Collect(ys[1..], tag));
      } else {
        assert Collect(xs[1..], tag) == [];
        if xs[0].tag != tag && xs[0] != ys[0] { CollectGrows(xs[0].children, ys[0].children, tag); }
        FirstCollected(xs[0], ys[0], tag);
        AppendGrows(Collect([xs[0]], tag), Collect([ys[0]], tag), Collect(ys[1..], tag));
      }
    }
  }

  lemma FirstCollected(x: Ast, y: Ast, tag: Tag)
    requires Grows(x, y)
    requires x.tag != tag && x != y ==> ListGrows(Collect(x.children, tag), Collect(y.children, tag))
    ensures ListGrows(Collect([x], tag), Collect([y], tag))
  {
    CollectCons([x], tag);
    CollectCons([y], tag);
    if x.tag != tag && x == y { GrowsReflexive(Collect(x.children, tag)); }
  }

  lemma CollectCons(xs: seq<Ast>, tag: Tag)
    requires xs != []
    ensures Collect(xs, tag) == Collect([xs[0]], tag) + Collect(xs[1..], tag)
    ensures Collect([xs[0]], tag) == if xs[0].tag == tag then [xs[0]] else Collect(xs[0].children, tag)
  {
    assert [xs[0]][1..] == [];
  }

  lemma PrependGrows(p: seq<Ast>, xs: seq<Ast>, ys: seq<Ast>)
    requires ListGrows(xs, ys)
    ensures ListGrows(p + xs, p + ys)
  {
    if xs != [] {
      assert (p + xs)[..|p + xs| - 1] == p + xs[..|xs| - 1];
      assert (p + ys)[..|p + xs| - 1] == p + ys[..|xs| - 1];
    } else if p != [] {
      assert (p + xs)[..|p| - 1] == p[..|p| - 1] == (p + ys)[..|p| - 1];
    }
  }

  lemma AppendGrows(xs: seq<Ast>, ys: seq<Ast>, more: seq<Ast>)
    requires ListGrows(xs, ys)
    ensures ListGrows(xs, ys + more)
  {
    if xs != [] {
      assert (ys + more)[..|xs| - 1] == ys[..|xs| - 1];
    }
  }

  lemma {:induction false} CollectComplete(ns: seq<Ast>, tag: Tag)
    requires AllNamesComplete(ns)
    ensures AllNamesComplete(Collect(ns, tag))
    decreases ns
  {
    if ns != [] {
      CollectComplete(ns[1..], tag);
      CollectComplete(ns[0].children, tag);
    }
  }

  lemma {:induction false} ValueOfGrows(xs: seq<Ast>, ys: seq<Ast>)
    requires ListGrows(xs, ys) && AllNamesComplete(xs)
    ensures ValueOf(xs).Some? ==>
              ValueOf(ys).Some? && Grows(ValueOf(xs).value, ValueOf(ys).value) && NamesComplete(ValueOf(xs).value)
    decreases |xs|
  {
    if |xs| > 1 {
      ListGrowsTail(xs, ys);
      ValueOfGrows(xs[1..], ys[1..]);
    }
  }

  lemma {:induction false} ValueGrows(a: Ast, b: Ast, closed: bool, closed': bool)
    requires Grows(a, b) && NamesComplete(a)
    requires closed ==> closed' && a == b
    ensures ValueToJson(Some(a), closed) <= ValueToJson(Some(b), closed')
    decreases Size(a), 2
  {
    if a.tag.ArgObject? {
      ContainerGrows(a, b, true, closed, closed');
    } else if a.tag.ArgArray? {
      ContainerGrows(a, b, false, closed, closed');
    } else if a.tag.ArgStringValue? {
      EscapeMonotone(a.text, b.text);
    }
  }

  lemma {:induction false} EntryGrows(a: Ast, b: Ast, isObject: bool)
    requires Grows(a, b) && NamesComplete(a)
    ensures EntryToJson(a, isObject) <= EntryToJson(b, isObject)
    decreases Size(a), 0, 1
  {
    if a != b {
      FindGrows(a.children, b.children, FIND_DEPTH);
      ValueOfGrows(a.children, b.children);
      var v, v' := ValueOf(a.children), ValueOf(b.children);
      if v.Some? { ValueGrows(v.value, v'.value, false, !b.partial); }
      var name := FindByTag(a.children, ArgName, FIND_DEPTH);
      if isObject && name.Some? {
        SamePrefix(Dump(name.value.text) + ":", ValueToJson(v, false), ValueToJson(v', !b.partial));
      }
    }
  }

  lemma {:induction false} EntriesGrow(xs: seq<Ast>, ys: seq<Ast>, isObject: bool, addComma: bool, m: nat, n: nat)
    requires ListGrows(xs, ys) && AllNamesComplete(xs)
    requires forall i :: 0 <= i < |xs| ==> Size(xs[i]) < m
    requires forall i :: 0 <= i < |ys| ==> Size(ys[i]) < n
    ensures Entries(xs, isObject, addComma, m) <= Entries(ys, isObject, addComma, n)
    decreases m, 0, 2 + |xs|
  {
    if |xs| > 1 {
      ListGrowsTail(xs, ys);
      EntriesGrow(xs[1..], ys[1..], isObject, addComma, m, n);
      EntriesGrow(xs[1..], ys[1..], isObject, true, m, n);
    } else if |xs| == 1 {
      EntryGrows(xs[0], ys[0], isObject);
      assert Entries(xs[1..], isObject, true, m) == "";
    }
  }

  lemma {:induction false} ContainerGrows(a: Ast, b: Ast, isObject: bool, closed: bool, closed': bool)
    requires Grows(a, b) && NamesComplete(a)
    requires closed ==> closed' && a == b
    ensures ContainerToJson(a, isObject, closed) <= ContainerToJson(b, isObject, closed')
    decreases Size(a), 1
  {
    if a != b {
      var tag := if isObject then Arg else ArgItem;
      CollectGrows(a.children, b.children, tag);
      CollectComplete(a.children, tag);
      var xs, ys := EntriesOf(a, isObject), EntriesOf(b, isObject);
      EntriesGrow(xs, ys, isObject, false, Size(a), Size(b));
      Bracketed(if isObject then "{" else "[", Entries(xs, isObject, false, Size(a)),
                Entries(ys, isObject, false, Size(b)), if closed' then (if isObject then "}" else "]") else "");
    }
  }

  lemma Bracketed(open: string, x: string, y: string, close: string)
    requires x <= y
    ensures open + x + "" <= open + y + close
  {
  }

  /** The arguments printed for an incomplete tool call stay printed when the call grows. */
  lemma ToolArgumentsGrow(tool: Ast, tool': Ast)
    requires Grows(tool, tool') && NamesComplete(tool)
    ensures ContainerToJson(tool, true, !tool.partial) <= ContainerToJson(tool', true, !tool'.partial)
  {
    ContainerGrows(tool, tool', true, !tool.partial, !tool'.partial);
  }

  /** Without atomic names the property fails: half a name is printed as if it were all of it. */
  lemma PartialNameBreaksGrowth()
    ensures exists tool, tool' :: Grows(tool, tool')
              && !(ContainerToJson(tool, true, false) <= ContainerToJson(tool', true, false))
  {
    var a := Ast(OtherRule, ArgName, "a", [], true);
    var ab := Ast(OtherRule, ArgName, "ab", [], true);
    var arg, arg' := Ast(OtherRule, Arg, "a", [a], true), Ast(OtherRule, Arg, "ab", [ab], true);
    var tool, tool' := Ast(OtherRule, OtherTag, "a", [arg], true), Ast(OtherRule, OtherTag, "ab", [arg'], true);
    assert "a" <= "ab";
    assert Grows(a, ab);
    OnlyChildGrows(arg, arg', a, ab);
    OnlyChildGrows(tool, tool', arg, arg');
    HalfName("a", a, arg, tool);
    HalfName("ab", ab, arg', tool');
    NamesDiffer(ContainerToJson(tool, true, false), ContainerToJson(tool', true, false));
  }

  lemma NamesDiffer(x: string, y: string)
    requires x == "{" + ("\"" + Escape("a") + "\":") && y == "{" + ("\"" + Escape("ab") + "\":")
    ensures !(x <= y)
  {
    assert Escape("a") == "a" by { assert "a"[1..] == ""; assert FlatMap(EscapeChar, "") == ""; }
    assert Escape("ab") == "ab" by {
      assert "ab"[1..] == "b" && "b"[1..] == "";
      assert FlatMap(EscapeChar, "b") == "b" + FlatMap(EscapeChar, "");
    }
    assert x[3] == '"' && y[3] == 'b';
  }

  lemma HalfName(name: string, leaf: Ast, arg: Ast, tool: Ast)
    requires leaf == Ast(OtherRule, ArgName, name, [], true)
    requires arg == Ast(OtherRule, Arg, name, [leaf], true)
    requires tool == Ast(OtherRule, OtherTag, name, [arg], true)
    ensures ContainerToJson(tool, true, false) == "{" + ("\"" + Escape(name) + "\":")
  {
    assert [arg][1..] == [] && [leaf][1..] == [];
    assert Collect([arg], Arg) == [arg] + Collect([], Arg);
    assert ValueOf([leaf]) == ValueOf([leaf][1..]);
    assert FindByTag([leaf], ArgName, FIND_DEPTH) == Some(leaf);
    assert MemberToJson(arg) == Dump(name) + ":" + "";
    var entries := EntriesOf(tool, true);
    assert entries == [arg];
    assert Entries(entries[1..], true, true, Size(tool)) == "";
    assert Entries(entries, true, false, Size(tool)) == "" + MemberToJson(arg) + "";
  }

  // ----- complete trees -----

  function LiteralText(t: Py): string {
    match t
    case PyTrue => "true"
    case PyFalse => "false"
    case PyNone => "null"
    case PyNumber(text) => text
    case _ => ""
  }

  /** The printer's own lookups lead, in `v`, to the parts of `t`. */
  ghost predicate Selects(v: Ast, t: Py)
    decreases t, 0
  {
    match t
    case PyString(_, s) => v.tag.ArgStringValue? && v.text == s
    case PyList(items) =>
      && v.tag.ArgArray? && |EntriesOf(v, false)| == |items|
      && forall i :: 0 <= i < |items| ==> SelectsItem(EntriesOf(v, false)[i], items[i])
    case PyDict(entries) =>
      && v.tag.ArgObject? && |EntriesOf(v, true)| == |entries|
      && forall i :: 0 <= i < |entries| ==> SelectsMember(EntriesOf(v, true)[i], entries[i])
    case _ => v.tag.ArgValue? && v.text == LiteralText(t)
  }

  ghost predicate SelectsItem(n: Ast, t: Py)
    decreases t, 1
  {
    !n.partial && ValueOf(n.children).Some? && Selects(ValueOf(n.children).value, t)
  }

  ghost predicate SelectsMember(n: Ast, e: Entry)
    decreases e, 1
  {
    && SelectsItem(n, e.value)
    && FindByTag(n.children, ArgName, FIND_DEPTH).Some?
    && FindByTag(n.children, ArgName, FIND_DEPTH).value.text == e.key
  }

  lemma JsonNonEmpty(t: Py)
    requires Printable(t)
    ensures JsonText(t, COMPACT) != ""
  {
  }

  lemma {:induction false} PrintsSelected(v: Ast, t: Py)
    requires Selects(v, t) && Printable(t)
    ensures ValueToJson(Some(v), true) == JsonText(t, COMPACT)
    decreases t, 0
  {
    match t
    case PyList(items) =>
      AllItemsSelected(EntriesOf(v, false), items);
      PrintsItems(EntriesOf(v, false), items, false, Size(v));
      PrintsArray(v, items);
    case PyDict(entries) =>
      AllMembersSelected(EntriesOf(v, true), entries);
      PrintsMembers(EntriesOf(v, true), entries, false, Size(v));
      PrintsObject(v, entries);
    case _ =>
  }

  ghost predicate ItemsSelected(ns: seq<Ast>, items: seq<Py>)
    decreases |items|
  {
    if ns == [] || items == [] then ns == [] && items == []
    else SelectsItem(ns[0], items[0]) && Printable(items[0]) && ItemsSelected(ns[1..], items[1..])
  }

  lemma {:induction false} AllItemsSelected(ns: seq<Ast>, items: seq<Py>)
    requires |ns| == |items|
    requires forall i :: 0 <= i < |items| ==> SelectsItem(ns[i], items[i]) && Printable(items[i])
    ensures ItemsSelected(ns, items)
    decreases |items|
  {
    if items != [] { AllItemsSelected(ns[1..], items[1..]); }
  }

  ghost predicate MembersSelected(ns: seq<Ast>, entries: seq<Entry>)
    decreases |entries|
  {
    if ns == [] || entries == [] then ns == [] && entries == []
    else SelectsMember(ns[0], entries[0]) && Printable(entries[0].value) && MembersSelected(ns[1..], entries[1..])
  }

  lemma {:induction false} AllMembersSelected(ns: seq<Ast>, entries: seq<Entry>)
    requires |ns| == |entries|
    requires forall i :: 0 <= i < |entries| ==> SelectsMember(ns[i], entries[i]) && Printable(entries[i].value)
    ensures MembersSelected(ns, entries)
    decreases |entries|
  {
    if entries != [] { AllMembersSelected(ns[1..], entries[1..]); }
  }

  lemma PrintsArray(v: Ast, items: seq<Py>)
    requires v.tag.ArgArray?
    requires Entries(EntriesOf(v, false), false, false, Size(v)) == JsonItems(EscapeChar, items, COMPACT)
    ensures ValueToJson(Some(v), true) == JsonText(PyList(items), COMPACT)
  {
  }

  lemma PrintsObject(v: Ast, entries: seq<Entry>)
    requires v.tag.ArgObject?
    requires Entries(EntriesOf(v, true), true, false, Size(v)) == JsonEntries(EscapeChar, entries, COMPACT)
    ensures ValueToJson(Some(v), true) == JsonText(PyDict(entries), COMPACT)
  {
  }

  lemma {:induction false} PrintsItems(ns: seq<Ast>, items: seq<Py>, addComma: bool, bound: nat)
    requires ItemsSelected(ns, items)
    requires forall i :: 0 <= i < |ns| ==> Size(ns[i]) < bound
    ensures Entries(ns, false, addComma, bound)
            == (if addComma && items != [] then "," else "") + JsonItems(EscapeChar, items, COMPACT)
    decreases items, 1
  {
    if items != [] {
      PrintsItem(ns[0], items[0]);
      PrintsItems(ns[1..], items[1..], true, bound);
      FirstPrinted(ns, false, addComma, bound);
      JsonItemsJoin(items);
    }
  }

  lemma {:induction false} PrintsItem(n: Ast, t: Py)
    requires SelectsItem(n, t) && Printable(t)
    ensures EntryToJson(n, false) == JsonText(t, COMPACT) != ""
    decreases t, 1
  {
    PrintsSelected(ValueOf(n.children).value, t);
    JsonNonEmpty(t);
  }

  lemma JsonItemsJoin(items: seq<Py>)
    requires items != []
    ensures JsonItems(EscapeChar, items, COMPACT)
            == JsonText(items[0], COMPACT)
               + (if |items| > 1 then "," + JsonItems(EscapeChar, items[1..], COMPACT) else "")
  {
    if |items| > 1 {
      CommaIs(JsonText(items[0], COMPACT), COMPACT, JsonItems(EscapeChar, items[1..], COMPACT));
    }
  }

  lemma {:induction false} PrintsMembers(ns: seq<Ast>, entries: seq<Entry>, addComma: bool, bound: nat)
    requires MembersSelected(ns, entries)
    requires forall i :: 0 <= i < |ns| ==> Size(ns[i]) < bound
    ensures Entries(ns, true, addComma, bound)
            == (if addComma && entries != [] then "," else "") + JsonEntries(EscapeChar, entries, COMPACT)
    decreases entries, 2
  {
    if entries != [] {
      PrintsMember(ns[0], entries[0]);
      PrintsMembers(ns[1..], entries[1..], true, bound);
      FirstPrinted(ns, true, addComma, bound);
      JsonEntriesJoin(entries);
      JoinText(if addComma then "," else "", JsonEntry(EscapeChar, entries[0], COMPACT),
               JsonEntries(EscapeChar, entries[1..], COMPACT), |entries| > 1);
    }
  }

  /** The comma of the next member belongs to what follows the first. */
  lemma JoinText(comma: string, first: string, rest: string, more: bool)
    requires !more ==> rest == ""
    ensures comma + first + ((if more then "," else "") + rest) == comma + (first + if more then "," + rest else "")
  {
    Associate(comma, first, (if more then "," else "") + rest);
  }

  lemma FirstPrinted(ns: seq<Ast>, isObject: bool, addComma: bool, bound: nat)
    requires ns != [] && EntryToJson(ns[0], isObject) != "" && forall i :: 0 <= i < |ns| ==> Size(ns[i]) < bound
    ensures Entries(ns, isObject, addComma, bound)
            == (if addComma then "," else "") + EntryToJson(ns[0], isObject) + Entries(ns[1..], isObject, true, bound)
  {
  }

  lemma JsonEntriesJoin(entries: seq<Entry>)
    requires entries != []
    ensures JsonEntries(EscapeChar, entries, COMPACT)
            == JsonEntry(EscapeChar, entries[0], COMPACT)
               + (if |entries| > 1 then "," + JsonEntries(EscapeChar, entries[1..], COMPACT) else "")
  {
    if |entries| > 1 {
      CommaIs(JsonEntry(EscapeChar, entries[0], COMPACT), COMPACT, JsonEntries(EscapeChar, entries[1..], COMPACT));
    }
  }

  lemma CommaIs(a: string, l: Layout, b: string)
    requires l.comma == ""
    ensures a + ("," + l.comma) + b == a + ("," + b)
  {
    assert "," + l.comma == ",";
  }

  lemma {:induction false} PrintsMember(n: Ast, e: Entry)
    requires SelectsMember(n, e) && Printable(e.value)
    ensures MemberToJson(n) == JsonEntry(EscapeChar, e, COMPACT) != ""
    decreases e, 1
  {
    PrintsSelected(ValueOf(n.children).value, e.value);
    assert ":" + "" == ":";
  }

  lemma SelectedArguments(tool: Ast, entries: seq<Entry>)
    requires !tool.partial && |EntriesOf(tool, true)| == |entries|
    requires forall i :: 0 <= i < |entries| ==>
               SelectsMember(EntriesOf(tool, true)[i], entries[i]) && Printable(entries[i].value)
    ensures ContainerToJson(tool, true, !tool.partial) == JsonText(PyDict(entries), COMPACT)
  {
    AllMembersSelected(EntriesOf(tool, true), entries);
    SelectedText(tool, entries);
  }

  lemma SelectedText(tool: Ast, entries: seq<Entry>)
    requires MembersSelected(EntriesOf(tool, true), entries)
    ensures ContainerToJson(tool, true, true) == JsonText(PyDict(entries), COMPACT)
  {
    PrintsMembers(EntriesOf(tool, true), entries, false, Size(tool));
    ClosedObject(tool);
    DictText(entries);
    assert "" + JsonEntries(EscapeChar, entries, COMPACT) == JsonEntries(EscapeChar, entries, COMPACT);
  }

  lemma ClosedObject(tool: Ast)
    ensures ContainerToJson(tool, true, true) == "{" + Entries(EntriesOf(tool, true), true, false, Size(tool)) + "}"
  {
  }

  lemma DictText(entries: seq<Entry>)
    ensures JsonText(PyDict(entries), COMPACT) == "{" + JsonEntries(EscapeChar, entries, COMPACT) + "}"
  {
  }

  // ----- the trees of the grammar -----

  /** The nodes with a tag, in order, below any number of wrappers without one (the grammar's rules). */
  function Tagged(ns: seq<Ast>): seq<Ast>
    decreases ns
  {
    if ns == [] then []
    else (if ns[0].tag.OtherTag? then Tagged(ns[0].children) else [ns[0]]) + Tagged(ns[1..])
  }

  /** A complete value: a text, a list of items or an object of members. */
  ghost predicate IsValue(v: Ast, t: Py)
    decreases t, 0
  {
    match t
    case PyString(_, s) => v.tag.ArgStringValue? && v.text == s
    case PyList(items) =>
      && v.tag.ArgArray? && |Tagged(v.children)| == |items|
      && forall i :: 0 <= i < |items| ==> IsItem(Tagged(v.children)[i], items[i])
    case PyDict(entries) =>
      && v.tag.ArgObject? && |Tagged(v.children)| == |entries|
      && forall i :: 0 <= i < |entries| ==> IsMember(Tagged(v.children)[i], entries[i])
    case _ => v.tag.ArgValue? && v.text == LiteralText(t)
  }

  /** An item: its value, then whatever closes it. */
  ghost predicate IsItem(n: Ast, t: Py)
    decreases t, 1
  {
    n.tag.ArgItem? && !n.partial && n.children != [] && IsValue(n.children[0], t)
  }

  /** A member: an opening that holds the name, its value, then whatever closes it. */
  ghost predicate IsMember(n: Ast, e: Entry)
    decreases e, 1
  {
    && n.tag.Arg? && !n.partial && |n.children| >= 2 && IsValue(n.children[1], e.value)
    && n.children[0].tag.ArgOpen? && n.children[0].children != []
    && n.children[0].children[0].tag.ArgName? && n.children[0].children[0].text == e.key
  }

  /** A call: an opening that holds its name, the members, and a closing. */
  ghost predicate IsCall(tool: Ast, name: string, entries: seq<Entry>) {
    && tool.tag.Tool? && !tool.partial && |tool.children| >= 2
    && (var open, close := tool.children[0], tool.children[|tool.children| - 1];
        && open.tag.ToolOpen? && close.tag.ToolClose? && close.children == [] && |open.children| == 1
        && open.children[0].tag.ToolName? && open.children[0].text == name && open.children[0].children == [])
    && var members := Tagged(tool.children[1..|tool.children| - 1]);
       |members| == |entries| && forall i :: 0 <= i < |entries| ==> IsMember(members[i], entries[i])
  }

  /** Where only nodes of one tag stand below the wrappers, they are what is collected. */
  lemma {:induction false} CollectsTagged(ns: seq<Ast>, tag: Tag)
    requires !tag.OtherTag? && forall i :: 0 <= i < |Tagged(ns)| ==> Tagged(ns)[i].tag == tag
    ensures Collect(ns, tag) == Tagged(ns)
    decreases ns
  {
    if ns != [] {
      var first := if ns[0].tag.OtherTag? then Tagged(ns[0].children) else [ns[0]];
      assert Tagged(ns) == first + Tagged(ns[1..]);
      assert forall i :: 0 <= i < |first| ==> Tagged(ns)[i] == first[i];
      assert forall i :: 0 <= i < |Tagged(ns[1..])| ==> Tagged(ns)[|first| + i] == Tagged(ns[1..])[i];
      CollectsTagged(ns[1..], tag);
      if ns[0].tag.OtherTag? { CollectsTagged(ns[0].children, tag); } else { assert first[0].tag == tag; }
    }
  }

  lemma IsValueTagged(v: Ast, t: Py)
    requires IsValue(v, t)
    ensures IsValueTag(v.tag)
  {
  }

  /** In a member the name is found in the opening, and the value behind it. */
  lemma MemberSelected(n: Ast, e: Entry)
    requires IsMember(n, e)
    ensures ValueOf(n.children) == Some(n.children[1])
    ensures FindByTag(n.children, ArgName, FIND_DEPTH) == Some(n.children[0].children[0])
  {
    IsValueTagged(n.children[1], e.value);
    assert n.children[1..][0] == n.children[1];
    assert FindByTag(n.children[0].children, ArgName, FIND_DEPTH - 1) == Some(n.children[0].children[0]);
  }

  /** The printer's lookups lead to the parts of the value, all the way down. */
  lemma {:induction false} ValueSelected(v: Ast, t: Py)
    requires IsValue(v, t)
    ensures Selects(v, t)
    decreases t, 0
  {
    match t
    case PyList(items) =>
      CollectsTagged(v.children, ArgItem);
      forall i | 0 <= i < |items| ensures SelectsItem(EntriesOf(v, false)[i], items[i]) {
        var n := Tagged(v.children)[i];
        IsValueTagged(n.children[0], items[i]);
        ValueSelected(n.children[0], items[i]);
      }
    case PyDict(entries) =>
      CollectsTagged(v.children, Arg);
      forall i | 0 <= i < |entries| ensures SelectsMember(EntriesOf(v, true)[i], entries[i]) {
        WholeMemberSelected(Tagged(v.children)[i], entries[i]);
      }
    case _ =>
  }

  lemma {:induction false} WholeMemberSelected(n: Ast, e: Entry)
    requires IsMember(n, e)
    ensures SelectsMember(n, e)
    decreases e, 1
  {
    MemberSelected(n, e);
    ValueSelected(n.children[1], e.value);
  }

  /** A complete value prints as its JSON text. */
  lemma PrintsValue(v: Ast, t: Py)
    requires IsValue(v, t) && Printable(t)
    ensures ValueToJson(Some(v), true) == JsonText(t, COMPACT)
  {
    ValueSelected(v, t);
    PrintsSelected(v, t);
  }

  lemma {:induction false} CollectConcat(xs: seq<Ast>, ys: seq<Ast>, tag: Tag)
    ensures Collect(xs + ys, tag) == Collect(xs, tag) + Collect(ys, tag)
    decreases |xs|
  {
    if xs == [] {
      assert xs + ys == ys;
    } else {
      assert (xs + ys)[1..] == xs[1..] + ys;
      CollectCons(xs + ys, tag);
      CollectCons(xs, tag);
      CollectConcat(xs[1..], ys, tag);
      Associate(Collect([xs[0]], tag), Collect(xs[1..], tag), Collect(ys, tag));
    }
  }

  /** Of a call, the members between the opening and the closing are collected. */
  lemma CallCollects(tool: Ast, name: string, entries: seq<Entry>)
    requires IsCall(tool, name, entries)
    ensures EntriesOf(tool, true) == Tagged(tool.children[1..|tool.children| - 1])
  {
    var cs, n := tool.children, |tool.children| - 1;
    var open, middle, close := cs[0], cs[1..n], cs[n];
    assert cs == [open] + middle + [close];
    OpeningCollectsNothing(open);
    ClosingCollectsNothing(close);
    MiddleCollected(open, middle, close);
    CollectsTagged(middle, Arg);
  }

  lemma ClosingCollectsNothing(close: Ast)
    requires close.tag.ToolClose? && close.children == []
    ensures Collect([close], Arg) == []
  {
    CollectCons([close], Arg);
    assert [close][1..] == [] && Collect([], Arg) == [];
  }

  lemma MiddleCollected(open: Ast, middle: seq<Ast>, close: Ast)
    requires Collect([open], Arg) == [] && Collect([close], Arg) == []
    ensures Collect([open] + middle + [close], Arg) == Collect(middle, Arg)
  {
    CollectConcat([open] + middle, [close], Arg);
    CollectConcat([open], middle, Arg);
  }

  lemma OpeningCollectsNothing(open: Ast)
    requires open.tag.ToolOpen? && |open.children| == 1
    requires open.children[0].tag.ToolName? && open.children[0].children == []
    ensures Collect([open], Arg) == []
  {
    var leaf := open.children[0];
    assert open.children == [leaf] && [open][1..] == [] && [leaf][1..] == [];
    assert Collect([leaf], Arg) == Collect(leaf.children, Arg) + Collect([], Arg);
  }

  /** A complete tool call's arguments are the JSON object of its parameters. */
  lemma ToolArgumentsExact(tool: Ast, name: string, entries: seq<Entry>)
    requires IsCall(tool, name, entries) && forall i :: 0 <= i < |entries| ==> Printable(entries[i].value)
    ensures ContainerToJson(tool, true, !tool.partial) == JsonText(PyDict(entries), COMPACT)
  {
    CallCollects(tool, name, entries);
    forall i | 0 <= i < |entries| ensures SelectsMember(EntriesOf(tool, true)[i], entries[i]) {
      WholeMemberSelected(EntriesOf(tool, true)[i], entries[i]);
    }
    SelectedArguments(tool, entries);
  }

  // ----- incomplete calls -----

  /** A value inside an item or member that is not closed yet: no part of it has its closing character. */
  ghost predicate IsOpen(v: Ast, o: Open)
    decreases o, 0
  {
    match o
    case Whole(_) => false
    case Begun(text) => v.tag.ArgValue? && v.text == text != ""
    case OpenString(text) => v.tag.ArgStringValue? && v.text == text
    case OpenList(items, last) =>
      && v.tag.ArgArray? && |Tagged(v.children)| == |items| + (if last.None? then 0 else 1)
      && (forall i :: 0 <= i < |items| ==> IsItem(Tagged(v.children)[i], items[i]) && Printable(items[i]))
      && (last.Some? ==> IsOpenItem(Tagged(v.children)[|items|], last.value))
    case OpenDict(entries, tail) => v.tag.ArgObject? && AreMembers(Tagged(v.children), entries, tail)
  }

  ghost predicate IsOpenItem(n: Ast, o: Open)
    decreases o, 1
  {
    n.tag.ArgItem? && n.partial && n.children != [] && IsOpen(n.children[0], o)
  }

  ghost predicate AreMembers(ns: seq<Ast>, entries: seq<Entry>, tail: Option<OpenEntry>)
    decreases tail, 1
  {
    && |ns| == |entries| + (if tail.None? then 0 else 1)
    && (forall i :: 0 <= i < |entries| ==> IsMember(ns[i], entries[i]) && Printable(entries[i].value))
    && (tail.Some? ==> IsOpenMember(ns[|entries|], tail.value))
  }

  /** A member with its name, and perhaps what there is of its value. */
  ghost predicate IsOpenMember(n: Ast, e: OpenEntry)
    decreases e, 0
  {
    && e.AfterKey? && n.tag.Arg? && n.partial && n.children != []
    && n.children[0].tag.ArgOpen? && n.children[0].children != []
    && n.children[0].children[0].tag.ArgName? && n.children[0].children[0].text == e.key
    && if e.value.None? then |n.children| == 1 else |n.children| >= 2 && IsOpen(n.children[1], e.value.value)
  }

  /** A call that has its name and is not closed. */
  ghost predicate IsOpenCall(tool: Ast, name: string, entries: seq<Entry>, tail: Option<OpenEntry>) {
    && tool.tag.Tool? && tool.partial && tool.children != []
    && (var open := tool.children[0];
        open.tag.ToolOpen? && |open.children| == 1
        && open.children[0].tag.ToolName? && open.children[0].text == name && open.children[0].children == [])
    && AreMembers(Tagged(tool.children[1..]), entries, tail)
  }

  lemma OpenTextNonEmpty(v: Ast, o: Open)
    requires IsOpen(v, o)
    ensures OpenText(o) != ""
  {
  }

  lemma {:induction false} PrintsOpen(v: Ast, o: Open)
    requires IsOpen(v, o)
    ensures ValueToJson(Some(v), false) == OpenText(o)
    decreases o, 0
  {
    match o
    case OpenList(items, last) =>
      ItemsCollected(v, items, last);
      PrintsOpenItems(Tagged(v.children), items, last, false, Size(v));
      OpenArray(v, items, last);
    case OpenDict(entries, tail) =>
      MembersCollected(v.children, entries, tail);
      PrintsOpenMembers(Tagged(v.children), entries, tail, false, Size(v));
      OpenObject(v, entries, tail);
    case _ =>
  }

  lemma ItemsCollected(v: Ast, items: seq<Py>, last: Option<Open>)
    requires IsOpen(v, OpenList(items, last))
    ensures EntriesOf(v, false) == Tagged(v.children)
  {
    var ns := Tagged(v.children);
    forall i | 0 <= i < |ns| ensures ns[i].tag.ArgItem? {
      if i < |items| { assert IsItem(ns[i], items[i]); } else { assert IsOpenItem(ns[i], last.value); }
    }
    CollectsTagged(v.children, ArgItem);
  }

  lemma MembersCollected(ns: seq<Ast>, entries: seq<Entry>, tail: Option<OpenEntry>)
    requires AreMembers(Tagged(ns), entries, tail)
    ensures Collect(ns, Arg) == Tagged(ns)
  {
    var all := Tagged(ns);
    forall i | 0 <= i < |all| ensures all[i].tag.Arg? {
      if i < |entries| { assert IsMember(all[i], entries[i]); } else { assert IsOpenMember(all[i], tail.value); }
    }
    CollectsTagged(ns, Arg);
  }

  lemma OpenArray(v: Ast, items: seq<Py>, last: Option<Open>)
    requires v.tag.ArgArray? && Entries(EntriesOf(v, false), false, false, Size(v)) == "" + ItemsText(items, last)
    ensures ValueToJson(Some(v), false) == OpenText(OpenList(items, last))
  {
  }

  lemma OpenObject(v: Ast, entries: seq<Entry>, tail: Option<OpenEntry>)
    requires Entries(EntriesOf(v, true), true, false, Size(v)) == "" + EntriesText(entries, tail)
    ensures ContainerToJson(v, true, false) == OpenText(OpenDict(entries, tail))
  {
  }

  lemma {:induction false} PrintsOpenItems(ns: seq<Ast>, items: seq<Py>, last: Option<Open>, addComma: bool, bound: nat)
    requires |ns| == |items| + (if last.None? then 0 else 1)
    requires forall i :: 0 <= i < |items| ==> IsItem(ns[i], items[i]) && Printable(items[i])
    requires last.Some? ==> IsOpenItem(ns[|items|], last.value)
    requires forall i :: 0 <= i < |ns| ==> Size(ns[i]) < bound
    ensures Entries(ns, false, addComma, bound) == (if addComma && ns != [] then "," else "") + ItemsText(items, last)
    decreases last, 1, |items|
  {
    if items == [] {
      if last.Some? {
        PrintsOpenItem(ns[0], last.value);
        FirstPrinted(ns, false, addComma, bound);
        assert Entries(ns[1..], false, true, bound) == "";
      }
    } else {
      WholeItem(ns[0], items[0]);
      PrintsOpenItems(ns[1..], items[1..], last, true, bound);
      FirstPrinted(ns, false, addComma, bound);
      FirstItem(items, last);
      Associate(if addComma then "," else "", JsonText(items[0], COMPACT),
                (if |ns| > 1 then "," else "") + ItemsText(items[1..], last));
    }
  }

  lemma WholeItem(n: Ast, t: Py)
    requires IsItem(n, t) && Printable(t)
    ensures EntryToJson(n, false) == JsonText(t, COMPACT) != ""
  {
    IsValueTagged(n.children[0], t);
    ValueSelected(n.children[0], t);
    PrintsItem(n, t);
  }

  lemma {:induction false} PrintsOpenItem(n: Ast, o: Open)
    requires IsOpenItem(n, o)
    ensures EntryToJson(n, false) == OpenText(o) != ""
    decreases o, 1
  {
    PrintsOpen(n.children[0], o);
    OpenTextNonEmpty(n.children[0], o);
    assert ValueOf(n.children) == Some(n.children[0]);
  }

  lemma {:induction false} PrintsOpenMembers(ns: seq<Ast>, entries: seq<Entry>, tail: Option<OpenEntry>,
                                             addComma: bool, bound: nat)
    requires AreMembers(ns, entries, tail) && forall i :: 0 <= i < |ns| ==> Size(ns[i]) < bound
    ensures Entries(ns, true, addComma, bound)
            == (if addComma && ns != [] then "," else "") + EntriesText(entries, tail)
    decreases tail, 1, |entries|
  {
    if entries == [] {
      if tail.Some? {
        PrintsOpenMember(ns[0], tail.value);
        FirstPrinted(ns, true, addComma, bound);
        assert Entries(ns[1..], true, true, bound) == "";
      }
    } else {
      WholeMemberSelected(ns[0], entries[0]);
      PrintsMember(ns[0], entries[0]);
      PrintsOpenMembers(ns[1..], entries[1..], tail, true, bound);
      FirstPrinted(ns, true, addComma, bound);
      FirstEntry(entries, tail);
      Associate(if addComma then "," else "", JsonEntry(EscapeChar, entries[0], COMPACT),
                (if |ns| > 1 then "," else "") + EntriesText(entries[1..], tail));
    }
  }

  lemma {:induction false} PrintsOpenMember(n: Ast, e: OpenEntry)
    requires IsOpenMember(n, e)
    ensures MemberToJson(n) == OpenEntryText(e) != ""
    decreases e, 0
  {
    OpenMemberSelected(n, e);
    if e.value.Some? { PrintsOpen(n.children[1], e.value.value); }
  }

  lemma OpenMemberSelected(n: Ast, e: OpenEntry)
    requires IsOpenMember(n, e)
    ensures FindByTag(n.children, ArgName, FIND_DEPTH) == Some(n.children[0].children[0])
    ensures ValueOf(n.children) == if e.value.Some? then Some(n.children[1]) else None
  {
    assert FindByTag(n.children[0].children, ArgName, FIND_DEPTH - 1) == Some(n.children[0].children[0]);
    if e.value.Some? { assert n.children[1..][0] == n.children[1]; }
  }

  lemma OpenCallCollects(tool: Ast, name: string, entries: seq<Entry>, tail: Option<OpenEntry>)
    requires IsOpenCall(tool, name, entries, tail)
    ensures EntriesOf(tool, true) == Tagged(tool.children[1..])
  {
    var open, rest := tool.children[0], tool.children[1..];
    assert tool.children == [open] + rest;
    OpeningCollectsNothing(open);
    CollectConcat([open], rest, Arg);
    MembersCollected(rest, entries, tail);
    assert [] + Tagged(rest) == Tagged(rest);
  }

  /** The arguments of a call that is still arriving: everything that is there of them, and nothing else. */
  lemma OpenArgumentsExact(tool: Ast, name: string, entries: seq<Entry>, tail: Option<OpenEntry>)
    requires IsOpenCall(tool, name, entries, tail)
    ensures ContainerToJson(tool, true, !tool.partial) == OpenText(OpenDict(entries, tail))
  {
    OpenCallCollects(tool, name, entries, tail);
    PrintsOpenMembers(EntriesOf(tool, true), entries, tail, false, Size(tool));
    OpenObject(tool, entries, tail);
  }

  /** A member whose name has not arrived, at most three levels down, prints nothing. */
  lemma UnnamedPrintsNothing(n: Ast)
    ensures MemberToJson(n) == "" <==> FirstTagged(Within(n.children, 3), ArgName, None)
  {
    FindsFirst(n.children, ArgName, 3);
    if FirstTagged(Within(n.children, 3), ArgName, None) {
      FirstIsOne(Within(n.children, 3), ArgName, None, FindByTag(n.children, ArgName, 3));
    }
  }

  /** An entry that prints nothing leaves no trace, not even a comma. */
  lemma {:induction false} NothingPrintedSkipped(before: seq<Ast>, n: Ast, after: seq<Ast>, isObject: bool,
                                                 addComma: bool, bound: nat)
    requires EntryToJson(n, isObject) == "" && forall e :: e in before + [n] + after ==> Size(e) < bound
    ensures forall e :: e in before + after ==> Size(e) < bound
    ensures Entries(before + [n] + after, isObject, addComma, bound)
            == Entries(before + after, isObject, addComma, bound)
    decreases |before|
  {
    var all, rest := before + [n] + after, before + after;
    if before == [] {
      assert all[1..] == after == rest;
    } else {
      assert all[1..] == before[1..] + [n] + after && rest[1..] == before[1..] + after;
      NothingPrintedSkipped(before[1..], n, after, isObject, addComma, bound);
      NothingPrintedSkipped(before[1..], n, after, isObject, true, bound);
    }
  }
}
