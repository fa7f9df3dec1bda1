/**
 `gemma4_to_json` (common/chat-peg-parser.cpp): printing the arguments of a Gemma 4 tool call,
 possibly incomplete, as JSON text.
 */
module Gemma4Printer {
  import opened Sequences
  import opened Wrappers
  import opened Text
  import opened PartialAst
  import opened PythonLiterals
  import opened OpenValues

  function ToJson(n: Ast): string
    decreases n, 0
  {
    if n.text == "" then ""
    else
      match n.rule
      case Number => n.text
      case Bool => n.text
      case Null => n.text
      case StringContent => Escape(n.text)
      case String =>
        if n.children == [] then "\""
        else "\"" + ToJson(n.children[0]) + (if n.partial then "" else "\"")
      case Array => "[" + Items(n.children, false) + (if n.partial then "" else "]")
      case DictKeyName => n.text
      case DictKey =>
        "\"" + (if n.children == [] then "" else Escape(ToJson(n.children[0]))) + (if n.partial then "" else "\":")
      case DictKv => Concat(n.children)
      case Dict => "{" + Items(n.children, false) + (if n.partial then "" else "}")
      case Value => if n.children == [] then "" else ToJson(n.children[0])
      case OtherRule => ""
  }

  /** Children separated by commas; `addComma` is whether one came before. */
  function Items(ns: seq<Ast>, addComma: bool): string
    decreases ns, 1
  {
    if ns == [] then "" else (if addComma then "," else "") + ToJson(ns[0]) + Items(ns[1..], true)
  }

  function Concat(ns: seq<Ast>): string
    decreases ns, 1
  {
    if ns == [] then "" else ToJson(ns[0]) + Concat(ns[1..])
  }

  // ----- growing -----

  lemma {:induction false} ItemsGrow(xs: seq<Ast>, ys: seq<Ast>, addComma: bool)
    requires ListGrows(xs, ys)
    ensures Items(xs, addComma) <= Items(ys, addComma)
    decreases xs, 1
  {
    if |xs| > 1 {
      ListGrowsTail(xs, ys);
      ItemsGrow(xs[1..], ys[1..], true);
    } else if |xs| == 1 {
      PrintGrows(xs[0], ys[0]);
      assert Items(xs[1..], true) == "";
    }
  }

  lemma {:induction false} ConcatGrows(xs: seq<Ast>, ys: seq<Ast>)
    requires ListGrows(xs, ys)
    ensures Concat(xs) <= Concat(ys)
    decreases xs, 1
  {
    if |xs| > 1 {
      ListGrowsTail(xs, ys);
      ConcatGrows(xs[1..], ys[1..]);
    } else if |xs| == 1 {
      PrintGrows(xs[0], ys[0]);
      assert Concat(xs[1..]) == "";
    }
  }

  lemma {:induction false} FirstChildGrows(xs: seq<Ast>, ys: seq<Ast>)
    requires ListGrows(xs, ys) && xs != []
    ensures ToJson(xs[0]) <= ToJson(ys[0])
    decreases xs, 1
  {
    if |xs| > 1 { ListGrowsTail(xs, ys); } else { PrintGrows(xs[0], ys[0]); }
  }

  /** What was printed for an incomplete tree stays printed when the tree grows. */
  lemma {:induction false} PrintGrows(a: Ast, b: Ast)
    requires Grows(a, b)
    ensures ToJson(a) <= ToJson(b)
    decreases a, 0
  {
    if a != b && a.text != "" {
      if a.rule.Array? || a.rule.Dict? {
        ItemsGrow(a.children, b.children, false);
      } else if a.rule.DictKv? {
        ConcatGrows(a.children, b.children);
      } else {
        if a.rule.StringContent? { EscapeMonotone(a.text, b.text); }
        if a.children != [] {
          FirstChildGrows(a.children, b.children);
          if a.rule.DictKey? { EscapeMonotone(ToJson(a.children[0]), ToJson(b.children[0])); }
        }
      }
    }
  }

  // ----- complete trees -----

  /** A complete tree of the grammar for the value `t`. */
  predicate Represents(n: Ast, t: Py)
    decreases t, 1
  {
    n.rule.Value? && n.text != "" && |n.children| >= 1 && RepresentsBare(n.children[0], t)
  }

  predicate RepresentsBare(n: Ast, t: Py)
    decreases t, 0
  {
    && !n.partial && n.text != ""
    && match t
       case PyTrue => n.rule.Bool? && n.text == "true"
       case PyFalse => n.rule.Bool? && n.text == "false"
       case PyNone => n.rule.Null? && n.text == "null"
       case PyNumber(text) => n.rule.Number? && n.text == text
       case PyString(_, s) =>
         n.rule.String? && |n.children| == 1 && n.children[0].rule.StringContent? && n.children[0].text == s
       case PyList(items) =>
         n.rule.Array? && |n.children| == |items|
         && forall i :: 0 <= i < |items| ==> Represents(n.children[i], items[i])
       case PyDict(entries) =>
         n.rule.Dict? && |n.children| == |entries|
         && forall i :: 0 <= i < |entries| ==> RepresentsEntry(n.children[i], entries[i])
  }

  predicate RepresentsEntry(n: Ast, e: Entry)
    decreases e, 1
  {
    && n.rule.DictKv? && n.text != "" && |n.children| == 2
    && RepresentsKey(n.children[0], e.key)
    && Represents(n.children[1], e.value)
  }

  predicate RepresentsKey(n: Ast, key: string) {
    n.rule.DictKey? && !n.partial && n.text != "" && |n.children| == 1
    && n.children[0].rule.DictKeyName? && n.children[0].text == key
  }

  /** A complete tree prints as the JSON text of its value. */
  lemma {:induction false} PrintsValue(n: Ast, t: Py)
    requires Represents(n, t)
    ensures ToJson(n) == JsonText(t, COMPACT)
    decreases t, 1
  {
    PrintsBare(n.children[0], t);
  }

  lemma {:induction false} PrintsBare(n: Ast, t: Py)
    requires RepresentsBare(n, t)
    ensures ToJson(n) == JsonText(t, COMPACT)
    decreases t, 0
  {
    match t
    case PyList(items) =>
      PrintsItems(n.children, items, false);
      PrintsArray(n, items);
    case PyDict(entries) =>
      PrintsEntries(n.children, entries, false);
      PrintsDict(n, entries);
    case PyString(_, s) => PrintsString(n, s);
    case _ => PrintsWord(n, t);
  }

  lemma PrintsArray(n: Ast, items: seq<Py>)
    requires !n.partial && n.text != "" && n.rule.Array?
    requires Items(n.children, false) == JsonItems(EscapeChar, items, COMPACT)
    ensures ToJson(n) == JsonText(PyList(items), COMPACT)
  {
  }

  lemma PrintsDict(n: Ast, entries: seq<Entry>)
    requires !n.partial && n.text != "" && n.rule.Dict?
    requires Items(n.children, false) == JsonEntries(EscapeChar, entries, COMPACT)
    ensures ToJson(n) == JsonText(PyDict(entries), COMPACT)
  {
  }

  lemma PrintsWord(n: Ast, t: Py)
    requires !t.PyList? && !t.PyDict? && !t.PyString? && RepresentsBare(n, t)
    ensures ToJson(n) == JsonText(t, COMPACT)
  {
  }

  lemma PrintsString(n: Ast, s: string)
    requires !n.partial && n.text != "" && n.rule.String? && |n.children| == 1
    requires n.children[0].rule.StringContent? && n.children[0].text == s
    ensures ToJson(n) == "\"" + Escape(s) + "\""
  {
    if s == "" { assert Escape(s) == ""; }
    assert ToJson(n.children[0]) == Escape(s);
  }

  lemma {:induction false} PrintsItems(ns: seq<Ast>, items: seq<Py>, addComma: bool)
    requires |ns| == |items| && forall i :: 0 <= i < |items| ==> Represents(ns[i], items[i])
    ensures Items(ns, addComma)
            == (if addComma && items != [] then "," else "") + JsonItems(EscapeChar, items, COMPACT)
    decreases items, 2
  {
    if items != [] {
      PrintsValue(ns[0], items[0]);
      PrintsItems(ns[1..], items[1..], true);
      ListText(if addComma then "," else "", Json(EscapeChar, items[0], COMPACT),
               JsonItems(EscapeChar, items[1..], COMPACT), |items| > 1);
    }
  }

  /** The comma of the next item belongs to what follows the first. */
  lemma ListText(comma: string, first: string, rest: string, more: bool)
    requires !more ==> rest == ""
    ensures comma + first + ((if more then "," else "") + rest)
            == comma + if more then first + ("," + "") + rest else first
  {
    assert "," + "" == ",";
    Associate(comma, first, "," + rest);
    Associate(first, ",", rest);
  }

  lemma {:induction false} PrintsEntries(ns: seq<Ast>, entries: seq<Entry>, addComma: bool)
    requires |ns| == |entries| && forall i :: 0 <= i < |entries| ==> RepresentsEntry(ns[i], entries[i])
    ensures Items(ns, addComma)
            == (if addComma && entries != [] then "," else "") + JsonEntries(EscapeChar, entries, COMPACT)
    decreases entries, 3
  {
    if entries != [] {
      PrintsEntry(ns[0], entries[0]);
      PrintsEntries(ns[1..], entries[1..], true);
      ListText(if addComma then "," else "", JsonEntry(EscapeChar, entries[0], COMPACT),
               JsonEntries(EscapeChar, entries[1..], COMPACT), |entries| > 1);
    }
  }

  lemma {:induction false} PrintsEntry(n: Ast, e: Entry)
    requires RepresentsEntry(n, e)
    ensures ToJson(n) == JsonEntry(EscapeChar, e, COMPACT)
    decreases e, 2
  {
    var cs := n.children;
    PrintsValue(cs[1], e.value);
    PrintsKey(cs[0], e.key);
    assert Concat(cs) == ToJson(cs[0]) + (ToJson(cs[1]) + Concat(cs[1..][1..]));
    assert ":" + "" == ":";
  }

  lemma PrintsKey(n: Ast, key: string)
    requires RepresentsKey(n, key)
    ensures ToJson(n) == Quoted(EscapeChar, key) + ":"
  {
    assert ToJson(n.children[0]) == key;
  }

  // ----- incomplete trees -----

  /** The tree of a value that is still arriving: an empty node, one without a child yet, or one whose child is. */
  predicate IsOpenValue(n: Ast, o: Open)
    decreases o, 1
  {
    if n.text == "" || (n.rule.Value? && n.children == []) then o == Begun("")
    else n.rule.Value? && IsOpen(n.children[0], o)
  }

  predicate IsOpen(n: Ast, o: Open)
    decreases o, 0
  {
    && n.text != ""
    && match o
       case Whole(t) => RepresentsBare(n, t)
       case Begun(text) => (n.rule.Number? || n.rule.Bool? || n.rule.Null?) && n.text == text
       case OpenString(text) =>
         n.rule.String? && n.partial
         && (if n.children == [] then text == ""
             else n.children[0].rule.StringContent? && n.children[0].text == text)
       case OpenList(items, last) =>
         n.rule.Array? && n.partial && |n.children| == |items| + (if last.None? then 0 else 1)
         && (forall i :: 0 <= i < |items| ==> Represents(n.children[i], items[i]))
         && (last.Some? ==> IsOpenValue(n.children[|items|], last.value))
       case OpenDict(entries, tail) =>
         n.rule.Dict? && n.partial && |n.children| == |entries| + (if tail.None? then 0 else 1)
         && (forall i :: 0 <= i < |entries| ==> RepresentsEntry(n.children[i], entries[i]))
         && (tail.Some? ==> IsOpenEntry(n.children[|entries|], tail.value))
  }

  /** A key that has begun, a whole one, or a whole one with what there is of the value. */
  predicate IsOpenEntry(n: Ast, e: OpenEntry)
    decreases e, 0
  {
    && n.rule.DictKv? && n.text != "" && n.children != []
    && match e
       case OpenKey(key) => |n.children| == 1 && IsOpenKey(n.children[0], key)
       case AfterKey(key, value) =>
         RepresentsKey(n.children[0], key)
         && if value.None? then |n.children| == 1 else |n.children| == 2 && IsOpenValue(n.children[1], value.value)
  }

  predicate IsOpenKey(n: Ast, key: string) {
    && n.rule.DictKey? && n.partial && n.text != ""
    && if n.children == [] then key == "" else n.children[0].rule.DictKeyName? && n.children[0].text == key
  }

  /** An incomplete tree prints everything that has arrived, and nothing else. */
  lemma {:induction false} PrintsOpenValue(n: Ast, o: Open)
    requires IsOpenValue(n, o)
    ensures ToJson(n) == OpenText(o)
    decreases o, 1
  {
    if n.text != "" && n.children != [] { PrintsOpen(n.children[0], o); }
  }

  /** A string node without a content node prints its opening quote only, also when it is complete. */
  lemma StringWithoutContent(n: Ast)
    requires n.rule.String? && n.text != "" && n.children == []
    ensures ToJson(n) == "\""
  {
  }

  lemma {:induction false} PrintsOpen(n: Ast, o: Open)
    requires IsOpen(n, o)
    ensures ToJson(n) == OpenText(o)
    decreases o, 0
  {
    match o
    case Whole(t) => PrintsBare(n, t);
    case Begun(text) =>
    case OpenString(text) => PrintsOpenString(n, text);
    case OpenList(items, last) => PrintsOpenItems(n.children, items, last, false);
    case OpenDict(entries, tail) => PrintsOpenEntries(n.children, entries, tail, false);
  }

  lemma PrintsOpenString(n: Ast, text: string)
    requires IsOpen(n, OpenString(text))
    ensures ToJson(n) == "\"" + Escape(text)
  {
    assert Escape("") == "";
    if n.children != [] { assert ToJson(n.children[0]) == Escape(text); }
  }

  lemma {:induction false} PrintsOpenItems(ns: seq<Ast>, items: seq<Py>, last: Option<Open>, addComma: bool)
    requires |ns| == |items| + (if last.None? then 0 else 1)
    requires forall i :: 0 <= i < |items| ==> Represents(ns[i], items[i])
    requires last.Some? ==> IsOpenValue(ns[|items|], last.value)
    ensures Items(ns, addComma) == (if addComma && ns != [] then "," else "") + ItemsText(items, last)
    decreases last, 1, |items|
  {
    if items == [] {
      if last.Some? {
        PrintsOpenValue(ns[0], last.value);
        assert Items(ns[1..], true) == "";
      }
    } else {
      PrintsValue(ns[0], items[0]);
      PrintsOpenItems(ns[1..], items[1..], last, true);
      FirstItem(items, last);
      Associate(if addComma then "," else "", JsonText(items[0], COMPACT),
                (if |ns| > 1 then "," else "") + ItemsText(items[1..], last));
    }
  }

  lemma {:induction false} PrintsOpenEntries(ns: seq<Ast>, entries: seq<Entry>, tail: Option<OpenEntry>, addComma: bool)
    requires |ns| == |entries| + (if tail.None? then 0 else 1)
    requires forall i :: 0 <= i < |entries| ==> RepresentsEntry(ns[i], entries[i])
    requires tail.Some? ==> IsOpenEntry(ns[|entries|], tail.value)
    ensures Items(ns, addComma) == (if addComma && ns != [] then "," else "") + EntriesText(entries, tail)
    decreases tail, 1, |entries|
  {
    if entries == [] {
      if tail.Some? {
        PrintsOpenEntry(ns[0], tail.value);
        assert Items(ns[1..], true) == "";
      }
    } else {
      PrintsEntry(ns[0], entries[0]);
      PrintsOpenEntries(ns[1..], entries[1..], tail, true);
      FirstEntry(entries, tail);
      Associate(if addComma then "," else "", JsonEntry(EscapeChar, entries[0], COMPACT),
                (if |ns| > 1 then "," else "") + EntriesText(entries[1..], tail));
    }
  }

  lemma {:induction false} PrintsOpenEntry(n: Ast, e: OpenEntry)
    requires IsOpenEntry(n, e)
    ensures ToJson(n) == OpenEntryText(e)
    decreases e, 0
  {
    var cs := n.children;
    assert Concat(cs) == ToJson(cs[0]) + Concat(cs[1..]);
    match e
    case OpenKey(key) => PrintsOpenKey(cs[0], key);
    case AfterKey(key, value) =>
      PrintsKey(cs[0], key);
      if value.Some? {
        PrintsOpenValue(cs[1], value.value);
        assert Concat(cs[1..]) == ToJson(cs[1]) + Concat(cs[1..][1..]);
      }
  }

  lemma PrintsOpenKey(n: Ast, key: string)
    requires IsOpenKey(n, key)
    ensures ToJson(n) == "\"" + Escape(key)
  {
    assert Escape("") == "";
    if n.children != [] { assert ToJson(n.children[0]) == key; }
  }
}
