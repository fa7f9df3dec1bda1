/**
 Values whose text is still arriving, and what can be printed of them: everything that has arrived, with
 nothing after it. It is always the beginning of the JSON text of any value they may become.
 */
module OpenValues {
  import opened Sequences
  import opened Wrappers
  import opened Text
  import opened PythonLiterals

  datatype Open =
    | Whole(value: Py)
    | Begun(text: string)
    | OpenString(text: string)
    | OpenList(items: seq<Py>, last: Option<Open>)
    | OpenDict(entries: seq<Entry>, tail: Option<OpenEntry>)

  datatype OpenEntry = OpenKey(key: string) | AfterKey(key: string, value: Option<Open>)

  function OpenText(o: Open): string
    decreases o, 0
  {
    match o
    case Whole(t) => JsonText(t, COMPACT)
    case Begun(text) => text
    case OpenString(text) => "\"" + Escape(text)
    case OpenList(items, last) => "[" + ItemsText(items, last)
    case OpenDict(entries, tail) => "{" + EntriesText(entries, tail)
  }

  /** The complete items, and what there is of the next one. */
  function ItemsText(items: seq<Py>, last: Option<Open>): string
    decreases last, 1
  {
    JsonItems(EscapeChar, items, COMPACT)
    + if last.None? then "" else (if items == [] then "" else ",") + OpenText(last.value)
  }

  function EntriesText(entries: seq<Entry>, tail: Option<OpenEntry>): string
    decreases tail, 1
  {
    JsonEntries(EscapeChar, entries, COMPACT)
    + if tail.None? then "" else (if entries == [] then "" else ",") + OpenEntryText(tail.value)
  }

  function OpenEntryText(e: OpenEntry): string
    decreases e, 0
  {
    match e
    case OpenKey(key) => "\"" + Escape(key)
    case AfterKey(key, value) => Dump(key) + ":" + if value.None? then "" else OpenText(value.value)
  }

  lemma CompactJoin(first: string, rest: string)
    ensures first + ("," + COMPACT.comma) + rest == first + ("," + rest)
  {
    assert "," + COMPACT.comma == ",";
  }

  /** The first item, a comma if anything follows, and the rest. */
  lemma FirstItem(items: seq<Py>, last: Option<Open>)
    requires items != []
    ensures ItemsText(items, last)
            == JsonText(items[0], COMPACT)
               + ((if |items| > 1 || last.Some? then "," else "") + ItemsText(items[1..], last))
  {
    var first, rest := JsonText(items[0], COMPACT), JsonItems(EscapeChar, items[1..], COMPACT);
    var end := if last.None? then "" else "," + OpenText(last.value);
    if |items| > 1 {
      CompactJoin(first, rest);
      Associate(first, "," + rest, end);
      Associate(",", rest, end);
    } else {
      assert rest == "";
      assert "" + end == end;
      if last.Some? { assert "" + ("" + OpenText(last.value)) == OpenText(last.value); }
    }
  }

  lemma FirstEntry(entries: seq<Entry>, tail: Option<OpenEntry>)
    requires entries != []
    ensures EntriesText(entries, tail)
            == JsonEntry(EscapeChar, entries[0], COMPACT)
               + ((if |entries| > 1 || tail.Some? then "," else "") + EntriesText(entries[1..], tail))
  {
    var first := JsonEntry(EscapeChar, entries[0], COMPACT);
    var rest := JsonEntries(EscapeChar, entries[1..], COMPACT);
    var end := if tail.None? then "" else "," + OpenEntryText(tail.value);
    if |entries| > 1 {
      CompactJoin(first, rest);
      Associate(first, "," + rest, end);
      Associate(",", rest, end);
    } else {
      assert rest == "";
      assert "" + end == end;
      if tail.Some? { assert "" + ("" + OpenEntryText(tail.value)) == OpenEntryText(tail.value); }
    }
  }

  // ----- what they may become -----

  /** `o` is as much of `t` as has arrived. */
  predicate Begins(o: Open, t: Py)
    decreases o, 0
  {
    match o
    case Whole(value) => value == t
    case Begun(text) => !t.PyString? && !t.PyList? && !t.PyDict? && text <= JsonText(t, COMPACT)
    case OpenString(text) => t.PyString? && text <= t.value
    case OpenList(items, last) =>
      t.PyList? && items <= t.items
      && (last.Some? ==> |items| < |t.items| && Begins(last.value, t.items[|items|]))
    case OpenDict(entries, tail) =>
      t.PyDict? && entries <= t.entries
      && (tail.Some? ==> |entries| < |t.entries| && BeginsEntry(tail.value, t.entries[|entries|]))
  }

  predicate BeginsEntry(o: OpenEntry, e: Entry)
    decreases o, 0
  {
    match o
    case OpenKey(key) => key <= e.key
    case AfterKey(key, value) => key == e.key && (value.Some? ==> Begins(value.value, e.value))
  }

  /** What is printed of a value begins the text of every value it may become. */
  lemma {:induction false} OpenTextBegins(o: Open, t: Py)
    requires Begins(o, t)
    ensures OpenText(o) <= JsonText(t, COMPACT)
    decreases o, 0
  {
    match o
    case OpenString(text) => EscapeMonotone(text, t.value);
    case OpenList(items, last) => ItemsBegin(items, last, t.items);
    case OpenDict(entries, tail) => EntriesBegin(entries, tail, t.entries);
    case _ =>
  }

  lemma {:induction false} ItemsBegin(items: seq<Py>, last: Option<Open>, all: seq<Py>)
    requires items <= all
    requires last.Some? ==> |items| < |all| && Begins(last.value, all[|items|])
    ensures ItemsText(items, last) <= JsonItems(EscapeChar, all, COMPACT)
    decreases last, 1, |items|
  {
    if items == [] {
      if last.Some? {
        OpenTextBegins(last.value, all[0]);
        assert ItemsText(items, last) == OpenText(last.value);
        BeginsWithFirst(OpenText(last.value), all);
      }
    } else {
      ItemsBegin(items[1..], last, all[1..]);
      FirstItem(items, last);
      FirstItem(all, None);
      assert items[0] == all[0];
      AfterFirst(JsonText(all[0], COMPACT), |items| > 1 || last.Some?, |all| > 1,
                 ItemsText(items[1..], last), ItemsText(all[1..], None));
    }
  }

  lemma BeginsWithFirst(text: string, all: seq<Py>)
    requires all != [] && text <= JsonText(all[0], COMPACT)
    ensures text <= JsonItems(EscapeChar, all, COMPACT)
  {
    FirstItem(all, None);
  }

  lemma AfterFirst(first: string, more: bool, more': bool, rest: string, rest': string)
    requires rest <= rest' && (more ==> more') && (!more ==> rest == "")
    ensures first + ((if more then "," else "") + rest) <= first + ((if more' then "," else "") + rest')
  {
    if more {
      SamePrefix(",", rest, rest');
      SamePrefix(first, "," + rest, "," + rest');
    } else {
      SamePrefix(first, "", (if more' then "," else "") + rest');
    }
  }

  lemma {:induction false} EntriesBegin(entries: seq<Entry>, tail: Option<OpenEntry>, all: seq<Entry>)
    requires entries <= all
    requires tail.Some? ==> |entries| < |all| && BeginsEntry(tail.value, all[|entries|])
    ensures EntriesText(entries, tail) <= JsonEntries(EscapeChar, all, COMPACT)
    decreases tail, 1, |entries|
  {
    if entries == [] {
      if tail.Some? {
        EntryBegins(tail.value, all[0]);
        assert EntriesText(entries, tail) == OpenEntryText(tail.value);
        BeginsWithEntry(OpenEntryText(tail.value), all);
      }
    } else {
      EntriesBegin(entries[1..], tail, all[1..]);
      FirstEntry(entries, tail);
      FirstEntry(all, None);
      assert entries[0] == all[0];
      AfterFirst(JsonEntry(EscapeChar, all[0], COMPACT), |entries| > 1 || tail.Some?, |all| > 1,
                 EntriesText(entries[1..], tail), EntriesText(all[1..], None));
    }
  }

  lemma BeginsWithEntry(text: string, all: seq<Entry>)
    requires all != [] && text <= JsonEntry(EscapeChar, all[0], COMPACT)
    ensures text <= JsonEntries(EscapeChar, all, COMPACT)
  {
    FirstEntry(all, None);
  }

  lemma {:induction false} EntryBegins(o: OpenEntry, e: Entry)
    requires BeginsEntry(o, e)
    ensures OpenEntryText(o) <= JsonEntry(EscapeChar, e, COMPACT)
    decreases o, 0
  {
    var key, value := Dump(e.key), JsonText(e.value, COMPACT);
    EntryIs(e);
    match o
    case OpenKey(k) =>
      EscapeMonotone(k, e.key);
      assert "\"" + Escape(k) <= key;
    case AfterKey(_, v) =>
      if v.Some? {
        OpenTextBegins(v.value, e.value);
        SamePrefix(key + ":", OpenText(v.value), value);
      } else {
        SamePrefix(key + ":", "", value);
      }
  }

  lemma EntryIs(e: Entry)
    ensures JsonEntry(EscapeChar, e, COMPACT) == Dump(e.key) + ":" + JsonText(e.value, COMPACT)
  {
    assert ":" + COMPACT.colon == ":";
  }
}
