/**
 Reading JSON (RFC 8259), to say what a text means: the values of strings are decoded by section 7,
 white space may stand around every token, and number texts are kept as they are, without a check of
 their grammar.
 */
module JsonReading {
  import opened Wrappers
  import opened Text
  import opened PythonLiterals
  import opened Transcoder

  datatype Value =
    | JTrue
    | JFalse
    | JNull
    | JNumber(text: string)
    | JString(value: string)
    | JArray(items: seq<Value>)
    | JObject(members: seq<Member>)

  datatype Member = Member(key: string, value: Value)

  /** The value of a Python literal; which quotes it was written with is no part of it. */
  function ValueOf(t: Py): Value {
    match t
    case PyTrue => JTrue
    case PyFalse => JFalse
    case PyNone => JNull
    case PyNumber(text) => JNumber(text)
    case PyString(_, s) => JString(s)
    case PyList(items) => JArray(seq(|items|, i requires 0 <= i < |items| => ValueOf(items[i])))
    case PyDict(entries) =>
      JObject(seq(|entries|, i requires 0 <= i < |entries| => Member(entries[i].key, ValueOf(entries[i].value))))
  }

  function Values(items: seq<Py>): seq<Value> { seq(|items|, i requires 0 <= i < |items| => ValueOf(items[i])) }

  function Members(entries: seq<Entry>): seq<Member> {
    seq(|entries|, i requires 0 <= i < |entries| => Member(entries[i].key, ValueOf(entries[i].value)))
  }

  /** What was read, and the text behind it. */
  datatype Read<+T> = Read(value: T, rest: string)

  // ----- strings -----

  function HexValue(c: char): Option<nat> {
    if '0' <= c <= '9' then Some((c - '0') as nat)
    else if 'a' <= c <= 'f' then Some((c - 'a') as nat + 10)
    else if 'A' <= c <= 'F' then Some((c - 'A') as nat + 10)
    else None
  }

  /** The number with the hexadecimal digits `s`. */
  function HexNumber(s: string): Option<nat> {
    if s == "" then Some(0)
    else
      var n := |s| - 1;
      var high, low := HexNumber(s[..n]), HexValue(s[n]);
      if high.None? || low.None? then None else Some(high.value * 16 + low.value)
  }

  /** The character of an escape with the given letter; surrogates, which need a second escape, are not read. */
  function Unescaped(s: string): Option<Read<char>> {
    if |s| < 2 then None
    else if s[1] == 'u' then UnescapedNumber(s)
    else
      match Letter(s[1])
      case None => None
      case Some(c) => Some(Read(c, s[2..]))
  }

  function Letter(c: char): Option<char> {
    if c == '"' || c == '\\' || c == '/' then Some(c)
    else if c == 'b' then Some(8 as char)
    else if c == 'f' then Some(12 as char)
    else if c == 'n' then Some('\n')
    else if c == 'r' then Some('\r')
    else if c == 't' then Some('\t')
    else None
  }

  function UnescapedNumber(s: string): Option<Read<char>> {
    if |s| < 6 then None
    else
      match HexNumber(s[2..6])
      case None => None
      case Some(n) => if n < 0xD800 || 0xE000 <= n < 0x1_0000 then Some(Read(n as char, s[6..])) else None
  }

  function Cons(c: char, r: Option<Read<string>>): Option<Read<string>> {
    match r
    case None => None
    case Some(read) => Some(Read([c] + read.value, read.rest))
  }

  /** The rest of a string whose opening quote has been read. */
  function ReadString(s: string): (r: Option<Read<string>>)
    ensures r.Some? ==> |r.value.rest| < |s|
    decreases |s|, 1
  {
    if s == "" then None else if s[0] == '"' then Some(Read("", s[1..])) else ReadChar(s)
  }

  function ReadChar(s: string): (r: Option<Read<string>>)
    requires s != "" && s[0] != '"'
    ensures r.Some? ==> |r.value.rest| < |s|
    decreases |s|, 0
  {
    if s[0] == '\\' then
      var c := Unescaped(s);
      if c.None? then None else Cons(c.value.value, ReadString(c.value.rest))
    else if s[0] < ' ' then None
    else Cons(s[0], ReadString(s[1..]))
  }

  // ----- values -----

  predicate IsBlank(c: char) { c == ' ' || c == '\t' || c == '\n' || c == '\r' }

  function Skip(s: string): (r: string)
    ensures |r| <= |s|
  {
    if s != "" && IsBlank(s[0]) then Skip(s[1..]) else s
  }

  function NumberLen(s: string): (n: nat)
    ensures n <= |s|
  {
    if s != "" && IsNumberChar(s[0]) then 1 + NumberLen(s[1..]) else 0
  }

  function Wrapped<T>(r: Option<Read<T>>, f: T -> Value): Option<Read<Value>> {
    match r
    case None => None
    case Some(read) => Some(Read(f(read.value), read.rest))
  }

  function ReadValue(text: string): (r: Option<Read<Value>>)
    ensures r.Some? ==> |r.value.rest| < |text|
    decreases |text|, 3
  {
    var s := Skip(text);
    if s == "" then None else ReadToken(s)
  }

  function ReadToken(s: string): (r: Option<Read<Value>>)
    requires s != ""
    ensures r.Some? ==> |r.value.rest| < |s|
    decreases |s|, 2
  {
    if s[0] == '"' then Wrapped(ReadString(s[1..]), v => JString(v))
    else if s[0] == '[' then Wrapped(ReadArray(s[1..]), v => JArray(v))
    else if s[0] == '{' then Wrapped(ReadObject(s[1..]), v => JObject(v))
    else if "true" <= s then Some(Read(JTrue, s[4..]))
    else if "false" <= s then Some(Read(JFalse, s[5..]))
    else if "null" <= s then Some(Read(JNull, s[4..]))
    else if NumberLen(s) > 0 then Some(Read(JNumber(s[..NumberLen(s)]), s[NumberLen(s)..]))
    else None
  }

  /** The items behind an opening bracket. */
  function ReadArray(text: string): (r: Option<Read<seq<Value>>>)
    ensures r.Some? ==> |r.value.rest| < |text|
    decreases |text|, 5
  {
    var s := Skip(text);
    if s != "" && s[0] == ']' then Some(Read([], s[1..])) else ReadItems(s)
  }

  function ReadItems(text: string): (r: Option<Read<seq<Value>>>)
    ensures r.Some? ==> |r.value.rest| < |text|
    decreases |text|, 4
  {
    var first := ReadValue(text);
    if first.None? then None
    else
      var s := Skip(first.value.rest);
      if s != "" && s[0] == ']' then Some(Read([first.value.value], s[1..]))
      else if s != "" && s[0] == ',' then
        var more := ReadItems(s[1..]);
        if more.None? then None else Some(Read([first.value.value] + more.value.value, more.value.rest))
      else None
  }

  function ReadObject(text: string): (r: Option<Read<seq<Member>>>)
    ensures r.Some? ==> |r.value.rest| < |text|
    decreases |text|, 5
  {
    var s := Skip(text);
    if s != "" && s[0] == '}' then Some(Read([], s[1..])) else ReadMembers(s)
  }

  function ReadMember(text: string): (r: Option<Read<Member>>)
    ensures r.Some? ==> |r.value.rest| < |text|
    decreases |text|, 3
  {
    var s := Skip(text);
    if s == "" || s[0] != '"' then None
    else
      var key := ReadString(s[1..]);
      if key.None? then None
      else
        var u := Skip(key.value.rest);
        if u == "" || u[0] != ':' then None
        else
          var v := ReadValue(u[1..]);
          if v.None? then None else Some(Read(Member(key.value.value, v.value.value), v.value.rest))
  }

  function ReadMembers(text: string): (r: Option<Read<seq<Member>>>)
    ensures r.Some? ==> |r.value.rest| < |text|
    decreases |text|, 4
  {
    var first := ReadMember(text);
    if first.None? then None
    else
      var s := Skip(first.value.rest);
      if s != "" && s[0] == '}' then Some(Read([first.value.value], s[1..]))
      else if s != "" && s[0] == ',' then
        var more := ReadMembers(s[1..]);
        if more.None? then None else Some(Read([first.value.value] + more.value.value, more.value.rest))
      else None
  }

  /** A whole text: one value, and nothing but white space around it. */
  function ReadJson(text: string): Option<Value> {
    match ReadValue(text)
    case None => None
    case Some(read) => if Skip(read.rest) == "" then Some(read.value) else None
  }

  // ----- reading one character -----

  /** How `f` writes the character is read back if it is one of `ok`, and otherwise is no JSON. */
  predicate CharReadsBack(f: char -> string, ok: char -> bool, c: char, post: string) {
    ReadString(f(c) + post) == if ok(c) then Cons(c, ReadString(post)) else None
  }

  ghost predicate ReadsBack(f: char -> string, ok: char -> bool) { forall c, post :: CharReadsBack(f, ok, c, post) }

  lemma OrdinaryChar(c: char, post: string)
    requires c != '"' && c != '\\' && c >= ' '
    ensures ReadString([c] + post) == Cons(c, ReadString(post))
  {
    assert ([c] + post)[1..] == post;
    assert ReadString([c] + post) == ReadChar([c] + post);
  }

  lemma Escaped(e: string, c: char, post: string)
    requires |e| >= 2 && e[0] == '\\' && Unescaped(e + post) == Some(Read(c, post))
    ensures ReadString(e + post) == Cons(c, ReadString(post))
  {
    assert ReadString(e + post) == ReadChar(e + post);
  }

  lemma NotEscaped(e: string, post: string)
    requires |e| >= 2 && e[0] == '\\' && Unescaped(e + post) == None
    ensures ReadString(e + post) == None
  {
    assert ReadString(e + post) == ReadChar(e + post);
  }

  lemma HexDigitReads(n: nat)
    requires n < 16
    ensures HexValue(HexDigit(n)) == Some(n)
  {
  }

  function Power16(k: nat): nat { if k == 0 then 1 else 16 * Power16(k - 1) }

  lemma {:induction false} HexDigitsRead(n: nat, k: nat)
    requires n < Power16(k)
    ensures HexNumber(HexDigits(n, k)) == Some(n)
    decreases k
  {
    if k > 0 {
      HexDigitsRead(n / 16, k - 1);
      HexDigitReads(n % 16);
      var s := HexDigits(n, k);
      assert s == HexDigits(n / 16, k - 1) + [HexDigit(n % 16)];
      assert s[..k - 1] == HexDigits(n / 16, k - 1);
    }
  }

  lemma FourDigits(n: nat, post: string)
    requires n < 0xD800 || 0xE000 <= n < 0x1_0000
    ensures Unescaped("\\u" + HexDigits(n, 4) + post) == Some(Read(n as char, post))
  {
    var s := "\\u" + HexDigits(n, 4) + post;
    assert Power16(4) == 0x1_0000;
    HexDigitsRead(n, 4);
    assert s[2..6] == HexDigits(n, 4) && s[6..] == post;
  }

  /** The two digits of a control character are the last of four. */
  lemma ControlDigits(c: char)
    requires c < ' '
    ensures "\\u00" + [HexDigit(c as int / 16), HexDigit(c as int % 16)] == "\\u" + HexDigits(c as int, 4)
  {
    var n := c as int;
    assert HexDigits(n, 4) == HexDigits(n / 16, 3) + [HexDigit(n % 16)];
    assert HexDigits(n / 16, 3) == HexDigits(0, 2) + [HexDigit(n / 16)];
    assert HexDigits(0, 2) == HexDigits(0, 1) + "0" && HexDigits(0, 1) == HexDigits(0, 0) + "0";
  }

  lemma EscapeReads(c: char, post: string)
    ensures ReadString(EscapeChar(c) + post) == Cons(c, ReadString(post))
  {
    var e := EscapeChar(c);
    if |e| == 1 {
      OrdinaryChar(c, post);
    } else if |e| == 2 {
      assert (e + post)[2..] == post;
      Escaped(e, c, post);
    } else {
      ControlDigits(c);
      FourDigits(c as int, post);
      Escaped(e, c, post);
    }
  }

  /** Characters Python writes with two or with eight digits. */
  predicate OddEscape(c: char, l: Layout) { ByNumber(c, l) && !(0x100 <= c as int < 0x1_0000) }

  function NotOdd(l: Layout): char -> bool { c => !OddEscape(c, l) }

  const ANY: char -> bool := c => true

  lemma NumberReads(c: char, post: string)
    ensures ReadString(NumberEscape(c) + post)
            == if 0x100 <= c as int < 0x1_0000 then Cons(c, ReadString(post)) else None
  {
    var e := NumberEscape(c);
    if 0x100 <= c as int < 0x1_0000 {
      FourDigits(c as int, post);
      Escaped(e, c, post);
    } else {
      assert (e + post)[1] == e[1];
      NotEscaped(e, post);
    }
  }

  lemma TranscodedReads(l: Layout)
    ensures ReadsBack(CharOut(l), NotOdd(l))
  {
    var f, ok := CharOut(l), NotOdd(l);
    forall c, post ensures CharReadsBack(f, ok, c, post) {
      if ByNumber(c, l) { NumberReads(c, post); } else { EscapeReads(c, post); }
    }
  }

  lemma EscapesRead()
    ensures ReadsBack(EscapeChar, ANY)
  {
    var ok := ANY;
    forall c, post ensures CharReadsBack(EscapeChar, ok, c, post) { EscapeReads(c, post); }
  }

  // ----- reading what was printed -----

  predicate AllOk(ok: char -> bool, s: string) { forall i :: 0 <= i < |s| ==> ok(s[i]) }

  /** Every string of the value holds only characters of `ok`. */
  predicate Readable(ok: char -> bool, t: Py) {
    match t
    case PyString(_, s) => AllOk(ok, s)
    case PyList(items) => forall i :: 0 <= i < |items| ==> Readable(ok, items[i])
    case PyDict(entries) =>
      forall i :: 0 <= i < |entries| ==> AllOk(ok, entries[i].key) && Readable(ok, entries[i].value)
    case _ => true
  }

  lemma {:induction false} StringReads(f: char -> string, ok: char -> bool, s: string, post: string)
    requires ReadsBack(f, ok)
    ensures ReadString(FlatMap(f, s) + "\"" + post) == if AllOk(ok, s) then Some(Read(s, post)) else None
    decreases |s|
  {
    if s == "" {
      assert ("" + "\"" + post)[1..] == post;
    } else {
      StringReads(f, ok, s[1..], post);
      var tail := FlatMap(f, s[1..]) + "\"" + post;
      assert FlatMap(f, s) + "\"" + post == f(s[0]) + tail;
      assert CharReadsBack(f, ok, s[0], tail);
      assert s == [s[0]] + s[1..];
      assert AllOk(ok, s) <==> ok(s[0]) && AllOk(ok, s[1..]);
    }
  }

  /** A number that ends here does not go on in what follows. */
  predicate Ends(post: string) { post == "" || !IsNumberChar(post[0]) }

  predicate Blank(s: string) { forall c :: c in s ==> c == ' ' }

  lemma {:induction false} SkipBlank(s: string, text: string)
    requires Blank(s)
    ensures Skip(s + text) == Skip(text)
    decreases |s|
  {
    if s == "" {
      assert "" + text == text;
    } else {
      assert s[0] in s && (s + text)[1..] == s[1..] + text;
      assert forall c :: c in s[1..] ==> c in s;
      SkipBlank(s[1..], text);
    }
  }

  lemma SkipNothing(text: string)
    requires text != "" && !IsBlank(text[0])
    ensures Skip(text) == text
  {
  }

  lemma BlankBefore(s: string, text: string)
    requires Blank(s)
    ensures ReadValue(s + text) == ReadValue(text) && ReadItems(s + text) == ReadItems(text)
    ensures ReadMember(s + text) == ReadMember(text) && ReadMembers(s + text) == ReadMembers(text)
  {
    SkipBlank(s, text);
    assert ReadValue(s + text) == ReadValue(text);
    assert ReadMember(s + text) == ReadMember(text);
  }

  predicate StartsValue(text: string) {
    text != "" && !IsBlank(text[0]) && text[0] != ']' && text[0] != '}' && text[0] != ',' && text[0] != ':'
  }

  lemma JsonStarts(f: char -> string, t: Py, l: Layout)
    requires Printable(t)
    ensures StartsValue(Json(f, t, l))
  {
    if t.PyNumber? { assert t.text[0] in t.text; }
  }

  lemma {:induction false} NumberEnds(s: string, post: string)
    requires (forall c :: c in s ==> IsNumberChar(c)) && Ends(post)
    ensures NumberLen(s + post) == |s|
    decreases |s|
  {
    if s == "" {
      assert "" + post == post;
    } else {
      assert s[0] in s && (s + post)[1..] == s[1..] + post;
      NumberEnds(s[1..], post);
    }
  }

  lemma NumberReadsBack(s: string, post: string)
    requires s != "" && (forall c :: c in s ==> IsNumberChar(c)) && Ends(post)
    ensures ReadValue(s + post) == Some(Read(JNumber(s), post))
  {
    assert s[0] in s;
    assert IsNumberChar(s[0]) && (s + post)[0] == s[0];
    NumberEnds(s, post);
    SkipNothing(s + post);
    assert (s + post)[..|s|] == s && (s + post)[|s|..] == post;
    assert ReadValue(s + post) == ReadToken(s + post);
  }

  lemma WordReads(w: string, v: Value, post: string)
    requires (w == "true" && v == JTrue) || (w == "false" && v == JFalse) || (w == "null" && v == JNull)
    ensures ReadValue(w + post) == Some(Read(v, post))
  {
    SkipNothing(w + post);
    assert w <= w + post && (w + post)[|w|..] == post;
    assert (w + post)[0] == w[0];
    assert ReadValue(w + post) == ReadToken(w + post);
  }

  lemma QuotedReads(f: char -> string, ok: char -> bool, s: string, post: string)
    requires ReadsBack(f, ok)
    ensures ReadValue(Quoted(f, s) + post) == if AllOk(ok, s) then Some(Read(JString(s), post)) else None
  {
    var text := Quoted(f, s) + post;
    StringReads(f, ok, s, post);
    assert text[1..] == FlatMap(f, s) + "\"" + post;
    SkipNothing(text);
    assert ReadValue(text) == ReadToken(text);
  }

  lemma {:induction false} ValueReads(f: char -> string, ok: char -> bool, t: Py, l: Layout, post: string)
    requires ReadsBack(f, ok) && Printable(t) && IsLayout(l) && Ends(post)
    ensures ReadValue(Json(f, t, l) + post) == if Readable(ok, t) then Some(Read(ValueOf(t), post)) else None
    decreases t, 0
  {
    match t
    case PyTrue => WordReads("true", JTrue, post);
    case PyFalse => WordReads("false", JFalse, post);
    case PyNone => WordReads("null", JNull, post);
    case PyNumber(text) => NumberReadsBack(text, post);
    case PyString(_, s) => QuotedReads(f, ok, s, post);
    case PyList(items) =>
      if items != [] { ItemsRead(f, ok, items, l, post); }
      ListReads(f, ok, items, l, post);
    case PyDict(entries) =>
      if entries != [] { MembersRead(f, ok, entries, l, post); }
      DictReads(f, ok, entries, l, post);
  }

  predicate AllReadable(ok: char -> bool, items: seq<Py>) { forall i :: 0 <= i < |items| ==> Readable(ok, items[i]) }

  predicate EntryReadable(ok: char -> bool, e: Entry) { AllOk(ok, e.key) && Readable(ok, e.value) }

  predicate AllEntriesReadable(ok: char -> bool, entries: seq<Entry>) {
    forall i :: 0 <= i < |entries| ==> EntryReadable(ok, entries[i])
  }

  lemma ListReads(f: char -> string, ok: char -> bool, items: seq<Py>, l: Layout, post: string)
    requires forall i :: 0 <= i < |items| ==> Printable(items[i])
    requires items != [] ==> ReadItems(JsonItems(f, items, l) + ("]" + post))
                             == if AllReadable(ok, items) then Some(Read(Values(items), post)) else None
    ensures ReadValue(Json(f, PyList(items), l) + post)
            == if Readable(ok, PyList(items)) then Some(Read(ValueOf(PyList(items)), post)) else None
  {
    var inner := JsonItems(f, items, l) + ("]" + post);
    var text := Json(f, PyList(items), l) + post;
    assert text == "[" + inner by { Bracket("[", JsonItems(f, items, l), "]", post); }
    assert text[1..] == inner;
    SkipNothing(text);
    assert ReadValue(text) == ReadToken(text);
    if items == [] {
      assert inner == "]" + post && Values(items) == [];
      SkipNothing(inner);
    } else {
      ItemsStart(f, items, l);
      assert inner[0] == JsonItems(f, items, l)[0];
      SkipNothing(inner);
      assert ReadArray(inner) == ReadItems(inner);
    }
    assert ValueOf(PyList(items)) == JArray(Values(items));
    assert Readable(ok, PyList(items)) <==> AllReadable(ok, items);
  }

  lemma ItemsStart(f: char -> string, items: seq<Py>, l: Layout)
    requires items != [] && Printable(items[0])
    ensures StartsValue(JsonItems(f, items, l))
  {
    JsonStarts(f, items[0], l);
  }

  lemma {:induction false} ItemsRead(f: char -> string, ok: char -> bool, items: seq<Py>, l: Layout, post: string)
    requires ReadsBack(f, ok) && items != [] && (forall i :: 0 <= i < |items| ==> Printable(items[i])) && IsLayout(l)
    ensures ReadItems(JsonItems(f, items, l) + ("]" + post))
            == if AllReadable(ok, items) then Some(Read(Values(items), post)) else None
    decreases items, 1
  {
    var tail := "]" + post;
    assert items == [items[0]] + items[1..];
    if |items| == 1 {
      ValueReads(f, ok, items[0], l, tail);
      LastItem(f, ok, items, l, post);
    } else {
      var more := JsonItems(f, items[1..], l) + tail;
      ValueReads(f, ok, items[0], l, ("," + l.comma) + more);
      ItemsRead(f, ok, items[1..], l, post);
      NextItem(f, ok, items, l, post, more);
    }
  }

  lemma ItemsStep(text: string)
    ensures ReadItems(text)
            == match ReadValue(text)
               case None => None
               case Some(first) =>
                 var s := Skip(first.rest);
                 if s != "" && s[0] == ']' then Some(Read([first.value], s[1..]))
                 else if s == "" || s[0] != ',' || ReadItems(s[1..]).None? then None
                 else Some(Read([first.value] + ReadItems(s[1..]).value.value, ReadItems(s[1..]).value.rest))
  {
  }

  lemma MembersStep(text: string)
    ensures ReadMembers(text)
            == match ReadMember(text)
               case None => None
               case Some(first) =>
                 var s := Skip(first.rest);
                 if s != "" && s[0] == '}' then Some(Read([first.value], s[1..]))
                 else if s == "" || s[0] != ',' || ReadMembers(s[1..]).None? then None
                 else Some(Read([first.value] + ReadMembers(s[1..]).value.value, ReadMembers(s[1..]).value.rest))
  {
  }

  lemma LastItem(f: char -> string, ok: char -> bool, items: seq<Py>, l: Layout, post: string)
    requires |items| == 1
    requires ReadValue(Json(f, items[0], l) + ("]" + post))
             == if Readable(ok, items[0]) then Some(Read(ValueOf(items[0]), "]" + post)) else None
    ensures ReadItems(JsonItems(f, items, l) + ("]" + post))
            == if AllReadable(ok, items) then Some(Read(Values(items), post)) else None
  {
    SkipNothing("]" + post);
    assert ("]" + post)[1..] == post && Values(items) == [ValueOf(items[0])];
    assert JsonItems(f, items, l) == Json(f, items[0], l);
    ItemsStep(Json(f, items[0], l) + ("]" + post));
  }

  lemma ItemsText(f: char -> string, items: seq<Py>, l: Layout, tail: string, more: string)
    requires |items| > 1 && more == JsonItems(f, items[1..], l) + tail
    ensures JsonItems(f, items, l) + tail == Json(f, items[0], l) + (("," + l.comma) + more)
  {
    Bracket(Json(f, items[0], l), "," + l.comma, JsonItems(f, items[1..], l), tail);
  }

  lemma EntriesText(f: char -> string, entries: seq<Entry>, l: Layout, tail: string, more: string)
    requires |entries| > 1 && more == JsonEntries(f, entries[1..], l) + tail
    ensures JsonEntries(f, entries, l) + tail == JsonEntry(f, entries[0], l) + (("," + l.comma) + more)
  {
    Bracket(JsonEntry(f, entries[0], l), "," + l.comma, JsonEntries(f, entries[1..], l), tail);
  }

  lemma AfterComma(blank: string, more: string, rest: string)
    requires Blank(blank) && rest == ("," + blank) + more
    ensures Skip(rest) == rest && rest != "" && rest[0] == ','
    ensures ReadItems(rest[1..]) == ReadItems(more) && ReadMembers(rest[1..]) == ReadMembers(more)
  {
    SkipNothing(rest);
    assert rest[1..] == blank + more;
    BlankBefore(blank, more);
  }

  lemma NextItem(f: char -> string, ok: char -> bool, items: seq<Py>, l: Layout, post: string, more: string)
    requires |items| > 1 && IsLayout(l) && more == JsonItems(f, items[1..], l) + ("]" + post)
    requires ReadValue(Json(f, items[0], l) + (("," + l.comma) + more))
             == if Readable(ok, items[0]) then Some(Read(ValueOf(items[0]), ("," + l.comma) + more)) else None
    requires ReadItems(more) == if AllReadable(ok, items[1..]) then Some(Read(Values(items[1..]), post)) else None
    ensures ReadItems(JsonItems(f, items, l) + ("]" + post))
            == if AllReadable(ok, items) then Some(Read(Values(items), post)) else None
  {
    var text, rest := Json(f, items[0], l) + (("," + l.comma) + more), ("," + l.comma) + more;
    ItemsText(f, items, l, "]" + post, more);
    AfterComma(l.comma, more, rest);
    ItemsStep(text);
    if Readable(ok, items[0]) { assert ReadItems(rest[1..]) == ReadItems(more); }
    assert Values(items) == [ValueOf(items[0])] + Values(items[1..]);
    ReadableCons(ok, items);
  }

  lemma ReadableCons(ok: char -> bool, items: seq<Py>)
    requires items != []
    ensures AllReadable(ok, items) <==> Readable(ok, items[0]) && AllReadable(ok, items[1..])
  {
    assert items == [items[0]] + items[1..];
  }

  lemma EntriesReadableCons(ok: char -> bool, entries: seq<Entry>)
    requires entries != []
    ensures AllEntriesReadable(ok, entries) <==> EntryReadable(ok, entries[0]) && AllEntriesReadable(ok, entries[1..])
  {
    assert entries == [entries[0]] + entries[1..];
  }

  lemma DictReadable(ok: char -> bool, entries: seq<Entry>)
    ensures Readable(ok, PyDict(entries)) <==> AllEntriesReadable(ok, entries)
  {
    assert forall i :: 0 <= i < |entries| ==>
      (EntryReadable(ok, entries[i]) <==> AllOk(ok, entries[i].key) && Readable(ok, entries[i].value));
  }

  lemma DictReads(f: char -> string, ok: char -> bool, entries: seq<Entry>, l: Layout, post: string)
    requires entries != [] ==> ReadMembers(JsonEntries(f, entries, l) + ("}" + post))
                               == if AllEntriesReadable(ok, entries) then Some(Read(Members(entries), post)) else None
    ensures ReadValue(Json(f, PyDict(entries), l) + post)
            == if Readable(ok, PyDict(entries)) then Some(Read(ValueOf(PyDict(entries)), post)) else None
  {
    var inner := JsonEntries(f, entries, l) + ("}" + post);
    var text := Json(f, PyDict(entries), l) + post;
    assert text == "{" + inner by { Bracket("{", JsonEntries(f, entries, l), "}", post); }
    assert text[1..] == inner;
    SkipNothing(text);
    assert ReadValue(text) == ReadToken(text);
    if entries == [] {
      assert inner == "}" + post && Members(entries) == [];
      SkipNothing(inner);
    } else {
      assert inner[0] == '"';
      SkipNothing(inner);
      assert ReadObject(inner) == ReadMembers(inner);
    }
    assert ValueOf(PyDict(entries)) == JObject(Members(entries));
    DictReadable(ok, entries);
  }

  lemma {:induction false} EntryReads(f: char -> string, ok: char -> bool, e: Entry, l: Layout, post: string)
    requires ReadsBack(f, ok) && Printable(e.value) && IsLayout(l) && Ends(post)
    ensures ReadMember(JsonEntry(f, e, l) + post)
            == if EntryReadable(ok, e) then Some(Read(Member(e.key, ValueOf(e.value)), post)) else None
    decreases e, 1
  {
    var v := Json(f, e.value, l) + post;
    var u := (":" + l.colon) + v;
    Bracket(Quoted(f, e.key), ":" + l.colon, Json(f, e.value, l), post);
    StringReads(f, ok, e.key, u);
    ValueReads(f, ok, e.value, l, post);
    KeyThenValue(f, ok, e, l, post, u, v);
  }

  lemma KeyThenValue(f: char -> string, ok: char -> bool, e: Entry, l: Layout, post: string, u: string, v: string)
    requires IsLayout(l) && u == (":" + l.colon) + v && JsonEntry(f, e, l) + post == Quoted(f, e.key) + u
    requires ReadString(FlatMap(f, e.key) + "\"" + u) == if AllOk(ok, e.key) then Some(Read(e.key, u)) else None
    requires ReadValue(v) == if Readable(ok, e.value) then Some(Read(ValueOf(e.value), post)) else None
    ensures ReadMember(JsonEntry(f, e, l) + post)
            == if EntryReadable(ok, e) then Some(Read(Member(e.key, ValueOf(e.value)), post)) else None
  {
    var text := Quoted(f, e.key) + u;
    SkipNothing(text);
    assert text[1..] == FlatMap(f, e.key) + "\"" + u;
    SkipNothing(u);
    assert u[1..] == l.colon + v;
    BlankBefore(l.colon, v);
  }

  lemma {:induction false} MembersRead(f: char -> string, ok: char -> bool, entries: seq<Entry>, l: Layout,
                                       post: string)
    requires ReadsBack(f, ok) && entries != [] && IsLayout(l)
    requires forall i :: 0 <= i < |entries| ==> Printable(entries[i].value)
    ensures ReadMembers(JsonEntries(f, entries, l) + ("}" + post))
            == if AllEntriesReadable(ok, entries) then Some(Read(Members(entries), post)) else None
    decreases entries, 2
  {
    var tail := "}" + post;
    assert entries == [entries[0]] + entries[1..];
    if |entries| == 1 {
      EntryReads(f, ok, entries[0], l, tail);
      LastMember(f, ok, entries, l, post);
    } else {
      var more := JsonEntries(f, entries[1..], l) + tail;
      EntryReads(f, ok, entries[0], l, ("," + l.comma) + more);
      MembersRead(f, ok, entries[1..], l, post);
      NextMember(f, ok, entries, l, post, more);
    }
  }

  lemma MembersBeforeComma(text: string, rest: string)
    requires ReadMember(text).Some? ==> ReadMember(text).value.rest == rest
    requires rest != "" && rest[0] == ',' && Skip(rest) == rest
    ensures ReadMembers(text)
            == if ReadMember(text).None? || ReadMembers(rest[1..]).None? then None
               else Some(Read([ReadMember(text).value.value] + ReadMembers(rest[1..]).value.value,
                              ReadMembers(rest[1..]).value.rest))
  {
    MembersStep(text);
  }

  lemma LastMember(f: char -> string, ok: char -> bool, entries: seq<Entry>, l: Layout, post: string)
    requires |entries| == 1
    requires ReadMember(JsonEntry(f, entries[0], l) + ("}" + post))
             == if EntryReadable(ok, entries[0])
                then Some(Read(Member(entries[0].key, ValueOf(entries[0].value)), "}" + post)) else None
    ensures ReadMembers(JsonEntries(f, entries, l) + ("}" + post))
            == if AllEntriesReadable(ok, entries) then Some(Read(Members(entries), post)) else None
  {
    SkipNothing("}" + post);
    assert ("}" + post)[1..] == post && Members(entries) == [Member(entries[0].key, ValueOf(entries[0].value))];
    assert JsonEntries(f, entries, l) == JsonEntry(f, entries[0], l);
    MembersStep(JsonEntry(f, entries[0], l) + ("}" + post));
  }

  lemma NextMember(f: char -> string, ok: char -> bool, entries: seq<Entry>, l: Layout, post: string, more: string)
    requires |entries| > 1 && IsLayout(l) && more == JsonEntries(f, entries[1..], l) + ("}" + post)
    requires ReadMember(JsonEntry(f, entries[0], l) + (("," + l.comma) + more))
             == if EntryReadable(ok, entries[0])
                then Some(Read(Member(entries[0].key, ValueOf(entries[0].value)), ("," + l.comma) + more)) else None
    requires ReadMembers(more)
             == if AllEntriesReadable(ok, entries[1..]) then Some(Read(Members(entries[1..]), post)) else None
    ensures ReadMembers(JsonEntries(f, entries, l) + ("}" + post))
            == if AllEntriesReadable(ok, entries) then Some(Read(Members(entries), post)) else None
  {
    var e, rest := entries[0], ("," + l.comma) + more;
    EntriesText(f, entries, l, "}" + post, more);
    AfterComma(l.comma, more, rest);
    EntriesReadableCons(ok, entries);
    MembersBeforeComma(JsonEntry(f, e, l) + rest, rest);
    assert Members(entries) == [Member(e.key, ValueOf(e.value))] + Members(entries[1..]);
  }

  lemma WholeReads(f: char -> string, ok: char -> bool, t: Py, l: Layout)
    requires ReadsBack(f, ok) && Printable(t) && IsLayout(l)
    ensures ReadJson(Json(f, t, l)) == if Readable(ok, t) then Some(ValueOf(t)) else None
  {
    ValueReads(f, ok, t, l, "");
    assert Json(f, t, l) + "" == Json(f, t, l);
  }

  // ----- what the texts mean -----

  /** The JSON text of a value reads as the value. */
  lemma JsonTextReads(t: Py, l: Layout)
    requires Printable(t) && IsLayout(l)
    ensures ReadJson(JsonText(t, l)) == Some(ValueOf(t))
  {
    EscapesRead();
    WholeReads(EscapeChar, ANY, t, l);
    AnyReadable(t);
  }

  lemma AnyReadable(t: Py)
    ensures Readable(ANY, t)
  {
  }

  /**
   The transcoded print of a value reads as the value exactly when Python writes no character of its strings with
   two or with eight digits; otherwise it is no JSON.
   */
  lemma NormalizeKeepsValue(t: Py, l: Layout)
    requires Printable(t) && IsLayout(l)
    ensures ReadJson(Normalize(Python(t, l))) == if Readable(NotOdd(l), t) then Some(ValueOf(t)) else None
  {
    NormalizePreservesMeaning(t, l);
    TranscodedReads(l);
    WholeReads(CharOut(l), NotOdd(l), t, l);
  }
}
