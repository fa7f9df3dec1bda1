/**
 The meaning of the transcoder: a Python literal printed the way `repr` prints it is
 rewritten to the JSON text of the same value, exactly when its strings hold no character
 that Python writes by its number.
 */
module PythonLiterals {
  import opened Sequences
  import opened Text
  import opened Transcoder

  datatype Quote = SingleQuote | DoubleQuote

  datatype Py =
    | PyTrue
    | PyFalse
    | PyNone
    | PyNumber(text: string)
    | PyString(quote: Quote, value: string)
    | PyList(items: seq<Py>)
    | PyDict(entries: seq<Entry>)

  datatype Entry = Entry(quote: Quote, key: string, value: Py)

  function QuoteChar(q: Quote): char { if q == SingleQuote then '\'' else '"' }

  function QuoteMode(q: Quote): Mode { if q == SingleQuote then Single else Double }

  /**
   Characters that Python writes by their number, although JSON does not: those below the space
   without an escape of their own, DEL, and beyond ASCII whatever is not printable.
   */
  predicate ByNumber(c: char, l: Layout) {
    (c < ' ' && c != '\n' && c != '\r' && c != '\t') || c == 127 as char || (c >= 128 as char && c in l.hidden)
  }

  /** The `k` lowest hexadecimal digits. */
  function HexDigits(n: nat, k: nat): (s: string)
    ensures |s| == k && forall i :: 0 <= i < k ==> RawInQuotes(s[i])
  {
    if k == 0 then "" else HexDigits(n / 16, k - 1) + [HexDigit(n % 16)]
  }

  /** Two digits below 0x100, four below 0x10000, else eight. */
  function NumberEscape(c: char): string {
    var n := c as int;
    if n < 0x100 then "\\x" + HexDigits(n, 2)
    else if n < 0x1_0000 then "\\u" + HexDigits(n, 4)
    else "\\U" + HexDigits(n, 8)
  }

  /** How `repr` prints one character of a string with the given quotes. */
  function PyChar(q: Quote, c: char, l: Layout): string {
    if c == '\\' || c == QuoteChar(q) then ['\\', c]
    else if c == '\n' then "\\n"
    else if c == '\r' then "\\r"
    else if c == '\t' then "\\t"
    else if ByNumber(c, l) then NumberEscape(c)
    else [c]
  }

  /** What the transcoder makes of that character. */
  function TranscodedChar(c: char, l: Layout): string {
    if ByNumber(c, l) then NumberEscape(c) else EscapeChar(c)
  }

  function CharOut(l: Layout): char -> string { c => TranscodedChar(c, l) }

  predicate IsNumberChar(c: char) {
    '0' <= c <= '9' || c == '+' || c == '-' || c == '.' || c == 'e' || c == 'E'
  }

  predicate IsPunctuation(c: char) {
    c == '[' || c == ']' || c == '{' || c == '}' || c == ',' || c == ':' || c == ' '
  }

  /** Number texts are digits, signs, points and exponents. */
  predicate Printable(t: Py) {
    match t
    case PyNumber(text) => text != "" && forall c :: c in text ==> IsNumberChar(c)
    case PyList(items) => forall i :: 0 <= i < |items| ==> Printable(items[i])
    case PyDict(entries) => forall i :: 0 <= i < |entries| ==> Printable(entries[i].value)
    case _ => true
  }

  /** The white space after commas and colons, and the characters beyond ASCII that are not printed as they are. */
  datatype Layout = Layout(comma: string, colon: string, hidden: set<char>)

  const COMPACT := Layout("", "", {})

  predicate IsLayout(l: Layout) {
    (forall c :: c in l.comma ==> c == ' ') && (forall c :: c in l.colon ==> c == ' ')
  }

  function CharIn(q: Quote, l: Layout): char -> string { c => PyChar(q, c, l) }

  function PyQuoted(q: Quote, s: string, l: Layout): string {
    [QuoteChar(q)] + FlatMap(CharIn(q, l), s) + [QuoteChar(q)]
  }

  function Python(t: Py, l: Layout): string
    decreases t, 0
  {
    match t
    case PyTrue => "True"
    case PyFalse => "False"
    case PyNone => "None"
    case PyNumber(text) => text
    case PyString(q, s) => PyQuoted(q, s, l)
    case PyList(items) => "[" + PythonItems(items, l) + "]"
    case PyDict(entries) => "{" + PythonEntries(entries, l) + "}"
  }

  function PythonItems(items: seq<Py>, l: Layout): string
    decreases items, 1
  {
    if items == [] then ""
    else if |items| == 1 then Python(items[0], l)
    else Python(items[0], l) + ("," + l.comma) + PythonItems(items[1..], l)
  }

  function PythonEntry(e: Entry, l: Layout): string
    decreases e, 1
  {
    PyQuoted(e.quote, e.key, l) + (":" + l.colon) + Python(e.value, l)
  }

  function PythonEntries(entries: seq<Entry>, l: Layout): string
    decreases entries, 2
  {
    if entries == [] then ""
    else if |entries| == 1 then PythonEntry(entries[0], l)
    else PythonEntry(entries[0], l) + ("," + l.comma) + PythonEntries(entries[1..], l)
  }

  function Quoted(f: char -> string, s: string): string {
    "\"" + FlatMap(f, s) + "\""
  }

  /** The JSON text of the same value; `f` says how a character inside a string is written. */
  function Json(f: char -> string, t: Py, l: Layout): string
    decreases t, 0
  {
    match t
    case PyTrue => "true"
    case PyFalse => "false"
    case PyNone => "null"
    case PyNumber(text) => text
    case PyString(q, s) => Quoted(f, s)
    case PyList(items) => "[" + JsonItems(f, items, l) + "]"
    case PyDict(entries) => "{" + JsonEntries(f, entries, l) + "}"
  }

  function JsonItems(f: char -> string, items: seq<Py>, l: Layout): string
    decreases items, 1
  {
    if items == [] then ""
    else if |items| == 1 then Json(f, items[0], l)
    else Json(f, items[0], l) + ("," + l.comma) + JsonItems(f, items[1..], l)
  }

  function JsonEntry(f: char -> string, e: Entry, l: Layout): string
    decreases e, 1
  {
    Quoted(f, e.key) + (":" + l.colon) + Json(f, e.value, l)
  }

  function JsonEntries(f: char -> string, entries: seq<Entry>, l: Layout): string
    decreases entries, 2
  {
    if entries == [] then ""
    else if |entries| == 1 then JsonEntry(f, entries[0], l)
    else JsonEntry(f, entries[0], l) + ("," + l.comma) + JsonEntries(f, entries[1..], l)
  }

  /** The JSON text of section 7 of RFC 8259. */
  function JsonText(t: Py, l: Layout): string { Json(EscapeChar, t, l) }

  // ----- reading one printed piece -----

  /** Text after a value: it does not continue a word. */
  predicate Delimited(post: string) { post == "" || !IsWordChar(post[0]) }

  /** One single-character token. */
  lemma CharStep(at: Place, c: char, post: string, out: string, mode: Mode)
    requires TokenAt(at, [c] + post) == Token(out, 1, mode)
    ensures Transcode(at, [c] + post) == out + Transcode(Place(mode, IsWordChar(c)), post)
  {
    TokenStep(at, [c] + post);
    assert ([c] + post)[1..] == post;
  }

  lemma PairStep(at: Place, c: char, post: string)
    requires at.mode != Plain
    ensures Transcode(at, ['\\', c] + post)
            == (if at.mode == Single && c == '\'' then "'" else ['\\', c])
               + Transcode(Place(at.mode, IsWordChar(c)), post)
  {
    TokenStep(at, ['\\', c] + post);
    assert (['\\', c] + post)[2..] == post;
  }

  /** Inside quotes the place only matters for its mode. */
  lemma QuotedPlace(a: Place, b: Place, rest: string)
    requires a.mode == b.mode && (a.mode != Plain || Delimited(rest))
    ensures Transcode(a, rest) == Transcode(b, rest)
  {
    if rest != "" {
      assert TokenAt(a, rest) == TokenAt(b, rest);
    }
  }

  predicate RawInQuotes(c: char) { c != '\\' && c != '"' && c != '\'' }

  /** An ordinary character inside quotes is copied. */
  lemma RawChar(at: Place, c: char, post: string)
    requires at.mode != Plain && RawInQuotes(c)
    ensures Transcode(at, [c] + post) == [c] + Transcode(at, post)
  {
    CharStep(at, c, post, [c], at.mode);
    QuotedPlace(Place(at.mode, IsWordChar(c)), at, post);
  }

  /** A quote inside a string with the other quotes. */
  lemma OtherQuote(q: Quote, at: Place, c: char, post: string)
    requires at.mode == QuoteMode(q) && c != QuoteChar(q) && (c == '"' || c == '\'')
    ensures Transcode(at, [c] + post) == EscapeChar(c) + Transcode(at, post)
  {
    CharStep(at, c, post, EscapeChar(c), at.mode);
    QuotedPlace(Place(at.mode, IsWordChar(c)), at, post);
  }

  lemma EscapedChar(at: Place, c: char, post: string)
    requires at.mode != Plain
    ensures Transcode(at, ['\\', c] + post)
            == (if at.mode == Single && c == '\'' then "'" else ['\\', c]) + Transcode(at, post)
  {
    PairStep(at, c, post);
    QuotedPlace(Place(at.mode, IsWordChar(c)), at, post);
  }

  /** Ordinary characters inside quotes are copied. */
  lemma {:induction false} RawRun(at: Place, s: string, post: string)
    requires at.mode != Plain && forall i :: 0 <= i < |s| ==> RawInQuotes(s[i])
    ensures Transcode(at, s + post) == s + Transcode(at, post)
    decreases |s|
  {
    if s == "" {
      assert "" + post == post;
    } else {
      RawRun(at, s[1..], post);
      RawChar(at, s[0], s[1..] + post);
      assert s == [s[0]] + s[1..];
      Associate([s[0]], s[1..], post);
      Associate([s[0]], s[1..], Transcode(at, post));
    }
  }

  /** A numeric escape is copied. */
  lemma NumberCopied(at: Place, c: char, post: string)
    requires at.mode != Plain
    ensures Transcode(at, NumberEscape(c) + post) == NumberEscape(c) + Transcode(at, post)
  {
    var e := NumberEscape(c);
    var x, digits := e[1], e[2..];
    assert e == ['\\', x] + digits;
    EscapedChar(at, x, digits + post);
    RawRun(at, digits, post);
    Associate(['\\', x], digits, post);
    Associate(['\\', x], digits, Transcode(at, post));
  }

  lemma OneChar(q: Quote, at: Place, c: char, post: string, l: Layout)
    requires at.mode == QuoteMode(q)
    ensures Transcode(at, PyChar(q, c, l) + post) == TranscodedChar(c, l) + Transcode(at, post)
  {
    if c == '\\' || c == QuoteChar(q) || c == '\n' || c == '\r' || c == '\t' {
      EscapedChar(at, PyChar(q, c, l)[1], post);
      assert PyChar(q, c, l) == ['\\', PyChar(q, c, l)[1]];
    } else if ByNumber(c, l) {
      NumberCopied(at, c, post);
    } else if c == '"' || c == '\'' {
      OtherQuote(q, at, c, post);
    } else {
      RawChar(at, c, post);
    }
  }

  /** Reading characters one by one adds up to reading the whole string. */
  lemma {:induction false} QuotedBody(q: Quote, at: Place, s: string, post: string, l: Layout)
    requires at.mode == QuoteMode(q)
    ensures Transcode(at, FlatMap(CharIn(q, l), s) + post) == FlatMap(CharOut(l), s) + Transcode(at, post)
    decreases |s|
  {
    if s == "" {
      assert "" + post == post;
    } else {
      var rest := FlatMap(CharIn(q, l), s[1..]) + post;
      QuotedBody(q, at, s[1..], post, l);
      OneChar(q, at, s[0], rest, l);
      Associate(PyChar(q, s[0], l), FlatMap(CharIn(q, l), s[1..]), post);
      Associate(TranscodedChar(s[0], l), FlatMap(CharOut(l), s[1..]), Transcode(at, post));
    }
  }

  lemma QuotedString(q: Quote, s: string, post: string, l: Layout)
    ensures Transcode(START, PyQuoted(q, s, l) + post) == Quoted(CharOut(l), s) + Transcode(START, post)
  {
    var body, at := FlatMap(CharIn(q, l), s), Place(QuoteMode(q), false);
    var tail := [QuoteChar(q)] + post;
    assert PyQuoted(q, s, l) + post == [QuoteChar(q)] + (body + tail);
    OpenQuote(q, body + tail);
    QuotedBody(q, at, s, tail, l);
    CloseQuote(q, post);
    Bracket("\"", FlatMap(CharOut(l), s), "\"", Transcode(START, post));
  }

  lemma OpenQuote(q: Quote, post: string)
    ensures Transcode(START, [QuoteChar(q)] + post) == "\"" + Transcode(Place(QuoteMode(q), false), post)
  {
    CharStep(START, QuoteChar(q), post, "\"", QuoteMode(q));
  }

  lemma CloseQuote(q: Quote, post: string)
    ensures Transcode(Place(QuoteMode(q), false), [QuoteChar(q)] + post) == "\"" + Transcode(START, post)
  {
    CharStep(Place(QuoteMode(q), false), QuoteChar(q), post, "\"", Plain);
  }

  lemma LiteralWord(c: char, post: string)
    requires c == 'T' || c == 'F' || c == 'N'
    requires Delimited(post)
    ensures Transcode(START, PythonLiteral(c) + post) == JsonLiteral(c) + Transcode(START, post)
  {
    var w := PythonLiteral(c);
    var rest := w + post;
    LiteralToken(c, post);
    TokenStep(START, rest);
    assert rest[|w|..] == post;
    QuotedPlace(After(TokenAt(START, rest), rest), START, post);
  }

  lemma LiteralToken(c: char, post: string)
    requires c == 'T' || c == 'F' || c == 'N'
    requires Delimited(post)
    ensures TokenAt(START, PythonLiteral(c) + post) == Token(JsonLiteral(c), |PythonLiteral(c)|, Plain)
  {
    var w := PythonLiteral(c);
    var rest := w + post;
    assert forall i :: 0 <= i < |w| ==> IsWordChar(w[i]);
    WordLenUnique(rest, |w|);
    assert rest[..|w|] == w;
    assert JsonLiteral(c)[..|w|] == JsonLiteral(c);
  }

  /** Outside quotes: number characters, brackets, commas, colons and spaces are copied. */
  lemma {:induction false} PlainRun(at: Place, s: string, post: string)
    requires at.mode == Plain
    requires forall c :: c in s ==> IsNumberChar(c) || IsPunctuation(c)
    ensures s != "" ==> Transcode(at, s + post) == s + Transcode(Place(Plain, IsWordChar(s[|s| - 1])), post)
    decreases |s|
  {
    if s != "" {
      var rest, next := s[1..] + post, Place(Plain, IsWordChar(s[0]));
      assert s == [s[0]] + s[1..] && s[0] in s;
      Associate([s[0]], s[1..], post);
      CharStep(at, s[0], rest, [s[0]], Plain);
      if |s| > 1 {
        PlainRun(next, s[1..], post);
        Glue(s, s[0], s[1..], Transcode(next, rest), Transcode(Place(Plain, IsWordChar(s[|s| - 1])), post));
      } else {
        assert rest == post;
      }
    }
  }

  lemma Glue(s: string, c: char, t: string, x: string, y: string)
    requires s == [c] + t && x == t + y
    ensures [c] + x == s + y
  {
  }

  lemma Punctuation(s: string, post: string)
    requires s != "" && forall c :: c in s ==> IsPunctuation(c)
    ensures Transcode(START, s + post) == s + Transcode(START, post)
  {
    PlainRun(START, s, post);
    assert s[|s| - 1] in s;
  }

  lemma NumberText(s: string, post: string)
    requires s != "" && (forall c :: c in s ==> IsNumberChar(c)) && Delimited(post)
    ensures Transcode(START, s + post) == s + Transcode(START, post)
  {
    PlainRun(START, s, post);
    QuotedPlace(Place(Plain, IsWordChar(s[|s| - 1])), START, post);
  }

  // ----- reading a whole value -----

  lemma {:induction false} TranscodesValue(t: Py, l: Layout, post: string)
    requires Printable(t) && IsLayout(l) && Delimited(post)
    ensures Transcode(START, Python(t, l) + post) == Json(CharOut(l), t, l) + Transcode(START, post)
    decreases t, 0
  {
    match t
    case PyTrue => LiteralWord('T', post);
    case PyFalse => LiteralWord('F', post);
    case PyNone => LiteralWord('N', post);
    case PyNumber(text) => NumberText(text, post);
    case PyString(q, s) => QuotedString(q, s, post, l);
    case PyList(items) =>
      var tail := "]" + post;
      Bracket("[", PythonItems(items, l), "]", post);
      Punctuation("[", PythonItems(items, l) + tail);
      TranscodesItems(items, l, tail);
      Punctuation("]", post);
      Bracket("[", JsonItems(CharOut(l), items, l), "]", Transcode(START, post));
    case PyDict(entries) =>
      var tail := "}" + post;
      Bracket("{", PythonEntries(entries, l), "}", post);
      Punctuation("{", PythonEntries(entries, l) + tail);
      TranscodesEntries(entries, l, tail);
      Punctuation("}", post);
      Bracket("{", JsonEntries(CharOut(l), entries, l), "}", Transcode(START, post));
  }

  lemma Bracket(a: string, b: string, c: string, d: string)
    ensures a + (b + (c + d)) == a + b + c + d
  {
  }

  lemma {:induction false} TranscodesItems(items: seq<Py>, l: Layout, post: string)
    requires (forall i :: 0 <= i < |items| ==> Printable(items[i])) && IsLayout(l) && Delimited(post)
    ensures Transcode(START, PythonItems(items, l) + post) == JsonItems(CharOut(l), items, l) + Transcode(START, post)
    decreases items, 1
  {
    if items == [] {
      assert "" + post == post;
    } else if |items| == 1 {
      TranscodesValue(items[0], l, post);
    } else {
      var comma := "," + l.comma;
      var tail := PythonItems(items[1..], l) + post;
      Bracket(Python(items[0], l), comma, PythonItems(items[1..], l), post);
      TranscodesValue(items[0], l, comma + tail);
      Punctuation(comma, tail);
      TranscodesItems(items[1..], l, post);
      Bracket(Json(CharOut(l), items[0], l), comma, JsonItems(CharOut(l), items[1..], l), Transcode(START, post));
    }
  }

  lemma {:induction false} TranscodesEntry(e: Entry, l: Layout, post: string)
    requires Printable(e.value) && IsLayout(l) && Delimited(post)
    ensures Transcode(START, PythonEntry(e, l) + post) == JsonEntry(CharOut(l), e, l) + Transcode(START, post)
    decreases e, 1
  {
    var colon := ":" + l.colon;
    var tail := Python(e.value, l) + post;
    Bracket(PyQuoted(e.quote, e.key, l), colon, Python(e.value, l), post);
    QuotedString(e.quote, e.key, colon + tail, l);
    Punctuation(colon, tail);
    TranscodesValue(e.value, l, post);
    Bracket(Quoted(CharOut(l), e.key), colon, Json(CharOut(l), e.value, l), Transcode(START, post));
  }

  lemma {:induction false} TranscodesEntries(entries: seq<Entry>, l: Layout, post: string)
    requires (forall i :: 0 <= i < |entries| ==> Printable(entries[i].value)) && IsLayout(l) && Delimited(post)
    ensures Transcode(START, PythonEntries(entries, l) + post)
            == JsonEntries(CharOut(l), entries, l) + Transcode(START, post)
    decreases entries, 2
  {
    if entries == [] {
      assert "" + post == post;
    } else if |entries| == 1 {
      TranscodesEntry(entries[0], l, post);
    } else {
      var comma := "," + l.comma;
      var tail := PythonEntries(entries[1..], l) + post;
      Bracket(PythonEntry(entries[0], l), comma, PythonEntries(entries[1..], l), post);
      TranscodesEntry(entries[0], l, comma + tail);
      Punctuation(comma, tail);
      TranscodesEntries(entries[1..], l, post);
      Bracket(JsonEntry(CharOut(l), entries[0], l), comma, JsonEntries(CharOut(l), entries[1..], l),
              Transcode(START, post));
    }
  }

  // ----- when that is the JSON text -----

  /** No string of the value holds a character whose Python escape JSON does not have. */
  predicate JsonSafeText(s: string, l: Layout) { forall c :: c in s ==> !ByNumber(c, l) }

  predicate JsonSafe(t: Py, l: Layout) {
    match t
    case PyString(_, s) => JsonSafeText(s, l)
    case PyList(items) => forall i :: 0 <= i < |items| ==> JsonSafe(items[i], l)
    case PyDict(entries) =>
      forall i :: 0 <= i < |entries| ==> JsonSafeText(entries[i].key, l) && JsonSafe(entries[i].value, l)
    case _ => true
  }

  lemma {:induction false} SafeTextAgrees(s: string, u: string, v: string, l: Layout)
    ensures FlatMap(CharOut(l), s) + u == FlatMap(EscapeChar, s) + v ==> JsonSafeText(s, l) && u == v
    ensures JsonSafeText(s, l) ==> FlatMap(CharOut(l), s) == FlatMap(EscapeChar, s)
    decreases |s|
  {
    if s == "" {
      assert "" + u == u && "" + v == v;
    } else {
      SafeTextAgrees(s[1..], u, v, l);
      FirstCharAgrees(s[0], FlatMap(CharOut(l), s[1..]), FlatMap(EscapeChar, s[1..]), u, v, l);
      assert s == [s[0]] + s[1..];
    }
  }

  lemma FirstCharAgrees(c: char, x: string, y: string, u: string, v: string, l: Layout)
    ensures TranscodedChar(c, l) + x + u == EscapeChar(c) + y + v ==> !ByNumber(c, l) && x + u == y + v
    ensures !ByNumber(c, l) ==> TranscodedChar(c, l) == EscapeChar(c)
  {
    var a, b := TranscodedChar(c, l), EscapeChar(c);
    Associate(a, x, u);
    Associate(b, y, v);
    if ByNumber(c, l) { NumberNeverJson(c, x + u, y + v, l); } else { Cancel(a, x + u, y + v); }
  }

  lemma NumberNeverJson(c: char, x: string, y: string, l: Layout)
    requires ByNumber(c, l)
    ensures NumberEscape(c) + x != EscapeChar(c) + y
  {
    var a, b := NumberEscape(c) + x, EscapeChar(c) + y;
    assert a[0] == '\\' && a[1] == NumberEscape(c)[1];
    if c < ' ' {
      assert a[1] == 'x' && b[1] == EscapeChar(c)[1] != 'x';
    } else {
      assert b[0] == c;
    }
  }

  lemma QuotedAgrees(s: string, u: string, v: string, l: Layout)
    ensures Quoted(CharOut(l), s) + u == Quoted(EscapeChar, s) + v ==> JsonSafeText(s, l) && u == v
    ensures JsonSafeText(s, l) ==> Quoted(CharOut(l), s) == Quoted(EscapeChar, s)
  {
    var a, b := FlatMap(CharOut(l), s), FlatMap(EscapeChar, s);
    SafeTextAgrees(s, "\"" + u, "\"" + v, l);
    assert Quoted(CharOut(l), s) + u == "\"" + (a + ("\"" + u));
    assert Quoted(EscapeChar, s) + v == "\"" + (b + ("\"" + v));
    Cancel("\"", a + ("\"" + u), b + ("\"" + v));
    Cancel("\"", u, v);
  }

  lemma {:induction false} ValueAgrees(t: Py, l: Layout, u: string, v: string)
    ensures Json(CharOut(l), t, l) + u == Json(EscapeChar, t, l) + v ==> JsonSafe(t, l) && u == v
    ensures JsonSafe(t, l) ==> Json(CharOut(l), t, l) == Json(EscapeChar, t, l)
    decreases t, 0
  {
    match t
    case PyTrue => Cancel("true", u, v);
    case PyFalse => Cancel("false", u, v);
    case PyNone => Cancel("null", u, v);
    case PyNumber(text) => Cancel(text, u, v);
    case PyString(q, s) => QuotedAgrees(s, u, v, l);
    case PyList(items) =>
      var a, b := JsonItems(CharOut(l), items, l), JsonItems(EscapeChar, items, l);
      ItemsAgree(items, l, "]" + u, "]" + v);
      Bracket("[", a, "]", u);
      Bracket("[", b, "]", v);
      Cancel("[", a + ("]" + u), b + ("]" + v));
      Cancel("]", u, v);
    case PyDict(entries) =>
      var a, b := JsonEntries(CharOut(l), entries, l), JsonEntries(EscapeChar, entries, l);
      EntriesAgree(entries, l, "}" + u, "}" + v);
      Bracket("{", a, "}", u);
      Bracket("{", b, "}", v);
      Cancel("{", a + ("}" + u), b + ("}" + v));
      Cancel("}", u, v);
  }

  lemma {:induction false} ItemsAgree(items: seq<Py>, l: Layout, u: string, v: string)
    ensures JsonItems(CharOut(l), items, l) + u == JsonItems(EscapeChar, items, l) + v ==>
              (forall i :: 0 <= i < |items| ==> JsonSafe(items[i], l)) && u == v
    ensures (forall i :: 0 <= i < |items| ==> JsonSafe(items[i], l)) ==>
              JsonItems(CharOut(l), items, l) == JsonItems(EscapeChar, items, l)
    decreases items, 1
  {
    if items == [] {
      Cancel("", u, v);
    } else if |items| == 1 {
      ValueAgrees(items[0], l, u, v);
    } else {
      var comma := "," + l.comma;
      var a, b := JsonItems(CharOut(l), items[1..], l), JsonItems(EscapeChar, items[1..], l);
      ValueAgrees(items[0], l, comma + (a + u), comma + (b + v));
      ItemsAgree(items[1..], l, u, v);
      Bracket(Json(CharOut(l), items[0], l), comma, a, u);
      Bracket(Json(EscapeChar, items[0], l), comma, b, v);
      Cancel(comma, a + u, b + v);
      assert items == [items[0]] + items[1..];
    }
  }

  lemma {:induction false} EntryAgrees(e: Entry, l: Layout, u: string, v: string)
    ensures JsonEntry(CharOut(l), e, l) + u == JsonEntry(EscapeChar, e, l) + v ==>
              JsonSafeText(e.key, l) && JsonSafe(e.value, l) && u == v
    ensures JsonSafeText(e.key, l) && JsonSafe(e.value, l)
            ==> JsonEntry(CharOut(l), e, l) == JsonEntry(EscapeChar, e, l)
    decreases e, 1
  {
    var colon := ":" + l.colon;
    var a, b := Json(CharOut(l), e.value, l), Json(EscapeChar, e.value, l);
    QuotedAgrees(e.key, colon + (a + u), colon + (b + v), l);
    ValueAgrees(e.value, l, u, v);
    Bracket(Quoted(CharOut(l), e.key), colon, a, u);
    Bracket(Quoted(EscapeChar, e.key), colon, b, v);
    Cancel(colon, a + u, b + v);
  }

  lemma {:induction false} EntriesAgree(entries: seq<Entry>, l: Layout, u: string, v: string)
    ensures JsonEntries(CharOut(l), entries, l) + u == JsonEntries(EscapeChar, entries, l) + v ==>
              && (forall i :: 0 <= i < |entries| ==> JsonSafeText(entries[i].key, l) && JsonSafe(entries[i].value, l))
              && u == v
    ensures (forall i :: 0 <= i < |entries| ==> JsonSafeText(entries[i].key, l) && JsonSafe(entries[i].value, l)) ==>
              JsonEntries(CharOut(l), entries, l) == JsonEntries(EscapeChar, entries, l)
    decreases entries, 2
  {
    if entries == [] {
      Cancel("", u, v);
    } else if |entries| == 1 {
      EntryAgrees(entries[0], l, u, v);
    } else {
      var comma := "," + l.comma;
      var a, b := JsonEntries(CharOut(l), entries[1..], l), JsonEntries(EscapeChar, entries[1..], l);
      EntryAgrees(entries[0], l, comma + (a + u), comma + (b + v));
      EntriesAgree(entries[1..], l, u, v);
      Bracket(JsonEntry(CharOut(l), entries[0], l), comma, a, u);
      Bracket(JsonEntry(EscapeChar, entries[0], l), comma, b, v);
      Cancel(comma, a + u, b + v);
      assert entries == [entries[0]] + entries[1..];
    }
  }

  /** The transcoder turns a printed literal into the JSON text of the same value, exactly for JSON-safe values. */
  lemma NormalizePreservesMeaning(t: Py, l: Layout)
    requires Printable(t) && IsLayout(l)
    ensures Normalize(Python(t, l)) == Json(CharOut(l), t, l)
    ensures Normalize(Python(t, l)) == JsonText(t, l) <==> JsonSafe(t, l)
  {
    TranscodesValue(t, l, "");
    assert Python(t, l) + "" == Python(t, l);
    var a := Json(CharOut(l), t, l);
    assert a + "" == a;
    ValueAgrees(t, l, "", "");
    assert JsonText(t, l) + "" == JsonText(t, l);
  }

  /** A string of the one character U+0001: Python writes a hexadecimal escape, which JSON does not have. */
  lemma ControlCharacterIsNotJson()
    ensures var t := PyString(SingleQuote, [1 as char]);
            && Python(t, COMPACT) == "'\\x01'"
            && Normalize(Python(t, COMPACT)) == "\"\\x01\"" && JsonText(t, COMPACT) == "\"\\u0001\""
  {
    var c := 1 as char;
    NormalizePreservesMeaning(PyString(SingleQuote, [c]), COMPACT);
    FirstControl(c);
    OneCharText(CharIn(SingleQuote, COMPACT), c);
    OneCharText(CharOut(COMPACT), c);
    OneCharText(EscapeChar, c);
  }

  lemma FirstControl(c: char)
    requires c == 1 as char
    ensures NumberEscape(c) == "\\x01" && EscapeChar(c) == "\\u0001"
  {
    assert HexDigits(1, 2) == HexDigits(0, 1) + "1";
    assert HexDigits(0, 1) == HexDigits(0, 0) + "0";
  }

  lemma OneCharText(f: char -> string, c: char)
    ensures FlatMap(f, [c]) == f(c)
  {
    assert FlatMap(f, [c][1..]) == "";
  }
}
