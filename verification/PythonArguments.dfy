/**
 The mapper and the transcoder together: a tagged call whose non-string arguments are printed
 Python literals finishes as one JSON object, every value in its place.
 */
module PythonArguments {
  import opened Text
  import opened JsonScan
  import opened PegMapper
  import opened CallAssembly
  import opened ChatMessage
  import opened PythonLiterals
  import opened Transcoder

  /** Characters that neither end nor escape anything inside quotes. */
  lemma {:induction false} RawStaysInside(s: string)
    requires forall i :: 0 <= i < |s| ==> RawInQuotes(s[i])
    ensures StaysInside(s)
    decreases |s|
  {
    if s != "" {
      RawStaysInside(s[1..]);
      assert ScanChar(Scan(0, true, false), s[0]) == Scan(0, true, false);
    }
  }

  lemma NumberStaysInside(c: char)
    ensures StaysInside(NumberEscape(c))
  {
    var e := NumberEscape(c);
    RawStaysInside(e[2..]);
    ScanSmall(Scan(0, true, false), e[..2]);
    ScanConcat(Scan(0, true, false), e[..2], e[2..]);
    assert e == e[..2] + e[2..];
  }

  lemma TranscodedCharStaysInside(c: char, l: Layout)
    ensures StaysInside(TranscodedChar(c, l))
  {
    if ByNumber(c, l) { NumberStaysInside(c); } else { EscapedCharStaysInside(c); }
  }

  lemma QuotedTextBalanced(s: string, l: Layout)
    ensures Balanced(Quoted(CharOut(l), s))
  {
    forall c ensures StaysInside(CharOut(l)(c)) { TranscodedCharStaysInside(c, l); }
    QuotedBalanced(CharOut(l), s);
  }

  /** Characters the scanner ignores outside strings. */
  predicate Inert(c: char) { c != '"' && c != '{' && c != '}' }

  lemma {:induction false} InertBalanced(s: string)
    requires forall c :: c in s ==> Inert(c)
    ensures Balanced(s)
    decreases |s|
  {
    if s != "" {
      assert s[0] in s;
      assert ScanChar(OUTSIDE, s[0]) == OUTSIDE;
      InertBalanced(s[1..]);
    }
  }

  lemma {:induction false} JsonBalanced(t: Py, l: Layout)
    requires Printable(t) && IsLayout(l)
    ensures Balanced(Json(CharOut(l), t, l))
    decreases t, 0
  {
    match t
    case PyString(_, s) => QuotedTextBalanced(s, l);
    case PyList(items) =>
      ItemsBalanced(items, l);
      InertBalanced("[");
      InertBalanced("]");
      BalancedConcat("[", JsonItems(CharOut(l), items, l));
      BalancedConcat("[" + JsonItems(CharOut(l), items, l), "]");
    case PyDict(entries) =>
      var body := JsonEntries(CharOut(l), entries, l);
      EntriesBalanced(entries, l);
      ScanConcat(OUTSIDE, "{", body);
      ScanSmall(OUTSIDE, "{");
      BalancedAnywhere(body, 1);
      ScanConcat(OUTSIDE, "{" + body, "}");
      ScanSmall(Scan(1, false, false), "}");
    case PyNumber(text) => InertBalanced(text);
    case PyTrue => InertBalanced("true");
    case PyFalse => InertBalanced("false");
    case PyNone => InertBalanced("null");
  }

  lemma {:induction false} ItemsBalanced(items: seq<Py>, l: Layout)
    requires (forall i :: 0 <= i < |items| ==> Printable(items[i])) && IsLayout(l)
    ensures Balanced(JsonItems(CharOut(l), items, l))
    decreases items, 1
  {
    if items != [] {
      JsonBalanced(items[0], l);
      if |items| > 1 {
        InertBalanced("," + l.comma);
        ItemsBalanced(items[1..], l);
        BalancedConcat(Json(CharOut(l), items[0], l), "," + l.comma);
        BalancedConcat(Json(CharOut(l), items[0], l) + ("," + l.comma), JsonItems(CharOut(l), items[1..], l));
      }
    }
  }

  lemma {:induction false} EntryBalanced(e: Entry, l: Layout)
    requires Printable(e.value) && IsLayout(l)
    ensures Balanced(JsonEntry(CharOut(l), e, l))
    decreases e, 1
  {
    QuotedTextBalanced(e.key, l);
    InertBalanced(":" + l.colon);
    JsonBalanced(e.value, l);
    BalancedConcat(Quoted(CharOut(l), e.key), ":" + l.colon);
    BalancedConcat(Quoted(CharOut(l), e.key) + (":" + l.colon), Json(CharOut(l), e.value, l));
  }

  lemma {:induction false} EntriesBalanced(entries: seq<Entry>, l: Layout)
    requires (forall i :: 0 <= i < |entries| ==> Printable(entries[i].value)) && IsLayout(l)
    ensures Balanced(JsonEntries(CharOut(l), entries, l))
    decreases entries, 2
  {
    if entries != [] {
      EntryBalanced(entries[0], l);
      if |entries| > 1 {
        InertBalanced("," + l.comma);
        EntriesBalanced(entries[1..], l);
        BalancedConcat(JsonEntry(CharOut(l), entries[0], l), "," + l.comma);
        BalancedConcat(JsonEntry(CharOut(l), entries[0], l) + ("," + l.comma),
                       JsonEntries(CharOut(l), entries[1..], l));
      }
    }
  }

  /** A parameter and its value, as the model meant it. */
  datatype Param = TextParam(name: string, text: string) | ValueParam(name: string, value: Py)

  predicate GoodParam(p: Param, l: Layout) { p.ValueParam? ==> Printable(p.value) && JsonSafe(p.value, l) }

  /** As the model writes it. */
  function Written(p: Param, l: Layout): Arg {
    match p
    case TextParam(name, text) => StringArg(name, text)
    case ValueParam(name, value) => RawArg(name, Python(value, l))
  }

  function AllWritten(ps: seq<Param>, l: Layout): seq<Arg> {
    seq(|ps|, i requires 0 <= i < |ps| => Written(ps[i], l))
  }

  /** As the client should receive it. */
  function JsonMember(p: Param, l: Layout): string {
    Dump(TrimName(p.name)) + ":" + if p.TextParam? then Dump(p.text) else JsonText(p.value, l)
  }

  function CommaJoin(texts: seq<string>): string
    decreases |texts|
  {
    if texts == [] then ""
    else if |texts| == 1 then texts[0]
    else texts[0] + "," + CommaJoin(texts[1..])
  }

  function JsonMembers(ps: seq<Param>, l: Layout): string {
    CommaJoin(seq(|ps|, i requires 0 <= i < |ps| => JsonMember(ps[i], l)))
  }

  lemma WrittenMember(p: Param, l: Layout)
    requires GoodParam(p, l) && IsLayout(l)
    ensures Member(Written(p, l)) == JsonMember(p, l)
    ensures p.ValueParam? ==> Balanced(ValueText(false, Written(p, l).value, false))
  {
    if p.ValueParam? {
      var text := Python(p.value, l);
      NormalizePreservesMeaning(p.value, l);
      JsonBalanced(p.value, l);
      assert ValueText(false, text, false) == Normalize(text);
    }
  }

  lemma {:induction false} SeparatedIsJoined(texts: seq<string>)
    ensures Separated(texts, true) == CommaJoin(texts)
    ensures texts != [] ==> Separated(texts, false) == "," + CommaJoin(texts)
    decreases |texts|
  {
    if |texts| == 1 {
      assert Separated(texts[1..], false) == "";
    } else if texts != [] {
      SeparatedIsJoined(texts[1..]);
    }
  }

  lemma WrittenMembers(ps: seq<Param>, l: Layout)
    requires (forall i :: 0 <= i < |ps| ==> GoodParam(ps[i], l)) && IsLayout(l)
    ensures Members(AllWritten(ps, l)) == JsonMembers(ps, l)
  {
    forall i | 0 <= i < |ps| ensures Member(AllWritten(ps, l)[i]) == JsonMember(ps[i], l) {
      WrittenMember(ps[i], l);
    }
    assert MemberTexts(AllWritten(ps, l)) == seq(|ps|, i requires 0 <= i < |ps| => JsonMember(ps[i], l));
    SeparatedIsJoined(MemberTexts(AllWritten(ps, l)));
  }

  /** With its brace, the assembled text is the JSON object of the members. */
  lemma WrittenArgsClose(ps: seq<Param>, l: Layout)
    requires (forall i :: 0 <= i < |ps| ==> GoodParam(ps[i], l)) && IsLayout(l)
    ensures var text := "{" + Members(AllWritten(ps, l));
            text + Braces(BraceDepth(text)) == "{" + JsonMembers(ps, l) + "}"
  {
    WrittenMembers(ps, l);
    forall i | 0 <= i < |ps| && ps[i].ValueParam?
      ensures Balanced(ValueText(false, AllWritten(ps, l)[i].value, false))
    {
      WrittenMember(ps[i], l);
    }
    BalancedArgsCloseExactly(AllWritten(ps, l));
  }

  /**
   Arguments as meant, written by the model and mapped, wherever the name comes: the client gets
   one more call, and its arguments are the JSON object of exactly those members.
   */
  lemma ArgumentsArriveAsJson(s: State, id: seq<Node>, k: nat, name: string, ps: seq<Param>, l: Layout)
    requires (forall i :: 0 <= i < |ps| ==> GoodParam(ps[i], l)) && IsLayout(l)
    requires TrimTrailing(name) != "" && (forall e :: e in id ==> e.tag.ToolId?)
    requires k <= |id + AllArgNodes(AllWritten(ps, l))|
    ensures var body := id + AllArgNodes(AllWritten(ps, l));
            var open, close := [Node(ToolOpen, "")], [Node(ToolClose, "")];
            var r := Run(s, open + body[..k] + [Node(ToolName, name)] + body[k..] + close);
            r.result.calls == s.result.calls
              + [ToolCall(TrimTrailing(name), "{" + JsonMembers(ps, l) + "}", DraftRun(EMPTY_DRAFT, id).id)]
  {
    WrittenArgsClose(ps, l);
    ExactAssembly(s, id, k, name, AllWritten(ps, l));
  }
}
