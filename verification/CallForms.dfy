/**
 The forms in which a call may arrive besides tagged arguments between an opening and a closing: a whole
 object in one node, a string value in pieces, a string the call's end leaves open, a second name, a blank one.
 */
module CallForms {
  import opened Wrappers
  import opened Text
  import opened ChatMessage
  import opened PegMapper
  import opened CallAssembly
  import opened JsonScan
  import Transcoder

  /** The calls of the message after a whole call whose name stands before the `k`-th node of its body. */
  function CallsAfter(s: State, body: seq<Node>, k: nat, name: string): seq<ToolCall>
    requires k <= |body|
  {
    Run(s, [Node(ToolOpen, "")] + body[..k] + [Node(ToolName, name)] + body[k..] + [Node(ToolClose, "")]).result.calls
  }

  // ----- ids -----

  predicate Quoted(text: string, inner: string) { text == "\"" + inner + "\"" }

  /** An id as it is written: in quotes or, if it has none, as it stands. */
  ghost predicate IdWrittenAs(text: string, id: string) {
    Quoted(TrimTrailing(text), id) || (TrimTrailing(text) == id && forall inner :: !Quoted(id, inner))
  }

  lemma IdIsUnquoted(text: string, id: string)
    ensures ParsedId(text) == id <==> IdWrittenAs(text, id)
  {
    var t := TrimTrailing(text);
    if |t| >= 2 && t[0] == '"' && t[|t| - 1] == '"' {
      assert Quoted(t, t[1..|t| - 1]);
      if Quoted(t, id) { assert id == t[1..|t| - 1]; }
    } else {
      forall inner ensures !Quoted(t, inner) {
        var q := "\"" + inner + "\"";
        assert q[0] == '"' && q[|q| - 1] == '"' && |q| >= 2;
      }
    }
  }

  /** The id of a call is the one given last; none is the empty one. */
  ghost predicate IdGiven(es: seq<Node>, id: string)
    decreases |es|
  {
    if es == [] then id == ""
    else if es[|es| - 1].tag.ToolId? then IdWrittenAs(es[|es| - 1].text, id)
    else IdGiven(es[..|es| - 1], id)
  }

  lemma {:induction false} DraftSnoc(d: Draft, es: seq<Node>, e: Node)
    ensures DraftRun(d, es + [e]) == DraftStep(DraftRun(d, es), e)
  {
    DraftConcat(d, es, [e]);
    assert [e][1..] == [];
    assert DraftRun(DraftRun(d, es), [e]) == DraftRest(DraftRun(d, es), [e]);
  }

  lemma {:induction false} LastIdCounts(es: seq<Node>)
    ensures IdGiven(es, DraftRun(EMPTY_DRAFT, es).id)
    decreases |es|
  {
    if es != [] {
      var init, e := es[..|es| - 1], es[|es| - 1];
      assert es == init + [e];
      LastIdCounts(init);
      DraftSnoc(EMPTY_DRAFT, init, e);
      if e.tag.ToolId? { IdIsUnquoted(e.text, ParsedId(e.text)); }
    }
  }

  // ----- whole objects -----

  /** What comes out of a body that holds whole arguments: all that was written before is replaced. */
  lemma ObjectReplaces(before: seq<Node>, text: string)
    requires ValuesInPlace(EMPTY_DRAFT, before) && !DraftRun(EMPTY_DRAFT, before).quote
    ensures var d := DraftRun(EMPTY_DRAFT, before + [Node(ToolArgs, text)]);
            && ValuesInPlace(EMPTY_DRAFT, before + [Node(ToolArgs, text)]) && !d.quote
            && d.id == DraftRun(EMPTY_DRAFT, before).id
            && OpenBrace(d.text) == if OpensObject(text) then TrimTrailing(text)
                                    else OpenBrace(DraftRun(EMPTY_DRAFT, before).text)
  {
    var e := Node(ToolArgs, text);
    DraftSnoc(EMPTY_DRAFT, before, e);
    ValuesInPlaceConcat(EMPTY_DRAFT, before, [e]);
    OneInPlace(DraftRun(EMPTY_DRAFT, before), e);
  }

  lemma OneInPlace(d: Draft, e: Node)
    ensures ValuesInPlace(d, [e]) <==> ValueInPlace(d, e)
  {
    assert [e][1..] == [];
    assert ValuesInPlace(d, [e]) == ValuesInPlaceRest(d, [e]);
  }

  lemma ClosedCall(s: State, body: seq<Node>, k: nat, name: string)
    requires TrimTrailing(name) != "" && k <= |body|
    requires (forall e :: e in body ==> BodyNode(e)) && ValuesInPlace(EMPTY_DRAFT, body)
    requires !DraftRun(EMPTY_DRAFT, body).quote
    ensures var d := DraftRun(EMPTY_DRAFT, body);
            var text := OpenBrace(d.text);
            CallsAfter(s, body, k, name)
            == s.result.calls + [ToolCall(TrimTrailing(name), text + Braces(BraceDepth(text)), d.id)]
  {
    NamedAnywhere(s, body, k, name);
  }

  /**
   A call whose arguments arrive as one object, its name anywhere: whatever arguments were written before are
   replaced by the object, which gets a brace for each one still open, and stays as it is when there is none.
   */
  lemma WholeObjectArrives(s: State, before: seq<Node>, text: string, k: nat, name: string, t: string)
    requires TrimTrailing(name) != "" && k <= |before| + 1
    requires (forall e :: e in before ==> BodyNode(e)) && ValuesInPlace(EMPTY_DRAFT, before)
    requires !DraftRun(EMPTY_DRAFT, before).quote
    requires t == TrimTrailing(text) && t != "" && t[0] == '{'
    ensures var id := DraftRun(EMPTY_DRAFT, before).id;
            && CallsAfter(s, before + [Node(ToolArgs, text)], k, name)
               == s.result.calls + [ToolCall(TrimTrailing(name), t + Braces(BraceDepth(t)), id)]
            && IdGiven(before, id)
  {
    ObjectReplaces(before, text);
    ClosedCall(s, before + [Node(ToolArgs, text)], k, name);
    LastIdCounts(before);
  }

  lemma {:induction false} BracesAre(n: int)
    ensures |Braces(n)| == if n <= 0 then 0 else n
    ensures forall i :: 0 <= i < |Braces(n)| ==> Braces(n)[i] == '}'
    decreases n
  {
    if n > 0 { BracesAre(n - 1); }
  }

  /** A balanced object gets no brace. */
  lemma BalancedObjectArrives(s: State, before: seq<Node>, text: string, k: nat, name: string, t: string)
    requires TrimTrailing(name) != "" && k <= |before| + 1
    requires (forall e :: e in before ==> BodyNode(e)) && ValuesInPlace(EMPTY_DRAFT, before)
    requires !DraftRun(EMPTY_DRAFT, before).quote
    requires t == TrimTrailing(text) && t != "" && t[0] == '{' && Balanced(t)
    ensures CallsAfter(s, before + [Node(ToolArgs, text)], k, name)
            == s.result.calls + [ToolCall(TrimTrailing(name), t, DraftRun(EMPTY_DRAFT, before).id)]
  {
    WholeObjectArrives(s, before, text, k, name, t);
    assert t + Braces(0) == t;
  }

  /** A text that does not begin an object changes nothing, wherever it stands. */
  lemma NoObjectIgnored(s: State, before: seq<Node>, text: string, after: seq<Node>)
    requires TrimTrailing(text) == "" || TrimTrailing(text)[0] != '{'
    ensures Run(s, before + [Node(ToolArgs, text)] + after) == Run(s, before + after)
  {
    var e := Node(ToolArgs, text);
    RunOne(Run(s, before), e);
    RunConcat(s, before, [e]);
    RunConcat(s, before + [e], after);
    RunConcat(s, before, after);
  }

  // ----- strings in pieces -----

  function StringNodes(name: string, pieces: seq<string>): seq<Node> {
    [Node(ArgOpen, ""), Node(ArgName, name)]
    + seq(|pieces|, i requires 0 <= i < |pieces| => Node(ArgStringValue, pieces[i]))
  }

  lemma FirstPiece(d: Draft, name: string, piece: string)
    requires !d.quote
    ensures var key := OpenBrace(d.text) + ArgKey(d.count, name);
            DraftRun(d, StringNodes(name, [piece]))
            == d.(text := key + "\"" + Escape(piece), count := d.count + 1, quote := true)
  {
    var key := OpenBrace(d.text) + ArgKey(d.count, name);
    var head, e := [Node(ArgOpen, ""), Node(ArgName, name)], Node(ArgStringValue, piece);
    TwoNodes(d, head[0], head[1]);
    DraftSnoc(d, head, e);
    assert StringNodes(name, [piece]) == head + [e];
    assert Escape("") == "" && key + "\"" + "" == key + "\"";
    Regroup(key, "\"", Escape(piece));
  }

  lemma NextPiece(d: Draft, text: string, value: string, piece: string)
    requires d.quote && d.text == text + Escape(value) && piece != ""
    ensures DraftStep(d, Node(ArgStringValue, piece)) == d.(text := text + Escape(value + piece))
  {
    MorePiece(piece);
    FlatMapConcat(EscapeChar, value, piece);
    Regroup(text, Escape(value), Escape(piece));
  }

  lemma MorePiece(piece: string)
    requires piece != ""
    ensures ValueText(true, piece, true) == Escape(piece)
  {
  }

  lemma {:induction false} PiecesRun(d: Draft, name: string, pieces: seq<string>)
    requires !d.quote && pieces != [] && forall i :: 0 < i < |pieces| ==> pieces[i] != ""
    ensures var key := OpenBrace(d.text) + ArgKey(d.count, name);
            DraftRun(d, StringNodes(name, pieces))
            == d.(text := key + "\"" + Escape(Joined(pieces)), count := d.count + 1, quote := true)
    decreases |pieces|
  {
    var n := |pieces| - 1;
    assert pieces == pieces[..n] + [pieces[n]];
    if n == 0 {
      FirstPiece(d, name, pieces[0]);
      assert Joined(pieces) == pieces[0] by { assert Joined(pieces[..0]) == ""; }
    } else {
      PiecesRun(d, name, pieces[..n]);
      DraftSnoc(d, StringNodes(name, pieces[..n]), Node(ArgStringValue, pieces[n]));
      assert StringNodes(name, pieces) == StringNodes(name, pieces[..n]) + [Node(ArgStringValue, pieces[n])];
      NextPiece(DraftRun(d, StringNodes(name, pieces[..n])), OpenBrace(d.text) + ArgKey(d.count, name) + "\"",
                Joined(pieces[..n]), pieces[n]);
    }
  }

  function Joined(pieces: seq<string>): string {
    if pieces == [] then "" else Joined(pieces[..|pieces| - 1]) + pieces[|pieces| - 1]
  }

  /**
   A string value that comes in several nodes, none but the first empty, is the string value of them together;
   an empty node after another would leave a quote in the text.
   */
  lemma StringInPieces(d: Draft, name: string, pieces: seq<string>)
    requires !d.quote && pieces != [] && forall i :: 0 < i < |pieces| ==> pieces[i] != ""
    ensures DraftRun(d, StringNodes(name, pieces) + [Node(ArgClose, "")])
            == DraftRun(d, ArgNodes(StringArg(name, Joined(pieces))))
    ensures DraftRun(d, StringNodes(name, pieces + [""])).text == DraftRun(d, StringNodes(name, pieces)).text + "\""
  {
    var key := OpenBrace(d.text) + ArgKey(d.count, name);
    var whole := Joined(pieces);
    PiecesRun(d, name, pieces);
    DraftSnoc(d, StringNodes(name, pieces), Node(ArgClose, ""));
    ArgAsPieces(d, name, whole);
    assert StringNodes(name, pieces + [""]) == StringNodes(name, pieces) + [Node(ArgStringValue, "")];
    DraftSnoc(d, StringNodes(name, pieces), Node(ArgStringValue, ""));
  }

  /** A string argument, seen as its one piece and its close. */
  lemma ArgAsPieces(d: Draft, name: string, value: string)
    requires !d.quote
    ensures DraftRun(d, ArgNodes(StringArg(name, value)))
            == d.(text := OpenBrace(d.text) + ArgKey(d.count, name) + "\"" + Escape(value) + "\"", count := d.count + 1)
  {
    PiecesRun(d, name, [value]);
    assert Joined([value]) == value by { assert [value][..0] == []; }
    assert ArgNodes(StringArg(name, value)) == StringNodes(name, [value]) + [Node(ArgClose, "")];
    DraftSnoc(d, StringNodes(name, [value]), Node(ArgClose, ""));
  }

  lemma StringInPlace(d: Draft, arg: string, value: string)
    requires !d.quote
    ensures ValuesInPlace(d, StringNodes(arg, [value]))
  {
    OneArg(d, StringArg(arg, value));
    assert ArgNodes(StringArg(arg, value)) == StringNodes(arg, [value]) + [Node(ArgClose, "")];
    ValuesInPlaceConcat(d, StringNodes(arg, [value]), [Node(ArgClose, "")]);
  }

  /** A body that ends inside a string value, and the same with the value closed. */
  lemma OpenAndClosed(before: seq<Node>, arg: string, value: string)
    requires ValuesInPlace(EMPTY_DRAFT, before) && !DraftRun(EMPTY_DRAFT, before).quote
    ensures var open, whole := before + StringNodes(arg, [value]), before + ArgNodes(StringArg(arg, value));
            var d := DraftRun(EMPTY_DRAFT, open);
            && ValuesInPlace(EMPTY_DRAFT, open) && ValuesInPlace(EMPTY_DRAFT, whole) && d.quote && d.text != ""
            && DraftRun(EMPTY_DRAFT, whole) == d.(text := d.text + "\"", quote := false)
  {
    var d := DraftRun(EMPTY_DRAFT, before);
    StringInPlace(d, arg, value);
    OneArg(d, StringArg(arg, value));
    ValuesInPlaceConcat(EMPTY_DRAFT, before, StringNodes(arg, [value]));
    ValuesInPlaceConcat(EMPTY_DRAFT, before, ArgNodes(StringArg(arg, value)));
    DraftConcat(EMPTY_DRAFT, before, StringNodes(arg, [value]));
    DraftConcat(EMPTY_DRAFT, before, ArgNodes(StringArg(arg, value)));
    FirstPiece(d, arg, value);
    ArgAsPieces(d, arg, value);
  }

  lemma StringBody(before: seq<Node>, arg: string, value: string)
    requires forall e :: e in before ==> BodyNode(e)
    ensures forall e :: e in before + StringNodes(arg, [value]) ==> BodyNode(e)
    ensures forall e :: e in before + ArgNodes(StringArg(arg, value)) ==> BodyNode(e)
  {
  }

  lemma SameCall(s: State, a: seq<Node>, b: seq<Node>, k: nat, name: string)
    requires TrimTrailing(name) != "" && k <= |a| && k <= |b|
    requires (forall e :: e in a ==> BodyNode(e)) && ValuesInPlace(EMPTY_DRAFT, a)
    requires (forall e :: e in b ==> BodyNode(e)) && ValuesInPlace(EMPTY_DRAFT, b)
    requires var d := DraftRun(EMPTY_DRAFT, a);
             d.quote && d.text != "" && DraftRun(EMPTY_DRAFT, b) == d.(text := d.text + "\"", quote := false)
    ensures CallsAfter(s, a, k, name) == CallsAfter(s, b, k, name)
  {
    NamedAnywhere(s, a, k, name);
    NamedAnywhere(s, b, k, name);
  }

  /** A call whose end comes inside a string value is the call in which that value was closed. */
  lemma EndClosesString(s: State, before: seq<Node>, arg: string, value: string, k: nat, name: string)
    requires TrimTrailing(name) != "" && k <= |before|
    requires (forall e :: e in before ==> BodyNode(e)) && ValuesInPlace(EMPTY_DRAFT, before)
    requires !DraftRun(EMPTY_DRAFT, before).quote
    ensures CallsAfter(s, before + StringNodes(arg, [value]), k, name)
            == CallsAfter(s, before + ArgNodes(StringArg(arg, value)), k, name)
  {
    OpenAndClosed(before, arg, value);
    StringBody(before, arg, value);
    SameCall(s, before + StringNodes(arg, [value]), before + ArgNodes(StringArg(arg, value)), k, name);
  }

  /** An argument that opens inside a string value forgets the string: its quote is never written. */
  lemma OpeningForgetsString(d: Draft, arg: string, value: string, next: Arg)
    requires !d.quote
    ensures DraftRun(d, StringNodes(arg, [value]) + ArgNodes(next)).text
            == OpenBrace(d.text) + ArgKey(d.count, arg) + "\"" + Escape(value) + ("," + Member(next))
  {
    PiecesRun(d, arg, [value]);
    assert Joined([value]) == value by { assert [value][..0] == []; }
    DraftConcat(d, StringNodes(arg, [value]), ArgNodes(next));
    var open := DraftRun(d, StringNodes(arg, [value]));
    OpeningResets(open, ArgNodes(next));
    OneArg(open.(quote := false), next);
  }

  lemma OpeningResets(d: Draft, es: seq<Node>)
    requires es != [] && es[0].tag.ArgOpen?
    ensures DraftRun(d, es) == DraftRun(d.(quote := false), es)
  {
    assert DraftRun(d, es) == DraftRest(d, es);
    assert DraftRun(d.(quote := false), es) == DraftRest(d.(quote := false), es);
  }

  // ----- names -----

  lemma Renamed(s: State, calls: seq<ToolCall>, n: string, d: Draft, e: Node)
    requires Drafting(s, calls, Some(n), d) && e.tag.ToolName? && TrimTrailing(e.text) != ""
    ensures Drafting(Step(s, e), calls, Some(TrimTrailing(e.text)), d)
  {
    DraftingLast(s, calls, n, d, ToolCall(TrimTrailing(e.text), OpenBrace(d.text), d.id));
  }

  /** Named twice before it closes: the last name counts, and nothing else changes. */
  lemma LastNameCounts(s: State, before: seq<Node>, first: string, after: seq<Node>, name: string)
    requires TrimTrailing(first) != "" && TrimTrailing(name) != ""
    requires (forall e :: e in before + after ==> BodyNode(e)) && ValuesInPlace(EMPTY_DRAFT, before + after)
    ensures Run(s, [Node(ToolOpen, "")] + before + [Node(ToolName, first)] + after
                   + [Node(ToolName, name), Node(ToolClose, "")]).result.calls
            == CallsAfter(s, before + after, |before|, name)
  {
    var open, named, close := Node(ToolOpen, ""), Node(ToolName, name), Node(ToolClose, "");
    var es := [open] + before + [Node(ToolName, first)] + after;
    var d := DraftRun(EMPTY_DRAFT, before + after);
    CallBegun(s, open, before, Node(ToolName, first), after);
    Renamed(Run(s, es), s.result.calls, TrimTrailing(first), d, named);
    CloseStep(Step(Run(s, es), named), s.result.calls, TrimTrailing(name), d, close);
    TwoSteps(s, es, named, close);
    NamedAnywhere(s, before + after, |before|, name);
  }

  lemma TwoSteps(s: State, es: seq<Node>, a: Node, b: Node)
    ensures Run(s, es + [a, b]) == Step(Step(Run(s, es), a), b)
  {
    assert es + [a, b] == es + [a] + [b];
    RunConcat(s, es, [a]);
    RunConcat(s, es + [a], [b]);
    RunOne(Run(s, es), a);
    RunOne(Step(Run(s, es), a), b);
  }

  /** Inside a call whose name was blank: it is in the message, but its arguments still go to the buffer. */
  predicate Blank(s: State, calls: seq<ToolCall>, arguments: string, d: Draft) {
    && s.current == OnResult && s.pending == None && s.buffer == d.text && arguments != ""
    && s.argCount == d.count && s.quotePending == d.quote
    && s.result.calls == calls + [ToolCall("", arguments, d.id)]
  }

  lemma BlankLast(s: State, calls: seq<ToolCall>, arguments: string, d: Draft, c: ToolCall)
    requires Blank(s, calls, arguments, d)
    ensures HasCall(s) && Current(s) == ToolCall("", arguments, d.id)
    ensures WithLast(s.result.calls, c) == calls + [c]
  {
    assert s.result.calls[..|s.result.calls| - 1] == calls;
  }

  lemma BlankWritten(s: State, calls: seq<ToolCall>, arguments: string, d: Draft, text: string)
    requires Blank(s, calls, arguments, d)
    ensures HasCall(s) && ArgsTarget(s) == d.text
    ensures Blank(SetArgs(s, text), calls, arguments, d.(text := text))
  {
  }

  lemma BlankStep(s: State, calls: seq<ToolCall>, arguments: string, d: Draft, e: Node)
    requires Blank(s, calls, arguments, d) && BodyNode(e)
    ensures Blank(Step(s, e), calls, arguments, DraftStep(d, e))
  {
    match e.tag
    case ToolId => BlankLast(s, calls, arguments, d, ToolCall("", arguments, DraftStep(d, e).id));
    case ToolArgs => BlankWritten(s, calls, arguments, d, TrimTrailing(e.text));
    case ArgName => BlankWritten(s, calls, arguments, d, OpenBrace(d.text) + ArgKey(d.count, e.text));
    case ArgValue => BlankWritten(s, calls, arguments, d, d.text + ValueText(false, e.text, d.quote));
    case ArgStringValue => BlankWritten(s, calls, arguments, d, d.text + ValueText(true, e.text, d.quote));
    case ArgClose => BlankWritten(s, calls, arguments, d, d.text + "\"");
    case _ =>
  }

  lemma {:induction false} BlankRun(s: State, calls: seq<ToolCall>, arguments: string, d: Draft, es: seq<Node>)
    requires Blank(s, calls, arguments, d) && forall e :: e in es ==> BodyNode(e)
    ensures Blank(Run(s, es), calls, arguments, DraftRun(d, es))
    decreases |es|
  {
    if es != [] {
      BlankStep(s, calls, arguments, d, es[0]);
      BlankRun(Step(s, es[0]), calls, arguments, DraftStep(d, es[0]), es[1..]);
      RunOne(s, es[0]);
      RunConcat(s, [es[0]], es[1..]);
      assert [es[0]] + es[1..] == es;
    }
  }

  lemma BlankClosed(s: State, calls: seq<ToolCall>, arguments: string, d: Draft, e: Node)
    requires Blank(s, calls, arguments, d) && e.tag.ToolClose?
    ensures Step(s, e).result.calls
            == calls + [ToolCall("", Closed(if d.text != "" then d.text else arguments, d.quote), d.id)]
  {
    BlankLast(s, calls, arguments, d,
              ToolCall("", Closed(if d.text != "" then d.text else arguments, d.quote), d.id));
  }

  /** A call with a blank name is emitted all the same, under the empty name. */
  lemma BlankNameEmitted(s: State, name: string, body: seq<Node>)
    requires TrimTrailing(name) == "" && (forall e :: e in body ==> BodyNode(e))
    ensures var d := DraftRun(EMPTY_DRAFT, body);
            CallsAfter(s, body, 0, name) == s.result.calls + [ToolCall("", Closed(OpenBrace(d.text), d.quote), d.id)]
  {
    var open, named, close := Node(ToolOpen, ""), Node(ToolName, name), Node(ToolClose, "");
    var d := DraftRun(EMPTY_DRAFT, body);
    TwoSteps(s, [], open, named);
    assert [] + [open, named] == [open, named];
    assert [open] + body[..0] + [named] + body[0..] + [close] == [open, named] + body + [close];
    var s2 := Step(Step(s, open), named);
    assert Blank(s2, s.result.calls, "{", EMPTY_DRAFT);
    BlankRun(s2, s.result.calls, "{", EMPTY_DRAFT, body);
    BlankClosed(Run(s2, body), s.result.calls, "{", d, close);
    RunConcat(s, [open, named], body);
    RunConcat(s, [open, named] + body, [close]);
    RunOne(Run(s2, body), close);
  }

  // ----- nodes outside a call -----

  predicate OnlyTextsDiffer(s: State, t: State) {
    t.current == s.current && t.result.calls == s.result.calls && t.pending == s.pending && t.buffer == s.buffer
  }

  lemma OutsideStep(s: State, e: Node)
    requires s.current == NoCall && !e.tag.ToolOpen?
    ensures OnlyTextsDiffer(s, Step(s, e))
  {
  }

  /** Before any call opens, only texts are taken. */
  lemma {:induction false} NothingBeforeOpening(s: State, es: seq<Node>)
    requires s.current == NoCall && forall e :: e in es ==> !e.tag.ToolOpen?
    ensures OnlyTextsDiffer(s, Run(s, es))
    decreases |es|
  {
    if es != [] {
      var n := |es| - 1;
      assert es[n] in es && forall e :: e in es[..n] ==> e in es;
      NothingBeforeOpening(s, es[..n]);
      OutsideStep(Run(s, es[..n]), es[n]);
    }
  }

  /** A closed call is still the current one: an argument value that comes too late is written behind its end. */
  lemma LateValueAppended(s: State, before: seq<Node>, name: string, after: seq<Node>, value: string)
    requires TrimTrailing(name) != "" && value != ""
    requires (forall e :: e in before + after ==> BodyNode(e)) && ValuesInPlace(EMPTY_DRAFT, before + after)
    ensures var d := DraftRun(EMPTY_DRAFT, before + after);
            Run(s, [Node(ToolOpen, "")] + before + [Node(ToolName, name)] + after
                   + [Node(ToolClose, ""), Node(ArgValue, value)]).result.calls
            == s.result.calls + [ToolCall(TrimTrailing(name),
                                          Closed(OpenBrace(d.text), d.quote) + Transcoder.Normalize(value), d.id)]
  {
    var open, named, close, late := Node(ToolOpen, ""), Node(ToolName, name), Node(ToolClose, ""), Node(ArgValue, value);
    var es := [open] + before + [named] + after;
    var d := DraftRun(EMPTY_DRAFT, before + after);
    CallBegun(s, open, before, named, after);
    TwoSteps(s, es, close, late);
    LateValue(Run(s, es), s.result.calls, TrimTrailing(name), d, close, late);
  }

  lemma LateValue(s: State, calls: seq<ToolCall>, n: string, d: Draft, close: Node, late: Node)
    requires Drafting(s, calls, Some(n), d) && close.tag.ToolClose? && late.tag.ArgValue? && late.text != ""
    ensures Step(Step(s, close), late).result.calls
            == calls + [ToolCall(n, Closed(OpenBrace(d.text), d.quote) + Transcoder.Normalize(late.text), d.id)]
  {
    var c := ToolCall(n, Closed(OpenBrace(d.text), d.quote), d.id);
    CloseStep(s, calls, n, d, close);
    DraftingLast(s, calls, n, d, c);
    var t := Step(s, close);
    assert t.current == OnResult && t.pending == None && Last(t.result.calls) == c;
    assert t.result.calls[..|t.result.calls| - 1] == calls;
  }
}
