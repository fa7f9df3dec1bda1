/**
 What the mapper's pointer, buffer and flags amount to: the arguments of a finished call are
 a simple fold over its argument nodes, wherever its name came, and for well-tagged arguments
 they are the JSON object of those arguments.
 */
module CallAssembly {
  import opened Wrappers
  import opened Text
  import opened ChatMessage
  import opened PegMapper
  import opened JsonScan

  // ----- invariants of every run -----

  /** What holds between any two nodes. */
  predicate Inv(s: State) {
    && Sound(s)
    && (s.pending.Some? ==> s.pending.value.name == "" && s.pending.value.arguments == "")
    && (s.current == OnResult && Last(s.result.calls).name != "" ==> s.buffer == "")
    && (s.current == Dangling ==> !s.quotePending)
  }

  lemma WriteArgsKeepsInv(s: State, text: string)
    requires Inv(s) && HasCall(s)
    ensures var t := SetArgs(s, text);
            Inv(t) && HasCall(t)
  {
  }

  lemma NameKeepsInv(s: State, text: string)
    requires Inv(s) && HasCall(s)
    ensures Inv(NameCall(s, text))
  {
  }

  lemma CloseKeepsInv(s: State)
    requires Inv(s) && HasCall(s)
    ensures Inv(CloseCall(s))
  {
  }

  lemma StepOnCallKeepsInv(s: State, e: Node)
    requires Inv(s) && HasCall(s)
    ensures Inv(StepOnCall(s, e))
  {
    match e.tag
    case ToolName => NameKeepsInv(s, e.text);
    case ToolArgs => WriteArgsKeepsInv(s, TrimTrailing(e.text));
    case ArgName => WriteArgsKeepsInv(s, OpenBrace(ArgsTarget(s)) + ArgKey(s.argCount, e.text));
    case ArgValue => WriteArgsKeepsInv(s, ArgsTarget(s) + ValueText(false, e.text, s.quotePending));
    case ArgStringValue => WriteArgsKeepsInv(s, ArgsTarget(s) + ValueText(true, e.text, s.quotePending));
    case ArgClose => WriteArgsKeepsInv(s, ArgsTarget(s) + "\"");
    case ToolClose => CloseKeepsInv(s);
    case _ =>
  }

  lemma StepKeepsInv(s: State, e: Node)
    requires Inv(s)
    ensures Inv(Step(s, e))
  {
    if HasCall(s) { StepOnCallKeepsInv(s, e); }
  }

  lemma {:induction false} RunKeepsInv(s: State, es: seq<Node>)
    requires Inv(s)
    ensures Inv(Run(s, es))
    decreases |es|
  {
    if es != [] {
      RunKeepsInv(s, es[..|es| - 1]);
      StepKeepsInv(Run(s, es[..|es| - 1]), es[|es| - 1]);
    }
  }

  /** The flush at the end of `from_ast` never has anything to do: a named call is never pending. */
  lemma FlushIsDead(es: seq<Node>)
    ensures Flush(Run(INITIAL, es)) == Run(INITIAL, es)
  {
    RunKeepsInv(INITIAL, es);
  }

  lemma {:induction false} RunConcat(s: State, a: seq<Node>, b: seq<Node>)
    ensures Run(s, a + b) == Run(Run(s, a), b)
    decreases |b|
  {
    if b == [] {
      assert a + b == a;
    } else {
      var n := |b| - 1;
      assert (a + b)[..|a + b| - 1] == a + b[..n];
      RunConcat(s, a, b[..n]);
    }
  }

  lemma RunOne(s: State, e: Node)
    ensures Run(s, [e]) == Step(s, e)
  {
    assert [e][..0] == [];
  }

  // ----- plain text -----

  function TextOf(tag: Tag, es: seq<Node>): string
    decreases |es|
  {
    if es == [] then ""
    else TextOf(tag, es[..|es| - 1]) + if es[|es| - 1].tag == tag then es[|es| - 1].text else ""
  }

  /** Content and reasoning are exactly the texts of their nodes, in order, whatever else happens. */
  lemma {:induction false} TextIsCollected(s: State, es: seq<Node>)
    ensures Run(s, es).result.content == s.result.content + TextOf(Content, es)
    ensures Run(s, es).result.reasoning == s.result.reasoning + TextOf(Reasoning, es)
    decreases |es|
  {
    if es != [] {
      TextIsCollected(s, es[..|es| - 1]);
      StepText(Run(s, es[..|es| - 1]), es[|es| - 1]);
    }
  }

  lemma StepText(s: State, e: Node)
    ensures Step(s, e).result.content == s.result.content + if e.tag.Content? then e.text else ""
    ensures Step(s, e).result.reasoning == s.result.reasoning + if e.tag.Reasoning? then e.text else ""
  {
    assert s.result.content + "" == s.result.content && s.result.reasoning + "" == s.result.reasoning;
    if HasCall(s) { StepOnCallText(s, e); }
  }

  predicate SameText(s: State, t: State) {
    s.result.content == t.result.content && s.result.reasoning == t.result.reasoning
  }

  lemma StepOnCallText(s: State, e: Node)
    requires HasCall(s)
    ensures SameText(s, StepOnCall(s, e))
  {
    match e.tag
    case ToolName => NameText(s, e.text);
    case ToolArgs => WriteArgsText(s, TrimTrailing(e.text));
    case ArgName => WriteArgsText(s, OpenBrace(ArgsTarget(s)) + ArgKey(s.argCount, e.text));
    case ArgValue => WriteArgsText(s, ArgsTarget(s) + ValueText(false, e.text, s.quotePending));
    case ArgStringValue => WriteArgsText(s, ArgsTarget(s) + ValueText(true, e.text, s.quotePending));
    case ArgClose => WriteArgsText(s, ArgsTarget(s) + "\"");
    case ToolClose => CloseText(s);
    case _ =>
  }

  lemma WriteArgsText(s: State, text: string)
    requires HasCall(s)
    ensures SameText(s, SetArgs(s, text))
  {
  }

  lemma NameText(s: State, text: string)
    requires HasCall(s)
    ensures SameText(s, NameCall(s, text))
  {
  }

  lemma CloseText(s: State)
    requires HasCall(s)
    ensures SameText(s, CloseCall(s))
  {
  }

  // ----- the fold -----

  /** The text of a call's arguments so far, ignoring where it is kept. */
  datatype Draft = Draft(text: string, count: nat, quote: bool, id: string)

  const EMPTY_DRAFT := Draft("", 0, false, "")

  /** The text of a node that carries whole arguments: an object has at least begun. */
  predicate OpensObject(text: string) {
    TrimTrailing(text) != "" && TrimTrailing(text)[0] == '{'
  }

  function DraftStep(d: Draft, e: Node): Draft {
    match e.tag
    case ToolId => d.(id := ParsedId(e.text))
    case ToolArgs => if OpensObject(e.text) then d.(text := TrimTrailing(e.text)) else d
    case ArgOpen => d.(quote := false)
    case ArgName => d.(text := OpenBrace(d.text) + ArgKey(d.count, e.text), count := d.count + 1)
    case ArgValue => d.(text := d.text + ValueText(false, e.text, d.quote))
    case ArgStringValue => d.(text := d.text + ValueText(true, e.text, d.quote), quote := true)
    case ArgClose => if d.quote then d.(text := d.text + "\"", quote := false) else d
    case _ => d
  }

  function DraftRun(d: Draft, es: seq<Node>): Draft
    decreases |es|, 1
  {
    if es == [] then d else DraftRest(d, es)
  }

  function DraftRest(d: Draft, es: seq<Node>): Draft
    requires es != []
    decreases |es|, 0
  {
    DraftRun(DraftStep(d, es[0]), es[1..])
  }

  lemma {:induction false} DraftConcat(d: Draft, a: seq<Node>, b: seq<Node>)
    ensures DraftRun(d, a + b) == DraftRun(DraftRun(d, a), b)
    decreases |a|
  {
    if a == [] {
      assert a + b == b;
    } else {
      assert (a + b)[1..] == a[1..] + b;
      DraftConcat(DraftStep(d, a[0]), a[1..], b);
    }
  }

  /** A node of the body of a call other than its name. */
  predicate BodyNode(e: Node) {
    !e.tag.ToolOpen? && !e.tag.ToolClose? && !e.tag.ToolName?
  }

  /** Values come after some argument name. */
  predicate ValueInPlace(d: Draft, e: Node) { d.text == "" ==> !e.tag.ArgValue? && !e.tag.ArgStringValue? }

  predicate ValuesInPlace(d: Draft, es: seq<Node>)
    decreases |es|, 1
  {
    es == [] || ValuesInPlaceRest(d, es)
  }

  predicate ValuesInPlaceRest(d: Draft, es: seq<Node>)
    requires es != []
    decreases |es|, 0
  {
    ValueInPlace(d, es[0]) && ValuesInPlace(DraftStep(d, es[0]), es[1..])
  }

  lemma {:induction false} ValuesInPlaceConcat(d: Draft, a: seq<Node>, b: seq<Node>)
    ensures ValuesInPlace(d, a + b) <==> ValuesInPlace(d, a) && ValuesInPlace(DraftRun(d, a), b)
    decreases |a|
  {
    if a == [] {
      assert a + b == b;
    } else {
      assert (a + b)[1..] == a[1..] + b;
      ValuesInPlaceConcat(DraftStep(d, a[0]), a[1..], b);
    }
  }

  /** The machine is inside a call whose fold is `d`; `name` is None while it is not known. */
  predicate Drafting(s: State, calls: seq<ToolCall>, name: Option<string>, d: Draft) {
    && s.argCount == d.count
    && s.quotePending == d.quote
    && (d.quote ==> d.text != "")
    && match name
       case None => s.current == OnPending && s.pending == Some(ToolCall("", "", d.id)) && s.buffer == d.text
                    && s.result.calls == calls
       case Some(n) => n != "" && s.current == OnResult && s.pending == None && s.buffer == ""
                       && s.result.calls == calls + [ToolCall(n, OpenBrace(d.text), d.id)]
  }

  lemma DraftingLast(s: State, calls: seq<ToolCall>, n: string, d: Draft, c: ToolCall)
    requires Drafting(s, calls, Some(n), d)
    ensures HasCall(s) && Current(s) == ToolCall(n, OpenBrace(d.text), d.id)
    ensures WithLast(s.result.calls, c) == calls + [c]
  {
    assert s.result.calls[..|s.result.calls| - 1] == calls;
  }

  /** Where the arguments are kept, and what writing them does. */
  lemma TextWritten(s: State, calls: seq<ToolCall>, name: Option<string>, d: Draft, text: string)
    requires Drafting(s, calls, name, d)
    ensures HasCall(s) && ArgsTarget(s) == if name.None? then d.text else OpenBrace(d.text)
    ensures text != "" ==> Drafting(SetArgs(s, text), calls, name, d.(text := text))
  {
    if name.Some? { DraftingLast(s, calls, name.value, d, ToolCall(name.value, text, d.id)); }
  }

  lemma IdWritten(s: State, calls: seq<ToolCall>, name: Option<string>, d: Draft, id: string)
    requires Drafting(s, calls, name, d)
    ensures HasCall(s) && Drafting(SetCurrent(s, Current(s).(id := id)), calls, name, d.(id := id))
  {
    if name.Some? { DraftingLast(s, calls, name.value, d, ToolCall(name.value, OpenBrace(d.text), id)); }
  }

  lemma BodyStep(s: State, calls: seq<ToolCall>, name: Option<string>, d: Draft, e: Node)
    requires Drafting(s, calls, name, d) && BodyNode(e) && ValueInPlace(d, e)
    ensures Drafting(Step(s, e), calls, name, DraftStep(d, e))
  {
    match e.tag
    case ToolId => IdWritten(s, calls, name, d, ParsedId(e.text));
    case ToolArgs => TextWritten(s, calls, name, d, TrimTrailing(e.text));
    case ArgName => TextWritten(s, calls, name, d, OpenBrace(d.text) + ArgKey(d.count, e.text));
    case ArgValue => ValueStep(s, calls, name, d, e);
    case ArgStringValue => ValueStep(s, calls, name, d, e);
    case ArgClose => TextWritten(s, calls, name, d, d.text + "\"");
    case _ =>
  }

  lemma ValueStep(s: State, calls: seq<ToolCall>, name: Option<string>, d: Draft, e: Node)
    requires Drafting(s, calls, name, d) && d.text != "" && (e.tag.ArgValue? || e.tag.ArgStringValue?)
    ensures Drafting(Step(s, e), calls, name, DraftStep(d, e))
  {
    TextWritten(s, calls, name, d, d.text + ValueText(e.tag.ArgStringValue?, e.text, d.quote));
  }

  lemma {:induction false} BodyRun(s: State, calls: seq<ToolCall>, name: Option<string>, d: Draft, es: seq<Node>)
    requires Drafting(s, calls, name, d) && ValuesInPlace(d, es)
    requires forall e :: e in es ==> BodyNode(e)
    ensures Drafting(Run(s, es), calls, name, DraftRun(d, es))
    decreases |es|
  {
    if es != [] {
      BodyStep(s, calls, name, d, es[0]);
      BodyRun(Step(s, es[0]), calls, name, DraftStep(d, es[0]), es[1..]);
      RunOne(s, es[0]);
      RunConcat(s, [es[0]], es[1..]);
      assert [es[0]] + es[1..] == es;
    }
  }

  lemma NameStep(s: State, calls: seq<ToolCall>, d: Draft, e: Node)
    requires Drafting(s, calls, None, d) && e.tag.ToolName? && TrimTrailing(e.text) != ""
    ensures Drafting(Step(s, e), calls, Some(TrimTrailing(e.text)), d)
  {
  }

  lemma CloseStep(s: State, calls: seq<ToolCall>, n: string, d: Draft, e: Node)
    requires Drafting(s, calls, Some(n), d) && e.tag.ToolClose?
    ensures Step(s, e).result.calls == calls + [ToolCall(n, Closed(OpenBrace(d.text), d.quote), d.id)]
  {
    DraftingLast(s, calls, n, d, ToolCall(n, Closed(OpenBrace(d.text), d.quote), d.id));
  }

  /** Inside a call that has its name. */
  lemma CallBegun(s: State, open: Node, before: seq<Node>, name: Node, after: seq<Node>)
    requires open.tag.ToolOpen? && name.tag.ToolName? && TrimTrailing(name.text) != ""
    requires forall e :: e in before + after ==> BodyNode(e)
    requires ValuesInPlace(EMPTY_DRAFT, before + after)
    ensures Drafting(Run(s, [open] + before + [name] + after), s.result.calls, Some(TrimTrailing(name.text)),
                     DraftRun(EMPTY_DRAFT, before + after))
  {
    var calls, d := s.result.calls, DraftRun(EMPTY_DRAFT, before);
    assert forall e :: e in before ==> e in before + after;
    assert forall e :: e in after ==> e in before + after;
    ValuesInPlaceConcat(EMPTY_DRAFT, before, after);
    DraftConcat(EMPTY_DRAFT, before, after);
    var s1 := Step(s, open);
    RunOne(s, open);
    BodyRun(s1, calls, None, EMPTY_DRAFT, before);
    RunConcat(s, [open], before);
    var s2 := Run(s1, before);
    NameStep(s2, calls, d, name);
    RunConcat(s, [open] + before, [name]);
    RunOne(s2, name);
    BodyRun(Step(s2, name), calls, Some(TrimTrailing(name.text)), d, after);
    RunConcat(s, [open] + before + [name], after);
  }

  /**
   A complete call, with its one name anywhere among its other nodes: exactly one call is
   added, and its arguments and id do not depend on where the name was.
   */
  lemma NamePositionIrrelevant(s: State, open: Node, before: seq<Node>, name: Node, after: seq<Node>, close: Node)
    requires open.tag.ToolOpen? && name.tag.ToolName? && close.tag.ToolClose?
    requires TrimTrailing(name.text) != ""
    requires forall e :: e in before + after ==> BodyNode(e)
    requires ValuesInPlace(EMPTY_DRAFT, before + after)
    ensures var d := DraftRun(EMPTY_DRAFT, before + after);
            Run(s, [open] + before + [name] + after + [close]).result.calls
            == s.result.calls + [ToolCall(TrimTrailing(name.text), Closed(OpenBrace(d.text), d.quote), d.id)]
  {
    CallBegun(s, open, before, name, after);
    var es := [open] + before + [name] + after;
    CloseStep(Run(s, es), s.result.calls, TrimTrailing(name.text), DraftRun(EMPTY_DRAFT, before + after), close);
    RunConcat(s, es, [close]);
    RunOne(Run(s, es), close);
  }

  // ----- calls without a name -----

  predicate Nameless(e: Node) { !e.tag.ToolName? && !e.tag.ToolOpen? }

  lemma {:induction false} NamelessRun(s: State, es: seq<Node>)
    requires s.current == OnPending && s.pending.Some? && s.pending.value.name == ""
    requires forall e :: e in es ==> Nameless(e) && !e.tag.ToolClose?
    ensures var t := Run(s, es);
            t.current == OnPending && t.pending.Some? && t.pending.value.name == "" && t.result.calls == s.result.calls
    decreases |es|
  {
    if es != [] {
      var init, e := es[..|es| - 1], es[|es| - 1];
      assert e in es && forall x :: x in init ==> x in es;
      NamelessRun(s, init);
      NamelessStep(Run(s, init), e);
    }
  }

  lemma NamelessStep(s: State, e: Node)
    requires s.current == OnPending && s.pending.Some? && s.pending.value.name == ""
    requires Nameless(e) && !e.tag.ToolClose?
    ensures var t := Step(s, e);
            t.current == OnPending && t.pending.Some? && t.pending.value.name == "" && t.result.calls == s.result.calls
  {
  }

  /** A call that never gets a name is never emitted: not while it is open, not when it closes, not at the end. */
  lemma NeverNamedNeverEmitted(s: State, open: Node, body: seq<Node>, close: Node)
    requires open.tag.ToolOpen? && close.tag.ToolClose?
    requires forall e :: e in body ==> Nameless(e) && !e.tag.ToolClose?
    ensures Flush(Run(s, [open] + body)).result.calls == s.result.calls
    ensures Flush(Run(s, [open] + body + [close])).result.calls == s.result.calls
  {
    RunOne(s, open);
    RunConcat(s, [open], body);
    NamelessRun(Step(s, open), body);
    RunConcat(s, [open] + body, [close]);
    RunOne(Run(s, [open] + body), close);
  }

  // ----- the JSON object -----

  /** One argument as the grammar delivers it: a schema-declared string, or any other value. */
  datatype Arg = StringArg(name: string, value: string) | RawArg(name: string, value: string)

  function ArgNodes(a: Arg): seq<Node> {
    [Node(ArgOpen, ""), Node(ArgName, a.name),
     Node(if a.StringArg? then ArgStringValue else ArgValue, a.value), Node(ArgClose, "")]
  }

  function AllArgNodes(args: seq<Arg>): seq<Node> {
    if args == [] then [] else ArgNodes(args[0]) + AllArgNodes(args[1..])
  }

  function Member(a: Arg): string {
    Dump(TrimName(a.name)) + ":" + if a.StringArg? then Dump(a.value) else ValueText(false, a.value, false)
  }

  function MemberTexts(args: seq<Arg>): seq<string> {
    seq(|args|, i requires 0 <= i < |args| => Member(args[i]))
  }

  /** Texts separated by commas; `first` is whether none came before. */
  function Separated(texts: seq<string>, first: bool): string
    decreases |texts|
  {
    if texts == [] then "" else (if first then "" else ",") + texts[0] + Separated(texts[1..], false)
  }

  function Members(args: seq<Arg>): string { Separated(MemberTexts(args), true) }

  lemma TwoNodes(d: Draft, a: Node, b: Node)
    ensures DraftRun(d, [a, b]) == DraftStep(DraftStep(d, a), b)
    ensures ValuesInPlace(d, [a, b]) <==> ValueInPlace(d, a) && ValueInPlace(DraftStep(d, a), b)
  {
    assert [a, b][1..] == [b] && [b][1..] == [];
    assert DraftRun(d, [a, b]) == DraftRest(d, [a, b]);
    assert DraftRun(DraftStep(d, a), [b]) == DraftRest(DraftStep(d, a), [b]);
    assert ValuesInPlace(d, [a, b]) == ValuesInPlaceRest(d, [a, b]);
    assert ValuesInPlace(DraftStep(d, a), [b]) == ValuesInPlaceRest(DraftStep(d, a), [b]);
  }

  /** The comma before a member, if any, and the member. */
  function Entry(count: nat, a: Arg): string { (if count == 0 then "" else ",") + Member(a) }

  lemma KeyText(d: Draft, a: Arg)
    requires !d.quote
    ensures DraftStep(DraftStep(d, Node(ArgOpen, "")), Node(ArgName, a.name))
            == d.(text := OpenBrace(d.text) + ArgKey(d.count, a.name), count := d.count + 1)
  {
  }

  lemma ArgText(d: Draft, a: Arg)
    requires !d.quote
    ensures var key := d.(text := OpenBrace(d.text) + ArgKey(d.count, a.name), count := d.count + 1);
            var value := Node(if a.StringArg? then ArgStringValue else ArgValue, a.value);
            DraftStep(DraftStep(key, value), Node(ArgClose, ""))
            == d.(text := OpenBrace(d.text) + Entry(d.count, a), count := d.count + 1)
  {
    var key := OpenBrace(d.text) + ArgKey(d.count, a.name);
    var value := if a.StringArg? then Dump(a.value) else ValueText(false, a.value, false);
    EntryText(d.text, d.count, a, value);
    if a.StringArg? {
      QuotedValue(a.value);
      Regroup(key, ValueText(true, a.value, false), "\"");
    }
  }

  lemma EntryText(text: string, count: nat, a: Arg, value: string)
    requires value == if a.StringArg? then Dump(a.value) else ValueText(false, a.value, false)
    ensures OpenBrace(text) + ArgKey(count, a.name) + value == OpenBrace(text) + Entry(count, a)
  {
    var sep, name := if count > 0 then "," else "", Dump(TrimName(a.name)) + ":";
    Regroup(sep, name, value);
    Regroup(OpenBrace(text), sep + name, value);
  }

  lemma QuotedValue(value: string)
    ensures ValueText(true, value, false) + "\"" == Dump(value)
  {
    if value == "" {
      assert Escape("") == "";
    }
  }

  lemma OneArg(d: Draft, a: Arg)
    requires !d.quote
    ensures DraftRun(d, ArgNodes(a))
            == d.(text := OpenBrace(d.text) + Entry(d.count, a), count := d.count + 1)
    ensures ValuesInPlace(d, ArgNodes(a))
  {
    var es := ArgNodes(a);
    var d2 := DraftStep(DraftStep(d, es[0]), es[1]);
    assert es == [es[0], es[1]] + [es[2], es[3]];
    DraftConcat(d, [es[0], es[1]], [es[2], es[3]]);
    ValuesInPlaceConcat(d, [es[0], es[1]], [es[2], es[3]]);
    TwoNodes(d, es[0], es[1]);
    TwoNodes(d2, es[2], es[3]);
    KeyText(d, a);
    ArgText(d, a);
  }

  lemma {:induction false} AllArgsBody(args: seq<Arg>)
    ensures forall e :: e in AllArgNodes(args) ==> BodyNode(e)
    decreases |args|
  {
    if args != [] { AllArgsBody(args[1..]); }
  }

  lemma {:induction false} AllArgs(d: Draft, args: seq<Arg>)
    requires !d.quote && (d.count == 0 <==> d.text == "")
    ensures ValuesInPlace(d, AllArgNodes(args))
    ensures var r := DraftRun(d, AllArgNodes(args));
            && !r.quote && r.id == d.id
            && OpenBrace(r.text) == OpenBrace(d.text) + Separated(MemberTexts(args), d.count == 0)
    decreases |args|
  {
    if args == [] {
      assert OpenBrace(d.text) + "" == OpenBrace(d.text);
    } else {
      var es, rest := ArgNodes(args[0]), AllArgNodes(args[1..]);
      var m := Entry(d.count, args[0]);
      OneArg(d, args[0]);
      var d' := d.(text := OpenBrace(d.text) + m, count := d.count + 1);
      AllArgs(d', args[1..]);
      DraftConcat(d, es, rest);
      ValuesInPlaceConcat(d, es, rest);
      MoreMembers(OpenBrace(d.text), d.count, args);
    }
  }

  lemma MoreMembers(text: string, count: nat, args: seq<Arg>)
    requires text != "" && args != []
    ensures OpenBrace(text + Entry(count, args[0])) + Separated(MemberTexts(args[1..]), false)
            == text + Separated(MemberTexts(args), count == 0)
  {
    assert MemberTexts(args)[1..] == MemberTexts(args[1..]);
    Regroup(text, Entry(count, args[0]), Separated(MemberTexts(args[1..]), false));
  }

  lemma Regroup(a: string, b: string, c: string)
    ensures a + b + c == a + (b + c)
  {
  }

  /** The exact text of a finished tagged call: an object, then a brace for each one still open. */
  lemma ExactAssembly(s: State, id: seq<Node>, k: nat, name: string, args: seq<Arg>)
    requires TrimTrailing(name) != "" && (forall e :: e in id ==> e.tag.ToolId?)
    requires k <= |id + AllArgNodes(args)|
    ensures var body := id + AllArgNodes(args);
            var text := "{" + Members(args);
            var open, close := [Node(ToolOpen, "")], [Node(ToolClose, "")];
            var r := Run(s, open + body[..k] + [Node(ToolName, name)] + body[k..] + close);
            && r.result.calls
               == s.result.calls
                  + [ToolCall(TrimTrailing(name), text + Braces(BraceDepth(text)), DraftRun(EMPTY_DRAFT, id).id)]
            && (text + Braces(BraceDepth(text)) == text + "}" <==> BraceDepth(text) == 1)
  {
    var body := id + AllArgNodes(args);
    DraftOfCall(id, args);
    NamedAnywhere(s, body, k, name);
    OneBrace("{" + Members(args));
  }

  lemma NamedAnywhere(s: State, body: seq<Node>, k: nat, name: string)
    requires TrimTrailing(name) != "" && k <= |body|
    requires (forall e :: e in body ==> BodyNode(e)) && ValuesInPlace(EMPTY_DRAFT, body)
    ensures var d := DraftRun(EMPTY_DRAFT, body);
            var open, close := [Node(ToolOpen, "")], [Node(ToolClose, "")];
            Run(s, open + body[..k] + [Node(ToolName, name)] + body[k..] + close).result.calls
            == s.result.calls + [ToolCall(TrimTrailing(name), Closed(OpenBrace(d.text), d.quote), d.id)]
  {
    assert body[..k] + body[k..] == body;
    NamePositionIrrelevant(s, Node(ToolOpen, ""), body[..k], Node(ToolName, name), body[k..], Node(ToolClose, ""));
  }

  lemma DraftOfCall(id: seq<Node>, args: seq<Arg>)
    requires forall e :: e in id ==> e.tag.ToolId?
    ensures var body := id + AllArgNodes(args);
            var r := DraftRun(EMPTY_DRAFT, body);
            && ValuesInPlace(EMPTY_DRAFT, body) && (forall e :: e in body ==> BodyNode(e))
            && !r.quote && OpenBrace(r.text) == "{" + Members(args) && r.id == DraftRun(EMPTY_DRAFT, id).id
  {
    IdNodes(EMPTY_DRAFT, id);
    DraftConcat(EMPTY_DRAFT, id, AllArgNodes(args));
    ValuesInPlaceConcat(EMPTY_DRAFT, id, AllArgNodes(args));
    AllArgs(DraftRun(EMPTY_DRAFT, id), args);
    AllArgsBody(args);
  }

  lemma OneBrace(text: string)
    ensures text + Braces(BraceDepth(text)) == text + "}" <==> BraceDepth(text) == 1
  {
    BracesLength(BraceDepth(text));
    if text + Braces(BraceDepth(text)) == text + "}" {
      assert |Braces(BraceDepth(text))| == 1;
    }
  }

  lemma {:induction false} BracesLength(n: int)
    ensures |Braces(n)| == if n <= 0 then 0 else n
    ensures n == 1 ==> Braces(n) == "}"
    decreases n
  {
    if n > 0 { BracesLength(n - 1); }
  }

  lemma {:induction false} IdNodes(d: Draft, id: seq<Node>)
    requires forall e :: e in id ==> e.tag.ToolId?
    ensures var r := DraftRun(d, id); r == d.(id := r.id)
    ensures ValuesInPlace(d, id)
    decreases |id|
  {
    if id != [] { IdNodes(DraftStep(d, id[0]), id[1..]); }
  }

  /** Every non-string value leaves braces and quotes as it found them. */
  predicate BalancedArgs(args: seq<Arg>) {
    forall i :: 0 <= i < |args| && args[i].RawArg? ==> Balanced(ValueText(false, args[i].value, false))
  }

  lemma MemberBalanced(a: Arg)
    requires a.RawArg? ==> Balanced(ValueText(false, a.value, false))
    ensures Balanced(Member(a))
  {
    DumpBalanced(TrimName(a.name));
    ScanSmall(OUTSIDE, ":");
    BalancedConcat(Dump(TrimName(a.name)), ":");
    if a.StringArg? { DumpBalanced(a.value); }
    BalancedConcat(Dump(TrimName(a.name)) + ":",
                   if a.StringArg? then Dump(a.value) else ValueText(false, a.value, false));
  }

  lemma {:induction false} SeparatedBalanced(texts: seq<string>, first: bool)
    requires forall i :: 0 <= i < |texts| ==> Balanced(texts[i])
    ensures Balanced(Separated(texts, first))
    decreases |texts|
  {
    if texts != [] {
      var sep := if first then "" else ",";
      ScanSmall(OUTSIDE, ",");
      BalancedConcat(sep, texts[0]);
      SeparatedBalanced(texts[1..], false);
      BalancedConcat(sep + texts[0], Separated(texts[1..], false));
    }
  }

  lemma MembersBalanced(args: seq<Arg>)
    requires BalancedArgs(args)
    ensures Balanced(Members(args))
  {
    forall i | 0 <= i < |args| ensures Balanced(MemberTexts(args)[i]) {
      MemberBalanced(args[i]);
    }
    SeparatedBalanced(MemberTexts(args), true);
  }

  /** For balanced values the arguments are one closed object, with no brace or quote left open. */
  lemma BalancedArgsCloseExactly(args: seq<Arg>)
    requires BalancedArgs(args)
    ensures var text := "{" + Members(args);
            && text + Braces(BraceDepth(text)) == text + "}"
            && Balanced(text + "}")
  {
    var text := "{" + Members(args);
    MembersBalanced(args);
    ScanConcat(OUTSIDE, "{", Members(args));
    ScanSmall(OUTSIDE, "{");
    BalancedAnywhere(Members(args), 1);
    BracesLength(1);
    ScanConcat(OUTSIDE, text, "}");
    ScanSmall(Scan(1, false, false), "}");
  }
}
