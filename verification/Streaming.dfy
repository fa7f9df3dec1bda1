/**
 Whole streamed replies: a growing list of nodes is mapped again and again, each message is
 compared with the previous one, and only deltas are sent. The mapper only ever appends, the
 comparison never fails, and the client that folds the deltas ends up with the last message.
 */
module Streaming {
  import opened Sequences
  import opened Wrappers
  import opened Text
  import opened ChatMessage
  import opened MessageDiff
  import opened ClientRun
  import opened PegMapper
  import opened CallAssembly
  import Transcoder

  /** The call is in the message and has its name. */
  predicate Named(s: State) {
    s.current == OnResult && s.result.calls != [] && Last(s.result.calls).name != ""
  }

  /** Not yet visible: what happens to the call now cannot be seen by the client. */
  predicate Hidden(s: State) { s.current == NoCall || s.current == OnPending }

  /**
   A node that cannot take back anything already sent: a call is named once, its id is not
   emptied, a whole-object argument text does not replace other arguments, a string value
   is not continued by another string node, and nothing but text follows a blank name.
   */
  predicate Allowed(s: State, e: Node) {
    match e.tag
    case ToolName => Hidden(s)
    case ToolId => Hidden(s) || (Named(s) && ParsedId(e.text) != "")
    case ToolArgs => Hidden(s) || (Named(s) && Last(s.result.calls).arguments == "{")
    case ArgStringValue => (Hidden(s) || Named(s)) && !s.quotePending
    case ArgName => Hidden(s) || Named(s)
    case ArgValue => Hidden(s) || Named(s)
    case ArgClose => Hidden(s) || Named(s)
    case ToolClose => Hidden(s) || Named(s)
    case _ => true
  }

  predicate AllowedFrom(s: State, es: seq<Node>)
    decreases |es|
  {
    es == [] || (AllowedFrom(s, es[..|es| - 1]) && Allowed(Run(s, es[..|es| - 1]), es[|es| - 1]))
  }

  predicate AllowedRun(es: seq<Node>) { AllowedFrom(INITIAL, es) }

  /** `e'` is `e` with more text, in a node whose text may arrive in pieces. */
  predicate Lengthens(e: Node, e': Node) {
    && e.tag == e'.tag
    && e.text <= e'.text
    && (e.text == e'.text
        || e.tag.Content? || e.tag.Reasoning? || e.tag.ArgStringValue? || e.tag.ToolName? || e.tag.ToolArgs?
        || (e.tag.ArgValue? && Transcoder.SafeCut(Transcoder.START, e'.text, |e.text|)))
  }

  /** The next parse: more nodes, possibly after lengthening the last one. */
  predicate Grows(es: seq<Node>, es': seq<Node>) {
    es != [] ==>
      && |es| <= |es'|
      && es[..|es| - 1] == es'[..|es| - 1]
      && Lengthens(es[|es| - 1], es'[|es| - 1])
  }

  // ----- one node only appends -----

  lemma VisibleMonotone(a: string, b: string)
    requires a <= b
    ensures VisibleReasoning(a) <= VisibleReasoning(b)
  {
    if i :| 0 <= i < |a| && !IsBlank(a[i]) {
      assert !IsBlank(b[i]);
    }
  }

  /** Two messages with the same text whose calls differ only in the last one. */
  lemma LastCallExtends(m: Message, m': Message, calls: seq<ToolCall>, c: ToolCall, c': ToolCall)
    requires m.calls == calls + [c] && m'.calls == calls + [c']
    requires m.reasoning <= m'.reasoning && m.content <= m'.content
    requires CallExtends(c, c')
    ensures Extends(m, m')
  {
    assert m.calls[..|m.calls| - 1] == calls == m'.calls[..|m.calls| - 1];
  }

  lemma NewCallExtends(m: Message, m': Message, c: ToolCall)
    requires m'.calls == m.calls + [c]
    requires m.reasoning <= m'.reasoning && m.content <= m'.content
    ensures Extends(m, m')
  {
  }

  function Visible(s: State): Message {
    s.result.(reasoning := VisibleReasoning(s.result.reasoning))
  }

  lemma FinishVisible(s: State)
    requires Inv(s)
    ensures Finish(s) == Visible(s)
  {
  }

  lemma TextExtends(m: Message, m': Message)
    requires m.calls == m'.calls && m.reasoning <= m'.reasoning && m.content <= m'.content
    ensures Extends(m, m')
  {
  }

  /** A node acting on the visible call: the call as it was and as it becomes. */
  lemma NamedStep(s: State, e: Node)
    requires Inv(s) && Named(s) && Allowed(s, e) && UsesCall(e.tag) && !e.tag.ToolClose?
    ensures var t := StepOnCall(s, e);
            && SameText(s, t) && t.result.calls != []
            && t.result.calls[..|t.result.calls| - 1] == s.result.calls[..|s.result.calls| - 1]
            && CallExtends(Last(s.result.calls), Last(t.result.calls))
  {
    StepOnCallText(s, e);
    if e.tag.ToolArgs? {
      var text := TrimTrailing(e.text);
      if text != "" && text[0] == '{' { assert "{" <= text; }
    }
  }

  lemma NamedClose(s: State)
    requires Inv(s) && Named(s)
    ensures var t := CloseCall(s);
            && SameText(s, t) && t.result.calls != []
            && t.result.calls[..|t.result.calls| - 1] == s.result.calls[..|s.result.calls| - 1]
            && CallExtends(Last(s.result.calls), Last(t.result.calls))
  {
    CloseText(s);
  }

  lemma HiddenStep(s: State, e: Node)
    requires Inv(s) && s.current == OnPending && UsesCall(e.tag)
    ensures var t := StepOnCall(s, e);
            && SameText(s, t)
            && (t.result.calls == s.result.calls
                || (e.tag.ToolName? && t.result.calls
                    == s.result.calls + [ToolCall(TrimTrailing(e.text), OpenBrace(s.buffer), s.pending.value.id)]))
  {
    StepOnCallText(s, e);
  }

  /** Only the last call of the message may differ, and it only grew. */
  predicate LastGrew(s: State, t: State) {
    && SameText(s, t) && s.result.calls != [] && t.result.calls != []
    && t.result.calls[..|t.result.calls| - 1] == s.result.calls[..|s.result.calls| - 1]
    && CallExtends(Last(s.result.calls), Last(t.result.calls))
  }

  lemma LastGrewExtends(s: State, t: State)
    requires LastGrew(s, t)
    ensures Extends(Visible(s), Visible(t))
  {
    LastCallExtends(Visible(s), Visible(t), s.result.calls[..|s.result.calls| - 1],
                    Last(s.result.calls), Last(t.result.calls));
  }

  lemma CallNodeExtends(s: State, e: Node)
    requires Inv(s) && Allowed(s, e) && UsesCall(e.tag) && HasCall(s)
    ensures Extends(Visible(s), Visible(StepOnCall(s, e)))
  {
    var t := StepOnCall(s, e);
    if s.current == OnPending {
      HiddenStep(s, e);
      if t.result.calls == s.result.calls {
        TextExtends(Visible(s), Visible(t));
      } else {
        NewCallExtends(Visible(s), Visible(t), ToolCall(TrimTrailing(e.text), OpenBrace(s.buffer), s.pending.value.id));
      }
    } else {
      if e.tag.ToolClose? { NamedClose(s); } else { NamedStep(s, e); }
      LastGrewExtends(s, t);
    }
  }

  lemma TextNodeExtends(s: State, e: Node)
    requires !(UsesCall(e.tag) && HasCall(s))
    ensures Extends(Visible(s), Visible(Step(s, e)))
  {
    StepText(s, e);
    VisibleMonotone(s.result.reasoning, Step(s, e).result.reasoning);
    TextExtends(Visible(s), Visible(Step(s, e)));
  }

  lemma StepExtends(s: State, e: Node)
    requires Inv(s) && Allowed(s, e)
    ensures Extends(Visible(s), Visible(Step(s, e)))
  {
    if UsesCall(e.tag) && HasCall(s) { CallNodeExtends(s, e); } else { TextNodeExtends(s, e); }
  }

  // ----- lengthening the last node only appends -----

  lemma RawValueLengthens(a: string, b: string)
    requires a == b || (a <= b && Transcoder.SafeCut(Transcoder.START, b, |a|))
    ensures ValueText(false, a, false) <= ValueText(false, b, false)
  {
    if a != b {
      Transcoder.StreamedOutputGrows(b, |a|);
      assert b[..|a|] == a;
    }
  }

  lemma StringValueLengthens(a: string, b: string)
    requires a <= b
    ensures ValueText(true, a, false) <= ValueText(true, b, false)
  {
    EscapeMonotone(a, b);
  }

  lemma HiddenLengthens(s: State, e: Node, e': Node)
    requires Inv(s) && s.current == OnPending && UsesCall(e.tag) && Lengthens(e, e')
    ensures Extends(Visible(StepOnCall(s, e)), Visible(StepOnCall(s, e')))
  {
    var t, t' := StepOnCall(s, e), StepOnCall(s, e');
    HiddenStep(s, e);
    HiddenStep(s, e');
    if e.tag.ToolName? {
      TrimTrailingMonotone(e.text, e'.text);
      NameAppends(s, e);
      NameAppends(s, e');
      LastCallExtends(Visible(t), Visible(t'), s.result.calls, Last(t.result.calls), Last(t'.result.calls));
    } else {
      TextExtends(Visible(t), Visible(t'));
    }
  }

  lemma NameAppends(s: State, e: Node)
    requires Inv(s) && s.current == OnPending && e.tag.ToolName?
    ensures StepOnCall(s, e).result.calls
            == s.result.calls + [ToolCall(TrimTrailing(e.text), OpenBrace(s.buffer), s.pending.value.id)]
  {
  }

  /** Writing a longer text to the visible call only extends it. */
  lemma ArgsGrew(s: State, a: string, b: string)
    requires Inv(s) && Named(s) && a <= b
    ensures LastGrew(SetArgs(s, a), SetArgs(s, b))
  {
  }

  lemma ArgsTextLengthens(s: State, e: Node, e': Node)
    requires Inv(s) && Named(s) && Allowed(s, e') && Lengthens(e, e') && e.tag.ToolArgs?
    ensures LastGrew(StepOnCall(s, e), StepOnCall(s, e'))
  {
    var a, b := TrimTrailing(e.text), TrimTrailing(e'.text);
    TrimTrailingMonotone(e.text, e'.text);
    if a != "" { assert a[0] == b[0]; }
    if b != "" && b[0] == '{' { assert "{" <= b; }
  }

  lemma NamedLengthens(s: State, e: Node, e': Node)
    requires Inv(s) && Named(s) && Allowed(s, e') && Lengthens(e, e')
    requires e.tag.ArgValue? || e.tag.ArgStringValue? || e.tag.ToolArgs?
    ensures LastGrew(StepOnCall(s, e), StepOnCall(s, e'))
  {
    if e.tag.ToolArgs? {
      ArgsTextLengthens(s, e, e');
    } else {
      var a := ValueText(e.tag.ArgStringValue?, e.text, false);
      var b := ValueText(e.tag.ArgStringValue?, e'.text, false);
      if e.tag.ArgStringValue? {
        StringValueLengthens(e.text, e'.text);
      } else {
        RawValueLengthens(e.text, e'.text);
        QuoteIrrelevant(e.text, s.quotePending);
        QuoteIrrelevant(e'.text, s.quotePending);
      }
      SamePrefix(ArgsTarget(s), a, b);
      ArgsGrew(s, ArgsTarget(s) + a, ArgsTarget(s) + b);
    }
  }

  lemma QuoteIrrelevant(text: string, quotePending: bool)
    ensures ValueText(false, text, quotePending) == ValueText(false, text, false)
  {
  }

  lemma LengthenedStepExtends(s: State, e: Node, e': Node)
    requires Inv(s) && Allowed(s, e') && Lengthens(e, e')
    ensures Extends(Visible(Step(s, e)), Visible(Step(s, e')))
  {
    var t, t' := Step(s, e), Step(s, e');
    if e == e' {
      TextExtends(Visible(t), Visible(t'));
    } else if UsesCall(e.tag) && HasCall(s) {
      if s.current == OnPending {
        HiddenLengthens(s, e, e');
      } else {
        NamedLengthens(s, e, e');
        LastGrewExtends(t, t');
      }
    } else {
      StepText(s, e);
      StepText(s, e');
      VisibleMonotone(t.result.reasoning, t'.result.reasoning);
      TextExtends(Visible(t), Visible(t'));
    }
  }

  lemma {:induction false} AllowedPrefix(es: seq<Node>, n: nat)
    requires AllowedRun(es) && n <= |es|
    ensures AllowedRun(es[..n])
    decreases |es|
  {
    if n < |es| {
      AllowedPrefix(es[..|es| - 1], n);
      assert es[..|es| - 1][..n] == es[..n];
    } else {
      assert es[..n] == es;
    }
  }

  lemma {:induction false} MoreNodesExtend(es: seq<Node>, n: nat)
    requires AllowedRun(es) && n <= |es|
    ensures Extends(Visible(Run(INITIAL, es[..n])), Visible(Run(INITIAL, es)))
    decreases |es|
  {
    if n == |es| {
      assert es[..n] == es;
    } else {
      var shorter := es[..|es| - 1];
      MoreNodesExtend(shorter, n);
      assert shorter[..n] == es[..n];
      RunKeepsInv(INITIAL, shorter);
      StepExtends(Run(INITIAL, shorter), es[|es| - 1]);
      ExtendsTransitive(Visible(Run(INITIAL, es[..n])), Visible(Run(INITIAL, shorter)), Visible(Run(INITIAL, es)));
    }
  }

  /** The next parse's message only extends this one's. */
  lemma GrowingParseExtends(es: seq<Node>, es': seq<Node>)
    requires Grows(es, es') && AllowedRun(es')
    ensures Extends(MessageOf(es), MessageOf(es'))
  {
    RunKeepsInv(INITIAL, es);
    RunKeepsInv(INITIAL, es');
    FinishVisible(Run(INITIAL, es));
    FinishVisible(Run(INITIAL, es'));
    if es == [] {
      MoreNodesExtend(es', 0);
      assert es'[..0] == [];
    } else {
      var n := |es|;
      var s := Run(INITIAL, es[..n - 1]);
      RunKeepsInv(INITIAL, es[..n - 1]);
      AllowedPrefix(es', n);
      assert es'[..n][..n - 1] == es'[..n - 1] == es[..n - 1];
      LengthenedStepExtends(s, es[n - 1], es'[n - 1]);
      MoreNodesExtend(es', n);
      ExtendsTransitive(MessageOf(es), Visible(Run(INITIAL, es'[..n])), MessageOf(es'));
    }
  }

  // ----- whole runs -----

  predicate GrowingRun(run: seq<seq<Node>>) {
    && (forall i :: 0 <= i < |run| ==> AllowedRun(run[i]))
    && (forall i :: 0 <= i < |run| - 1 ==> Grows(run[i], run[i + 1]))
  }

  function Messages(run: seq<seq<Node>>): (r: seq<Message>)
    ensures |r| == |run|
  {
    if run == [] then [] else [MessageOf(run[0])] + Messages(run[1..])
  }

  lemma {:induction false} MessageAt(run: seq<seq<Node>>, i: nat)
    requires i < |run|
    ensures Messages(run)[i] == MessageOf(run[i])
    decreases i
  {
    if i > 0 { MessageAt(run[1..], i - 1); }
  }

  /**
   The end-to-end claim: over any growing run of parses no comparison throws, and a client
   that started empty and folded every delta holds exactly the last message.
   */
  lemma StreamReconstructs(run: seq<seq<Node>>)
    requires run != [] && GrowingRun(run)
    ensures Client(EMPTY_MESSAGE, EMPTY_MESSAGE, Messages(run)) == Success(MessageOf(run[|run| - 1]))
  {
    var all := [[]] + run;
    var ms := Messages(all);
    GrowsFromNothing(run);
    NothingIsEmpty();
    assert all[1..] == run;
    forall i | 0 <= i < |ms| - 1 ensures GrowsAt(ms, i) {
      assert Grows(all[i], all[i + 1]) && AllowedRun(all[i + 1]);
      MessageAt(all, i);
      MessageAt(all, i + 1);
      GrowingParseExtends(all[i], all[i + 1]);
    }
    GrowingFollowed(ms);
    MessageAt(all, |run|);
  }

  lemma GrowsFromNothing(run: seq<seq<Node>>)
    requires GrowingRun(run)
    ensures GrowingRun([[]] + run)
  {
    var all := [[]] + run;
    assert forall i :: 0 < i < |all| ==> all[i] == run[i - 1];
  }

  lemma NothingIsEmpty()
    ensures MessageOf([]) == EMPTY_MESSAGE
  {
  }
}
