/**
 The message a mapper makes of whole trees (common/chat-peg-parser.cpp, the two `visit` methods that do
 not go by events): texts are collected, and each tool node adds the calls its format makes of it. When
 the trees grow, the message only extends.
 */
module TreeMessages {
  import opened Sequences
  import opened Wrappers
  import opened ChatMessage
  import opened MessageDiff
  import opened ClientRun
  import opened PartialAst

  /** `calls` is what the format makes of a tool node. */
  function Visited(calls: Ast -> seq<ToolCall>, m: Message, n: Ast): Message
    decreases n, 1
  {
    if n.tag.Reasoning? then m.(reasoning := m.reasoning + n.text)
    else if n.tag.Content? then m.(content := m.content + n.text)
    else if n.tag.Tool? then m.(calls := m.calls + calls(n))
    else VisitedAll(calls, m, n.children)
  }

  function VisitedAll(calls: Ast -> seq<ToolCall>, m: Message, ns: seq<Ast>): Message
    decreases ns, 0
  {
    if ns == [] then m else Visited(calls, VisitedAll(calls, m, ns[..|ns| - 1]), ns[|ns| - 1])
  }

  // ----- what is collected -----

  /** A node that is taken as it is: nothing below it is looked at. */
  predicate Taken(n: Ast) { n.tag.Reasoning? || n.tag.Content? || n.tag.Tool? }

  /** The nodes that are taken, in visiting order: those with no other such node above them. */
  function TakenIn(ns: seq<Ast>): seq<Ast>
    decreases ns
  {
    if ns == [] then []
    else (if Taken(ns[0]) then [ns[0]] else TakenIn(ns[0].children)) + TakenIn(ns[1..])
  }

  function TextsOf(tag: Tag, ns: seq<Ast>): string {
    if ns == [] then "" else (if ns[0].tag == tag then ns[0].text else "") + TextsOf(tag, ns[1..])
  }

  function CallsOfTools(calls: Ast -> seq<ToolCall>, ns: seq<Ast>): seq<ToolCall> {
    if ns == [] then [] else (if ns[0].tag.Tool? then calls(ns[0]) else []) + CallsOfTools(calls, ns[1..])
  }

  /** `m` with everything that the taken nodes `ns` hold, each in its own place. */
  function Gathered(calls: Ast -> seq<ToolCall>, m: Message, ns: seq<Ast>): Message {
    Message(m.reasoning + TextsOf(Reasoning, ns), m.content + TextsOf(Content, ns), m.calls + CallsOfTools(calls, ns))
  }

  lemma {:induction false} TakenConcat(xs: seq<Ast>, ys: seq<Ast>)
    ensures TakenIn(xs + ys) == TakenIn(xs) + TakenIn(ys)
    decreases |xs|
  {
    if xs == [] {
      assert xs + ys == ys;
    } else {
      assert (xs + ys)[1..] == xs[1..] + ys;
      TakenConcat(xs[1..], ys);
      Associate(if Taken(xs[0]) then [xs[0]] else TakenIn(xs[0].children), TakenIn(xs[1..]), TakenIn(ys));
    }
  }

  lemma {:induction false} TextsConcat(tag: Tag, xs: seq<Ast>, ys: seq<Ast>)
    ensures TextsOf(tag, xs + ys) == TextsOf(tag, xs) + TextsOf(tag, ys)
    decreases |xs|
  {
    if xs == [] {
      assert xs + ys == ys;
    } else {
      assert (xs + ys)[1..] == xs[1..] + ys;
      TextsConcat(tag, xs[1..], ys);
      Associate(if xs[0].tag == tag then xs[0].text else "", TextsOf(tag, xs[1..]), TextsOf(tag, ys));
    }
  }

  lemma {:induction false} ToolsConcat(calls: Ast -> seq<ToolCall>, xs: seq<Ast>, ys: seq<Ast>)
    ensures CallsOfTools(calls, xs + ys) == CallsOfTools(calls, xs) + CallsOfTools(calls, ys)
    decreases |xs|
  {
    if xs == [] {
      assert xs + ys == ys;
    } else {
      assert (xs + ys)[1..] == xs[1..] + ys;
      ToolsConcat(calls, xs[1..], ys);
      Associate(if xs[0].tag.Tool? then calls(xs[0]) else [], CallsOfTools(calls, xs[1..]), CallsOfTools(calls, ys));
    }
  }

  lemma GatheredConcat(calls: Ast -> seq<ToolCall>, m: Message, xs: seq<Ast>, ys: seq<Ast>)
    ensures Gathered(calls, Gathered(calls, m, xs), ys) == Gathered(calls, m, xs + ys)
  {
    TextsConcat(Reasoning, xs, ys);
    TextsConcat(Content, xs, ys);
    ToolsConcat(calls, xs, ys);
    Associate(m.reasoning, TextsOf(Reasoning, xs), TextsOf(Reasoning, ys));
    Associate(m.content, TextsOf(Content, xs), TextsOf(Content, ys));
    Associate(m.calls, CallsOfTools(calls, xs), CallsOfTools(calls, ys));
  }

  lemma TakenOne(n: Ast)
    ensures TakenIn([n]) == if Taken(n) then [n] else TakenIn(n.children)
  {
    assert [n][1..] == [];
  }

  lemma GatheredOne(calls: Ast -> seq<ToolCall>, m: Message, n: Ast)
    ensures Gathered(calls, m, [n])
            == Message(m.reasoning + if n.tag.Reasoning? then n.text else "",
                       m.content + if n.tag.Content? then n.text else "",
                       m.calls + if n.tag.Tool? then calls(n) else [])
  {
    OneTextOf(Reasoning, n);
    OneTextOf(Content, n);
    assert CallsOfTools(calls, [n][1..]) == [];
  }

  lemma OneTextOf(tag: Tag, n: Ast)
    ensures TextsOf(tag, [n]) == if n.tag == tag then n.text else ""
  {
    assert TextsOf(tag, [n][1..]) == "";
  }

  lemma {:induction false} VisitCollects(calls: Ast -> seq<ToolCall>, m: Message, n: Ast)
    ensures Visited(calls, m, n) == Gathered(calls, m, TakenIn([n]))
    decreases n, 1
  {
    TakenOne(n);
    if Taken(n) {
      GatheredOne(calls, m, n);
      assert m.reasoning + "" == m.reasoning && m.content + "" == m.content && m.calls + [] == m.calls;
    } else {
      AllCollected(calls, m, n.children);
    }
  }

  /**
   The content is that of the content nodes, the reasoning that of the reasoning nodes and the calls are those of the
   tool nodes, each in visiting order, of all such nodes that stand below no other.
   */
  lemma {:induction false} AllCollected(calls: Ast -> seq<ToolCall>, m: Message, ns: seq<Ast>)
    ensures VisitedAll(calls, m, ns)
            == Message(m.reasoning + TextsOf(Reasoning, TakenIn(ns)), m.content + TextsOf(Content, TakenIn(ns)),
                       m.calls + CallsOfTools(calls, TakenIn(ns)))
    decreases ns, 0
  {
    if ns == [] {
      assert m.reasoning + "" == m.reasoning && m.content + "" == m.content && m.calls + [] == m.calls;
    } else {
      var init, n := ns[..|ns| - 1], ns[|ns| - 1];
      assert ns == init + [n];
      AllCollected(calls, m, init);
      VisitCollects(calls, VisitedAll(calls, m, init), n);
      TakenConcat(init, [n]);
      GatheredConcat(calls, m, TakenIn(init), TakenIn([n]));
    }
  }

  // ----- growing -----

  /** A call that was there stays and grows; one that was not may come. */
  predicate CallsGrow(before: seq<ToolCall>, after: seq<ToolCall>) {
    |before| <= |after| <= 1 && (before != [] ==> CallExtends(before[0], after[0]))
  }

  /** The format's calls grow with the tool nodes, given `fine` ones. */
  ghost predicate Growing(calls: Ast -> seq<ToolCall>, fine: Ast -> bool) {
    && (forall a, b :: Grows(a, b) && fine(a) ==> CallsGrow(calls(a), calls(b)))
    && forall a :: fine(a) ==> AllFine(fine, a.children)
  }

  predicate AllFine(fine: Ast -> bool, ns: seq<Ast>) { forall i :: 0 <= i < |ns| ==> fine(ns[i]) }

  lemma ExtendsItself(m: Message)
    ensures Extends(m, m)
  {
  }

  lemma CallsAdded(m: Message, before: seq<ToolCall>, after: seq<ToolCall>)
    requires CallsGrow(before, after)
    ensures Extends(m.(calls := m.calls + before), m.(calls := m.calls + after))
  {
    var a, b := m.calls + before, m.calls + after;
    if before == [] {
      assert a == m.calls;
      if m.calls != [] { assert a[..|a| - 1] == b[..|a| - 1]; }
    } else {
      assert a[..|a| - 1] == m.calls == b[..|a| - 1];
    }
  }

  lemma {:induction false} VisitExtends(calls: Ast -> seq<ToolCall>, m: Message, n: Ast)
    requires forall a :: |calls(a)| <= 1
    ensures Extends(m, Visited(calls, m, n))
    decreases n, 1
  {
    if n.tag.Tool? {
      CallsAdded(m, [], calls(n));
      assert m.calls + [] == m.calls;
    } else if n.tag.Reasoning? || n.tag.Content? {
    } else {
      VisitAllExtends(calls, m, n.children, 0);
      assert n.children[..0] == [];
    }
  }

  lemma {:induction false} VisitAllExtends(calls: Ast -> seq<ToolCall>, m: Message, ns: seq<Ast>, k: nat)
    requires k <= |ns| && forall a :: |calls(a)| <= 1
    ensures Extends(VisitedAll(calls, m, ns[..k]), VisitedAll(calls, m, ns))
    decreases ns, 0
  {
    if k == |ns| {
      assert ns[..k] == ns;
      ExtendsItself(VisitedAll(calls, m, ns));
    } else {
      var init := ns[..|ns| - 1];
      VisitAllExtends(calls, m, init, k);
      assert init[..k] == ns[..k];
      VisitExtends(calls, VisitedAll(calls, m, init), ns[|ns| - 1]);
      ExtendsTransitive(VisitedAll(calls, m, ns[..k]), VisitedAll(calls, m, init), VisitedAll(calls, m, ns));
    }
  }

  lemma {:induction false} NodeGrows(calls: Ast -> seq<ToolCall>, fine: Ast -> bool, m: Message, a: Ast, b: Ast)
    requires Growing(calls, fine) && (forall n :: |calls(n)| <= 1) && Grows(a, b) && fine(a)
    ensures Extends(Visited(calls, m, a), Visited(calls, m, b))
    decreases a, 1
  {
    if a == b {
      ExtendsItself(Visited(calls, m, a));
    } else if a.tag.Tool? {
      CallsAdded(m, calls(a), calls(b));
    } else if !a.tag.Reasoning? && !a.tag.Content? {
      AllGrow(calls, fine, m, a.children, b.children);
    }
  }

  /** The next parse's message only extends this one's. */
  lemma {:induction false} AllGrow(calls: Ast -> seq<ToolCall>, fine: Ast -> bool, m: Message,
                                   xs: seq<Ast>, ys: seq<Ast>)
    requires Growing(calls, fine) && (forall n :: |calls(n)| <= 1) && ListGrows(xs, ys) && AllFine(fine, xs)
    ensures Extends(VisitedAll(calls, m, xs), VisitedAll(calls, m, ys))
    decreases xs, 0
  {
    if xs == [] {
      VisitAllExtends(calls, m, ys, 0);
      assert ys[..0] == [];
    } else {
      var n := |xs| - 1;
      var start := VisitedAll(calls, m, xs[..n]);
      NodeGrows(calls, fine, start, xs[n], ys[n]);
      assert ys[..n + 1][..n] == xs[..n];
      VisitAllExtends(calls, m, ys, n + 1);
      ExtendsTransitive(VisitedAll(calls, m, xs), VisitedAll(calls, m, ys[..n + 1]), VisitedAll(calls, m, ys));
    }
  }

  // ----- whole runs -----

  function MessagesOf(calls: Ast -> seq<ToolCall>, run: seq<seq<Ast>>): (ms: seq<Message>)
    ensures |ms| == |run|
  {
    seq(|run|, i requires 0 <= i < |run| => VisitedAll(calls, EMPTY_MESSAGE, run[i]))
  }

  ghost predicate GrowingRun(fine: Ast -> bool, run: seq<seq<Ast>>) {
    && (forall i :: 0 <= i < |run| ==> AllFine(fine, run[i]))
    && (forall i :: 0 <= i < |run| - 1 ==> ListGrows(run[i], run[i + 1]))
  }

  /** Over any growing run of parses no comparison throws, and the client holds exactly the last message. */
  lemma TreesReconstruct(calls: Ast -> seq<ToolCall>, fine: Ast -> bool, run: seq<seq<Ast>>)
    requires Growing(calls, fine) && (forall n :: |calls(n)| <= 1) && run != [] && GrowingRun(fine, run)
    ensures Client(EMPTY_MESSAGE, EMPTY_MESSAGE, MessagesOf(calls, run))
            == Success(VisitedAll(calls, EMPTY_MESSAGE, run[|run| - 1]))
  {
    var all := [[]] + run;
    var ms := MessagesOf(calls, all);
    assert ms[0] == EMPTY_MESSAGE && ms[1..] == MessagesOf(calls, run);
    forall i | 0 <= i < |ms| - 1 ensures GrowsAt(ms, i) {
      assert AllFine(fine, all[i]) && ListGrows(all[i], all[i + 1]) by {
        if i > 0 { assert all[i] == run[i - 1] && all[i + 1] == run[i]; }
      }
      AllGrow(calls, fine, EMPTY_MESSAGE, all[i], all[i + 1]);
    }
    GrowingFollowed(ms);
  }
}
