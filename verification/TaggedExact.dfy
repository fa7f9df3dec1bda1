/**
 The streamed replies of `TaggedStream` whose raw values may be cut anywhere: the client ends with the
 message exactly when every such cut is one at which the transcoder's output only grows, and otherwise
 a comparison throws.
 */
module TaggedExact {
  import opened Wrappers
  import opened ChatMessage
  import opened MessageDiff
  import opened ClientRun
  import opened PegMapper
  import opened CallAssembly
  import opened Streaming
  import opened TaggedStream
  import Transcoder

  // ----- one comparison -----

  /** Of two successive cuts: a raw value cut by the first is safely cut in what the second has of it. */
  predicate PairOk(nodes: seq<Node>, c: Cut, d: Cut)
    requires CutIn(nodes, c) && CutIn(nodes, d) && NotBefore(c, d)
  {
    c.part.Some? && nodes[c.whole].tag.ArgValue? ==>
      Transcoder.SafeCut(Transcoder.START, Arrived(nodes, c.whole, d), c.part.value)
  }

  /** What the cut has of the text of node `n`. */
  function Arrived(nodes: seq<Node>, n: nat, d: Cut): string
    requires CutIn(nodes, d) && n < |nodes|
  {
    if d.whole == n && d.part.Some? then nodes[n].text[..d.part.value] else nodes[n].text
  }

  lemma PairGrows(nodes: seq<Node>, c: Cut, d: Cut)
    requires CutIn(nodes, c) && CutIn(nodes, d) && NotBefore(c, d) && PairOk(nodes, c, d)
    ensures Grows(ParseAt(nodes, c), ParseAt(nodes, d))
  {
    var a, b := ParseAt(nodes, c), ParseAt(nodes, d);
    if a != [] {
      var n := |a| - 1;
      assert a[..n] == nodes[..n] == b[..n];
      if c.part.Some? {
        var e, k := nodes[n], c.part.value;
        if d.whole == n { assert e.text[..d.part.value][..k] == e.text[..k]; }
        if !e.tag.ArgValue? && d.whole == n { PartsLengthen(e, k, d.part.value); }
      }
    }
  }

  /** A raw value written to the named call. */
  lemma RawWritten(s: State, text: string)
    requires Inv(s) && Named(s)
    ensures var t := Step(s, Node(ArgValue, text));
            && SameText(s, t) && t.result.calls != [] && |t.result.calls| == |s.result.calls|
            && Last(t.result.calls).name == Last(s.result.calls).name
            && Last(t.result.calls).arguments == Last(s.result.calls).arguments + Transcoder.Normalize(text)
  {
    assert Transcoder.Normalize("") == "";
  }

  /** Two messages that differ in the arguments of the last call, which clash, and one that extends the second. */
  lemma ClashThrows(m: Message, m1: Message, m': Message, args: string, a: string, b: string)
    requires m.calls != [] && |m1.calls| == |m.calls| && m.reasoning == m1.reasoning && m.content == m1.content
    requires Last(m.calls).name == Last(m1.calls).name
    requires Last(m.calls).arguments == args + a && Last(m1.calls).arguments == args + b && Transcoder.Clash(a, b)
    requires Extends(m1, m')
    ensures Diffs(m, m') == Failure(TextMismatch)
  {
    var n := |m.calls| - 1;
    var x, y := m.calls[n].arguments, m'.calls[n].arguments;
    ClashStays(args, a, b, y);
    assert StringDiff(x, y) == Failure(TextMismatch);
    assert LastCallDiffs(n, m.calls[n], m'.calls[n]) == Failure(TextMismatch);
  }

  lemma ClashStays(args: string, a: string, b: string, y: string)
    requires Transcoder.Clash(a, b) && args + b <= y
    ensures Transcoder.Clash(args + a, y)
  {
    var i := FirstDifference(a, b);
    assert (args + a)[|args| + i] == a[i] && y[|args| + i] == (args + b)[|args| + i] == b[i];
  }

  lemma FirstDifference(a: string, b: string) returns (i: nat)
    requires Transcoder.Clash(a, b)
    ensures i < |a| && i < |b| && a[i] != b[i]
  {
    i :| i < |a| && i < |b| && a[i] != b[i];
  }

  lemma PairThrows(nodes: seq<Node>, c: Cut, d: Cut)
    requires AllowedRun(nodes) && CutIn(nodes, c) && CutIn(nodes, d) && NotBefore(c, d) && !PairOk(nodes, c, d)
    requires Named(Run(INITIAL, nodes[..c.whole]))
    ensures Diffs(MessageOf(ParseAt(nodes, c)), MessageOf(ParseAt(nodes, d))) == Failure(TextMismatch)
  {
    var n, k, text := c.whole, c.part.value, Arrived(nodes, c.whole, d);
    var s := Run(INITIAL, nodes[..n]);
    RunKeepsInv(INITIAL, nodes[..n]);
    assert text[..k] == nodes[n].text[..k];
    Transcoder.BadCutClashes(Transcoder.START, text, k);
    var a := ParseAt(nodes, c);
    assert a[..n] == nodes[..n] && a[n] == Node(ArgValue, text[..k]);
    PartMessage(s, a, text[..k], n);
    var m1 := LaterExtends(nodes, n, text, d);
    RawWritten(s, text[..k]);
    RawWritten(s, text);
    ClashThrows(MessageOf(a), m1, MessageOf(ParseAt(nodes, d)), Last(s.result.calls).arguments,
                Transcoder.Normalize(text[..k]), Transcoder.Normalize(text));
  }

  lemma PartMessage(s: State, es: seq<Node>, text: string, n: nat)
    requires |es| == n + 1 && s == Run(INITIAL, es[..n]) && es[n] == Node(ArgValue, text)
    ensures MessageOf(es) == Visible(Step(s, Node(ArgValue, text)))
  {
    RunKeepsInv(INITIAL, es);
    FinishVisible(Run(INITIAL, es));
  }

  /** What the second cut shows extends the message with as much of the value as that cut has. */
  lemma LaterExtends(nodes: seq<Node>, n: nat, text: string, d: Cut) returns (m1: Message)
    requires AllowedRun(nodes) && CutIn(nodes, d) && n < |nodes| && nodes[n].tag.ArgValue? && n <= d.whole
    requires text == Arrived(nodes, n, d) && (d.whole == n ==> d.part.Some?)
    ensures m1 == Visible(Step(Run(INITIAL, nodes[..n]), Node(ArgValue, text)))
    ensures Extends(m1, MessageOf(ParseAt(nodes, d)))
  {
    var b, s := ParseAt(nodes, d), Run(INITIAL, nodes[..n]);
    m1 := Visible(Step(s, Node(ArgValue, text)));
    assert b[..n] == nodes[..n] && b[n] == Node(ArgValue, text);
    var first := b[..n + 1];
    assert first[..n] == nodes[..n];
    PartMessage(s, first, text, n);
    ParseAllowed(nodes, d);
    GrowingParseExtends(first, b);
  }

  // ----- whole runs -----

  predicate AllPairsOk(nodes: seq<Node>, cuts: seq<Cut>)
    requires CutsInOrder(nodes, cuts)
  {
    forall i :: 0 <= i < |cuts| - 1 ==> PairOk(nodes, cuts[i], cuts[i + 1])
  }

  /** In a run that ends with the whole reply, the pairs are safe exactly when all cuts are. */
  lemma PairsDecide(nodes: seq<Node>, cuts: seq<Cut>)
    requires CutsInOrder(nodes, cuts) && cuts != [] && cuts[|cuts| - 1] == Cut(|nodes|, None)
    ensures AllPairsOk(nodes, cuts) <==> AllSafe(nodes, cuts)
  {
    if AllSafe(nodes, cuts) {
      forall i | 0 <= i < |cuts| - 1 ensures PairOk(nodes, cuts[i], cuts[i + 1]) {
        SafePair(nodes, cuts[i], cuts[i + 1]);
      }
    }
    if AllPairsOk(nodes, cuts) {
      forall i | 0 <= i < |cuts| ensures CutOk(nodes, cuts[i]) { SafeFromEnd(nodes, cuts, i); }
    }
  }

  lemma SafePair(nodes: seq<Node>, c: Cut, d: Cut)
    requires CutOk(nodes, c) && CutIn(nodes, d) && NotBefore(c, d)
    ensures PairOk(nodes, c, d)
  {
    if c.part.Some? && nodes[c.whole].tag.ArgValue? {
      var text, k := nodes[c.whole].text, c.part.value;
      if text[..k] == text {
        Transcoder.WholeCutSafe(text);
        assert Arrived(nodes, c.whole, d) == text;
      } else if d.whole == c.whole {
        Transcoder.SafeCutRestricts(text, k, d.part.value);
      }
    }
  }

  lemma {:induction false} SafeFromEnd(nodes: seq<Node>, cuts: seq<Cut>, i: nat)
    requires CutsInOrder(nodes, cuts) && i < |cuts| && cuts[|cuts| - 1] == Cut(|nodes|, None)
    requires AllPairsOk(nodes, cuts)
    ensures CutOk(nodes, cuts[i])
    decreases |cuts| - i
  {
    if i < |cuts| - 1 {
      var c, d := cuts[i], cuts[i + 1];
      assert PairOk(nodes, c, d);
      SafeFromEnd(nodes, cuts, i + 1);
      if c.part.Some? && nodes[c.whole].tag.ArgValue? { SafeThrough(nodes, c, d); }
    }
  }

  lemma SafeThrough(nodes: seq<Node>, c: Cut, d: Cut)
    requires CutIn(nodes, c) && CutOk(nodes, d) && NotBefore(c, d) && PairOk(nodes, c, d)
    requires c.part.Some? && nodes[c.whole].tag.ArgValue?
    ensures CutOk(nodes, c)
  {
    var text, k := nodes[c.whole].text, c.part.value;
    if d.whole == c.whole {
      var j := d.part.value;
      if text[..j] == text {
        assert j == |text|;
      } else {
        Transcoder.SafeCutTransitive(text, k, j);
      }
    }
    assert Transcoder.SafeCut(Transcoder.START, text, k);
  }

  /** Raw values only come while their call is visible. */
  ghost predicate RawNamed(nodes: seq<Node>) {
    forall n :: 0 <= n < |nodes| && nodes[n].tag.ArgValue? ==> Named(Run(INITIAL, nodes[..n]))
  }

  lemma RunCompared(nodes: seq<Node>, cuts: seq<Cut>)
    requires AllowedRun(nodes) && RawNamed(nodes) && CutsInOrder(nodes, cuts)
    ensures var ms := Messages(Parses(nodes, cuts)); Compared(ms) && (Throwing(ms) <==> !AllPairsOk(nodes, cuts))
  {
    var ms := Messages(Parses(nodes, cuts));
    forall i | 0 <= i < |ms| - 1
      ensures ComparedAt(ms, i) && (ThrowsAt(ms, i) <==> !PairOk(nodes, cuts[i], cuts[i + 1]))
    {
      ComparedPair(nodes, cuts, ms, i);
    }
    ThrowingIs(nodes, cuts, ms);
  }

  lemma ThrowingIs(nodes: seq<Node>, cuts: seq<Cut>, ms: seq<Message>)
    requires CutsInOrder(nodes, cuts) && |ms| == |cuts|
    requires forall i :: 0 <= i < |ms| - 1 ==> (ThrowsAt(ms, i) <==> !PairOk(nodes, cuts[i], cuts[i + 1]))
    ensures Throwing(ms) <==> !AllPairsOk(nodes, cuts)
  {
    if i :| 0 <= i < |cuts| - 1 && !PairOk(nodes, cuts[i], cuts[i + 1]) { assert ThrowsAt(ms, i); }
    if i :| 0 <= i < |ms| - 1 && ThrowsAt(ms, i) { assert !PairOk(nodes, cuts[i], cuts[i + 1]); }
  }

  lemma ComparedPair(nodes: seq<Node>, cuts: seq<Cut>, ms: seq<Message>, i: nat)
    requires AllowedRun(nodes) && RawNamed(nodes) && CutsInOrder(nodes, cuts) && i < |cuts| - 1
    requires ms == Messages(Parses(nodes, cuts))
    ensures ComparedAt(ms, i) && (ThrowsAt(ms, i) <==> !PairOk(nodes, cuts[i], cuts[i + 1]))
  {
    MessageAt(Parses(nodes, cuts), i);
    MessageAt(Parses(nodes, cuts), i + 1);
    PairCompared(nodes, cuts[i], cuts[i + 1]);
  }

  lemma PairCompared(nodes: seq<Node>, c: Cut, d: Cut)
    requires AllowedRun(nodes) && RawNamed(nodes) && CutIn(nodes, c) && CutIn(nodes, d) && NotBefore(c, d)
    ensures var m, m' := MessageOf(ParseAt(nodes, c)), MessageOf(ParseAt(nodes, d));
            if PairOk(nodes, c, d) then Extends(m, m') && Diffs(m, m').Success?
            else Diffs(m, m') == Failure(TextMismatch)
  {
    if PairOk(nodes, c, d) {
      PairGrows(nodes, c, d);
      ParseAllowed(nodes, d);
      GrowingParseExtends(ParseAt(nodes, c), ParseAt(nodes, d));
      ExtensionReconstructs(MessageOf(ParseAt(nodes, c)), MessageOf(ParseAt(nodes, d)));
    } else {
      PairThrows(nodes, c, d);
    }
  }

  /** The comparisons of a run from the empty message on. */
  lemma CutsDecide(nodes: seq<Node>, cuts: seq<Cut>)
    requires AllowedRun(nodes) && RawNamed(nodes) && CutsInOrder(nodes, cuts)
    requires cuts != [] && cuts[|cuts| - 1] == Cut(|nodes|, None)
    ensures Client(EMPTY_MESSAGE, EMPTY_MESSAGE, Messages(Parses(nodes, cuts)))
            == if AllSafe(nodes, cuts) then Success(MessageOf(nodes)) else Failure(TextMismatch)
  {
    var all := [Cut(0, None)] + cuts;
    StartedInOrder(nodes, cuts, all);
    var ms := StartedMessages(nodes, cuts, all);
    RunCompared(nodes, all);
    ClientDecides(ms);
    PairsDecide(nodes, all);
  }

  lemma StartedMessages(nodes: seq<Node>, cuts: seq<Cut>, all: seq<Cut>) returns (ms: seq<Message>)
    requires CutsInOrder(nodes, cuts) && CutsInOrder(nodes, all) && all == [Cut(0, None)] + cuts
    requires cuts != [] && cuts[|cuts| - 1] == Cut(|nodes|, None)
    ensures ms == Messages(Parses(nodes, all)) && |ms| == |all|
    ensures ms[0] == EMPTY_MESSAGE && ms[1..] == Messages(Parses(nodes, cuts)) && ms[|ms| - 1] == MessageOf(nodes)
  {
    var run := Parses(nodes, all);
    ms := Messages(run);
    StartedParses(nodes, cuts, all);
    MessagesCons(run);
    NothingIsEmpty();
    MessageAt(run, |run| - 1);
  }

  lemma MessagesCons(run: seq<seq<Node>>)
    requires run != []
    ensures Messages(run)[0] == MessageOf(run[0]) && Messages(run)[1..] == Messages(run[1..])
  {
  }

  lemma StartedParses(nodes: seq<Node>, cuts: seq<Cut>, all: seq<Cut>)
    requires CutsInOrder(nodes, cuts) && CutsInOrder(nodes, all) && all == [Cut(0, None)] + cuts
    requires cuts != [] && cuts[|cuts| - 1] == Cut(|nodes|, None)
    ensures var run := Parses(nodes, all);
            run[0] == [] && run[1..] == Parses(nodes, cuts) && run[|run| - 1] == nodes
  {
    var run := Parses(nodes, all);
    assert run[0] == ParseAt(nodes, Cut(0, None)) == nodes[..0] + [] == [];
    LastParse(nodes);
    assert all[|all| - 1] == Cut(|nodes|, None);
    forall i | 0 <= i < |cuts| ensures run[1..][i] == Parses(nodes, cuts)[i] { assert all[i + 1] == cuts[i]; }
  }

  lemma LastParse(nodes: seq<Node>)
    ensures ParseAt(nodes, Cut(|nodes|, None)) == nodes
  {
    assert nodes[..|nodes|] + [] == nodes;
  }

  lemma StartedInOrder(nodes: seq<Node>, cuts: seq<Cut>, all: seq<Cut>)
    requires CutsInOrder(nodes, cuts) && all == [Cut(0, None)] + cuts
    ensures CutsInOrder(nodes, all) && (AllSafe(nodes, all) <==> AllSafe(nodes, cuts))
  {
    assert forall i :: 0 < i < |all| ==> all[i] == cuts[i - 1];
    forall i | 0 <= i < |cuts| && AllSafe(nodes, all) ensures CutOk(nodes, cuts[i]) {
      assert cuts[i] == all[i + 1];
    }
  }

  // ----- tagged replies -----

  predicate ArgTag(e: Node) {
    e.tag.ArgOpen? || e.tag.ArgName? || e.tag.ArgValue? || e.tag.ArgStringValue? || e.tag.ArgClose?
  }

  lemma {:induction false} ArgsStayInCall(s: State, es: seq<Node>)
    requires InCall(s) && forall i :: 0 <= i < |es| ==> ArgTag(es[i])
    ensures InCall(Run(s, es))
    decreases |es|
  {
    if es != [] {
      ArgsStayInCall(s, es[..|es| - 1]);
      NamedStays(Run(s, es[..|es| - 1]), es[|es| - 1]);
    }
  }

  lemma {:induction false} OnlyArgTags(args: seq<Arg>)
    ensures forall i :: 0 <= i < |AllArgNodes(args)| ==> ArgTag(AllArgNodes(args)[i])
    decreases |args|
  {
    if args != [] { OnlyArgTags(args[1..]); }
  }

  /** A raw value is among the arguments of its call, after the head. */
  lemma RawInArguments(item: Item, n: nat)
    requires n < |ItemNodes(item)| && ItemNodes(item)[n].tag.ArgValue?
    ensures item.Called? && |CallHead(item)| <= n < |CallHead(item)| + |AllArgNodes(item.args)|
  {
  }

  lemma BeforeRaw(head: seq<Node>, args: seq<Node>, last: seq<Node>, n: nat)
    requires |head| <= n < |head| + |args|
    ensures (head + args + last)[..n] == head + args[..n - |head|]
  {
  }

  lemma HeadThenArguments(s: State, head: seq<Node>, args: seq<Node>)
    requires InCall(Run(s, head)) && forall i :: 0 <= i < |args| ==> ArgTag(args[i])
    ensures Named(Run(s, head + args))
  {
    ArgsStayInCall(Run(s, head), args);
    RunConcat(s, head, args);
  }

  lemma ItemRawNamed(s: State, item: Item, n: nat)
    requires Inv(s) && WellFormed(item) && n < |ItemNodes(item)| && ItemNodes(item)[n].tag.ArgValue?
    ensures Named(Run(s, ItemNodes(item)[..n]))
  {
    RawInArguments(item, n);
    var head, args := CallHead(item), AllArgNodes(item.args);
    CallHeadAllowed(s, item);
    OnlyArgTags(item.args);
    HeadThenArguments(s, head, args[..n - |head|]);
    BeforeRaw(head, args, [Node(ToolClose, "")], n);
  }

  lemma {:induction false} ItemsRawNamed(s: State, items: seq<Item>, n: nat)
    requires Inv(s) && (forall i :: 0 <= i < |items| ==> WellFormed(items[i]))
    requires n < |Nodes(items)| && Nodes(items)[n].tag.ArgValue?
    ensures Named(Run(s, Nodes(items)[..n]))
    decreases |items|
  {
    var first, rest := ItemNodes(items[0]), Nodes(items[1..]);
    Beginning(first, rest, n);
    if n < |first| {
      ItemRawNamed(s, items[0], n);
    } else {
      RunKeepsInv(s, first);
      ItemsRawNamed(Run(s, first), items[1..], n - |first|);
      RunConcat(s, first, rest[..n - |first|]);
    }
  }

  /** Node `n` of two lists, and what comes before it. */
  lemma Beginning(first: seq<Node>, rest: seq<Node>, n: nat)
    requires n < |first| + |rest|
    ensures n < |first| ==> (first + rest)[n] == first[n] && (first + rest)[..n] == first[..n]
    ensures n >= |first| ==>
              (first + rest)[n] == rest[n - |first|] && (first + rest)[..n] == first + rest[..n - |first|]
  {
  }

  /**
   Any well-formed reply, read in any number of growing pieces that may end inside a text: the client holds its
   message if every raw value was cut safely, and if one was not, a comparison throws.
   */
  lemma TaggedReplyExactly(items: seq<Item>, cuts: seq<Cut>)
    requires forall i :: 0 <= i < |items| ==> WellFormed(items[i])
    requires CutsInOrder(Nodes(items), cuts)
    requires cuts != [] && cuts[|cuts| - 1] == Cut(|Nodes(items)|, None)
    ensures Client(EMPTY_MESSAGE, EMPTY_MESSAGE, Messages(Parses(Nodes(items), cuts)))
            == if AllSafe(Nodes(items), cuts) then Success(MessageOf(Nodes(items))) else Failure(TextMismatch)
  {
    var nodes := Nodes(items);
    ItemsAllowed(INITIAL, items);
    forall n | 0 <= n < |nodes| && nodes[n].tag.ArgValue? ensures Named(Run(INITIAL, nodes[..n])) {
      ItemsRawNamed(INITIAL, items, n);
    }
    CutsDecide(nodes, cuts);
  }
}
