/**
 The replies a tool-calling grammar delivers: text, and calls that open, may give an id, are
 named, list tagged arguments or hand over a whole object, and close. Cut anywhere, they meet
 the streaming condition.
 */
module TaggedStream {
  import opened Wrappers
  import opened Text
  import opened ChatMessage
  import opened ClientRun
  import opened PegMapper
  import opened CallAssembly
  import opened Streaming
  import Transcoder

  datatype Item =
    | Reasoned(text: string)
    | Said(text: string)
    | Called(id: Option<string>, name: string, args: seq<Arg>)
    | Handed(id: Option<string>, name: string, text: string)

  predicate IsCall(item: Item) { item.Called? || item.Handed? }

  predicate WellFormed(item: Item) { IsCall(item) ==> TrimTrailing(item.name) != "" }

  function CallHead(item: Item): seq<Node>
    requires IsCall(item)
  {
    [Node(ToolOpen, "")] + (if item.id.Some? then [Node(ToolId, item.id.value)] else []) + [Node(ToolName, item.name)]
  }

  function CallBody(item: Item): seq<Node>
    requires IsCall(item)
  {
    match item
    case Called(_, _, args) => AllArgNodes(args)
    case Handed(_, _, text) => [Node(ToolArgs, text)]
  }

  function ItemNodes(item: Item): seq<Node> {
    match item
    case Reasoned(text) => [Node(Reasoning, text)]
    case Said(text) => [Node(Content, text)]
    case _ => CallHead(item) + CallBody(item) + [Node(ToolClose, "")]
  }

  function Nodes(items: seq<Item>): seq<Node> {
    if items == [] then [] else ItemNodes(items[0]) + Nodes(items[1..])
  }

  lemma {:induction false} AllowedConcat(s: State, a: seq<Node>, b: seq<Node>)
    ensures AllowedFrom(s, a) && AllowedFrom(Run(s, a), b) <==> AllowedFrom(s, a + b) && AllowedFrom(s, a)
    decreases |b|
  {
    if b == [] {
      assert a + b == a;
    } else {
      var n := |b| - 1;
      assert (a + b)[..|a + b| - 1] == a + b[..n];
      AllowedConcat(s, a, b[..n]);
      RunConcat(s, a, b[..n]);
    }
  }

  lemma AllowedOne(s: State, e: Node)
    ensures AllowedFrom(s, [e]) <==> Allowed(s, e)
  {
    assert [e][..0] == [];
  }

  predicate InCall(s: State) { Inv(s) && Named(s) }

  lemma NamedStays(s: State, e: Node)
    requires InCall(s)
    requires e.tag.ArgOpen? || e.tag.ArgName? || e.tag.ArgValue? || e.tag.ArgStringValue? || e.tag.ArgClose?
    ensures InCall(Step(s, e))
    ensures e.tag.ArgOpen? || e.tag.ArgClose? ==> !Step(s, e).quotePending
    ensures e.tag.ArgName? ==> Step(s, e).quotePending == s.quotePending
  {
    StepKeepsInv(s, e);
  }

  lemma AllowedTwo(s: State, a: Node, b: Node)
    requires Allowed(s, a) && Allowed(Step(s, a), b)
    ensures AllowedFrom(s, [a, b]) && Run(s, [a, b]) == Step(Step(s, a), b)
  {
    AllowedOne(s, a);
    AllowedOne(Step(s, a), b);
    RunOne(s, a);
    RunOne(Step(s, a), b);
    RunConcat(s, [a], [b]);
    AllowedConcat(s, [a], [b]);
    assert [a] + [b] == [a, b];
  }

  lemma ArgAllowed(s: State, a: Arg)
    requires InCall(s)
    ensures AllowedFrom(s, ArgNodes(a)) && InCall(Run(s, ArgNodes(a)))
  {
    var es := ArgNodes(a);
    var s1 := Step(s, es[0]);
    var s2 := Step(s1, es[1]);
    var s3 := Step(s2, es[2]);
    NamedStays(s, es[0]);
    NamedStays(s1, es[1]);
    NamedStays(s2, es[2]);
    NamedStays(s3, es[3]);
    AllowedTwo(s, es[0], es[1]);
    AllowedTwo(s2, es[2], es[3]);
    AllowedConcat(s, [es[0], es[1]], [es[2], es[3]]);
    RunConcat(s, [es[0], es[1]], [es[2], es[3]]);
    assert [es[0], es[1]] + [es[2], es[3]] == es;
  }

  lemma {:induction false} AllArgsAllowed(s: State, args: seq<Arg>)
    requires InCall(s)
    ensures AllowedFrom(s, AllArgNodes(args)) && InCall(Run(s, AllArgNodes(args)))
    decreases |args|
  {
    if args != [] {
      ArgAllowed(s, args[0]);
      AllArgsAllowed(Run(s, ArgNodes(args[0])), args[1..]);
      AllowedConcat(s, ArgNodes(args[0]), AllArgNodes(args[1..]));
      RunConcat(s, ArgNodes(args[0]), AllArgNodes(args[1..]));
    }
  }

  /** A call is pending: opened and not yet named. */
  predicate Pending(s: State) { Inv(s) && s.current == OnPending }

  lemma OpenPends(s: State)
    requires Inv(s)
    ensures Allowed(s, Node(ToolOpen, "")) && Pending(Step(s, Node(ToolOpen, "")))
    ensures Step(s, Node(ToolOpen, "")).buffer == ""
  {
    StepKeepsInv(s, Node(ToolOpen, ""));
  }

  lemma IdPends(s: State, id: string)
    requires Pending(s)
    ensures Allowed(s, Node(ToolId, id)) && Pending(Step(s, Node(ToolId, id)))
    ensures Step(s, Node(ToolId, id)).buffer == s.buffer
  {
    StepKeepsInv(s, Node(ToolId, id));
  }

  lemma NamePromotes(s: State, name: string)
    requires Pending(s) && TrimTrailing(name) != ""
    ensures Allowed(s, Node(ToolName, name)) && InCall(Step(s, Node(ToolName, name)))
    ensures s.buffer == "" ==> Last(Step(s, Node(ToolName, name)).result.calls).arguments == "{"
  {
    StepKeepsInv(s, Node(ToolName, name));
    NameAppends(s, Node(ToolName, name));
  }

  lemma CallHeadAllowed(s: State, item: Item)
    requires Inv(s) && IsCall(item) && WellFormed(item)
    ensures AllowedFrom(s, CallHead(item)) && InCall(Run(s, CallHead(item)))
    ensures Last(Run(s, CallHead(item)).result.calls).arguments == "{"
  {
    var open, name := Node(ToolOpen, ""), Node(ToolName, item.name);
    var s1 := Step(s, open);
    OpenPends(s);
    if item.id.Some? {
      var id := Node(ToolId, item.id.value);
      IdPends(s1, item.id.value);
      AllowedTwo(s, open, id);
      HeadNamed(s, [open, id], item.name);
      assert [open, id] + [name] == CallHead(item);
    } else {
      AllowedOne(s, open);
      RunOne(s, open);
      HeadNamed(s, [open], item.name);
      assert [open] + [name] == CallHead(item);
    }
  }

  lemma HeadNamed(s: State, opening: seq<Node>, name: string)
    requires AllowedFrom(s, opening) && Pending(Run(s, opening)) && TrimTrailing(name) != ""
    ensures var e := opening + [Node(ToolName, name)];
            && AllowedFrom(s, e) && InCall(Run(s, e))
            && (Run(s, opening).buffer == "" ==> Last(Run(s, e).result.calls).arguments == "{")
  {
    var e := Node(ToolName, name);
    NamePromotes(Run(s, opening), name);
    AllowedOne(Run(s, opening), e);
    RunOne(Run(s, opening), e);
    AllowedConcat(s, opening, [e]);
    RunConcat(s, opening, [e]);
  }

  /** A whole object after the name. */
  lemma ObjectAllowed(s: State, text: string)
    requires InCall(s) && Last(s.result.calls).arguments == "{"
    ensures AllowedFrom(s, [Node(ToolArgs, text)]) && InCall(Run(s, [Node(ToolArgs, text)]))
  {
    AllowedOne(s, Node(ToolArgs, text));
    RunOne(s, Node(ToolArgs, text));
    StepKeepsInv(s, Node(ToolArgs, text));
  }

  lemma ItemAllowed(s: State, item: Item)
    requires Inv(s) && WellFormed(item)
    ensures AllowedFrom(s, ItemNodes(item)) && Inv(Run(s, ItemNodes(item)))
  {
    RunKeepsInv(s, ItemNodes(item));
    if IsCall(item) {
      var head, body, close := CallHead(item), CallBody(item), Node(ToolClose, "");
      CallHeadAllowed(s, item);
      var s1 := Run(s, head);
      if item.Called? { AllArgsAllowed(s1, item.args); } else { ObjectAllowed(s1, item.text); }
      AllowedOne(Run(s1, body), close);
      AllowedConcat(s, head, body);
      RunConcat(s, head, body);
      AllowedConcat(s, head + body, [close]);
    } else {
      AllowedOne(s, ItemNodes(item)[0]);
    }
  }

  lemma {:induction false} ItemsAllowed(s: State, items: seq<Item>)
    requires Inv(s) && forall i :: 0 <= i < |items| ==> WellFormed(items[i])
    ensures AllowedFrom(s, Nodes(items))
    decreases |items|
  {
    if items != [] {
      ItemAllowed(s, items[0]);
      ItemsAllowed(Run(s, ItemNodes(items[0])), items[1..]);
      AllowedConcat(s, ItemNodes(items[0]), Nodes(items[1..]));
    }
  }

  /** Where a reply has been cut: so many whole nodes, and perhaps so many characters of the next one's text. */
  datatype Cut = Cut(whole: nat, part: Option<nat>)

  function PartOf(e: Node, k: nat): Node
    requires k <= |e.text|
  {
    Node(e.tag, e.text[..k])
  }

  /** The cut is inside the reply; a text is cut only in a node whose text may arrive in pieces. */
  predicate CutIn(nodes: seq<Node>, c: Cut) {
    && c.whole <= |nodes|
    && (c.part.Some? ==>
          && c.whole < |nodes| && c.part.value <= |nodes[c.whole].text|
          && (nodes[c.whole].tag.ArgValue? || Lengthens(PartOf(nodes[c.whole], c.part.value), nodes[c.whole])))
  }

  /** Texts, string values, names and whole-object arguments may be cut anywhere, raw values at safe cuts. */
  predicate CutOk(nodes: seq<Node>, c: Cut) {
    && CutIn(nodes, c)
    && (c.part.Some? ==> Lengthens(PartOf(nodes[c.whole], c.part.value), nodes[c.whole]))
  }

  predicate NotBefore(c: Cut, d: Cut) {
    || c.whole < d.whole
    || (c.whole == d.whole && (c.part.None? || (d.part.Some? && c.part.value <= d.part.value)))
  }

  predicate CutsInOrder(nodes: seq<Node>, cuts: seq<Cut>) {
    && (forall i :: 0 <= i < |cuts| ==> CutIn(nodes, cuts[i]))
    && (forall i :: 0 <= i < |cuts| - 1 ==> NotBefore(cuts[i], cuts[i + 1]))
  }

  predicate AllSafe(nodes: seq<Node>, cuts: seq<Cut>) { forall i :: 0 <= i < |cuts| ==> CutOk(nodes, cuts[i]) }

  function ParseAt(nodes: seq<Node>, c: Cut): seq<Node>
    requires CutIn(nodes, c)
  {
    nodes[..c.whole] + if c.part.Some? then [PartOf(nodes[c.whole], c.part.value)] else []
  }

  /** The parses of a reply that has been read up to each of the cuts. */
  function Parses(nodes: seq<Node>, cuts: seq<Cut>): (run: seq<seq<Node>>)
    requires CutsInOrder(nodes, cuts)
    ensures |run| == |cuts| && forall i :: 0 <= i < |cuts| ==> run[i] == ParseAt(nodes, cuts[i])
  {
    seq(|cuts|, i requires 0 <= i < |cuts| => ParseAt(nodes, cuts[i]))
  }

  lemma PartAllowed(s: State, e: Node, e': Node)
    requires Allowed(s, e') && e.tag == e'.tag && (e.tag.ArgValue? || Lengthens(e, e'))
    ensures Allowed(s, e)
  {
  }

  lemma ParseAllowed(nodes: seq<Node>, c: Cut)
    requires AllowedRun(nodes) && CutIn(nodes, c)
    ensures AllowedRun(ParseAt(nodes, c))
  {
    var es, n := ParseAt(nodes, c), c.whole;
    AllowedPrefix(nodes, n);
    if c.part.Some? {
      AllowedPrefix(nodes, n + 1);
      assert nodes[..n + 1][..n] == nodes[..n] == es[..n];
      PartAllowed(Run(INITIAL, nodes[..n]), es[n], nodes[n]);
    } else {
      assert es == nodes[..n];
    }
  }

  /** Two parts of the same text. */
  lemma PartsLengthen(e: Node, k: nat, j: nat)
    requires k <= j <= |e.text| && Lengthens(PartOf(e, k), e)
    ensures Lengthens(PartOf(e, k), PartOf(e, j))
  {
    assert e.text[..j][..k] == e.text[..k];
    if e.text[..k] == e.text {
      assert e.text[..j] == e.text;
    } else if e.tag.ArgValue? {
      Transcoder.SafeCutRestricts(e.text, k, j);
    }
  }

  lemma ParsesGrow(nodes: seq<Node>, c: Cut, d: Cut)
    requires CutOk(nodes, c) && CutOk(nodes, d) && NotBefore(c, d)
    ensures Grows(ParseAt(nodes, c), ParseAt(nodes, d))
  {
    var a, b := ParseAt(nodes, c), ParseAt(nodes, d);
    if a != [] {
      var n := |a| - 1;
      assert a[..n] == nodes[..n] == b[..n];
      if c.part.Some? && d.whole == c.whole { PartsLengthen(nodes[n], c.part.value, d.part.value); }
    }
  }

  lemma CutsGrow(nodes: seq<Node>, cuts: seq<Cut>)
    requires AllowedRun(nodes) && CutsInOrder(nodes, cuts) && AllSafe(nodes, cuts)
    ensures GrowingRun(Parses(nodes, cuts))
  {
    var run := Parses(nodes, cuts);
    forall i | 0 <= i < |run| ensures AllowedRun(run[i]) {
      ParseAllowed(nodes, cuts[i]);
    }
    forall i | 0 <= i < |run| - 1 ensures Grows(run[i], run[i + 1]) {
      ParsesGrow(nodes, cuts[i], cuts[i + 1]);
    }
  }

  /**
   Any well-formed reply, read in any number of growing pieces that may end inside a text, is reconstructed by
   the client.
   */
  lemma TaggedReplyReconstructs(items: seq<Item>, cuts: seq<Cut>)
    requires forall i :: 0 <= i < |items| ==> WellFormed(items[i])
    requires CutsInOrder(Nodes(items), cuts) && AllSafe(Nodes(items), cuts)
    requires cuts != [] && cuts[|cuts| - 1] == Cut(|Nodes(items)|, None)
    ensures Client(EMPTY_MESSAGE, EMPTY_MESSAGE, Messages(Parses(Nodes(items), cuts)))
            == Success(MessageOf(Nodes(items)))
  {
    ItemsAllowed(INITIAL, items);
    CutsReconstruct(Nodes(items), cuts);
  }

  lemma CutsReconstruct(nodes: seq<Node>, cuts: seq<Cut>)
    requires AllowedRun(nodes) && CutsInOrder(nodes, cuts) && AllSafe(nodes, cuts)
    requires cuts != [] && cuts[|cuts| - 1] == Cut(|nodes|, None)
    ensures Client(EMPTY_MESSAGE, EMPTY_MESSAGE, Messages(Parses(nodes, cuts))) == Success(MessageOf(nodes))
  {
    var run := Parses(nodes, cuts);
    CutsGrow(nodes, cuts);
    StreamReconstructs(run);
    assert run[|run| - 1] == nodes[..|nodes|] + [] == nodes;
  }
}
