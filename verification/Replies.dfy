/**
 What a whole reply means: the texts joined, and one call for each call it makes, with its name, its id and
 the arguments as JSON text. That is the message the mapper makes of its nodes, and what the client ends up with.
 */
module Replies {
  import opened Sequences
  import opened Wrappers
  import opened Text
  import opened ChatMessage
  import opened ClientRun
  import opened PegMapper
  import opened CallAssembly
  import opened CallForms
  import opened JsonScan
  import opened Streaming
  import opened TaggedStream

  function SaidText(items: seq<Item>): string {
    if items == [] then "" else (if items[0].Said? then items[0].text else "") + SaidText(items[1..])
  }

  function ReasonedText(items: seq<Item>): string {
    if items == [] then "" else (if items[0].Reasoned? then items[0].text else "") + ReasonedText(items[1..])
  }

  function CallItems(items: seq<Item>): (calls: seq<Item>)
    ensures forall i :: 0 <= i < |calls| ==> IsCall(calls[i]) && calls[i] in items
  {
    if items == [] then [] else (if IsCall(items[0]) then [items[0]] else []) + CallItems(items[1..])
  }

  /** A text and a closing brace for each one it leaves open. */
  predicate Completes(text: string, arguments: string) {
    && text <= arguments
    && |arguments| - |text| == (if BraceDepth(text) > 0 then BraceDepth(text) else 0)
    && forall i :: |text| <= i < |arguments| ==> arguments[i] == '}'
  }

  /** What is written of a call's arguments before they are completed. */
  function WrittenArguments(item: Item): string
    requires IsCall(item)
  {
    match item
    case Called(_, _, args) => "{" + Members(args)
    case Handed(_, _, text) =>
      var t := TrimTrailing(text);
      if t != "" && t[0] == '{' then t else "{"
  }

  /** The call that an item stands for. */
  ghost predicate StandsFor(item: Item, call: ToolCall)
    requires IsCall(item)
  {
    && call.name == TrimTrailing(item.name)
    && (if item.id.Some? then IdWrittenAs(item.id.value, call.id) else call.id == "")
    && Completes(WrittenArguments(item), call.arguments)
  }

  /** Only white space, as far as the mapper looks. */
  predicate OnlyBlanks(text: string) {
    forall c :: c in text ==> c in {' ', '\n', '\r', '\t'}
  }

  ghost predicate Means(items: seq<Item>, m: Message) {
    var calls := CallItems(items);
    && m.content == SaidText(items)
    && m.reasoning == (if OnlyBlanks(ReasonedText(items)) then "" else ReasonedText(items))
    && |m.calls| == |calls|
    && forall i :: 0 <= i < |calls| ==> StandsFor(calls[i], m.calls[i])
  }

  // ----- one call -----

  function Ids(item: Item): seq<Node>
    requires IsCall(item)
  {
    if item.id.Some? then [Node(ToolId, item.id.value)] else []
  }

  lemma CallNodes(item: Item)
    requires IsCall(item)
    ensures var body := Ids(item) + CallBody(item);
            ItemNodes(item) == [Node(ToolOpen, "")] + body[..|Ids(item)|] + [Node(ToolName, item.name)]
                               + body[|Ids(item)|..] + [Node(ToolClose, "")]
  {
    var body := Ids(item) + CallBody(item);
    assert body[..|Ids(item)|] == Ids(item) && body[|Ids(item)|..] == CallBody(item);
  }

  lemma BodyDraft(item: Item)
    requires IsCall(item)
    ensures var body := Ids(item) + CallBody(item);
            var d := DraftRun(EMPTY_DRAFT, body);
            && ValuesInPlace(EMPTY_DRAFT, body) && (forall e :: e in body ==> BodyNode(e))
            && !d.quote && OpenBrace(d.text) == WrittenArguments(item) && d.id == DraftRun(EMPTY_DRAFT, Ids(item)).id
  {
    if item.Called? {
      DraftOfCall(Ids(item), item.args);
    } else {
      DraftOfCall(Ids(item), []);
      assert Ids(item) + AllArgNodes([]) == Ids(item);
      ObjectReplaces(Ids(item), item.text);
    }
  }

  lemma Completed(text: string)
    ensures Completes(text, text + Braces(BraceDepth(text)))
  {
    BracesAre(BraceDepth(text));
  }

  /** The call that is added. */
  function CallOf(item: Item): ToolCall
    requires IsCall(item)
  {
    var text := WrittenArguments(item);
    ToolCall(TrimTrailing(item.name), text + Braces(BraceDepth(text)), DraftRun(EMPTY_DRAFT, Ids(item)).id)
  }

  lemma CallStands(item: Item)
    requires IsCall(item)
    ensures StandsFor(item, CallOf(item))
  {
    Completed(WrittenArguments(item));
    LastIdCounts(Ids(item));
    if item.id.Some? { assert Ids(item)[|Ids(item)| - 1] == Node(ToolId, item.id.value); }
  }

  lemma CallAdded(s: State, item: Item)
    requires IsCall(item) && WellFormed(item)
    ensures Run(s, ItemNodes(item)).result.calls == s.result.calls + [CallOf(item)]
  {
    CallNodes(item);
    BodyDraft(item);
    ClosedCall(s, Ids(item) + CallBody(item), |Ids(item)|, item.name);
  }

  // ----- all calls -----

  function NewCalls(item: Item): seq<ToolCall> { if IsCall(item) then [CallOf(item)] else [] }

  function CallsOf(items: seq<Item>): seq<ToolCall> {
    if items == [] then [] else NewCalls(items[0]) + CallsOf(items[1..])
  }

  lemma ItemCalls(s: State, item: Item)
    requires WellFormed(item)
    ensures Run(s, ItemNodes(item)).result.calls == s.result.calls + NewCalls(item)
  {
    if IsCall(item) { CallAdded(s, item); } else { RunOne(s, ItemNodes(item)[0]); }
  }

  lemma {:induction false} CallsAdded(s: State, items: seq<Item>)
    requires forall i :: 0 <= i < |items| ==> WellFormed(items[i])
    ensures Run(s, Nodes(items)).result.calls == s.result.calls + CallsOf(items)
    decreases |items|
  {
    if items != [] {
      var first := ItemNodes(items[0]);
      RunConcat(s, first, Nodes(items[1..]));
      ItemCalls(s, items[0]);
      CallsAdded(Run(s, first), items[1..]);
      Associate(s.result.calls, NewCalls(items[0]), CallsOf(items[1..]));
    }
  }

  lemma {:induction false} EachCallStands(items: seq<Item>)
    ensures |CallsOf(items)| == |CallItems(items)|
    ensures forall i :: 0 <= i < |CallsOf(items)| ==> StandsFor(CallItems(items)[i], CallsOf(items)[i])
    decreases |items|
  {
    if items != [] {
      EachCallStands(items[1..]);
      if IsCall(items[0]) { CallStands(items[0]); }
    }
  }

  // ----- texts -----

  lemma {:induction false} TextConcat(tag: Tag, a: seq<Node>, b: seq<Node>)
    ensures TextOf(tag, a + b) == TextOf(tag, a) + TextOf(tag, b)
    decreases |b|
  {
    if b == [] {
      assert a + b == a;
    } else {
      var n := |b| - 1;
      assert (a + b)[..|a + b| - 1] == a + b[..n];
      TextConcat(tag, a, b[..n]);
    }
  }

  lemma {:induction false} NoText(tag: Tag, es: seq<Node>)
    requires forall e :: e in es ==> e.tag != tag
    ensures TextOf(tag, es) == ""
    decreases |es|
  {
    if es != [] {
      assert es[|es| - 1] in es;
      NoText(tag, es[..|es| - 1]);
    }
  }

  lemma {:induction false} ArgumentTags(args: seq<Arg>)
    ensures forall e :: e in AllArgNodes(args) ==> !e.tag.Content? && !e.tag.Reasoning?
    decreases |args|
  {
    if args != [] { ArgumentTags(args[1..]); }
  }

  lemma OneText(tag: Tag, e: Node)
    ensures TextOf(tag, [e]) == if e.tag == tag then e.text else ""
  {
    assert [e][..0] == [];
  }

  lemma CallTags(item: Item)
    requires IsCall(item)
    ensures forall e :: e in ItemNodes(item) ==> !e.tag.Content? && !e.tag.Reasoning?
  {
    if item.Called? { ArgumentTags(item.args); }
  }

  lemma ItemTexts(item: Item)
    ensures TextOf(Content, ItemNodes(item)) == if item.Said? then item.text else ""
    ensures TextOf(Reasoning, ItemNodes(item)) == if item.Reasoned? then item.text else ""
  {
    var es := ItemNodes(item);
    if IsCall(item) {
      CallTags(item);
      NoText(Content, es);
      NoText(Reasoning, es);
    } else {
      OneText(Content, es[0]);
      OneText(Reasoning, es[0]);
    }
  }

  lemma {:induction false} ReplyTexts(items: seq<Item>)
    ensures TextOf(Content, Nodes(items)) == SaidText(items)
    ensures TextOf(Reasoning, Nodes(items)) == ReasonedText(items)
    decreases |items|
  {
    if items != [] {
      ItemTexts(items[0]);
      ReplyTexts(items[1..]);
      TextConcat(Content, ItemNodes(items[0]), Nodes(items[1..]));
      TextConcat(Reasoning, ItemNodes(items[0]), Nodes(items[1..]));
    }
  }

  lemma BlankReasoning(text: string)
    ensures VisibleReasoning(text) == if OnlyBlanks(text) then "" else text
  {
    if OnlyBlanks(text) {
      forall i | 0 <= i < |text| ensures IsBlank(text[i]) { assert text[i] in text; }
    }
  }

  /** The message of a list of nodes: its texts are those of its nodes, reasoning only if some of it is visible. */
  lemma MessageTexts(es: seq<Node>)
    ensures MessageOf(es).content == TextOf(Content, es)
    ensures MessageOf(es).reasoning == if OnlyBlanks(TextOf(Reasoning, es)) then "" else TextOf(Reasoning, es)
  {
    TextIsCollected(INITIAL, es);
    assert "" + TextOf(Content, es) == TextOf(Content, es) && "" + TextOf(Reasoning, es) == TextOf(Reasoning, es);
    FlushIsDead(es);
    BlankReasoning(TextOf(Reasoning, es));
  }

  // ----- whole replies -----

  /** The mapper makes of every reply the message it means. */
  lemma ReplyMeans(items: seq<Item>)
    requires forall i :: 0 <= i < |items| ==> WellFormed(items[i])
    ensures Means(items, MessageOf(Nodes(items)))
  {
    MessageTexts(Nodes(items));
    ReplyTexts(items);
    FlushIsDead(Nodes(items));
    CallsAdded(INITIAL, items);
    EachCallStands(items);
  }

  /** And that is what the client holds after any growing run of parses of the reply. */
  lemma ReplyArrives(items: seq<Item>, cuts: seq<Cut>)
    requires forall i :: 0 <= i < |items| ==> WellFormed(items[i])
    requires CutsInOrder(Nodes(items), cuts) && AllSafe(Nodes(items), cuts)
    requires cuts != [] && cuts[|cuts| - 1] == Cut(|Nodes(items)|, None)
    ensures var held := Client(EMPTY_MESSAGE, EMPTY_MESSAGE, Messages(Parses(Nodes(items), cuts)));
            held.Success? && Means(items, held.value)
  {
    TaggedReplyReconstructs(items, cuts);
    ReplyMeans(items);
  }
}
