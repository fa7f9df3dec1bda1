/**
 `common_chat_peg_mapper` (common/chat-peg-parser.cpp): the state machine that turns the
 tagged nodes of a parse, visited in order, into a message whose tool calls carry partially
 written JSON arguments. The class updates its fields as the source does; `Step` says what
 one node does to them, and the lemmas speak about runs of `Step`.
 */
module PegMapper {
  import opened Wrappers
  import opened Text
  import opened ChatMessage
  import Transcoder
  import JsonScan

  datatype Tag =
    | Reasoning | Content
    | ToolOpen | ToolClose | ToolId | ToolName | ToolArgs
    | ArgOpen | ArgClose | ArgName | ArgValue | ArgStringValue
    | Other

  datatype Node = Node(tag: Tag, text: string)

  /** What the pointer `current_tool` refers to; `Dangling` after the pending call it pointed to was reset. */
  datatype Cursor = NoCall | OnPending | OnResult | Dangling

  datatype State = State(
    result: Message,
    pending: Option<ToolCall>,
    current: Cursor,
    argCount: nat,
    quotePending: bool,
    buffer: string)

  const INITIAL := State(EMPTY_MESSAGE, None, NoCall, 0, false, "")

  /** The pointer and what it refers to agree. */
  predicate Sound(s: State) {
    && (s.current == OnPending <==> s.pending.Some?)
    && (s.current == OnResult ==> s.result.calls != [])
  }

  /** Nodes whose handling goes through `current_tool`. */
  predicate UsesCall(tag: Tag) {
    tag.ToolId? || tag.ToolName? || tag.ToolArgs? || tag.ArgName? || tag.ArgValue? || tag.ArgStringValue?
    || tag.ArgClose? || tag.ToolClose?
  }

  /** The source would read a destroyed object: the one thing a caller must not make it do. */
  predicate Undefined(s: State, e: Node) { s.current == Dangling && UsesCall(e.tag) }

  predicate HasCall(s: State) {
    (s.current == OnPending && s.pending.Some?) || (s.current == OnResult && s.result.calls != [])
  }

  function Last(calls: seq<ToolCall>): ToolCall
    requires calls != []
  {
    calls[|calls| - 1]
  }

  function WithLast(calls: seq<ToolCall>, c: ToolCall): seq<ToolCall>
    requires calls != []
  {
    calls[..|calls| - 1] + [c]
  }

  function Current(s: State): ToolCall
    requires HasCall(s)
  {
    if s.current == OnPending then s.pending.value else Last(s.result.calls)
  }

  function SetCurrent(s: State, c: ToolCall): State
    requires HasCall(s)
  {
    if s.current == OnPending then s.(pending := Some(c))
    else s.(result := s.result.(calls := WithLast(s.result.calls, c)))
  }

  /** `args_target`: the buffer until the call has a name, then its arguments. */
  function ArgsTarget(s: State): string
    requires HasCall(s)
  {
    if Current(s).name != "" then Current(s).arguments else s.buffer
  }

  function SetArgs(s: State, text: string): State
    requires HasCall(s)
  {
    if Current(s).name != "" then SetCurrent(s, Current(s).(arguments := text)) else s.(buffer := text)
  }

  function ParsedId(text: string): string {
    var t := TrimTrailing(text);
    if |t| >= 2 && t[0] == '"' && t[|t| - 1] == '"' then t[1..|t| - 1] else t
  }

  function NameCall(s: State, text: string): State
    requires HasCall(s)
  {
    var c := Current(s).(name := TrimTrailing(text));
    var c := if s.buffer != "" then c.(arguments := s.buffer)
             else if c.arguments == "" then c.(arguments := "{") else c;
    var s := SetCurrent(s, c).(buffer := "");
    if s.pending.Some? then
      s.(result := s.result.(calls := s.result.calls + [s.pending.value]), pending := None, current := OnResult)
    else s
  }

  function ArgKey(argCount: nat, text: string): string {
    (if argCount > 0 then "," else "") + (Dump(TrimName(text)) + ":")
  }

  function OpenBrace(target: string): string { if target == "" then "{" else target }

  /** What a value node writes, given whether a string is already open. */
  function ValueText(isString: bool, text: string, quotePending: bool): string {
    if isString && text == "" then "\""
    else if isString then (if quotePending then "" else "\"") + Escape(text)
    else if text != "" then Transcoder.Normalize(text) else ""
  }

  function Braces(n: int): string
    decreases n
  {
    if n <= 0 then "" else Braces(n - 1) + "}"
  }

  /** The closing of a call: the pending quote, then one brace for each one still open. */
  function Closed(arguments: string, quotePending: bool): string {
    var a := if quotePending then arguments + "\"" else arguments;
    a + Braces(JsonScan.BraceDepth(a))
  }

  function CloseCall(s: State): State
    requires HasCall(s)
  {
    var c := Current(s);
    var flush := c.name == "" && s.buffer != "";
    var c := c.(arguments := Closed(if flush then s.buffer else c.arguments, s.quotePending));
    var s := SetCurrent(s, c).(buffer := if flush then "" else s.buffer, quotePending := false);
    if s.pending.Some? then
      s.(result := if c.name != "" then s.result.(calls := s.result.calls + [s.pending.value]) else s.result,
         pending := None, current := if s.current == OnPending then Dangling else s.current)
    else s
  }

  /** The nodes that act on the current call. */
  function StepOnCall(s: State, e: Node): State
    requires HasCall(s)
  {
    match e.tag
    case ToolId => SetCurrent(s, Current(s).(id := ParsedId(e.text)))
    case ToolName => NameCall(s, e.text)
    case ToolArgs =>
      var text := TrimTrailing(e.text);
      if text != "" && text[0] == '{' then SetArgs(s, text) else s
    case ArgName =>
      SetArgs(s, OpenBrace(ArgsTarget(s)) + ArgKey(s.argCount, e.text)).(argCount := s.argCount + 1)
    case ArgValue => SetArgs(s, ArgsTarget(s) + ValueText(false, e.text, s.quotePending))
    case ArgStringValue =>
      SetArgs(s, ArgsTarget(s) + ValueText(true, e.text, s.quotePending)).(quotePending := true)
    case ArgClose => if s.quotePending then SetArgs(s, ArgsTarget(s) + "\"").(quotePending := false) else s
    case ToolClose => CloseCall(s)
    case _ => s
  }

  function Step(s: State, e: Node): State {
    if e.tag.Reasoning? then s.(result := s.result.(reasoning := s.result.reasoning + e.text))
    else if e.tag.Content? then s.(result := s.result.(content := s.result.content + e.text))
    else if e.tag.ToolOpen? then
      s.(pending := Some(ToolCall("", "", "")), current := OnPending, argCount := 0, buffer := "",
         quotePending := false)
    else if e.tag.ArgOpen? then s.(quotePending := false)
    else if UsesCall(e.tag) && HasCall(s) then StepOnCall(s, e)
    else s
  }

  function Run(s: State, es: seq<Node>): State
    decreases |es|
  {
    if es == [] then s else Step(Run(s, es[..|es| - 1]), es[|es| - 1])
  }

  predicate IsBlank(c: char) { c == ' ' || c == '\n' || c == '\r' || c == '\t' }

  /** Reasoning made of white space only is discarded. */
  function VisibleReasoning(r: string): string {
    if forall i :: 0 <= i < |r| ==> IsBlank(r[i]) then "" else r
  }

  /** The end of `from_ast`: flush a pending call that has a name, drop blank reasoning. */
  function Flush(s: State): State {
    if s.pending.Some? && s.pending.value.name != "" then
      var c := s.pending.value;
      var c := if s.buffer != "" then c.(arguments := s.buffer) else c;
      var c := if s.quotePending && c.arguments != "" then c.(arguments := c.arguments + "\"") else c;
      s.(result := s.result.(calls := s.result.calls + [c]), pending := None,
         current := if s.current == OnPending then Dangling else s.current)
    else s
  }

  function Finish(s: State): Message {
    var m := Flush(s).result;
    m.(reasoning := VisibleReasoning(m.reasoning))
  }

  /** The message for a whole list of nodes. */
  function MessageOf(es: seq<Node>): Message { Finish(Run(INITIAL, es)) }

  // ----- the object -----

  class Mapper {
    var result: Message
    var pending: Option<ToolCall>
    var current: Cursor
    var argCount: nat
    var quotePending: bool
    var buffer: string

    ghost function View(): State
      reads this
    {
      State(result, pending, current, argCount, quotePending, buffer)
    }

    constructor ()
      ensures View() == INITIAL
    {
      result := EMPTY_MESSAGE;
      pending, current := None, NoCall;
      argCount, quotePending, buffer := 0, false, "";
    }

    method WriteCurrent(c: ToolCall)
      requires HasCall(View())
      modifies this`pending, this`result
      ensures View() == SetCurrent(old(View()), c)
    {
      if current == OnPending {
        pending := Some(c);
      } else {
        result := result.(calls := WithLast(result.calls, c));
      }
    }

    method ReadCurrent() returns (c: ToolCall)
      requires HasCall(View())
      ensures c == Current(View())
    {
      c := if current == OnPending then pending.value else Last(result.calls);
    }

    method WriteArgs(text: string)
      requires HasCall(View())
      modifies this`pending, this`result, this`buffer
      ensures View() == SetArgs(old(View()), text)
    {
      var c := ReadCurrent();
      if c.name != "" {
        WriteCurrent(c.(arguments := text));
      } else {
        buffer := text;
      }
    }

    method ReadArgs() returns (text: string)
      requires HasCall(View())
      ensures text == ArgsTarget(View())
    {
      var c := ReadCurrent();
      text := if c.name != "" then c.arguments else buffer;
    }

    method Map(node: Node)
      requires Sound(View()) && !Undefined(View(), node)
      modifies this
      ensures Sound(View()) && View() == Step(old(View()), node)
    {
      match node.tag
      case Reasoning => result := result.(reasoning := result.reasoning + node.text);
      case Content => result := result.(content := result.content + node.text);
      case ToolOpen =>
        pending := Some(ToolCall("", "", ""));
        current := OnPending;
        argCount, buffer, quotePending := 0, "", false;
      case ArgOpen => quotePending := false;
      case Other =>
      case _ => if current != NoCall { MapOnCall(node); }
    }

    method MapOnCall(node: Node)
      requires Sound(View()) && HasCall(View()) && UsesCall(node.tag)
      modifies this
      ensures Sound(View()) && View() == StepOnCall(old(View()), node)
    {
      match node.tag
      case ToolId =>
        var c := ReadCurrent();
        WriteCurrent(c.(id := ParsedId(node.text)));
      case ToolName => MapName(node.text);
      case ToolArgs =>
        var text := TrimTrailing(node.text);
        if text != "" && text[0] == '{' {
          WriteArgs(text);
        }
      case ArgName => MapArgName(node.text);
      case ArgValue => MapValue(false, node.text);
      case ArgStringValue => MapValue(true, node.text);
      case ArgClose =>
        if quotePending {
          var target := ReadArgs();
          WriteArgs(target + "\"");
          quotePending := false;
        }
      case ToolClose => MapClose();
      case _ =>
    }

    method MapArgName(text: string)
      requires Sound(View()) && HasCall(View())
      modifies this
      ensures Sound(View())
      ensures var s := old(View());
              View() == SetArgs(s, OpenBrace(ArgsTarget(s)) + ArgKey(s.argCount, text)).(argCount := s.argCount + 1)
    {
      var entry := if argCount > 0 then "," else "";
      entry := entry + (Dump(TrimName(text)) + ":");
      argCount := argCount + 1;
      var target := ReadArgs();
      if target == "" {
        target := "{";
      }
      WriteArgs(target + entry);
    }

    method MapName(text: string)
      requires Sound(View()) && HasCall(View())
      modifies this
      ensures Sound(View()) && View() == NameCall(old(View()), text)
    {
      var c := ReadCurrent();
      c := c.(name := TrimTrailing(text));
      if buffer != "" {
        c := c.(arguments := buffer);
        buffer := "";
      } else if c.arguments == "" {
        c := c.(arguments := "{");
      }
      WriteCurrent(c);
      if pending.Some? {
        result := result.(calls := result.calls + [pending.value]);
        pending := None;
        current := OnResult;
      }
    }

    method MapValue(isString: bool, text: string)
      requires Sound(View()) && HasCall(View())
      modifies this
      ensures Sound(View())
      ensures View() == StepOnCall(old(View()), Node(if isString then ArgStringValue else ArgValue, text))
    {
      var added := "";
      ghost var wasPending := quotePending;
      if text == "" && isString {
        added := "\"";
        quotePending := true;
      } else if text != "" && isString {
        if !quotePending {
          added := "\"";
          quotePending := true;
        }
        added := added + Escape(text);
      } else if text != "" {
        added := Transcoder.NormalizeQuotesToJson(text);
      }
      assert added == ValueText(isString, text, wasPending);
      var target := ReadArgs();
      WriteArgs(target + added);
    }

    method ClosingBraces(depth: int) returns (braces: string)
      ensures braces == Braces(depth)
    {
      braces := "";
      for d := 0 to if depth > 0 then depth else 0
        invariant braces == Braces(d)
      {
        braces := braces + "}";
      }
    }

    method MapClose()
      requires Sound(View()) && HasCall(View())
      modifies this
      ensures Sound(View()) && View() == CloseCall(old(View()))
    {
      var c := ReadCurrent();
      if c.name == "" && buffer != "" {
        c := c.(arguments := buffer);
        buffer := "";
      }
      if quotePending {
        c := c.(arguments := c.arguments + "\"");
        quotePending := false;
      }
      var depth := JsonScan.JsonBraceDepth(c.arguments);
      var braces := ClosingBraces(depth);
      c := c.(arguments := c.arguments + braces);
      WriteCurrent(c);
      if pending.Some? {
        if c.name != "" {
          result := result.(calls := result.calls + [pending.value]);
        }
        pending := None;
        current := Dangling;
      }
    }

    /** `from_ast`: map every node in visiting order, then flush and tidy up. */
    method FromAst(nodes: seq<Node>)
      requires Sound(View())
      requires forall k :: 0 <= k < |nodes| ==> !Undefined(Run(View(), nodes[..k]), nodes[k])
      modifies this
      ensures result == Finish(Run(old(View()), nodes))
    {
      Visit(nodes);
      FlushPending();
      DropBlank();
    }

    method Visit(nodes: seq<Node>)
      requires Sound(View())
      requires forall k :: 0 <= k < |nodes| ==> !Undefined(Run(View(), nodes[..k]), nodes[k])
      modifies this
      ensures View() == Run(old(View()), nodes)
    {
      for i := 0 to |nodes|
        invariant Sound(View()) && View() == Run(old(View()), nodes[..i])
      {
        assert nodes[..i + 1][..i] == nodes[..i];
        Map(nodes[i]);
      }
      assert nodes[..|nodes|] == nodes;
    }

    method FlushPending()
      modifies this`result, this`pending
      ensures result == Flush(old(View())).result
    {
      if pending.Some? && pending.value.name != "" {
        var c := pending.value;
        if buffer != "" {
          c := c.(arguments := buffer);
        }
        if quotePending && c.arguments != "" {
          c := c.(arguments := c.arguments + "\"");
        }
        result := result.(calls := result.calls + [c]);
        pending := None;
      }
    }

    method DropBlank()
      modifies this`result
      ensures result == old(result).(reasoning := VisibleReasoning(old(result.reasoning)))
    {
      var allBlank := true;
      for i := 0 to |result.reasoning|
        invariant allBlank <==> forall k :: 0 <= k < i ==> IsBlank(result.reasoning[k])
      {
        if !IsBlank(result.reasoning[i]) { allBlank := false; }
      }
      if allBlank {
        result := result.(reasoning := "");
      }
    }
  }
}
