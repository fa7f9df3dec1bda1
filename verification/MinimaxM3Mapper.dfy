/** `common_chat_peg_minimax_m3_mapper` (common/chat-peg-parser.cpp): from trees to the message. */
module MinimaxM3Mapper {
  import opened Wrappers
  import opened ChatMessage
  import opened ClientRun
  import opened PartialAst
  import opened TreeMessages
  import opened PythonLiterals
  import opened MinimaxM3Printer

  /** What a tool node adds as soon as it has a name, even a partial one. */
  function CallsOf(n: Ast): seq<ToolCall> {
    var name := FindByTag(n.children, ToolName, FIND_DEPTH);
    if name.None? then [] else [ToolCall(name.value.text, ContainerToJson(n, true, !n.partial), "")]
  }

  const CALLS: Ast -> seq<ToolCall> := n => CallsOf(n)

  /** The call of a tool node, as soon as there is a name at most three levels down, whole or not. */
  lemma ToolExactly(n: Ast, name: Option<Ast>)
    requires FirstTagged(Within(n.children, 3), ToolName, name)
    ensures CallsOf(n)
            == if name.Some? then [ToolCall(name.value.text, ContainerToJson(n, true, !n.partial), "")] else []
  {
    FindsFirst(n.children, ToolName, 3);
    FirstIsOne(Within(n.children, 3), ToolName, name, FindByTag(n.children, ToolName, 3));
  }

  // ----- the object -----

  class Mapper {
    var result: Message

    constructor (msg: Message)
      ensures result == msg
    {
      result := msg;
    }

    method FromAst(nodes: seq<Ast>)
      modifies this
      ensures result == VisitedAll(CALLS, old(result), nodes)
    {
      for i := 0 to |nodes|
        invariant result == VisitedAll(CALLS, old(result), nodes[..i])
      {
        assert nodes[..i + 1][..i] == nodes[..i];
        Visit(nodes[i]);
      }
      assert nodes[..|nodes|] == nodes;
    }

    method Visit(n: Ast)
      modifies this
      ensures result == Visited(CALLS, old(result), n)
      decreases n
    {
      if n.tag.Reasoning? {
        result := result.(reasoning := result.reasoning + n.text);
        return;
      }
      if n.tag.Content? {
        result := result.(content := result.content + n.text);
        return;
      }
      if n.tag.Tool? {
        var name := FindByTag(n.children, ToolName, FIND_DEPTH);
        if name.Some? {
          var call := ToolCall(name.value.text, ContainerToJson(n, true, !n.partial), "");
          result := result.(calls := result.calls + [call]);
        } else {
          assert result.calls + [] == result.calls;
        }
        return;
      }
      for i := 0 to |n.children|
        invariant result == VisitedAll(CALLS, old(result), n.children[..i])
      {
        assert n.children[..i + 1][..i] == n.children[..i];
        Visit(n.children[i]);
      }
      assert n.children[..|n.children|] == n.children;
    }
  }

  // ----- growing -----

  const NAMED_WHOLE: Ast -> bool := n => NamesComplete(n)

  lemma ToolGrows(a: Ast, b: Ast)
    requires Grows(a, b) && NamesComplete(a)
    ensures CallsGrow(CallsOf(a), CallsOf(b))
  {
    if a != b && CallsOf(a) != [] {
      FoundGrows(a.children, b.children, ToolName, FIND_DEPTH);
      ToolArgumentsGrow(a, b);
    }
  }

  lemma ToolsGrow()
    ensures Growing(CALLS, NAMED_WHOLE)
  {
    forall a, b | Grows(a, b) && NAMED_WHOLE(a) ensures CallsGrow(CALLS(a), CALLS(b)) { ToolGrows(a, b); }
  }

  /** Over any growing run of parses with whole argument names, the client holds exactly the last message. */
  lemma StreamReconstructs(run: seq<seq<Ast>>)
    requires run != [] && GrowingRun(NAMED_WHOLE, run)
    ensures Client(EMPTY_MESSAGE, EMPTY_MESSAGE, MessagesOf(CALLS, run))
            == Success(VisitedAll(CALLS, EMPTY_MESSAGE, run[|run| - 1]))
  {
    ToolsGrow();
    TreesReconstruct(CALLS, NAMED_WHOLE, run);
  }

  /** A complete call arrives with its name and the JSON object of its parameters. */
  lemma CompleteCall(m: Message, n: Ast, name: string, entries: seq<Entry>)
    requires IsCall(n, name, entries) && forall i :: 0 <= i < |entries| ==> Printable(entries[i].value)
    ensures Visited(CALLS, m, n)
            == m.(calls := m.calls + [ToolCall(name, JsonText(PyDict(entries), COMPACT), "")])
  {
    ToolArgumentsExact(n, name, entries);
    NameFirst(n.children, n.children[0].children[0]);
  }

  lemma NameFirst(cs: seq<Ast>, leaf: Ast)
    requires cs != [] && cs[0].tag.ToolOpen? && cs[0].children == [leaf] && leaf.tag.ToolName?
    ensures FindByTag(cs, ToolName, FIND_DEPTH) == Some(leaf)
  {
    assert FindByTag([leaf], ToolName, FIND_DEPTH - 1) == Some(leaf);
  }
}
