/** `common_chat_peg_gemma4_mapper` (common/chat-peg-parser.cpp): from trees to the message. */
module Gemma4Mapper {
  import opened Wrappers
  import opened ChatMessage
  import opened ClientRun
  import opened PartialAst
  import opened TreeMessages
  import opened PythonLiterals
  import Gemma4Printer

  /** What a tool node adds: nothing before its name is complete and its arguments have begun. */
  function CallsOf(n: Ast): seq<ToolCall> {
    var name, args := FindByTag(n.children, ToolName, FIND_DEPTH), FindByTag(n.children, ToolArgs, FIND_DEPTH);
    if name.None? || args.None? || name.value.partial then []
    else [ToolCall(name.value.text, ArgsText(args.value), "")]
  }

  function ArgsText(args: Ast): string {
    if args.children == [] then "" else Gemma4Printer.ToJson(args.children[0])
  }

  const CALLS: Ast -> seq<ToolCall> := n => CallsOf(n)

  /**
   The call of a tool node, of which `name` and `args` are the first nodes with their tags at most three levels down:
   none until both are there and the name is whole.
   */
  lemma ToolExactly(n: Ast, name: Option<Ast>, args: Option<Ast>)
    requires FirstTagged(Within(n.children, 3), ToolName, name) && FirstTagged(Within(n.children, 3), ToolArgs, args)
    ensures CallsOf(n)
            == if name.Some? && args.Some? && !name.value.partial then
                 [ToolCall(name.value.text,
                           if args.value.children == [] then "" else Gemma4Printer.ToJson(args.value.children[0]), "")]
               else []
  {
    FindsFirst(n.children, ToolName, 3);
    FindsFirst(n.children, ToolArgs, 3);
    FirstIsOne(Within(n.children, 3), ToolName, name, FindByTag(n.children, ToolName, 3));
    FirstIsOne(Within(n.children, 3), ToolArgs, args, FindByTag(n.children, ToolArgs, 3));
  }

  // ----- the object -----

  class Mapper {
    var result: Message

    constructor (msg: Message)
      ensures result == msg
    {
      result := msg;
    }

    method FromAst(nodes: seq<Ast>)
      modifies this
      ensures result == VisitedAll(CALLS, old(result), nodes)
    {
      for i := 0 to |nodes|
        invariant result == VisitedAll(CALLS, old(result), nodes[..i])
      {
        assert nodes[..i + 1][..i] == nodes[..i];
        Visit(nodes[i]);
      }
      assert nodes[..|nodes|] == nodes;
    }

    method Visit(n: Ast)
      modifies this
      ensures result == Visited(CALLS, old(result), n)
      decreases n
    {
      if n.tag.Reasoning? {
        result := result.(reasoning := result.reasoning + n.text);
        return;
      }
      if n.tag.Content? {
        result := result.(content := result.content + n.text);
        return;
      }
      if n.tag.Tool? {
        var name := FindByTag(n.children, ToolName, FIND_DEPTH);
        var args := FindByTag(n.children, ToolArgs, FIND_DEPTH);
        if name.Some? && args.Some? && !name.value.partial {
          var call := ToolCall(name.value.text, "", "");
          if args.value.children != [] {
            call := call.(arguments := Gemma4Printer.ToJson(args.value.children[0]));
          }
          result := result.(calls := result.calls + [call]);
        } else {
          assert result.calls + [] == result.calls;
        }
        return;
      }
      for i := 0 to |n.children|
        invariant result == VisitedAll(CALLS, old(result), n.children[..i])
      {
        assert n.children[..i + 1][..i] == n.children[..i];
        Visit(n.children[i]);
      }
      assert n.children[..|n.children|] == n.children;
    }
  }

  // ----- growing -----

  lemma ArgsGrow(a: Ast, b: Ast)
    requires Grows(a, b)
    ensures ArgsText(a) <= ArgsText(b)
  {
    if a != b && a.children != [] { Gemma4Printer.FirstChildGrows(a.children, b.children); }
  }

  lemma ToolGrows(a: Ast, b: Ast)
    requires Grows(a, b)
    ensures CallsGrow(CallsOf(a), CallsOf(b))
  {
    if a != b && CallsOf(a) != [] {
      FoundGrows(a.children, b.children, ToolName, FIND_DEPTH);
      FoundGrows(a.children, b.children, ToolArgs, FIND_DEPTH);
      ArgsGrow(FindByTag(a.children, ToolArgs, FIND_DEPTH).value, FindByTag(b.children, ToolArgs, FIND_DEPTH).value);
    }
  }

  const EVERY: Ast -> bool := n => true

  lemma ToolsGrow()
    ensures Growing(CALLS, EVERY)
  {
    forall a, b | Grows(a, b) ensures CallsGrow(CALLS(a), CALLS(b)) { ToolGrows(a, b); }
  }

  predicate Successive(run: seq<seq<Ast>>) { forall i :: 0 <= i < |run| - 1 ==> ListGrows(run[i], run[i + 1]) }

  /** Over any growing run of parses, the client that folds every delta holds exactly the last message. */
  lemma StreamReconstructs(run: seq<seq<Ast>>)
    requires run != [] && Successive(run)
    ensures Client(EMPTY_MESSAGE, EMPTY_MESSAGE, MessagesOf(CALLS, run))
            == Success(VisitedAll(CALLS, EMPTY_MESSAGE, run[|run| - 1]))
  {
    ToolsGrow();
    TreesReconstruct(CALLS, EVERY, run);
  }

  /** The tree of a complete call as the grammar builds it: the name in its opening, then the arguments. */
  ghost predicate IsCall(n: Ast, name: string, t: Py) {
    && n.tag.Tool? && |n.children| == 2 && n.children[0].tag.ToolOpen? && n.children[1].tag.ToolArgs?
    && |n.children[0].children| == 1
    && (var leaf := n.children[0].children[0];
        leaf.tag.ToolName? && leaf.text == name && !leaf.partial && leaf.children == [])
    && n.children[1].children != [] && Gemma4Printer.RepresentsBare(n.children[1].children[0], t)
  }

  /** A complete call arrives with its name and the JSON text of its arguments. */
  lemma CompleteCall(m: Message, n: Ast, name: string, t: Py)
    requires IsCall(n, name, t)
    ensures Visited(CALLS, m, n) == m.(calls := m.calls + [ToolCall(name, JsonText(t, COMPACT), "")])
  {
    Gemma4Printer.PrintsBare(n.children[1].children[0], t);
    FindsBoth(n.children, n.children[0].children[0]);
  }

  lemma FindsBoth(cs: seq<Ast>, leaf: Ast)
    requires |cs| == 2 && cs[0].tag.ToolOpen? && cs[0].children == [leaf] && cs[1].tag.ToolArgs?
    requires leaf.tag.ToolName? && leaf.children == []
    ensures FindByTag(cs, ToolName, FIND_DEPTH) == Some(leaf) && FindByTag(cs, ToolArgs, FIND_DEPTH) == Some(cs[1])
  {
    assert FindByTag([leaf], ToolName, FIND_DEPTH - 1) == Some(leaf);
    assert [leaf][1..] == [];
    assert FindByTag([leaf], ToolArgs, FIND_DEPTH - 1) == None;
    assert cs[1..][0] == cs[1];
    assert FindByTag(cs[1..], ToolArgs, FIND_DEPTH) == Some(cs[1]);
  }
}
