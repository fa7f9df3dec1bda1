/**
 Turning two successive parses of a growing reply into the deltas sent to a client
 (common/chat.cpp, `string_diff` and `compute_diffs`), and the client that folds them
 back together (tests/test-chat.cpp).
 */
module MessageDiff {
  import opened Sequences
  import opened Wrappers
  import opened ChatMessage

  datatype DiffError = TextMismatch | FewerCalls | NameMismatch

  /** `index` is None where the source leaves `npos`. */
  datatype Diff = Diff(reasoning: string, content: string, index: Option<nat>, call: ToolCall)

  const NO_CALL := ToolCall("", "", "")

  function ReasoningDiff(delta: string): Diff { Diff(delta, "", None, NO_CALL) }

  function ContentDiff(delta: string): Diff { Diff("", delta, None, NO_CALL) }

  function CallDiff(index: nat, call: ToolCall): Diff { Diff("", "", Some(index), call) }

  function StringDiff(last: string, current: string): Result<string, DiffError> {
    if last == "" then Success(current)
    else if !(last <= current) then
      if current <= last then Success("") else Failure(TextMismatch)
    else Success(current[|last|..])
  }

  // ----- the specification of compute_diffs -----

  function TextDiffs(last: string, current: string, wrap: string -> Diff): Result<seq<Diff>, DiffError> {
    if last == current then Success([])
    else
      var d := StringDiff(last, current);
      if d.Failure? then Failure(d.error) else Success([wrap(d.value)])
  }

  predicate NameChangeAllowed(before: string, after: string) {
    before == after || before == "" || after == "" || before <= after
  }

  function LastCallDiffs(index: nat, before: ToolCall, after: ToolCall): Result<seq<Diff>, DiffError> {
    if !NameChangeAllowed(before.name, after.name) then Failure(NameMismatch)
    else
      var args := StringDiff(before.arguments, after.arguments);
      if args.Failure? then Failure(args.error)
      else if before.id != after.id || before.name != after.name then
        Success([CallDiff(index, ToolCall(after.name, args.value, after.id))])
      else if args.value != "" then
        Success([CallDiff(index, ToolCall("", args.value, ""))])
      else Success([])
  }

  function NewCallDiffs(calls: seq<ToolCall>, lo: nat, hi: nat): (r: seq<Diff>)
    requires lo <= hi <= |calls|
    ensures |r| == hi - lo
    decreases hi
  {
    if lo == hi then [] else NewCallDiffs(calls, lo, hi - 1) + [CallDiff(hi - 1, calls[hi - 1])]
  }

  /** Everything `compute_diffs` emits or throws, in the order in which it looks. */
  function Diffs(prev: Message, next: Message): Result<seq<Diff>, DiffError> {
    var reasoning := TextDiffs(prev.reasoning, next.reasoning, ReasoningDiff);
    if reasoning.Failure? then reasoning else
    var content := TextDiffs(prev.content, next.content, ContentDiff);
    if content.Failure? then content else
    if |next.calls| < |prev.calls| then Failure(FewerCalls) else
    var n := |prev.calls|;
    var last := if n == 0 then Success([]) else LastCallDiffs(n - 1, prev.calls[n - 1], next.calls[n - 1]);
    if last.Failure? then last else
    Success(reasoning.value + content.value + last.value + NewCallDiffs(next.calls, n, |next.calls|))
  }

  method ComputeDiffs(prev: Message, next: Message) returns (r: Result<seq<Diff>, DiffError>)
    ensures r == Diffs(prev, next)
  {
    var diffs: seq<Diff> := [];
    if prev.reasoning != next.reasoning {
      var d := StringDiff(prev.reasoning, next.reasoning);
      if d.Failure? { return Failure(d.error); }
      diffs := diffs + [ReasoningDiff(d.value)];
    }
    if prev.content != next.content {
      var d := StringDiff(prev.content, next.content);
      if d.Failure? { return Failure(d.error); }
      diffs := diffs + [ContentDiff(d.value)];
    }
    if |next.calls| < |prev.calls| {
      return Failure(FewerCalls);
    }
    assert diffs == TextDiffs(prev.reasoning, next.reasoning, ReasoningDiff).value
                    + TextDiffs(prev.content, next.content, ContentDiff).value;
    if prev.calls != [] {
      var idx := |prev.calls| - 1;
      var last := DiffLastCall(idx, prev.calls[idx], next.calls[idx]);
      if last.Failure? { return Failure(last.error); }
      diffs := diffs + last.value;
    } else {
      assert diffs + [] == diffs;
    }
    diffs := AddNewCalls(diffs, next.calls, |prev.calls|);
    r := Success(diffs);
  }

  /** The call that may still have been arriving. */
  method DiffLastCall(idx: nat, pref: ToolCall, newf: ToolCall) returns (r: Result<seq<Diff>, DiffError>)
    ensures r == LastCallDiffs(idx, pref, newf)
  {
    if pref.name != newf.name && pref.name != "" && newf.name != "" {
      var isPrefix := pref.name <= newf.name;
      if !isPrefix { return Failure(NameMismatch); }
    }
    var args := StringDiff(pref.arguments, newf.arguments);
    if args.Failure? { return Failure(args.error); }
    if args.value != "" || pref.id != newf.id || pref.name != newf.name {
      var delta := NO_CALL;
      if pref.id != newf.id || pref.name != newf.name {
        delta := delta.(id := newf.id, name := newf.name);
      }
      return Success([CallDiff(idx, delta.(arguments := args.value))]);
    }
    r := Success([]);
  }

  method AddNewCalls(before: seq<Diff>, calls: seq<ToolCall>, from: nat) returns (diffs: seq<Diff>)
    requires from <= |calls|
    ensures diffs == before + NewCallDiffs(calls, from, |calls|)
  {
    diffs := before;
    for i := from to |calls|
      invariant diffs == before + NewCallDiffs(calls, from, i)
    {
      Associate(before, NewCallDiffs(calls, from, i), [CallDiff(i, calls[i])]);
      diffs := diffs + [CallDiff(i, calls[i])];
    }
  }

  // ----- the client -----

  function Fill(calls: seq<ToolCall>, index: nat): (r: seq<ToolCall>)
    ensures |r| > index && calls <= r
    ensures index < |calls| ==> r == calls
    ensures index == |calls| ==> r == calls + [NO_CALL]
    decreases index + 1 - |calls|
  {
    if |calls| <= index then Fill(calls + [NO_CALL], index) else calls
  }

  function MergeCall(held: ToolCall, delta: ToolCall): ToolCall {
    ToolCall(if delta.name != "" then delta.name else held.name,
             held.arguments + delta.arguments,
             if delta.id != "" then delta.id else held.id)
  }

  /** One delta, as the client reads it: texts are appended, a non-empty id or name replaces. */
  function ApplyDiff(m: Message, d: Diff): Message {
    var m := m.(reasoning := m.reasoning + d.reasoning, content := m.content + d.content);
    if d.index.None? then m
    else
      var calls := Fill(m.calls, d.index.value);
      m.(calls := calls[d.index.value := MergeCall(calls[d.index.value], d.call)])
  }

  function ApplyAll(m: Message, diffs: seq<Diff>): Message
    decreases |diffs|
  {
    if diffs == [] then m else ApplyAll(ApplyDiff(m, diffs[0]), diffs[1..])
  }

  lemma {:induction false} ApplyAllConcat(m: Message, a: seq<Diff>, b: seq<Diff>)
    ensures ApplyAll(m, a + b) == ApplyAll(ApplyAll(m, a), b)
    decreases |a|
  {
    if a == [] {
      assert a + b == b;
    } else {
      assert (a + b)[1..] == a[1..] + b;
      ApplyAllConcat(ApplyDiff(m, a[0]), a[1..], b);
    }
  }

  lemma ApplyOne(m: Message, d: Diff)
    ensures ApplyAll(m, [d]) == ApplyDiff(m, d)
  {
    assert [d][1..] == [];
  }

  lemma ApplyCallDiff(m: Message, index: nat, call: ToolCall)
    requires index <= |m.calls|
    ensures index < |m.calls| ==>
              ApplyDiff(m, CallDiff(index, call)) == m.(calls := m.calls[index := MergeCall(m.calls[index], call)])
    ensures index == |m.calls| ==> ApplyDiff(m, CallDiff(index, call)) == m.(calls := m.calls + [call])
  {
    assert m.reasoning + "" == m.reasoning && m.content + "" == m.content;
    if index == |m.calls| {
      assert "" + call.arguments == call.arguments;
      assert (m.calls + [NO_CALL])[index := call] == m.calls + [call];
    }
  }

  // ----- what the deltas are worth -----

  predicate Comparable(a: string, b: string) { a <= b || b <= a }

  function Longer(a: string, b: string): string { if a <= b then b else a }

  /** The exact condition under which `compute_diffs` throws, readable off the two messages. */
  predicate Throws(prev: Message, next: Message) {
    || !Comparable(prev.reasoning, next.reasoning)
    || !Comparable(prev.content, next.content)
    || |next.calls| < |prev.calls|
    || (prev.calls != [] &&
        var before, after := prev.calls[|prev.calls| - 1], next.calls[|prev.calls| - 1];
        || (before.name != "" && after.name != "" && !(before.name <= after.name))
        || !Comparable(before.arguments, after.arguments))
  }

  lemma ThrowsExactly(prev: Message, next: Message)
    ensures Diffs(prev, next).Failure? <==> Throws(prev, next)
  {
  }

  /** Which exception: the first thing that does not fit, texts before calls and a name before its arguments. */
  lemma ThrowsWhich(prev: Message, next: Message)
    requires Throws(prev, next)
    ensures Diffs(prev, next)
            == if !Comparable(prev.reasoning, next.reasoning) || !Comparable(prev.content, next.content)
               then Failure(TextMismatch)
               else if |next.calls| < |prev.calls| then Failure(FewerCalls)
               else
                 var before, after := prev.calls[|prev.calls| - 1], next.calls[|prev.calls| - 1];
                 if before.name != "" && after.name != "" && !(before.name <= after.name) then Failure(NameMismatch)
                 else Failure(TextMismatch)
  {
  }

  // ----- what each delta says -----

  /** `d` is what `a` lacks to be `b`; nothing, if it is the longer one. */
  predicate Lacks(a: string, b: string, d: string) { a + d == b || (d == "" && b <= a) }

  /** Something about the last old call has to be sent. */
  predicate LastChanged(prev: Message, next: Message) {
    0 < |prev.calls| <= |next.calls|
    && var before, after := prev.calls[|prev.calls| - 1], next.calls[|prev.calls| - 1];
       before.name != after.name || before.id != after.id || !(after.arguments <= before.arguments)
  }

  /** The delta of the call that may still have been arriving: name and id, or neither, and what its arguments lack. */
  predicate LastDelta(before: ToolCall, after: ToolCall, d: ToolCall) {
    && (if before.name != after.name || before.id != after.id then d.name == after.name && d.id == after.id
        else d.name == "" && d.id == "")
    && Lacks(before.arguments, after.arguments, d.arguments)
  }

  /** A delta of a text says what the old one lacks; it is empty only if the text shrank. */
  predicate SaysText(last: string, current: string, d: string) {
    Lacks(last, current, d) && (d == "" <==> current < last)
  }

  predicate ReasoningPart(prev: Message, next: Message, ds: seq<Diff>) {
    if prev.reasoning == next.reasoning then ds == []
    else |ds| == 1 && ds[0] == Diff(ds[0].reasoning, "", None, ToolCall("", "", ""))
         && SaysText(prev.reasoning, next.reasoning, ds[0].reasoning)
  }

  predicate ContentPart(prev: Message, next: Message, ds: seq<Diff>) {
    if prev.content == next.content then ds == []
    else |ds| == 1 && ds[0] == Diff("", ds[0].content, None, ToolCall("", "", ""))
         && SaysText(prev.content, next.content, ds[0].content)
  }

  predicate LastPart(prev: Message, next: Message, ds: seq<Diff>) {
    if !LastChanged(prev, next) then ds == []
    else
      var i := |prev.calls| - 1;
      |ds| == 1 && ds[0] == Diff("", "", Some(i), ds[0].call) && LastDelta(prev.calls[i], next.calls[i], ds[0].call)
  }

  predicate NewPart(calls: seq<ToolCall>, n: nat, ds: seq<Diff>) {
    && |calls| == n + |ds|
    && forall i :: 0 <= i < |ds| ==> ds[i] == Diff("", "", Some(n + i), calls[n + i])
  }

  lemma TextLacks(last: string, current: string)
    requires Comparable(last, current) && last != current
    ensures StringDiff(last, current).Success? && SaysText(last, current, StringDiff(last, current).value)
  {
    if last <= current { assert last + current[|last|..] == current; }
  }

  lemma TextParts(prev: Message, next: Message)
    requires !Throws(prev, next)
    ensures TextDiffs(prev.reasoning, next.reasoning, ReasoningDiff).Success?
    ensures TextDiffs(prev.content, next.content, ContentDiff).Success?
    ensures ReasoningPart(prev, next, TextDiffs(prev.reasoning, next.reasoning, ReasoningDiff).value)
    ensures ContentPart(prev, next, TextDiffs(prev.content, next.content, ContentDiff).value)
  {
    if prev.reasoning != next.reasoning { TextLacks(prev.reasoning, next.reasoning); }
    if prev.content != next.content { TextLacks(prev.content, next.content); }
  }

  lemma LastDeltaExactly(prev: Message, next: Message)
    requires 0 < |prev.calls| <= |next.calls|
    requires LastCallDiffs(|prev.calls| - 1, prev.calls[|prev.calls| - 1], next.calls[|prev.calls| - 1]).Success?
    ensures LastPart(prev, next,
                     LastCallDiffs(|prev.calls| - 1, prev.calls[|prev.calls| - 1], next.calls[|prev.calls| - 1]).value)
  {
    var before, after := prev.calls[|prev.calls| - 1], next.calls[|prev.calls| - 1];
    if before.arguments <= after.arguments {
      assert before.arguments + after.arguments[|before.arguments|..] == after.arguments;
    }
  }

  lemma {:induction false} NewCallsExactly(calls: seq<ToolCall>, lo: nat, hi: nat)
    requires lo <= hi <= |calls|
    ensures forall i :: 0 <= i < hi - lo ==> NewCallDiffs(calls, lo, hi)[i] == Diff("", "", Some(lo + i), calls[lo + i])
    decreases hi
  {
    if lo < hi { NewCallsExactly(calls, lo, hi - 1); }
  }

  /** First what the two texts lack; then the last old call, if it changed; then every new call, whole. */
  predicate SaysInOrder(prev: Message, next: Message, ds: seq<Diff>) {
    var a := if prev.reasoning == next.reasoning then 0 else 1;
    var b := a + if prev.content == next.content then 0 else 1;
    var c := b + if LastChanged(prev, next) then 1 else 0;
    && c <= |ds|
    && ReasoningPart(prev, next, ds[..a]) && ContentPart(prev, next, ds[a..b])
    && LastPart(prev, next, ds[b..c]) && NewPart(next.calls, |prev.calls|, ds[c..])
  }

  lemma Assembled(prev: Message, next: Message, r: seq<Diff>, c: seq<Diff>, l: seq<Diff>, n: seq<Diff>)
    requires ReasoningPart(prev, next, r) && ContentPart(prev, next, c) && LastPart(prev, next, l)
    requires NewPart(next.calls, |prev.calls|, n)
    ensures SaysInOrder(prev, next, (r + c) + (l + n))
  {
    var ds := (r + c) + (l + n);
    assert ds[..|r|] == r && ds[|r|..|r| + |c|] == c;
    assert ds[|r| + |c|..|r| + |c| + |l|] == l && ds[|r| + |c| + |l|..] == n;
  }

  /** The deltas, one by one. */
  lemma DeltasExactly(prev: Message, next: Message)
    requires !Throws(prev, next)
    ensures Diffs(prev, next).Success? && SaysInOrder(prev, next, Diffs(prev, next).value)
  {
    ThrowsExactly(prev, next);
    DiffsShape(prev, next);
    var n := |prev.calls|;
    TextParts(prev, next);
    NewCallsExactly(next.calls, n, |next.calls|);
    var last := if n == 0 then [] else LastCallDiffs(n - 1, prev.calls[n - 1], next.calls[n - 1]).value;
    assert LastPart(prev, next, last) by { if n > 0 { LastDeltaExactly(prev, next); } }
    Assembled(prev, next, TextDiffs(prev.reasoning, next.reasoning, ReasoningDiff).value,
              TextDiffs(prev.content, next.content, ContentDiff).value, last,
              NewCallDiffs(next.calls, n, |next.calls|));
  }

  /** Nothing changed, nothing is sent. */
  lemma NothingToSay(m: Message)
    ensures Diffs(m, m) == Success([])
  {
    DeltasExactly(m, m);
  }

  /** What the client holds afterwards: the longer texts, earlier calls untouched, later calls new. */
  function Merged(prev: Message, next: Message): Message
    requires |prev.calls| <= |next.calls|
  {
    Message(Longer(prev.reasoning, next.reasoning),
            Longer(prev.content, next.content),
            MergedCalls(prev.calls, next.calls))
  }

  function MergedCalls(before: seq<ToolCall>, after: seq<ToolCall>): seq<ToolCall>
    requires |before| <= |after|
  {
    var n := |before|;
    if n == 0 then after
    else before[..n - 1] + [MergedCall(before[n - 1], after[n - 1])] + after[n..]
  }

  function MergedCall(before: ToolCall, after: ToolCall): ToolCall {
    ToolCall(if after.name != "" then after.name else before.name,
             Longer(before.arguments, after.arguments),
             if after.id != "" then after.id else before.id)
  }

  lemma {:induction false} ApplyNewCalls(m: Message, calls: seq<ToolCall>, hi: nat)
    requires |m.calls| <= hi <= |calls|
    ensures ApplyAll(m, NewCallDiffs(calls, |m.calls|, hi)) == m.(calls := m.calls + calls[|m.calls|..hi])
    decreases hi
  {
    if hi == |m.calls| {
      assert m.calls + calls[hi..hi] == m.calls;
    } else {
      ApplyNewCalls(m, calls, hi - 1);
      var ds := NewCallDiffs(calls, |m.calls|, hi - 1);
      var last := CallDiff(hi - 1, calls[hi - 1]);
      ApplyAllConcat(m, ds, [last]);
      var mid := m.(calls := m.calls + calls[|m.calls|..hi - 1]);
      ApplyOne(mid, last);
      ApplyCallDiff(mid, hi - 1, calls[hi - 1]);
      assert calls[|m.calls|..hi] == calls[|m.calls|..hi - 1] + [calls[hi - 1]];
      Associate(m.calls, calls[|m.calls|..hi - 1], [calls[hi - 1]]);
    }
  }

  lemma ApplyText(m: Message, prev: Message, next: Message)
    requires m.reasoning == prev.reasoning && m.content == prev.content
    requires TextDiffs(prev.reasoning, next.reasoning, ReasoningDiff).Success?
    requires TextDiffs(prev.content, next.content, ContentDiff).Success?
    ensures ApplyAll(m, TextDiffs(prev.reasoning, next.reasoning, ReasoningDiff).value
                        + TextDiffs(prev.content, next.content, ContentDiff).value)
            == m.(reasoning := Longer(prev.reasoning, next.reasoning), content := Longer(prev.content, next.content))
  {
    var r := TextDiffs(prev.reasoning, next.reasoning, ReasoningDiff).value;
    var c := TextDiffs(prev.content, next.content, ContentDiff).value;
    ApplyAllConcat(m, r, c);
    var m' := m.(reasoning := Longer(prev.reasoning, next.reasoning));
    assert ApplyAll(m, r) == m' by {
      if r != [] {
        ApplyOne(m, r[0]);
        assert m.content + "" == m.content;
      }
    }
    if c != [] {
      ApplyOne(m', c[0]);
      assert m'.reasoning + "" == m'.reasoning;
    }
  }

  lemma LastCallDelta(index: nat, before: ToolCall, after: ToolCall)
    requires LastCallDiffs(index, before, after).Success?
    ensures var ds := LastCallDiffs(index, before, after).value;
            (ds == [] && MergedCall(before, after) == before)
            || (exists d :: ds == [CallDiff(index, d)] && MergeCall(before, d) == MergedCall(before, after))
  {
    var args := StringDiff(before.arguments, after.arguments).value;
    assert before.arguments + args == Longer(before.arguments, after.arguments);
    if before.id != after.id || before.name != after.name {
      assert MergeCall(before, ToolCall(after.name, args, after.id)) == MergedCall(before, after);
    } else if args != "" {
      assert MergeCall(before, ToolCall("", args, "")) == MergedCall(before, after);
    }
  }

  lemma ApplyLastCall(m: Message, after: ToolCall)
    requires m.calls != []
    requires LastCallDiffs(|m.calls| - 1, m.calls[|m.calls| - 1], after).Success?
    ensures ApplyAll(m, LastCallDiffs(|m.calls| - 1, m.calls[|m.calls| - 1], after).value)
            == m.(calls := m.calls[|m.calls| - 1 := MergedCall(m.calls[|m.calls| - 1], after)])
  {
    var i := |m.calls| - 1;
    var before := m.calls[i];
    LastCallDelta(i, before, after);
    var ds := LastCallDiffs(i, before, after).value;
    if ds == [] {
      assert m.calls[i := before] == m.calls;
    } else {
      var d :| ds == [CallDiff(i, d)] && MergeCall(before, d) == MergedCall(before, after);
      ApplyOne(m, CallDiff(i, d));
      ApplyCallDiff(m, i, d);
    }
  }

  /** The call part: the last old call is merged, the rest appended. */
  lemma ApplyCalls(m: Message, calls: seq<ToolCall>)
    requires |m.calls| <= |calls|
    requires m.calls != [] ==> LastCallDiffs(|m.calls| - 1, m.calls[|m.calls| - 1], calls[|m.calls| - 1]).Success?
    ensures var n := |m.calls|;
            var last := if n == 0 then [] else LastCallDiffs(n - 1, m.calls[n - 1], calls[n - 1]).value;
            ApplyAll(m, last + NewCallDiffs(calls, n, |calls|)) == m.(calls := MergedCalls(m.calls, calls))
  {
    var n := |m.calls|;
    var last := if n == 0 then [] else LastCallDiffs(n - 1, m.calls[n - 1], calls[n - 1]).value;
    var added := NewCallDiffs(calls, n, |calls|);
    ApplyAllConcat(m, last, added);
    if n > 0 {
      ApplyLastCall(m, calls[n - 1]);
      MergedIs(m.calls, calls);
      ApplyNewCalls(m.(calls := m.calls[n - 1 := MergedCall(m.calls[n - 1], calls[n - 1])]), calls, |calls|);
    } else {
      ApplyNewCalls(m, calls, |calls|);
      assert m.calls + calls[0..|calls|] == calls;
    }
  }

  lemma MergedIs(before: seq<ToolCall>, after: seq<ToolCall>)
    requires 0 < |before| <= |after|
    ensures var n := |before|;
            MergedCalls(before, after)
            == before[n - 1 := MergedCall(before[n - 1], after[n - 1])] + after[n..|after|]
  {
  }

  lemma DiffsShape(prev: Message, next: Message)
    requires Diffs(prev, next).Success?
    ensures |prev.calls| <= |next.calls|
    ensures TextDiffs(prev.reasoning, next.reasoning, ReasoningDiff).Success?
    ensures TextDiffs(prev.content, next.content, ContentDiff).Success?
    ensures var n := |prev.calls|;
            && (n > 0 ==> LastCallDiffs(n - 1, prev.calls[n - 1], next.calls[n - 1]).Success?)
            && Diffs(prev, next).value ==
               (TextDiffs(prev.reasoning, next.reasoning, ReasoningDiff).value
                + TextDiffs(prev.content, next.content, ContentDiff).value)
               + ((if n == 0 then [] else LastCallDiffs(n - 1, prev.calls[n - 1], next.calls[n - 1]).value)
                  + NewCallDiffs(next.calls, n, |next.calls|))
  {
  }

  /** Folding the deltas never loses or invents anything, and there are few of them. */
  lemma DiffsExact(prev: Message, next: Message)
    requires !Throws(prev, next)
    ensures Diffs(prev, next).Success?
    ensures ApplyAll(prev, Diffs(prev, next).value) == Merged(prev, next)
    ensures |Diffs(prev, next).value| <= |next.calls| - |prev.calls| + 3
  {
    ThrowsExactly(prev, next);
    DiffsShape(prev, next);
    var n := |prev.calls|;
    var texts := TextDiffs(prev.reasoning, next.reasoning, ReasoningDiff).value
                 + TextDiffs(prev.content, next.content, ContentDiff).value;
    var last := if n == 0 then [] else LastCallDiffs(n - 1, prev.calls[n - 1], next.calls[n - 1]).value;
    ApplyText(prev, prev, next);
    ApplyAllConcat(prev, texts, last + NewCallDiffs(next.calls, n, |next.calls|));
    ApplyCalls(ApplyAll(prev, texts), next.calls);
  }

  /** A message that only grew: what a streamed parse must deliver for the deltas to be faithful. */
  predicate Extends(m: Message, m': Message) {
    && m.reasoning <= m'.reasoning
    && m.content <= m'.content
    && |m.calls| <= |m'.calls|
    && (m.calls != [] ==>
          var n := |m.calls|;
          && m.calls[..n - 1] == m'.calls[..n - 1]
          && CallExtends(m.calls[n - 1], m'.calls[n - 1]))
  }

  predicate CallExtends(c: ToolCall, c': ToolCall) {
    && (c.name == "" || (c'.name != "" && c.name <= c'.name))
    && c.arguments <= c'.arguments
    && (c.id == "" || c'.id != "")
  }

  lemma ExtendsTransitive(a: Message, b: Message, c: Message)
    requires Extends(a, b) && Extends(b, c)
    ensures Extends(a, c)
  {
    if a.calls != [] {
      var n := |a.calls|;
      if n < |b.calls| {
        assert a.calls[..n - 1] == c.calls[..n - 1] by {
          assert forall i :: 0 <= i < n - 1 ==> a.calls[i] == b.calls[..n - 1][i] == b.calls[..|b.calls| - 1][i];
          assert forall i :: 0 <= i < n - 1 ==> b.calls[i] == c.calls[..|b.calls| - 1][i];
        }
        assert b.calls[n - 1] == b.calls[..|b.calls| - 1][n - 1] == c.calls[..|b.calls| - 1][n - 1];
      }
    }
  }

  /** Between a message and one that only grew, the deltas reconstruct the grown message exactly. */
  lemma ExtensionReconstructs(prev: Message, next: Message)
    requires Extends(prev, next)
    ensures Diffs(prev, next).Success?
    ensures ApplyAll(prev, Diffs(prev, next).value) == next
  {
    DiffsExact(prev, next);
    if prev.calls != [] { ExtendedCalls(prev.calls, next.calls); }
  }

  /** It says something, or it is about a new call. */
  predicate Says(n: nat, d: Diff) {
    d.reasoning != "" || d.content != "" || (d.index.Some? && (d.index.value >= n || d.call != ToolCall("", "", "")))
  }

  lemma PartsSay(prev: Message, next: Message, ds: seq<Diff>, i: nat)
    requires Extends(prev, next) && i < |ds|
    requires ReasoningPart(prev, next, ds) || ContentPart(prev, next, ds) || LastPart(prev, next, ds)
             || NewPart(next.calls, |prev.calls|, ds)
    ensures Says(|prev.calls|, ds[i])
  {
  }

  /** Between a message and one that only grew, no delta is empty, but for a new call that is empty itself. */
  lemma NoEmptyDelta(prev: Message, next: Message, i: nat)
    requires Extends(prev, next) && Diffs(prev, next).Success? && i < |Diffs(prev, next).value|
    ensures Says(|prev.calls|, Diffs(prev, next).value[i])
  {
    DeltasExactly(prev, next);
    PartsInOrderSay(prev, next, Diffs(prev, next).value, i);
  }

  lemma PartsInOrderSay(prev: Message, next: Message, ds: seq<Diff>, i: nat)
    requires Extends(prev, next) && SaysInOrder(prev, next, ds) && i < |ds|
    ensures Says(|prev.calls|, ds[i])
  {
    var a := if prev.reasoning == next.reasoning then 0 else 1;
    var b := a + if prev.content == next.content then 0 else 1;
    var c := b + if LastChanged(prev, next) then 1 else 0;
    if i < a {
      PartsSay(prev, next, ds[..a], i);
    } else if i < b {
      PartsSay(prev, next, ds[a..b], i - a);
    } else if i < c {
      PartsSay(prev, next, ds[b..c], i - b);
    } else {
      PartsSay(prev, next, ds[c..], i - c);
    }
  }

  lemma ExtendedCalls(before: seq<ToolCall>, after: seq<ToolCall>)
    requires 0 < |before| <= |after| && before[..|before| - 1] == after[..|before| - 1]
    requires CallExtends(before[|before| - 1], after[|before| - 1])
    ensures MergedCalls(before, after) == after
  {
    var n := |before|;
    assert MergedCall(before[n - 1], after[n - 1]) == after[n - 1];
    assert after == after[..n - 1] + [after[n - 1]] + after[n..];
  }
}
