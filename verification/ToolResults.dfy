/**
 `deepseek_v4_sort_tool_results` (common/chat.cpp): within every run of user and tool messages, the
 tool results are put in the order of the calls they answer.
 */
module ToolResults {
  import opened Sequences

  /** `callIds` lists the ids of an assistant's tool calls, "" for a call without one. */
  datatype Message = Message(role: string, callIds: seq<string>, toolCallId: string, body: string)

  predicate IsTool(m: Message) { m.role == "tool" }

  predicate InBlock(m: Message) { m.role == "user" || m.role == "tool" }

  predicate CallsTools(m: Message) { m.role == "assistant" && m.callIds != [] }

  type Order = map<string, nat>

  /** The order given by the first `n` calls; an id used twice keeps its last place. */
  function OrderOf(ids: seq<string>, n: nat): Order
    requires n <= |ids|
  {
    if n == 0 then map[]
    else if ids[n - 1] != "" then OrderOf(ids, n - 1)[ids[n - 1] := n - 1]
    else OrderOf(ids, n - 1)
  }

  function Key(order: Order, m: Message): nat {
    if m.toolCallId in order then order[m.toolCallId] else 0
  }

  /** A result's key is the last place of its call; results of unknown calls come with the first one's. */
  lemma {:induction false} KeyIsLastPlace(ids: seq<string>, n: nat, m: Message, k: nat)
    requires n <= |ids| && k < n && m.toolCallId != "" && ids[k] == m.toolCallId
    requires forall j :: k < j < n ==> ids[j] != m.toolCallId
    ensures m.toolCallId in OrderOf(ids, n) && Key(OrderOf(ids, n), m) == k
  {
    if k < n - 1 { KeyIsLastPlace(ids, n - 1, m, k); }
  }

  lemma {:induction false} UnknownKey(ids: seq<string>, n: nat, m: Message)
    requires n <= |ids| && (m.toolCallId == "" || m.toolCallId !in ids[..n])
    ensures m.toolCallId !in OrderOf(ids, n) && Key(OrderOf(ids, n), m) == 0
  {
    if n > 0 {
      assert ids[..n] == ids[..n - 1] + [ids[n - 1]];
      UnknownKey(ids, n - 1, m);
    }
  }

  // ----- stable sorting -----

  function Insert(order: Order, m: Message, sorted: seq<Message>): (r: seq<Message>)
    ensures |r| == |sorted| + 1
  {
    if sorted == [] || Key(order, m) <= Key(order, sorted[0]) then [m] + sorted
    else [sorted[0]] + Insert(order, m, sorted[1..])
  }

  /** The result of `std::stable_sort` with the keys of `order`. */
  function StableSort(order: Order, s: seq<Message>): (r: seq<Message>)
    ensures |r| == |s|
  {
    if s == [] then [] else Insert(order, s[0], StableSort(order, s[1..]))
  }

  predicate Sorted(order: Order, s: seq<Message>) {
    s == [] || (Sorted(order, s[1..]) && (|s| > 1 ==> Key(order, s[0]) <= Key(order, s[1])))
  }

  /** The messages with key `k`, in their order. */
  function WithKey(order: Order, s: seq<Message>, k: nat): seq<Message> {
    if s == [] then []
    else (if Key(order, s[0]) == k then [s[0]] else []) + WithKey(order, s[1..], k)
  }

  predicate SameClasses(order: Order, a: seq<Message>, b: seq<Message>, k: nat) {
    WithKey(order, a, k) == WithKey(order, b, k)
  }

  lemma {:induction false} InsertKeeps(order: Order, m: Message, s: seq<Message>)
    requires Sorted(order, s)
    ensures Sorted(order, Insert(order, m, s))
    ensures multiset(Insert(order, m, s)) == multiset([m] + s)
  {
    if s != [] && Key(order, m) > Key(order, s[0]) {
      InsertKeeps(order, m, s[1..]);
      assert s == [s[0]] + s[1..];
    }
  }

  lemma {:induction false} InsertClass(order: Order, m: Message, s: seq<Message>, k: nat)
    ensures WithKey(order, Insert(order, m, s), k) == WithKey(order, [m] + s, k)
  {
    assert ([m] + s)[1..] == s;
    if s != [] && Key(order, m) > Key(order, s[0]) {
      InsertClass(order, m, s[1..], k);
      assert ([m] + s[1..])[1..] == s[1..];
      assert Insert(order, m, s)[1..] == Insert(order, m, s[1..]);
    }
  }

  lemma {:induction false} StableSortKeeps(order: Order, s: seq<Message>)
    ensures Sorted(order, StableSort(order, s)) && multiset(StableSort(order, s)) == multiset(s)
  {
    if s != [] {
      StableSortKeeps(order, s[1..]);
      InsertKeeps(order, s[0], StableSort(order, s[1..]));
      assert s == [s[0]] + s[1..];
    }
  }

  lemma {:induction false} StableSortClass(order: Order, s: seq<Message>, k: nat)
    ensures SameClasses(order, StableSort(order, s), s, k)
  {
    if s != [] {
      var rest := StableSort(order, s[1..]);
      StableSortClass(order, s[1..], k);
      InsertClass(order, s[0], rest, k);
      assert ([s[0]] + rest)[1..] == rest;
    }
  }

  lemma {:induction false} SortedFromFirst(order: Order, s: seq<Message>, k: nat)
    requires Sorted(order, s) && s != [] && k < Key(order, s[0])
    ensures WithKey(order, s, k) == []
    decreases |s|
  {
    if |s| > 1 { SortedFromFirst(order, s[1..], k); }
  }

  lemma {:induction false} SortedIsUnique(order: Order, a: seq<Message>, b: seq<Message>)
    requires Sorted(order, a) && Sorted(order, b) && forall k :: SameClasses(order, a, b, k)
    ensures a == b
    decreases |a|
  {
    if a == [] || b == [] {
      NoClasses(order, a, b);
    } else {
      SameFirst(order, a, b);
      forall k ensures SameClasses(order, a[1..], b[1..], k) {
        assert SameClasses(order, a, b, k);
        TailClasses(order, a, b, k);
      }
      SortedIsUnique(order, a[1..], b[1..]);
      assert a == [a[0]] + a[1..] && b == [b[0]] + b[1..];
    }
  }

  lemma TailClasses(order: Order, a: seq<Message>, b: seq<Message>, k: nat)
    requires a != [] && b != [] && a[0] == b[0] && SameClasses(order, a, b, k)
    ensures SameClasses(order, a[1..], b[1..], k)
  {
    var x, y := WithKey(order, a[1..], k), WithKey(order, b[1..], k);
    if Key(order, a[0]) == k {
      assert x == ([a[0]] + x)[1..] && y == ([b[0]] + y)[1..];
    } else {
      assert x == [] + x && y == [] + y;
    }
  }

  lemma NoClasses(order: Order, a: seq<Message>, b: seq<Message>)
    requires (a == [] || b == []) && forall k :: SameClasses(order, a, b, k)
    ensures a == b
  {
    var k := if a != [] then Key(order, a[0]) else if b != [] then Key(order, b[0]) else 0;
    assert SameClasses(order, a, b, k);
  }

  lemma SameFirst(order: Order, a: seq<Message>, b: seq<Message>)
    requires Sorted(order, a) && Sorted(order, b) && a != [] && b != [] && forall k :: SameClasses(order, a, b, k)
    ensures a[0] == b[0]
  {
    var i, j := Key(order, a[0]), Key(order, b[0]);
    assert SameClasses(order, a, b, i) && SameClasses(order, a, b, j);
    assert WithKey(order, a, i)[0] == a[0] && WithKey(order, b, j)[0] == b[0];
    if i < j { SortedFromFirst(order, b, i); }
    if j < i { SortedFromFirst(order, a, j); }
  }

  /** A sorted rearrangement that leaves equal keys in place is the stable sort, and the only one. */
  lemma StableSortExactly(order: Order, s: seq<Message>, r: seq<Message>)
    ensures r == StableSort(order, s) <==> Sorted(order, r) && forall k :: SameClasses(order, r, s, k)
  {
    StableSortKeeps(order, s);
    forall k ensures SameClasses(order, StableSort(order, s), s, k) { StableSortClass(order, s, k); }
    if Sorted(order, r) && forall k :: SameClasses(order, r, s, k) {
      forall k ensures SameClasses(order, r, StableSort(order, s), k) {
        assert SameClasses(order, r, s, k);
        StableSortClass(order, s, k);
      }
      SortedIsUnique(order, r, StableSort(order, s));
    }
  }

  lemma SortedStays(order: Order, s: seq<Message>)
    requires Sorted(order, s)
    ensures StableSort(order, s) == s
  {
    forall k ensures SameClasses(order, s, s, k) {}
    StableSortExactly(order, s, s);
  }

  // ----- one run -----

  /** How many tool messages stand before position `x`. */
  function Rank(run: seq<Message>, x: nat): (n: nat)
    requires x <= |run|
    ensures n <= x
  {
    if x == 0 then 0 else Rank(run, x - 1) + (if IsTool(run[x - 1]) then 1 else 0)
  }

  lemma {:induction false} RankRises(run: seq<Message>, x: nat, y: nat)
    requires x <= y <= |run|
    ensures Rank(run, x) <= Rank(run, y)
    ensures x < y && IsTool(run[x]) ==> Rank(run, x) < Rank(run, y)
    decreases y
  {
    if x < y { RankRises(run, x, y - 1); }
  }

  /** The tool messages of a run, or, with `tools` false, the others. */
  function Only(tools: bool, run: seq<Message>): seq<Message> {
    if run == [] then []
    else
      var last := run[|run| - 1];
      Only(tools, run[..|run| - 1]) + (if IsTool(last) == tools then [last] else [])
  }

  lemma {:induction false} OnlyTools(run: seq<Message>)
    ensures |Only(true, run)| == Rank(run, |run|)
    ensures forall k :: 0 <= k < |Only(true, run)| ==> IsTool(Only(true, run)[k])
  {
    if run != [] {
      var n := |run| - 1;
      OnlyTools(run[..n]);
      RankOfPrefix(run, n, n);
    }
  }

  lemma {:induction false} RankOfPrefix(run: seq<Message>, n: nat, x: nat)
    requires x <= n <= |run|
    ensures Rank(run[..n], x) == Rank(run, x)
    decreases x
  {
    if x > 0 { RankOfPrefix(run, n, x - 1); }
  }

  predicate Fits(run: seq<Message>, results: seq<Message>) {
    |results| == Rank(run, |run|) && forall k :: 0 <= k < |results| ==> IsTool(results[k])
  }

  function Placed(run: seq<Message>, results: seq<Message>, x: nat): Message
    requires x < |run|
  {
    if IsTool(run[x]) && Rank(run, x) < |results| then results[Rank(run, x)] else run[x]
  }

  /** The run with its tool messages replaced, in order, by `results`. */
  function Refilled(run: seq<Message>, results: seq<Message>): seq<Message> {
    seq(|run|, x requires 0 <= x < |run| => Placed(run, results, x))
  }

  lemma PlacedInPrefix(run: seq<Message>, results: seq<Message>, n: nat, x: nat)
    requires x < n <= |run| && Rank(run, n) <= |results|
    ensures Placed(run, results, x) == Placed(run[..n], results[..Rank(run, n)], x)
  {
    RankOfPrefix(run, n, x);
    RankRises(run, x, n);
  }

  lemma LastRank(run: seq<Message>, n: nat)
    requires |run| == n + 1
    ensures Rank(run, |run|) == Rank(run, n) + (if IsTool(run[n]) then 1 else 0)
    ensures Rank(run[..n], |run[..n]|) == Rank(run, n)
  {
    RankOfPrefix(run, n, n);
  }

  lemma PlacedLast(run: seq<Message>, results: seq<Message>, n: nat, m: nat)
    requires Fits(run, results) && |run| == n + 1 && m == Rank(run, n)
    ensures m <= |results| && Fits(run[..n], results[..m])
    ensures IsTool(Placed(run, results, n)) == IsTool(run[n])
    ensures results == results[..m] + (if IsTool(run[n]) then [Placed(run, results, n)] else [])
    ensures !IsTool(run[n]) ==> Placed(run, results, n) == run[n]
  {
    LastRank(run, n);
  }

  lemma RefilledSnoc(run: seq<Message>, results: seq<Message>, n: nat, m: nat)
    requires |run| == n + 1 && m == Rank(run, n) <= |results|
    ensures Refilled(run, results) == Refilled(run[..n], results[..m]) + [Placed(run, results, n)]
  {
    var a, b := Refilled(run, results), Refilled(run[..n], results[..m]);
    forall x | 0 <= x < n ensures a[x] == b[x] {
      PlacedInPrefix(run, results, n, x);
    }
    SameUpToLast(a, b, n);
  }

  lemma SameUpToLast(a: seq<Message>, b: seq<Message>, n: nat)
    requires |a| == n + 1 && |b| == n && forall x :: 0 <= x < n ==> a[x] == b[x]
    ensures a == b + [a[n]]
  {
  }

  lemma OnlySnoc(tools: bool, run: seq<Message>, m: Message)
    ensures Only(tools, run + [m]) == Only(tools, run) + (if IsTool(m) == tools then [m] else [])
  {
    assert (run + [m])[..|run|] == run;
  }

  /** Refilling changes the tool messages, in place, and nothing else. */
  lemma {:induction false} RefilledParts(run: seq<Message>, results: seq<Message>)
    requires Fits(run, results)
    ensures Only(true, Refilled(run, results)) == results
    ensures Only(false, Refilled(run, results)) == Only(false, run)
    decreases |run|
  {
    if run != [] {
      var n, m := |run| - 1, Rank(run, |run| - 1);
      PlacedLast(run, results, n, m);
      RefilledSnoc(run, results, n, m);
      RefilledParts(run[..n], results[..m]);
      OnlySnoc(true, Refilled(run[..n], results[..m]), Placed(run, results, n));
      OnlySnoc(false, Refilled(run[..n], results[..m]), Placed(run, results, n));
    }
  }

  lemma {:induction false} PartsMake(run: seq<Message>)
    ensures multiset(run) == multiset(Only(true, run)) + multiset(Only(false, run))
    decreases |run|
  {
    if run != [] {
      PartsMake(run[..|run| - 1]);
      assert run == run[..|run| - 1] + [run[|run| - 1]];
    }
  }

  lemma {:induction false} RefilledWithOwn(run: seq<Message>)
    ensures Refilled(run, Only(true, run)) == run
    decreases |run|
  {
    OnlyTools(run);
    if run != [] {
      var n := |run| - 1;
      RefilledWithOwn(run[..n]);
      OnlyTools(run[..n]);
      PlacedLast(run, Only(true, run), n, Rank(run, n));
      RefilledSnoc(run, Only(true, run), n, Rank(run, n));
      assert Only(true, run)[..Rank(run, n)] == Only(true, run[..n]);
    }
  }

  function SortRun(order: Order, run: seq<Message>): seq<Message> {
    Refilled(run, StableSort(order, Only(true, run)))
  }

  lemma SortFits(order: Order, run: seq<Message>)
    ensures Fits(run, StableSort(order, Only(true, run)))
  {
    OnlyTools(run);
    var tools, sorted := Only(true, run), StableSort(order, Only(true, run));
    StableSortKeeps(order, tools);
    forall k | 0 <= k < |sorted| ensures IsTool(sorted[k]) {
      assert sorted[k] in multiset(tools);
    }
  }

  lemma RefilledInPlace(run: seq<Message>, results: seq<Message>)
    requires Fits(run, results)
    ensures |Refilled(run, results)| == |run|
    ensures forall x :: 0 <= x < |run| ==> IsTool(Refilled(run, results)[x]) == IsTool(run[x])
    ensures forall x :: 0 <= x < |run| && !IsTool(run[x]) ==> Refilled(run, results)[x] == run[x]
  {
    forall x | 0 <= x < |run| ensures IsTool(Placed(run, results, x)) == IsTool(run[x]) {
      RankRises(run, x, |run|);
    }
  }

  lemma RefilledPermutes(run: seq<Message>, results: seq<Message>)
    requires Fits(run, results) && multiset(results) == multiset(Only(true, run))
    ensures multiset(Refilled(run, results)) == multiset(run)
  {
    RefilledParts(run, results);
    PartsMake(run);
    PartsMake(Refilled(run, results));
  }

  /** One run: a permutation, the other messages where they were, the tool messages stably sorted. */
  lemma RunIsSorted(order: Order, run: seq<Message>)
    ensures var r := SortRun(order, run);
            && |r| == |run| && multiset(r) == multiset(run)
            && (forall x :: 0 <= x < |run| ==> IsTool(r[x]) == IsTool(run[x]))
            && (forall x :: 0 <= x < |run| && !IsTool(run[x]) ==> r[x] == run[x])
            && Only(true, r) == StableSort(order, Only(true, run))
            && Only(false, r) == Only(false, run)
  {
    var sorted := StableSort(order, Only(true, run));
    SortFits(order, run);
    StableSortKeeps(order, Only(true, run));
    RefilledParts(run, sorted);
    RefilledPermutes(run, sorted);
    RefilledInPlace(run, sorted);
  }

  lemma RunSortedTwice(order: Order, run: seq<Message>)
    ensures SortRun(order, SortRun(order, run)) == SortRun(order, run)
  {
    RunIsSorted(order, run);
    StableSortKeeps(order, Only(true, run));
    SortedStays(order, Only(true, SortRun(order, run)));
    RefilledWithOwn(SortRun(order, run));
  }

  lemma {:induction false} ZeroKeysSorted(order: Order, s: seq<Message>)
    requires order == map[] || |s| <= 1
    ensures Sorted(order, s)
  {
    if s != [] { ZeroKeysSorted(order, s[1..]); }
  }

  /** The two guards of the loop only save work: without an order, or with one result, nothing moves. */
  lemma GuardsSaveWork(order: Order, run: seq<Message>)
    requires order == map[] || |Only(true, run)| <= 1
    ensures SortRun(order, run) == run
  {
    ZeroKeysSorted(order, Only(true, run));
    SortedStays(order, Only(true, run));
    RefilledWithOwn(run);
  }

  // ----- the whole conversation -----

  function RunLength(messages: seq<Message>): (n: nat)
    ensures n <= |messages|
    ensures forall x :: 0 <= x < n ==> InBlock(messages[x])
    ensures n < |messages| ==> !InBlock(messages[n])
  {
    if messages == [] || !InBlock(messages[0]) then 0 else 1 + RunLength(messages[1..])
  }

  function SortFrom(order: Order, messages: seq<Message>): seq<Message>
    decreases |messages|
  {
    if messages == [] then []
    else if InBlock(messages[0]) then
      var n := RunLength(messages);
      SortRun(order, messages[..n]) + SortFrom(order, messages[n..])
    else [messages[0]] + SortFrom(NextOrder(order, messages[0]), messages[1..])
  }

  function NextOrder(order: Order, m: Message): Order {
    if CallsTools(m) then OrderOf(m.callIds, |m.callIds|) else order
  }

  function SortToolResults(messages: seq<Message>): seq<Message> { SortFrom(map[], messages) }

  /** The order in force at position `x`: that of the latest assistant message with tool calls. */
  function OrderBefore(order: Order, messages: seq<Message>, x: nat): Order
    requires x <= |messages|
  {
    if x == 0 then order else NextOrder(OrderBefore(order, messages, x - 1), messages[x - 1])
  }

  // ----- the imperative original -----

  method SortToolResultsInPlace(messages: seq<Message>) returns (adjusted: seq<Message>)
    ensures adjusted == SortToolResults(messages)
  {
    adjusted := messages;
    var order: Order := map[];
    var i: nat := 0;
    assert messages[0..] == messages;
    ghost var rest := SortFrom(order, messages);
    while i < |adjusted|
      invariant |adjusted| == |messages| && i <= |messages| && adjusted[i..] == messages[i..]
      invariant rest == SortFrom(order, messages[i..])
      invariant adjusted[..i] + rest == SortToolResults(messages)
      decreases |messages| - i
    {
      assert adjusted[i] == messages[i..][0];
      adjusted, i, order, rest := Turn(adjusted, messages, i, order, rest);
    }
    assert adjusted[..i] == adjusted;
  }

  /** One turn of the loop: past one message, or past one run, which it sorts. */
  method Turn(was: seq<Message>, ghost messages: seq<Message>, i: nat, order: Order, ghost rest: seq<Message>)
    returns (adjusted: seq<Message>, i': nat, order': Order, ghost rest': seq<Message>)
    requires |was| == |messages| && i < |messages| && was[i..] == messages[i..]
    requires was[i] == messages[i] && rest == SortFrom(order, messages[i..])
    ensures |adjusted| == |messages| && i < i' <= |messages| && adjusted[i'..] == messages[i'..]
    ensures rest' == SortFrom(order', messages[i'..])
    ensures adjusted[..i'] + rest' == was[..i] + rest
  {
    adjusted, order' := was, order;
    if InBlock(was[i]) {
      adjusted, i' := SortRunAt(was, i, order);
      RunSplice(order, was, messages, adjusted, i, i');
      rest' := SortFrom(order, messages[i'..]);
    } else {
      if CallsTools(was[i]) { order' := PlaceCalls(was[i].callIds); }
      i' := i + 1;
      OtherStep(order, messages, i);
      rest' := SortFrom(order', messages[i'..]);
      assert adjusted[..i'] == was[..i] + [messages[i]];
      assert adjusted[i'..] == was[i..][1..] && messages[i'..] == messages[i..][1..];
    }
  }

  lemma OtherStep(order: Order, messages: seq<Message>, i: nat)
    requires i < |messages| && !InBlock(messages[i])
    ensures SortFrom(order, messages[i..]) == [messages[i]] + SortFrom(NextOrder(order, messages[i]), messages[i + 1..])
  {
    assert messages[i..][1..] == messages[i + 1..];
  }

  lemma RunSplice(order: Order, was: seq<Message>, messages: seq<Message>, adjusted: seq<Message>, i: nat, runEnd: nat)
    requires |was| == |messages| && i < |messages| && was[i..] == messages[i..] && InBlock(messages[i])
    requires runEnd == i + RunLength(was[i..])
    requires adjusted == was[..i] + SortRun(order, was[i..runEnd]) + was[runEnd..]
    ensures |adjusted| == |messages| && i < runEnd <= |messages| && adjusted[runEnd..] == messages[runEnd..]
    ensures adjusted[..runEnd] + SortFrom(order, messages[runEnd..]) == was[..i] + SortFrom(order, messages[i..])
  {
    Advance(order, messages, i, runEnd);
    assert was[i..runEnd] == was[i..][..runEnd - i] == messages[i..runEnd];
    assert was[runEnd..] == was[i..][runEnd - i..] == messages[runEnd..];
    Spliced(was[..i], SortRun(order, was[i..runEnd]), was[runEnd..], adjusted, runEnd);
  }

  lemma Spliced(a: seq<Message>, b: seq<Message>, c: seq<Message>, all: seq<Message>, n: nat)
    requires all == a + b + c && n == |a| + |b|
    ensures all[..n] == a + b && all[n..] == c
  {
  }

  method PlaceCalls(ids: seq<string>) returns (order: Order)
    ensures order == OrderOf(ids, |ids|)
  {
    order := map[];
    for k := 0 to |ids|
      invariant order == OrderOf(ids, k)
    {
      if ids[k] != "" { order := order[ids[k] := k]; }
    }
  }

  lemma RunStep(order: Order, messages: seq<Message>, n: nat, run: seq<Message>, rest: seq<Message>)
    requires messages != [] && InBlock(messages[0]) && n == RunLength(messages)
    requires run == messages[..n] && rest == messages[n..]
    ensures n > 0 && SortFrom(order, messages) == SortRun(order, run) + SortFrom(order, rest)
  {
  }

  lemma Advance(order: Order, messages: seq<Message>, i: nat, runEnd: nat)
    requires i < |messages| && InBlock(messages[i]) && runEnd == i + RunLength(messages[i..])
    ensures i < runEnd <= |messages|
    ensures SortFrom(order, messages[i..]) == SortRun(order, messages[i..runEnd]) + SortFrom(order, messages[runEnd..])
  {
    assert messages[i..][..runEnd - i] == messages[i..runEnd];
    assert messages[i..][runEnd - i..] == messages[runEnd..];
    RunStep(order, messages[i..], runEnd - i, messages[i..runEnd], messages[runEnd..]);
  }

  /** Collects the positions of one run's tool messages, sorts the messages there, and writes them back. */
  method SortRunAt(messages: seq<Message>, i: nat, order: Order) returns (adjusted: seq<Message>, runEnd: nat)
    requires i < |messages| && InBlock(messages[i])
    ensures runEnd == i + RunLength(messages[i..])
    ensures adjusted == messages[..i] + SortRun(order, messages[i..runEnd]) + messages[runEnd..]
  {
    var positions;
    positions, runEnd := CollectRun(messages, i);
    ghost var run := messages[i..runEnd];
    if |positions| > 1 && order != map[] {
      var results := Gathered(messages, i, runEnd, positions);
      results := StableSort(order, results);
      SortFits(order, run);
      adjusted := WriteBack(messages, i, runEnd, positions, results);
    } else {
      adjusted := messages;
      OnlyTools(run);
      GuardsSaveWork(order, run);
      ThreeParts(messages, i, runEnd);
    }
  }

  lemma ThreeParts(messages: seq<Message>, i: nat, j: nat)
    requires i <= j <= |messages|
    ensures messages == messages[..i] + messages[i..j] + messages[j..]
  {
  }

  /** The messages at the collected positions. */
  method Gathered(messages: seq<Message>, i: nat, runEnd: nat, positions: seq<nat>) returns (results: seq<Message>)
    requires i <= runEnd <= |messages| && Locates(messages[i..runEnd], positions, i)
    ensures results == Only(true, messages[i..runEnd])
  {
    results := seq(|positions|, k requires 0 <= k < |positions| => messages[positions[k]]);
    CollectedAre(messages[i..runEnd], positions, i, results, messages);
  }

  /** `positions` lists where the tool messages of `run` stand, counted from `i`. */
  predicate Locates(run: seq<Message>, positions: seq<nat>, i: nat) {
    && |positions| == Rank(run, |run|)
    && (forall k :: 0 <= k < |positions| ==> i <= positions[k] < i + |run|)
    && (forall k :: 0 <= k < |positions| ==> LocatesOne(run, positions, i, k))
    && (forall x :: 0 <= x < |run| ==> Located(run, positions, i, x))
  }

  predicate LocatesOne(run: seq<Message>, positions: seq<nat>, i: nat, k: nat)
    requires k < |positions| && i <= positions[k] < i + |run|
  {
    IsTool(run[positions[k] - i]) && Rank(run, positions[k] - i) == k
  }

  predicate Located(run: seq<Message>, positions: seq<nat>, i: nat, x: nat)
    requires x < |run|
  {
    IsTool(run[x]) ==> Rank(run, x) < |positions| && positions[Rank(run, x)] == i + x
  }

  lemma LocatesMore(run: seq<Message>, positions: seq<nat>, i: nat, m: Message, at: nat, positions': seq<nat>)
    returns (run': seq<Message>)
    requires Locates(run, positions, i) && at == i + |run|
    requires positions' == if IsTool(m) then positions + [at] else positions
    ensures run' == run + [m] && Locates(run', positions', i)
  {
    run' := run + [m];
    var n := |run|;
    assert run'[..n] == run;
    forall x | 0 <= x <= n ensures Rank(run', x) == Rank(run, x) { RankOfPrefix(run', n, x); }
    forall k | 0 <= k < |positions'| ensures i <= positions'[k] < i + |run'| && LocatesOne(run', positions', i, k) {
      if k < |positions| { assert LocatesOne(run, positions, i, k); }
    }
    forall x | 0 <= x < |run'| ensures Located(run', positions', i, x) {
      if x < n { assert Located(run, positions, i, x); }
    }
  }

  method CollectRun(messages: seq<Message>, i: nat) returns (positions: seq<nat>, runEnd: nat)
    requires i < |messages| && InBlock(messages[i])
    ensures runEnd == i + RunLength(messages[i..]) && i < runEnd <= |messages|
    ensures Locates(messages[i..runEnd], positions, i)
  {
    positions, runEnd := [], i;
    ghost var run: seq<Message> := [];
    while runEnd < |messages| && InBlock(messages[runEnd])
      invariant i <= runEnd <= |messages| && run == messages[i..runEnd]
      invariant forall x :: 0 <= x < |run| ==> InBlock(run[x])
      invariant Locates(run, positions, i)
    {
      positions, run := CollectOne(messages, positions, run, i, runEnd);
      runEnd := runEnd + 1;
    }
    RunEndIs(messages, run, i, runEnd);
  }

  method CollectOne(messages: seq<Message>, positions: seq<nat>, ghost run: seq<Message>, i: nat, runEnd: nat)
    returns (positions': seq<nat>, ghost run': seq<Message>)
    requires i <= runEnd < |messages| && run == messages[i..runEnd] && Locates(run, positions, i)
    ensures run' == run + [messages[runEnd]] == messages[i..runEnd + 1] && Locates(run', positions', i)
  {
    positions' := if IsTool(messages[runEnd]) then positions + [runEnd] else positions;
    SliceGrows(messages, i, runEnd);
    run' := LocatesMore(run, positions, i, messages[runEnd], runEnd, positions');
  }

  lemma SliceGrows(messages: seq<Message>, i: nat, j: nat)
    requires i <= j < |messages|
    ensures messages[i..j + 1] == messages[i..j] + [messages[j]]
  {
  }

  lemma RunEndIs(messages: seq<Message>, run: seq<Message>, i: nat, runEnd: nat)
    requires i < |messages| && InBlock(messages[i]) && i <= runEnd <= |messages| && run == messages[i..runEnd]
    requires (forall x :: 0 <= x < |run| ==> InBlock(run[x])) && (runEnd < |messages| ==> !InBlock(messages[runEnd]))
    ensures runEnd == i + RunLength(messages[i..]) && i < runEnd
  {
    forall x | 0 <= x < runEnd - i ensures InBlock(messages[i..][x]) { assert messages[i..][x] == run[x]; }
    RunLengthIs(messages[i..], runEnd - i);
  }

  lemma {:induction false} RunLengthIs(messages: seq<Message>, n: nat)
    requires n <= |messages| && (forall x :: 0 <= x < n ==> InBlock(messages[x]))
    requires n < |messages| ==> !InBlock(messages[n])
    ensures RunLength(messages) == n
  {
    if n > 0 { RunLengthIs(messages[1..], n - 1); }
  }

  lemma {:induction false} OnlyToolsAt(run: seq<Message>, x: nat)
    requires x < |run| && IsTool(run[x])
    ensures Rank(run, x) < |Only(true, run)| && Only(true, run)[Rank(run, x)] == run[x]
    decreases |run|
  {
    var n := |run| - 1;
    OnlyTools(run[..n]);
    RankOfPrefix(run, n, n);
    RankOfPrefix(run, n, x);
    if x < n { OnlyToolsAt(run[..n], x); }
  }

  lemma CollectedAre(run: seq<Message>, positions: seq<nat>, i: nat, results: seq<Message>, messages: seq<Message>)
    requires Locates(run, positions, i) && i + |run| <= |messages| && run == messages[i..i + |run|]
    requires |results| == |positions|
    requires forall k :: 0 <= k < |positions| ==> results[k] == messages[positions[k]]
    ensures results == Only(true, run)
  {
    OnlyTools(run);
    forall k | 0 <= k < |results| ensures results[k] == Only(true, run)[k] {
      assert LocatesOne(run, positions, i, k);
      OnlyToolsAt(run, positions[k] - i);
    }
  }

  method WriteBack(messages: seq<Message>, i: nat, runEnd: nat, positions: seq<nat>, results: seq<Message>)
    returns (adjusted: seq<Message>)
    requires i <= runEnd <= |messages| && Locates(messages[i..runEnd], positions, i)
    requires Fits(messages[i..runEnd], results)
    ensures adjusted == messages[..i] + Refilled(messages[i..runEnd], results) + messages[runEnd..]
  {
    adjusted := messages;
    ghost var run := messages[i..runEnd];
    ghost var filled := run;
    assert run == Filled(run, results, 0);
    assert messages == messages[..i] + run + messages[runEnd..];
    for k := 0 to |positions|
      invariant |filled| == |run| && filled == Filled(run, results, k)
      invariant adjusted == messages[..i] + filled + messages[runEnd..]
    {
      WriteNext(messages[..i], run, messages[runEnd..], results, positions, i, k);
      adjusted := adjusted[positions[k] := results[k]];
      filled := filled[positions[k] - i := results[k]];
    }
    forall x | 0 <= x < |run| ensures filled[x] == Placed(run, results, x) { RankRises(run, x, |run|); }
    assert filled == Refilled(run, results);
  }

  lemma WriteNext(before: seq<Message>, run: seq<Message>, after: seq<Message>, results: seq<Message>,
                  positions: seq<nat>, i: nat, k: nat)
    requires |before| == i && Locates(run, positions, i) && k < |positions| == |results|
    ensures i <= positions[k] < i + |run|
    ensures Filled(run, results, k + 1) == Filled(run, results, k)[positions[k] - i := results[k]]
    ensures (before + Filled(run, results, k) + after)[positions[k] := results[k]]
            == before + Filled(run, results, k)[positions[k] - i := results[k]] + after
  {
    assert LocatesOne(run, positions, i, k);
    FilledNext(run, results, positions, i, k);
    Update(before, Filled(run, results, k), after, positions[k] - i, results[k]);
  }

  lemma Update(a: seq<Message>, b: seq<Message>, c: seq<Message>, x: nat, m: Message)
    requires x < |b|
    ensures (a + b + c)[|a| + x := m] == a + b[x := m] + c
  {
  }

  /** The run after the first `k` results were written. */
  function Filled(run: seq<Message>, results: seq<Message>, k: nat): seq<Message>
    requires k <= |results|
  {
    seq(|run|, x requires 0 <= x < |run| => FilledAt(run, results, k, x))
  }

  function FilledAt(run: seq<Message>, results: seq<Message>, k: nat, x: nat): Message
    requires x < |run| && k <= |results|
  {
    if IsTool(run[x]) && Rank(run, x) < k then results[Rank(run, x)] else run[x]
  }

  lemma FilledNext(run: seq<Message>, results: seq<Message>, positions: seq<nat>, i: nat, k: nat)
    requires Locates(run, positions, i) && k < |positions| == |results|
    ensures Filled(run, results, k + 1) == Filled(run, results, k)[positions[k] - i := results[k]]
  {
    assert LocatesOne(run, positions, i, k);
    forall x | 0 <= x < |run|
      ensures FilledAt(run, results, k + 1, x)
              == if i + x == positions[k] then results[k] else FilledAt(run, results, k, x)
    {
      assert Located(run, positions, i, x);
    }
  }

  // ----- what the whole reordering does -----

  lemma {:induction false} SortFromKeepsLength(order: Order, messages: seq<Message>)
    ensures |SortFrom(order, messages)| == |messages|
    decreases |messages|
  {
    if messages != [] {
      if InBlock(messages[0]) { SortFromKeepsLength(order, messages[RunLength(messages)..]); }
      else { SortFromKeepsLength(NextOrder(order, messages[0]), messages[1..]); }
    }
  }

  lemma {:induction false} SortFromPermutes(order: Order, messages: seq<Message>)
    ensures multiset(SortFrom(order, messages)) == multiset(messages)
    decreases |messages|
  {
    if messages != [] {
      if InBlock(messages[0]) {
        var n := RunLength(messages);
        SortFromPermutes(order, messages[n..]);
        RunIsSorted(order, messages[..n]);
        RunStep(order, messages, n, messages[..n], messages[n..]);
        BothPermute(messages, n, SortRun(order, messages[..n]), SortFrom(order, messages[n..]));
      } else {
        SortFromPermutes(NextOrder(order, messages[0]), messages[1..]);
        assert messages == [messages[0]] + messages[1..];
      }
    }
  }

  lemma BothPermute(messages: seq<Message>, n: nat, a: seq<Message>, b: seq<Message>)
    requires n <= |messages| && multiset(a) == multiset(messages[..n]) && multiset(b) == multiset(messages[n..])
    ensures multiset(a + b) == multiset(messages)
  {
    assert messages == messages[..n] + messages[n..];
  }

  /** A maximal run of user and tool messages. */
  predicate IsRun(messages: seq<Message>, a: nat, b: nat) {
    && a < b <= |messages| && (forall x :: a <= x < b ==> InBlock(messages[x]))
    && (a > 0 ==> !InBlock(messages[a - 1])) && (b < |messages| ==> !InBlock(messages[b]))
  }

  lemma {:induction false} OrderBeforeTail(order: Order, messages: seq<Message>, n: nat, x: nat)
    requires n <= x <= |messages|
    ensures OrderBefore(order, messages, x) == OrderBefore(OrderBefore(order, messages, n), messages[n..], x - n)
    decreases x
  {
    if x > n { OrderBeforeTail(order, messages, n, x - 1); }
  }

  lemma {:induction false} OrderInBlock(order: Order, messages: seq<Message>, x: nat)
    requires x <= |messages| && forall y :: 0 <= y < x ==> InBlock(messages[y])
    ensures OrderBefore(order, messages, x) == order
  {
    if x > 0 { OrderInBlock(order, messages, x - 1); }
  }

  lemma RunTail(messages: seq<Message>, n: nat, a: nat, b: nat)
    requires IsRun(messages, a, b) && n <= a
    ensures IsRun(messages[n..], a - n, b - n) && messages[n..][a - n..b - n] == messages[a..b]
  {
  }

  lemma {:induction false} RunsAreSorted(order: Order, messages: seq<Message>, a: nat, b: nat)
    requires IsRun(messages, a, b)
    ensures |SortFrom(order, messages)| == |messages|
    ensures SortFrom(order, messages)[a..b] == SortRun(OrderBefore(order, messages, a), messages[a..b])
    decreases |messages|, 1
  {
    SortFromKeepsLength(order, messages);
    if InBlock(messages[0]) {
      var n := RunLength(messages);
      SortFromKeepsLength(order, messages[n..]);
      if a == 0 {
        RunLengthIs(messages, b);
        assert messages[0..b] == messages[..b];
      } else {
        assert a > n;
        OrderInBlock(order, messages, n);
        RunAfter(order, order, messages, SortRun(order, messages[..n]), n, a, b);
      }
    } else {
      SortFromKeepsLength(NextOrder(order, messages[0]), messages[1..]);
      assert OrderBefore(order, messages, 0) == order;
      assert OrderBefore(order, messages, 1) == NextOrder(order, messages[0]);
      RunAfter(order, NextOrder(order, messages[0]), messages, [messages[0]], 1, a, b);
    }
  }

  lemma {:induction false} RunAfter(order: Order, order': Order, messages: seq<Message>, done: seq<Message>,
                                    n: nat, a: nat, b: nat)
    requires IsRun(messages, a, b) && 0 < n <= a && |done| == n && OrderBefore(order, messages, n) == order'
    requires SortFrom(order, messages) == done + SortFrom(order', messages[n..])
    ensures |SortFrom(order, messages)| == |messages|
    ensures SortFrom(order, messages)[a..b] == SortRun(OrderBefore(order, messages, a), messages[a..b])
    decreases |messages|, 0
  {
    RunTail(messages, n, a, b);
    var tail, rest := messages[n..], SortFrom(order', messages[n..]);
    assert |tail| < |messages|;
    RunsAreSorted(order', tail, a - n, b - n);
    OrderBeforeTail(order, messages, n, a);
    SliceAfter(done, rest, n, a, b);
  }

  lemma SliceAfter(done: seq<Message>, rest: seq<Message>, n: nat, a: nat, b: nat)
    requires |done| == n <= a <= b <= n + |rest|
    ensures (done + rest)[a..b] == rest[a - n..b - n]
  {
  }

  lemma {:induction false} OthersStay(order: Order, messages: seq<Message>, x: nat)
    requires x < |messages| && !IsTool(messages[x])
    ensures |SortFrom(order, messages)| == |messages| && SortFrom(order, messages)[x] == messages[x]
    decreases |messages|
  {
    SortFromKeepsLength(order, messages);
    if InBlock(messages[0]) {
      var n := RunLength(messages);
      RunIsSorted(order, messages[..n]);
      if x >= n { OthersStay(order, messages[n..], x - n); }
    } else if x > 0 {
      OthersStay(NextOrder(order, messages[0]), messages[1..], x - 1);
    }
  }

  /**
   The whole reordering: a permutation that leaves everything but tool messages in place, and in each
   maximal run of user and tool messages sorts the tool messages, stably, by the latest call order.
   */
  lemma ReorderingExactly(messages: seq<Message>, a: nat, b: nat)
    requires IsRun(messages, a, b)
    ensures var r := SortToolResults(messages);
            && |r| == |messages| && multiset(r) == multiset(messages)
            && (forall x :: 0 <= x < |r| && !IsTool(messages[x]) ==> r[x] == messages[x])
            && multiset(r[a..b]) == multiset(messages[a..b])
            && Only(true, r[a..b]) == StableSort(OrderBefore(map[], messages, a), Only(true, messages[a..b]))
            && Only(false, r[a..b]) == Only(false, messages[a..b])
  {
    SortFromPermutes(map[], messages);
    RunsAreSorted(map[], messages, a, b);
    forall x | 0 <= x < |messages| && !IsTool(messages[x]) ensures SortToolResults(messages)[x] == messages[x] {
      OthersStay(map[], messages, x);
    }
    var order, run := OrderBefore(map[], messages, a), messages[a..b];
    RunIsSorted(order, run);
  }

  /** Sorting a second time changes nothing. */
  lemma {:induction false} SortedTwice(order: Order, messages: seq<Message>)
    ensures SortFrom(order, SortFrom(order, messages)) == SortFrom(order, messages)
    decreases |messages|
  {
    if messages != [] {
      if InBlock(messages[0]) {
        var n := RunLength(messages);
        SortedTwice(order, messages[n..]);
        RunIsSorted(order, messages[..n]);
        FirstStays(order, messages[n..]);
        BlockTwice(order, messages[..n], SortFrom(order, messages[n..]));
      } else {
        SortedTwice(NextOrder(order, messages[0]), messages[1..]);
        var rest := SortFrom(NextOrder(order, messages[0]), messages[1..]);
        assert ([messages[0]] + rest)[1..] == rest;
      }
    }
  }

  lemma FirstStays(order: Order, messages: seq<Message>)
    requires messages != [] ==> !InBlock(messages[0])
    ensures messages != [] ==> SortFrom(order, messages) != [] && !InBlock(SortFrom(order, messages)[0])
  {
  }

  lemma BlockTwice(order: Order, run: seq<Message>, rest: seq<Message>)
    requires run != [] && (forall x :: 0 <= x < |run| ==> InBlock(run[x]))
    requires rest != [] ==> !InBlock(rest[0])
    requires SortFrom(order, rest) == rest
    ensures SortFrom(order, SortRun(order, run) + rest) == SortRun(order, run) + rest
  {
    RunIsSorted(order, run);
    RunSortedTwice(order, run);
    var r := SortRun(order, run);
    forall x | 0 <= x < |r| ensures InBlock(r[x]) {
      assert IsTool(r[x]) == IsTool(run[x]);
    }
    RunLengthIs(r + rest, |r|);
    assert (r + rest)[..|r|] == r && (r + rest)[|r|..] == rest;
  }

  // ----- the outcome, without the code's own steps -----

  /** The ids of the latest assistant message before `x` that calls tools; none if there is no such message. */
  predicate LatestIds(messages: seq<Message>, x: nat, ids: seq<string>)
    requires x <= |messages|
  {
    if x == 0 then ids == []
    else if messages[x - 1].role == "assistant" && messages[x - 1].callIds != [] then ids == messages[x - 1].callIds
    else LatestIds(messages, x - 1, ids)
  }

  /** The last place where an id is listed, if it is; the empty one never counts. */
  predicate PlaceOf(ids: seq<string>, id: string, k: nat) {
    if id == "" || id !in ids then k == 0
    else k < |ids| && ids[k] == id && forall j :: k < j < |ids| ==> ids[j] != id
  }

  lemma {:induction false} OrderIsLatest(messages: seq<Message>, x: nat, ids: seq<string>)
    requires x <= |messages| && LatestIds(messages, x, ids)
    ensures OrderBefore(map[], messages, x) == OrderOf(ids, |ids|)
    decreases x
  {
    if x > 0 && !CallsTools(messages[x - 1]) { OrderIsLatest(messages, x - 1, ids); }
  }

  lemma KeyIsPlace(ids: seq<string>, m: Message, k: nat)
    requires PlaceOf(ids, m.toolCallId, k)
    ensures Key(OrderOf(ids, |ids|), m) == k
  {
    assert ids[..|ids|] == ids;
    if m.toolCallId == "" || m.toolCallId !in ids {
      UnknownKey(ids, |ids|, m);
    } else {
      KeyIsLastPlace(ids, |ids|, m, k);
    }
  }

  function ToolsOf(run: seq<Message>): seq<Message> {
    if run == [] then [] else (if run[0].role == "tool" then [run[0]] else []) + ToolsOf(run[1..])
  }

  lemma {:induction false} ToolsConcat(a: seq<Message>, b: seq<Message>)
    ensures ToolsOf(a + b) == ToolsOf(a) + ToolsOf(b)
    decreases |a|
  {
    if a == [] {
      assert a + b == b;
    } else {
      assert (a + b)[1..] == a[1..] + b;
      ToolsConcat(a[1..], b);
      Associate(if a[0].role == "tool" then [a[0]] else [], ToolsOf(a[1..]), ToolsOf(b));
    }
  }

  lemma {:induction false} ToolsAreOnly(run: seq<Message>)
    ensures Only(true, run) == ToolsOf(run)
    decreases |run|
  {
    if run != [] {
      var n := |run| - 1;
      assert run == run[..n] + [run[n]];
      ToolsAreOnly(run[..n]);
      ToolsConcat(run[..n], [run[n]]);
      assert ToolsOf([run[n]][1..]) == [];
    }
  }

  lemma {:induction false} SortedPairs(order: Order, s: seq<Message>, i: nat, j: nat)
    requires Sorted(order, s) && i <= j < |s|
    ensures Key(order, s[i]) <= Key(order, s[j])
    decreases |s|
  {
    if i > 0 {
      SortedPairs(order, s[1..], i - 1, j - 1);
    } else if j > 0 {
      SortedPairs(order, s[1..], 0, j - 1);
    }
  }

  predicate Maximal(messages: seq<Message>, a: nat, b: nat) {
    && a < b <= |messages|
    && (forall x :: a <= x < b ==> messages[x].role == "user" || messages[x].role == "tool")
    && (a > 0 ==> messages[a - 1].role != "user" && messages[a - 1].role != "tool")
    && (b < |messages| ==> messages[b].role != "user" && messages[b].role != "tool")
  }

  /** The messages for the call at place `k`, in their order. */
  function ForPlace(ids: seq<string>, s: seq<Message>, k: nat): seq<Message> {
    if s == [] then []
    else (if PlaceOf(ids, s[0].toolCallId, k) then [s[0]] else []) + ForPlace(ids, s[1..], k)
  }

  lemma {:induction false} ClassIsPlace(ids: seq<string>, s: seq<Message>, k: nat)
    ensures WithKey(OrderOf(ids, |ids|), s, k) == ForPlace(ids, s, k)
    decreases |s|
  {
    if s != [] {
      ClassIsPlace(ids, s[1..], k);
      var p := PlaceFound(ids, s[0].toolCallId);
      KeyIsPlace(ids, s[0], p);
      PlaceUnique(ids, s[0].toolCallId, p, k);
    }
  }

  lemma {:induction false} PlaceFound(ids: seq<string>, id: string) returns (k: nat)
    ensures PlaceOf(ids, id, k)
    decreases |ids|
  {
    k := 0;
    if id != "" && id in ids {
      var n := |ids| - 1;
      if ids[n] == id {
        k := n;
      } else {
        assert ids == ids[..n] + [ids[n]];
        k := PlaceFound(ids[..n], id);
      }
    }
  }

  lemma PlaceUnique(ids: seq<string>, id: string, k: nat, j: nat)
    requires PlaceOf(ids, id, k)
    ensures PlaceOf(ids, id, j) <==> j == k
  {
  }

  /**
   In every maximal run of user and tool messages, the tool messages come out in the order of the calls they answer,
   as the latest assistant message lists them, and those of one call in the order they had. Everything else stays.
   */
  lemma ResultsInCallOrder(messages: seq<Message>, a: nat, b: nat, ids: seq<string>)
    requires Maximal(messages, a, b) && LatestIds(messages, a, ids)
    ensures var r := SortToolResults(messages);
            && |r| == |messages|
            && (forall x :: 0 <= x < |r| && messages[x].role != "tool" ==> r[x] == messages[x])
            && (forall k :: ForPlace(ids, ToolsOf(r[a..b]), k) == ForPlace(ids, ToolsOf(messages[a..b]), k))
            && forall i, j, p, q :: 0 <= i < j < |ToolsOf(r[a..b])|
                 && PlaceOf(ids, ToolsOf(r[a..b])[i].toolCallId, p) && PlaceOf(ids, ToolsOf(r[a..b])[j].toolCallId, q)
                 ==> p <= q
  {
    ReorderingExactly(messages, a, b);
    OrderIsLatest(messages, a, ids);
    var r, order := SortToolResults(messages), OrderOf(ids, |ids|);
    ToolsAreOnly(r[a..b]);
    ToolsAreOnly(messages[a..b]);
    var given, sorted := ToolsOf(messages[a..b]), ToolsOf(r[a..b]);
    assert sorted == StableSort(order, given);
    StableSortKeeps(order, given);
    forall k ensures ForPlace(ids, sorted, k) == ForPlace(ids, given, k) {
      StableSortClass(order, given, k);
      ClassIsPlace(ids, sorted, k);
      ClassIsPlace(ids, given, k);
    }
    forall i, j, p, q | 0 <= i < j < |sorted| && PlaceOf(ids, sorted[i].toolCallId, p)
                        && PlaceOf(ids, sorted[j].toolCallId, q) ensures p <= q {
      KeyIsPlace(ids, sorted[i], p);
      KeyIsPlace(ids, sorted[j], q);
      SortedPairs(order, sorted, i, j);
    }
  }
}
