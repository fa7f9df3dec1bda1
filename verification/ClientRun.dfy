/**
 The two ends of a stream: the server compares each message with the previous one and sends the
 deltas, the client folds them. Whether the client ends up with the last message is decided by the
 comparisons alone.
 */
module ClientRun {
  import opened Wrappers
  import opened ChatMessage
  import opened MessageDiff

  /** The server's side: compare each message with the previous one and fold the deltas into the client's. */
  function Client(held: Message, prev: Message, messages: seq<Message>): Result<Message, DiffError>
    decreases |messages|
  {
    if messages == [] then Success(held)
    else
      var d := Diffs(prev, messages[0]);
      if d.Failure? then Failure(d.error)
      else Client(ApplyAll(held, d.value), messages[0], messages[1..])
  }

  predicate ThrowsAt(ms: seq<Message>, i: nat)
    requires i + 1 < |ms|
  {
    Diffs(ms[i], ms[i + 1]).Failure?
  }

  /** The comparison finds growth, or throws for a text. */
  ghost predicate ComparedAt(ms: seq<Message>, i: nat)
    requires i + 1 < |ms|
  {
    Extends(ms[i], ms[i + 1]) || Diffs(ms[i], ms[i + 1]) == Failure(TextMismatch)
  }

  ghost predicate Compared(ms: seq<Message>) { forall i :: 0 <= i < |ms| - 1 ==> ComparedAt(ms, i) }

  predicate Throwing(ms: seq<Message>) { exists i :: 0 <= i < |ms| - 1 && ThrowsAt(ms, i) }

  /** The client holds the last message, unless some comparison throws. */
  lemma {:induction false} ClientDecides(ms: seq<Message>)
    requires ms != [] && Compared(ms)
    ensures Client(ms[0], ms[0], ms[1..])
            == if Throwing(ms) then Failure(TextMismatch) else Success(ms[|ms| - 1])
    decreases |ms|
  {
    if |ms| > 1 {
      ComparedLater(ms);
      ClientDecides(ms[1..]);
      ThrowsHereOrLater(ms);
      FirstComparison(ms);
    }
  }

  lemma FirstComparison(ms: seq<Message>)
    requires |ms| > 1 && ComparedAt(ms, 0)
    ensures Client(ms[0], ms[0], ms[1..])
            == if ThrowsAt(ms, 0) then Failure(TextMismatch) else Client(ms[1..][0], ms[1..][0], ms[1..][1..])
  {
    if !ThrowsAt(ms, 0) { ExtensionReconstructs(ms[0], ms[1]); }
  }

  lemma ComparedLater(ms: seq<Message>)
    requires |ms| > 1 && Compared(ms)
    ensures Compared(ms[1..])
  {
    forall i | 0 <= i < |ms[1..]| - 1 ensures ComparedAt(ms[1..], i) { assert ComparedAt(ms, i + 1); }
  }

  lemma ThrowsHereOrLater(ms: seq<Message>)
    requires |ms| > 1
    ensures Throwing(ms) <==> ThrowsAt(ms, 0) || Throwing(ms[1..])
  {
    if Throwing(ms[1..]) {
      var i :| 0 <= i < |ms[1..]| - 1 && ThrowsAt(ms[1..], i);
      assert ThrowsAt(ms, i + 1);
    }
    if Throwing(ms) && !ThrowsAt(ms, 0) {
      var i :| 0 <= i < |ms| - 1 && ThrowsAt(ms, i);
      assert ThrowsAt(ms[1..], i - 1);
    }
  }

  /** Messages that only grow are followed to the last one. */
  lemma GrowingFollowed(ms: seq<Message>)
    requires ms != [] && forall i :: 0 <= i < |ms| - 1 ==> GrowsAt(ms, i)
    ensures Client(ms[0], ms[0], ms[1..]) == Success(ms[|ms| - 1])
  {
    forall i | 0 <= i < |ms| - 1 ensures ComparedAt(ms, i) && !ThrowsAt(ms, i) {
      assert GrowsAt(ms, i);
      ExtensionReconstructs(ms[i], ms[i + 1]);
    }
    ClientDecides(ms);
  }

  ghost predicate GrowsAt(ms: seq<Message>, i: nat)
    requires i + 1 < |ms|
  {
    Extends(ms[i], ms[i + 1])
  }
}
