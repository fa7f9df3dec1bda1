/**
 `string_find_partial_stop` (common/common.h): where the end of a text may be the beginning of a
 stop word, so that a server can hold that part back.
 */
module PartialStop {
  import opened Wrappers

  function Min(a: nat, b: nat): nat { if a < b then a else b }

  function StringEndsWith(s: string, suffix: string): (r: bool)
    ensures r <==> exists head :: head + suffix == s
  {
    assert |s| >= |suffix| && s[|s| - |suffix|..] == suffix ==> s[..|s| - |suffix|] + suffix == s;
    |s| >= |suffix| && s[|s| - |suffix|..] == suffix
  }

  /** The last `n` characters of the text are the first `n` of the stop word. */
  predicate Overlaps(s: string, stop: string, n: nat) {
    n <= |s| && n <= |stop| && s[|s| - n..] == stop[..n]
  }

  /** The longest overlap of at most `n` characters. */
  function Longest(s: string, stop: string, n: nat): (k: nat)
    ensures k <= n
  {
    if n == 0 || Overlaps(s, stop, n) then n else Longest(s, stop, n - 1)
  }

  lemma {:induction false} LongestIsLongest(s: string, stop: string, n: nat, k: nat)
    requires k <= n && Overlaps(s, stop, k)
    ensures k <= Longest(s, stop, n) && Overlaps(s, stop, Longest(s, stop, n))
  {
    if n > 0 && !Overlaps(s, stop, n) { LongestIsLongest(s, stop, n - 1, k); }
  }

  function Overlap(s: string, stop: string): nat { Longest(s, stop, Min(|s|, |stop|)) }

  lemma OverlapIsLongest(s: string, stop: string)
    ensures Overlaps(s, stop, Overlap(s, stop))
    ensures forall k: nat :: Overlaps(s, stop, k) ==> k <= Overlap(s, stop)
  {
    LongestIsLongest(s, stop, Min(|s|, |stop|), 0);
    forall k: nat | Overlaps(s, stop, k) ensures k <= Overlap(s, stop) {
      LongestIsLongest(s, stop, Min(|s|, |stop|), k);
    }
  }

  /** Finds the longest end of the text that starts the stop word, and nothing only if there is none. */
  method StringFindPartialStop(s: string, stop: string) returns (at: Option<nat>)
    ensures at.None? <==> forall k: nat :: Overlaps(s, stop, k) ==> k == 0
    ensures at.Some? ==> at.value < |s| && Overlaps(s, stop, |s| - at.value)
    ensures at.Some? ==> forall k: nat :: Overlaps(s, stop, k) ==> k <= |s| - at.value
    ensures Held(s, stop) == match at case Some(i) => i case None => |s|
  {
    OverlapIsLongest(s, stop);
    if s != "" && stop != "" {
      var n: nat := Min(|s|, |stop|);
      var last := s[|s| - 1];
      while n > 0
        invariant n <= |s| && n <= |stop|
        invariant Overlap(s, stop) == Longest(s, stop, n)
      {
        if stop[n - 1] == last {
          if StringEndsWith(s, stop[..n]) {
            return Some(|s| - n);
          }
        }
        LastMustMatch(s, stop, n);
        n := n - 1;
      }
    }
    return None;
  }

  lemma LastMustMatch(s: string, stop: string, n: nat)
    requires 0 < n <= |s| && n <= |stop|
    ensures Overlaps(s, stop, n) ==> stop[n - 1] == s[|s| - 1]
  {
    assert s[|s| - n..][n - 1] == s[|s| - 1];
  }

  /** How much of the text can be sent: everything before the partial stop. */
  function Held(s: string, stop: string): nat { |s| - Overlap(s, stop) }

  // ----- what holding back is for -----

  predicate OccursAt(s: string, stop: string, p: nat) {
    p + |stop| <= |s| && s[p..p + |stop|] == stop
  }

  ghost predicate Contains(s: string, stop: string) { exists p: nat :: OccursAt(s, stop, p) }

  lemma HeldIs(s: string, stop: string)
    ensures Held(s, stop) <= |s| && Overlaps(s, stop, |s| - Held(s, stop))
    ensures forall k: nat :: Overlaps(s, stop, k) ==> k <= |s| - Held(s, stop)
  {
    OverlapIsLongest(s, stop);
  }

  /** No occurrence of the stop word, in any continuation of a text without one, starts in what was sent. */
  lemma HoldBackIsSafe(s: string, stop: string, rest: string, p: nat)
    requires !Contains(s, stop) && OccursAt(s + rest, stop, p)
    ensures Held(s, stop) <= p
  {
    HeldIs(s, stop);
    if p < |s| {
      OccursInside(s, stop, rest, p);
      CutOverlaps(s, stop, rest, p);
    }
  }

  lemma OccursInside(s: string, stop: string, rest: string, p: nat)
    requires OccursAt(s + rest, stop, p)
    ensures p + |stop| <= |s| ==> Contains(s, stop)
  {
    if p + |stop| <= |s| {
      assert (s + rest)[p..p + |stop|] == s[p..p + |stop|];
      assert OccursAt(s, stop, p);
    }
  }

  lemma CutOverlaps(s: string, stop: string, rest: string, p: nat)
    requires p < |s| < p + |stop| && OccursAt(s + rest, stop, p)
    ensures Overlaps(s, stop, |s| - p)
  {
    assert stop[..|s| - p] == (s + rest)[p..p + |stop|][..|s| - p];
    assert (s + rest)[p..p + |stop|][..|s| - p] == s[p..];
  }

  /** And nothing is held back needlessly: some continuation has an occurrence right there. */
  lemma HoldBackIsTight(s: string, stop: string)
    ensures exists rest :: OccursAt(s + rest, stop, Held(s, stop))
  {
    HeldIs(s, stop);
    var i := Held(s, stop);
    var rest := stop[|s| - i..];
    assert (s + rest)[i..i + |stop|] == s[i..] + rest;
    assert stop == stop[..|s| - i] + rest;
    assert OccursAt(s + rest, stop, i);
  }

  /** Over a stream, what was sent never has to be taken back. */
  lemma SentOnlyGrows(s: string, stop: string, more: string)
    ensures Held(s, stop) <= Held(s + more, stop)
  {
    HeldIs(s, stop);
    HeldIs(s + more, stop);
    var i := Held(s + more, stop);
    if i < |s| {
      var n := |s + more| - i;
      assert stop[..|s| - i] == stop[..n][..|s| - i];
      assert (s + more)[|s + more| - n..][..|s| - i] == s[i..];
      assert Overlaps(s, stop, |s| - i);
    }
  }

  /** Every text sent along a run of chunks ends before any stop word of the whole output. */
  lemma {:induction false} RunNeverSendsTheStop(chunks: seq<string>, stop: string, text: string, p: nat)
    requires Joined(chunks) == text && OccursAt(text, stop, p)
    ensures forall i :: 0 <= i <= |chunks| && !Contains(Joined(chunks[..i]), stop)
              ==> Held(Joined(chunks[..i]), stop) <= p
  {
    forall i | 0 <= i <= |chunks| && !Contains(Joined(chunks[..i]), stop)
      ensures Held(Joined(chunks[..i]), stop) <= p
    {
      JoinedSplit(chunks, i);
      HoldBackIsSafe(Joined(chunks[..i]), stop, Joined(chunks[i..]), p);
    }
  }

  function Joined(chunks: seq<string>): string {
    if chunks == [] then "" else chunks[0] + Joined(chunks[1..])
  }

  lemma {:induction false} JoinedSplit(chunks: seq<string>, i: nat)
    requires i <= |chunks|
    ensures Joined(chunks) == Joined(chunks[..i]) + Joined(chunks[i..])
    decreases i
  {
    if i > 0 {
      JoinedSplit(chunks[1..], i - 1);
      assert chunks[..i][1..] == chunks[1..][..i - 1] && chunks[1..][i - 1..] == chunks[i..];
    } else {
      assert chunks[0..] == chunks;
    }
  }
}
