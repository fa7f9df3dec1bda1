/**
 `calculate_diff_split` takes out all that the two texts share: between texts without markers the longest common
 end and then the longest common start, between segmented ones every pair of equal segments at either end, and of
 the texts that remain there the common characters.
 */
module DiffMaximal {
  import opened Segments
  import opened DiffSplit

  predicate EndsWith(text: string, end: string) { |end| <= |text| && text[|text| - |end|..] == end }

  predicate BeginsWith(text: string, start: string) { start <= text }

  ghost predicate LongestCommonPrefix(a: string, b: string, p: string) {
    BeginsWith(a, p) && BeginsWith(b, p) && forall q :: BeginsWith(a, q) && BeginsWith(b, q) ==> BeginsWith(p, q)
  }

  ghost predicate LongestCommonSuffix(a: string, b: string, s: string) {
    EndsWith(a, s) && EndsWith(b, s) && forall q :: EndsWith(a, q) && EndsWith(b, q) ==> EndsWith(s, q)
  }

  /** If neither is empty, their first characters differ. */
  predicate FirstDiffer(a: string, b: string) { a == "" || b == "" || a[0] != b[0] }

  predicate LastDiffer(a: string, b: string) { a == "" || b == "" || a[|a| - 1] != b[|b| - 1] }

  // ----- characters -----

  lemma {:induction false} PrefixStops(a: string, b: string)
    ensures FirstDiffer(a[CommonPrefix(a, b)..], b[CommonPrefix(a, b)..])
    decreases |a|
  {
    if a != "" && b != "" && a[0] == b[0] {
      var n := CommonPrefix(a[1..], b[1..]);
      PrefixStops(a[1..], b[1..]);
      assert a[n + 1..] == a[1..][n..] && b[n + 1..] == b[1..][n..];
    }
  }

  lemma NotLonger(a: string, b: string, n: nat, q: string)
    requires n <= |a| && n <= |b| && (n < |a| && n < |b| ==> a[n] != b[n])
    requires BeginsWith(a, q) && BeginsWith(b, q)
    ensures BeginsWith(a[..n], q)
  {
  }

  lemma PrefixIsLongest(a: string, b: string)
    ensures LongestCommonPrefix(a, b, a[..CommonPrefix(a, b)])
  {
    var n := CommonPrefix(a, b);
    PrefixStops(a, b);
    if n < |a| && n < |b| { assert a[n] == a[n..][0] && b[n] == b[n..][0]; }
    forall q | BeginsWith(a, q) && BeginsWith(b, q) ensures BeginsWith(a[..n], q) { NotLonger(a, b, n, q); }
  }

  lemma Shortened(a: string, n: nat)
    requires n < |a|
    ensures a[..|a| - (n + 1)] == a[..|a| - 1][..|a| - 1 - n]
  {
  }

  predicate StopsAt(a: string, b: string, n: nat) {
    n <= |a| && n <= |b| && LastDiffer(a[..|a| - n], b[..|b| - n])
  }

  lemma StopsLater(a: string, b: string, n: nat)
    requires a != "" && b != "" && StopsAt(a[..|a| - 1], b[..|b| - 1], n)
    ensures StopsAt(a, b, n + 1)
  {
    Shortened(a, n);
    Shortened(b, n);
  }

  lemma {:induction false} SuffixStops(a: string, b: string)
    ensures StopsAt(a, b, CommonSuffix(a, b))
    decreases |a|
  {
    if a != "" && b != "" && a[|a| - 1] == b[|b| - 1] {
      SuffixStep(a, b);
      SuffixStops(a[..|a| - 1], b[..|b| - 1]);
      StopsLater(a, b, CommonSuffix(a[..|a| - 1], b[..|b| - 1]));
    } else {
      NoSuffix(a, b);
      assert a[..|a|] == a && b[..|b|] == b;
    }
  }

  lemma BeforeTheEnd(a: string, b: string, n: nat)
    requires StopsAt(a, b, n)
    ensures n < |a| && n < |b| ==> a[|a| - 1 - n] != b[|b| - 1 - n]
  {
  }

  lemma SuffixIsLongest(a: string, b: string)
    ensures LongestCommonSuffix(a, b, a[|a| - CommonSuffix(a, b)..])
  {
    SuffixStops(a, b);
    LongestEnd(a, b, CommonSuffix(a, b));
  }

  lemma LongestEnd(a: string, b: string, n: nat)
    requires StopsAt(a, b, n) && a[|a| - n..] == b[|b| - n..]
    ensures LongestCommonSuffix(a, b, a[|a| - n..])
  {
    BeforeTheEnd(a, b, n);
    forall q | EndsWith(a, q) && EndsWith(b, q) ensures EndsWith(a[|a| - n..], q) {
      EndNotLonger(a, b, n, q);
      EndOfEnd(a, n, q);
    }
  }

  lemma EndOfEnd(a: string, n: nat, q: string)
    requires |q| <= n <= |a| && EndsWith(a, q)
    ensures EndsWith(a[|a| - n..], q)
  {
    assert a[|a| - n..][n - |q|..] == a[|a| - |q|..];
  }

  lemma EndNotLonger(a: string, b: string, n: nat, q: string)
    requires n <= |a| && n <= |b| && (n < |a| && n < |b| ==> a[|a| - 1 - n] != b[|b| - 1 - n])
    requires EndsWith(a, q) && EndsWith(b, q)
    ensures |q| <= n
  {
    if n < |q| {
      EndAt(a, q, n);
      EndAt(b, q, n);
    }
  }

  lemma EndAt(text: string, end: string, k: nat)
    requires EndsWith(text, end) && k < |end|
    ensures text[|text| - 1 - k] == end[|end| - 1 - k]
  {
    assert end[|end| - 1 - k] == text[|text| - |end|..][|end| - 1 - k];
  }

  // ----- what is left after the trim -----

  lemma TrimApart(w: Walk, a: string, b: string, atEnd: bool, atStart: bool)
    ensures var d := Trim(w, a, b, atEnd, atStart);
            (atEnd ==> LastDiffer(d.left, d.right)) && (atStart ==> FirstDiffer(d.left, d.right))
  {
    var s := if atEnd then CommonSuffix(a, b) else 0;
    var a', b' := a[..|a| - s], b[..|b| - s];
    var p := if atStart then CommonPrefix(a', b') else 0;
    if atEnd { SuffixStops(a, b); }
    if atStart { PrefixStops(a', b'); }
    assert a[p..|a| - s] == a'[p..] && b[p..|b| - s] == b'[p..];
  }

  /** Where the branches after the loop leave off. */
  function Ends(left: string, right: string): Walk
    requires Segmentize(left) != [] && Segmentize(right) != []
  {
    Settled(Segmentize(left), Segmentize(right), LoopEnd(left, right))
  }

  /**
   Where text is left at the same end on both sides, the two parts do not begin, or do not end, with the same
   character.
   */
  lemma TextEndsApart(left: string, right: string)
    requires Segmentize(left) != [] && Segmentize(right) != []
    ensures var l, r, w, d := Segmentize(left), Segmentize(right), Ends(left, right), DiffOf(left, right);
            && (IsText(l[w.le]) && IsText(r[w.re]) ==> LastDiffer(d.left, d.right))
            && (IsText(l[w.ls]) && IsText(r[w.rs]) ==> FirstDiffer(d.left, d.right))
  {
    var l, r, w := Segmentize(left), Segmentize(right), Ends(left, right);
    TrimApart(w, RemainderLeft(l, w), RemainderRight(r, w), IsText(l[w.le]) && IsText(r[w.re]),
              IsText(r[w.rs]) && IsText(l[w.ls]));
    FixUpApart(left, right, Ended(l, r, w));
  }

  /** The fix-ups change the parts only if the left one is empty. */
  lemma FixUpApart(left: string, right: string, d: Split)
    ensures FixUp(left, right, d).left == d.left
    ensures d.left != "" ==> FixUp(left, right, d) == d
  {
  }

  // ----- segments -----

  lemma {:induction false} WalkStops(l: seq<Segment>, r: seq<Segment>, w: Walk)
    requires InRange(l, r, w)
    ensures var w' := Walked(l, r, w); Goes(w') ==> !Advances(l, r, w')
    decreases w.le - w.ls + w.re - w.rs
  {
    if Goes(w) && Advances(l, r, w) { WalkStops(l, r, Turned(l, r, w)); }
  }

  /** No equal pair of segments is left at either end; a pair of equal texts, both all that is left, is trimmed. */
  predicate PairsTaken(l: seq<Segment>, r: seq<Segment>, w: Walk)
    requires InRange(l, r, w)
  {
    || (l[w.ls] != r[w.rs] && l[w.le] != r[w.re])
    || (w.ls == w.le && w.rs == w.re && l[w.ls].kind.TextSegment?)
  }

  /** Unless one side was used up, the segments that remain begin and end differently. */
  lemma NoPairLeft(left: string, right: string)
    requires Segmentize(left) != [] && Segmentize(right) != []
    ensures var w := Ends(left, right);
            !w.leftDone && !w.rightDone ==> PairsTaken(Segmentize(left), Segmentize(right), w)
  {
    var l, r := Segmentize(left), Segmentize(right);
    WalkStops(l, r, Begin(l, r));
    SettledPairs(l, r, LoopEnd(left, right));
  }

  lemma SettledPairs(l: seq<Segment>, r: seq<Segment>, w: Walk)
    requires InRange(l, r, w) && (Goes(w) ==> !Advances(l, r, w))
    ensures var w' := Settled(l, r, w); !w'.leftDone && !w'.rightDone ==> PairsTaken(l, r, w')
  {
    if Goes(w) { assert EatPrefix(l, r, w) == w; }
  }

  // ----- texts without markers -----

  predicate Plain(text: string) { '<' !in text && '[' !in text }

  lemma PlainSegment(text: string)
    requires text != "" && Plain(text)
    ensures Segmentize(text) == [Segment(TextSegment, text)]
  {
    FirstOpenerIs(text, |text|);
    assert Segmentize(text) == SegmentsFrom(text);
  }

  lemma PlainDiff(left: string, right: string)
    requires left != "" && right != "" && Plain(left) && Plain(right)
    ensures DiffOf(left, right)
            == FixUp(left, right, Trim(Walk(0, 0, 0, 0, false, false, "", ""), left, right, true, true))
  {
    var l, r := [Segment(TextSegment, left)], [Segment(TextSegment, right)];
    var w := Walk(0, 0, 0, 0, false, false, "", "");
    PlainSegment(left);
    PlainSegment(right);
    assert Begin(l, r) == w && Walked(l, r, w) == w && Settled(l, r, w) == w;
    OneLeft(l, w);
    OneRight(r, w);
    DiffOfIs(left, right, l, r, w, Trim(w, left, right, true, true));
  }

  /** What the trim makes of two whole texts. */
  function Trimmed(a: string, b: string): Split {
    var s := CommonSuffix(a, b);
    var p := CommonPrefix(a[..|a| - s], b[..|b| - s]);
    Split(a[..p], a[|a| - s..], a[p..|a| - s], b[p..|b| - s])
  }

  lemma TrimWhole(a: string, b: string)
    ensures Trim(Walk(0, 0, 0, 0, false, false, "", ""), a, b, true, true) == Trimmed(a, b)
  {
    var d := Trimmed(a, b);
    assert "" + d.prefix == d.prefix && d.suffix + "" == d.suffix;
  }

  /** The longest common end, and the longest common start of what is before it. */
  ghost predicate TakesOutMost(a: string, b: string, d: Split) {
    && Conserves(a, b, d)
    && LongestCommonSuffix(a, b, d.suffix)
    && LongestCommonPrefix(a[..|a| - |d.suffix|], b[..|b| - |d.suffix|], d.prefix)
  }

  /**
   Two texts without markers: the end they share, as long as it can be, then the start they share before it; unless
   the left text begins the right one, which is then all of the prefix.
   */
  lemma PlainExactly(left: string, right: string)
    requires Plain(left) && Plain(right)
    ensures var d := DiffOf(left, right);
            if left <= right then d == Split(left, "", "", right[|left|..]) else TakesOutMost(left, right, d)
  {
    if left == "" {
      assert DiffOf(left, right) == Split("", "", "", right);
    } else if right == "" {
      PlainSegment(left);
      NothingShared(left);
    } else {
      PlainDiff(left, right);
      TrimWhole(left, right);
      if left <= right {
        NothingLeft(left, right);
        LeftIsPrefix(left, right, Trimmed(left, right));
      } else {
        TrimLongest(left, right);
        NoFixUp(left, right, Trimmed(left, right));
      }
    }
  }

  lemma NothingShared(left: string)
    ensures TakesOutMost(left, "", Split("", "", left, ""))
  {
  }

  lemma TrimmedConserves(a: string, b: string)
    ensures Conserves(a, b, Trimmed(a, b))
  {
    TrimWhole(a, b);
    TrimConserves(Walk(0, 0, 0, 0, false, false, "", ""), a, b, true, true);
    assert "" + a + "" == a && "" + b + "" == b;
  }

  lemma TrimLongest(a: string, b: string)
    ensures TakesOutMost(a, b, Trimmed(a, b))
  {
    TrimmedConserves(a, b);
    var s := CommonSuffix(a, b);
    SuffixIsLongest(a, b);
    PrefixIsLongest(a[..|a| - s], b[..|b| - s]);
    SlicedTwice(a, |a| - s, CommonPrefix(a[..|a| - s], b[..|b| - s]));
  }

  lemma SlicedTwice(a: string, n: nat, p: nat)
    requires p <= n <= |a|
    ensures a[..n][..p] == a[..p]
  {
  }

  lemma NoFixUp(left: string, right: string, d: Split)
    requires TakesOutMost(left, right, d) && !(left <= right)
    ensures FixUp(left, right, d) == d
  {
  }

  /** If the left text begins the right one, nothing is left of it. */
  lemma NothingLeft(left: string, right: string)
    requires left <= right
    ensures Trimmed(left, right).left == "" && (Trimmed(left, right).right == "" ==> left == right)
  {
    var s := CommonSuffix(left, right);
    var a, b := left[..|left| - s], right[..|right| - s];
    PrefixIsLongest(a, b);
    assert BeginsWith(a, a) && BeginsWith(b, a);
  }

  lemma LeftIsPrefix(left: string, right: string, d: Split)
    requires left <= right && d.left == "" && (d.right == "" ==> left == right)
    ensures FixUp(left, right, d) == Split(left, "", "", right[|left|..])
  {
  }

  // ----- the last segment of one side -----

  /** One segment on the right that both begins and ends the left text is matched at the end. */
  lemma OnlySegmentMatchesAtEnd(left: string, right: string)
    requires var l, r := Segmentize(left), Segmentize(right);
             |l| > 1 && |r| == 1 && l[0] == r[0] && l[|l| - 1] == r[0]
    ensures var l := Segmentize(left); DiffOf(left, right) == Split("", right, Concat(l[..|l| - 1]), "")
  {
    var l, r := Segmentize(left), Segmentize(right);
    SegmentsConcat(right);
    assert r == [r[0]] && Concat(r[1..]) == "";
    SegmentsWellFormed(left);
    WellFormedFilled(l);
    EndMatched(l, r);
    FilledSlice(l, 0, |l| - 1);
    assert l[0..|l| - 1] == l[..|l| - 1];
    DiffOfIs(left, right, l, r, MatchedAtEnd(l, r), Split("", r[0].value, Concat(l[..|l| - 1]), ""));
  }

  function MatchedAtEnd(l: seq<Segment>, r: seq<Segment>): Walk
    requires |l| > 1 && |r| == 1
  {
    Walk(0, |l| - 2, 0, 0, false, true, "", r[0].value)
  }

  lemma EndMatched(l: seq<Segment>, r: seq<Segment>)
    requires |l| > 1 && |r| == 1 && l[|l| - 1] == r[0]
    ensures var w := MatchedAtEnd(l, r);
            && Settled(l, r, Walked(l, r, Begin(l, r))) == w
            && Ended(l, r, w) == Split("", r[0].value, Concat(l[..|l| - 1]), "")
  {
    var begin := Begin(l, r);
    assert Walked(l, r, begin) == begin;
    SettledAtEnd(l, r, begin);
    EndedAtEnd(l, r, MatchedAtEnd(l, r));
  }

  lemma SettledAtEnd(l: seq<Segment>, r: seq<Segment>, w: Walk)
    requires |l| > 1 && |r| == 1 && l[|l| - 1] == r[0] && w == Walk(0, |l| - 1, 0, 0, false, false, "", "")
    ensures Settled(l, r, w) == MatchedAtEnd(l, r)
  {
    assert r[0].value + "" == r[0].value;
  }

  lemma EndedAtEnd(l: seq<Segment>, r: seq<Segment>, w: Walk)
    requires |l| > 1 && |r| == 1 && w == MatchedAtEnd(l, r)
    ensures Ended(l, r, w) == Split("", r[0].value, Concat(l[..|l| - 1]), "")
  {
    OneRight(r, w);
    AllButLast(l, w);
    NothingRight(l, r, w, Concat(l[..|l| - 1]));
  }

  lemma AllButLast(l: seq<Segment>, w: Walk)
    requires |l| > 1 && w.ls == 0 && w.le == |l| - 2 && !w.leftDone
    ensures RemainderLeft(l, w) == Concat(l[..|l| - 1])
  {
    assert l[0..|l| - 1] == l[..|l| - 1];
  }

  lemma NothingRight(l: seq<Segment>, r: seq<Segment>, w: Walk, a: string)
    requires InRange(l, r, w) && RemainderLeft(l, w) == a && RemainderRight(r, w) == ""
    ensures Ended(l, r, w) == Split(w.prefix, w.suffix, a, "")
  {
    TrimNothing(w, a, "", IsText(l[w.le]) && IsText(r[w.re]), IsText(r[w.rs]) && IsText(l[w.ls]));
  }

  // ----- equal texts -----

  /** On equal lists both sides move alike and end on one segment. */
  predicate Alike(w: Walk) { w.ls == w.rs && w.le == w.re && w.leftDone == w.rightDone }

  lemma {:induction false} WalkAlike(l: seq<Segment>, w: Walk)
    requires InRange(l, l, w) && Alike(w)
    ensures var w' := Walked(l, l, w); Alike(w') && w'.ls == w'.le
    decreases w.le - w.ls + w.re - w.rs
  {
    if Goes(w) { WalkAlike(l, Turned(l, l, w)); }
  }

  /** Nothing is left of two equal texts. */
  lemma EqualTexts(text: string)
    ensures DiffOf(text, text) == Split(text, "", "", "")
  {
    var l := Segmentize(text);
    SegmentsConcat(text);
    if l != [] {
      WalkAlike(l, Begin(l, l));
      EqualSettled(l, Walked(l, l, Begin(l, l)));
      EqualEnd(l, Settled(l, l, Walked(l, l, Begin(l, l))));
    }
  }

  lemma EqualSettled(l: seq<Segment>, w: Walk)
    requires InRange(l, l, w) && Alike(w) && w.ls == w.le
    ensures var w' := Settled(l, l, w); Alike(w') && w'.ls == w'.le && (!w'.leftDone ==> IsText(l[w'.le]))
  {
  }

  lemma EqualEnd(l: seq<Segment>, w: Walk)
    requires InRange(l, l, w) && Alike(w) && w.ls == w.le && (!w.leftDone ==> IsText(l[w.le]))
    ensures Ended(l, l, w).left == "" && Ended(l, l, w).right == ""
  {
    OneLeft(l, w);
    OneRight(l, w);
    TrimEqual(w, RemainderLeft(l, w), IsText(l[w.le]), IsText(l[w.ls]));
  }

  lemma TrimEqual(w: Walk, a: string, atEnd: bool, atStart: bool)
    requires a != "" ==> atEnd
    ensures var d := Trim(w, a, a, atEnd, atStart); d.left == "" && d.right == ""
  {
    CommonSuffixIs(a, a, |a|);
  }
}
