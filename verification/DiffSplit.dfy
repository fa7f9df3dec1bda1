/**
 `calculate_diff_split` (common/chat-auto-parser-helpers.cpp): comparing two rendered templates
 from both ends, segment by segment and then character by character. The result should put both
 texts back together; the lemmas say exactly when it does.
 */
module DiffSplit {
  import opened Sequences
  import opened Segments

  datatype Split = Split(prefix: string, suffix: string, left: string, right: string)

  /** The four iterators (the ends point at the last segment), the two flags, and the matched text. */
  datatype Walk = Walk(ls: nat, le: nat, rs: nat, re: nat, leftDone: bool, rightDone: bool,
                       prefix: string, suffix: string)

  predicate InRange(l: seq<Segment>, r: seq<Segment>, w: Walk) {
    w.ls <= w.le < |l| && w.rs <= w.re < |r|
  }

  predicate Goes(w: Walk) { w.ls != w.le && w.rs != w.re }

  // ----- one turn of the loop -----

  function EatPrefix(l: seq<Segment>, r: seq<Segment>, w: Walk): (w': Walk)
    requires InRange(l, r, w) && Goes(w)
    ensures InRange(l, r, w')
  {
    if l[w.ls] == r[w.rs] then w.(prefix := w.prefix + l[w.ls].value, ls := w.ls + 1, rs := w.rs + 1) else w
  }

  function EatSuffix(l: seq<Segment>, r: seq<Segment>, w: Walk): (w': Walk)
    requires InRange(l, r, w)
    ensures InRange(l, r, w')
  {
    if l[w.le] != r[w.re] then w
    else
      var w1 := w.(suffix := l[w.le].value + w.suffix);
      var w2 := if w.ls != w.le then w1.(le := w.le - 1) else w1.(leftDone := true);
      if w.rs != w.re then w2.(re := w.re - 1) else w2.(rightDone := true)
  }

  function Turned(l: seq<Segment>, r: seq<Segment>, w: Walk): (w': Walk)
    requires InRange(l, r, w) && Goes(w)
    ensures InRange(l, r, w')
  {
    EatSuffix(l, r, EatPrefix(l, r, w))
  }

  predicate Advances(l: seq<Segment>, r: seq<Segment>, w: Walk)
    requires InRange(l, r, w) && Goes(w)
  {
    l[w.ls] == r[w.rs] || (var w1 := EatPrefix(l, r, w); l[w1.le] == r[w1.re])
  }

  /** The loop: it ends because every turn that advances shortens what lies between the iterators. */
  function Walked(l: seq<Segment>, r: seq<Segment>, w: Walk): (w': Walk)
    requires InRange(l, r, w)
    ensures InRange(l, r, w')
    decreases w.le - w.ls + w.re - w.rs
  {
    if Goes(w) && Advances(l, r, w) then Walked(l, r, Turned(l, r, w)) else w
  }

  function Begin(l: seq<Segment>, r: seq<Segment>): Walk
    requires l != [] && r != []
  {
    Walk(0, |l| - 1, 0, |r| - 1, false, false, "", "")
  }

  // ----- after the loop -----

  function LastLeft(l: seq<Segment>, r: seq<Segment>, w: Walk): Walk
    requires InRange(l, r, w) && w.ls == w.le && w.rs != w.re
  {
    if l[w.ls] == r[w.re] then w.(suffix := r[w.re].value + w.suffix, re := w.re - 1, leftDone := true)
    else if l[w.ls] == r[w.rs] then w.(prefix := w.prefix + r[w.rs].value, rs := w.rs + 1, leftDone := true)
    else w
  }

  function LastRight(l: seq<Segment>, r: seq<Segment>, w: Walk): Walk
    requires InRange(l, r, w) && w.rs == w.re && w.ls != w.le
  {
    if l[w.le] == r[w.rs] then w.(suffix := l[w.le].value + w.suffix, le := w.le - 1, rightDone := true)
    else if l[w.ls] == r[w.rs] then w.(prefix := w.prefix + l[w.ls].value, ls := w.ls + 1, rightDone := true)
    else w
  }

  function LastBoth(l: seq<Segment>, r: seq<Segment>, w: Walk): Walk
    requires InRange(l, r, w)
  {
    if l[w.ls] == r[w.rs] && l[w.ls].kind.MarkerSegment? then
      w.(prefix := w.prefix + r[w.rs].value, leftDone := true, rightDone := true)
    else w
  }

  function Settled(l: seq<Segment>, r: seq<Segment>, w: Walk): (w': Walk)
    requires InRange(l, r, w)
    ensures InRange(l, r, w')
  {
    if w.ls == w.le && w.rs != w.re then LastLeft(l, r, w)
    else if w.rs == w.re && w.ls != w.le then LastRight(l, r, w)
    else if w.ls == w.le && w.rs == w.re then LastBoth(l, r, w)
    else w
  }

  function RemainderLeft(l: seq<Segment>, w: Walk): string
    requires w.ls <= w.le < |l|
  {
    Concat(l[w.ls..if w.leftDone then w.le else w.le + 1])
  }

  function RemainderRight(r: seq<Segment>, w: Walk): string
    requires w.rs <= w.re < |r|
  {
    Concat(r[w.rs..if w.rightDone then w.re else w.re + 1])
  }

  // ----- characters -----

  function CommonPrefix(a: string, b: string): (n: nat)
    ensures n <= |a| && n <= |b| && a[..n] == b[..n]
  {
    if a == "" || b == "" || a[0] != b[0] then 0
    else
      var n := CommonPrefix(a[1..], b[1..]);
      HeadGrows(a, n);
      HeadGrows(b, n);
      n + 1
  }

  lemma HeadGrows(a: string, n: nat)
    requires n < |a|
    ensures a[..n + 1] == [a[0]] + a[1..][..n]
  {
  }

  lemma {:induction false} CommonPrefixIs(a: string, b: string, n: nat)
    requires n <= |a| && n <= |b| && (forall i :: 0 <= i < n ==> a[i] == b[i])
    requires n < |a| && n < |b| ==> a[n] != b[n]
    ensures CommonPrefix(a, b) == n
    decreases n
  {
    if n > 0 { CommonPrefixIs(a[1..], b[1..], n - 1); }
  }

  method CommonPrefixLen(a: string, b: string) returns (n: nat)
    ensures n == CommonPrefix(a, b)
  {
    n := 0;
    var min := if |a| < |b| then |a| else |b|;
    while n < min && a[n] == b[n]
      invariant n <= min && forall i :: 0 <= i < n ==> a[i] == b[i]
    {
      n := n + 1;
    }
    CommonPrefixIs(a, b, n);
  }

  function CommonSuffix(a: string, b: string): (n: nat)
    ensures n <= |a| && n <= |b| && a[|a| - n..] == b[|b| - n..]
  {
    if a == "" || b == "" || a[|a| - 1] != b[|b| - 1] then 0
    else
      var n := CommonSuffix(a[..|a| - 1], b[..|b| - 1]);
      TailGrows(a, n);
      TailGrows(b, n);
      n + 1
  }

  lemma TailGrows(a: string, n: nat)
    requires n < |a|
    ensures a[|a| - (n + 1)..] == a[..|a| - 1][|a| - 1 - n..] + [a[|a| - 1]]
  {
  }

  predicate SameTail(a: string, b: string, n: nat) {
    n <= |a| && n <= |b| && a[|a| - n..] == b[|b| - n..]
  }

  lemma PeelLast(a: string, b: string, n: nat)
    requires SameTail(a, b, n + 1)
    ensures a[|a| - 1] == b[|b| - 1] && SameTail(a[..|a| - 1], b[..|b| - 1], n)
  {
    TailGrows(a, n);
    TailGrows(b, n);
    SameSnoc(a[..|a| - 1][|a| - 1 - n..], a[|a| - 1], b[..|b| - 1][|b| - 1 - n..], b[|b| - 1]);
  }

  lemma SuffixStep(a: string, b: string)
    requires a != "" && b != "" && a[|a| - 1] == b[|b| - 1]
    ensures CommonSuffix(a, b) == 1 + CommonSuffix(a[..|a| - 1], b[..|b| - 1])
  {
  }

  /** Of two texts with `n` common last characters, the ones before differ, if both have one. */
  predicate Differ(a: string, b: string, n: nat) {
    n < |a| && n < |b| ==> a[|a| - (n + 1)] != b[|b| - (n + 1)]
  }

  lemma {:induction false} CommonSuffixIs(a: string, b: string, n: nat)
    requires SameTail(a, b, n) && Differ(a, b, n)
    ensures CommonSuffix(a, b) == n
    decreases n
  {
    if n > 0 {
      PeelLast(a, b, n - 1);
      DifferPeeled(a, b, n - 1);
      CommonSuffixIs(a[..|a| - 1], b[..|b| - 1], n - 1);
      SuffixStep(a, b);
    } else {
      NoSuffix(a, b);
    }
  }

  lemma NoSuffix(a: string, b: string)
    requires Differ(a, b, 0)
    ensures CommonSuffix(a, b) == 0
  {
    if a != "" && b != "" { assert a[|a| - 1] != b[|b| - 1]; }
  }

  lemma DifferPeeled(a: string, b: string, n: nat)
    requires n < |a| && n < |b| && Differ(a, b, n + 1)
    ensures Differ(a[..|a| - 1], b[..|b| - 1], n)
  {
  }

  lemma SameSnoc(x: string, c: char, y: string, d: char)
    requires x + [c] == y + [d]
    ensures x == y && c == d
  {
    assert |x + [c]| == |y + [d]|;
    assert x == (x + [c])[..|x|] && y == (y + [d])[..|x|];
    assert c == (x + [c])[|x|] && d == (y + [d])[|x|];
  }

  method CommonSuffixLen(a: string, b: string) returns (n: nat)
    ensures n == CommonSuffix(a, b)
  {
    n := 0;
    var min := if |a| < |b| then |a| else |b|;
    while n < min && a[|a| - 1 - n] == b[|b| - 1 - n]
      invariant n <= min && a[|a| - n..] == b[|b| - n..]
    {
      assert a[|a| - (n + 1)..] == [a[|a| - 1 - n]] + a[|a| - n..];
      assert b[|b| - (n + 1)..] == [b[|b| - 1 - n]] + b[|b| - n..];
      n := n + 1;
    }
    CommonSuffixIs(a, b, n);
  }

  /** The text-level trim of the two remainders: how much is shared at the end, then at the start. */
  function Trim(w: Walk, a: string, b: string, atEnd: bool, atStart: bool): Split {
    var s := if atEnd then CommonSuffix(a, b) else 0;
    var p := if atStart then CommonPrefix(a[..|a| - s], b[..|b| - s]) else 0;
    Split(w.prefix + a[..p], a[|a| - s..] + w.suffix, a[p..|a| - s], b[p..|b| - s])
  }

  function FixUp(left: string, right: string, d: Split): Split {
    var d := if d.left == "" && d.right == "" then d.(prefix := left, suffix := "") else d;
    if d.left == "" && d.right != "" && left <= right then d.(prefix := left, suffix := "", right := right[|left|..])
    else d
  }

  predicate IsText(s: Segment) { s.kind.TextSegment? }

  function Ended(l: seq<Segment>, r: seq<Segment>, w: Walk): Split
    requires InRange(l, r, w)
  {
    Trim(w, RemainderLeft(l, w), RemainderRight(r, w), IsText(l[w.le]) && IsText(r[w.re]),
         IsText(r[w.rs]) && IsText(l[w.ls]))
  }

  function DiffOf(left: string, right: string): Split {
    var l, r := Segmentize(left), Segmentize(right);
    if l == [] then Split("", "", "", right)
    else if r == [] then Split("", "", left, "")
    else FixUp(left, right, Ended(l, r, Settled(l, r, Walked(l, r, Begin(l, r)))))
  }

  // ----- the imperative original -----

  method CalculateDiffSplit(left: string, right: string) returns (d: Split)
    ensures d == DiffOf(left, right)
  {
    var l := SegmentizeMarkers(left);
    var r := SegmentizeMarkers(right);
    if l == [] { return Split("", "", "", right); }
    if r == [] { return Split("", "", left, ""); }
    var w := WalkEnds(l, r);
    w := SettleEnds(l, r, w);
    d := Compare(l, r, w);
    d := Represent(left, right, d);
  }

  /** What is left of the two texts, compared character by character. */
  method Compare(l: seq<Segment>, r: seq<Segment>, w: Walk) returns (d: Split)
    requires InRange(l, r, w)
    ensures d == Ended(l, r, w)
  {
    var a := Accumulate(l, w.ls, if w.leftDone then w.le else w.le + 1);
    var b := Accumulate(r, w.rs, if w.rightDone then w.re else w.re + 1);
    d := TrimText(w, a, b, IsText(l[w.le]) && IsText(r[w.re]), IsText(r[w.rs]) && IsText(l[w.ls]));
  }

  /** The branches after the loop. */
  method SettleEnds(l: seq<Segment>, r: seq<Segment>, w: Walk) returns (w': Walk)
    requires InRange(l, r, w)
    ensures w' == Settled(l, r, w) && InRange(l, r, w')
  {
    w' := w;
    if w.ls == w.le && w.rs != w.re {
      if l[w.ls] == r[w.re] {
        w' := w'.(suffix := r[w.re].value + w.suffix, re := w.re - 1, leftDone := true);
      } else if l[w.ls] == r[w.rs] {
        w' := w'.(prefix := w.prefix + r[w.rs].value, rs := w.rs + 1, leftDone := true);
      }
    } else if w.rs == w.re && w.ls != w.le {
      if l[w.le] == r[w.rs] {
        w' := w'.(suffix := l[w.le].value + w.suffix, le := w.le - 1, rightDone := true);
      } else if l[w.ls] == r[w.rs] {
        w' := w'.(prefix := w.prefix + l[w.ls].value, ls := w.ls + 1, rightDone := true);
      }
    } else if w.ls == w.le && w.rs == w.re && l[w.ls] == r[w.rs] && l[w.ls].kind.MarkerSegment? {
      w' := w'.(prefix := w.prefix + r[w.rs].value, leftDone := true, rightDone := true);
    }
  }

  /** `std::accumulate` over the segments from `i` to `j`. */
  method Accumulate(s: seq<Segment>, i: nat, j: nat) returns (text: string)
    requires i <= j <= |s|
    ensures text == Concat(s[i..j])
  {
    text := "";
    var k := i;
    while k < j
      invariant i <= k <= j && text == Concat(s[i..k])
    {
      ConcatSnoc(s, i, k);
      text := text + s[k].value;
      k := k + 1;
    }
  }

  lemma ConcatSnoc(s: seq<Segment>, i: nat, k: nat)
    requires i <= k < |s|
    ensures Concat(s[i..k + 1]) == Concat(s[i..k]) + s[k].value
  {
    assert s[i..k + 1] == s[i..k] + [s[k]];
    ConcatAppend(s[i..k], [s[k]]);
    assert [s[k]][1..] == [];
  }

  /** The degenerate case, and a left text that is the start of the right one. */
  method Represent(left: string, right: string, d: Split) returns (d': Split)
    ensures d' == FixUp(left, right, d)
  {
    d' := d;
    if d'.left == "" && d'.right == "" {
      d' := d'.(prefix := left, suffix := "");
    }
    if d'.left == "" && d'.right != "" && |left| <= |right| && right[..|left|] == left {
      d' := d'.(prefix := left, suffix := "", right := right[|left|..]);
    }
  }

  method TrimText(w: Walk, a: string, b: string, atEnd: bool, atStart: bool) returns (d: Split)
    ensures d == Trim(w, a, b, atEnd, atStart)
  {
    var s, p := 0, 0;
    if atEnd { s := CommonSuffixLen(a, b); }
    if atStart { p := CommonPrefixLen(a[..|a| - s], b[..|b| - s]); }
    d := Split(w.prefix + a[..p], a[|a| - s..] + w.suffix, a[p..|a| - s], b[p..|b| - s]);
  }

  /** The loop over the four iterators and the two flags. */
  method WalkEnds(l: seq<Segment>, r: seq<Segment>) returns (w: Walk)
    requires l != [] && r != []
    ensures w == Walked(l, r, Begin(l, r))
    ensures InRange(l, r, w)
  {
    w := Begin(l, r);
    var advanced := true;
    ghost var end := Walked(l, r, w);
    while Goes(w) && advanced
      invariant InRange(l, r, w)
      invariant end == if advanced then Walked(l, r, w) else w
      decreases w.le - w.ls + w.re - w.rs, advanced
    {
      w, advanced := TurnEnds(l, r, w);
    }
  }

  /** One turn of the loop. */
  method TurnEnds(l: seq<Segment>, r: seq<Segment>, w: Walk) returns (w': Walk, advanced: bool)
    requires InRange(l, r, w) && Goes(w)
    ensures advanced == Advances(l, r, w) && w' == if advanced then Turned(l, r, w) else w
    ensures InRange(l, r, w')
    ensures advanced ==> w'.le - w'.ls + w'.re - w'.rs < w.le - w.ls + w.re - w.rs
  {
    w', advanced := w, false;
    if l[w.ls] == r[w.rs] {
      w' := w'.(prefix := w'.prefix + l[w.ls].value, ls := w.ls + 1, rs := w.rs + 1);
      advanced := true;
    }
    if l[w.le] == r[w.re] {
      w' := w'.(suffix := l[w.le].value + w'.suffix);
      var atLeft, atRight := w'.ls == w'.le, w'.rs == w'.re;
      if atLeft { w' := w'.(leftDone := true); } else { w' := w'.(le := w'.le - 1); }
      if atRight { w' := w'.(rightDone := true); } else { w' := w'.(re := w'.re - 1); }
      advanced := true;
    }
  }

  // ----- conservation -----

  /** Both texts can be put back together from what was matched and what is left. */
  predicate Balanced(l: seq<Segment>, r: seq<Segment>, left: string, right: string, w: Walk)
    requires InRange(l, r, w)
  {
    && w.prefix + RemainderLeft(l, w) + w.suffix == left
    && w.prefix + RemainderRight(r, w) + w.suffix == right
  }

  predicate Conserves(left: string, right: string, d: Split) {
    d.prefix + d.left + d.suffix == left && d.prefix + d.right + d.suffix == right
  }

  lemma DropFirst(l: seq<Segment>, i: nat, j: nat, p: string, s: string)
    requires i < j <= |l|
    ensures p + Concat(l[i..j]) + s == (p + l[i].value) + Concat(l[i + 1..j]) + s
  {
    assert l[i..j] == [l[i]] + l[i + 1..j];
    ConcatAppend([l[i]], l[i + 1..j]);
    assert [l[i]][1..] == [];
  }

  lemma DropLast(l: seq<Segment>, i: nat, j: nat, p: string, s: string)
    requires i < j <= |l|
    ensures p + Concat(l[i..j]) + s == p + Concat(l[i..j - 1]) + (l[j - 1].value + s)
  {
    assert l[i..j] == l[i..j - 1] + [l[j - 1]];
    ConcatAppend(l[i..j - 1], [l[j - 1]]);
    assert [l[j - 1]][1..] == [];
  }

  lemma PrefixBalanced(l: seq<Segment>, r: seq<Segment>, left: string, right: string, w: Walk)
    requires InRange(l, r, w) && Goes(w) && !w.leftDone && !w.rightDone && Balanced(l, r, left, right, w)
    ensures Balanced(l, r, left, right, EatPrefix(l, r, w))
  {
    DropFirst(l, w.ls, w.le + 1, w.prefix, w.suffix);
    DropFirst(r, w.rs, w.re + 1, w.prefix, w.suffix);
  }

  lemma SuffixBalanced(l: seq<Segment>, r: seq<Segment>, left: string, right: string, w: Walk)
    requires InRange(l, r, w) && !w.leftDone && !w.rightDone && Balanced(l, r, left, right, w)
    ensures Balanced(l, r, left, right, EatSuffix(l, r, w))
  {
    if l[w.le] == r[w.re] {
      SideKept(l, w.ls, w.le, w.prefix, w.suffix);
      SideKept(r, w.rs, w.re, w.prefix, w.suffix);
    }
  }

  /** On one side: the end moves before the matched segment, or the flag leaves it out. */
  lemma SideKept(l: seq<Segment>, i: nat, j: nat, p: string, s: string)
    requires i <= j < |l|
    ensures i == j ==> p + Concat(l[i..j + 1]) + s == p + Concat(l[i..j]) + (l[j].value + s)
    ensures i != j ==> p + Concat(l[i..j + 1]) + s == p + Concat(l[i..(j - 1) + 1]) + (l[j].value + s)
  {
    DropLast(l, i, j + 1, p, s);
  }

  /** A flag is only ever set when its side is down to one segment, which was just matched. */
  predicate FlagsSound(w: Walk) { (w.leftDone ==> w.ls == w.le) && (w.rightDone ==> w.rs == w.re) }

  lemma {:induction false} WalkBalanced(l: seq<Segment>, r: seq<Segment>, left: string, right: string, w: Walk)
    requires InRange(l, r, w) && FlagsSound(w) && Balanced(l, r, left, right, w)
    ensures var w' := Walked(l, r, w); FlagsSound(w') && Balanced(l, r, left, right, w')
    decreases w.le - w.ls + w.re - w.rs
  {
    if Goes(w) && Advances(l, r, w) {
      PrefixBalanced(l, r, left, right, w);
      SuffixBalanced(l, r, left, right, EatPrefix(l, r, w));
      WalkBalanced(l, r, left, right, Turned(l, r, w));
    }
  }

  // ----- the branches after the loop -----

  /** A branch after the loop matches a segment on its left that a flag says was matched before. */
  predicate LeftAgain(l: seq<Segment>, r: seq<Segment>, w: Walk)
    requires InRange(l, r, w)
  {
    w.leftDone && w.ls == w.le && w.rs != w.re && (l[w.ls] == r[w.re] || l[w.ls] == r[w.rs])
  }

  /** The same on the right. */
  predicate RightAgain(l: seq<Segment>, r: seq<Segment>, w: Walk)
    requires InRange(l, r, w)
  {
    w.rightDone && w.rs == w.re && w.ls != w.le && (l[w.le] == r[w.rs] || l[w.ls] == r[w.rs])
  }

  /** Exactly one side was used up, and its last segment equals the one marker left on the other. */
  predicate MarkerAgain(l: seq<Segment>, r: seq<Segment>, w: Walk)
    requires InRange(l, r, w)
  {
    && w.leftDone != w.rightDone && w.ls == w.le && w.rs == w.re
    && l[w.ls] == r[w.rs] && l[w.ls].kind.MarkerSegment?
  }

  predicate BothMarkers(l: seq<Segment>, r: seq<Segment>, w: Walk)
    requires InRange(l, r, w)
  {
    w.ls == w.le && w.rs == w.re && l[w.ls] == r[w.rs] && l[w.ls].kind.MarkerSegment?
  }

  predicate LeftHolds(l: seq<Segment>, left: string, w: Walk)
    requires w.ls <= w.le < |l|
  {
    w.prefix + RemainderLeft(l, w) + w.suffix == left
  }

  predicate RightHolds(r: seq<Segment>, right: string, w: Walk)
    requires w.rs <= w.re < |r|
  {
    w.prefix + RemainderRight(r, w) + w.suffix == right
  }

  lemma OneLeft(l: seq<Segment>, w: Walk)
    requires w.ls == w.le < |l|
    ensures RemainderLeft(l, w) == if w.leftDone then "" else l[w.ls].value
  {
    DropFirst(l, w.ls, w.ls + 1, "", "");
  }

  lemma OneRight(r: seq<Segment>, w: Walk)
    requires w.rs == w.re < |r|
    ensures RemainderRight(r, w) == if w.rightDone then "" else r[w.rs].value
  {
    DropFirst(r, w.rs, w.rs + 1, "", "");
  }

  lemma LastLeftRight(l: seq<Segment>, r: seq<Segment>, right: string, w: Walk)
    requires InRange(l, r, w) && w.ls == w.le && w.rs != w.re && !w.rightDone
    requires RightHolds(r, right, w)
    ensures RightHolds(r, right, LastLeft(l, r, w))
  {
    SideShrinks(r, w.rs, w.re, w.prefix, w.suffix);
  }

  /** On one side: a segment taken from the end, or from the start. */
  lemma SideShrinks(r: seq<Segment>, i: nat, j: nat, p: string, s: string)
    requires i < j < |r|
    ensures p + Concat(r[i..j + 1]) + s == p + Concat(r[i..(j - 1) + 1]) + (r[j].value + s)
    ensures p + Concat(r[i..j + 1]) + s == (p + r[i].value) + Concat(r[i + 1..j + 1]) + s
  {
    DropLast(r, i, j + 1, p, s);
    DropFirst(r, i, j + 1, p, s);
  }

  lemma LastRightLeft(l: seq<Segment>, r: seq<Segment>, left: string, w: Walk)
    requires InRange(l, r, w) && w.rs == w.re && w.ls != w.le && !w.leftDone
    requires LeftHolds(l, left, w)
    ensures LeftHolds(l, left, LastRight(l, r, w))
  {
    SideShrinks(l, w.ls, w.le, w.prefix, w.suffix);
  }

  lemma LastLeftLeft(l: seq<Segment>, r: seq<Segment>, left: string, w: Walk)
    requires InRange(l, r, w) && w.ls == w.le && w.rs != w.re && !w.leftDone
    requires LeftHolds(l, left, w)
    ensures LeftHolds(l, left, LastLeft(l, r, w))
  {
    OneLeft(l, w);
    OneLeft(l, LastLeft(l, r, w));
  }

  lemma LastRightRight(l: seq<Segment>, r: seq<Segment>, right: string, w: Walk)
    requires InRange(l, r, w) && w.rs == w.re && w.ls != w.le && !w.rightDone
    requires RightHolds(r, right, w)
    ensures RightHolds(r, right, LastRight(l, r, w))
  {
    OneRight(r, w);
    OneRight(r, LastRight(l, r, w));
  }

  lemma LastBothHolds(l: seq<Segment>, r: seq<Segment>, left: string, right: string, w: Walk)
    requires InRange(l, r, w) && w.ls == w.le && w.rs == w.re && !w.leftDone && !w.rightDone
    requires LeftHolds(l, left, w) && RightHolds(r, right, w)
    ensures LeftHolds(l, left, LastBoth(l, r, w)) && RightHolds(r, right, LastBoth(l, r, w))
  {
    LastBothLeft(l, r, left, w);
    LastBothRight(l, r, right, w);
  }

  lemma LastBothLeft(l: seq<Segment>, r: seq<Segment>, left: string, w: Walk)
    requires InRange(l, r, w) && w.ls == w.le && w.rs == w.re && !w.leftDone && LeftHolds(l, left, w)
    ensures LeftHolds(l, left, LastBoth(l, r, w))
  {
    OneLeft(l, w);
    OneLeft(l, LastBoth(l, r, w));
  }

  lemma LastBothRight(l: seq<Segment>, r: seq<Segment>, right: string, w: Walk)
    requires InRange(l, r, w) && w.ls == w.le && w.rs == w.re && !w.rightDone && RightHolds(r, right, w)
    ensures RightHolds(r, right, LastBoth(l, r, w))
  {
    OneRight(r, w);
    OneRight(r, LastBoth(l, r, w));
  }

  /** Without a second match of the same segment, the branches after the loop keep the balance. */
  lemma SettledBalanced(l: seq<Segment>, r: seq<Segment>, left: string, right: string, w: Walk)
    requires InRange(l, r, w) && FlagsSound(w) && LeftHolds(l, left, w) && RightHolds(r, right, w)
    requires !LeftAgain(l, r, w) && !RightAgain(l, r, w)
    requires BothMarkers(l, r, w) ==> !w.leftDone && !w.rightDone
    ensures LeftHolds(l, left, Settled(l, r, w)) && RightHolds(r, right, Settled(l, r, w))
  {
    if w.ls == w.le && w.rs != w.re {
      if w.leftDone { assert LastLeft(l, r, w) == w; } else { LastLeftLeft(l, r, left, w); }
      LastLeftRight(l, r, right, w);
    } else if w.rs == w.re && w.ls != w.le {
      if w.rightDone { assert LastRight(l, r, w) == w; } else { LastRightRight(l, r, right, w); }
      LastRightLeft(l, r, left, w);
    } else if BothMarkers(l, r, w) {
      LastBothHolds(l, r, left, right, w);
    }
  }

  // ----- the trim and the two final fix-ups -----

  lemma Rejoin(p: string, a: string, i: nat, s: nat, q: string)
    requires i + s <= |a|
    ensures (p + a[..i]) + a[i..|a| - s] + (a[|a| - s..] + q) == p + a + q
  {
    var x, y, z := a[..i], a[i..|a| - s], a[|a| - s..];
    assert a == x + y + z;
    Associate(p + x, y, z + q);
    Associate(p, x, y + (z + q));
    Associate(y, z, q);
    Associate(x, y, z);
    Associate(x, y + z, q);
    Associate(p, a, q);
  }

  lemma {:induction false} TrimConserves(w: Walk, a: string, b: string, atEnd: bool, atStart: bool)
    ensures var d := Trim(w, a, b, atEnd, atStart);
            && d.prefix + d.left + d.suffix == w.prefix + a + w.suffix
            && d.prefix + d.right + d.suffix == w.prefix + b + w.suffix
  {
    var s := if atEnd then CommonSuffix(a, b) else 0;
    var p := if atStart then CommonPrefix(a[..|a| - s], b[..|b| - s]) else 0;
    assert a[..p] == b[..p] by {
      assert a[..p] == a[..|a| - s][..p] && b[..p] == b[..|b| - s][..p];
    }
    Rejoin(w.prefix, a, p, s, w.suffix);
    Rejoin(w.prefix, b, p, s, w.suffix);
  }

  lemma TrimNothing(w: Walk, a: string, b: string, atEnd: bool, atStart: bool)
    requires a == "" || b == ""
    ensures Trim(w, a, b, atEnd, atStart) == Split(w.prefix, w.suffix, a, b)
  {
    assert a[..|a|] == a && b[..|b|] == b && a[0..] == a && b[0..] == b;
  }

  lemma FixUpKeeps(left: string, right: string, d: Split)
    requires Conserves(left, right, d)
    ensures Conserves(left, right, FixUp(left, right, d))
  {
  }

  lemma FixUpLeftLong(left: string, right: string, d: Split)
    requires d.left == "" && d.right != "" && d.prefix + d.left + d.suffix != left
    ensures Conserves(left, right, FixUp(left, right, d)) <==> left <= right
  {
    assert left <= right ==> left + right[|left|..] == right;
  }

  lemma FixUpRightLong(left: string, right: string, d: Split)
    requires d.left != "" && d.prefix + d.right + d.suffix != right
    ensures !Conserves(left, right, FixUp(left, right, d))
  {
  }

  lemma FixUpNothingLeft(left: string, right: string, d: Split)
    requires d.left == "" && d.right == ""
    ensures Conserves(left, right, FixUp(left, right, d)) <==> left == right
  {
  }

  // ----- segments are never empty -----

  predicate Filled(l: seq<Segment>) { forall i :: 0 <= i < |l| ==> l[i].value != "" }

  lemma {:induction false} WellFormedFilled(l: seq<Segment>)
    requires WellFormed(l)
    ensures Filled(l)
    decreases |l|
  {
    if l != [] {
      WellFormedNonEmpty(l);
      if WellFormed(l[1..]) {
        WellFormedFilled(l[1..]);
        assert forall i :: 1 <= i < |l| ==> l[i] == l[1..][i - 1];
      }
    }
  }

  lemma FilledSlice(l: seq<Segment>, i: nat, j: nat)
    requires Filled(l) && i < j <= |l|
    ensures Concat(l[i..j]) != ""
  {
    DropFirst(l, i, j, "", "");
  }

  // ----- what a second match does -----

  lemma LeftAgainExactly(l: seq<Segment>, r: seq<Segment>, left: string, right: string, w: Walk)
    requires InRange(l, r, w) && FlagsSound(w) && LeftHolds(l, left, w) && Filled(l) && Filled(r)
    requires LeftAgain(l, r, w)
    ensures Conserves(left, right, FixUp(left, right, Ended(l, r, Settled(l, r, w)))) <==> left <= right
  {
    var w' := Settled(l, r, w);
    OneLeft(l, w);
    OneLeft(l, w');
    FilledSlice(r, w'.rs, w'.re + 1);
    var a, b := RemainderLeft(l, w'), RemainderRight(r, w');
    TrimNothing(w', a, b, IsText(l[w'.le]) && IsText(r[w'.re]), IsText(r[w'.rs]) && IsText(l[w'.ls]));
    assert |w'.prefix + w'.suffix| == |w.prefix + w.suffix| + |l[w.ls].value|;
    FixUpLeftLong(left, right, Ended(l, r, w'));
  }

  lemma RightAgainLoses(l: seq<Segment>, r: seq<Segment>, left: string, right: string, w: Walk)
    requires InRange(l, r, w) && FlagsSound(w) && RightHolds(r, right, w) && Filled(l) && Filled(r)
    requires RightAgain(l, r, w)
    ensures !Conserves(left, right, FixUp(left, right, Ended(l, r, Settled(l, r, w))))
  {
    var w' := Settled(l, r, w);
    OneRight(r, w);
    OneRight(r, w');
    FilledSlice(l, w'.ls, w'.le + 1);
    var a, b := RemainderLeft(l, w'), RemainderRight(r, w');
    TrimNothing(w', a, b, IsText(l[w'.le]) && IsText(r[w'.re]), IsText(r[w'.rs]) && IsText(l[w'.ls]));
    assert |w'.prefix + w'.suffix| == |w.prefix + w.suffix| + |r[w.rs].value|;
    FixUpRightLong(left, right, Ended(l, r, w'));
  }

  lemma BothMarkersExactly(l: seq<Segment>, r: seq<Segment>, left: string, right: string, w: Walk)
    requires InRange(l, r, w) && LeftHolds(l, left, w) && RightHolds(r, right, w) && Filled(l)
    requires BothMarkers(l, r, w) && (w.leftDone || w.rightDone)
    ensures Conserves(left, right, FixUp(left, right, Ended(l, r, Settled(l, r, w)))) <==> w.leftDone == w.rightDone
  {
    var w' := Settled(l, r, w);
    OneLeft(l, w);
    OneRight(r, w);
    OneLeft(l, w');
    OneRight(r, w');
    assert Ended(l, r, w') == Trim(w', "", "", false, false);
    TrimNothing(w', "", "", false, false);
    assert w.leftDone != w.rightDone ==> |left| != |right|;
    FixUpNothingLeft(left, right, Ended(l, r, w'));
  }

  /** Where the loop of `calculate_diff_split` stops. */
  function LoopEnd(left: string, right: string): Walk
    requires Segmentize(left) != [] && Segmentize(right) != []
  {
    Walked(Segmentize(left), Segmentize(right), Begin(Segmentize(left), Segmentize(right)))
  }

  lemma LoopHolds(l: seq<Segment>, r: seq<Segment>, left: string, right: string)
    requires l != [] && r != [] && Concat(l) == left && Concat(r) == right
    ensures var w := Walked(l, r, Begin(l, r));
            InRange(l, r, w) && FlagsSound(w) && LeftHolds(l, left, w) && RightHolds(r, right, w)
  {
    assert l[0..|l|] == l && r[0..|r|] == r;
    WalkBalanced(l, r, left, right, Begin(l, r));
  }

  lemma LoopEndHolds(left: string, right: string)
    requires Segmentize(left) != [] && Segmentize(right) != []
    ensures var l, r, w := Segmentize(left), Segmentize(right), LoopEnd(left, right);
            InRange(l, r, w) && FlagsSound(w) && LeftHolds(l, left, w) && RightHolds(r, right, w)
  {
    SegmentsConcat(left);
    SegmentsConcat(right);
    LoopHolds(Segmentize(left), Segmentize(right), left, right);
  }

  predicate MatchedAgain(l: seq<Segment>, r: seq<Segment>, w: Walk)
    requires InRange(l, r, w)
  {
    LeftAgain(l, r, w) || RightAgain(l, r, w) || MarkerAgain(l, r, w)
  }

  lemma EndedConserves(l: seq<Segment>, r: seq<Segment>, left: string, right: string, w: Walk)
    requires InRange(l, r, w) && LeftHolds(l, left, w) && RightHolds(r, right, w)
    ensures Conserves(left, right, FixUp(left, right, Ended(l, r, w)))
  {
    TrimConserves(w, RemainderLeft(l, w), RemainderRight(r, w),
                  IsText(l[w.le]) && IsText(r[w.re]), IsText(r[w.rs]) && IsText(l[w.ls]));
    FixUpKeeps(left, right, Ended(l, r, w));
  }

  lemma WalkExactly(l: seq<Segment>, r: seq<Segment>, left: string, right: string, w: Walk)
    requires InRange(l, r, w) && FlagsSound(w) && LeftHolds(l, left, w) && RightHolds(r, right, w)
    requires Filled(l) && Filled(r)
    ensures Conserves(left, right, FixUp(left, right, Ended(l, r, Settled(l, r, w))))
            <==> !MatchedAgain(l, r, w) || (LeftAgain(l, r, w) && left <= right)
  {
    if LeftAgain(l, r, w) {
      LeftAgainExactly(l, r, left, right, w);
    } else if RightAgain(l, r, w) {
      RightAgainLoses(l, r, left, right, w);
    } else if BothMarkers(l, r, w) && (w.leftDone || w.rightDone) {
      BothMarkersExactly(l, r, left, right, w);
    } else {
      SettledBalanced(l, r, left, right, w);
      EndedConserves(l, r, left, right, Settled(l, r, w));
    }
  }

  /**
   Exactly when the split puts both texts back together: no branch after the loop matches a segment
   again, or the left text is a prefix of the right one and the final fix-up repairs the damage.
   */
  lemma ConservedExactly(left: string, right: string)
    ensures Conserves(left, right, DiffOf(left, right)) <==>
            || Segmentize(left) == [] || Segmentize(right) == []
            || (var l, r, w := Segmentize(left), Segmentize(right), LoopEnd(left, right);
                !MatchedAgain(l, r, w) || (LeftAgain(l, r, w) && left <= right))
  {
    var l, r := Segmentize(left), Segmentize(right);
    SegmentsConcat(left);
    SegmentsConcat(right);
    if l != [] && r != [] {
      SegmentsWellFormed(left);
      SegmentsWellFormed(right);
      WellFormedFilled(l);
      WellFormedFilled(r);
      LoopEndHolds(left, right);
      WalkExactly(l, r, left, right, LoopEnd(left, right));
    }
  }

  /** Conservation whenever the loop ends with both sides used up, or neither. */
  lemma ConservedWhenFlagsAgree(left: string, right: string)
    requires Segmentize(left) != [] && Segmentize(right) != []
    requires LoopEnd(left, right).leftDone == LoopEnd(left, right).rightDone
    ensures Conserves(left, right, DiffOf(left, right))
  {
    LoopEndHolds(left, right);
    ConservedExactly(left, right);
  }

  /** Had the branches after the loop looked at the flags first, every pair of texts would be conserved. */
  lemma GuardedAlwaysConserves(left: string, right: string)
    requires Segmentize(left) != [] && Segmentize(right) != []
    ensures var l, r, w := Segmentize(left), Segmentize(right), LoopEnd(left, right);
            var end := if w.leftDone || w.rightDone then w else Settled(l, r, w);
            Conserves(left, right, FixUp(left, right, Ended(l, r, end)))
  {
    var l, r, w := Segmentize(left), Segmentize(right), LoopEnd(left, right);
    LoopEndHolds(left, right);
    if !w.leftDone && !w.rightDone { SettledBalanced(l, r, left, right, w); }
    EndedConserves(l, r, left, right, if w.leftDone || w.rightDone then w else Settled(l, r, w));
  }

  lemma ShortMarker(m: string)
    requires |m| == 3 && m[0] == '<' && m[1] != '>' && m[2] == '>'
    ensures IsMarker(m)
  {
    FirstCloserIs('<', m, 2);
  }

  lemma OneMarker(a: Segment)
    requires a.kind == MarkerSegment && IsMarker(a.value)
    ensures WellFormed([a]) && Concat([a]) == a.value
  {
    assert [a][1..] == [];
  }

  lemma TwoMarkers(a: Segment, b: Segment, text: string)
    requires a.kind == MarkerSegment && IsMarker(a.value) && b.kind == MarkerSegment && IsMarker(b.value)
    requires a.value + b.value == text
    ensures Segmentize(text) == [a, b] && WellFormed([a, b]) && Concat([a, b]) == text
  {
    OneMarker(b);
    assert [a, b][1..] == [b];
    SegmentsOfConcat([a, b]);
  }

  lemma ThreeMarkers(a: Segment, b: Segment, c: Segment, text: string)
    requires a.kind == MarkerSegment && IsMarker(a.value)
    requires b.kind == MarkerSegment && IsMarker(b.value) && c.kind == MarkerSegment && IsMarker(c.value)
    requires a.value + b.value + c.value == text
    ensures Segmentize(text) == [a, b, c]
  {
    TwoMarkers(b, c, b.value + c.value);
    assert [a, b, c][1..] == [b, c];
    assert text == a.value + (b.value + c.value);
    SegmentsOfConcat([a, b, c]);
  }

  lemma LostWalk(a: Segment, b: Segment)
    requires a != b && b.kind == MarkerSegment
    ensures var l, r := [a, b], [a, b, b];
            Settled(l, r, Walked(l, r, Begin(l, r))) == Walk(1, 1, 1, 1, true, true, a.value + b.value, b.value)
  {
    var l, r := [a, b], [a, b, b];
    var w := Turned(l, r, Begin(l, r));
    assert w == Walk(1, 1, 1, 1, true, false, a.value, b.value);
    assert Walked(l, r, w) == w;
  }

  lemma LostEnd(a: Segment, b: Segment, w: Walk)
    requires a.kind == MarkerSegment && b.kind == MarkerSegment
    requires w == Walk(1, 1, 1, 1, true, true, a.value + b.value, b.value)
    ensures Ended([a, b], [a, b, b], w) == Split(a.value + b.value, b.value, "", "")
  {
    OneLeft([a, b], w);
    OneRight([a, b, b], w);
    assert Ended([a, b], [a, b, b], w) == Trim(w, "", "", false, false);
    TrimNothing(w, "", "", false, false);
  }

  lemma DiffOfIs(left: string, right: string, l: seq<Segment>, r: seq<Segment>, w: Walk, d: Split)
    requires Segmentize(left) == l && Segmentize(right) == r && l != [] && r != [] && InRange(l, r, w)
    requires Settled(l, r, Walked(l, r, Begin(l, r))) == w && Ended(l, r, w) == d
    ensures DiffOf(left, right) == FixUp(left, right, d)
  {
  }

  lemma LostDiff(a: Segment, b: Segment, left: string, right: string)
    requires a != b && a.kind == MarkerSegment && IsMarker(a.value) && b.kind == MarkerSegment && IsMarker(b.value)
    requires left == a.value + b.value && right == a.value + b.value + b.value
    ensures DiffOf(left, right) == Split(left, "", "", "") && !Conserves(left, right, DiffOf(left, right))
  {
    TwoMarkers(a, b, left);
    ThreeMarkers(a, b, b, right);
    LostWalk(a, b);
    var w := Walk(1, 1, 1, 1, true, true, a.value + b.value, b.value);
    LostEnd(a, b, w);
    DiffOfIs(left, right, [a, b], [a, b, b], w, Split(left, b.value, "", ""));
  }

  /** `<a><b>` against `<a><b><b>`: the extra `<b>` is in neither part of the result. */
  lemma ExtraMarkerIsLost()
    ensures var left, right := "<a><b>", "<a><b><b>";
            DiffOf(left, right) == Split(left, "", "", "") && !Conserves(left, right, DiffOf(left, right))
  {
    var a, b := Segment(MarkerSegment, "<a>"), Segment(MarkerSegment, "<b>");
    var left, right := "<a><b>", "<a><b><b>";
    ShortMarker("<a>");
    ShortMarker("<b>");
    assert left == a.value + b.value && right == a.value + b.value + b.value;
    LostDiff(a, b, left, right);
  }
}
