/**
 `segmentize_markers` (common/chat-auto-parser-helpers.cpp): cutting a rendered template into
 markers, such as <...> or [...], and the text between them.
 */
module Segments {
  datatype Kind = TextSegment | MarkerSegment

  datatype Segment = Segment(kind: Kind, value: string)

  predicate IsOpener(c: char) { c == '<' || c == '[' }

  predicate Closes(opener: char, c: char) { (opener == '<' && c == '>') || (opener == '[' && c == ']') }

  /** The first position holding an opener, or the length. */
  function FirstOpener(s: string): (n: nat)
    ensures n <= |s|
    ensures forall i :: 0 <= i < n ==> !IsOpener(s[i])
    ensures n < |s| ==> IsOpener(s[n])
  {
    if s == "" || IsOpener(s[0]) then 0 else 1 + FirstOpener(s[1..])
  }

  /** The first position holding a closer for `opener`, or the length. */
  function FirstCloser(opener: char, s: string): (n: nat)
    ensures n <= |s|
    ensures forall i :: 0 <= i < n ==> !Closes(opener, s[i])
    ensures n < |s| ==> Closes(opener, s[n])
  {
    if s == "" || Closes(opener, s[0]) then 0 else 1 + FirstCloser(opener, s[1..])
  }

  /** The segments of a text that starts outside any marker. */
  function Segmentize(text: string): seq<Segment>
    decreases |text|, 2
  {
    if text == "" then [] else SegmentsFrom(text)
  }

  function SegmentsFrom(text: string): seq<Segment>
    requires text != ""
    decreases |text|, 1
  {
    var o := FirstOpener(text);
    if o == |text| then [Segment(TextSegment, text)]
    else (if o == 0 then [] else [Segment(TextSegment, text[..o])]) + InMarker(text[o..])
  }

  /** The segments of a text that starts with an opener. */
  function InMarker(text: string): seq<Segment>
    requires text != ""
    decreases |text|, 0
  {
    var c := FirstCloser(text[0], text);
    if c == |text| then [Segment(TextSegment, text)] else MarkerThen(text, c)
  }

  /** A marker that closes at `c`, and what follows it. */
  function MarkerThen(text: string, c: nat): seq<Segment>
    requires c < |text|
    decreases |text| - c, 3
  {
    [Segment(MarkerSegment, text[..c + 1])] + Segmentize(text[c + 1..])
  }

  // ----- the loop -----

  lemma FirstOpenerIs(s: string, n: nat)
    requires n <= |s| && (forall i :: 0 <= i < n ==> !IsOpener(s[i])) && (n < |s| ==> IsOpener(s[n]))
    ensures FirstOpener(s) == n
  {
  }

  lemma FirstCloserIs(opener: char, s: string, n: nat)
    requires n <= |s| && (forall i :: 0 <= i < n ==> !Closes(opener, s[i])) && (n < |s| ==> Closes(opener, s[n]))
    ensures FirstCloser(opener, s) == n
  {
  }

  /** What is still to be emitted when the last border is `border`. */
  ghost function Pending(text: string, border: nat, inMarker: bool): seq<Segment>
    requires border <= |text| && (inMarker ==> border < |text|)
  {
    if inMarker then InMarker(text[border..]) else Segmentize(text[border..])
  }

  /** Between two turns of the loop: what was passed over since the last border. */
  predicate Scanned(text: string, border: nat, cur: nat, inMarker: bool, opener: char) {
    && border <= cur <= |text|
    && (!inMarker ==> forall i :: border <= i < cur ==> !IsOpener(text[i]))
    && (inMarker ==> border < cur && opener == text[border]
                     && forall i :: border <= i < cur ==> !Closes(opener, text[i]))
  }

  method SegmentizeMarkers(text: string) returns (segments: seq<Segment>)
    ensures segments == Segmentize(text)
  {
    segments := [];
    var inMarker, opener := false, '\0';
    var border: nat := 0;
    var cur: nat := 0;
    assert text[0..] == text;
    ghost var pending := Segmentize(text);
    while cur < |text|
      invariant Scanned(text, border, cur, inMarker, opener)
      invariant pending == Pending(text, border, inMarker)
      invariant segments + pending == Segmentize(text)
    {
      var cut;
      cut, border, inMarker, opener, pending := Turn(text, border, cur, inMarker, opener);
      segments := segments + cut;
      cur := cur + 1;
    }
    FirstOpenerEnd(text, border, inMarker);
    if border < |text| {
      segments := segments + [Segment(TextSegment, text[border..])];
    }
  }

  /** One turn of the loop: the segments cut off at `cur`, and the new border and marker state. */
  method Turn(text: string, border: nat, cur: nat, inMarker: bool, opener: char)
    returns (cut: seq<Segment>, border': nat, inMarker': bool, opener': char, ghost pending: seq<Segment>)
    requires Scanned(text, border, cur, inMarker, opener) && cur < |text|
    ensures Scanned(text, border', cur + 1, inMarker', opener')
    ensures pending == Pending(text, border', inMarker')
    ensures Pending(text, border, inMarker) == cut + pending
  {
    cut, border', inMarker', opener' := [], border, inMarker, opener;
    if !inMarker && IsOpener(text[cur]) {
      pending := OpenStep(text, border, cur);
      if border < cur {
        cut := [Segment(TextSegment, text[border..cur])];
      }
      border', inMarker', opener' := cur, true, text[cur];
    } else if inMarker && Closes(opener, text[cur]) {
      pending := CloseStep(text, border, cur);
      cut := [Segment(MarkerSegment, text[border..cur + 1])];
      border', inMarker', opener' := cur + 1, false, '\0';
    } else {
      pending := Pending(text, border, inMarker);
    }
  }

  lemma OpenStep(text: string, border: nat, cur: nat) returns (pending: seq<Segment>)
    requires border <= cur < |text| && IsOpener(text[cur])
    requires forall i :: border <= i < cur ==> !IsOpener(text[i])
    ensures pending == Pending(text, cur, true)
    ensures Pending(text, border, false)
            == (if border < cur then [Segment(TextSegment, text[border..cur])] else []) + pending
  {
    FirstOpenerIs(text[border..], cur - border);
    assert Segmentize(text[border..]) == SegmentsFrom(text[border..]);
    assert text[border..][cur - border..] == text[cur..];
    assert text[border..][..cur - border] == text[border..cur];
    pending := InMarker(text[cur..]);
  }

  lemma MarkerStep(s: string, c: nat)
    requires s != "" && c == FirstCloser(s[0], s) < |s|
    ensures InMarker(s) == [Segment(MarkerSegment, s[..c + 1])] + Segmentize(s[c + 1..])
  {
    assert InMarker(s) == MarkerThen(s, c);
  }

  lemma CloseStep(text: string, border: nat, cur: nat) returns (pending: seq<Segment>)
    requires border < cur < |text| && Closes(text[border], text[cur])
    requires forall i :: border <= i < cur ==> !Closes(text[border], text[i])
    ensures pending == Pending(text, cur + 1, false)
    ensures Pending(text, border, true) == [Segment(MarkerSegment, text[border..cur + 1])] + pending
  {
    var s := text[border..];
    FirstCloserIs(text[border], s, cur - border);
    MarkerStep(s, cur - border);
    assert s[cur - border + 1..] == text[cur + 1..];
    assert s[..cur - border + 1] == text[border..cur + 1];
    pending := Segmentize(text[cur + 1..]);
  }

  lemma FirstOpenerEnd(text: string, border: nat, inMarker: bool)
    requires border <= |text| && (inMarker ==> border < |text|)
    requires !inMarker ==> forall i :: border <= i < |text| ==> !IsOpener(text[i])
    requires inMarker ==> forall i :: border <= i < |text| ==> !Closes(text[border], text[i])
    ensures Pending(text, border, inMarker)
            == if border < |text| then [Segment(TextSegment, text[border..])] else []
  {
    if inMarker {
      FirstCloserIs(text[border], text[border..], |text| - border);
    } else {
      FirstOpenerIs(text[border..], |text| - border);
      if border < |text| { assert Segmentize(text[border..]) == SegmentsFrom(text[border..]); }
    }
  }

  // ----- an exact parser -----

  function Concat(segments: seq<Segment>): string
    decreases |segments|
  {
    if segments == [] then "" else segments[0].value + Concat(segments[1..])
  }

  lemma {:induction false} ConcatAppend(a: seq<Segment>, b: seq<Segment>)
    ensures Concat(a + b) == Concat(a) + Concat(b)
    decreases |a|
  {
    if a == [] {
      assert a + b == b;
    } else {
      assert (a + b)[1..] == a[1..] + b;
      ConcatAppend(a[1..], b);
    }
  }

  /** An opener up to its first closer. */
  predicate IsMarker(s: string) {
    |s| >= 2 && IsOpener(s[0]) && FirstCloser(s[0], s) == |s| - 1
  }

  predicate IsPlain(s: string) { s != "" && FirstOpener(s) == |s| }

  /** An opener that is never closed. */
  predicate IsUnclosed(s: string) { s != "" && IsOpener(s[0]) && FirstCloser(s[0], s) == |s| }

  /** Markers, plain text between them, and possibly an unclosed marker at the very end. */
  predicate WellFormed(segments: seq<Segment>)
    decreases |segments|
  {
    segments == [] ||
    match segments[0].kind
    case MarkerSegment => IsMarker(segments[0].value) && WellFormed(segments[1..])
    case TextSegment =>
      || (IsPlain(segments[0].value) && WellFormed(segments[1..])
          && (|segments| > 1 ==> IsOpener(segments[1].value[0])))
      || (IsUnclosed(segments[0].value) && |segments| == 1)
  }

  lemma WellFormedNonEmpty(segments: seq<Segment>)
    requires WellFormed(segments) && segments != []
    ensures segments[0].value != ""
  {
  }

  /** The segments of a text, put together again, are the text. */
  lemma {:induction false} SegmentsConcat(text: string)
    ensures Concat(Segmentize(text)) == text
    decreases |text|, 1
  {
    var o := FirstOpener(text);
    if text == "" {
    } else if o == |text| {
      var t := Segment(TextSegment, text);
      assert Segmentize(text) == [t] && [t][1..] == [];
    } else {
      MarkerConcat(text[o..]);
      if o == 0 {
        assert text[0..] == text;
        assert Segmentize(text) == InMarker(text);
      } else {
        PlainFirst(text, o);
      }
    }
  }

  lemma PlainFirst(text: string, o: nat)
    requires 0 < o == FirstOpener(text) < |text| && Concat(InMarker(text[o..])) == text[o..]
    ensures Concat(Segmentize(text)) == text
  {
    assert Segmentize(text) == SegmentsFrom(text);
    PlainThen(text, o, InMarker(text[o..]), Segmentize(text));
  }

  lemma PlainThen(text: string, o: nat, rest: seq<Segment>, all: seq<Segment>)
    requires o < |text| && all == [Segment(TextSegment, text[..o])] + rest && Concat(rest) == text[o..]
    ensures Concat(all) == text
  {
    ConcatCons(Segment(TextSegment, text[..o]), rest);
    assert text == text[..o] + text[o..];
  }

  lemma ConcatCons(t: Segment, rest: seq<Segment>)
    ensures Concat([t] + rest) == t.value + Concat(rest)
  {
    assert ([t] + rest)[1..] == rest;
  }

  lemma {:induction false} MarkerConcat(text: string)
    requires text != ""
    ensures Concat(InMarker(text)) == text
    decreases |text|, 0
  {
    var c := FirstCloser(text[0], text);
    if c == |text| {
      var t := Segment(TextSegment, text);
      assert InMarker(text) == [t] && [t][1..] == [];
    } else {
      MarkerStep(text, c);
      SegmentsConcat(text[c + 1..]);
      ClosedConcat(text, c, Segmentize(text[c + 1..]), InMarker(text));
    }
  }

  lemma ClosedConcat(text: string, c: nat, rest: seq<Segment>, all: seq<Segment>)
    requires c < |text| && Concat(rest) == text[c + 1..] && all == [Segment(MarkerSegment, text[..c + 1])] + rest
    ensures Concat(all) == text
  {
    ConcatCons(Segment(MarkerSegment, text[..c + 1]), rest);
    assert text == text[..c + 1] + text[c + 1..];
  }

  // ----- segments of a well-formed list -----

  /** A well-formed list that starts like a marker: its first value starts with an opener. */
  predicate StartsOpen(segments: seq<Segment>) {
    segments != [] && segments[0].value != "" && IsOpener(segments[0].value[0])
  }

  lemma {:induction false} CloserInPrefix(opener: char, a: string, b: string)
    requires FirstCloser(opener, a) < |a|
    ensures FirstCloser(opener, a + b) == FirstCloser(opener, a)
  {
    FirstCloserIs(opener, a + b, FirstCloser(opener, a));
  }

  lemma OpenerInSuffix(a: string, b: string)
    requires FirstOpener(a) == |a| && (b == "" || IsOpener(b[0]))
    ensures FirstOpener(a + b) == |a|
  {
    FirstOpenerIs(a + b, |a|);
  }

  lemma ReadMarker(m: string, rest: string)
    requires IsMarker(m)
    ensures Segmentize(m + rest) == [Segment(MarkerSegment, m)] + Segmentize(rest)
  {
    var s := m + rest;
    CloserInPrefix(m[0], m, rest);
    MarkerStep(s, |m| - 1);
    assert s[..|m|] == m && s[|m|..] == rest;
    FirstOpenerIs(s, 0);
    assert s[0..] == s;
    assert Segmentize(s) == InMarker(s);
  }

  lemma ReadUnclosed(s: string)
    requires IsUnclosed(s)
    ensures Segmentize(s) == [Segment(TextSegment, s)]
  {
    FirstOpenerIs(s, 0);
    assert s[0..] == s;
    assert Segmentize(s) == InMarker(s);
  }

  lemma ReadPlain(t: string, rest: string)
    requires IsPlain(t) && (rest == "" || IsOpener(rest[0]))
    ensures Segmentize(t + rest) == [Segment(TextSegment, t)] + Segmentize(rest)
  {
    OpenerInSuffix(t, rest);
    var s := t + rest;
    assert s[..|t|] == t && s[|t|..] == rest;
    if rest != "" {
      FirstOpenerIs(rest, 0);
      assert rest[0..] == rest;
      assert Segmentize(rest) == InMarker(rest);
    } else {
      assert s == t;
    }
  }

  /** Segmenting the concatenation of any well-formed list returns that list. */
  lemma {:induction false} SegmentsOfConcat(segments: seq<Segment>)
    requires WellFormed(segments)
    ensures Segmentize(Concat(segments)) == segments
    ensures segments != [] ==> Concat(segments) != "" && Concat(segments)[0] == segments[0].value[0]
    decreases |segments|
  {
    if segments != [] {
      var first, tail := segments[0], segments[1..];
      WellFormedNonEmpty(segments);
      assert segments == [first] + tail;
      if first.kind.MarkerSegment? {
        SegmentsOfConcat(tail);
        ReadMarker(first.value, Concat(tail));
      } else if IsPlain(first.value) && WellFormed(tail) && (|segments| > 1 ==> IsOpener(segments[1].value[0])) {
        SegmentsOfConcat(tail);
        ReadPlain(first.value, Concat(tail));
      } else {
        assert tail == [] && Concat(segments) == first.value;
        ReadUnclosed(first.value);
      }
    }
  }

  lemma MarkerText(text: string, c: nat)
    requires text != "" && IsOpener(text[0]) && c == FirstCloser(text[0], text) < |text|
    ensures IsMarker(text[..c + 1])
  {
    FirstCloserIs(text[0], text[..c + 1], c);
  }

  /** What `segmentize_markers` produces is well-formed. */
  lemma {:induction false} SegmentsWellFormed(text: string)
    ensures WellFormed(Segmentize(text))
    decreases |text|, 1
  {
    var o := FirstOpener(text);
    if text == "" {
    } else if o == |text| {
      assert Segmentize(text) == [Segment(TextSegment, text)];
    } else {
      MarkerWellFormed(text[o..]);
      if o == 0 {
        assert text[0..] == text && Segmentize(text) == InMarker(text);
      } else {
        FirstOpenerIs(text[..o], o);
        var t, rest := Segment(TextSegment, text[..o]), InMarker(text[o..]);
        assert Segmentize(text) == [t] + rest && ([t] + rest)[1..] == rest;
      }
    }
  }

  lemma {:induction false} MarkerWellFormed(text: string)
    requires text != "" && IsOpener(text[0])
    ensures WellFormed(InMarker(text)) && StartsOpen(InMarker(text))
    decreases |text|, 0
  {
    var c := FirstCloser(text[0], text);
    if c == |text| {
      assert InMarker(text) == [Segment(TextSegment, text)];
    } else {
      SegmentsWellFormed(text[c + 1..]);
      MarkerText(text, c);
      MarkerStep(text, c);
      var t, rest := Segment(MarkerSegment, text[..c + 1]), Segmentize(text[c + 1..]);
      assert ([t] + rest)[1..] == rest;
    }
  }

  /** Segmentation is a bijection between texts and well-formed lists. */
  lemma SegmentationExact(text: string, segments: seq<Segment>)
    ensures Segmentize(text) == segments <==> WellFormed(segments) && Concat(segments) == text
  {
    SegmentsConcat(text);
    SegmentsWellFormed(text);
    if WellFormed(segments) { SegmentsOfConcat(segments); }
  }

  lemma {:induction false} WellFormedSplit(segments: seq<Segment>, i: nat)
    requires WellFormed(segments) && i < |segments| && segments[i].kind.MarkerSegment?
    ensures WellFormed(segments[..i + 1]) && WellFormed(segments[i + 1..])
    decreases |segments|
  {
    var tail := segments[1..];
    if i == 0 {
      assert segments[..1][1..] == [];
    } else {
      assert tail[i - 1] == segments[i];
      WellFormedSplit(tail, i - 1);
      assert segments[..i + 1][1..] == tail[..i] && tail[i..] == segments[i + 1..];
    }
  }

  /** A text cut right after a marker segments as its two halves. */
  lemma CutAfterMarker(text: string, i: nat)
    requires i < |Segmentize(text)| && Segmentize(text)[i].kind.MarkerSegment?
    ensures var segments := Segmentize(text);
            var left := Concat(segments[..i + 1]);
            && left <= text
            && Segmentize(left) == segments[..i + 1]
            && Segmentize(text[|left|..]) == segments[i + 1..]
  {
    SegmentsConcat(text);
    SegmentsWellFormed(text);
    CutWellFormed(Segmentize(text), text, i);
  }

  lemma CutWellFormed(segments: seq<Segment>, text: string, i: nat)
    requires WellFormed(segments) && Concat(segments) == text && i < |segments| && segments[i].kind.MarkerSegment?
    ensures var left := Concat(segments[..i + 1]);
            && left <= text
            && Segmentize(left) == segments[..i + 1]
            && Segmentize(text[|left|..]) == segments[i + 1..]
  {
    WellFormedSplit(segments, i);
    SegmentsOfConcat(segments[..i + 1]);
    SegmentsOfConcat(segments[i + 1..]);
    ConcatAppend(segments[..i + 1], segments[i + 1..]);
    assert segments[..i + 1] + segments[i + 1..] == segments;
    var left := Concat(segments[..i + 1]);
    assert text[|left|..] == Concat(segments[i + 1..]);
  }

  /** Only the last text segment may hold an opener, and then it starts with it and never closes it. */
  lemma {:induction false} OpenersOnlyLast(segments: seq<Segment>, i: nat)
    requires WellFormed(segments) && i < |segments| && segments[i].kind.TextSegment?
    ensures IsPlain(segments[i].value) || (i == |segments| - 1 && IsUnclosed(segments[i].value))
    decreases i
  {
    if i > 0 { OpenersOnlyLast(segments[1..], i - 1); }
  }

  /** The two kinds of marker: angle brackets and square ones, up to the first that closes. */
  lemma BracketedIsMarker(inner: string)
    ensures '>' !in inner ==> Segmentize("<" + inner + ">") == [Segment(MarkerSegment, "<" + inner + ">")]
    ensures ']' !in inner ==> Segmentize("[" + inner + "]") == [Segment(MarkerSegment, "[" + inner + "]")]
    ensures '>' !in inner ==> Segmentize("<" + inner) == [Segment(TextSegment, "<" + inner)]
    ensures ']' !in inner ==> Segmentize("[" + inner) == [Segment(TextSegment, "[" + inner)]
  {
    OneSegment('<', inner, '>');
    OneSegment('[', inner, ']');
  }

  lemma OneSegment(opener: char, inner: string, closer: char)
    requires (opener == '<' && closer == '>') || (opener == '[' && closer == ']')
    ensures closer !in inner ==>
              Segmentize([opener] + inner + [closer]) == [Segment(MarkerSegment, [opener] + inner + [closer])]
    ensures closer !in inner ==> Segmentize([opener] + inner) == [Segment(TextSegment, [opener] + inner)]
  {
    if closer !in inner {
      Alone(Segment(MarkerSegment, [opener] + inner + [closer]), opener);
      Alone(Segment(TextSegment, [opener] + inner), opener);
    }
  }

  lemma Alone(s: Segment, opener: char)
    requires s.value != "" && s.value[0] == opener && IsOpener(opener)
    requires s.kind.MarkerSegment? ==>
               |s.value| > 1 && Closes(opener, s.value[|s.value| - 1])
               && forall i :: 0 <= i < |s.value| - 1 ==> !Closes(opener, s.value[i])
    requires s.kind.TextSegment? ==> forall i :: 0 <= i < |s.value| ==> !Closes(opener, s.value[i])
    ensures Segmentize(s.value) == [s]
  {
    FirstCloserIs(opener, s.value, if s.kind.MarkerSegment? then |s.value| - 1 else |s.value|);
    assert [s][1..] == [] && Concat([s]) == s.value;
    SegmentsOfConcat([s]);
  }
}
