/**
 `common_chat_msg_delimiters::split` (common/chat.cpp): cutting a prompt's tokens into messages
 where delimiters stand, without looking inside the skipped regions.
 */
module MessageSpans {
  import opened Wrappers

  type Token = int

  datatype Role = Unknown | System | Assistant | User | Tool

  datatype Delimiter = Delimiter(role: Role, tokens: seq<Token>)

  /** An entry of the skip map, from a first position to a number of tokens; the map is read in key order. */
  datatype Skip = Skip(start: nat, len: nat)

  datatype Match = Match(role: Role, at: nat)

  datatype Span = Span(role: Role, pos: nat, len: nat)

  predicate Ordered(skips: seq<Skip>) {
    forall i, j :: 0 <= i < j < |skips| ==> skips[i].start < skips[j].start
  }

  predicate StandsAt(tokens: seq<Token>, d: Delimiter, i: nat) {
    i + |d.tokens| <= |tokens| && tokens[i..i + |d.tokens|] == d.tokens
  }

  /** The role of the first listed delimiter that stands at `i`. */
  function RoleAt(tokens: seq<Token>, delimiters: seq<Delimiter>, i: nat): Option<Role> {
    if delimiters == [] then None
    else if StandsAt(tokens, delimiters[0], i) then Some(delimiters[0].role)
    else RoleAt(tokens, delimiters[1..], i)
  }

  lemma {:induction false} RoleOfFirstListed(tokens: seq<Token>, delimiters: seq<Delimiter>, i: nat, k: nat)
    requires k <= |delimiters| && forall j :: 0 <= j < k ==> !StandsAt(tokens, delimiters[j], i)
    ensures k == |delimiters| ==> RoleAt(tokens, delimiters, i) == None
    ensures k < |delimiters| && StandsAt(tokens, delimiters[k], i)
            ==> RoleAt(tokens, delimiters, i) == Some(delimiters[k].role)
    decreases k
  {
    if k > 0 { RoleOfFirstListed(tokens, delimiters[1..], i, k - 1); }
  }

  function MatchesAt(tokens: seq<Token>, delimiters: seq<Delimiter>, i: nat): seq<Match> {
    match RoleAt(tokens, delimiters, i)
    case Some(role) => [Match(role, i)]
    case None => []
  }

  /** The scan from position `i` with the skips that are still ahead. */
  function Scan(tokens: seq<Token>, delimiters: seq<Delimiter>, skips: seq<Skip>, i: nat): seq<Match>
    decreases |tokens| - i, |skips|, 1
  {
    if i >= |tokens| then [] else ScanOn(tokens, delimiters, skips, i)
  }

  function ScanOn(tokens: seq<Token>, delimiters: seq<Delimiter>, skips: seq<Skip>, i: nat): seq<Match>
    requires i < |tokens|
    decreases |tokens| - i, |skips|, 0
  {
    if skips != [] && i == skips[0].start then Scan(tokens, delimiters, skips[1..], i + skips[0].len)
    else MatchesAt(tokens, delimiters, i) + Scan(tokens, delimiters, skips, i + 1)
  }

  /** One span from each match to the next, the last one to the end of the tokens. */
  function SpansOf(matches: seq<Match>, end: int): seq<Span>
    requires Rising(matches, 0, end)
  {
    if matches == [] then []
    else
      var next := if |matches| > 1 then matches[1].at else end;
      [Span(matches[0].role, matches[0].at, next - matches[0].at)] + SpansOf(matches[1..], end)
  }

  /** The positions rise strictly, from `from` on and below `end`. */
  predicate Rising(matches: seq<Match>, from: nat, end: int) {
    && (forall k :: 0 <= k < |matches| ==> from <= matches[k].at < end)
    && (forall j, k :: 0 <= j < k < |matches| ==> matches[j].at < matches[k].at)
  }

  // ----- the imperative original -----

  method Split(tokens: seq<Token>, delimiters: seq<Delimiter>, skips: seq<Skip>) returns (spans: seq<Span>)
    ensures Rising(Scan(tokens, delimiters, skips, 0), 0, |tokens|)
    ensures spans == SpansOf(Scan(tokens, delimiters, skips, 0), |tokens|)
  {
    var matches: seq<Match> := [];
    var i: nat, skip: nat := 0, 0;
    assert skips[0..] == skips;
    ScanRises(tokens, delimiters, skips, 0);
    ghost var all := Scan(tokens, delimiters, skips, 0);
    while i < |tokens|
      invariant skip <= |skips|
      invariant matches + Scan(tokens, delimiters, skips[skip..], i) == all
      decreases |tokens| - i, |skips| - skip
    {
      if skip < |skips| && i == skips[skip].start {
        assert skips[skip..][1..] == skips[skip + 1..];
        i := i + skips[skip].len;
        skip := skip + 1;
      } else {
        var found := FirstStanding(tokens, delimiters, i);
        matches := matches + found;
        i := i + 1;
      }
    }
    assert Scan(tokens, delimiters, skips[skip..], i) == [];
    assert matches == all;
    spans := Gaps(matches, |tokens|);
  }

  method FirstStanding(tokens: seq<Token>, delimiters: seq<Delimiter>, i: nat) returns (found: seq<Match>)
    ensures found == MatchesAt(tokens, delimiters, i)
  {
    for k := 0 to |delimiters|
      invariant forall j :: 0 <= j < k ==> !StandsAt(tokens, delimiters[j], i)
    {
      if StandsAt(tokens, delimiters[k], i) {
        RoleOfFirstListed(tokens, delimiters, i, k);
        return [Match(delimiters[k].role, i)];
      }
    }
    RoleOfFirstListed(tokens, delimiters, i, |delimiters|);
    return [];
  }

  /** The second loop, over the matches with a sentinel at the end. */
  method Gaps(matches: seq<Match>, end: nat) returns (spans: seq<Span>)
    requires Rising(matches, 0, end)
    ensures spans == SpansOf(matches, end)
  {
    var closed := matches + [Match(Unknown, end)];
    spans := [];
    assert matches[0..] == matches;
    var i := 0;
    while i + 1 < |closed|
      invariant i <= |matches|
      invariant Rising(matches[i..], 0, end) && spans + SpansOf(matches[i..], end) == SpansOf(matches, end)
    {
      assert matches[i..][1..] == matches[i + 1..];
      spans := spans + [Span(closed[i].role, closed[i].at, closed[i + 1].at - closed[i].at)];
      i := i + 1;
    }
  }

  // ----- the declarative reading -----

  lemma {:induction false} ScanRises(tokens: seq<Token>, delimiters: seq<Delimiter>, skips: seq<Skip>, i: nat)
    ensures Rising(Scan(tokens, delimiters, skips, i), i, |tokens|)
    decreases |tokens| - i, |skips|
  {
    if i < |tokens| {
      if skips != [] && i == skips[0].start {
        ScanRises(tokens, delimiters, skips[1..], i + skips[0].len);
      } else {
        ScanRises(tokens, delimiters, skips, i + 1);
      }
    }
  }

  ghost predicate Skipped(skips: seq<Skip>, p: nat) {
    exists s :: s in skips && s.start <= p < s.start + s.len
  }

  predicate Disjoint(skips: seq<Skip>) {
    skips == [] || (Disjoint(skips[1..]) && (|skips| > 1 ==> skips[0].start + skips[0].len <= skips[1].start))
  }

  /** The skips that take effect: once a region reaches past the start of the next, all further ones are ignored. */
  function Effective(skips: seq<Skip>): (e: seq<Skip>)
    ensures e == [] <==> skips == []
    ensures e != [] ==> e[0] == skips[0]
  {
    if skips == [] then []
    else if |skips| > 1 && skips[1].start < skips[0].start + skips[0].len then [skips[0]]
    else [skips[0]] + Effective(skips[1..])
  }

  lemma {:induction false} EffectiveIsDisjoint(skips: seq<Skip>)
    ensures Disjoint(Effective(skips)) && (Disjoint(skips) ==> Effective(skips) == skips)
  {
    if skips != [] {
      EffectiveIsDisjoint(skips[1..]);
      assert Effective(skips)[1..] == [] || Effective(skips)[1..] == Effective(skips[1..]);
    }
  }

  lemma {:induction false} EffectiveIsPrefix(skips: seq<Skip>)
    ensures Effective(skips) <= skips
  {
    if skips != [] { EffectiveIsPrefix(skips[1..]); }
  }

  lemma {:induction false} PassedSkipsAreIgnored(tokens: seq<Token>, delimiters: seq<Delimiter>, skips: seq<Skip>,
                                                 i: nat)
    requires skips != [] && skips[0].start < i
    ensures Scan(tokens, delimiters, skips, i) == Scan(tokens, delimiters, [], i)
    decreases |tokens| - i
  {
    if i < |tokens| { PassedSkipsAreIgnored(tokens, delimiters, skips, i + 1); }
  }

  /** Overlapping regions: the scan behaves as if only the effective ones were given. */
  lemma {:induction false} OnlyEffectiveSkipsCount(tokens: seq<Token>, delimiters: seq<Delimiter>, skips: seq<Skip>,
                                                   i: nat)
    requires skips != [] ==> i <= skips[0].start
    ensures Scan(tokens, delimiters, skips, i) == Scan(tokens, delimiters, Effective(skips), i)
    decreases |tokens| - i, |skips|
  {
    if i < |tokens| {
      if skips != [] && i == skips[0].start {
        var next := i + skips[0].len;
        assert Effective(skips)[1..] == [] || Effective(skips)[1..] == Effective(skips[1..]);
        if |skips| > 1 && skips[1].start < next {
          PassedSkipsAreIgnored(tokens, delimiters, skips[1..], next);
        } else {
          OnlyEffectiveSkipsCount(tokens, delimiters, skips[1..], next);
        }
      } else {
        OnlyEffectiveSkipsCount(tokens, delimiters, skips, i + 1);
      }
    }
  }

  lemma {:induction false} AheadNotSkipped(skips: seq<Skip>, p: nat)
    requires Ordered(skips) && (skips != [] ==> p < skips[0].start)
    ensures !Skipped(skips, p)
  {
  }

  lemma SkippedHead(skips: seq<Skip>, p: nat)
    requires skips != []
    ensures Skipped(skips, p) <==> (skips[0].start <= p < skips[0].start + skips[0].len || Skipped(skips[1..], p))
  {
    assert skips == [skips[0]] + skips[1..];
  }

  lemma OrderedTail(skips: seq<Skip>)
    requires Ordered(skips) && skips != []
    ensures Ordered(skips[1..])
  {
  }

  lemma DisjointAhead(skips: seq<Skip>, p: nat)
    requires Ordered(skips) && Disjoint(skips) && skips != [] && p < skips[0].start + skips[0].len
    ensures !Skipped(skips[1..], p)
  {
    OrderedTail(skips);
    AheadNotSkipped(skips[1..], p);
  }

  /** What the scan finds: exactly the unskipped positions where a delimiter stands, with the first one's role. */
  lemma {:induction false} ScanExactly(tokens: seq<Token>, delimiters: seq<Delimiter>, skips: seq<Skip>, i: nat,
                                       m: Match)
    requires Ordered(skips) && Disjoint(skips) && (skips != [] ==> i <= skips[0].start)
    ensures m in Scan(tokens, delimiters, skips, i) <==>
            i <= m.at < |tokens| && !Skipped(skips, m.at) && RoleAt(tokens, delimiters, m.at) == Some(m.role)
    decreases |tokens| - i, |skips|
  {
    if i < |tokens| {
      if skips != [] && i == skips[0].start {
        OrderedTail(skips);
        ScanExactly(tokens, delimiters, skips[1..], i + skips[0].len, m);
        SkippedHead(skips, m.at);
        if m.at < i + skips[0].len { DisjointAhead(skips, m.at); }
      } else {
        ScanExactly(tokens, delimiters, skips, i + 1, m);
        AheadNotSkipped(skips, i);
        InMatchesAt(tokens, delimiters, i, m);
      }
    }
  }

  lemma InMatchesAt(tokens: seq<Token>, delimiters: seq<Delimiter>, i: nat, m: Match)
    ensures m in MatchesAt(tokens, delimiters, i) <==> m.at == i && RoleAt(tokens, delimiters, i) == Some(m.role)
  {
  }

  /** For every skip map: the spans start at the positions outside the effective skips where a delimiter stands. */
  lemma SplitExactly(tokens: seq<Token>, delimiters: seq<Delimiter>, skips: seq<Skip>, m: Match)
    requires Ordered(skips)
    ensures m in Scan(tokens, delimiters, skips, 0) <==>
            && m.at < |tokens| && !Skipped(Effective(skips), m.at)
            && RoleAt(tokens, delimiters, m.at) == Some(m.role)
  {
    OnlyEffectiveSkipsCount(tokens, delimiters, skips, 0);
    EffectiveIsDisjoint(skips);
    EffectiveIsPrefix(skips);
    ScanExactly(tokens, delimiters, Effective(skips), 0, m);
  }

  /**
   A region inside another is not the only one lost: the disjoint one after it is ignored too. A message is
   found at the last token although that token is to be skipped; without the inner region it is not.
   */
  lemma NestedSkipDisablesLater()
    ensures var tokens, delimiters := [0, 0, 0, 0, 0, 0, 1], [Delimiter(User, [1])];
            var skips, m := [Skip(0, 4), Skip(1, 1), Skip(5, 2)], Match(User, 6);
            && Ordered(skips) && Skipped(skips, m.at)
            && m in Scan(tokens, delimiters, skips, 0) && m !in Scan(tokens, delimiters, [skips[0], skips[2]], 0)
  {
    var tokens, delimiters := [0, 0, 0, 0, 0, 0, 1], [Delimiter(User, [1])];
    var skips, apart, m := [Skip(0, 4), Skip(1, 1), Skip(5, 2)], [Skip(0, 4), Skip(5, 2)], Match(User, 6);
    assert skips[2] in skips && apart[1] in apart;
    assert Effective(skips) == [Skip(0, 4)];
    assert Effective(apart) == apart by { assert apart[1..] == [Skip(5, 2)]; }
    assert StandsAt(tokens, delimiters[0], 6);
    SplitExactly(tokens, delimiters, skips, m);
    SplitExactly(tokens, delimiters, apart, m);
  }

  // ----- the spans tile the tokens -----

  predicate Tiles(spans: seq<Span>, from: nat, end: nat) {
    if spans == [] then from == end
    else spans[0].pos == from && spans[0].len > 0 && Tiles(spans[1..], from + spans[0].len, end)
  }

  /** One span per match, non-empty, each starting where the one before ends, up to the last token. */
  lemma {:induction false} SpansTile(matches: seq<Match>, end: nat)
    requires Rising(matches, 0, end)
    ensures var spans := SpansOf(matches, end);
            && |spans| == |matches|
            && (forall k :: 0 <= k < |spans| ==> spans[k].pos == matches[k].at && spans[k].role == matches[k].role)
            && (matches != [] ==> Tiles(spans, matches[0].at, end))
  {
    if matches != [] {
      SpansTile(matches[1..], end);
      var spans := SpansOf(matches, end);
      assert spans[1..] == SpansOf(matches[1..], end);
    }
  }

  function Slices(tokens: seq<Token>, spans: seq<Span>, from: nat): seq<Token>
    requires from <= |tokens| && Tiles(spans, from, |tokens|)
  {
    if spans == [] then []
    else
      TilesBounded(spans, from, |tokens|);
      tokens[spans[0].pos..spans[0].pos + spans[0].len] + Slices(tokens, spans[1..], from + spans[0].len)
  }

  lemma {:induction false} TilesBounded(spans: seq<Span>, from: nat, end: nat)
    requires Tiles(spans, from, end)
    ensures from <= end && (spans != [] ==> from + spans[0].len <= end)
  {
    if spans != [] { TilesBounded(spans[1..], from + spans[0].len, end); }
  }

  /** The messages' tokens, put together, are the prompt from the first delimiter on. */
  lemma {:induction false} SlicesRejoin(tokens: seq<Token>, spans: seq<Span>, from: nat)
    requires from <= |tokens| && Tiles(spans, from, |tokens|)
    ensures Slices(tokens, spans, from) == tokens[from..]
    decreases |spans|
  {
    if spans != [] {
      TilesBounded(spans, from, |tokens|);
      SlicesRejoin(tokens, spans[1..], from + spans[0].len);
    }
  }
}
