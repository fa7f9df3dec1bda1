/**
 `normalize_quotes_to_json`: rewriting Python literals into JSON text
 (common/chat-peg-parser.cpp). The loop is specified by a function that reads one token
 at a time, and that function is then shown to preserve the meaning of printed literals
 and to be monotone on streamed input, except at two kinds of cut.
 */
module Transcoder {
  import opened Sequences

  /** The source's two flags; they are never both set. */
  datatype Mode = Plain | Single | Double

  /** Where the transcoder stands: the quoting mode, and whether the last character read was a word character. */
  datatype Place = Place(mode: Mode, afterWord: bool)

  const START := Place(Plain, false)

  datatype Token = Token(out: string, len: nat, mode: Mode)

  predicate IsWordChar(c: char) {
    'a' <= c <= 'z' || 'A' <= c <= 'Z' || '0' <= c <= '9' || c == '_'
  }

  /** The number of word characters `s` starts with. */
  function WordLen(s: string): (n: nat)
    ensures n <= |s|
    ensures forall i :: 0 <= i < n ==> IsWordChar(s[i])
    ensures n < |s| ==> !IsWordChar(s[n])
  {
    if s != "" && IsWordChar(s[0]) then 1 + WordLen(s[1..]) else 0
  }

  function PythonLiteral(c: char): string {
    if c == 'T' then "True" else if c == 'F' then "False" else "None"
  }

  function JsonLiteral(c: char): string {
    if c == 'T' then "true" else if c == 'F' then "false" else "null"
  }

  predicate LiteralStart(at: Place, rest: string) {
    rest != "" && at.mode == Plain && !at.afterWord && (rest[0] == 'T' || rest[0] == 'F' || rest[0] == 'N')
  }

  /** A word that is one of the three literals, or the beginning of one. */
  predicate LiteralPrefix(word: string) {
    word != "" && word <= PythonLiteral(word[0])
  }

  predicate EscapePair(at: Place, rest: string) {
    |rest| >= 2 && rest[0] == '\\' && at.mode != Plain
  }

  function TokenAt(at: Place, rest: string): (t: Token)
    requires rest != ""
    ensures 1 <= t.len <= |rest|
  {
    var c := rest[0];
    if EscapePair(at, rest) then
      if at.mode == Single && rest[1] == '\'' then Token("'", 2, Single)
      else Token([c, rest[1]], 2, at.mode)
    else if c == '"' then
      match at.mode
      case Single => Token("\\\"", 1, Single)
      case Double => Token("\"", 1, Plain)
      case Plain => Token("\"", 1, Double)
    else if c == '\'' then
      match at.mode
      case Double => Token("'", 1, Double)
      case Single => Token("\"", 1, Plain)
      case Plain => Token("\"", 1, Single)
    else if LiteralStart(at, rest) then
      var n := WordLen(rest);
      if LiteralPrefix(rest[..n]) then Token(JsonLiteral(c)[..n], n, Plain) else Token([c], 1, Plain)
    else Token([c], 1, at.mode)
  }

  function After(t: Token, rest: string): Place
    requires 1 <= t.len <= |rest|
  {
    Place(t.mode, IsWordChar(rest[t.len - 1]))
  }

  function Transcode(at: Place, rest: string): string
    decreases |rest|, 1
  {
    if rest == "" then "" else TranscodeToken(at, rest)
  }

  /** One token, then the rest. */
  function TranscodeToken(at: Place, rest: string): string
    requires rest != ""
    decreases |rest|, 0
  {
    var t := TokenAt(at, rest);
    t.out + Transcode(After(t, rest), rest[t.len..])
  }

  function Normalize(input: string): string {
    Transcode(START, input)
  }

  // ----- the loop -----

  method NormalizeQuotesToJson(input: string) returns (result: string)
    ensures result == Normalize(input)
  {
    result := "";
    var inSingle, inDouble := false, false;
    var i := 0;
    ghost var tail := FromStart(input);
    ghost var all := tail;
    while i < |input|
      invariant 0 <= i <= |input| && !(inSingle && inDouble)
      invariant tail == Ahead(input, i, inSingle, inDouble)
      invariant result + tail == all
      decreases |input| - i
    {
      var out;
      out, i, inSingle, inDouble, tail := Turn(input, i, inSingle, inDouble);
      Associate(result, out, tail);
      result := result + out;
    }
    NothingAhead(input, inSingle, inDouble);
  }

  /** What the loop has still to write. */
  ghost function Ahead(input: string, i: nat, inSingle: bool, inDouble: bool): string
    requires i <= |input|
  {
    Transcode(PlaceAt(input, i, inSingle, inDouble), input[i..])
  }

  lemma FromStart(input: string) returns (tail: string)
    ensures tail == Ahead(input, 0, false, false) == Normalize(input)
  {
    assert input[0..] == input;
    tail := Normalize(input);
  }

  lemma NothingAhead(input: string, inSingle: bool, inDouble: bool)
    ensures Ahead(input, |input|, inSingle, inDouble) == ""
  {
  }

  /** One turn of the loop, stated as progress through the text that is still to be transcoded. */
  method Turn(input: string, i: nat, inSingle: bool, inDouble: bool)
    returns (out: string, i': nat, inSingle': bool, inDouble': bool, ghost tail: string)
    requires i < |input| && !(inSingle && inDouble)
    ensures i < i' <= |input| && !(inSingle' && inDouble')
    ensures tail == Ahead(input, i', inSingle', inDouble') && Ahead(input, i, inSingle, inDouble) == out + tail
  {
    var len;
    out, len, inSingle', inDouble' := ReadToken(input, i, inSingle, inDouble);
    i' := i + len;
    tail := TokenTaken(PlaceAt(input, i, inSingle, inDouble), input, i, out, len, ModeOf(inSingle', inDouble'), i');
  }

  /** One turn of the loop: what is written, how far `i` moves, and the two flags afterwards. */
  method ReadToken(input: string, i: nat, inSingle: bool, inDouble: bool)
    returns (out: string, len: nat, inSingle': bool, inDouble': bool)
    requires i < |input| && !(inSingle && inDouble)
    ensures !(inSingle' && inDouble')
    ensures Token(out, len, ModeOf(inSingle', inDouble')) == TokenAt(PlaceAt(input, i, inSingle, inDouble), input[i..])
  {
    inSingle', inDouble' := inSingle, inDouble;
    var c := input[i];
    len := 1;
    out := [c];
    if c == '\\' && i + 1 < |input| {
      var next := input[i + 1];
      if inSingle {
        out := if next == '\'' then "'" else [c, next];
        len := 2;
      } else if inDouble {
        out := [c, next];
        len := 2;
      }
    } else if c == '"' {
      if inSingle {
        out := "\\\"";
      } else {
        inDouble' := !inDouble;
      }
    } else if c == '\'' {
      if !inDouble {
        inSingle' := !inSingle;
        out := "\"";
      }
    } else if !inSingle && !inDouble && (c == 'T' || c == 'F' || c == 'N') && (i == 0 || !IsWordChar(input[i - 1])) {
      var n := 0;
      while i + n < |input| && IsWordChar(input[i + n])
        invariant i + n <= |input|
        invariant forall k :: i <= k < i + n ==> IsWordChar(input[k])
        decreases |input| - i - n
      {
        n := n + 1;
      }
      WordLenUnique(input[i..], n);
      assert input[i..][..n] == input[i..i + n];
      if input[i..i + n] <= PythonLiteral(c) {
        out := JsonLiteral(c)[..n];
        len := n;
      }
    }
  }

  ghost function ModeOf(inSingle: bool, inDouble: bool): Mode {
    if inSingle then Single else if inDouble then Double else Plain
  }

  ghost function PlaceAt(input: string, i: nat, inSingle: bool, inDouble: bool): Place
    requires i <= |input|
  {
    Place(ModeOf(inSingle, inDouble), i > 0 && IsWordChar(input[i - 1]))
  }

  lemma TokenTaken(at: Place, input: string, i: nat, out: string, len: nat, mode: Mode, j: nat) returns (tail: string)
    requires i < |input| && Token(out, len, mode) == TokenAt(at, input[i..]) && j == i + len
    ensures i < j <= |input|
    ensures tail == Transcode(Place(mode, IsWordChar(input[j - 1])), input[j..])
    ensures Transcode(at, input[i..]) == out + tail
  {
    tail := StepFrom(at, input[i..], Token(out, len, mode));
    SliceLater(input, i, len);
  }

  lemma StepFrom(at: Place, rest: string, t: Token) returns (tail: string)
    requires rest != "" && t == TokenAt(at, rest)
    ensures tail == Transcode(Place(t.mode, IsWordChar(rest[t.len - 1])), rest[t.len..])
    ensures Transcode(at, rest) == t.out + tail
  {
    TokenStep(at, rest);
    tail := Transcode(After(t, rest), rest[t.len..]);
  }

  lemma SliceLater(input: string, i: nat, len: nat)
    requires 0 < len && i + len <= |input|
    ensures input[i..][len..] == input[i + len..] && input[i..][len - 1] == input[i + len - 1]
  {
  }

  lemma WordLenUnique(s: string, n: nat)
    requires n <= |s|
    requires forall k :: 0 <= k < n ==> IsWordChar(s[k])
    requires n < |s| ==> !IsWordChar(s[n])
    ensures WordLen(s) == n
  {
    if s != "" && n > 0 {
      WordLenUnique(s[1..], n - 1);
    }
  }

  // ----- streaming -----

  /** The cut separates a backslash from the quote it escapes inside a single-quoted string. */
  predicate SplitsEscapedQuote(at: Place, rest: string, k: nat) {
    k == 1 && at.mode == Single && |rest| >= 2 && rest[0] == '\\' && rest[1] == '\''
  }

  /** The cut leaves a word looking like a literal that the whole word is not. */
  predicate SplitsFalseLiteral(at: Place, rest: string, k: nat)
    requires k <= |rest|
  {
    && LiteralStart(at, rest)
    && 0 < k < WordLen(rest)
    && LiteralPrefix(rest[..k])
    && !LiteralPrefix(rest[..WordLen(rest)])
  }

  /** The cut falls strictly inside one token of the whole text. */
  predicate InsideToken(at: Place, rest: string, k: nat) {
    rest != "" && 0 < k < TokenAt(at, rest).len
  }

  /** Neither bad kind of cut happens at the token in which `k` falls. */
  predicate SafeCut(at: Place, rest: string, k: nat)
    requires k <= |rest|
    decreases |rest|, 1
  {
    if SplitsEscapedQuote(at, rest, k) || SplitsFalseLiteral(at, rest, k) then false
    else k == 0 || InsideToken(at, rest, k) || SafeCutOn(at, rest, k)
  }

  /** The cut is safe in what follows the first token. */
  predicate SafeCutOn(at: Place, rest: string, k: nat)
    requires 0 < k <= |rest| && !InsideToken(at, rest, k)
    decreases |rest|, 0
  {
    var t := TokenAt(at, rest);
    SafeCut(After(t, rest), rest[t.len..], k - t.len)
  }

  lemma WordLenOfPrefix(s: string, k: nat)
    requires k <= |s|
    ensures WordLen(s[..k]) == if k < WordLen(s) then k else WordLen(s)
  {
    WordLenUnique(s[..k], if k < WordLen(s) then k else WordLen(s));
  }

  /** Past both bad cuts, a prefix that covers the first token reads that token the same way. */
  lemma SameToken(at: Place, rest: string, k: nat)
    requires 0 < k <= |rest| && !InsideToken(at, rest, k) && !SplitsFalseLiteral(at, rest, k)
    ensures TokenAt(at, rest[..k]) == TokenAt(at, rest)
  {
    if LiteralStart(at, rest) {
      WordLenOfPrefix(rest, k);
      var n := WordLen(rest);
      if k < n {
        assert LiteralPrefix(rest[..k]) ==> LiteralPrefix(rest[..n]);
        assert rest[..k][..k] == rest[..k];
      } else {
        assert rest[..k][..n] == rest[..n];
      }
    }
  }

  /** Neither text is the beginning of the other. */
  predicate Clash(a: string, b: string) { !(a <= b) && !(b <= a) }

  lemma EscapedQuoteRead(at: Place, rest: string)
    requires SplitsEscapedQuote(at, rest, 1)
    ensures Transcode(at, rest) != "" && Transcode(at, rest)[0] == '\''
  {
    assert Transcode(at, rest) == TranscodeToken(at, rest);
  }

  lemma SplitToken(at: Place, rest: string, k: nat)
    requires k <= |rest| && InsideToken(at, rest, k)
    ensures SplitsEscapedQuote(at, rest, k) ==> Clash(Transcode(at, rest[..k]), Transcode(at, rest))
    ensures !SplitsEscapedQuote(at, rest, k) ==>
              Transcode(at, rest[..k]) <= TokenAt(at, rest).out
  {
    var t := TokenAt(at, rest);
    var cut := rest[..k];
    if EscapePair(at, rest) {
      assert cut == [rest[0]];
      var t' := TokenAt(at, cut);
      assert t' == Token("\\", 1, at.mode);
      assert cut[1..] == "";
      assert Transcode(at, cut) == "\\";
      if SplitsEscapedQuote(at, rest, k) { EscapedQuoteRead(at, rest); }
    } else {
      assert LiteralStart(at, rest);
      var n := WordLen(rest);
      WordLenOfPrefix(rest, k);
      assert cut[..k] == cut;
      assert LiteralPrefix(rest[..n]) && LiteralPrefix(cut);
      assert cut[k..] == "";
      assert Transcode(at, cut) == TranscodeToken(at, cut) == JsonLiteral(rest[0])[..k];
    }
  }

  lemma FalseLiteralDiffers(at: Place, rest: string, k: nat)
    requires k <= |rest| && SplitsFalseLiteral(at, rest, k)
    ensures Clash(Transcode(at, rest[..k]), Transcode(at, rest))
  {
    WordLenOfPrefix(rest, k);
    var cut := rest[..k];
    assert cut[..k] == cut;
    assert TokenAt(at, cut).out[0] == JsonLiteral(rest[0])[0] != rest[0];
    assert TokenAt(at, rest).out == [rest[0]];
    assert Transcode(at, cut) == TranscodeToken(at, cut) && Transcode(at, rest) == TranscodeToken(at, rest);
    assert Transcode(at, cut)[0] != Transcode(at, rest)[0];
  }

  /** Cutting the input cuts the output, exactly when the cut is safe. */
  lemma {:induction false} MonotoneExactly(at: Place, rest: string, k: nat)
    requires k <= |rest|
    ensures Transcode(at, rest[..k]) <= Transcode(at, rest) <==> SafeCut(at, rest, k)
    decreases |rest|
  {
    if SplitsFalseLiteral(at, rest, k) {
      FalseLiteralDiffers(at, rest, k);
    } else if k == 0 {
    } else if InsideToken(at, rest, k) {
      SplitToken(at, rest, k);
    } else {
      SameToken(at, rest, k);
      var t := TokenAt(at, rest);
      MonotoneExactly(After(t, rest), rest[t.len..], k - t.len);
      SharedToken(at, rest, k, t, After(t, rest));
      assert SafeCut(at, rest, k) == SafeCutOn(at, rest, k);
    }
  }

  /** An unsafe cut leaves an output that the whole output contradicts. */
  lemma {:induction false} BadCutClashes(at: Place, rest: string, k: nat)
    requires k <= |rest| && !SafeCut(at, rest, k)
    ensures Clash(Transcode(at, rest[..k]), Transcode(at, rest))
    decreases |rest|
  {
    if SplitsFalseLiteral(at, rest, k) {
      FalseLiteralDiffers(at, rest, k);
    } else if InsideToken(at, rest, k) {
      SplitToken(at, rest, k);
    } else if k > 0 {
      SameToken(at, rest, k);
      var t := TokenAt(at, rest);
      BadCutClashes(After(t, rest), rest[t.len..], k - t.len);
      SharedClash(at, rest, k, t, After(t, rest));
    }
  }

  lemma SharedClash(at: Place, rest: string, k: nat, t: Token, next: Place)
    requires 0 < k <= |rest| && t == TokenAt(at, rest) == TokenAt(at, rest[..k]) && next == After(t, rest)
    requires Clash(Transcode(next, rest[t.len..][..k - t.len]), Transcode(next, rest[t.len..]))
    ensures Clash(Transcode(at, rest[..k]), Transcode(at, rest))
  {
    TokenStep(at, rest);
    TokenBehind(at, rest, k, t, next);
    SamePrefix(t.out, Transcode(next, rest[t.len..][..k - t.len]), Transcode(next, rest[t.len..]));
    SamePrefix(t.out, Transcode(next, rest[t.len..]), Transcode(next, rest[t.len..][..k - t.len]));
  }

  /** Behind a token that the cut text shares, only the rest decides. */
  lemma SharedToken(at: Place, rest: string, k: nat, t: Token, next: Place)
    requires 0 < k <= |rest| && t == TokenAt(at, rest) == TokenAt(at, rest[..k]) && next == After(t, rest)
    ensures Transcode(at, rest[..k]) <= Transcode(at, rest)
            <==> Transcode(next, rest[t.len..][..k - t.len]) <= Transcode(next, rest[t.len..])
  {
    TokenStep(at, rest);
    TokenBehind(at, rest, k, t, next);
    SamePrefix(t.out, Transcode(next, rest[t.len..][..k - t.len]), Transcode(next, rest[t.len..]));
  }

  lemma TokenStep(at: Place, rest: string)
    requires rest != ""
    ensures Transcode(at, rest)
            == TokenAt(at, rest).out + Transcode(After(TokenAt(at, rest), rest), rest[TokenAt(at, rest).len..])
  {
  }

  /** On a whole input: the streamed output only grows, unless the cut is one of the two bad kinds. */
  lemma StreamedOutputGrows(input: string, k: nat)
    requires k <= |input|
    ensures Normalize(input[..k]) <= Normalize(input) <==> SafeCut(START, input, k)
  {
    MonotoneExactly(START, input, k);
  }

  lemma WholeCutSafe(rest: string)
    ensures SafeCut(START, rest, |rest|)
  {
    assert rest[..|rest|] == rest;
    StreamedOutputGrows(rest, |rest|);
  }

  /** Of two cuts, if the later is safe and the earlier is safe in what the later leaves, the earlier is safe. */
  lemma SafeCutTransitive(rest: string, k: nat, j: nat)
    requires k <= j <= |rest| && SafeCut(START, rest, j) && SafeCut(START, rest[..j], k)
    ensures SafeCut(START, rest, k)
  {
    StreamedOutputGrows(rest, j);
    StreamedOutputGrows(rest[..j], k);
    Heads(rest, k, j);
    StreamedOutputGrows(rest, k);
  }

  lemma Heads(s: string, n: nat, j: nat)
    requires n <= j <= |s|
    ensures s[..j][..n] == s[..n]
  {
  }

  lemma LiteralPrefixShrinks(word: string, n: nat)
    requires LiteralPrefix(word) && 0 < n <= |word|
    ensures LiteralPrefix(word[..n])
  {
  }

  /** A safe cut stays safe in whatever part of the text, beyond it, has arrived. */
  lemma SafeCutRestricts(rest: string, k: nat, j: nat)
    requires k <= j <= |rest| && SafeCut(START, rest, k)
    ensures SafeCut(START, rest[..j], k)
  {
    StreamedOutputGrows(rest, k);
    OutputRestricts(START, rest, k, j);
    Heads(rest, k, j);
    StreamedOutputGrows(rest[..j], k);
  }

  /** What the output shares with the whole, it shares with the output of every part in between. */
  lemma {:induction false} OutputRestricts(at: Place, rest: string, k: nat, j: nat)
    requires k <= j <= |rest| && Shares(at, rest[..k], rest)
    ensures Shares(at, rest[..k], rest[..j])
    decreases |rest|
  {
    if 0 < k < j {
      var done, next, tail, n := OutputStep(at, rest, k, j);
      if !done { OutputRestricts(next, tail, k - n, j - n); }
    } else if k == 0 {
      EmptyShares(at, rest[..k], rest[..j]);
    }
  }

  /** The output of `b` begins with that of `a`. */
  predicate Shares(at: Place, a: string, b: string) { Transcode(at, a) <= Transcode(at, b) }

  lemma EmptyShares(at: Place, a: string, b: string)
    requires a == ""
    ensures Shares(at, a, b)
  {
  }

  /** The cut falls inside the first token that has arrived, or behind it. */
  lemma OutputStep(at: Place, rest: string, k: nat, j: nat) returns (done: bool, next: Place, tail: string, n: nat)
    requires 0 < k < j <= |rest| && Shares(at, rest[..k], rest)
    ensures done ==> Shares(at, rest[..k], rest[..j])
    ensures 0 < n <= |rest| && |tail| == |rest| - n
    ensures !done ==> n <= k && Shares(next, tail[..k - n], tail)
    ensures !done && Shares(next, tail[..k - n], tail[..j - n]) ==> Shares(at, rest[..k], rest[..j])
  {
    GoodHere(at, rest, k);
    NotFalseLiteral(at, rest, k, j);
    var t := TokenAt(at, rest);
    done, next, tail, n := InsideToken(at, rest[..j], k), After(t, rest), rest[t.len..], t.len;
    if done {
      CutInside(at, rest, k, j);
    } else {
      TokenStillRead(at, rest, k, j);
      SharedByParts(at, rest, k, j, t, next);
    }
  }

  lemma GoodHere(at: Place, rest: string, k: nat)
    requires k <= |rest| && Shares(at, rest[..k], rest)
    ensures !SplitsEscapedQuote(at, rest, k) && !SplitsFalseLiteral(at, rest, k)
  {
    MonotoneExactly(at, rest, k);
  }

  lemma CutInside(at: Place, rest: string, k: nat, j: nat)
    requires 0 < k < j <= |rest| && !SplitsEscapedQuote(at, rest, k) && InsideToken(at, rest[..j], k)
    ensures Shares(at, rest[..k], rest[..j])
  {
    Heads(rest, k, j);
    SplitToken(at, rest[..j], k);
    TokenStep(at, rest[..j]);
  }

  lemma SharedByParts(at: Place, rest: string, k: nat, j: nat, t: Token, next: Place)
    requires 0 < k < j <= |rest| && t == TokenAt(at, rest) == TokenAt(at, rest[..j]) && next == After(t, rest)
    requires !InsideToken(at, rest, k) && !SplitsFalseLiteral(at, rest, k)
    ensures t.len <= k
    ensures Shares(at, rest[..k], rest) ==> Shares(next, rest[t.len..][..k - t.len], rest[t.len..])
    ensures Shares(next, rest[t.len..][..k - t.len], rest[t.len..][..j - t.len]) ==> Shares(at, rest[..k], rest[..j])
  {
    SameToken(at, rest, k);
    SharedToken(at, rest, k, t, next);
    TokenBehind(at, rest, k, t, next);
    TokenBehind(at, rest, j, t, next);
    SamePrefix(t.out, Transcode(next, rest[t.len..][..k - t.len]), Transcode(next, rest[t.len..][..j - t.len]));
  }

  /** A cut text that shares the first token. */
  lemma TokenBehind(at: Place, rest: string, k: nat, t: Token, next: Place)
    requires 0 < k <= |rest| && t == TokenAt(at, rest[..k]) == TokenAt(at, rest) && next == After(t, rest)
    ensures Transcode(at, rest[..k]) == t.out + Transcode(next, rest[t.len..][..k - t.len])
  {
    TokenStep(at, rest[..k]);
    assert rest[..k][t.len..] == rest[t.len..][..k - t.len];
  }

  lemma NotFalseLiteral(at: Place, rest: string, k: nat, j: nat)
    requires 0 < k < j <= |rest| && !SplitsFalseLiteral(at, rest, k)
    ensures !SplitsFalseLiteral(at, rest[..j], k)
  {
    if SplitsFalseLiteral(at, rest[..j], k) {
      WordLenOfPrefix(rest, j);
      var w, n := WordLen(rest), WordLen(rest[..j]);
      Heads(rest, k, j);
      Heads(rest, n, j);
      Heads(rest, n, w);
      if LiteralPrefix(rest[..w]) { LiteralPrefixShrinks(rest[..w], n); }
    }
  }

  lemma TokenStillRead(at: Place, rest: string, k: nat, j: nat)
    requires 0 < k < j <= |rest| && !SplitsFalseLiteral(at, rest, k) && !InsideToken(at, rest[..j], k)
    ensures !InsideToken(at, rest, k) && TokenAt(at, rest[..j]) == TokenAt(at, rest)
  {
    if LiteralStart(at, rest) { LiteralStillRead(at, rest, k, j); }
    SameToken(at, rest, j);
  }

  lemma LiteralStillRead(at: Place, rest: string, k: nat, j: nat)
    requires 0 < k < j <= |rest| && !SplitsFalseLiteral(at, rest, k) && LiteralStart(at, rest)
    requires !InsideToken(at, rest[..j], k)
    ensures !InsideToken(at, rest, k) && !InsideToken(at, rest, j) && !SplitsFalseLiteral(at, rest, j)
  {
    WordLenOfPrefix(rest, j);
    var w, n := WordLen(rest), WordLen(rest[..j]);
    Heads(rest, n, j);
    Heads(rest, n, w);
    if k < n {
      if LiteralPrefix(rest[..n]) {
        Heads(rest, k, n);
        LiteralPrefixShrinks(rest[..n], k);
      } else if LiteralPrefix(rest[..w]) {
        LiteralPrefixShrinks(rest[..w], n);
      }
    }
  }

  /** Both bad cuts occur: the monotonicity the comment in the source promises is conditional. */
  lemma BadCutsExist()
    ensures !(Normalize("'\\") <= Normalize("'\\'"))
    ensures !(Normalize("True") <= Normalize("Trueish"))
  {
    EscapedQuoteSplit("'\\'");
    FalseLiteralSplit("Trueish");
  }

  lemma EscapedQuoteSplit(s: string)
    requires s == "'\\'"
    ensures s[..2] == "'\\" && !(Normalize(s[..2]) <= Normalize(s))
  {
    assert s[1..] == "\\'";
    assert TokenAt(START, s) == Token("\"", 1, Single);
    assert SplitsEscapedQuote(Place(Single, false), s[1..], 1);
    assert SafeCut(START, s, 2) == SafeCutOn(START, s, 2);
    StreamedOutputGrows(s, 2);
  }

  lemma FalseLiteralSplit(w: string)
    requires w == "Trueish"
    ensures w[..4] == "True" && !(Normalize(w[..4]) <= Normalize(w))
  {
    WordLenUnique(w, 7);
    assert w[..7] == w;
    assert SplitsFalseLiteral(START, w, 4);
    StreamedOutputGrows(w, 4);
  }
}
