/**
 What the literal transcoder makes of any text at all: the text is cut into words, quoted strings and what is
 between them. Words that begin True, False or None are written as JSON does, strings get double quotes, with the
 escapes that changes, and everything else stays. Every text can be cut so, and the pieces decide its output.
 */
module TranscoderPieces {
  import opened Sequences
  import opened Transcoder

  /** A character of a quoted string: itself, or after a backslash. */
  datatype Item = Bare(c: char) | Escaped(c: char)

  /** How a quoted string ends: with its quote, with the text, or with the text after a single backslash. */
  datatype End = Closed | Open | Dangling

  datatype Piece = Gap(c: char) | Word(text: string) | Quoted(quote: char, items: seq<Item>, end: End)

  predicate WordChar(c: char) { 'a' <= c <= 'z' || 'A' <= c <= 'Z' || '0' <= c <= '9' || c == '_' }

  predicate ItemOk(quote: char, item: Item) { item.Bare? ==> item.c != '\\' && item.c != quote }

  predicate PieceOk(p: Piece) {
    match p
    case Gap(c) => !WordChar(c) && c != '"' && c != '\''
    case Word(text) => text != "" && forall i :: 0 <= i < |text| ==> WordChar(text[i])
    case Quoted(quote, items, _) =>
      (quote == '"' || quote == '\'') && forall i :: 0 <= i < |items| ==> ItemOk(quote, items[i])
  }

  /** Words are whole, and only the last string is not closed. */
  predicate PiecesOk(ps: seq<Piece>)
    decreases |ps|
  {
    ps == []
    || (PieceOk(ps[0]) && PiecesOk(ps[1..])
        && (|ps| > 1 ==> !(ps[0].Word? && ps[1].Word?) && (ps[0].Quoted? ==> ps[0].end == Closed)))
  }

  // ----- the text, and what becomes of it -----

  function ItemText(item: Item): string {
    match item case Bare(c) => [c] case Escaped(c) => ['\\', c]
  }

  function ItemsText(items: seq<Item>): string {
    if items == [] then "" else ItemText(items[0]) + ItemsText(items[1..])
  }

  function EndText(quote: char, end: End): string {
    match end case Closed => [quote] case Open => "" case Dangling => "\\"
  }

  function PieceText(p: Piece): string {
    match p
    case Gap(c) => [c]
    case Word(text) => text
    case Quoted(quote, items, end) => [quote] + (ItemsText(items) + EndText(quote, end))
  }

  function PiecesText(ps: seq<Piece>): string
    decreases |ps|
  {
    if ps == [] then "" else PieceText(ps[0]) + PiecesText(ps[1..])
  }

  /** A beginning of one of the three words becomes as much of the JSON word. */
  function WordOut(text: string): string {
    if text <= "True" then "true"[..|text|]
    else if text <= "False" then "false"[..|text|]
    else if text <= "None" then "null"[..|text|]
    else text
  }

  /** In single quotes a double quote needs a backslash and a single one loses it. */
  function ItemOut(quote: char, item: Item): string {
    if quote == '\'' && item == Bare('"') then "\\\""
    else if quote == '\'' && item == Escaped('\'') then "'"
    else ItemText(item)
  }

  function ItemsOut(quote: char, items: seq<Item>): string {
    if items == [] then "" else ItemOut(quote, items[0]) + ItemsOut(quote, items[1..])
  }

  function PieceOut(p: Piece): string {
    match p
    case Gap(c) => [c]
    case Word(text) => WordOut(text)
    case Quoted(quote, items, end) => "\"" + (ItemsOut(quote, items) + EndText('"', end))
  }

  function PiecesOut(ps: seq<Piece>): string
    decreases |ps|
  {
    if ps == [] then "" else PieceOut(ps[0]) + PiecesOut(ps[1..])
  }

  // ----- one token at a time -----

  lemma OneToken(at: Place, taken: string, rest: string, out: string, mode: Mode)
    requires taken != "" && TokenAt(at, taken + rest) == Token(out, |taken|, mode)
    ensures Transcode(at, taken + rest) == out + Transcode(Place(mode, IsWordChar(taken[|taken| - 1])), rest)
  {
    TokenStep(at, taken + rest);
    assert (taken + rest)[|taken|..] == rest && (taken + rest)[|taken| - 1] == taken[|taken| - 1];
  }

  function ModeOfQuote(quote: char): Mode { if quote == '"' then Double else Single }

  /** A character of a string. */
  lemma ItemTaken(quote: char, item: Item, rest: string, w: bool) returns (w': bool)
    requires (quote == '"' || quote == '\'') && ItemOk(quote, item)
    ensures Transcode(Place(ModeOfQuote(quote), w), ItemText(item) + rest)
            == ItemOut(quote, item) + Transcode(Place(ModeOfQuote(quote), w'), rest)
  {
    var at, text := Place(ModeOfQuote(quote), w), ItemText(item);
    OneToken(at, text, rest, ItemOut(quote, item), at.mode);
    w' := IsWordChar(text[|text| - 1]);
  }

  lemma EndTaken(quote: char, end: End, rest: string, w: bool)
    requires (quote == '"' || quote == '\'') && (end != Closed ==> rest == "")
    ensures Transcode(Place(ModeOfQuote(quote), w), EndText(quote, end) + rest)
            == EndText('"', end) + Transcode(Place(Plain, false), rest)
  {
    var at := Place(ModeOfQuote(quote), w);
    match end
    case Open =>
    case Closed => OneToken(at, [quote], rest, "\"", Plain);
    case Dangling => OneToken(at, "\\", rest, "\\", at.mode);
  }

  /** The characters of a string and its end. */
  lemma {:induction false} ItemsTaken(quote: char, items: seq<Item>, end: End, rest: string, w: bool)
    requires (quote == '"' || quote == '\'') && (forall i :: 0 <= i < |items| ==> ItemOk(quote, items[i]))
    requires end != Closed ==> rest == ""
    ensures Transcode(Place(ModeOfQuote(quote), w), ItemsText(items) + (EndText(quote, end) + rest))
            == ItemsOut(quote, items) + (EndText('"', end) + Transcode(Place(Plain, false), rest))
    decreases |items|
  {
    var tail := EndText(quote, end) + rest;
    if items == [] {
      assert "" + tail == tail;
      EndTaken(quote, end, rest, w);
    } else {
      Associate(ItemText(items[0]), ItemsText(items[1..]), tail);
      var w' := ItemTaken(quote, items[0], ItemsText(items[1..]) + tail, w);
      ItemsTaken(quote, items[1..], end, rest, w');
      Associate(ItemOut(quote, items[0]), ItemsOut(quote, items[1..]),
                EndText('"', end) + Transcode(Place(Plain, false), rest));
    }
  }

  lemma StringTaken(quote: char, items: seq<Item>, end: End, rest: string, w: bool)
    requires PieceOk(Quoted(quote, items, end)) && (end != Closed ==> rest == "")
    ensures Transcode(Place(Plain, w), PieceText(Quoted(quote, items, end)) + rest)
            == PieceOut(Quoted(quote, items, end)) + Transcode(Place(Plain, false), rest)
  {
    var inside, out := ItemsText(items), ItemsOut(quote, items);
    Associate([quote], inside + EndText(quote, end), rest);
    Associate(inside, EndText(quote, end), rest);
    OneToken(Place(Plain, w), [quote], inside + (EndText(quote, end) + rest), "\"", ModeOfQuote(quote));
    ItemsTaken(quote, items, end, rest, false);
    Associate("\"", out + EndText('"', end), Transcode(Place(Plain, false), rest));
    Associate(out, EndText('"', end), Transcode(Place(Plain, false), rest));
  }

  lemma {:induction false} CharsTaken(word: string, rest: string)
    requires forall i :: 0 <= i < |word| ==> WordChar(word[i])
    ensures Transcode(Place(Plain, true), word + rest) == word + Transcode(Place(Plain, true), rest)
    decreases |word|
  {
    if word == "" {
      assert word + rest == rest;
    } else {
      assert word == [word[0]] + word[1..] && word + rest == [word[0]] + (word[1..] + rest);
      OneToken(Place(Plain, true), [word[0]], word[1..] + rest, [word[0]], Plain);
      CharsTaken(word[1..], rest);
    }
  }

  predicate BeginsLiteral(word: string) { word <= "True" || word <= "False" || word <= "None" }

  lemma LiteralWord(word: string)
    requires word != ""
    ensures BeginsLiteral(word) <==> word[0] in {'T', 'F', 'N'} && LiteralPrefix(word)
    ensures BeginsLiteral(word) ==> WordOut(word) == JsonLiteral(word[0])[..|word|]
    ensures !BeginsLiteral(word) ==> WordOut(word) == word
  {
  }

  /** The first token of a text that starts with a whole word. */
  lemma WordToken(s: string, word: string)
    requires PieceOk(Word(word)) && word <= s && WordLen(s) == |word|
    ensures TokenAt(Place(Plain, false), s)
            == if BeginsLiteral(word) then Token(WordOut(word), |word|, Plain) else Token([word[0]], 1, Plain)
  {
    LiteralWord(word);
    assert s[..|word|] == word && WordChar(word[0]);
  }

  lemma WordTaken(word: string, rest: string)
    requires PieceOk(Word(word)) && (rest == "" || !WordChar(rest[0]))
    ensures Transcode(Place(Plain, false), word + rest) == WordOut(word) + Transcode(Place(Plain, true), rest)
  {
    WordLenUnique(word + rest, |word|);
    WordToken(word + rest, word);
    assert WordChar(word[0]) && WordChar(word[|word| - 1]);
    if BeginsLiteral(word) {
      OneToken(Place(Plain, false), word, rest, WordOut(word), Plain);
    } else {
      LiteralWord(word);
      assert word == [word[0]] + word[1..];
      Associate([word[0]], word[1..], rest);
      OtherWord(word[0], word[1..], rest);
      Associate([word[0]], word[1..], Transcode(Place(Plain, true), rest));
    }
  }

  lemma OtherWord(c: char, more: string, rest: string)
    requires WordChar(c) && forall i :: 0 <= i < |more| ==> WordChar(more[i])
    requires TokenAt(Place(Plain, false), [c] + (more + rest)) == Token([c], 1, Plain)
    ensures Transcode(Place(Plain, false), [c] + (more + rest)) == [c] + (more + Transcode(Place(Plain, true), rest))
  {
    OneToken(Place(Plain, false), [c], more + rest, [c], Plain);
    CharsTaken(more, rest);
  }

  lemma PieceTaken(p: Piece, rest: string, w: bool) returns (w': bool)
    requires PieceOk(p) && (p.Quoted? && p.end != Closed ==> rest == "")
    requires p.Word? ==> !w && (rest == "" || !WordChar(rest[0]))
    ensures Transcode(Place(Plain, w), PieceText(p) + rest) == PieceOut(p) + Transcode(Place(Plain, w'), rest)
    ensures w' <==> p.Word?
  {
    w' := p.Word?;
    match p
    case Gap(c) => OneToken(Place(Plain, w), [c], rest, [c], Plain);
    case Word(text) => WordTaken(text, rest);
    case Quoted(quote, items, end) => StringTaken(quote, items, end, rest, w);
  }

  lemma FirstChar(ps: seq<Piece>)
    requires PiecesOk(ps)
    ensures ps == [] <==> PiecesText(ps) == ""
    ensures ps != [] ==> (ps[0].Word? <==> WordChar(PiecesText(ps)[0]))
  {
    if ps != [] && ps[0].Quoted? { assert PieceText(ps[0])[0] == ps[0].quote; }
  }

  /** The output is that of the pieces, one after the other. */
  lemma {:induction false} PiecesTaken(ps: seq<Piece>, w: bool)
    requires PiecesOk(ps) && (w && ps != [] ==> !ps[0].Word?)
    ensures Transcode(Place(Plain, w), PiecesText(ps)) == PiecesOut(ps)
    decreases |ps|
  {
    if ps != [] {
      FirstChar(ps[1..]);
      var w' := PieceTaken(ps[0], PiecesText(ps[1..]), w);
      PiecesTaken(ps[1..], w');
    }
  }

  // ----- every text has its pieces -----

  lemma {:induction false} CutString(quote: char, s: string) returns (items: seq<Item>, end: End, rest: string)
    requires quote == '"' || quote == '\''
    ensures s == ItemsText(items) + (EndText(quote, end) + rest)
    ensures forall i :: 0 <= i < |items| ==> ItemOk(quote, items[i])
    ensures (end != Closed ==> rest == "") && |rest| <= |s|
    decreases |s|
  {
    if s == "" {
      items, end, rest := [], Open, "";
    } else if s[0] == quote {
      items, end, rest := [], Closed, s[1..];
    } else if s == "\\" {
      items, end, rest := [], Dangling, "";
    } else {
      var item := if s[0] == '\\' then Escaped(s[1]) else Bare(s[0]);
      var n := |ItemText(item)|;
      var more;
      more, end, rest := CutString(quote, s[n..]);
      items := [item] + more;
      assert s == ItemText(item) + s[n..] && items[1..] == more;
      Associate(ItemText(item), ItemsText(more), EndText(quote, end) + rest);
    }
  }

  lemma CutFirst(s: string) returns (p: Piece, rest: string)
    requires s != ""
    ensures PieceOk(p) && s == PieceText(p) + rest && |rest| < |s| && (p.Quoted? && p.end != Closed ==> rest == "")
    ensures p.Word? ==> rest == "" || !WordChar(rest[0])
  {
    var c := s[0];
    if WordChar(c) {
      var n := WordLen(s);
      p, rest := Word(s[..n]), s[n..];
    } else if c == '"' || c == '\'' {
      var items, end;
      items, end, rest := CutString(c, s[1..]);
      p := Quoted(c, items, end);
      assert s == [c] + s[1..];
      Associate([c], ItemsText(items) + EndText(c, end), rest);
      Associate(ItemsText(items), EndText(c, end), rest);
    } else {
      p, rest := Gap(c), s[1..];
    }
  }

  /** Every text is made of pieces. */
  lemma {:induction false} Cut(s: string) returns (ps: seq<Piece>)
    ensures PiecesOk(ps) && PiecesText(ps) == s
    decreases |s|
  {
    ps := [];
    if s != "" {
      var p, rest := CutFirst(s);
      var more := Cut(rest);
      FirstChar(more);
      ps := [p] + more;
      assert ps[1..] == more;
    }
  }

  /** What the transcoder writes for any text: it has pieces, and however it is cut into them, the output is theirs. */
  lemma NormalizeExactly(s: string)
    ensures exists ps :: PiecesOk(ps) && PiecesText(ps) == s
    ensures forall ps :: PiecesOk(ps) && PiecesText(ps) == s ==> Normalize(s) == PiecesOut(ps)
  {
    var cut := Cut(s);
    forall ps | PiecesOk(ps) && PiecesText(ps) == s ensures Normalize(s) == PiecesOut(ps) { PiecesTaken(ps, false); }
  }
}
