/** The mapper's brace counter (common/chat-peg-parser.cpp, `json_brace_depth`). */
module JsonScan {
  import opened Text

  datatype Scan = Scan(depth: int, inString: bool, escaped: bool)

  const OUTSIDE := Scan(0, false, false)

  function ScanChar(s: Scan, c: char): Scan {
    if s.escaped then s.(escaped := false)
    else if c == '\\' && s.inString then s.(escaped := true)
    else if c == '"' then s.(inString := !s.inString)
    else if s.inString then s
    else if c == '{' then s.(depth := s.depth + 1)
    else if c == '}' then s.(depth := s.depth - 1)
    else s
  }

  function ScanText(s: Scan, text: string): Scan
    decreases |text|
  {
    if text == "" then s else ScanText(ScanChar(s, text[0]), text[1..])
  }

  function BraceDepth(text: string): int { ScanText(OUTSIDE, text).depth }

  method JsonBraceDepth(s: string) returns (depth: int)
    ensures depth == BraceDepth(s)
  {
    depth := 0;
    var inString, escaped := false, false;
    for i := 0 to |s|
      invariant ScanText(Scan(depth, inString, escaped), s[i..]) == ScanText(OUTSIDE, s)
    {
      var c := s[i];
      ghost var at, rest := Scan(depth, inString, escaped), s[i..];
      assert rest[0] == c && rest[1..] == s[i + 1..];
      if escaped {
        escaped := false;
      } else if c == '\\' && inString {
        escaped := true;
      } else if c == '"' {
        inString := !inString;
      } else if !inString {
        if c == '{' {
          depth := depth + 1;
        } else if c == '}' {
          depth := depth - 1;
        }
      }
      assert ScanText(at, rest) == ScanText(Scan(depth, inString, escaped), s[i + 1..]);
    }
    assert s[|s|..] == "";
  }

  lemma {:induction false} ScanConcat(s: Scan, a: string, b: string)
    ensures ScanText(s, a + b) == ScanText(ScanText(s, a), b)
    decreases |a|
  {
    if a == "" {
      assert a + b == b;
    } else {
      assert (a + b)[1..] == a[1..] + b;
      ScanConcat(ScanChar(s, a[0]), a[1..], b);
    }
  }

  /** The depth is only ever added to. */
  lemma {:induction false} ScanShift(s: Scan, text: string, k: int)
    ensures ScanText(s.(depth := s.depth + k), text) == var r := ScanText(s, text); r.(depth := r.depth + k)
    decreases |text|
  {
    if text != "" {
      ScanShift(ScanChar(s, text[0]), text[1..], k);
      assert ScanChar(s.(depth := s.depth + k), text[0])
             == var r := ScanChar(s, text[0]); r.(depth := r.depth + k);
    }
  }

  lemma ScanSmall(s: Scan, text: string)
    ensures |text| == 1 ==> ScanText(s, text) == ScanChar(s, text[0])
    ensures |text| == 2 ==> ScanText(s, text) == ScanChar(ScanChar(s, text[0]), text[1])
    decreases |text|
  {
    if |text| == 1 {
      assert text[1..] == "";
    } else if |text| == 2 {
      ScanSmall(ScanChar(s, text[0]), text[1..]);
    }
  }

  /** A text that leaves the scanner where it found it, outside any string. */
  predicate Balanced(text: string) { ScanText(OUTSIDE, text) == OUTSIDE }

  lemma BalancedAnywhere(text: string, d: int)
    requires Balanced(text)
    ensures ScanText(Scan(d, false, false), text) == Scan(d, false, false)
  {
    ScanShift(OUTSIDE, text, d);
  }

  lemma BalancedConcat(a: string, b: string)
    requires Balanced(a) && Balanced(b)
    ensures Balanced(a + b)
  {
    ScanConcat(OUTSIDE, a, b);
  }

  /** Escape-safe: inside a string the scanner stays inside it. */
  predicate StaysInside(text: string) {
    ScanText(Scan(0, true, false), text) == Scan(0, true, false)
  }

  lemma UnicodeEscapeStaysInside(a: char, b: char)
    requires a != '"' && a != '\\' && b != '"' && b != '\\'
    ensures StaysInside(['\\', 'u', '0', '0', a, b])
  {
    var s := Scan(0, true, false);
    ScanSmall(s, ['\\', 'u']);
    ScanSmall(s, ['0', '0']);
    ScanSmall(s, [a, b]);
    ScanConcat(s, ['\\', 'u'], ['0', '0']);
    ScanConcat(s, ['\\', 'u', '0', '0'], [a, b]);
    assert ['\\', 'u'] + ['0', '0'] == ['\\', 'u', '0', '0'];
    assert ['\\', 'u', '0', '0'] + [a, b] == ['\\', 'u', '0', '0', a, b];
  }

  lemma EscapedCharStaysInside(c: char)
    ensures StaysInside(EscapeChar(c))
  {
    var e := EscapeChar(c);
    if |e| <= 2 {
      ScanSmall(Scan(0, true, false), e);
    } else {
      UnicodeEscapeStaysInside(e[4], e[5]);
      assert e == ['\\', 'u', '0', '0', e[4], e[5]];
    }
  }

  lemma {:induction false} MapStaysInside(f: char -> string, s: string)
    requires forall c :: StaysInside(f(c))
    ensures StaysInside(FlatMap(f, s))
    decreases |s|
  {
    if s != "" {
      MapStaysInside(f, s[1..]);
      ScanConcat(Scan(0, true, false), f(s[0]), FlatMap(f, s[1..]));
    }
  }

  lemma QuotedBalanced(f: char -> string, s: string)
    requires forall c :: StaysInside(f(c))
    ensures Balanced("\"" + FlatMap(f, s) + "\"")
  {
    var body := FlatMap(f, s);
    MapStaysInside(f, s);
    ScanConcat(OUTSIDE, "\"" + body, "\"");
    ScanConcat(OUTSIDE, "\"", body);
    ScanSmall(OUTSIDE, "\"");
    ScanSmall(Scan(0, true, false), "\"");
  }

  /** A printed JSON string never moves the brace count, whatever it contains. */
  lemma DumpBalanced(s: string)
    ensures Balanced(Dump(s))
  {
    forall c ensures StaysInside(EscapeChar(c)) {
      EscapedCharStaysInside(c);
    }
    QuotedBalanced(EscapeChar, s);
  }

  function CountOf(c: char, text: string): nat {
    if text == "" then 0 else (if text[0] == c then 1 else 0) + CountOf(c, text[1..])
  }

  lemma {:induction false} UnquotedScan(d: int, text: string)
    requires '"' !in text
    ensures ScanText(Scan(d, false, false), text) == Scan(d + CountOf('{', text) - CountOf('}', text), false, false)
    decreases |text|
  {
    if text != "" {
      assert text == [text[0]] + text[1..];
      UnquotedScan(ScanChar(Scan(d, false, false), text[0]).depth, text[1..]);
    }
  }

  /** Texts without a quote, with printed strings between them. */
  function WithStrings(texts: seq<string>, strings: seq<string>): string
    requires |texts| == |strings| + 1
  {
    if strings == [] then texts[0] else texts[0] + (Dump(strings[0]) + WithStrings(texts[1..], strings[1..]))
  }

  function Braced(c: char, texts: seq<string>): nat {
    if texts == [] then 0 else CountOf(c, texts[0]) + Braced(c, texts[1..])
  }

  lemma {:induction false} ScanWithStrings(d: int, texts: seq<string>, strings: seq<string>)
    requires |texts| == |strings| + 1 && forall i :: 0 <= i < |texts| ==> '"' !in texts[i]
    ensures ScanText(Scan(d, false, false), WithStrings(texts, strings))
            == Scan(d + Braced('{', texts) - Braced('}', texts), false, false)
    decreases |strings|
  {
    UnquotedScan(d, texts[0]);
    var d' := d + CountOf('{', texts[0]) - CountOf('}', texts[0]);
    if strings == [] {
      assert texts[1..] == [];
    } else {
      DumpBalanced(strings[0]);
      BalancedAnywhere(Dump(strings[0]), d');
      ScanWithStrings(d', texts[1..], strings[1..]);
      ScanConcat(Scan(d', false, false), Dump(strings[0]), WithStrings(texts[1..], strings[1..]));
      ScanConcat(Scan(d, false, false), texts[0], Dump(strings[0]) + WithStrings(texts[1..], strings[1..]));
    }
  }

  /** The depth is the opening braces less the closing ones, without those inside strings. */
  lemma DepthCounts(texts: seq<string>, strings: seq<string>)
    requires |texts| == |strings| + 1 && forall i :: 0 <= i < |texts| ==> '"' !in texts[i]
    ensures BraceDepth(WithStrings(texts, strings)) == Braced('{', texts) - Braced('}', texts)
  {
    ScanWithStrings(0, texts, strings);
  }
}
