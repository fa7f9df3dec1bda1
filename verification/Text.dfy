/**
 Character-level helpers: the prefix order, the C locale's white space, trimming,
 and the string escaping of section 7 of RFC 8259 as the JSON library performs it.
 Strings are sequences of characters; no encoding is modelled.
 */
module Text {
  import opened Sequences

  /** `isspace` in the C locale: space, \t, \n, \v, \f, \r. */
  predicate IsSpace(c: char) {
    c == ' ' || '\t' <= c <= '\r'
  }

  function TrimTrailing(s: string): (r: string)
    ensures r <= s
    ensures r != "" ==> !IsSpace(r[|r| - 1])
    ensures forall i :: |r| <= i < |s| ==> IsSpace(s[i])
  {
    if s != "" && IsSpace(s[|s| - 1]) then TrimTrailing(s[..|s| - 1]) else s
  }

  /** The mapper's `trim`: at most one leading white-space character, all trailing ones. */
  function TrimName(s: string): string {
    TrimTrailing(if s != "" && IsSpace(s[0]) then s[1..] else s)
  }

  lemma TrimTrailingMonotone(a: string, b: string)
    requires a <= b
    ensures TrimTrailing(a) <= TrimTrailing(b)
  {
    var x, y := TrimTrailing(a), TrimTrailing(b);
    if x != "" {
      assert b[|x| - 1] == x[|x| - 1];
      assert |x| - 1 < |y|;
    }
  }

  lemma SpacesAre(c: char)
    ensures IsSpace(c) <==> c as int in {9, 10, 11, 12, 13, 32}
  {
  }

  /** A name loses all white space behind it, and of what is before it only one character. */
  lemma NameTrimmed(name: string, lead: string, tail: string)
    requires name != "" && !IsSpace(name[0]) && !IsSpace(name[|name| - 1])
    requires (forall c :: c in lead ==> IsSpace(c)) && forall c :: c in tail ==> IsSpace(c)
    ensures TrimName(lead + name + tail) == (if lead == "" then "" else lead[1..]) + name
  {
    var kept := (if lead == "" then "" else lead[1..]) + name;
    var text := lead + name + tail;
    assert (if text != "" && IsSpace(text[0]) then text[1..] else text) == kept + tail by {
      if lead == "" { assert text[0] == name[0]; } else { assert text[0] == lead[0] && lead[0] in lead; }
    }
    TrimsTail(kept, tail);
  }

  lemma {:induction false} TrimsTail(kept: string, tail: string)
    requires kept != "" && !IsSpace(kept[|kept| - 1]) && forall c :: c in tail ==> IsSpace(c)
    ensures TrimTrailing(kept + tail) == kept
    decreases |tail|
  {
    if tail == "" {
      assert kept + tail == kept;
    } else {
      var n := |tail| - 1;
      assert tail[n] in tail && (kept + tail)[..|kept + tail| - 1] == kept + tail[..n];
      TrimsTail(kept, tail[..n]);
    }
  }

  function HexDigit(n: nat): (c: char)
    requires n < 16
    ensures '0' <= c <= '9' || 'a' <= c <= 'f'
  {
    if n < 10 then '0' + n as char else 'a' + (n - 10) as char
  }

  function EscapeChar(c: char): (r: string)
    ensures r != ""
  {
    if c == '"' then "\\\""
    else if c == '\\' then "\\\\"
    else if c == '\n' then "\\n"
    else if c == '\r' then "\\r"
    else if c == '\t' then "\\t"
    else if c == 8 as char then "\\b"
    else if c == 12 as char then "\\f"
    else if c < ' ' then "\\u00" + [HexDigit(c as int / 16), HexDigit(c as int % 16)]
    else [c]
  }

  /** Replaces every character by a string of its own. */
  function FlatMap(f: char -> string, s: string): string {
    if s == "" then "" else f(s[0]) + FlatMap(f, s[1..])
  }

  lemma {:induction false} FlatMapConcat(f: char -> string, a: string, b: string)
    ensures FlatMap(f, a + b) == FlatMap(f, a) + FlatMap(f, b)
  {
    if a == "" {
      assert a + b == b;
    } else {
      FlatMapConcat(f, a[1..], b);
      assert (a + b)[1..] == a[1..] + b;
      Associate(f(a[0]), FlatMap(f, a[1..]), FlatMap(f, b));
    }
  }

  function Escape(s: string): string {
    FlatMap(EscapeChar, s)
  }

  /** How the JSON library prints a string value. */
  function Dump(s: string): string {
    "\"" + Escape(s) + "\""
  }

  /** Escaping is monotone in the prefix order, so a growing text escapes to a growing text. */
  lemma EscapeMonotone(a: string, b: string)
    requires a <= b
    ensures Escape(a) <= Escape(b)
  {
    FlatMapConcat(EscapeChar, a, b[|a|..]);
    assert a + b[|a|..] == b;
  }
}
