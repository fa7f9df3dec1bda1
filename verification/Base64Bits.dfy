/**
 What the characters of Base64 stand for: the two tables of RFC 4648, and the 24 bits of a group, which are three
 bytes on one side and four symbols on the other. Decoding reads every text that way, also one no encoder writes.
 */
module Base64Bits {
  import opened Wrappers
  import opened Base64

  // ----- the tables -----

  /** Table 1 and table 2 of RFC 4648: capital letters, small letters, digits, and two more. */
  lemma SymbolTable(alphabet: Alphabet, v: Byte)
    requires v < 64
    ensures Symbol(alphabet, 0) == 65 && Symbol(alphabet, 26) == 97 && Symbol(alphabet, 52) == 48
    ensures v < 25 || 26 <= v < 51 || 52 <= v < 61 ==> Symbol(alphabet, v + 1) == Symbol(alphabet, v) + 1
    ensures Symbol(Standard, 62) == Symbol(Auto, 62) == 43 && Symbol(Standard, 63) == Symbol(Auto, 63) == 47
    ensures Symbol(UrlFilenameSafe, 62) == 45 && Symbol(UrlFilenameSafe, 63) == 95
  {
  }

  lemma ValueFits(known: Alphabet, c: Byte)
    ensures Base64Value(known, c).Some? ==> Base64Value(known, c).value.value < 64
  {
  }

  // ----- the bits of a group -----

  /** Three bytes as one number. */
  function Word(b0: Byte, b1: Byte, b2: Byte): bv24 { ((b0 as bv24) << 16) | ((b1 as bv24) << 8) | (b2 as bv24) }

  /** Four times six bits as one number. */
  function Word6(v0: Byte, v1: Byte, v2: Byte, v3: Byte): bv24 {
    ((v0 as bv24) << 18) | ((v1 as bv24) << 12) | ((v2 as bv24) << 6) | (v3 as bv24)
  }

  lemma GroupBits(b0: Byte, b1: Byte, b2: Byte)
    ensures Word6(First6(b0), Second6(b0, b1), Third6(b1, b2), Fourth6(b2)) == Word(b0, b1, b2)
  {
  }

  /** Six bits, four times, are only one number's. */
  lemma SameSixes(u0: Byte, u1: Byte, u2: Byte, u3: Byte, v0: Byte, v1: Byte, v2: Byte, v3: Byte)
    requires u0 < 64 && u1 < 64 && u2 < 64 && u3 < 64 && v0 < 64 && v1 < 64 && v2 < 64 && v3 < 64
    requires Word6(u0, u1, u2, u3) == Word6(v0, v1, v2, v3)
    ensures u0 == v0 && u1 == v1 && u2 == v2 && u3 == v3
  {
  }

  function ByteAt(s: seq<Byte>, i: nat): Byte { if i < |s| then s[i] else 0 }

  /** The four characters from `4 * k` on: a symbol for each value, but pads where the input has no byte for it. */
  predicate GroupAt(e: seq<Byte>, s: seq<Byte>, k: nat, alphabet: Alphabet, v0: Byte, v1: Byte, v2: Byte, v3: Byte)
    requires v0 < 64 && v1 < 64 && v2 < 64 && v3 < 64
  {
    && 4 * k + 4 <= |e| && e[4 * k] == Symbol(alphabet, v0) && e[4 * k + 1] == Symbol(alphabet, v1)
    && e[4 * k + 2] == (if 3 * k + 1 < |s| then Symbol(alphabet, v2) else 61)
    && e[4 * k + 3] == (if 3 * k + 2 < |s| then Symbol(alphabet, v3) else 61)
  }

  lemma FirstGroup(s: seq<Byte>, alphabet: Alphabet, v0: Byte, v1: Byte, v2: Byte, v3: Byte)
    requires s != [] && v0 < 64 && v1 < 64 && v2 < 64 && v3 < 64
    requires Word6(v0, v1, v2, v3) == Word(s[0], ByteAt(s, 1), ByteAt(s, 2))
    ensures GroupAt(Quad(alphabet, s), s, 0, alphabet, v0, v1, v2, v3)
  {
    var b0, b1, b2 := s[0], ByteAt(s, 1), ByteAt(s, 2);
    GroupBits(b0, b1, b2);
    SameSixes(First6(b0), Second6(b0, b1), Third6(b1, b2), Fourth6(b2), v0, v1, v2, v3);
  }

  lemma LaterGroup(q: seq<Byte>, e: seq<Byte>, s: seq<Byte>, k: nat, alphabet: Alphabet,
                   v0: Byte, v1: Byte, v2: Byte, v3: Byte)
    requires v0 < 64 && v1 < 64 && v2 < 64 && v3 < 64 && |q| == 4 && |s| > 3
    requires GroupAt(e, s[3..], k, alphabet, v0, v1, v2, v3)
    ensures GroupAt(q + e, s, k + 1, alphabet, v0, v1, v2, v3)
  {
    var n := 4 * k;
    Shifted(q, e, n);
    Shifted(q, e, n + 1);
    Shifted(q, e, n + 2);
    Shifted(q, e, n + 3);
  }

  lemma Shifted(q: seq<Byte>, e: seq<Byte>, i: nat)
    requires |q| == 4 && i < |e|
    ensures (q + e)[i + 4] == e[i]
  {
  }

  lemma GroupStays(q: seq<Byte>, e: seq<Byte>, s: seq<Byte>, alphabet: Alphabet, v0: Byte, v1: Byte, v2: Byte, v3: Byte)
    requires v0 < 64 && v1 < 64 && v2 < 64 && v3 < 64 && GroupAt(q, s, 0, alphabet, v0, v1, v2, v3)
    ensures GroupAt(q + e, s, 0, alphabet, v0, v1, v2, v3)
  {
  }

  lemma BytesLater(s: seq<Byte>, k: nat)
    requires 3 * (k + 1) < |s|
    ensures s[3..][3 * k] == s[3 * (k + 1)] && ByteAt(s[3..], 3 * k + 1) == ByteAt(s, 3 * (k + 1) + 1)
    ensures ByteAt(s[3..], 3 * k + 2) == ByteAt(s, 3 * (k + 1) + 2)
  {
  }

  /** Group `k` of an encoding: the symbols of its 24 bits, where those without a byte of the input are pads. */
  lemma {:induction false} EncodedExactly(s: seq<Byte>, alphabet: Alphabet, k: nat,
                                          v0: Byte, v1: Byte, v2: Byte, v3: Byte)
    requires 3 * k < |s| && v0 < 64 && v1 < 64 && v2 < 64 && v3 < 64
    requires Word6(v0, v1, v2, v3) == Word(s[3 * k], ByteAt(s, 3 * k + 1), ByteAt(s, 3 * k + 2))
    ensures GroupAt(Encoded(s, alphabet), s, k, alphabet, v0, v1, v2, v3)
    decreases k
  {
    if k == 0 {
      EncodedParts(s, alphabet, if |s| < 3 then |s| else 3);
      FirstGroup(s, alphabet, v0, v1, v2, v3);
      GroupStays(Quad(alphabet, s), Encoded(s[if |s| < 3 then |s| else 3..], alphabet), s, alphabet, v0, v1, v2, v3);
    } else {
      BytesLater(s, k - 1);
      EncodedExactly(s[3..], alphabet, k - 1, v0, v1, v2, v3);
      EncodedParts(s, alphabet, 3);
      LaterGroup(Quad(alphabet, s), Encoded(s[3..], alphabet), s, k - 1, alphabet, v0, v1, v2, v3);
    }
  }

  lemma EncodedParts(s: seq<Byte>, alphabet: Alphabet, n: nat)
    requires s != [] && n == if |s| < 3 then |s| else 3
    ensures Encoded(s, alphabet) == Quad(alphabet, s) + Encoded(s[n..], alphabet)
  {
    assert Encoded(s, alphabet) == QuadAndRest(s, alphabet);
  }

  // ----- reading groups -----

  /** Characters that are symbols, one after the other, with the values given; `known` is what is known afterwards. */
  predicate Reads(c: Byte, v: Byte, known: Alphabet, known': Alphabet) {
    c != 61 && Base64Value(known, c) == Some(Read6(known', v))
  }

  lemma OneRead(c: Byte, v: Byte, rest: seq<Byte>, r: Reader, known': Alphabet, behavior: DecodingBehavior)
    requires Valid(r) && Reads(c, v, r.alphabet, known')
    ensures DecodeFrom([c] + rest, r, behavior)
            == Written(Completed(r, v), DecodeFrom(rest, NextReader(r, Read6(known', v)), behavior))
  {
    var s := [c] + rest;
    assert s[0..] == s && s[1..] == rest;
    TakeSymbol(s, 0, r, Read6(known', v), behavior);
  }

  lemma JoinedBits(v0: Byte, v1: Byte, v2: Byte, v3: Byte)
    requires v0 < 64 && v1 < 64 && v2 < 64 && v3 < 64
    ensures Word(Join(6, v0, v1), Join(4, v1, v2), Join(2, v2, v3)) == Word6(v0, v1, v2, v3)
  {
  }

  lemma WrittenTwice(a: seq<Byte>, b: seq<Byte>, rest: Option<seq<Byte>>)
    ensures Written(a, Written(b, rest)) == Written(a + b, rest)
  {
    if rest.Some? { assert a + (b + rest.value) == a + b + rest.value; }
  }

  /** Two symbols make the first byte, of which the last four bits are left for the next. */
  lemma TwoRead(c0: Byte, v0: Byte, c1: Byte, v1: Byte, rest: seq<Byte>, r: Reader, a1: Alphabet, a2: Alphabet,
                behavior: DecodingBehavior)
    requires r.bits == 0 && Reads(c0, v0, r.alphabet, a1) && Reads(c1, v1, a1, a2)
    ensures DecodeFrom([c0, c1] + rest, r, behavior)
            == Written([Join(6, v0, v1)], DecodeFrom(rest, Reader(a2, v1, 4), behavior))
  {
    assert [c0, c1] + rest == [c0] + ([c1] + rest);
    OneRead(c0, v0, [c1] + rest, r, a1, behavior);
    OneRead(c1, v1, rest, Reader(a1, v0, 6), a2, behavior);
    assert [] + [Join(6, v0, v1)] == [Join(6, v0, v1)];
    WrittenTwice([], [Join(6, v0, v1)], DecodeFrom(rest, Reader(a2, v1, 4), behavior));
  }

  lemma ThreeRead(c0: Byte, v0: Byte, c1: Byte, v1: Byte, c2: Byte, v2: Byte, rest: seq<Byte>, r: Reader,
                  a1: Alphabet, a2: Alphabet, a3: Alphabet, behavior: DecodingBehavior)
    requires r.bits == 0 && Reads(c0, v0, r.alphabet, a1) && Reads(c1, v1, a1, a2) && Reads(c2, v2, a2, a3)
    ensures DecodeFrom([c0, c1, c2] + rest, r, behavior)
            == Written([Join(6, v0, v1), Join(4, v1, v2)], DecodeFrom(rest, Reader(a3, v2, 2), behavior))
  {
    assert [c0, c1, c2] + rest == [c0, c1] + ([c2] + rest);
    TwoRead(c0, v0, c1, v1, [c2] + rest, r, a1, a2, behavior);
    OneRead(c2, v2, rest, Reader(a2, v1, 4), a3, behavior);
    assert [Join(6, v0, v1)] + [Join(4, v1, v2)] == [Join(6, v0, v1), Join(4, v1, v2)];
    WrittenTwice([Join(6, v0, v1)], [Join(4, v1, v2)], DecodeFrom(rest, Reader(a3, v2, 2), behavior));
  }

  /** Four symbols are the three bytes with the same 24 bits, and nothing of them is left for what follows. */
  lemma GroupDecodes(c0: Byte, v0: Byte, c1: Byte, v1: Byte, c2: Byte, v2: Byte, c3: Byte, v3: Byte, rest: seq<Byte>,
                     r: Reader, a1: Alphabet, a2: Alphabet, a3: Alphabet, a4: Alphabet, behavior: DecodingBehavior)
    returns (bytes: seq<Byte>)
    requires r.bits == 0 && Reads(c0, v0, r.alphabet, a1) && Reads(c1, v1, a1, a2) && Reads(c2, v2, a2, a3)
    requires Reads(c3, v3, a3, a4)
    ensures |bytes| == 3 && Word(bytes[0], bytes[1], bytes[2]) == Word6(v0, v1, v2, v3)
    ensures DecodeFrom([c0, c1, c2, c3] + rest, r, behavior)
            == Written(bytes, DecodeFrom(rest, Reader(a4, v3, 0), behavior))
  {
    ValueFits(r.alphabet, c0);
    ValueFits(a1, c1);
    ValueFits(a2, c2);
    ValueFits(a3, c3);
    bytes := [Join(6, v0, v1), Join(4, v1, v2), Join(2, v2, v3)];
    JoinedBits(v0, v1, v2, v3);
    assert [c0, c1, c2, c3] + rest == [c0, c1, c2] + ([c3] + rest);
    ThreeRead(c0, v0, c1, v1, c2, v2, [c3] + rest, r, a1, a2, a3, behavior);
    OneRead(c3, v3, rest, Reader(a3, v2, 2), a4, behavior);
    assert [Join(6, v0, v1), Join(4, v1, v2)] + [Join(2, v2, v3)] == bytes;
    WrittenTwice([Join(6, v0, v1), Join(4, v1, v2)], [Join(2, v2, v3)],
                 DecodeFrom(rest, Reader(a4, v3, 0), behavior));
  }

  lemma Nothing(out: seq<Byte>, r: Reader, behavior: DecodingBehavior)
    requires Valid(r)
    ensures Written(out, DecodeFrom([], r, behavior)) == Some(out)
  {
    assert out + [] == out;
  }

  /** What is left at the end: one symbol is dropped, two are one byte, three are two; the bits beyond are dropped. */
  lemma TailDecodes(c0: Byte, v0: Byte, c1: Byte, v1: Byte, c2: Byte, v2: Byte, r: Reader,
                    a1: Alphabet, a2: Alphabet, a3: Alphabet, behavior: DecodingBehavior)
    requires r.bits == 0 && Reads(c0, v0, r.alphabet, a1) && Reads(c1, v1, a1, a2) && Reads(c2, v2, a2, a3)
    ensures DecodeFrom([c0], r, behavior) == Some([])
    ensures DecodeFrom([c0, c1], r, behavior) == Some([(v0 << 2) | (v1 >> 4)])
    ensures DecodeFrom([c0, c1, c2], r, behavior) == Some([(v0 << 2) | (v1 >> 4), (v1 << 4) | (v2 >> 2)])
  {
    assert [c0] + [] == [c0] && [c0, c1] + [] == [c0, c1] && [c0, c1, c2] + [] == [c0, c1, c2];
    OneRead(c0, v0, [], r, a1, behavior);
    Nothing(Completed(r, v0), NextReader(r, Read6(a1, v0)), behavior);
    Nothing([Join(6, v0, v1)], Reader(a2, v1, 4), behavior);
    Nothing([Join(6, v0, v1), Join(4, v1, v2)], Reader(a3, v2, 2), behavior);
    TwoRead(c0, v0, c1, v1, [], r, a1, a2, behavior);
    ThreeRead(c0, v0, c1, v1, c2, v2, [], r, a1, a2, a3, behavior);
  }
}
