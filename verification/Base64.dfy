/**
 The codec of common/base64.hpp: sections 4 and 5 of RFC 4648, with detection of the alphabet while
 decoding and decoding in place. Characters are bytes, as in the original's buffers.
 */
module Base64 {
  import opened Wrappers

  type Byte = bv8

  datatype Alphabet = Auto | Standard | UrlFilenameSafe

  datatype DecodingBehavior = Moderate | Loose

  const PAD: Byte := 61

  // ----- symbols -----

  /** The alphabet encoding uses: the standard one unless the other is asked for. */
  function Chosen(alphabet: Alphabet): Alphabet {
    if alphabet == UrlFilenameSafe then UrlFilenameSafe else Standard
  }

  /** The symbol of a value below 64: A-Z, a-z, 0-9, then `+` and `/`, or `-` and `_`. */
  function Symbol(alphabet: Alphabet, v: Byte): Byte
    requires v < 64
  {
    if v < 26 then v + 65
    else if v < 52 then v - 26 + 97
    else if v < 62 then v - 52 + 48
    else if alphabet == UrlFilenameSafe then (if v == 62 then 45 else 95)
    else (if v == 62 then 43 else 47)
  }

  datatype Read6 = Read6(alphabet: Alphabet, value: Byte)

  /** `_base64_value`: the value of a symbol, and the alphabet that is known from then on. */
  function Base64Value(alphabet: Alphabet, c: Byte): Option<Read6> {
    if 65 <= c <= 90 then Some(Read6(alphabet, c - 65))
    else if 97 <= c <= 122 then Some(Read6(alphabet, c - 97 + 26))
    else if 48 <= c <= 57 then Some(Read6(alphabet, c - 48 + 52))
    else match alphabet
      case Standard =>
        if c == 43 then Some(Read6(Standard, 62)) else if c == 47 then Some(Read6(Standard, 63)) else None
      case UrlFilenameSafe =>
        if c == 45 then Some(Read6(UrlFilenameSafe, 62)) else if c == 95 then Some(Read6(UrlFilenameSafe, 63)) else None
      case Auto =>
        if c == 43 then Some(Read6(Standard, 62))
        else if c == 47 then Some(Read6(Standard, 63))
        else if c == 45 then Some(Read6(UrlFilenameSafe, 62))
        else if c == 95 then Some(Read6(UrlFilenameSafe, 63))
        else None
  }

  predicate InAlphabet(alphabet: Alphabet, c: Byte) {
    || 65 <= c <= 90 || 97 <= c <= 122 || 48 <= c <= 57
    || (if alphabet == UrlFilenameSafe then c == 45 || c == 95 else c == 43 || c == 47)
  }

  /** A symbol reads as its value in its own alphabet and under detection, which settles on that alphabet. */
  lemma SymbolReads(alphabet: Alphabet, known: Alphabet, v: Byte)
    requires v < 64 && (known == Auto || known == Chosen(alphabet))
    ensures var c := Symbol(alphabet, v);
            && c != PAD && InAlphabet(alphabet, c)
            && Base64Value(known, c).Some? && Base64Value(known, c).value.value == v
            && var settled := Base64Value(known, c).value.alphabet; settled == known || settled == Chosen(alphabet)
  {
  }

  // ----- encoding -----

  function First6(i0: Byte): (v: Byte)
    ensures v < 64
  {
    (i0 >> 2) & 0x3f
  }

  function Second6(i0: Byte, i1: Byte): (v: Byte)
    ensures v < 64
  {
    ((i0 & 0x3) << 4) | ((i1 >> 4) & 0xf)
  }

  function Third6(i1: Byte, i2: Byte): (v: Byte)
    ensures v < 64
  {
    ((i1 & 0xf) << 2) | ((i2 >> 6) & 0x3)
  }

  function Fourth6(i2: Byte): (v: Byte)
    ensures v < 64
  {
    i2 & 0x3f
  }

  /** The four characters of one to three bytes. */
  function Quad(alphabet: Alphabet, s: seq<Byte>): (q: seq<Byte>)
    requires s != []
    ensures |q| == 4
  {
    var i1 := if |s| > 1 then s[1] else 0;
    var i2 := if |s| > 2 then s[2] else 0;
    [Symbol(alphabet, First6(s[0])), Symbol(alphabet, Second6(s[0], i1)),
     if |s| > 1 then Symbol(alphabet, Third6(i1, i2)) else PAD,
     if |s| > 2 then Symbol(alphabet, Fourth6(i2)) else PAD]
  }

  function Encoded(s: seq<Byte>, alphabet: Alphabet): seq<Byte>
    decreases |s|, 1
  {
    if s == [] then [] else QuadAndRest(s, alphabet)
  }

  function QuadAndRest(s: seq<Byte>, alphabet: Alphabet): seq<Byte>
    requires s != []
    decreases |s|, 0
  {
    Quad(alphabet, s) + Encoded(s[if |s| < 3 then |s| else 3..], alphabet)
  }

  method Encode(s: seq<Byte>, alphabet: Alphabet) returns (out: seq<Byte>)
    ensures out == Encoded(s, alphabet)
  {
    out := [];
    var i: nat := 0;
    assert s[0..] == s;
    while i < |s|
      invariant i <= |s|
      invariant out + Encoded(s[i..], alphabet) == Encoded(s, alphabet)
    {
      var q;
      q, i := EncodeQuad(s, i, alphabet);
      out := out + q;
    }
  }

  /** One turn of the loop, with its two early exits. */
  method EncodeQuad(s: seq<Byte>, i: nat, alphabet: Alphabet) returns (q: seq<Byte>, i': nat)
    requires i < |s|
    ensures i < i' <= |s| && Encoded(s[i..], alphabet) == q + Encoded(s[i'..], alphabet)
  {
    ghost var rest := s[i..];
    var i0 := s[i];
    q, i' := [Symbol(alphabet, First6(i0))], i + 1;
    if i' == |s| {
      NoHighBits(i0);
      q := q + [Symbol(alphabet, (i0 & 0x3) << 4), PAD, PAD];
      assert rest[1..] == s[i'..];
      return;
    }
    var i1 := s[i'];
    q, i' := q + [Symbol(alphabet, Second6(i0, i1))], i' + 1;
    if i' == |s| {
      NoHighBits(i1);
      q := q + [Symbol(alphabet, (i1 & 0xf) << 2), PAD];
      assert rest[2..] == s[i'..];
      return;
    }
    var i2 := s[i'];
    q, i' := q + [Symbol(alphabet, Third6(i1, i2)), Symbol(alphabet, Fourth6(i2))], i' + 1;
    assert rest[3..] == s[i'..];
  }

  lemma NoHighBits(i: Byte)
    ensures (i & 0x3) << 4 == Second6(i, 0) && (i & 0xf) << 2 == Third6(i, 0)
  {
  }

  function RequiredEncodeSize(size: nat): nat { (size / 3 + (if size % 3 != 0 then 1 else 0)) * 4 }

  lemma {:induction false} EncodedSize(s: seq<Byte>, alphabet: Alphabet)
    ensures |Encoded(s, alphabet)| == RequiredEncodeSize(|s|)
    decreases |s|
  {
    if s != [] { EncodedSize(s[if |s| < 3 then |s| else 3..], alphabet); }
  }

  // ----- decoding -----

  /** What the loop carries from one character to the next; `bits` bits of `last` are still to be used. */
  datatype Reader = Reader(alphabet: Alphabet, last: Byte, bits: nat)

  predicate Valid(r: Reader) { r.bits == 0 || r.bits == 2 || r.bits == 4 || r.bits == 6 }

  /** The byte completed by the next six bits, if any. */
  function Completed(r: Reader, part: Byte): seq<Byte>
    requires Valid(r)
  {
    if r.bits + 6 >= 8 then [Join(r.bits, r.last, part)] else []
  }

  /** The lowest `bits` bits of `last`, then the highest `8 - bits` of the six of `part`. */
  function Join(bits: nat, last: Byte, part: Byte): Byte {
    match bits
    case 6 => (last << 2) | (part >> 4)
    case 4 => (last << 4) | (part >> 2)
    case _ => (last << 6) | (part >> 0)
  }

  /** The one formula of the loop, with shifts that depend on `bits`, is those three cases. */
  lemma JoinShifts(bits: nat, last: Byte, part: Byte)
    requires bits == 2 || bits == 4 || bits == 6
    ensures Join(bits, last, part) == (last << (8 - bits)) | (part >> (bits - 2))
  {
    match bits
    case 6 => assert last << (8 - 6) == last << 2 && part >> (6 - 2) == part >> 4;
    case 4 => assert last << (8 - 4) == last << 4 && part >> (4 - 2) == part >> 2;
    case _ => assert last << (8 - 2) == last << 6 && part >> (2 - 2) == part >> 0;
  }

  method JoinBits(bits: nat, last: Byte, part: Byte) returns (b: Byte)
    requires bits == 2 || bits == 4 || bits == 6
    ensures b == Join(bits, last, part)
  {
    JoinShifts(bits, last, part);
    b := (last << (8 - bits)) | (part >> (bits - 2));
  }

  function NextReader(r: Reader, read: Read6): (r': Reader)
    requires Valid(r)
    ensures Valid(r')
  {
    Reader(read.alphabet, read.value, if r.bits + 6 >= 8 then r.bits - 2 else r.bits + 6)
  }

  predicate AllPads(s: seq<Byte>) { forall i :: 0 <= i < |s| ==> s[i] == PAD }

  function Written(out: seq<Byte>, rest: Option<seq<Byte>>): Option<seq<Byte>> {
    match rest
    case None => None
    case Some(more) => Some(out + more)
  }

  /** The bytes still to be written, or nothing when an error is raised. */
  function DecodeFrom(s: seq<Byte>, r: Reader, behavior: DecodingBehavior): Option<seq<Byte>>
    requires Valid(r)
  {
    if s == [] then Some([])
    else if s[0] == PAD then (if behavior == Loose || AllPads(s[1..]) then Some([]) else None)
    else
      match Base64Value(r.alphabet, s[0])
      case None => None
      case Some(read) => Written(Completed(r, read.value), DecodeFrom(s[1..], NextReader(r, read), behavior))
  }

  function Decoded(s: seq<Byte>, alphabet: Alphabet, behavior: DecodingBehavior): Option<seq<Byte>> {
    DecodeFrom(s, Reader(alphabet, 0, 0), behavior)
  }

  lemma TakeSymbol(s: seq<Byte>, i: nat, r: Reader, read: Read6, behavior: DecodingBehavior)
    requires i < |s| && Valid(r) && s[i] != PAD && Base64Value(r.alphabet, s[i]) == Some(read)
    ensures DecodeFrom(s[i..], r, behavior)
            == Written(Completed(r, read.value), DecodeFrom(s[i + 1..], NextReader(r, read), behavior))
  {
    assert s[i..][1..] == s[i + 1..];
  }

  lemma TakeNone(s: seq<Byte>, i: nat, r: Reader, behavior: DecodingBehavior)
    requires i < |s| && Valid(r) && s[i] != PAD && Base64Value(r.alphabet, s[i]) == None
    ensures DecodeFrom(s[i..], r, behavior) == None
  {
  }

  /** What the characters after the symbols decide: the first of them, if any, is a pad. */
  function Closing(s: seq<Byte>, behavior: DecodingBehavior): Option<seq<Byte>> {
    if behavior == Loose || AllPads(s) then Some([]) else None
  }

  lemma TakeEnd(s: seq<Byte>, i: nat, r: Reader, behavior: DecodingBehavior)
    requires i <= |s| && Valid(r) && (i < |s| ==> s[i] == PAD)
    ensures DecodeFrom(s[i..], r, behavior) == Closing(s[if i < |s| then i + 1 else i..], behavior)
  {
    if i < |s| { assert s[i..][1..] == s[i + 1..]; }
  }

  lemma WrittenNothing(out: seq<Byte>, rest: Option<seq<Byte>>)
    ensures Written([], rest) == rest && Written(out, Some([])) == Some(out)
  {
    if rest.Some? { assert [] + rest.value == rest.value; }
    assert out + [] == out;
  }

  lemma WrittenAgain(a: seq<Byte>, b: seq<Byte>, rest: Option<seq<Byte>>)
    ensures Written(a, Written(b, rest)) == Written(a + b, rest)
  {
    if rest.Some? { assert a + (b + rest.value) == a + b + rest.value; }
  }

  method Decode(s: seq<Byte>, alphabet: Alphabet, behavior: DecodingBehavior) returns (result: Option<seq<Byte>>)
    ensures result == Decoded(s, alphabet, behavior)
  {
    var r := Reader(alphabet, 0, 0);
    var out := [];
    var i: nat := 0;
    assert s[0..] == s;
    ghost var rest := DecodeFrom(s, r, behavior);
    WrittenNothing([], rest);
    while i < |s| && s[i] != PAD
      invariant i <= |s| && Valid(r)
      invariant rest == DecodeFrom(s[i..], r, behavior)
      invariant Written(out, rest) == Decoded(s, alphabet, behavior)
    {
      var value := Base64Value(r.alphabet, s[i]);
      if value == None {
        TakeNone(s, i, r, behavior);
        return None;
      }
      var done;
      done, r, rest := Take(s, i, r, value.value, behavior);
      WrittenAgain(out, done, rest);
      out := out + done;
      i := i + 1;
    }
    TakeEnd(s, i, r, behavior);
    WrittenNothing(out, rest);
    if i < |s| { i := i + 1; }
    var ok := CheckPadding(s, i, behavior);
    result := if ok then Some(out) else None;
  }

  /** One turn of the loop, on a symbol that has a value. */
  method Take(s: seq<Byte>, i: nat, r: Reader, read: Read6, ghost behavior: DecodingBehavior)
    returns (done: seq<Byte>, r': Reader, ghost rest: Option<seq<Byte>>)
    requires i < |s| && Valid(r) && s[i] != PAD && Base64Value(r.alphabet, s[i]) == Some(read)
    ensures Valid(r') && r' == NextReader(r, read) && done == Completed(r, read.value) && |done| <= 1
    ensures rest == DecodeFrom(s[i + 1..], r', behavior)
    ensures DecodeFrom(s[i..], r, behavior) == Written(done, rest)
  {
    TakeSymbol(s, i, r, read, behavior);
    if r.bits + 6 >= 8 {
      var b := JoinBits(r.bits, r.last, read.value);
      done, r' := [b], r.(bits := r.bits - 2);
    } else {
      done, r' := [], r.(bits := r.bits + 6);
    }
    r' := r'.(alphabet := read.alphabet, last := read.value);
    rest := DecodeFrom(s[i + 1..], r', behavior);
  }

  method CheckPadding(s: seq<Byte>, from: nat, behavior: DecodingBehavior) returns (ok: bool)
    requires from <= |s|
    ensures (if ok then Some([]) else None) == Closing(s[from..], behavior)
  {
    if behavior != Loose {
      var i := from;
      while i < |s|
        invariant from <= i <= |s| && AllPads(s[from..i])
      {
        if s[i] != PAD {
          assert s[from..][i - from] != PAD;
          return false;
        }
        assert s[from..i + 1] == s[from..i] + [s[i]];
        i := i + 1;
      }
      assert s[from..i] == s[from..];
    }
    return true;
  }

  /** Decoding into the buffer that is being read. On an error, a decoded part is left at its front. */
  method DecodeInPlace(a: array<Byte>, alphabet: Alphabet, behavior: DecodingBehavior) returns (length: Option<nat>)
    modifies a
    ensures length.None? <==> Decoded(old(a[..]), alphabet, behavior).None?
    ensures length.Some? ==> length.value <= a.Length
                             && Some(a[..length.value]) == Decoded(old(a[..]), alphabet, behavior)
                             && a[length.value..] == old(a[..])[length.value..]
  {
    ghost var s := a[..];
    var r := Reader(alphabet, 0, 0);
    var i: nat, o: nat := 0, 0;
    assert s[0..] == s;
    ghost var rest := DecodeFrom(s, r, behavior);
    WrittenNothing([], rest);
    while i < a.Length && a[i] != PAD
      invariant o <= i <= a.Length && Valid(r) && a[o..] == s[o..]
      invariant rest == DecodeFrom(s[i..], r, behavior)
      invariant Written(a[..o], rest) == Decoded(s, alphabet, behavior)
    {
      assert a[i] == a[o..][i - o] == s[i];
      var value := Base64Value(r.alphabet, a[i]);
      if value == None {
        TakeNone(s, i, r, behavior);
        return None;
      }
      i, o, r, rest := TakeInPlace(a, s, i, o, r, value.value, behavior);
    }
    assert i < a.Length ==> a[i] == a[o..][i - o] == s[i];
    TakeEnd(s, i, r, behavior);
    WrittenNothing(a[..o], rest);
    if i < a.Length { i := i + 1; }
    assert a[i..] == a[o..][i - o..] == s[i..];
    var ok := CheckPadding(a[..], i, behavior);
    length := if ok then Some(o) else None;
  }

  method TakeInPlace(a: array<Byte>, ghost s: seq<Byte>, i: nat, o: nat, r: Reader, read: Read6,
                     ghost behavior: DecodingBehavior)
    returns (i': nat, o': nat, r': Reader, ghost rest: Option<seq<Byte>>)
    requires o <= i < a.Length == |s| && Valid(r) && a[o..] == s[o..]
    requires s[i] != PAD && Base64Value(r.alphabet, s[i]) == Some(read)
    modifies a
    ensures i' == i + 1 && o' <= i' && Valid(r') && a[o'..] == s[o'..]
    ensures rest == DecodeFrom(s[i'..], r', behavior)
    ensures Written(a[..o'], rest) == Written(old(a[..o]), DecodeFrom(s[i..], r, behavior))
  {
    TakeSymbol(s, i, r, read, behavior);
    ghost var done := Completed(r, read.value);
    i', r' := i + 1, NextReader(r, read);
    rest := DecodeFrom(s[i'..], r', behavior);
    WrittenAgain(a[..o], done, rest);
    assert a[o + 1..] == a[o..][1..] == s[o..][1..] == s[o + 1..];
    o' := Emit(a, o, r, read.value);
  }

  /** Writes the completed byte, if there is one, and touches no other cell. */
  method Emit(a: array<Byte>, o: nat, r: Reader, part: Byte) returns (o': nat)
    requires o < a.Length && Valid(r)
    modifies a
    ensures o <= o' <= o + 1 && a[..o'] == old(a[..o]) + Completed(r, part) && a[o'..] == old(a[..])[o'..]
  {
    if r.bits + 6 >= 8 {
      var b := JoinBits(r.bits, r.last, part);
      Put(a, o, b);
      o' := o + 1;
    } else {
      o' := o;
      assert a[..o] == a[..o] + [];
      assert a[o..] == a[..][o..];
    }
  }

  method Put(a: array<Byte>, o: nat, b: Byte)
    requires o < a.Length
    modifies a
    ensures a[..o + 1] == old(a[..o]) + [b] && a[o + 1..] == old(a[..])[o + 1..]
  {
    a[o] := b;
  }

  // ----- round trip -----

  /** Cutting three bytes into four times six bits and joining them again. */
  lemma Bytes(b0: Byte, b1: Byte, b2: Byte)
    ensures Join(6, First6(b0), Second6(b0, b1)) == b0
    ensures Join(4, Second6(b0, b1), Third6(b1, b2)) == b1
    ensures Join(2, Third6(b1, b2), Fourth6(b2)) == b2
  {
  }

  predicate Knows(known: Alphabet, alphabet: Alphabet) { known == Auto || known == Chosen(alphabet) }

  /** Reading the symbol of `v`. */
  lemma ReadSymbol(alphabet: Alphabet, v: Byte, rest: seq<Byte>, r: Reader, behavior: DecodingBehavior)
    returns (r': Reader)
    requires v < 64 && Valid(r) && Knows(r.alphabet, alphabet)
    ensures Knows(r'.alphabet, alphabet) && r'.last == v && Valid(r')
    ensures r'.bits == if r.bits + 6 >= 8 then r.bits - 2 else r.bits + 6
    ensures DecodeFrom([Symbol(alphabet, v)] + rest, r, behavior)
            == Written(Completed(r, v), DecodeFrom(rest, r', behavior))
  {
    SymbolReads(alphabet, r.alphabet, v);
    var s := [Symbol(alphabet, v)] + rest;
    var read := Base64Value(r.alphabet, s[0]).value;
    r' := NextReader(r, read);
    assert s[0..] == s && s[1..] == rest;
    TakeSymbol(s, 0, r, read, behavior);
  }

  /** The four characters of a group read back as its bytes, whatever the alphabet known so far. */
  lemma ReadGroup(s: seq<Byte>, alphabet: Alphabet, rest: seq<Byte>, r: Reader, behavior: DecodingBehavior)
    returns (r': Reader)
    requires |s| >= 3 && Valid(r) && r.bits == 0 && Knows(r.alphabet, alphabet)
    ensures Valid(r') && r'.bits == 0 && Knows(r'.alphabet, alphabet)
    ensures DecodeFrom(Quad(alphabet, s) + rest, r, behavior) == Written(s[..3], DecodeFrom(rest, r', behavior))
  {
    var v0, v1, v2, v3 := First6(s[0]), Second6(s[0], s[1]), Third6(s[1], s[2]), Fourth6(s[2]);
    var rest3 := [Symbol(alphabet, v3)] + rest;
    var rest2 := [Symbol(alphabet, v2)] + rest3;
    var rest1 := [Symbol(alphabet, v1)] + rest2;
    var r1 := ReadSymbol(alphabet, v0, rest1, r, behavior);
    var r2 := ReadSymbol(alphabet, v1, rest2, r1, behavior);
    var r3 := ReadSymbol(alphabet, v2, rest3, r2, behavior);
    r' := ReadSymbol(alphabet, v3, rest, r3, behavior);
    assert Quad(alphabet, s) + rest == [Symbol(alphabet, v0)] + rest1;
    Bytes(s[0], s[1], s[2]);
    ThreeBytes(s[0], s[1], s[2], DecodeFrom(rest, r', behavior));
    assert s[..3] == [s[0], s[1], s[2]];
  }

  lemma ThreeBytes(a: Byte, b: Byte, c: Byte, rest: Option<seq<Byte>>)
    ensures Written([], Written([a], Written([b], Written([c], rest)))) == Written([a, b, c], rest)
  {
    WrittenAgain([b], [c], rest);
    WrittenAgain([a], [b] + [c], rest);
    WrittenNothing([], Written([a] + ([b] + [c]), rest));
    assert [a] + ([b] + [c]) == [a, b, c];
  }

  lemma ReadPads(pads: seq<Byte>, r: Reader, behavior: DecodingBehavior)
    requires Valid(r) && AllPads(pads)
    ensures DecodeFrom(pads, r, behavior) == Some([])
  {
  }

  lemma ReadOne(s: seq<Byte>, alphabet: Alphabet, r: Reader, behavior: DecodingBehavior)
    requires |s| == 1 && Valid(r) && r.bits == 0 && Knows(r.alphabet, alphabet)
    ensures DecodeFrom(Quad(alphabet, s), r, behavior) == Some(s)
  {
    var v0, v1 := First6(s[0]), Second6(s[0], 0);
    var rest1 := [Symbol(alphabet, v1)] + [PAD, PAD];
    var r1 := ReadSymbol(alphabet, v0, rest1, r, behavior);
    var r2 := ReadSymbol(alphabet, v1, [PAD, PAD], r1, behavior);
    assert Quad(alphabet, s) == [Symbol(alphabet, v0)] + rest1;
    Bytes(s[0], 0, 0);
    ReadPads([PAD, PAD], r2, behavior);
    WrittenNothing([s[0]], Written([s[0]], Some([])));
    assert s == [s[0]];
  }

  lemma ReadTwo(s: seq<Byte>, alphabet: Alphabet, r: Reader, behavior: DecodingBehavior)
    requires |s| == 2 && Valid(r) && r.bits == 0 && Knows(r.alphabet, alphabet)
    ensures DecodeFrom(Quad(alphabet, s), r, behavior) == Some(s)
  {
    var v0, v1, v2 := First6(s[0]), Second6(s[0], s[1]), Third6(s[1], 0);
    var rest2 := [Symbol(alphabet, v2)] + [PAD];
    var rest1 := [Symbol(alphabet, v1)] + rest2;
    var r1 := ReadSymbol(alphabet, v0, rest1, r, behavior);
    var r2 := ReadSymbol(alphabet, v1, rest2, r1, behavior);
    var r3 := ReadSymbol(alphabet, v2, [PAD], r2, behavior);
    assert Quad(alphabet, s) == [Symbol(alphabet, v0)] + rest1;
    Bytes(s[0], s[1], 0);
    ReadPads([PAD], r3, behavior);
    WrittenAgain([s[0]], [s[1]], Some([]));
    WrittenNothing([s[0]] + [s[1]], Written([s[0]] + [s[1]], Some([])));
    assert s == [s[0]] + [s[1]];
  }

  lemma OneGroup(s: seq<Byte>, alphabet: Alphabet)
    requires 1 <= |s| <= 2
    ensures Encoded(s, alphabet) == Quad(alphabet, s)
  {
    assert Encoded(s, alphabet) == QuadAndRest(s, alphabet);
    assert Encoded(s[|s|..], alphabet) == [];
    assert Quad(alphabet, s) + [] == Quad(alphabet, s);
  }

  lemma {:induction false} ReadEncoded(s: seq<Byte>, alphabet: Alphabet, r: Reader, behavior: DecodingBehavior)
    requires Valid(r) && r.bits == 0 && Knows(r.alphabet, alphabet)
    ensures DecodeFrom(Encoded(s, alphabet), r, behavior) == Some(s)
    decreases |s|
  {
    if |s| >= 3 {
      var r' := ReadGroup(s, alphabet, Encoded(s[3..], alphabet), r, behavior);
      ReadEncoded(s[3..], alphabet, r', behavior);
      assert Encoded(s, alphabet) == QuadAndRest(s, alphabet) == Quad(alphabet, s) + Encoded(s[3..], alphabet);
      assert s == s[..3] + s[3..];
    } else if |s| == 2 {
      ReadTwo(s, alphabet, r, behavior);
      OneGroup(s, alphabet);
    } else if |s| == 1 {
      ReadOne(s, alphabet, r, behavior);
      OneGroup(s, alphabet);
    }
  }

  /** Decoding inverts encoding, for every byte string, with the alphabet given or detected. */
  lemma RoundTrip(s: seq<Byte>, alphabet: Alphabet, known: Alphabet, behavior: DecodingBehavior)
    requires known == Auto || known == Chosen(alphabet)
    ensures Decoded(Encoded(s, alphabet), known, behavior) == Some(s)
  {
    ReadEncoded(s, alphabet, Reader(known, 0, 0), behavior);
  }

  // ----- what is accepted, and how much comes out -----

  /** The characters before the first pad. */
  function Symbols(s: seq<Byte>): (n: nat)
    ensures n <= |s| && (n < |s| ==> s[n] == PAD) && forall i :: 0 <= i < n ==> s[i] != PAD
  {
    if s == [] || s[0] == PAD then 0 else 1 + Symbols(s[1..])
  }

  predicate Within(alphabet: Alphabet, s: seq<Byte>) { forall i :: 0 <= i < |s| ==> InAlphabet(alphabet, s[i]) }

  /** All the symbols are of the given alphabet, or, when it is to be detected, of one of the two. */
  predicate Readable(known: Alphabet, s: seq<Byte>) {
    match known
    case Standard => Within(Standard, s)
    case UrlFilenameSafe => Within(UrlFilenameSafe, s)
    case Auto => Within(Standard, s) || Within(UrlFilenameSafe, s)
  }

  lemma WithinFirst(alphabet: Alphabet, s: seq<Byte>)
    requires s != []
    ensures Within(alphabet, s) <==> InAlphabet(alphabet, s[0]) && Within(alphabet, s[1..])
  {
    assert s == [s[0]] + s[1..];
  }

  lemma ReadableFirst(known: Alphabet, s: seq<Byte>)
    requires s != [] && s[0] != PAD
    ensures Readable(known, s) <==>
            Base64Value(known, s[0]).Some? && Readable(Base64Value(known, s[0]).value.alphabet, s[1..])
  {
    WithinFirst(Standard, s);
    WithinFirst(UrlFilenameSafe, s);
  }

  /** Decoding succeeds exactly on symbols of one alphabet followed, unless decoding is loose, by pads only. */
  lemma {:induction false} AcceptsExactly(s: seq<Byte>, r: Reader, behavior: DecodingBehavior)
    requires Valid(r)
    ensures DecodeFrom(s, r, behavior).Some? <==>
            Readable(r.alphabet, s[..Symbols(s)]) && (behavior == Loose || AllPads(s[Symbols(s)..]))
    decreases |s|
  {
    var n := Symbols(s);
    if s == [] {
    } else if s[0] == PAD {
      assert s[0..] == s && s == [s[0]] + s[1..];
    } else {
      ReadableFirst(r.alphabet, s[..n]);
      assert s[..n][1..] == s[1..][..n - 1] && s[n..] == s[1..][n - 1..];
      if Base64Value(r.alphabet, s[0]).Some? {
        AcceptsExactly(s[1..], NextReader(r, Base64Value(r.alphabet, s[0]).value), behavior);
      }
    }
  }

  /** Every eight bits of the symbols make one byte; what is left over is dropped. */
  lemma {:induction false} DecodedSize(s: seq<Byte>, r: Reader, behavior: DecodingBehavior)
    requires Valid(r) && DecodeFrom(s, r, behavior).Some?
    ensures |DecodeFrom(s, r, behavior).value| == (r.bits + 6 * Symbols(s)) / 8
    decreases |s|
  {
    if s != [] && s[0] != PAD {
      var read := Base64Value(r.alphabet, s[0]).value;
      DecodedSize(s[1..], NextReader(r, read), behavior);
    }
  }

  function MaxDecodeSize(size: nat): nat { (size / 4 + (if size % 4 != 0 then 1 else 0)) * 3 }

  /** The buffer that callers reserve is large enough for every input that decodes. */
  lemma DecodedFits(s: seq<Byte>, alphabet: Alphabet, behavior: DecodingBehavior)
    requires Decoded(s, alphabet, behavior).Some?
    ensures |Decoded(s, alphabet, behavior).value| == 6 * Symbols(s) / 8 <= MaxDecodeSize(|s|)
  {
    DecodedSize(s, Reader(alphabet, 0, 0), behavior);
  }

  /** Mixing the two alphabets is an error even under detection. */
  lemma MixedAlphabetsFail(s: seq<Byte>, alphabet: Alphabet, behavior: DecodingBehavior, i: nat, j: nat)
    requires i < Symbols(s) && j < Symbols(s)
    requires (s[i] == 43 || s[i] == 47) && (s[j] == 45 || s[j] == 95)
    ensures Decoded(s, alphabet, behavior) == None
  {
    AcceptsExactly(s, Reader(alphabet, 0, 0), behavior);
    var body := s[..Symbols(s)];
    assert !InAlphabet(UrlFilenameSafe, body[i]) && !InAlphabet(Standard, body[j]);
  }
}
