/**
 Which legacy files convert_llama_ggml_to_gguf.py converts. A file is refused for its quantization
 exactly as its format, version and type say, and raising the version in a file's header never
 makes it unreadable: everything after the header is read as before.
 */
module GgmlEligibility {
  import opened Wrappers
  import opened GgmlFormat
  import opened GgmlReader

  // ----- refused for the quantization -----

  lemma {:induction false} ItemsError(data: seq<Byte>, o: nat, n: nat, scores: bool)
    ensures ItemsAt(data, o, n, scores) != Failure(NotConvertible)
    decreases n
  {
    if n > 0 {
      ItemsStep(data, o, n, scores);
      var first := ItemAt(data, o, scores);
      if first.Success? { ItemsError(data, first.value.next, n - 1, scores); }
    }
  }

  lemma {:induction false} TensorsError(data: seq<Byte>, o: nat, padded: bool, quants: Quants)
    ensures TensorsAt(data, o, padded, quants) != Failure(NotConvertible)
    decreases |data| - o
  {
    if o < |data| {
      TensorsStep(data, o, padded, quants);
      var first := TensorAt(data, o, padded, quants);
      if first.Success? { TensorsError(data, first.value.next, padded, quants); }
    }
  }

  lemma RestError(data: seq<Byte>, o: nat, header: Header, hyper: Hyper, quants: Quants)
    ensures LoadRest(data, o, header, hyper, quants) != Failure(NotConvertible)
  {
    ItemsError(data, o, hyper.nVocab, header.format != Ggml);
    var items := ItemsAt(data, o, hyper.nVocab, header.format != Ggml);
    if items.Success? { TensorsError(data, items.value.next, header.format == Ggjt, quants); }
  }

  /**
   The types refused: before version 2 of GGJT everything quantized, in version 2 the four types
   whose layout changed with version 3, from version 3 on nothing.
   */
  function Refused(format: Format, version: nat): set<nat> {
    var changed := {2, 3, 4, 7};
    if format == Ggjt && version >= 3 then {}
    else if format == Ggjt && version == 2 then changed
    else changed + {8, 9, 10, 11, 12, 13, 14, 15, 16, 17, 18}
  }

  /** A file is refused for its quantization exactly when its header reads and its type is among those. */
  lemma NotConvertibleExactly(data: seq<Byte>, o: nat, quants: Quants)
    ensures Load(data, o, quants) == Failure(NotConvertible)
            <==> && HeaderAt(data, o).Success?
                 && var h := HeaderAt(data, o).value;
                    HyperAt(data, o + h.size).Success?
                    && HyperAt(data, o + h.size).value.ftype in Refused(h.format, h.version)
  {
    var header := HeaderAt(data, o);
    if header.Success? { RefusedAfterHeader(data, o, header.value, quants); } else { HeaderError(data, o); }
  }

  lemma HeaderError(data: seq<Byte>, o: nat)
    ensures HeaderAt(data, o) != Failure(NotConvertible)
  {
  }

  lemma RefusedAfterHeader(data: seq<Byte>, o: nat, h: Header, quants: Quants)
    requires HeaderAt(data, o) == Success(h)
    ensures Load(data, o, quants) == Failure(NotConvertible)
            <==> var hyper := HyperAt(data, o + h.size);
                 hyper.Success? && hyper.value.ftype in Refused(h.format, h.version)
  {
    var hyper := HyperAt(data, o + h.size);
    LoadIs(data, o, quants, h, hyper);
    if hyper.Success? {
      RefusedIs(h.format, h.version, hyper.value.ftype);
      RestError(data, o + h.size + 28, h, hyper.value, quants);
    }
  }

  lemma RefusedIs(format: Format, version: nat, ftype: nat)
    requires KnownFtype(ftype)
    ensures ftype in Refused(format, version) <==> !Convertible(format, version, ftype)
  {
  }

  // ----- raising the version -----

  /** The two files have the same bytes from `o` on. */
  predicate SameFrom(a: seq<Byte>, b: seq<Byte>, o: nat) {
    |a| == |b| && forall i :: o <= i < |a| ==> a[i] == b[i]
  }

  lemma SliceSame(a: seq<Byte>, b: seq<Byte>, o: nat, p: nat, q: nat)
    requires SameFrom(a, b, o) && o <= p <= q
    ensures Slice(a, p, q) == Slice(b, p, q)
  {
  }

  lemma {:induction false} NumberSame(a: seq<Byte>, b: seq<Byte>, o: nat, p: nat, k: nat)
    requires SameFrom(a, b, o) && o <= p && p + k <= |a|
    ensures LittleEndian(a, p, k) == LittleEndian(b, p, k)
    decreases k
  {
    if k > 0 { NumberSame(a, b, o, p + 1, k - 1); }
  }

  lemma U32Same(a: seq<Byte>, b: seq<Byte>, o: nat, p: nat)
    requires SameFrom(a, b, o) && o <= p
    ensures U32(a, p) == U32(b, p)
  {
    if p + 4 <= |a| { NumberSame(a, b, o, p, 4); }
  }

  lemma {:induction false} U32sSame(a: seq<Byte>, b: seq<Byte>, o: nat, p: nat, n: nat)
    requires SameFrom(a, b, o) && o <= p
    ensures U32s(a, p, n) == U32s(b, p, n)
    decreases n
  {
    if n > 0 {
      U32Same(a, b, o, p);
      U32sSame(a, b, o, p + 4, n - 1);
      assert U32s(a, p, n) == U32AndRest(a, p, n) && U32s(b, p, n) == U32AndRest(b, p, n);
    }
  }

  lemma ItemSame(a: seq<Byte>, b: seq<Byte>, o: nat, p: nat, scores: bool)
    requires SameFrom(a, b, o) && o <= p
    ensures ItemAt(a, p, scores) == ItemAt(b, p, scores)
  {
    U32Same(a, b, o, p);
    if p + 4 <= |a| {
      var end := p + 4 + U32(a, p).value;
      SliceSame(a, b, o, p + 4, end);
      if end + 4 <= |a| { assert a[end..end + 4] == b[end..end + 4]; }
    }
  }

  lemma {:induction false} ItemsSame(a: seq<Byte>, b: seq<Byte>, o: nat, p: nat, n: nat, scores: bool)
    requires SameFrom(a, b, o) && o <= p
    ensures ItemsAt(a, p, n, scores) == ItemsAt(b, p, n, scores)
    decreases n
  {
    if n > 0 {
      ItemSame(a, b, o, p, scores);
      ItemsStep(a, p, n, scores);
      ItemsStep(b, p, n, scores);
      var first := ItemAt(a, p, scores);
      if first.Success? { ItemsSame(a, b, o, first.value.next, n - 1, scores); }
    }
  }

  lemma TensorSame(a: seq<Byte>, b: seq<Byte>, o: nat, p: nat, padded: bool, quants: Quants)
    requires SameFrom(a, b, o) && o <= p
    ensures TensorAt(a, p, padded, quants) == TensorAt(b, p, padded, quants)
  {
    HeadSame(a, b, o, p, quants);
    var head := TensorHeadAt(a, p, quants);
    if head.Success? { BodySame(a, b, o, p + 12, head.value, padded, quants); }
  }

  lemma HeadSame(a: seq<Byte>, b: seq<Byte>, o: nat, p: nat, quants: Quants)
    requires SameFrom(a, b, o) && o <= p
    ensures TensorHeadAt(a, p, quants) == TensorHeadAt(b, p, quants)
  {
    U32sSame(a, b, o, p, 3);
  }

  lemma BodySame(a: seq<Byte>, b: seq<Byte>, o: nat, p: nat, head: TensorHead, padded: bool, quants: Quants)
    requires SameFrom(a, b, o) && o <= p && head.dtype in quants
    ensures TensorBodyAt(a, p, head, padded, quants) == TensorBodyAt(b, p, head, padded, quants)
  {
    U32sSame(a, b, o, p, head.nDims);
    var named := p + 4 * head.nDims;
    SliceSame(a, b, o, named, named + head.nameLen);
    SameParts(a, b, p, named, head, padded, quants);
  }

  lemma SameParts(a: seq<Byte>, b: seq<Byte>, p: nat, named: nat, head: TensorHead, padded: bool, quants: Quants)
    requires head.dtype in quants && named == p + 4 * head.nDims && U32s(a, p, head.nDims) == U32s(b, p, head.nDims)
    requires Slice(a, named, named + head.nameLen) == Slice(b, named, named + head.nameLen)
    ensures TensorBodyAt(a, p, head, padded, quants) == TensorBodyAt(b, p, head, padded, quants)
  {
  }

  lemma {:induction false} TensorsSame(a: seq<Byte>, b: seq<Byte>, o: nat, p: nat, padded: bool, quants: Quants)
    requires SameFrom(a, b, o) && o <= p
    ensures TensorsAt(a, p, padded, quants) == TensorsAt(b, p, padded, quants)
    decreases |a| - p
  {
    if p < |a| {
      TensorSame(a, b, o, p, padded, quants);
      TensorsStep(a, p, padded, quants);
      TensorsStep(b, p, padded, quants);
      var first := TensorAt(a, p, padded, quants);
      if first.Success? { TensorsSame(a, b, o, first.value.next, padded, quants); }
    }
  }

  lemma RestSame(a: seq<Byte>, b: seq<Byte>, o: nat, h: Header, h': Header, hyper: Hyper, quants: Quants)
    requires SameFrom(a, b, o) && h'.format == h.format
    ensures LoadRest(b, o, h', hyper, quants)
            == match LoadRest(a, o, h, hyper, quants)
               case Failure(e) => Failure(e)
               case Success(l) => Success(l.(version := h'.version))
  {
    ItemsSame(a, b, o, o, hyper.nVocab, h.format != Ggml);
    var items := ItemsAt(a, o, hyper.nVocab, h.format != Ggml);
    if items.Success? { TensorsSame(a, b, o, items.value.next, h.format == Ggjt, quants); }
  }

  /** Raising the version of a GGJT file that loads changes nothing of what is loaded but the version. */
  lemma EligibilityGrows(a: seq<Byte>, b: seq<Byte>, quants: Quants)
    requires SameFrom(a, b, 8) && HeaderAt(a, 0).Success? && HeaderAt(b, 0).Success?
    requires HeaderAt(a, 0).value.format == HeaderAt(b, 0).value.format == Ggjt
    requires HeaderAt(a, 0).value.version <= HeaderAt(b, 0).value.version
    requires Load(a, 0, quants).Success?
    ensures Load(b, 0, quants) == Success(Load(a, 0, quants).value.(version := HeaderAt(b, 0).value.version))
  {
    var h, h' := HeaderAt(a, 0).value, HeaderAt(b, 0).value;
    var hyper := LoadsAfter(a, h, quants);
    HyperSame(a, b);
    LoadsFrom(b, h', hyper, h.version, quants);
    SameLater(a, b, 8, 36);
    RestSame(a, b, 36, h, h', hyper, quants);
  }

  /** What a GGJT file that loads is loaded from. */
  lemma LoadsAfter(data: seq<Byte>, h: Header, quants: Quants) returns (hyper: Hyper)
    requires HeaderAt(data, 0) == Success(h) && h.format == Ggjt && Load(data, 0, quants).Success?
    ensures 1 <= h.version <= 3 && HyperAt(data, 8) == Success(hyper) && Convertible(Ggjt, h.version, hyper.ftype)
    ensures Load(data, 0, quants) == LoadRest(data, 36, h, hyper, quants)
  {
    GgjtHeader(data);
    LoadIs(data, 0, quants, h, HyperAt(data, 8));
    hyper := HyperAt(data, 8).value;
  }

  lemma LoadsFrom(data: seq<Byte>, h: Header, hyper: Hyper, v: nat, quants: Quants)
    requires HeaderAt(data, 0) == Success(h) && h.format == Ggjt && HyperAt(data, 8) == Success(hyper)
    requires 1 <= v <= h.version && Convertible(Ggjt, v, hyper.ftype)
    ensures Load(data, 0, quants) == LoadRest(data, 36, h, hyper, quants)
  {
    GgjtHeader(data);
    Ascending(v, h.version, hyper.ftype);
    LoadIs(data, 0, quants, h, Success(hyper));
  }

  lemma HyperSame(a: seq<Byte>, b: seq<Byte>)
    requires SameFrom(a, b, 8)
    ensures HyperAt(a, 8) == HyperAt(b, 8)
  {
    U32sSame(a, b, 8, 8, 7);
  }

  lemma SameLater(a: seq<Byte>, b: seq<Byte>, o: nat, p: nat)
    requires SameFrom(a, b, o) && o <= p
    ensures SameFrom(a, b, p)
  {
  }

  lemma GgjtHeader(data: seq<Byte>)
    requires HeaderAt(data, 0).Success? && HeaderAt(data, 0).value.format == Ggjt
    ensures HeaderAt(data, 0).value.size == 8 && 1 <= HeaderAt(data, 0).value.version <= 3
  {
  }

  /** The type of a file stays eligible in every later version of GGJT. */
  lemma Ascending(v: nat, v': nat, ftype: nat)
    requires 1 <= v <= v' <= 3 && Convertible(Ggjt, v, ftype)
    ensures Convertible(Ggjt, v', ftype)
  {
  }
}
