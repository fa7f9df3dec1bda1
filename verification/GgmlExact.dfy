/**
 Exactly which files load, and as what: a description of the three formats in plain terms (which numbers stand
 where, what they may be), which a load succeeds on if and only if the data fits it.
 */
module GgmlExact {
  import opened Wrappers
  import opened GgmlFormat
  import opened GgmlReader

  predicate NumberAt(data: seq<Byte>, o: nat, n: nat) { U32(data, o) == Some(n) }

  /** The four bytes at `o` are the number `n`, the lowest first. */
  lemma NumberMeans(data: seq<Byte>, o: nat, n: nat)
    ensures NumberAt(data, o, n) <==>
              && o + 4 <= |data|
              && n == data[o] as nat + 0x100 * (data[o + 1] as nat) + 0x1_0000 * (data[o + 2] as nat)
                      + 0x100_0000 * (data[o + 3] as nat)
  {
    if o + 4 <= |data| { FourBytes(data, o); }
  }

  predicate NumbersAt(data: seq<Byte>, o: nat, ns: seq<nat>)
    decreases |ns|, 1
  {
    ns == [] || NumberThenRest(data, o, ns)
  }

  predicate NumberThenRest(data: seq<Byte>, o: nat, ns: seq<nat>)
    requires ns != []
    decreases |ns|, 0
  {
    NumberAt(data, o, ns[0]) && NumbersAt(data, o + 4, ns[1..])
  }

  /** The `n` bytes from `o` on, or as many as there are before the data ends. */
  predicate TextAt(data: seq<Byte>, o: nat, n: nat, text: seq<Byte>)
    decreases n
  {
    if n == 0 || o >= |data| then text == []
    else text != [] && text[0] == data[o] && TextAt(data, o + 1, n - 1, text[1..])
  }

  /** The four letters, as bytes. */
  predicate MagicAt(data: seq<Byte>, o: nat, word: seq<Byte>) {
    |word| == 4 && o + 4 <= |data| && data[o..o + 4] == word
  }

  /** The format, its version, and the size of the header. */
  predicate HeaderFits(data: seq<Byte>, o: nat, format: Format, version: nat, size: nat) {
    match format
    case Ggml => MagicAt(data, o, [108, 109, 103, 103]) && version == 1 && size == 4 // lmgg
    case Ggmf => // fmgg
      MagicAt(data, o, [102, 109, 103, 103]) && NumberAt(data, o + 4, version) && version == 1 && size == 8
    case Ggjt => // tjgg
      MagicAt(data, o, [116, 106, 103, 103]) && NumberAt(data, o + 4, version) && 1 <= version <= 3 && size == 8
  }

  /** The types there are, less those whose meaning changed after this version. */
  predicate TypeFits(format: Format, version: nat, ftype: nat) {
    && ftype in {0, 1, 2, 3, 4, 7, 8, 9, 10, 11, 12, 13, 14, 15, 16, 17, 18}
    && ((format == Ggjt && version == 3) || ftype in {0, 1}
        || (format == Ggjt && version == 2 && ftype !in {2, 3, 4, 7}))
  }

  lemma FourBytes(data: seq<Byte>, o: nat)
    requires o + 4 <= |data|
    ensures LittleEndian(data, o, 4)
            == data[o] as nat + 0x100 * (data[o + 1] as nat) + 0x1_0000 * (data[o + 2] as nat)
               + 0x100_0000 * (data[o + 3] as nat)
  {
    assert LittleEndian(data, o + 4, 0) == 0;
    assert LittleEndian(data, o + 3, 1) == data[o + 3] as nat;
    assert LittleEndian(data, o + 2, 2) == data[o + 2] as nat + 0x100 * LittleEndian(data, o + 3, 1);
    assert LittleEndian(data, o + 1, 3) == data[o + 1] as nat + 0x100 * LittleEndian(data, o + 2, 2);
  }

  lemma {:induction false} NumbersRead(data: seq<Byte>, o: nat, ns: seq<nat>)
    ensures U32s(data, o, |ns|) == Some(ns) <==> NumbersAt(data, o, ns)
    decreases |ns|
  {
    if ns != [] {
      NumbersRead(data, o + 4, ns[1..]);
      assert U32s(data, o, |ns|) == U32AndRest(data, o, |ns|);
      assert ns == [ns[0]] + ns[1..];
    }
  }

  lemma SliceStep(data: seq<Byte>, o: nat, n: nat)
    requires n > 0 && o < |data|
    ensures Slice(data, o, o + n) == [data[o]] + Slice(data, o + 1, o + n)
  {
  }

  lemma SliceEnds(data: seq<Byte>, o: nat, n: nat)
    requires n == 0 || o >= |data|
    ensures Slice(data, o, o + n) == []
  {
  }

  lemma ConsIs(b: Byte, rest: seq<Byte>, text: seq<Byte>)
    ensures [b] + rest == text <==> text != [] && text[0] == b && rest == text[1..]
  {
    if text != [] { assert text == [text[0]] + text[1..]; }
  }

  lemma {:induction false} TextRead(data: seq<Byte>, o: nat, n: nat, text: seq<Byte>)
    ensures Slice(data, o, o + n) == text <==> TextAt(data, o, n, text)
    decreases n
  {
    if n > 0 && o < |data| {
      SliceStep(data, o, n);
      ConsIs(data[o], Slice(data, o + 1, o + n), text);
      if text != [] { TextRead(data, o + 1, n - 1, text[1..]); }
    } else {
      SliceEnds(data, o, n);
    }
  }

  lemma MagicRead(data: seq<Byte>, o: nat, word: seq<Byte>)
    requires |word| == 4
    ensures Slice(data, o, o + 4) == word <==> MagicAt(data, o, word)
  {
  }

  lemma MagicsRead(data: seq<Byte>, o: nat)
    ensures Slice(data, o, o + 4) == MAGIC_GGML <==> MagicAt(data, o, [108, 109, 103, 103])
    ensures Slice(data, o, o + 4) == MAGIC_GGMF <==> MagicAt(data, o, [102, 109, 103, 103])
    ensures Slice(data, o, o + 4) == MAGIC_GGJT <==> MagicAt(data, o, [116, 106, 103, 103])
    ensures Slice(data, o, o + 4) == MAGIC_GGUF <==> MagicAt(data, o, [71, 71, 85, 70])
  {
    MagicRead(data, o, MAGIC_GGML);
    MagicRead(data, o, MAGIC_GGMF);
    MagicRead(data, o, MAGIC_GGJT);
    MagicRead(data, o, MAGIC_GGUF);
  }

  /** The header reads as what it is, in every other case not at all. */
  lemma HeaderExactly(data: seq<Byte>, o: nat, format: Format, version: nat, size: nat)
    ensures HeaderAt(data, o) == Success(Header(format, version, size)) <==> HeaderFits(data, o, format, version, size)
  {
    MagicsRead(data, o);
  }

  /** Which error a header raises. */
  lemma HeaderErrors(data: seq<Byte>, o: nat)
    ensures HeaderAt(data, o) == Failure(AlreadyGguf) <==> MagicAt(data, o, [71, 71, 85, 70])
    ensures MagicAt(data, o, [102, 109, 103, 103]) || MagicAt(data, o, [116, 106, 103, 103]) ==>
              || HeaderAt(data, o) == Failure(BadStruct) || HeaderAt(data, o) == Failure(BadVersion)
              || HeaderAt(data, o).Success?
    ensures HeaderAt(data, o) == Failure(BadMagic) <==>
              && o + 8 <= |data| && !MagicAt(data, o, [71, 71, 85, 70]) && !MagicAt(data, o, [108, 109, 103, 103])
              && !MagicAt(data, o, [102, 109, 103, 103]) && !MagicAt(data, o, [116, 106, 103, 103])
  {
    MagicsRead(data, o);
  }

  // ----- vocabulary -----

  /** One item: a length below 4096, the text, and in the later formats the four bytes of its score. */
  ghost predicate ItemFits(data: seq<Byte>, o: nat, scores: bool, item: Item, next: nat) {
    exists n: nat :: ItemOfLength(data, o, scores, item, next, n)
  }

  predicate ItemOfLength(data: seq<Byte>, o: nat, scores: bool, item: Item, next: nat, n: nat) {
    NumberAt(data, o, n) && n < 4096 && ItemBody(data, o + 4, scores, item, next, n)
  }

  predicate ItemBody(data: seq<Byte>, o: nat, scores: bool, item: Item, next: nat, n: nat) {
    TextAt(data, o, n, item.text) && AfterText(data, o + n, scores, item, next)
  }

  predicate AfterText(data: seq<Byte>, o: nat, scores: bool, item: Item, next: nat) {
    if scores then next == o + 4 && next <= |data| && item.score == Some(data[o..o + 4])
    else next == o && item.score == None
  }

  ghost predicate ItemsFit(data: seq<Byte>, o: nat, scores: bool, items: seq<Item>, end: nat)
    decreases |items|
  {
    if items == [] then end == o
    else exists next: nat :: ItemFits(data, o, scores, items[0], next) && ItemsFit(data, next, scores, items[1..], end)
  }

  lemma ItemOfGiven(data: seq<Byte>, o: nat, scores: bool, item: Item, next: nat, n: nat)
    requires U32(data, o) == Some(n)
    ensures ItemAt(data, o, scores) == Success(Read(item, next))
            <==> n < 4096 && ItemBody(data, o + 4, scores, item, next, n)
  {
    var text := TextAt(data, o + 4, n, item.text);
    TextRead(data, o + 4, n, item.text);
    ItemReadAs(data, o, scores, item, next, n, text);
    assert ItemBody(data, o + 4, scores, item, next, n) <==> text && AfterText(data, o + 4 + n, scores, item, next);
  }

  lemma ItemReadAs(data: seq<Byte>, o: nat, scores: bool, item: Item, next: nat, n: nat, text: bool)
    requires U32(data, o) == Some(n) && text == (Slice(data, o + 4, o + 4 + n) == item.text)
    ensures ItemAt(data, o, scores) == Success(Read(item, next))
            <==> n < 4096 && text && AfterText(data, o + 4 + n, scores, item, next)
  {
  }

  lemma ItemExactly(data: seq<Byte>, o: nat, scores: bool, item: Item, next: nat)
    ensures ItemAt(data, o, scores) == Success(Read(item, next)) <==> ItemFits(data, o, scores, item, next)
  {
    if ItemAt(data, o, scores) == Success(Read(item, next)) {
      var n := U32(data, o).value;
      ItemOfGiven(data, o, scores, item, next, n);
      assert ItemOfLength(data, o, scores, item, next, n);
    } else if n: nat :| ItemOfLength(data, o, scores, item, next, n) {
      ItemOfGiven(data, o, scores, item, next, n);
    }
  }

  lemma ItemsCons(data: seq<Byte>, o: nat, n: nat, scores: bool)
    requires n > 0 && ItemAt(data, o, scores).Success?
    ensures var first := ItemAt(data, o, scores).value;
            ItemsAt(data, o, n, scores) == Prepend([first.value], ItemsAt(data, first.next, n - 1, scores))
  {
    assert ItemsAt(data, o, n, scores) == ItemThenRest(data, o, n, scores);
  }

  lemma ItemsStop(data: seq<Byte>, o: nat, n: nat, scores: bool)
    requires n > 0 && ItemAt(data, o, scores).Failure?
    ensures ItemsAt(data, o, n, scores).Failure?
  {
    assert ItemsAt(data, o, n, scores) == ItemThenRest(data, o, n, scores);
  }

  lemma {:induction false} ItemsExactly(data: seq<Byte>, o: nat, scores: bool, items: seq<Item>, end: nat)
    ensures ItemsAt(data, o, |items|, scores) == Success(Read(items, end)) <==> ItemsFit(data, o, scores, items, end)
    decreases |items|
  {
    if items != [] {
      var first := ItemAt(data, o, scores);
      if first.Success? {
        var next := first.value.next;
        ItemsCons(data, o, |items|, scores);
        ItemExactly(data, o, scores, first.value.value, next);
        ItemsExactly(data, next, scores, items[1..], end);
        assert items == [items[0]] + items[1..];
      } else {
        ItemsStop(data, o, |items|, scores);
      }
      forall next: nat | ItemFits(data, o, scores, items[0], next)
        ensures first == Success(Read(items[0], next))
      {
        ItemExactly(data, o, scores, items[0], next);
      }
    }
  }

  // ----- tensors -----

  /** The first position from `o` on that is a multiple of 32. */
  predicate AlignedFrom(o: nat, start: nat) { o <= start < o + 32 && start % 32 == 0 }

  ghost predicate TensorFits(data: seq<Byte>, o: nat, padded: bool, quants: Quants, t: Tensor, next: nat) {
    exists n: nat :: TensorOfLength(data, o, padded, quants, t, next, n)
  }

  /** Three numbers, at most four dimensions and a name shorter than 4096. */
  predicate TensorOfLength(data: seq<Byte>, o: nat, padded: bool, quants: Quants, t: Tensor, next: nat, n: nat) {
    && NumbersAt(data, o, [|t.dims|, n, t.dtype]) && |t.dims| <= 4 && n < 4096 && t.dtype in quants
    && TensorBody(data, o + 12, padded, ByteSize(t.dims, quants[t.dtype]), t, next, n)
  }

  /** The dimensions, the name, in GGJT a gap, and so many bytes of elements. */
  predicate TensorBody(data: seq<Byte>, o: nat, padded: bool, size: Option<nat>, t: Tensor, next: nat, n: nat) {
    var named := o + 4 * |t.dims|;
    && NumbersAt(data, o, t.dims) && TextAt(data, named, n, t.name)
    && StartFits(named + n, padded, t.start)
    && size == Some(t.len) && next == t.start + t.len
  }

  ghost predicate TensorsFit(data: seq<Byte>, o: nat, padded: bool, quants: Quants, ts: seq<Tensor>, end: nat)
    decreases |ts|
  {
    if ts == [] then o >= |data| && end == o
    else
      o < |data|
      && exists next: nat :: TensorFits(data, o, padded, quants, ts[0], next)
                             && TensorsFit(data, next, padded, quants, ts[1..], end)
  }

  lemma PaddedTo(o: nat, start: nat)
    ensures start == o + Padding(o) <==> AlignedFrom(o, start)
  {
    PaddingAligns(o);
  }

  lemma HeadExactly(data: seq<Byte>, o: nat, quants: Quants, d: nat, n: nat, dtype: nat)
    ensures TensorHeadAt(data, o, quants) == Success(TensorHead(d, n, dtype))
            <==> NumbersAt(data, o, [d, n, dtype]) && d <= 4 && n < 4096 && dtype in quants
  {
    NumbersRead(data, o, [d, n, dtype]);
    var h := U32s(data, o, 3);
    if h.Some? { assert h.value == [h.value[0], h.value[1], h.value[2]]; }
  }

  /** How the reader sees the three parts of a tensor's body. */
  lemma BodyIs(data: seq<Byte>, o: nat, end: nat, head: TensorHead, padded: bool, quants: Quants, t: Tensor, next: nat,
               numbers: bool, text: bool, start: bool)
    requires head.dtype in quants && end == o + 4 * head.nDims + head.nameLen
    requires numbers == (U32s(data, o, head.nDims) == Some(t.dims))
    requires text == (Slice(data, o + 4 * head.nDims, end) == t.name) && start == (t.start == StartFrom(end, padded))
    ensures TensorBodyAt(data, o, head, padded, quants) == Success(Read(t, next)) <==>
              numbers && text && start && t.dtype == head.dtype
              && ByteSize(t.dims, quants[head.dtype]) == Some(t.len) && next == t.start + t.len
  {
  }

  /** What the three parts are. */
  lemma PartsAre(data: seq<Byte>, o: nat, named: nat, n: nat, padded: bool, t: Tensor)
    requires named == o + 4 * |t.dims|
    ensures U32s(data, o, |t.dims|) == Some(t.dims) <==> NumbersAt(data, o, t.dims)
    ensures Slice(data, named, named + n) == t.name <==> TextAt(data, named, n, t.name)
    ensures t.start == StartFrom(named + n, padded) <==> StartFits(named + n, padded, t.start)
  {
    TextRead(data, named, n, t.name);
    SameStart(named + n, padded, t.start);
    NumbersRead(data, o, t.dims);
  }

  lemma BodyFits(data: seq<Byte>, o: nat, padded: bool, size: Option<nat>, t: Tensor, next: nat, n: nat,
                 numbers: bool, text: bool, start: bool)
    requires var named := o + 4 * |t.dims|;
             && numbers == NumbersAt(data, o, t.dims) && text == TextAt(data, named, n, t.name)
             && start == StartFits(named + n, padded, t.start)
    ensures TensorBody(data, o, padded, size, t, next, n)
            <==> numbers && text && start && size == Some(t.len) && next == t.start + t.len
  {
  }

  lemma BodyExactly(data: seq<Byte>, o: nat, head: TensorHead, padded: bool, quants: Quants, t: Tensor, next: nat)
    requires head.dtype in quants
    ensures TensorBodyAt(data, o, head, padded, quants) == Success(Read(t, next))
            <==> |t.dims| == head.nDims && t.dtype == head.dtype
                 && TensorBody(data, o, padded, ByteSize(t.dims, quants[head.dtype]), t, next, head.nameLen)
  {
    var named, n := o + 4 * head.nDims, head.nameLen;
    var numbers, text := U32s(data, o, head.nDims) == Some(t.dims), Slice(data, named, named + n) == t.name;
    var start := t.start == StartFrom(named + n, padded);
    BodyIs(data, o, named + n, head, padded, quants, t, next, numbers, text, start);
    if |t.dims| == head.nDims {
      PartsAre(data, o, named, n, padded, t);
      BodyFits(data, o, padded, ByteSize(t.dims, quants[head.dtype]), t, next, n, numbers, text, start);
    }
  }

  predicate StartFits(o: nat, padded: bool, start: nat) { if padded then AlignedFrom(o, start) else start == o }

  function StartFrom(o: nat, padded: bool): nat { o + if padded then Padding(o) else 0 }

  lemma SameStart(o: nat, padded: bool, start: nat)
    ensures start == StartFrom(o, padded) <==> StartFits(o, padded, start)
  {
    PaddedTo(o, start);
  }

  lemma TensorExactly(data: seq<Byte>, o: nat, padded: bool, quants: Quants, t: Tensor, next: nat)
    ensures TensorAt(data, o, padded, quants) == Success(Read(t, next))
            <==> TensorFits(data, o, padded, quants, t, next)
  {
    var head := TensorHeadAt(data, o, quants);
    if head.Success? {
      var h := head.value;
      HeadExactly(data, o, quants, h.nDims, h.nameLen, h.dtype);
      BodyExactly(data, o + 12, h, padded, quants, t, next);
      if TensorAt(data, o, padded, quants) == Success(Read(t, next)) {
        assert TensorOfLength(data, o, padded, quants, t, next, h.nameLen);
      }
    }
    forall n: nat | TensorOfLength(data, o, padded, quants, t, next, n)
      ensures head == Success(TensorHead(|t.dims|, n, t.dtype))
    {
      HeadExactly(data, o, quants, |t.dims|, n, t.dtype);
    }
  }

  lemma TensorsCons(data: seq<Byte>, o: nat, padded: bool, quants: Quants)
    requires o < |data|
    ensures var first := TensorAt(data, o, padded, quants);
            TensorsAt(data, o, padded, quants)
            == if first.Failure? then Failure(first.error)
               else Prepend([first.value.value], TensorsAt(data, first.value.next, padded, quants))
  {
    assert TensorsAt(data, o, padded, quants) == TensorThenRest(data, o, padded, quants);
  }

  lemma {:induction false} TensorsExactly(data: seq<Byte>, o: nat, padded: bool, quants: Quants,
                                          ts: seq<Tensor>, end: nat)
    ensures TensorsAt(data, o, padded, quants) == Success(Read(ts, end))
            <==> TensorsFit(data, o, padded, quants, ts, end)
    decreases |ts|
  {
    if o < |data| {
      var first := TensorAt(data, o, padded, quants);
      TensorsCons(data, o, padded, quants);
      if ts != [] {
        assert ts == [ts[0]] + ts[1..];
        if first.Success? {
          TensorExactly(data, o, padded, quants, first.value.value, first.value.next);
          TensorsExactly(data, first.value.next, padded, quants, ts[1..], end);
        }
        forall next: nat | TensorFits(data, o, padded, quants, ts[0], next)
          ensures first == Success(Read(ts[0], next))
        {
          TensorExactly(data, o, padded, quants, ts[0], next);
        }
      }
    }
  }

  // ----- the whole file -----

  /** Of the last tensor called layers.0.feed_forward.w1.weight, the second dimension. */
  predicate FeedForward(ts: seq<Tensor>, nFf: nat) {
    exists k :: 0 <= k < |ts| && IsFeedForward(ts[k]) && |ts[k].dims| >= 2 && nFf == ts[k].dims[1]
                && forall j :: k < j < |ts| ==> !IsFeedForward(ts[j])
  }

  predicate IsFeedForward(t: Tensor) {
    t.name == [108, 97, 121, 101, 114, 115, 46, 48, 46, 102, 101, 101, 100, 95, 102, 111, 114, 119, 97, 114, 100, 46,
               119, 49, 46, 119, 101, 105, 103, 104, 116]
  }

  /** The seven hyperparameters, in their order. */
  function Fields(h: Hyper): seq<nat> { [h.nVocab, h.nEmbd, h.nMult, h.nHead, h.nLayer, h.nRot, h.ftype] }

  ghost predicate FileFits(data: seq<Byte>, o: nat, quants: Quants, l: Loaded) {
    exists size: nat, p: nat :: PartsFit(data, o, quants, l, size, p)
  }

  /** A header of `size` bytes, the hyperparameters, as many items as they say, up to `p`, and tensors up to the end. */
  ghost predicate PartsFit(data: seq<Byte>, o: nat, quants: Quants, l: Loaded, size: nat, p: nat) {
    && HeaderFits(data, o, l.format, l.version, size)
    && NumbersAt(data, o + size, Fields(l.hyper)) && TypeFits(l.format, l.version, l.hyper.ftype)
    && |l.items| == l.hyper.nVocab && ListsFit(data, o + size + 28, l.format, quants, l, p)
    && FeedForward(l.tensors, l.nFf)
  }

  lemma FeedForwardExactly(ts: seq<Tensor>, nFf: nat)
    ensures FeedForwardSize(ts) == Success(nFf) <==> FeedForward(ts, nFf)
  {
    MapIsLast(ts, FEED_FORWARD);
    if FEED_FORWARD in MapOf(ts) {
      var k := MapOf(ts)[FEED_FORWARD];
      assert IsFeedForward(ts[k]);
      assert forall j :: k < j < |ts| ==> !IsFeedForward(ts[j]);
    }
  }

  lemma HyperExactly(data: seq<Byte>, o: nat, h: Hyper)
    ensures HyperAt(data, o) == Success(h) <==> NumbersAt(data, o, Fields(h)) && KnownFtype(h.ftype)
  {
    NumbersRead(data, o, Fields(h));
    var s := U32s(data, o, 7);
    if s.Some? {
      var f := s.value;
      assert f == [f[0], f[1], f[2], f[3], f[4], f[5], f[6]];
    }
  }

  lemma TypeExactly(format: Format, version: nat, ftype: nat)
    requires format == Ggjt ==> 1 <= version <= 3
    ensures KnownFtype(ftype) && Convertible(format, version, ftype) <==> TypeFits(format, version, ftype)
  {
  }

  /** The items up to `p`, and the tensors from there on. */
  ghost predicate ListsFit(data: seq<Byte>, o: nat, format: Format, quants: Quants, l: Loaded, p: nat) {
    ItemsFit(data, o, format != Ggml, l.items, p) && TensorsFit(data, p, format == Ggjt, quants, l.tensors, l.next)
  }

  lemma RestIs(data: seq<Byte>, o: nat, header: Header, hyper: Hyper, quants: Quants)
    ensures var items := ItemsAt(data, o, hyper.nVocab, header.format != Ggml);
            LoadRest(data, o, header, hyper, quants)
            == if items.Failure? then Failure(items.error)
               else
                 var tensors := TensorsAt(data, items.value.next, header.format == Ggjt, quants);
                 if tensors.Failure? then Failure(tensors.error)
                 else Finish(header, hyper, items.value.value, tensors.value)
  {
  }

  lemma FinishExactly(header: Header, hyper: Hyper, items: seq<Item>, tensors: Read<seq<Tensor>>, l: Loaded)
    ensures Finish(header, hyper, items, tensors) == Success(l)
            <==> l == Loaded(header.format, header.version, hyper, l.nFf, items, tensors.value, tensors.next)
                 && FeedForward(tensors.value, l.nFf)
  {
    FeedForwardExactly(tensors.value, l.nFf);
  }

  lemma RestLoads(data: seq<Byte>, o: nat, header: Header, hyper: Hyper, quants: Quants, l: Loaded, p: nat)
    requires l.format == header.format && l.version == header.version && l.hyper == hyper
    requires |l.items| == hyper.nVocab && FeedForward(l.tensors, l.nFf)
    requires ListsFit(data, o, header.format, quants, l, p)
    ensures LoadRest(data, o, header, hyper, quants) == Success(l)
  {
    ItemsExactly(data, o, header.format != Ggml, l.items, p);
    TensorsExactly(data, p, header.format == Ggjt, quants, l.tensors, l.next);
    RestIs(data, o, header, hyper, quants);
    FinishExactly(header, hyper, l.items, Read(l.tensors, l.next), l);
  }

  lemma RestFits(data: seq<Byte>, o: nat, header: Header, hyper: Hyper, quants: Quants, l: Loaded) returns (p: nat)
    requires LoadRest(data, o, header, hyper, quants) == Success(l)
    ensures l.format == header.format && l.version == header.version && l.hyper == hyper
    ensures |l.items| == hyper.nVocab && FeedForward(l.tensors, l.nFf)
    ensures ListsFit(data, o, header.format, quants, l, p)
  {
    RestIs(data, o, header, hyper, quants);
    var items := ItemsAt(data, o, hyper.nVocab, header.format != Ggml).value;
    p := items.next;
    FinishExactly(header, hyper, items.value, TensorsAt(data, p, header.format == Ggjt, quants).value, l);
    ItemsExactly(data, o, header.format != Ggml, l.items, p);
    TensorsExactly(data, p, header.format == Ggjt, quants, l.tensors, l.next);
  }

  /** A file loads, as `l`, exactly if it fits the description of one of the formats, with `l` as its contents. */
  lemma LoadsExactly(data: seq<Byte>, o: nat, quants: Quants, l: Loaded)
    ensures Load(data, o, quants) == Success(l) <==> FileFits(data, o, quants, l)
  {
    if Load(data, o, quants) == Success(l) {
      LoadedFits(data, o, quants, l);
    } else if size: nat, p: nat :| PartsFit(data, o, quants, l, size, p) {
      FittingLoads(data, o, quants, l, size, p);
    }
  }

  lemma LoadedFits(data: seq<Byte>, o: nat, quants: Quants, l: Loaded)
    requires Load(data, o, quants) == Success(l)
    ensures FileFits(data, o, quants, l)
  {
    var header := HeaderAt(data, o).value;
    HeaderExactly(data, o, header.format, header.version, header.size);
    var hyper := HyperAt(data, o + header.size);
    LoadIs(data, o, quants, header, hyper);
    HyperExactly(data, o + header.size, hyper.value);
    TypeExactly(header.format, header.version, hyper.value.ftype);
    var p := RestFits(data, o + header.size + 28, header, hyper.value, quants, l);
    assert PartsFit(data, o, quants, l, header.size, p);
  }

  lemma FittingLoads(data: seq<Byte>, o: nat, quants: Quants, l: Loaded, size: nat, p: nat)
    requires PartsFit(data, o, quants, l, size, p)
    ensures Load(data, o, quants) == Success(l)
  {
    var header := Header(l.format, l.version, size);
    HeaderExactly(data, o, l.format, l.version, size);
    TypeExactly(l.format, l.version, l.hyper.ftype);
    HyperExactly(data, o + size, l.hyper);
    LoadIs(data, o, quants, header, HyperAt(data, o + size));
    RestLoads(data, o + size + 28, header, l.hyper, quants, l, p);
  }
}
