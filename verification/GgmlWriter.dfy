/**
 A writer for the legacy GGML formats, and how the files it writes are laid out: which numbers,
 texts and bytes stand where.
 */
module GgmlWriter {
  import opened Wrappers
  import opened Division
  import opened GgmlFormat

  datatype TensorFile = TensorFile(name: seq<Byte>, dims: seq<nat>, dtype: nat, data: seq<Byte>)

  datatype File = File(format: Format, version: nat, hyper: Hyper, items: seq<Item>, tensors: seq<TensorFile>)

  function PutU32(n: nat): (s: seq<Byte>)
    requires n < 0x1_0000_0000
    ensures |s| == 4
  {
    LowBytes(n, 4)
  }

  /** The `k` lowest bytes, the lowest first. */
  function LowBytes(n: nat, k: nat): (s: seq<Byte>)
    ensures |s| == k
    decreases k
  {
    if k == 0 then [] else [LowByte(Remainder(n, 0x100))] + LowBytes(Quotient(n, 0x100), k - 1)
  }

  function LowByte(n: nat): Byte { if n == 0 then 0 else LowByte(n - 1) + 1 }

  function Power(k: nat): nat { if k == 0 then 1 else 0x100 * Power(k - 1) }

  predicate Small(ns: seq<nat>) { forall i :: 0 <= i < |ns| ==> ns[i] < 0x1_0000_0000 }

  function PutU32s(ns: seq<nat>): (s: seq<Byte>)
    requires Small(ns)
    ensures |s| == 4 * |ns|
  {
    if ns == [] then [] else PutU32(ns[0]) + PutU32s(ns[1..])
  }

  function Magic(format: Format): seq<Byte> {
    match format case Ggml => MAGIC_GGML case Ggmf => MAGIC_GGMF case Ggjt => MAGIC_GGJT
  }

  function PutHeader(format: Format, version: nat): seq<Byte>
    requires version < 4
  {
    Magic(format) + (if format == Ggml then [] else PutU32(version))
  }

  function HyperFields(h: Hyper): seq<nat> { [h.nVocab, h.nEmbd, h.nMult, h.nHead, h.nLayer, h.nRot, h.ftype] }

  predicate ItemOk(item: Item, scores: bool) {
    |item.text| < 4096 && (if scores then item.score.Some? && |item.score.value| == 4 else item.score == None)
  }

  function PutItem(item: Item, scores: bool): seq<Byte>
    requires ItemOk(item, scores)
  {
    PutU32(|item.text|) + item.text + (if scores then item.score.value else [])
  }

  predicate ItemsOk(items: seq<Item>, scores: bool) { forall i :: 0 <= i < |items| ==> ItemOk(items[i], scores) }

  function PutItems(items: seq<Item>, scores: bool): seq<Byte>
    requires ItemsOk(items, scores)
    decreases |items|, 1
  {
    if items == [] then [] else PutItemAndRest(items, scores)
  }

  function PutItemAndRest(items: seq<Item>, scores: bool): seq<Byte>
    requires ItemsOk(items, scores) && items != []
    decreases |items|, 0
  {
    PutItem(items[0], scores) + PutItems(items[1..], scores)
  }

  predicate Writable(t: TensorFile) {
    |t.dims| <= 4 && Small(t.dims) && |t.name| < 4096 && t.dtype < 0x1_0000_0000
  }

  predicate AllWritable(ts: seq<TensorFile>) { forall i :: 0 <= i < |ts| ==> Writable(ts[i]) }

  function Zeros(n: nat): (s: seq<Byte>)
    ensures |s| == n
  {
    if n == 0 then [] else [0] + Zeros(n - 1)
  }

  function PutHead(t: TensorFile): (s: seq<Byte>)
    requires Writable(t)
    ensures |s| == 12
  {
    PutU32s([|t.dims|, |t.name|, t.dtype])
  }

  /** Everything of a tensor but its data, written at position `o`. */
  function PutIntro(t: TensorFile, o: nat, padded: bool): seq<Byte>
    requires Writable(t)
  {
    PutHead(t) + PutU32s(t.dims) + t.name
    + Zeros(if padded then Padding(o + 12 + 4 * |t.dims| + |t.name|) else 0)
  }

  function PutTensors(ts: seq<TensorFile>, o: nat, padded: bool): seq<Byte>
    requires AllWritable(ts)
    decreases |ts|, 1
  {
    if ts == [] then [] else PutTensorAndRest(ts, o, padded)
  }

  function PutTensorAndRest(ts: seq<TensorFile>, o: nat, padded: bool): seq<Byte>
    requires AllWritable(ts) && ts != []
    decreases |ts|, 0
  {
    var intro := PutIntro(ts[0], o, padded);
    intro + ts[0].data + PutTensors(ts[1..], o + |intro| + |ts[0].data|, padded)
  }

  predicate HeaderOk(f: File) {
    && Small(HyperFields(f.hyper)) && f.hyper.nVocab == |f.items|
    && (if f.format == Ggjt then 1 <= f.version <= 3 else f.version == 1)
    && KnownFtype(f.hyper.ftype) && Convertible(f.format, f.version, f.hyper.ftype)
  }

  predicate FileOk(f: File) {
    HeaderOk(f) && ItemsOk(f.items, f.format != Ggml) && AllWritable(f.tensors)
  }

  function Front(f: File): seq<Byte>
    requires HeaderOk(f)
  {
    PutHeader(f.format, f.version) + PutU32s(HyperFields(f.hyper))
  }

  function Write(f: File): seq<Byte>
    requires FileOk(f)
  {
    var front := Front(f) + PutItems(f.items, f.format != Ggml);
    front + PutTensors(f.tensors, |front|, f.format == Ggjt)
  }

  // ----- the layout -----

  predicate At(data: seq<Byte>, o: nat, s: seq<Byte>) { o + |s| <= |data| && data[o..o + |s|] == s }

  lemma AtSplit(data: seq<Byte>, o: nat, a: seq<Byte>, b: seq<Byte>)
    requires At(data, o, a + b)
    ensures At(data, o, a) && At(data, o + |a|, b)
  {
    assert data[o..o + |a|] == data[o..o + |a + b|][..|a|];
    assert data[o + |a|..o + |a| + |b|] == data[o..o + |a + b|][|a|..];
  }

  lemma AtSlice(data: seq<Byte>, o: nat, s: seq<Byte>)
    requires At(data, o, s)
    ensures Slice(data, o, o + |s|) == s
  {
  }

  lemma NextByte(b: Byte)
    requires b < 255
    ensures (b + 1) as nat == b as nat + 1
  {
  }

  lemma {:induction false} LowByteIs(n: nat)
    requires n < 0x100
    ensures LowByte(n) as nat == n
  {
    if n > 0 {
      LowByteIs(n - 1);
      NextByte(LowByte(n - 1));
    }
  }

  lemma {:induction false} LowBytesRead(data: seq<Byte>, o: nat, n: nat, k: nat)
    requires n < Power(k) && At(data, o, LowBytes(n, k))
    ensures LittleEndian(data, o, k) == n
    decreases k
  {
    if k > 0 {
      var low, high := Remainder(n, 0x100), Quotient(n, 0x100);
      QuotientIs(n, 0x100);
      LowByteIs(low);
      AtSplit(data, o, [LowByte(low)], LowBytes(high, k - 1));
      assert data[o] == data[o..o + 1][0];
      LowBytesRead(data, o + 1, high, k - 1);
    }
  }

  lemma AtU32(data: seq<Byte>, o: nat, n: nat)
    requires n < 0x1_0000_0000 && At(data, o, PutU32(n))
    ensures U32(data, o) == Some(n)
  {
    assert Power(4) == 0x1_0000_0000;
    LowBytesRead(data, o, n, 4);
  }

  lemma U32sStep(data: seq<Byte>, o: nat, ns: seq<nat>)
    requires ns != [] && U32(data, o) == Some(ns[0]) && U32s(data, o + 4, |ns| - 1) == Some(ns[1..])
    ensures U32s(data, o, |ns|) == Some(ns)
  {
    assert ns == [ns[0]] + ns[1..];
  }

  lemma {:induction false} AtU32s(data: seq<Byte>, o: nat, ns: seq<nat>)
    requires Small(ns) && At(data, o, PutU32s(ns))
    ensures U32s(data, o, |ns|) == Some(ns)
    decreases |ns|
  {
    if ns != [] {
      AtSplit(data, o, PutU32(ns[0]), PutU32s(ns[1..]));
      AtU32(data, o, ns[0]);
      AtU32s(data, o + 4, ns[1..]);
      U32sStep(data, o, ns);
    }
  }

  lemma AtFirst(data: seq<Byte>, o: nat, a: seq<Byte>, b: seq<Byte>, c: seq<Byte>)
    requires At(data, o, a + b + c)
    ensures At(data, o, a) && At(data, o + |a|, b) && At(data, o + |a| + |b|, c)
  {
    AtSplit(data, o, a + b, c);
    AtSplit(data, o, a, b);
  }

  lemma AtThree(data: seq<Byte>, o: nat, a: seq<Byte>, b: seq<Byte>, c: seq<Byte>, d: seq<Byte>)
    requires At(data, o, a + b + c + d)
    ensures At(data, o, a) && At(data, o + |a|, b + c)
  {
    AtSplit(data, o, a + b + c, d);
    assert a + b + c == a + (b + c);
    AtSplit(data, o, a, b + c);
  }

  function ItemEnd(item: Item, o: nat, scores: bool): nat { o + 4 + |item.text| + (if scores then 4 else 0) }

  predicate ItemLaid(data: seq<Byte>, o: nat, item: Item, scores: bool) {
    && ItemOk(item, scores) && U32(data, o) == Some(|item.text|)
    && Slice(data, o + 4, o + 4 + |item.text|) == item.text
    && (scores ==> At(data, o + 4 + |item.text|, item.score.value))
  }

  predicate ItemsLaid(data: seq<Byte>, o: nat, items: seq<Item>, scores: bool, end: nat)
    decreases |items|
  {
    if items == [] then o == end
    else ItemLaid(data, o, items[0], scores) && ItemsLaid(data, ItemEnd(items[0], o, scores), items[1..], scores, end)
  }

  lemma WrittenItemLaid(data: seq<Byte>, o: nat, item: Item, scores: bool)
    requires ItemOk(item, scores) && At(data, o, PutItem(item, scores))
    ensures ItemLaid(data, o, item, scores) && ItemEnd(item, o, scores) == o + |PutItem(item, scores)|
  {
    var score := if scores then item.score.value else [];
    AtFirst(data, o, PutU32(|item.text|), item.text, score);
    ItemPartsLaid(data, o, item, scores, score);
  }

  lemma ItemPartsLaid(data: seq<Byte>, o: nat, item: Item, scores: bool, score: seq<Byte>)
    requires ItemOk(item, scores) && At(data, o, PutU32(|item.text|)) && At(data, o + 4, item.text)
    requires scores ==> score == item.score.value && At(data, o + 4 + |item.text|, score)
    ensures ItemLaid(data, o, item, scores)
  {
    AtU32(data, o, |item.text|);
    AtSlice(data, o + 4, item.text);
  }

  lemma {:induction false} WrittenItemsLaid(data: seq<Byte>, o: nat, items: seq<Item>, scores: bool, end: nat)
    requires ItemsOk(items, scores) && At(data, o, PutItems(items, scores)) && end == o + |PutItems(items, scores)|
    ensures ItemsLaid(data, o, items, scores, end)
    decreases |items|
  {
    if items != [] {
      var next := FirstItemLaid(data, o, items, scores);
      WrittenItemsLaid(data, next, items[1..], scores, end);
      ItemsLaidJoin(data, o, items, scores, next, end);
    }
  }

  lemma FirstItemLaid(data: seq<Byte>, o: nat, items: seq<Item>, scores: bool) returns (next: nat)
    requires ItemsOk(items, scores) && items != [] && At(data, o, PutItems(items, scores))
    ensures ItemLaid(data, o, items[0], scores) && next == ItemEnd(items[0], o, scores)
    ensures At(data, next, PutItems(items[1..], scores))
    ensures next + |PutItems(items[1..], scores)| == o + |PutItems(items, scores)|
  {
    var first := PutItem(items[0], scores);
    next := o + |first|;
    assert PutItems(items, scores) == PutItemAndRest(items, scores);
    AtSplit(data, o, first, PutItems(items[1..], scores));
    WrittenItemLaid(data, o, items[0], scores);
  }

  lemma ItemsLaidJoin(data: seq<Byte>, o: nat, items: seq<Item>, scores: bool, next: nat, end: nat)
    requires items != [] && ItemLaid(data, o, items[0], scores) && next == ItemEnd(items[0], o, scores)
    requires ItemsLaid(data, next, items[1..], scores, end)
    ensures ItemsLaid(data, o, items, scores, end)
  {
  }

  /** Where the data of a tensor starts whose dimensions stand at `o`. */
  function BodyStart(t: TensorFile, o: nat, padded: bool): nat {
    var named := o + 4 * |t.dims| + |t.name|;
    named + (if padded then Padding(named) else 0)
  }

  /** Where the data of a tensor written at `o` starts. */
  function DataStart(t: TensorFile, o: nat, padded: bool): nat { BodyStart(t, o + 12, padded) }

  predicate TensorLaid(data: seq<Byte>, o: nat, t: TensorFile, padded: bool) {
    Writable(t) && HeadAt(data, o, t) && ShapeAt(data, o + 12, t) && At(data, DataStart(t, o, padded), t.data)
  }

  predicate HeadAt(data: seq<Byte>, o: nat, t: TensorFile) {
    U32s(data, o, 3) == Some([|t.dims|, |t.name|, t.dtype])
  }

  /** The dimensions, then the name. */
  predicate ShapeAt(data: seq<Byte>, o: nat, t: TensorFile) {
    && U32s(data, o, |t.dims|) == Some(t.dims)
    && Slice(data, o + 4 * |t.dims|, o + 4 * |t.dims| + |t.name|) == t.name
  }

  predicate TensorsLaid(data: seq<Byte>, o: nat, ts: seq<TensorFile>, padded: bool)
    decreases |ts|, 1
  {
    if ts == [] then o == |data| else TensorAndRestLaid(data, o, ts, padded)
  }

  predicate TensorAndRestLaid(data: seq<Byte>, o: nat, ts: seq<TensorFile>, padded: bool)
    requires ts != []
    decreases |ts|, 0
  {
    TensorLaid(data, o, ts[0], padded) && TensorsLaid(data, DataStart(ts[0], o, padded) + |ts[0].data|, ts[1..], padded)
  }

  lemma HeadLaid(data: seq<Byte>, o: nat, t: TensorFile)
    requires Writable(t) && At(data, o, PutHead(t))
    ensures HeadAt(data, o, t)
  {
    AtU32s(data, o, [|t.dims|, |t.name|, t.dtype]);
  }

  lemma ShapeLaid(data: seq<Byte>, o: nat, dims: seq<nat>, name: seq<Byte>)
    requires Small(dims) && At(data, o, PutU32s(dims) + name)
    ensures U32s(data, o, |dims|) == Some(dims) && Slice(data, o + 4 * |dims|, o + 4 * |dims| + |name|) == name
  {
    AtSplit(data, o, PutU32s(dims), name);
    AtU32s(data, o, dims);
    AtSlice(data, o + 4 * |dims|, name);
  }

  /** What stands before the data of a tensor: the head, the dimensions and the name. */
  lemma IntroHead(data: seq<Byte>, o: nat, t: TensorFile, padded: bool)
    requires Writable(t) && At(data, o, PutIntro(t, o, padded))
    ensures HeadAt(data, o, t)
  {
    IntroAt(data, o, t, padded);
    HeadLaid(data, o, t);
  }

  lemma IntroShape(data: seq<Byte>, o: nat, t: TensorFile, padded: bool, p: nat)
    requires Writable(t) && At(data, o, PutIntro(t, o, padded)) && p == o + 12
    ensures ShapeAt(data, p, t)
  {
    IntroAt(data, o, t, padded);
    ShapeLaid(data, p, t.dims, t.name);
  }

  lemma IntroAt(data: seq<Byte>, o: nat, t: TensorFile, padded: bool)
    requires Writable(t) && At(data, o, PutIntro(t, o, padded))
    ensures At(data, o, PutHead(t)) && At(data, o + 12, PutU32s(t.dims) + t.name)
  {
    var pad := if padded then Padding(o + 12 + 4 * |t.dims| + |t.name|) else 0;
    AtThree(data, o, PutHead(t), PutU32s(t.dims), t.name, Zeros(pad));
  }

  lemma IntroLength(t: TensorFile, o: nat, padded: bool)
    requires Writable(t)
    ensures o + |PutIntro(t, o, padded)| == DataStart(t, o, padded)
  {
  }

  lemma TensorLaidIs(data: seq<Byte>, o: nat, t: TensorFile, padded: bool)
    requires Writable(t) && HeadAt(data, o, t) && ShapeAt(data, o + 12, t)
    requires At(data, DataStart(t, o, padded), t.data)
    ensures TensorLaid(data, o, t, padded)
  {
  }

  lemma {:induction false} WrittenTensorsLaid(data: seq<Byte>, o: nat, ts: seq<TensorFile>, padded: bool)
    requires AllWritable(ts) && At(data, o, PutTensors(ts, o, padded)) && o + |PutTensors(ts, o, padded)| == |data|
    ensures TensorsLaid(data, o, ts, padded)
    decreases |ts|
  {
    if ts != [] {
      var next := FirstTensorLaid(data, o, ts, padded);
      WrittenTensorsLaid(data, next, ts[1..], padded);
      TensorsLaidJoin(data, o, ts, padded, next);
    }
  }

  lemma FirstTensorLaid(data: seq<Byte>, o: nat, ts: seq<TensorFile>, padded: bool) returns (next: nat)
    requires AllWritable(ts) && ts != [] && At(data, o, PutTensors(ts, o, padded))
    ensures TensorLaid(data, o, ts[0], padded) && next == DataStart(ts[0], o, padded) + |ts[0].data|
    ensures At(data, next, PutTensors(ts[1..], next, padded))
    ensures next + |PutTensors(ts[1..], next, padded)| == o + |PutTensors(ts, o, padded)|
  {
    next := FirstTensorAt(data, o, ts, padded, PutIntro(ts[0], o, padded));
    IntroLength(ts[0], o, padded);
    OneTensorLaid(data, o, ts[0], padded);
  }

  lemma OneTensorLaid(data: seq<Byte>, o: nat, t: TensorFile, padded: bool)
    requires Writable(t) && At(data, o, PutIntro(t, o, padded)) && At(data, DataStart(t, o, padded), t.data)
    ensures TensorLaid(data, o, t, padded)
  {
    IntroHead(data, o, t, padded);
    IntroShape(data, o, t, padded, o + 12);
    TensorLaidIs(data, o, t, padded);
  }

  lemma FirstTensorAt(data: seq<Byte>, o: nat, ts: seq<TensorFile>, padded: bool, intro: seq<Byte>) returns (next: nat)
    requires AllWritable(ts) && ts != [] && At(data, o, PutTensors(ts, o, padded))
    requires intro == PutIntro(ts[0], o, padded)
    ensures At(data, o, intro) && At(data, o + |intro|, ts[0].data) && next == o + |intro| + |ts[0].data|
    ensures At(data, next, PutTensors(ts[1..], next, padded))
    ensures next + |PutTensors(ts[1..], next, padded)| == o + |PutTensors(ts, o, padded)|
  {
    next := o + |intro| + |ts[0].data|;
    FirstPut(ts, o, padded, intro, next);
    AtFirst(data, o, intro, ts[0].data, PutTensors(ts[1..], next, padded));
  }

  lemma FirstPut(ts: seq<TensorFile>, o: nat, padded: bool, intro: seq<Byte>, next: nat)
    requires AllWritable(ts) && ts != [] && intro == PutIntro(ts[0], o, padded) && next == o + |intro| + |ts[0].data|
    ensures PutTensors(ts, o, padded) == intro + ts[0].data + PutTensors(ts[1..], next, padded)
  {
    assert PutTensors(ts, o, padded) == PutTensorAndRest(ts, o, padded);
  }

  lemma TensorsLaidJoin(data: seq<Byte>, o: nat, ts: seq<TensorFile>, padded: bool, next: nat)
    requires ts != [] && TensorLaid(data, o, ts[0], padded) && next == DataStart(ts[0], o, padded) + |ts[0].data|
    requires TensorsLaid(data, next, ts[1..], padded)
    ensures TensorsLaid(data, o, ts, padded)
  {
    TensorsLaidIs(data, o, ts, padded);
  }

  lemma TensorsLaidIs(data: seq<Byte>, o: nat, ts: seq<TensorFile>, padded: bool)
    requires ts != []
    ensures TensorsLaid(data, o, ts, padded) == TensorAndRestLaid(data, o, ts, padded)
  {
  }

  /** The whole file: the header and the hyperparameters, then the items, then the tensors to the very end. */
  predicate FileLaid(data: seq<Byte>, f: File, o: nat, o': nat) {
    && HeaderOk(f) && HeaderLaid(data, f, o)
    && ItemsLaid(data, o, f.items, f.format != Ggml, o') && TensorsLaid(data, o', f.tensors, f.format == Ggjt)
  }

  /** The magic, the version where the format has one, and the seven fields. */
  predicate HeaderLaid(data: seq<Byte>, f: File, o: nat) {
    var size := if f.format == Ggml then 4 else 8;
    && At(data, 0, Magic(f.format)) && (f.format != Ggml ==> U32(data, 4) == Some(f.version))
    && U32s(data, size, 7) == Some(HyperFields(f.hyper)) && o == size + 28
  }

  lemma WrittenHeaderLaid(data: seq<Byte>, f: File)
    requires HeaderOk(f) && At(data, 0, Front(f))
    ensures HeaderLaid(data, f, |Front(f)|)
  {
    var header := PutHeader(f.format, f.version);
    assert |Magic(f.format)| == 4;
    AtSplit(data, 0, header, PutU32s(HyperFields(f.hyper)));
    AtSplit(data, 0, Magic(f.format), if f.format == Ggml then [] else PutU32(f.version));
    if f.format != Ggml { AtU32(data, 4, f.version); }
    AtU32s(data, |header|, HyperFields(f.hyper));
  }

  lemma WrittenPartsLaid(data: seq<Byte>, o: nat, items: seq<Item>, ts: seq<TensorFile>, scores: bool, padded: bool,
                         o': nat)
    requires ItemsOk(items, scores) && At(data, o, PutItems(items, scores)) && o' == o + |PutItems(items, scores)|
    requires AllWritable(ts) && At(data, o', PutTensors(ts, o', padded)) && o' + |PutTensors(ts, o', padded)| == |data|
    ensures ItemsLaid(data, o, items, scores, o') && TensorsLaid(data, o', ts, padded)
  {
    WrittenItemsLaid(data, o, items, scores, o');
    WrittenTensorsLaid(data, o', ts, padded);
  }

  lemma WrittenFileLaid(f: File) returns (o: nat, o': nat)
    requires FileOk(f)
    ensures FileLaid(Write(f), f, o, o')
  {
    var data := Write(f);
    o, o' := FileParts(f, data);
    WrittenHeaderLaid(data, f);
    WrittenPartsLaid(data, o, f.items, f.tensors, f.format != Ggml, f.format == Ggjt, o');
  }

  lemma FileParts(f: File, data: seq<Byte>) returns (o: nat, o': nat)
    requires FileOk(f) && data == Write(f)
    ensures o == |Front(f)| && At(data, 0, Front(f)) && At(data, o, PutItems(f.items, f.format != Ggml))
    ensures o' == o + |PutItems(f.items, f.format != Ggml)| && At(data, o', PutTensors(f.tensors, o', f.format == Ggjt))
    ensures o' + |PutTensors(f.tensors, o', f.format == Ggjt)| == |data|
  {
    var front, items := Front(f), PutItems(f.items, f.format != Ggml);
    o, o' := |front|, |front + items|;
    var tensors := PutTensors(f.tensors, o', f.format == Ggjt);
    assert data == front + items + tensors;
    AtFirst(data, 0, front, items, tensors);
  }
}
