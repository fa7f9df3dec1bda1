/**
 The legacy GGML file format as convert_llama_ggml_to_gguf.py reads it: what every part of a file
 means, and which part fails to read with which error. Little-endian numbers, byte-exact slices.
 */
module GgmlFormat {
  import opened Wrappers

  type Byte = bv8

  datatype Error =
    | BadStruct | AlreadyGguf | BadMagic | BadVersion | BadFtype | NotConvertible | AbsurdItemLength
    | BadDimensions | AbsurdNameLength | UnknownType | NegativeSize | NoFeedForward | BadFeedForward

  datatype Format = Ggml | Ggmf | Ggjt

  /** A Python slice: cut short, without an error, where the data ends. */
  function Slice(data: seq<Byte>, a: nat, b: nat): (s: seq<Byte>)
    requires a <= b
    ensures |s| <= b - a
  {
    if a >= |data| then [] else data[a..if b <= |data| then b else |data|]
  }

  /** The number in the `k` bytes from `o` on, the lowest first. */
  function LittleEndian(data: seq<Byte>, o: nat, k: nat): nat
    requires o + k <= |data|
    decreases k, o
  {
    if k == 0 then 0 else data[o] as nat + 0x100 * LittleEndian(data, o + 1, k - 1)
  }

  function U32(data: seq<Byte>, o: nat): (n: Option<nat>)
    ensures n.Some? <==> o + 4 <= |data|
  {
    if o + 4 > |data| then None else Some(LittleEndian(data, o, 4))
  }

  function U32s(data: seq<Byte>, o: nat, n: nat): (s: Option<seq<nat>>)
    ensures s.Some? <==> n == 0 || o + 4 * n <= |data|
    ensures s.Some? ==> |s.value| == n
    decreases n, 1
  {
    if n == 0 then Some([]) else U32AndRest(data, o, n)
  }

  function U32AndRest(data: seq<Byte>, o: nat, n: nat): (s: Option<seq<nat>>)
    requires n > 0
    ensures s.Some? <==> o + 4 * n <= |data|
    ensures s.Some? ==> |s.value| == n
    decreases n, 0
  {
    var first, rest := U32(data, o), U32s(data, o + 4, n - 1);
    if first.None? || rest.None? then None else Some([first.value] + rest.value)
  }

  // ----- header -----

  const MAGIC_GGUF: seq<Byte> := [71, 71, 85, 70]
  const MAGIC_GGML: seq<Byte> := [108, 109, 103, 103]
  const MAGIC_GGMF: seq<Byte> := [102, 109, 103, 103]
  const MAGIC_GGJT: seq<Byte> := [116, 106, 103, 103]

  datatype Header = Header(format: Format, version: nat, size: nat)

  function HeaderAt(data: seq<Byte>, o: nat): Result<Header, Error> {
    var magic := Slice(data, o, o + 4);
    if magic == MAGIC_GGUF then Failure(AlreadyGguf)
    else if magic == MAGIC_GGML then Success(Header(Ggml, 1, 4))
    else
      match U32(data, o + 4)
      case None => Failure(BadStruct)
      case Some(version) =>
        if magic == MAGIC_GGMF then
          if version != 1 then Failure(BadVersion) else Success(Header(Ggmf, version, 8))
        else if magic == MAGIC_GGJT then
          if version < 1 || version > 3 then Failure(BadVersion) else Success(Header(Ggjt, version, 8))
        else Failure(BadMagic)
  }

  // ----- hyperparameters -----

  datatype Hyper = Hyper(nVocab: nat, nEmbd: nat, nMult: nat, nHead: nat, nLayer: nat, nRot: nat, ftype: nat)

  predicate KnownFtype(f: nat) { f <= 4 || 7 <= f <= 18 }

  function HyperAt(data: seq<Byte>, o: nat): Result<Hyper, Error> {
    match U32s(data, o, 7)
    case None => Failure(BadStruct)
    case Some(h) =>
      if KnownFtype(h[6]) then Success(Hyper(h[0], h[1], h[2], h[3], h[4], h[5], h[6])) else Failure(BadFtype)
  }

  /** Which files can be converted: the quantizations changed with versions 2 and 3 of GGJT. */
  predicate Convertible(format: Format, version: nat, ftype: nat) {
    if format != Ggjt || version < 2 then ftype == 0 || ftype == 1
    else version == 2 ==> ftype !in {2, 3, 4, 7}
  }

  // ----- vocabulary -----

  /** The score is kept as its four bytes; without scores every item gets 0.0. */
  datatype Item = Item(text: seq<Byte>, score: Option<seq<Byte>>)

  datatype Read<+T> = Read(value: T, next: nat)

  function ItemAt(data: seq<Byte>, o: nat, scores: bool): (r: Result<Read<Item>, Error>)
    ensures r.Success? ==> r.value.next >= o + 4
  {
    match U32(data, o)
    case None => Failure(BadStruct)
    case Some(n) =>
      if n >= 4096 then Failure(AbsurdItemLength)
      else
        var text := Slice(data, o + 4, o + 4 + n);
        if !scores then Success(Read(Item(text, None), o + 4 + n))
        else if o + 4 + n + 4 > |data| then Failure(BadStruct)
        else Success(Read(Item(text, Some(data[o + 4 + n..o + 4 + n + 4])), o + 4 + n + 4))
  }

  /** What a list read so far and the reading of the rest make together. */
  function Prepend<T>(done: seq<T>, rest: Result<Read<seq<T>>, Error>): Result<Read<seq<T>>, Error> {
    match rest
    case Failure(e) => Failure(e)
    case Success(read) => Success(Read(done + read.value, read.next))
  }

  function ItemsAt(data: seq<Byte>, o: nat, n: nat, scores: bool): (r: Result<Read<seq<Item>>, Error>)
    ensures r.Success? ==> |r.value.value| == n && r.value.next >= o
    decreases n, 1
  {
    if n == 0 then Success(Read([], o)) else ItemThenRest(data, o, n, scores)
  }

  function ItemThenRest(data: seq<Byte>, o: nat, n: nat, scores: bool): (r: Result<Read<seq<Item>>, Error>)
    requires n > 0
    ensures r.Success? ==> |r.value.value| == n && r.value.next >= o
    decreases n, 0
  {
    var first := ItemAt(data, o, scores);
    if first.Failure? then Failure(first.error)
    else Prepend([first.value.value], ItemsAt(data, first.value.next, n - 1, scores))
  }

  // ----- tensors -----

  /** How many bytes a block of elements takes, per type; the table is a parameter. */
  datatype Quant = Quant(block: nat, size: nat)

  type Quants = map<nat, Quant>

  datatype Tensor = Tensor(name: seq<Byte>, dims: seq<nat>, dtype: nat, start: nat, len: nat)

  datatype TensorHead = TensorHead(nDims: nat, nameLen: nat, dtype: nat)

  function TensorHeadAt(data: seq<Byte>, o: nat, quants: Quants): (r: Result<TensorHead, Error>)
    ensures r.Success? ==> r.value.nDims <= 4 && r.value.nameLen < 4096 && r.value.dtype in quants && o + 12 <= |data|
  {
    match U32s(data, o, 3)
    case None => Failure(BadStruct)
    case Some(h) =>
      if h[0] > 4 then Failure(BadDimensions)
      else if h[1] >= 4096 then Failure(AbsurdNameLength)
      else if h[2] !in quants then Failure(UnknownType)
      else Success(TensorHead(h[0], h[1], h[2]))
  }

  const INT64_LIMIT := 0x8000_0000_0000_0000

  /** A number as `int64` arithmetic keeps it. */
  function Wrapped(x: int): (w: int)
    ensures -INT64_LIMIT <= w < INT64_LIMIT && (-INT64_LIMIT <= x < INT64_LIMIT ==> w == x)
  {
    (x + INT64_LIMIT) % (2 * INT64_LIMIT) - INT64_LIMIT
  }

  /** The bytes of all elements, in `int64` arithmetic, when that is not negative. */
  function ByteSize(dims: seq<nat>, q: Quant): Option<nat> {
    var bytes := Wrapped(Elements(dims) * q.size);
    if bytes < 0 then None else Some(if q.block == 0 then 0 else bytes / q.block)
  }

  /** The product of the dimensions, which wraps around at every factor. */
  function Elements(dims: seq<nat>): int {
    if dims == [] then 1 else Wrapped(Elements(dims[..|dims| - 1]) * dims[|dims| - 1])
  }

  function Product(dims: seq<nat>): nat {
    if dims == [] then 1 else Product(dims[..|dims| - 1]) * dims[|dims| - 1]
  }

  lemma WrapsOften(x: int, j: int)
    ensures Wrapped(x + j * (2 * INT64_LIMIT)) == Wrapped(x)
  {
  }

  /** Wrapping a factor first changes nothing. */
  lemma WrappedTimes(a: int, b: int)
    ensures Wrapped(Wrapped(a) * b) == Wrapped(a * b)
  {
    var j := (a + INT64_LIMIT) / (2 * INT64_LIMIT);
    assert Wrapped(a) == a - j * (2 * INT64_LIMIT);
    assert Wrapped(a) * b == a * b + (-j * b) * (2 * INT64_LIMIT);
    WrapsOften(a * b, -j * b);
  }

  lemma {:induction false} ElementsWrap(dims: seq<nat>)
    ensures Elements(dims) == Wrapped(Product(dims))
    decreases |dims|
  {
    if dims != [] {
      ElementsWrap(dims[..|dims| - 1]);
      WrappedTimes(Product(dims[..|dims| - 1]), dims[|dims| - 1]);
    }
  }

  /** A size that fits `int64` is the true one. */
  lemma TrueSize(dims: seq<nat>, q: Quant)
    requires q.block > 0 && Product(dims) * q.size < INT64_LIMIT
    ensures ByteSize(dims, q) == Some(Product(dims) * q.size / q.block)
  {
    ElementsWrap(dims);
    WrappedTimes(Product(dims), q.size);
  }

  /** Up to the next multiple of 32. */
  function Padding(o: nat): nat {
    if o == 0 then 0 else if o < 32 then 32 - o else Padding(o - 32)
  }

  lemma {:induction false} PaddingAligns(o: nat)
    ensures Padding(o) < 32 && (o + Padding(o)) % 32 == 0
  {
    if o >= 32 { PaddingAligns(o - 32); }
  }

  function TensorAt(data: seq<Byte>, o: nat, padded: bool, quants: Quants): (r: Result<Read<Tensor>, Error>)
    ensures r.Success? ==> o + 12 <= r.value.value.start && r.value.next == r.value.value.start + r.value.value.len
  {
    match TensorHeadAt(data, o, quants)
    case Failure(e) => Failure(e)
    case Success(head) => TensorBodyAt(data, o + 12, head, padded, quants)
  }

  function TensorBodyAt(data: seq<Byte>, o: nat, head: TensorHead, padded: bool, quants: Quants)
    : (r: Result<Read<Tensor>, Error>)
    requires head.dtype in quants
    ensures r.Success? ==> o <= r.value.value.start && r.value.next == r.value.value.start + r.value.value.len
  {
    match U32s(data, o, head.nDims)
    case None => Failure(BadStruct)
    case Some(dims) =>
      var named := o + 4 * head.nDims;
      var name := Slice(data, named, named + head.nameLen);
      var o' := named + head.nameLen;
      var start := o' + (if padded then Padding(o') else 0);
      match ByteSize(dims, quants[head.dtype])
      case None => Failure(NegativeSize)
      case Some(len) => Success(Read(Tensor(name, dims, head.dtype, start, len), start + len))
  }

  lemma TensorAligned(data: seq<Byte>, o: nat, head: TensorHead, quants: Quants)
    requires head.dtype in quants
    ensures var r := TensorBodyAt(data, o, head, true, quants); r.Success? ==> r.value.value.start % 32 == 0
  {
    PaddingAligns(o + 4 * head.nDims + head.nameLen);
  }

  function TensorsAt(data: seq<Byte>, o: nat, padded: bool, quants: Quants): Result<Read<seq<Tensor>>, Error>
    decreases |data| - o, 1
  {
    if o >= |data| then Success(Read([], o)) else TensorThenRest(data, o, padded, quants)
  }

  function TensorThenRest(data: seq<Byte>, o: nat, padded: bool, quants: Quants): Result<Read<seq<Tensor>>, Error>
    requires o < |data|
    decreases |data| - o, 0
  {
    var first := TensorAt(data, o, padded, quants);
    if first.Failure? then Failure(first.error)
    else Prepend([first.value.value], TensorsAt(data, first.value.next, padded, quants))
  }

  type TensorMap = map<seq<Byte>, nat>

  /** Each name's index; a name used twice keeps the last. */
  function MapOf(tensors: seq<Tensor>): TensorMap {
    if tensors == [] then map[]
    else MapOf(tensors[..|tensors| - 1])[tensors[|tensors| - 1].name := |tensors| - 1]
  }

  lemma {:induction false} MapIsLast(tensors: seq<Tensor>, name: seq<Byte>)
    ensures name in MapOf(tensors) <==> exists k :: 0 <= k < |tensors| && tensors[k].name == name
    ensures name in MapOf(tensors) ==>
              var k := MapOf(tensors)[name];
              k < |tensors| && tensors[k].name == name && forall j :: k < j < |tensors| ==> tensors[j].name != name
  {
    if tensors != [] {
      var n := |tensors| - 1;
      MapIsLast(tensors[..n], name);
      assert forall j :: 0 <= j < n ==> tensors[..n][j] == tensors[j];
      if name in MapOf(tensors[..n]) { assert tensors[MapOf(tensors[..n])[name]].name == name; }
    }
  }

  // ----- the whole file -----

  /** The name `layers.0.feed_forward.w1.weight`, in bytes. */
  const FEED_FORWARD: seq<Byte> :=
    [108, 97, 121, 101, 114, 115, 46, 48, 46, 102, 101, 101, 100, 95, 102, 111, 114, 119, 97, 114, 100, 46,
     119, 49, 46, 119, 101, 105, 103, 104, 116]

  function FeedForwardSize(tensors: seq<Tensor>): Result<nat, Error> {
    MapIsLast(tensors, FEED_FORWARD);
    if FEED_FORWARD !in MapOf(tensors) then Failure(NoFeedForward)
    else
      var dims := tensors[MapOf(tensors)[FEED_FORWARD]].dims;
      if |dims| < 2 then Failure(BadFeedForward) else Success(dims[1])
  }

  datatype Loaded = Loaded(format: Format, version: nat, hyper: Hyper, nFf: nat, items: seq<Item>,
                           tensors: seq<Tensor>, next: nat)

  function Load(data: seq<Byte>, o: nat, quants: Quants): Result<Loaded, Error> {
    match HeaderAt(data, o)
    case Failure(e) => Failure(e)
    case Success(header) =>
      match HyperAt(data, o + header.size)
      case Failure(e) => Failure(e)
      case Success(hyper) =>
        if !Convertible(header.format, header.version, hyper.ftype) then Failure(NotConvertible)
        else LoadRest(data, o + header.size + 28, header, hyper, quants)
  }

  function LoadRest(data: seq<Byte>, o: nat, header: Header, hyper: Hyper, quants: Quants): Result<Loaded, Error> {
    match ItemsAt(data, o, hyper.nVocab, header.format != Ggml)
    case Failure(e) => Failure(e)
    case Success(items) =>
      match TensorsAt(data, items.next, header.format == Ggjt, quants)
      case Failure(e) => Failure(e)
      case Success(tensors) =>
        Finish(header, hyper, items.value, tensors)
  }

  function Finish(header: Header, hyper: Hyper, items: seq<Item>, tensors: Read<seq<Tensor>>): Result<Loaded, Error> {
    match FeedForwardSize(tensors.value)
    case Failure(e) => Failure(e)
    case Success(nFf) =>
      Success(Loaded(header.format, header.version, hyper, nFf, items, tensors.value, tensors.next))
  }
}
