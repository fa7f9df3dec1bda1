/**
 The reader classes of convert_llama_ggml_to_gguf.py. Each `load` fills in its object's fields and
 returns how many bytes it used; a failure stands for the exception the original raises.
 */
module GgmlReader {
  import opened Wrappers
  import opened GgmlFormat

  class Hyperparameters {
    var nVocab: nat
    var nEmbd: nat
    var nMult: nat
    var nHead: nat
    var nLayer: nat
    var nRot: nat
    var nFf: nat
    var ftype: nat

    constructor () {
      nVocab, nEmbd, nMult, nHead, nLayer, nRot, nFf, ftype := 0, 0, 0, 0, 0, 0, 0, 0;
    }

    function View(): Hyper reads this { Hyper(nVocab, nEmbd, nMult, nHead, nLayer, nRot, ftype) }

    method Load(data: seq<Byte>, offset: nat) returns (r: Result<nat, Error>)
      modifies this
      ensures match HyperAt(data, offset)
              case Failure(e) => r == Failure(e)
              case Success(hyper) => r == Success(4 * 7) && View() == hyper
    {
      var fields := U32s(data, offset, 7);
      if fields == None { return Failure(BadStruct); }
      var h := fields.value;
      nVocab, nEmbd, nMult, nHead, nLayer, nRot := h[0], h[1], h[2], h[3], h[4], h[5];
      if !KnownFtype(h[6]) { return Failure(BadFtype); }
      ftype := h[6];
      r := Success(4 * 7);
    }

    method SetNFf(model: GgmlModel) returns (r: Result<(), Error>)
      requires model.Indexed()
      modifies this
      ensures View() == old(View())
      ensures FEED_FORWARD !in model.tensorMap ==> r == Failure(NoFeedForward)
      ensures FEED_FORWARD in model.tensorMap ==>
                var dims := model.tensors[model.tensorMap[FEED_FORWARD]].dims;
                if |dims| < 2 then r == Failure(BadFeedForward) else r == Success(()) && nFf == dims[1]
    {
      if FEED_FORWARD !in model.tensorMap { return Failure(NoFeedForward); }
      var tensor := model.tensors[model.tensorMap[FEED_FORWARD]];
      if |tensor.dims| < 2 { return Failure(BadFeedForward); }
      nFf := tensor.dims[1];
      r := Success(());
    }
  }

  class Vocab {
    var items: seq<Item>
    const loadScores: bool

    constructor (loadScores: bool)
      ensures this.loadScores == loadScores && items == []
    {
      this.loadScores := loadScores;
      items := [];
    }

    method Load(data: seq<Byte>, offset: nat, nVocab: nat) returns (r: Result<nat, Error>)
      modifies this
      ensures match ItemsAt(data, offset, nVocab, loadScores)
              case Failure(e) => r == Failure(e)
              case Success(read) => r == Success(read.next - offset) && items == old(items) + read.value
    {
      ghost var all := ItemsAt(data, offset, nVocab, loadScores);
      ghost var rest := all;
      PrependNothing(all);
      var o, read := offset, [];
      for k := 0 to nVocab
        invariant o >= offset && items == old(items)
        invariant rest == ItemsAt(data, o, nVocab - k, loadScores)
        invariant all == Prepend(read, rest)
      {
        var item;
        item, rest := NextItem(data, o, nVocab - k, loadScores, rest);
        if item.Failure? { return Failure(item.error); }
        PrependAgain(read, [item.value.value], rest);
        read := read + [item.value.value];
        o := item.value.next;
      }
      assert rest == Success(Read([], o));
      PrependEnd(read, o);
      items := items + read;
      r := Success(o - offset);
    }
  }

  method NextItem(data: seq<Byte>, o: nat, n: nat, scores: bool, ghost rest: Result<Read<seq<Item>>, Error>)
    returns (item: Result<Read<Item>, Error>, ghost rest': Result<Read<seq<Item>>, Error>)
    requires n > 0 && rest == ItemsAt(data, o, n, scores)
    ensures item.Failure? ==> rest == Failure(item.error)
    ensures item.Success? ==> item.value.next >= o && rest' == ItemsAt(data, item.value.next, n - 1, scores)
                              && rest == Prepend([item.value.value], rest')
  {
    ItemsStep(data, o, n, scores);
    item := ItemAt(data, o, scores);
    rest' := if item.Success? then ItemsAt(data, item.value.next, n - 1, scores) else rest;
  }

  lemma PrependAgain<T>(a: seq<T>, b: seq<T>, rest: Result<Read<seq<T>>, Error>)
    ensures Prepend(a, Prepend(b, rest)) == Prepend(a + b, rest)
  {
    if rest.Success? { assert a + (b + rest.value.value) == a + b + rest.value.value; }
  }

  lemma PrependNothing<T>(rest: Result<Read<seq<T>>, Error>)
    ensures Prepend([], rest) == rest
  {
    if rest.Success? { assert [] + rest.value.value == rest.value.value; }
  }

  lemma PrependEnd<T>(read: seq<T>, o: nat)
    ensures Prepend(read, Success(Read([], o))) == Success(Read(read, o))
  {
    assert read + [] == read;
  }

  lemma ItemsStep(data: seq<Byte>, o: nat, n: nat, scores: bool)
    requires n > 0
    ensures ItemsAt(data, o, n, scores)
            == match ItemAt(data, o, scores)
               case Failure(e) => Failure(e)
               case Success(first) => Prepend([first.value], ItemsAt(data, first.next, n - 1, scores))
  {
  }

  lemma TensorsStep(data: seq<Byte>, o: nat, padded: bool, quants: Quants)
    requires o < |data|
    ensures TensorsAt(data, o, padded, quants)
            == match TensorAt(data, o, padded, quants)
               case Failure(e) => Failure(e)
               case Success(first) => Prepend([first.value], TensorsAt(data, first.next, padded, quants))
  {
  }

  class TensorObject {
    var name: seq<Byte>
    var dims: seq<nat>
    var dtype: nat
    var startOffset: nat
    var lenBytes: nat
    const usePadding: bool

    constructor (usePadding: bool)
      ensures this.usePadding == usePadding
    {
      name, dims, dtype, startOffset, lenBytes := [], [], 0, 0, 0;
      this.usePadding := usePadding;
    }

    function View(): Tensor reads this { Tensor(name, dims, dtype, startOffset, lenBytes) }

    method Load(data: seq<Byte>, offset: nat, quants: Quants) returns (r: Result<nat, Error>)
      modifies this
      ensures match TensorAt(data, offset, usePadding, quants)
              case Failure(e) => r == Failure(e)
              case Success(read) => r == Success(read.next - offset) && View() == read.value
    {
      var head := ReadHead(data, offset, quants);
      if head.Failure? { return Failure(head.error); }
      dtype := head.value.dtype;
      r := LoadBody(data, offset + 12, head.value, quants);
      if r.Success? { r := Success(r.value + 12); }
    }

    /** Everything after the first twelve bytes. */
    method LoadBody(data: seq<Byte>, offset: nat, head: TensorHead, quants: Quants) returns (r: Result<nat, Error>)
      requires head.dtype in quants && dtype == head.dtype
      modifies this
      ensures match TensorBodyAt(data, offset, head, usePadding, quants)
              case Failure(e) => r == Failure(e)
              case Success(read) => r == Success(read.next - offset) && View() == read.value
    {
      var o := offset;
      var shape := U32s(data, o, head.nDims);
      if shape == None { return Failure(BadStruct); }
      o := o + 4 * head.nDims;
      var text := Slice(data, o, o + head.nameLen);
      o := o + head.nameLen;
      var pad := if usePadding then Padding(o) else 0;
      o := o + pad;
      var size := ByteSize(shape.value, quants[head.dtype]);
      if size == None { return Failure(NegativeSize); }
      dims, name, startOffset, lenBytes := shape.value, text, o, size.value;
      o := o + size.value;
      r := Success(o - offset);
    }
  }

  method ReadHead(data: seq<Byte>, offset: nat, quants: Quants) returns (head: Result<TensorHead, Error>)
    ensures head == TensorHeadAt(data, offset, quants)
  {
    var fields := U32s(data, offset, 3);
    if fields == None { return Failure(BadStruct); }
    var nDims, nameLen, dtype := fields.value[0], fields.value[1], fields.value[2];
    if nDims > 4 { return Failure(BadDimensions); }
    if nameLen >= 4096 { return Failure(AbsurdNameLength); }
    if dtype !in quants { return Failure(UnknownType); }
    head := Success(TensorHead(nDims, nameLen, dtype));
  }

  class GgmlModel {
    var fileFormat: Format
    var formatVersion: nat
    var hyperparameters: Hyperparameters?
    var vocab: Vocab?
    var tensors: seq<TensorObject>
    var tensorMap: TensorMap

    constructor ()
      ensures Indexed()
    {
      fileFormat, formatVersion, hyperparameters, vocab := Ggml, 0, null, null;
      tensors, tensorMap := [], map[];
    }

    /** The map leads to existing tensors only. */
    predicate Indexed() reads this { forall n :: n in tensorMap ==> tensorMap[n] < |tensors| }

    ghost predicate Holds(l: Loaded)
      reads this, hyperparameters, vocab, tensors
    {
      && fileFormat == l.format && formatVersion == l.version
      && hyperparameters != null && hyperparameters.View() == l.hyper && hyperparameters.nFf == l.nFf
      && vocab != null && vocab.items == l.items
      && HoldsTensors(tensors, l.tensors) && tensorMap == MapOf(l.tensors)
    }

    method ValidateHeader(data: seq<Byte>, offset: nat) returns (r: Result<nat, Error>)
      modifies this
      ensures tensors == old(tensors) && tensorMap == old(tensorMap)
      ensures match HeaderAt(data, offset)
              case Failure(e) => r == Failure(e)
              case Success(h) => r == Success(h.size) && fileFormat == h.format && formatVersion == h.version
    {
      var magic := Slice(data, offset, offset + 4);
      if magic == MAGIC_GGUF { return Failure(AlreadyGguf); }
      if magic == MAGIC_GGML {
        fileFormat, formatVersion := Ggml, 1;
        return Success(4);
      }
      var version := U32(data, offset + 4);
      if version == None { return Failure(BadStruct); }
      if magic == MAGIC_GGMF {
        if version.value != 1 { return Failure(BadVersion); }
        fileFormat, formatVersion := Ggmf, version.value;
        return Success(8);
      }
      if magic == MAGIC_GGJT {
        if version.value < 1 || version.value > 3 { return Failure(BadVersion); }
        fileFormat, formatVersion := Ggjt, version.value;
        return Success(8);
      }
      r := Failure(BadMagic);
    }

    method ValidateConversion(ftype: nat) returns (ok: bool)
      ensures ok == Convertible(fileFormat, formatVersion, ftype)
    {
      ok := true;
      if fileFormat != Ggjt || formatVersion < 2 {
        if ftype !in {0, 1} { ok := false; }
      } else if fileFormat == Ggjt && formatVersion == 2 {
        if ftype in {2, 3, 4, 7} { ok := false; }
      }
    }

    method Load(data: seq<Byte>, offset: nat, quants: Quants) returns (r: Result<nat, Error>)
      requires Indexed()
      modifies this
      ensures match GgmlFormat.Load(data, offset, quants)
              case Failure(e) => r == Failure(e)
              case Success(l) => r == Success(l.next) && Holds(l)
    {
      var size := ValidateHeader(data, offset);
      if size.Failure? { return Failure(size.error); }
      ghost var header := HeaderAt(data, offset).value;
      var o := offset + size.value;
      var hp := new Hyperparameters();
      var used := hp.Load(data, o);
      LoadIs(data, offset, quants, header, HyperAt(data, o));
      if used.Failure? { return Failure(used.error); }
      o := o + used.value;
      var ok := ValidateConversion(hp.ftype);
      if !ok { return Failure(NotConvertible); }
      r := LoadBody(data, o, header, hp, quants);
    }

    /** Everything after the hyperparameters. */
    method LoadBody(data: seq<Byte>, offset: nat, ghost header: Header, hp: Hyperparameters, quants: Quants)
      returns (r: Result<nat, Error>)
      requires fileFormat == header.format && formatVersion == header.version
      modifies this, hp
      ensures match LoadRest(data, offset, header, old(hp.View()), quants)
              case Failure(e) => r == Failure(e)
              case Success(l) => r == Success(l.next) && Holds(l)
    {
      var vocab, loaded, index;
      ghost var infos;
      r, vocab, loaded, index, infos := ReadBody(data, offset, header, hp.View(), fileFormat, quants);
      if r.Success? { r := Install(header, hp, vocab, loaded, index, infos, r.value); }
    }

    method Install(ghost header: Header, hp: Hyperparameters, vocab: Vocab, loaded: seq<TensorObject>, index: TensorMap,
                   ghost infos: seq<Tensor>, next: nat)
      returns (r: Result<nat, Error>)
      requires fileFormat == header.format && formatVersion == header.version
      requires HoldsTensors(loaded, infos) && index == MapOf(infos)
      modifies this, hp
      ensures match Finish(header, old(hp.View()), old(vocab.items), Read(infos, next))
              case Failure(e) => r == Failure(e)
              case Success(l) => r == Success(l.next) && Holds(l)
    {
      this.hyperparameters := hp;
      this.vocab := vocab;
      this.tensors := loaded;
      this.tensorMap := index;
      MapIsLast(infos, FEED_FORWARD);
      MapInRange(infos);
      var found := hp.SetNFf(this);
      if found.Failure? { return Failure(found.error); }
      r := Success(next);
    }
  }

  /** The vocabulary and the tensors. */
  method ReadBody(data: seq<Byte>, offset: nat, ghost header: Header, hyper: Hyper, format: Format, quants: Quants)
    returns (r: Result<nat, Error>, vocab: Vocab, tensors: seq<TensorObject>, tensorMap: TensorMap,
             ghost infos: seq<Tensor>)
    requires format == header.format
    ensures fresh(vocab) && forall t :: t in tensors ==> fresh(t)
    ensures r.Failure? ==> LoadRest(data, offset, header, hyper, quants) == Failure(r.error)
    ensures r.Success? ==> LoadRest(data, offset, header, hyper, quants)
                           == Finish(header, hyper, vocab.items, Read(infos, r.value))
    ensures r.Success? ==> HoldsTensors(tensors, infos) && tensorMap == MapOf(infos)
  {
    ghost var items := ItemsAt(data, offset, hyper.nVocab, format != Ggml);
    vocab := new Vocab(format != Ggml);
    tensors, tensorMap, infos := [], map[], [];
    var used := vocab.Load(data, offset, hyper.nVocab);
    if used.Failure? {
      RestFails(data, offset, header, hyper, quants);
      return Failure(used.error), vocab, [], map[], [];
    }
    ghost var all := vocab.items;
    assert [] + items.value.value == items.value.value;
    r, tensors, tensorMap, infos := LoadTensors(data, offset + used.value, format == Ggjt, quants);
    RestIs(data, offset, header, hyper, quants, all, offset + used.value,
           match r { case Failure(e) => Failure(e) case Success(next) => Success(Read(infos, next)) });
  }

  lemma RestFails(data: seq<Byte>, o: nat, header: Header, hyper: Hyper, quants: Quants)
    ensures var items := ItemsAt(data, o, hyper.nVocab, header.format != Ggml);
            items.Failure? ==> LoadRest(data, o, header, hyper, quants) == Failure(items.error)
  {
  }

  lemma RestIs(data: seq<Byte>, o: nat, header: Header, hyper: Hyper, quants: Quants,
               items: seq<Item>, next: nat, tensors: Result<Read<seq<Tensor>>, Error>)
    requires ItemsAt(data, o, hyper.nVocab, header.format != Ggml) == Success(Read(items, next))
    requires TensorsAt(data, next, header.format == Ggjt, quants) == tensors
    ensures LoadRest(data, o, header, hyper, quants)
            == match tensors { case Failure(e) => Failure(e) case Success(read) => Finish(header, hyper, items, read) }
  {
  }

  lemma LoadIs(data: seq<Byte>, o: nat, quants: Quants, header: Header, hyper: Result<Hyper, Error>)
    requires HeaderAt(data, o) == Success(header) && HyperAt(data, o + header.size) == hyper
    ensures GgmlFormat.Load(data, o, quants)
            == match hyper
               case Failure(e) => Failure(e)
               case Success(h) =>
                 if !Convertible(header.format, header.version, h.ftype) then Failure(NotConvertible)
                 else LoadRest(data, o + header.size + 28, header, h, quants)
  {
  }

  lemma MapInRange(infos: seq<Tensor>)
    ensures forall n :: n in MapOf(infos) ==> MapOf(infos)[n] < |infos|
  {
    forall n | n in MapOf(infos) ensures MapOf(infos)[n] < |infos| { MapIsLast(infos, n); }
  }

  ghost predicate HoldsTensors(objects: seq<TensorObject>, infos: seq<Tensor>)
    reads objects
  {
    |objects| == |infos| && forall k :: 0 <= k < |objects| ==> objects[k].View() == infos[k]
  }

  /** The loop over the tensors, up to the end of the data. */
  method LoadTensors(data: seq<Byte>, offset: nat, usePadding: bool, quants: Quants)
    returns (r: Result<nat, Error>, tensors: seq<TensorObject>, tensorMap: TensorMap, ghost infos: seq<Tensor>)
    ensures forall t :: t in tensors ==> fresh(t)
    ensures TensorsAt(data, offset, usePadding, quants)
            == match r { case Failure(e) => Failure(e) case Success(next) => Success(Read(infos, next)) }
    ensures r.Success? ==> HoldsTensors(tensors, infos) && tensorMap == MapOf(infos)
  {
    var o := offset;
    tensors, tensorMap, infos := [], map[], [];
    ghost var rest := TensorsAt(data, o, usePadding, quants);
    PrependNothing(rest);
    while o < |data|
      invariant forall t :: t in tensors ==> fresh(t)
      invariant HoldsTensors(tensors, infos) && tensorMap == MapOf(infos)
      invariant rest == TensorsAt(data, o, usePadding, quants)
      invariant TensorsAt(data, offset, usePadding, quants) == Prepend(infos, rest)
      decreases |data| - o
    {
      var used, tensor, info, rest' := LoadOne(data, o, usePadding, quants);
      if used.Failure? { return Failure(used.error), [], map[], []; }
      PrependAgain(infos, [info], rest');
      MapGrows(infos, info);
      o := o + used.value;
      tensorMap := tensorMap[tensor.name := |tensors|];
      tensors := tensors + [tensor];
      infos := infos + [info];
      rest := rest';
    }
    assert infos + [] == infos;
    r := Success(o);
  }

  method LoadOne(data: seq<Byte>, o: nat, usePadding: bool, quants: Quants)
    returns (used: Result<nat, Error>, tensor: TensorObject, ghost info: Tensor,
             ghost rest: Result<Read<seq<Tensor>>, Error>)
    requires o < |data|
    ensures fresh(tensor) && info == tensor.View()
    ensures used.Failure? ==> TensorsAt(data, o, usePadding, quants) == Failure(used.error)
    ensures used.Success? ==> used.value > 0 && rest == TensorsAt(data, o + used.value, usePadding, quants)
                              && TensorsAt(data, o, usePadding, quants) == Prepend([info], rest)
  {
    TensorsStep(data, o, usePadding, quants);
    tensor := new TensorObject(usePadding);
    used := tensor.Load(data, o, quants);
    info := tensor.View();
    rest := if used.Success? then TensorsAt(data, o + used.value, usePadding, quants) else Failure(used.error);
  }

  lemma MapGrows(infos: seq<Tensor>, t: Tensor)
    ensures MapOf(infos + [t]) == MapOf(infos)[t.name := |infos|]
  {
    assert (infos + [t])[..|infos|] == infos;
  }
}
