/**
 What the reader makes of the legacy formats: it reads back every file that is laid out as the
 format says, and in every file that reads at all the tensors' byte ranges are ordered, disjoint
 and aligned.
 */
module GgmlRoundTrip {
  import opened Wrappers
  import opened GgmlFormat
  import opened GgmlReader
  import opened GgmlWriter

  /** The type of the tensor is known and its data has the size the dimensions call for. */
  predicate TensorOk(t: TensorFile, quants: Quants) {
    t.dtype in quants && ByteSize(t.dims, quants[t.dtype]) == Some(|t.data|)
  }

  predicate TensorsOk(ts: seq<TensorFile>, quants: Quants) { forall i :: 0 <= i < |ts| ==> TensorOk(ts[i], quants) }

  lemma LaidItemReads(data: seq<Byte>, o: nat, item: Item, scores: bool)
    requires ItemLaid(data, o, item, scores)
    ensures ItemAt(data, o, scores) == Success(Read(item, ItemEnd(item, o, scores)))
  {
  }

  lemma {:induction false} LaidItemsRead(data: seq<Byte>, o: nat, items: seq<Item>, scores: bool, end: nat)
    requires ItemsLaid(data, o, items, scores, end)
    ensures ItemsAt(data, o, |items|, scores) == Success(Read(items, end))
    decreases |items|
  {
    if items != [] {
      var next := ItemEnd(items[0], o, scores);
      LaidItemReads(data, o, items[0], scores);
      LaidItemsRead(data, next, items[1..], scores, end);
      ItemsJoin(data, o, items, scores, next, end);
    }
  }

  lemma ItemsJoin(data: seq<Byte>, o: nat, items: seq<Item>, scores: bool, next: nat, end: nat)
    requires items != [] && ItemAt(data, o, scores) == Success(Read(items[0], next))
    requires ItemsAt(data, next, |items| - 1, scores) == Success(Read(items[1..], end))
    ensures ItemsAt(data, o, |items|, scores) == Success(Read(items, end))
  {
    ItemsStep(data, o, |items|, scores);
    assert items == [items[0]] + items[1..];
  }

  /** The tensor as the reader describes it, with its data at `start`. */
  function Described(t: TensorFile, start: nat): Tensor { Tensor(t.name, t.dims, t.dtype, start, |t.data|) }

  lemma LaidHeadReads(data: seq<Byte>, o: nat, t: TensorFile, padded: bool, quants: Quants)
    requires TensorLaid(data, o, t, padded) && TensorOk(t, quants)
    ensures TensorHeadAt(data, o, quants) == Success(TensorHead(|t.dims|, |t.name|, t.dtype))
  {
  }

  lemma BodyIs(data: seq<Byte>, o: nat, t: TensorFile, start: nat, padded: bool, quants: Quants)
    requires TensorOk(t, quants) && start == BodyStart(t, o, padded)
    requires ShapeAt(data, o, t)
    ensures TensorBodyAt(data, o, TensorHead(|t.dims|, |t.name|, t.dtype), padded, quants)
            == Success(Read(Described(t, start), start + |t.data|))
  {
  }

  lemma TensorIs(data: seq<Byte>, o: nat, head: TensorHead, padded: bool, quants: Quants,
                 r: Result<Read<Tensor>, Error>)
    requires TensorHeadAt(data, o, quants) == Success(head) && head.dtype in quants
    requires TensorBodyAt(data, o + 12, head, padded, quants) == r
    ensures TensorAt(data, o, padded, quants) == r
  {
  }

  lemma LaidTensorReads(data: seq<Byte>, o: nat, t: TensorFile, start: nat, padded: bool, quants: Quants)
    requires TensorLaid(data, o, t, padded) && TensorOk(t, quants) && start == DataStart(t, o, padded)
    ensures TensorAt(data, o, padded, quants) == Success(Read(Described(t, start), start + |t.data|))
  {
    LaidHeadReads(data, o, t, padded, quants);
    BodyIs(data, o + 12, t, start, padded, quants);
    TensorIs(data, o, TensorHead(|t.dims|, |t.name|, t.dtype), padded, quants,
             Success(Read(Described(t, start), start + |t.data|)));
  }

  /** The reader's list describes the written tensors, and their data stands where it says. */
  predicate Matches(data: seq<Byte>, tensors: seq<Tensor>, files: seq<TensorFile>) {
    |tensors| == |files| && forall k :: 0 <= k < |files| ==> MatchesOne(data, tensors[k], files[k])
  }

  predicate MatchesOne(data: seq<Byte>, t: Tensor, f: TensorFile) {
    t == Described(f, t.start) && At(data, t.start, f.data)
  }

  predicate ReadsAs(data: seq<Byte>, r: Result<Read<seq<Tensor>>, Error>, ts: seq<TensorFile>) {
    r.Success? && Matches(data, r.value.value, ts) && r.value.next == |data|
  }

  lemma {:induction false} LaidTensorsRead(data: seq<Byte>, o: nat, ts: seq<TensorFile>, padded: bool, quants: Quants)
    requires TensorsLaid(data, o, ts, padded) && TensorsOk(ts, quants)
    ensures ReadsAs(data, TensorsAt(data, o, padded, quants), ts)
    decreases |ts|
  {
    if ts == [] {
      LaidNothingReads(data, o, padded, quants);
    } else {
      var t, next, rest := LaidFirstReads(data, o, ts, padded, quants);
      LaidTensorsRead(data, next, ts[1..], padded, quants);
      PrependMatches(data, t, rest, TensorsAt(data, o, padded, quants), ts);
    }
  }

  lemma LaidNothingReads(data: seq<Byte>, o: nat, padded: bool, quants: Quants)
    requires o == |data|
    ensures ReadsAs(data, TensorsAt(data, o, padded, quants), [])
  {
  }

  lemma LaidFirstReads(data: seq<Byte>, o: nat, ts: seq<TensorFile>, padded: bool, quants: Quants)
    returns (t: Tensor, next: nat, rest: Result<Read<seq<Tensor>>, Error>)
    requires TensorsLaid(data, o, ts, padded) && TensorsOk(ts, quants) && ts != []
    ensures MatchesOne(data, t, ts[0]) && TensorsOk(ts[1..], quants) && TensorsLaid(data, next, ts[1..], padded)
    ensures rest == TensorsAt(data, next, padded, quants) && TensorsAt(data, o, padded, quants) == Prepend([t], rest)
  {
    t := Described(ts[0], DataStart(ts[0], o, padded));
    next := t.start + t.len;
    rest := TensorsAt(data, next, padded, quants);
    assert TensorAndRestLaid(data, o, ts, padded);
    LaidTensorReads(data, o, ts[0], t.start, padded, quants);
    TensorThen(data, o, t, padded, quants);
  }

  /** Reading the first tensor, given that it reads. */
  lemma TensorThen(data: seq<Byte>, o: nat, t: Tensor, padded: bool, quants: Quants)
    requires o < |data| && TensorAt(data, o, padded, quants) == Success(Read(t, t.start + t.len))
    ensures TensorsAt(data, o, padded, quants) == Prepend([t], TensorsAt(data, t.start + t.len, padded, quants))
  {
    assert TensorsAt(data, o, padded, quants) == TensorThenRest(data, o, padded, quants);
  }

  lemma PrependMatches(data: seq<Byte>, t: Tensor, rest: Result<Read<seq<Tensor>>, Error>,
                       all: Result<Read<seq<Tensor>>, Error>, ts: seq<TensorFile>)
    requires ts != [] && MatchesOne(data, t, ts[0]) && all == Prepend([t], rest)
    requires ReadsAs(data, rest, ts[1..])
    ensures ReadsAs(data, all, ts)
  {
    MatchesJoin(data, t, rest.value.value, ts);
  }

  lemma MatchesJoin(data: seq<Byte>, t: Tensor, tensors: seq<Tensor>, ts: seq<TensorFile>)
    requires ts != [] && MatchesOne(data, t, ts[0]) && Matches(data, tensors, ts[1..])
    ensures Matches(data, [t] + tensors, ts)
  {
    forall k | 0 <= k < |ts| ensures MatchesOne(data, ([t] + tensors)[k], ts[k]) {
      if k > 0 { assert MatchesOne(data, tensors[k - 1], ts[1..][k - 1]); }
    }
  }

  /** The last written tensor with the feed-forward name, if it has two dimensions. */
  function FeedForwardOf(ts: seq<TensorFile>): Option<nat> {
    if ts == [] then None
    else
      var last := ts[|ts| - 1];
      if last.name == FEED_FORWARD then (if |last.dims| < 2 then None else Some(last.dims[1]))
      else FeedForwardOf(ts[..|ts| - 1])
  }

  lemma {:induction false} FeedForwardReads(data: seq<Byte>, tensors: seq<Tensor>, ts: seq<TensorFile>)
    requires Matches(data, tensors, ts)
    ensures FEED_FORWARD in MapOf(tensors) ==> MapOf(tensors)[FEED_FORWARD] < |tensors|
    ensures FeedForwardSize(tensors) == match FeedForwardOf(ts)
              case Some(n) => Success(n)
              case None => Failure(if FEED_FORWARD in MapOf(tensors) then BadFeedForward else NoFeedForward)
    decreases |ts|
  {
    MapIsLast(tensors, FEED_FORWARD);
    if ts != [] {
      var n := |ts| - 1;
      assert MatchesOne(data, tensors[n], ts[n]);
      assert Matches(data, tensors[..n], ts[..n]) by {
        forall k | 0 <= k < n ensures MatchesOne(data, tensors[..n][k], ts[..n][k]) {
          assert MatchesOne(data, tensors[k], ts[k]);
        }
      }
      FeedForwardReads(data, tensors[..n], ts[..n]);
    }
  }

  /** What loading a written file should give. */
  predicate Restores(r: Result<Loaded, Error>, data: seq<Byte>, f: File) {
    match FeedForwardOf(f.tensors)
    case None => r == Failure(NoFeedForward) || r == Failure(BadFeedForward)
    case Some(nFf) =>
      && r.Success?
      && r.value == Loaded(f.format, f.version, f.hyper, nFf, f.items, r.value.tensors, |data|)
      && Matches(data, r.value.tensors, f.tensors)
  }

  /** Every file laid out as its format says loads as itself: every field, every description, to the last byte. */
  lemma LaidFileLoads(data: seq<Byte>, f: File, o: nat, o': nat, quants: Quants)
    requires FileLaid(data, f, o, o') && TensorsOk(f.tensors, quants)
    ensures Restores(Load(data, 0, quants), data, f)
  {
    var h := LaidFrontReads(data, f, o, quants);
    LaidItemsRead(data, o, f.items, f.format != Ggml, o');
    LaidTensorsRead(data, o', f.tensors, f.format == Ggjt, quants);
    RestRestores(data, f, h, quants, o, o', TensorsAt(data, o', f.format == Ggjt, quants));
  }

  lemma HeaderIs(data: seq<Byte>, o: nat, format: Format, version: nat)
    requires if format == Ggjt then 1 <= version <= 3 else version == 1
    requires Slice(data, o, o + 4) == Magic(format) && (format != Ggml ==> U32(data, o + 4) == Some(version))
    ensures HeaderAt(data, o) == Success(Header(format, version, if format == Ggml then 4 else 8))
  {
    MagicsDiffer();
  }

  lemma MagicsDiffer()
    ensures MAGIC_GGUF != MAGIC_GGML && MAGIC_GGUF != MAGIC_GGMF && MAGIC_GGUF != MAGIC_GGJT
    ensures MAGIC_GGML != MAGIC_GGMF && MAGIC_GGML != MAGIC_GGJT && MAGIC_GGMF != MAGIC_GGJT
  {
    assert MAGIC_GGUF[0] == 71 && MAGIC_GGML[0] == 108 && MAGIC_GGMF[0] == 102 && MAGIC_GGJT[0] == 116;
  }

  lemma HyperIs(data: seq<Byte>, o: nat, h: Hyper)
    requires KnownFtype(h.ftype) && U32s(data, o, 7) == Some(HyperFields(h))
    ensures HyperAt(data, o) == Success(h)
  {
  }

  lemma LaidHeaderReads(data: seq<Byte>, f: File, o: nat) returns (h: Header)
    requires HeaderOk(f) && HeaderLaid(data, f, o)
    ensures HeaderAt(data, 0) == Success(h) && h == Header(f.format, f.version, o - 28)
  {
    h := Header(f.format, f.version, o - 28);
    AtSlice(data, 0, Magic(f.format));
    HeaderIs(data, 0, f.format, f.version);
  }

  lemma LaidFrontReads(data: seq<Byte>, f: File, o: nat, quants: Quants) returns (h: Header)
    requires HeaderOk(f) && HeaderLaid(data, f, o)
    ensures h.format == f.format && h.version == f.version
    ensures Load(data, 0, quants) == LoadRest(data, o, h, f.hyper, quants)
  {
    h := LaidHeaderReads(data, f, o);
    HyperIs(data, o - 28, f.hyper);
    EligibleLoads(data, h, f.hyper, quants);
  }

  lemma EligibleLoads(data: seq<Byte>, h: Header, hyper: Hyper, quants: Quants)
    requires HeaderAt(data, 0) == Success(h) && HyperAt(data, h.size) == Success(hyper)
    requires Convertible(h.format, h.version, hyper.ftype)
    ensures Load(data, 0, quants) == LoadRest(data, h.size + 28, h, hyper, quants)
  {
    LoadIs(data, 0, quants, h, Success(hyper));
  }

  /** Reading a written file gives the file back. */
  lemma ReadInvertsWrite(f: File, quants: Quants)
    requires FileOk(f) && TensorsOk(f.tensors, quants)
    ensures Restores(Load(Write(f), 0, quants), Write(f), f)
  {
    var o, o' := WrittenFileLaid(f);
    LaidFileLoads(Write(f), f, o, o', quants);
  }

  lemma RestRestores(data: seq<Byte>, f: File, h: Header, quants: Quants, o: nat, o': nat,
                     read: Result<Read<seq<Tensor>>, Error>)
    requires h.format == f.format && h.version == f.version
    requires ItemsAt(data, o, f.hyper.nVocab, h.format != Ggml) == Success(Read(f.items, o'))
    requires TensorsAt(data, o', h.format == Ggjt, quants) == read
    requires ReadsAs(data, read, f.tensors)
    ensures Restores(LoadRest(data, o, h, f.hyper, quants), data, f)
  {
    RestIs(data, o, h, f.hyper, quants, f.items, o', read);
    FinishRestores(data, f, h, read.value);
  }

  lemma FinishRestores(data: seq<Byte>, f: File, h: Header, read: Read<seq<Tensor>>)
    requires h.format == f.format && h.version == f.version
    requires Matches(data, read.value, f.tensors) && read.next == |data|
    ensures Restores(Finish(h, f.hyper, f.items, read), data, f)
  {
    FeedForwardReads(data, read.value, f.tensors);
  }

  // ----- every file that reads -----

  predicate Chained(data: seq<Byte>, o: nat, tensors: seq<Tensor>, end: nat, padded: bool)
    decreases |tensors|
  {
    if tensors == [] then o == end && o >= |data|
    else
      && o < |data| && o + 12 <= tensors[0].start && (padded ==> tensors[0].start % 32 == 0)
      && Chained(data, tensors[0].start + tensors[0].len, tensors[1..], end, padded)
  }

  lemma {:induction false} TensorsChained(data: seq<Byte>, o: nat, padded: bool, quants: Quants)
    ensures var r := TensorsAt(data, o, padded, quants);
            r.Success? ==> Chained(data, o, r.value.value, r.value.next, padded)
    decreases |data| - o
  {
    if o < |data| {
      var first := TensorAt(data, o, padded, quants);
      TensorsStep(data, o, padded, quants);
      if first.Success? {
        var t, rest := first.value.value, TensorsAt(data, first.value.next, padded, quants);
        StartAligned(data, o, padded, quants);
        TensorsChained(data, first.value.next, padded, quants);
        if rest.Success? { ChainedJoin(data, o, t, rest.value.value, rest.value.next, padded); }
      }
    }
  }

  lemma StartAligned(data: seq<Byte>, o: nat, padded: bool, quants: Quants)
    requires TensorAt(data, o, padded, quants).Success?
    ensures padded ==> TensorAt(data, o, padded, quants).value.value.start % 32 == 0
  {
    if padded { TensorAligned(data, o + 12, TensorHeadAt(data, o, quants).value, quants); }
  }

  lemma ChainedJoin(data: seq<Byte>, o: nat, t: Tensor, rest: seq<Tensor>, end: nat, padded: bool)
    requires o < |data| && o + 12 <= t.start && (padded ==> t.start % 32 == 0)
    requires Chained(data, t.start + t.len, rest, end, padded)
    ensures Chained(data, o, [t] + rest, end, padded)
  {
    assert ([t] + rest)[1..] == rest;
  }

  lemma {:induction false} ChainedOrdered(data: seq<Byte>, o: nat, tensors: seq<Tensor>, end: nat, padded: bool, k: nat)
    requires Chained(data, o, tensors, end, padded) && k < |tensors|
    ensures o + 12 <= tensors[k].start && (padded ==> tensors[k].start % 32 == 0)
    ensures tensors[k].start + tensors[k].len <= end
    ensures k == |tensors| - 1 ==> tensors[k].start + tensors[k].len == end >= |data|
    ensures forall j :: k < j < |tensors| ==> tensors[k].start + tensors[k].len + 12 <= tensors[j].start
    ensures k < |tensors| - 1 ==> tensors[k].start + tensors[k].len < |data|
    decreases k
  {
    var next := tensors[0].start + tensors[0].len;
    if k > 0 {
      ChainedOrdered(data, next, tensors[1..], end, padded, k - 1);
      assert forall j :: k < j < |tensors| ==> tensors[j] == tensors[1..][j - 1];
    } else {
      forall j | 0 < j < |tensors| ensures next + 12 <= tensors[j].start {
        ChainedStart(data, next, tensors[1..], end, padded, j - 1);
      }
      EndAfter(data, next, tensors[1..], end, padded);
    }
  }

  lemma {:induction false} ChainedStart(data: seq<Byte>, o: nat, tensors: seq<Tensor>, end: nat, padded: bool, k: nat)
    requires Chained(data, o, tensors, end, padded) && k < |tensors|
    ensures o + 12 <= tensors[k].start
    decreases k
  {
    if k > 0 { ChainedStart(data, tensors[0].start + tensors[0].len, tensors[1..], end, padded, k - 1); }
  }

  lemma {:induction false} EndAfter(data: seq<Byte>, o: nat, tensors: seq<Tensor>, end: nat, padded: bool)
    requires Chained(data, o, tensors, end, padded)
    ensures o <= end && end >= |data|
    decreases |tensors|
  {
    if tensors != [] { EndAfter(data, tensors[0].start + tensors[0].len, tensors[1..], end, padded); }
  }

  /**
   In every file that loads: the tensors' ranges are in order, at least a head apart, inside the
   data except perhaps for the end of the last one, and aligned to 32 bytes in the GGJT format.
   */
  lemma RangesOrdered(data: seq<Byte>, o: nat, quants: Quants, j: nat, k: nat)
    requires Load(data, o, quants).Success? && j < k < |Load(data, o, quants).value.tensors|
    ensures var l := Load(data, o, quants).value;
            && l.tensors[j].start + l.tensors[j].len + 12 <= l.tensors[k].start
            && l.tensors[k].start + l.tensors[k].len <= l.next
            && l.tensors[j].start + l.tensors[j].len < |data| <= l.next
            && (l.format == Ggjt ==> l.tensors[j].start % 32 == 0 && l.tensors[k].start % 32 == 0)
  {
    var l := Load(data, o, quants).value;
    var from := LoadChained(data, o, quants);
    ChainedOrdered(data, from, l.tensors, l.next, l.format == Ggjt, j);
    ChainedOrdered(data, from, l.tensors, l.next, l.format == Ggjt, k);
    EndAfter(data, from, l.tensors, l.next, l.format == Ggjt);
  }

  lemma LoadChained(data: seq<Byte>, o: nat, quants: Quants) returns (from: nat)
    requires Load(data, o, quants).Success?
    ensures var l := Load(data, o, quants).value;
            from >= o + 32 && Chained(data, from, l.tensors, l.next, l.format == Ggjt)
  {
    var header := HeaderAt(data, o).value;
    var hyper := HyperAt(data, o + header.size);
    LoadIs(data, o, quants, header, hyper);
    from := RestChained(data, o + header.size + 28, header, hyper.value, quants);
    HeaderSize(data, o);
  }

  lemma HeaderSize(data: seq<Byte>, o: nat)
    requires HeaderAt(data, o).Success?
    ensures HeaderAt(data, o).value.size >= 4
  {
  }

  lemma RestChained(data: seq<Byte>, o: nat, header: Header, hyper: Hyper, quants: Quants) returns (from: nat)
    requires LoadRest(data, o, header, hyper, quants).Success?
    ensures var l := LoadRest(data, o, header, hyper, quants).value;
            from >= o && l.format == header.format && Chained(data, from, l.tensors, l.next, header.format == Ggjt)
  {
    from := ItemsAt(data, o, hyper.nVocab, header.format != Ggml).value.next;
    TensorsChained(data, from, header.format == Ggjt, quants);
  }
}
