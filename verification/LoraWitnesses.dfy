/** Concrete low-rank tensors for which an operation of `LoraTorchTensor` is accepted and goes wrong. */
module LoraWitnesses {
  import opened Wrappers
  import opened Tensors
  import opened Picks
  import opened PickMoves
  import opened LoraTensor
  import opened LoraIndexing
  import opened LoraTuples
  import opened LoraShapes
  import opened LoraCombine

  /** Factors that hold one value each. */
  function Flat(shapeA: seq<nat>, a: real, shapeB: seq<nat>, b: real): Lora {
    Lora(Constant(shapeA, a), Constant(shapeB, b))
  }

  const TWO_BATCHES := Flat([1, 1, 1], 1.0, [2, 1, 1], 1.0)
  const ONE_ON := Slice(Some(1), None, 1)
  const FIRST := Slice(Some(0), Some(1), 1)

  lemma SliceLengths()
    ensures Len(ONE_ON, 1) == 0 && Len(ONE_ON, 2) == 1 && Len(FIRST, 2) == 1 && Len(FIRST, 1) == 1
  {
  }

  /** Two batches that share A: `t[1:]` leaves nothing of A. */
  lemma BroadcastSlicedAway()
    ensures Valid(TWO_BATCHES) && GetFirst(TWO_BATCHES, ONE_ON).Success?
    ensures !Valid(GetFirst(TWO_BATCHES, ONE_ON).value)
  {
    SliceLengths();
    assert [ONE_ON] + Fulls(0) + [FULL, FULL] == [ONE_ON, FULL, FULL];
    assert PickFactors(TWO_BATCHES, [ONE_ON] + Fulls(0), [ONE_ON] + Fulls(0), FULL, FULL).Success? by {
      ThreeDims(ONE_ON, 1, FULL, 1, FULL, 1);
      ThreeDims(ONE_ON, 2, FULL, 1, FULL, 1);
      FullSlice(1);
    }
    GetFirstExactly(TWO_BATCHES, ONE_ON);
  }

  lemma ThreeDims(p: Pick, d: nat, q: Pick, e: nat, r: Pick, f: nat)
    requires p.Slice? && q.Slice? && r.Slice?
    ensures PickDims([p, q, r], [d, e, f]) == [Len(p, d), Len(q, e), Len(r, f)]
  {
    PickOneDim([], [], p, d);
    PickTwoDims([p], [d], q, e, r, f);
    assert [p] + [q, r] == [p, q, r] && [d] + [e, f] == [d, e, f];
    assert [] + [p] == [p] && [] + [d] == [d];
  }

  const OWN_BATCHES := Flat([2, 1, 1], 1.0, [2, 1, 1], 1.0)

  /** Two batches with their own A: `t[0:1, :]` slices only B. */
  lemma SharedAxisNotSliced()
    ensures Valid(OWN_BATCHES) && GetTuple(OWN_BATCHES, [FIRST]).Success?
    ensures !Valid(GetTuple(OWN_BATCHES, [FIRST]).value)
  {
    assert OWN_BATCHES.A.shape == [2, 1, 1] && OWN_BATCHES.B.shape == [2, 1, 1];
    FirstOfThree();
    OnlyBSliced(OWN_BATCHES);
    TupleExactly(OWN_BATCHES, [FIRST], FULL, FULL);
  }

  lemma FirstOfThree()
    ensures Padded([FIRST], 3) == [FIRST] + [FULL, FULL]
    ensures ([FIRST] + [FULL, FULL])[..1] == [FIRST] && [2, 1, 1][..1] == [2]
    ensures !TupleSlicesOk([FIRST], [2], [2])
  {
    SliceLengths();
    assert Len([FIRST][0], [2][0]) == 1;
  }

  lemma OnlyBSliced(l: Lora)
    requires l.A.shape == [2, 1, 1] && l.B.shape == [2, 1, 1] && Valid(l)
    ensures PickFactors(l, BatchPicksA([FIRST], [2]), [FIRST], FULL, FULL).Success?
  {
    SliceLengths();
    assert BatchPicksA([FIRST], [2]) + [FULL, FULL] == [FULL, FULL, FULL];
    assert [FIRST] + [FULL, FULL] == [FIRST, FULL, FULL];
    ThreeDims(FULL, 2, FULL, 1, FULL, 1);
    ThreeDims(FIRST, 2, FULL, 1, FULL, 1);
    FullSlice(1);
    FullSlice(2);
  }

  /** One-by-one matrices in `a` batches of A and `b` of B. */
  predicate Batches(l: Lora, a: nat, b: nat) { l.A.shape == [a, 1, 1] && l.B.shape == [b, 1, 1] }

  lemma BatchesMultiply(l: Lora, a: nat, b: nat)
    requires Batches(l, a, b)
    ensures Valid(l) <==> a == 1 || a == b
    ensures Valid(l) ==> Rank(l) == 1 && Shape(l) == [b, 1, 1]
  {
    assert [a, 1, 1][..1] == [a] && [b, 1, 1][..1] == [b];
    ValidFrom(l, [a], [b], 1, 1, 1);
    assert [a] + [1, 1] == [a, 1, 1] && [b] + [1, 1] == [b, 1, 1];
    assert [a][0] == a && [b][0] == b;
  }

  lemma TwoTotal(a: nat, b: nat)
    ensures Total([a, b]) == a + b
  {
    TotalCons(b, []);
    TotalCons(a, [b]);
    assert [a] + [b] == [a, b] && [b] + [] == [b];
  }

  lemma TwoShapes(ts: seq<Tensor>, a: nat, b: nat)
    requires |ts| == 2 && ts[0].shape == [a, 1, 1] && ts[1].shape == [b, 1, 1]
    ensures CanCat(ts) && Firsts(ts) == [a, b] && Cat(ts).shape == [a + b, 1, 1]
  {
    assert [a, 1, 1][1..] == [1, 1] && [b, 1, 1][1..] == [1, 1];
    assert CanCat(ts);
    assert Firsts(ts) == [a, b];
    TwoTotal(a, b);
    assert [a + b] + [1, 1] == [a + b, 1, 1];
  }

  lemma TwoParts(x: Lora, y: Lora, a: nat, b: nat, c: nat, d: nat)
    requires Batches(x, a, b) && Batches(y, c, d)
    ensures var ls := [x, y];
            && CanCat(As(ls)) && CanCat(Bs(ls)) && CatLoras(ls) == Success(Lora(Cat(As(ls)), Cat(Bs(ls))))
            && Firsts(As(ls)) == [a, c] && Firsts(Bs(ls)) == [b, d] && Batches(CatLoras(ls).value, a + c, b + d)
  {
    var ls := [x, y];
    TwoShapes(As(ls), a, c);
    TwoShapes(Bs(ls), b, d);
  }

  /** Two tensors of two batches that share A: the concatenation has two batches of A and four of B. */
  lemma BroadcastPartsDoNotConcatenate()
    ensures Valid(TWO_BATCHES) && CatLoras([TWO_BATCHES, TWO_BATCHES]).Success?
    ensures !Valid(CatLoras([TWO_BATCHES, TWO_BATCHES]).value)
  {
    BatchesMultiply(TWO_BATCHES, 1, 2);
    TwoParts(TWO_BATCHES, TWO_BATCHES, 1, 2, 1, 2);
    BatchesMultiply(CatLoras([TWO_BATCHES, TWO_BATCHES]).value, 2, 4);
  }

  const NO_BATCH := Flat([1, 1, 1], 1.0, [0, 1, 1], 1.0)
  const DOUBLE := Flat([1, 1, 1], 2.0, [2, 1, 1], 1.0)

  /** With a part without batches the sizes agree by accident, and the product is another one. */
  lemma AccidentalCatIsWrong()
    ensures var ls := [NO_BATCH, DOUBLE];
            && (forall i :: 0 <= i < |ls| ==> Valid(ls[i]))
            && CatLoras(ls).Success? && Valid(CatLoras(ls).value) && CanCat(Denses(ls))
            && !Same(Dense(CatLoras(ls).value), Cat(Denses(ls)))
  {
    var ls := [NO_BATCH, DOUBLE];
    BatchesMultiply(NO_BATCH, 1, 0);
    BatchesMultiply(DOUBLE, 1, 2);
    TwoParts(NO_BATCH, DOUBLE, 1, 0, 1, 2);
    BatchesMultiply(CatLoras(ls).value, 2, 2);
    JoinedFirst(As(ls), Bs(ls), CatLoras(ls).value);
    SeparateFirst(Denses(ls), DOUBLE);
    assert InBounds([0, 0, 0], [2, 1, 1]);
  }

  /** The first batch of the concatenated factors is read in A's first part. */
  lemma JoinedFirst(ts: seq<Tensor>, us: seq<Tensor>, l: Lora)
    requires CanCat(ts) && CanCat(us) && Firsts(ts) == [1, 1] && Firsts(us) == [0, 2] && l == Lora(Cat(ts), Cat(us))
    requires ts[0] == Constant([1, 1, 1], 1.0) && us[1] == Constant([2, 1, 1], 1.0)
    requires Valid(l) && Rank(l) == 1 && l.A.shape == [2, 1, 1]
    ensures Dense(l).at([0, 0, 0]) == 1.0
  {
    RankOne(l);
    FirstOfTwo(ts, 1, 1);
    FirstOfTwo(us, 0, 2);
  }

  /** Where the first element of a concatenation of two is read. */
  lemma FirstOfTwo(ts: seq<Tensor>, a: nat, b: nat)
    requires CanCat(ts) && Firsts(ts) == [a, b] && a + b > 0
    ensures Cat(ts).at([0, 0, 0]) == ts[if a > 0 then 0 else 1].at([0, 0, 0])
  {
    TwoTotal(a, b);
    assert [a, b][1..] == [b];
    assert PartOf([a, b], 0) == if a > 0 then 0 else 1 + PartOf([b], 0);
    assert PlaceIn([a, b], 0) == 0;
    CatAt(ts, 0, [0, 0]);
    assert [0] + [0, 0] == [0, 0, 0];
  }

  /** The first batch of the concatenated products is that of the second part. */
  lemma SeparateFirst(ts: seq<Tensor>, l: Lora)
    requires |ts| == 2 && ts[0].shape == [0, 1, 1] && ts[1].shape == [2, 1, 1] && l == DOUBLE
    requires Valid(l) && Rank(l) == 1 && ts[1] == Dense(l)
    ensures CanCat(ts) && Cat(ts).at([0, 0, 0]) == 2.0
  {
    TwoShapes(ts, 0, 2);
    FirstOfTwo(ts, 0, 2);
    RankOne(l);
  }

  lemma RankOne(l: Lora)
    requires Valid(l) && Rank(l) == 1 && |l.A.shape| == 3
    ensures Dense(l).at([0, 0, 0]) == l.B.at([0, 0, 0]) * l.A.at([0, 0, 0])
  {
    var ix := [0, 0, 0];
    assert RowIndex(ix, 0) == ix && ColIndex(l.A.shape, ix, 0) == ix;
    OneTerm(l, ix);
  }

  lemma OneTerm(l: Lora, ix: Index)
    requires Valid(l) && |ix| == |l.A.shape|
    ensures Sum(1, (k: nat) => Term(l, ix, k)) == Term(l, ix, 0)
  {
    assert Sum(1, (k: nat) => Term(l, ix, k)) == Sum(0, (k: nat) => Term(l, ix, k)) + Term(l, ix, 0);
  }

  const UNIT := Flat([1, 1, 1], 1.0, [1, 1, 1], 1.0)

  /** `t[:, 0, 0]` is accepted where the batch axis of A happens to have the size of the rank; one axis is too many. */
  lemma IntegersAccepted()
    ensures Valid(UNIT) && GetTuple(UNIT, [FULL, At(0), At(0)]).Success?
    ensures |GetTuple(UNIT, [FULL, At(0), At(0)]).value.A.shape| == 2
    ensures |PickDims([FULL, At(0), At(0)], Shape(UNIT))| == 1
  {
    var picks := [FULL, At(0), At(0)];
    IntegerDims(picks);
    assert Padded(picks, 3) == picks && picks[..1] == [FULL] && [1, 1, 1][..1] == [1];
    assert BatchPicksA([FULL], [1]) == [FULL];
    LastIntegers(UNIT, [FULL], At(0), At(0));
  }

  lemma IntegerDims(picks: seq<Pick>)
    requires picks == [FULL, At(0), At(0)]
    ensures picks == [FULL] + [At(0), At(0)] && PicksOk(picks, [1, 1, 1]) && Shape(UNIT) == [1, 1, 1]
    ensures PickDims([FULL], [1]) == [1] && |PickDims(picks, [1, 1, 1])| == 1
  {
    UnitDim();
    PickTwoDims([FULL], [1], At(0), 1, At(0), 1);
    UnitAxes();
  }

  lemma UnitAxes()
    ensures [FULL] + [At(0), At(0)] == [FULL, At(0), At(0)] && [1] + [1, 1] == [1, 1, 1]
  {
  }

  lemma UnitDim()
    ensures PickDims([FULL], [1]) == [1]
  {
    FullSlice(1);
    PickOneDim([], [], FULL, 1);
    assert [] + [FULL] == [FULL] && [] + [1] == [1];
  }

  const WIDE := Flat([1, 1, 3], 1.0, [1, 2, 1], 1.0)

  /** `t[..., 0:1]` on three axes is accepted and slices the second one instead of the third. */
  lemma EllipsisOnTheWrongAxis()
    ensures Valid(WIDE) && GetEntries(WIDE, [Dots, Of(FIRST)]).Success?
    ensures GetEntries(WIDE, [Dots, Of(FIRST)]).value.B.shape == [1, 1, 1]
    ensures GetEntries(WIDE, [Dots, Of(FIRST)]).value.A.shape == [1, 1, 3]
    ensures PickDims(Meant([], [FIRST], 3), Shape(WIDE)) == [1, 2, 1]
  {
    InnerEllipsis(WIDE, [], [FIRST]);
    assert Entries([]) + [Dots] + Entries([FIRST]) == [Dots, Of(FIRST)];
    assert AsGiven([], [FIRST]) == [FULL, FIRST];
    WidePicks();
    WideTuple();
  }

  lemma WidePicks()
    ensures Meant([], [FIRST], 3) == [FULL, FULL, FIRST] && Shape(WIDE) == [1, 2, 3]
    ensures PickDims([FULL, FULL, FIRST], [1, 2, 3]) == [1, 2, 1]
  {
    assert Meant([], [FIRST], 3) == [FULL, FULL, FIRST];
    ThreeDims(FULL, 1, FULL, 2, FIRST, 3);
    FullSlice(1);
    FullSlice(2);
  }

  lemma WideTuple()
    ensures var r := GetTuple(WIDE, [FULL, FIRST]);
            r.Success? && r.value.A.shape == [1, 1, 3] && r.value.B.shape == [1, 1, 1]
  {
    SliceLengths();
    var all := Padded([FULL, FIRST], 3);
    assert all == [FULL, FIRST, FULL] && all[..1] == [FULL] && [1, 1, 3][..1] == [1];
    assert BatchPicksA([FULL], [1]) + [FULL, FULL] == [FULL, FULL, FULL];
    assert [FULL] + [FIRST, FULL] == [FULL, FIRST, FULL];
    ThreeDims(FULL, 1, FULL, 1, FULL, 3);
    ThreeDims(FULL, 1, FIRST, 2, FULL, 1);
    FullSlice(1);
    FullSlice(3);
  }

  const FROM_START := Slice(Some(0), None, 1)

  /** `t[..., 0:]` is spread over the same wrong axes, harmlessly: its slice is another way to say the whole axis. */
  lemma EllipsisBeforeWholeSlice()
    ensures Valid(WIDE) && EllipsisOk(WIDE, [], [FROM_START])
    ensures Padded(AsGiven([], [FROM_START]), 3) != Meant([], [FROM_START], 3)
  {
    var given, meant := [FULL, FROM_START, FULL], [FULL, FULL, FROM_START];
    assert Padded(AsGiven([], [FROM_START]), 3) == given && Meant([], [FROM_START], 3) == meant;
    assert Shape(WIDE) == [1, 2, 3] && given[..1] == [FULL];
    SameWholeSlices(given, meant);
  }

  lemma SameWholeSlices(given: seq<Pick>, meant: seq<Pick>)
    requires given == [FULL, FROM_START, FULL] && meant == [FULL, FULL, FROM_START]
    ensures SamePicks(given, meant, [1, 2, 3])
  {
    WholeEitherWay(1);
    WholeEitherWay(2);
    WholeEitherWay(3);
    ThreeDims(FULL, 1, FROM_START, 2, FULL, 3);
    ThreeDims(FULL, 1, FULL, 2, FROM_START, 3);
    SameSlots(given, meant);
  }

  lemma WholeEitherWay(d: nat)
    ensures Len(FROM_START, d) == Len(FULL, d) == d && Start(FROM_START, d) == Start(FULL, d) == 0
  {
    FullSlice(d);
  }

  lemma SameSlots(ps: seq<Pick>, qs: seq<Pick>)
    requires |ps| == |qs| == 3 && forall i :: 0 <= i < 3 ==> ps[i].Slice? && qs[i].Slice?
    ensures forall i :: 0 <= i < 3 ==> Slot(ps, i) == Slot(qs, i)
  {
    assert Slot(ps, 0) == Slot(qs, 0) == 0 && Slot(ps, 1) == Slot(qs, 1) == 1;
    assert Slot(ps, 2) == Slot(qs, 2) == 2;
  }

  const NO_RANK := Flat([0, 3], 1.0, [2, 0], 1.0)

  /** At rank 0 a reshape of 2 by 3 to 5 by 3 is accepted. */
  lemma ReshapedToAnotherSize()
    ensures Valid(NO_RANK) && Prod(Shape(NO_RANK)) == 6 && Prod([5, 3]) == 15
    ensures var r := Reshape(NO_RANK, [5, 3]); r.Success? && Valid(r.value) && Shape(r.value) == [5, 3]
  {
    assert Shape(NO_RANK) == [2, 3];
    MatrixSize(5, 3);
    MatrixSize(2, 3);
    assert Expanded([2, 3], [5, 3]) == Success([5, 3]) by {
      assert Natural([5, 3]) by { assert [5, 3][1..] == [3] && [3][1..] == []; }
      assert Filled([5, 3], 0) == [5, 3];
    }
    NoRankReshapes(5);
    ReshapedShape(NO_RANK, [5, 3]);
  }

  lemma MatrixSize(m: nat, n: nat)
    ensures Prod([m, n]) == m * n
  {
    PairProd([], m, n);
    assert [] + [m, n] == [m, n];
  }

  lemma NoRankReshapes(m: nat)
    ensures ReshapeTo(NO_RANK, [m, 3]).Success?
  {
    MatrixSize(0, 3);
    MatrixSize(2, 0);
    MatrixSize(m, 0);
    assert Ones(0) + [0, 3] == [0, 3] && [m, 3][..1] + [0] == [m, 0];
  }
}
