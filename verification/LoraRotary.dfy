/**
 The reordering of the rows of a query or key weight (conversion/llama.py, `LlamaModel.permute`): a reshape,
 a transpose and a reshape back. On a low-rank tensor it always succeeds when the rows divide into the heads'
 halves, and moves exactly the rows it should.
 */
module LoraRotary {
  import opened Wrappers
  import opened Division
  import opened Tensors
  import opened LoraTensor
  import opened LoraShapes
  import opened LoraAccepts

  /** `rows // h // 2` */
  function HalfRows(rows: nat, h: nat): nat { Quotient(Quotient(rows, h), 2) }

  predicate Matrix(l: Lora) { Valid(l) && |l.A.shape| == 2 }

  /** `weights.reshape(h, 2, rows // h // 2, columns).swapaxes(1, 2).reshape(weights.shape)` */
  function UndoRotary(l: Lora, h: nat): Result<Lora, LoraError>
    requires Matrix(l) && h > 0
  {
    var rows, columns := Shape(l)[0], Shape(l)[1];
    match Reshape(l, [h, 2, HalfRows(rows, h), columns])
    case Failure(e) => Failure(e)
    case Success(apart) =>
      if !Valid(apart) then Failure(TorchError)
      else
        match Transpose(apart, 1, 2)
        case Failure(e) => Failure(e)
        case Success(swapped) =>
          if !Valid(swapped) then Failure(TorchError) else Reshape(swapped, [rows, columns])
  }

  // ----- row-major positions -----

  lemma FlattenTwo(x: nat, y: nat, d: nat, e: nat)
    ensures Flatten([x, y], [d, e]) == x * e + y
  {
    assert [x, y][..1] == [x] && [d, e][..1] == [d] && [x][..0] == [] && [d][..0] == [];
    assert Flatten([x], [d]) == FlattenOn([], [], x, d) == Flatten([], []) * d + x == x;
    assert Flatten([x, y], [d, e]) == FlattenOn([x], [d], y, e);
  }

  lemma FlattenThree(i: nat, j: nat, k: nat, a: nat, b: nat, c: nat)
    ensures Flatten([i, j, k], [a, b, c]) == (i * b + j) * c + k
  {
    assert [i, j, k][..2] == [i, j] && [a, b, c][..2] == [a, b];
    FlattenTwo(i, j, a, b);
    assert Flatten([i, j, k], [a, b, c]) == FlattenOn([i, j], [a, b], k, c);
  }

  lemma UnflattenOne(x: nat, d: nat)
    requires x < d
    ensures Unflatten(x, [d]) == [x]
  {
    assert [d][..0] == [] && Unflatten(DivOr0(x, d), []) == [];
    assert Unflatten(x, [d]) == UnflattenOn(x, [], d);
    DivModOf(0, d, x);
  }

  /** Of three leading axes made of one: the element at `[i, j, k, c]` is the one in row `(i * b + j) * m + k`. */
  lemma SplitRow(i: nat, j: nat, k: nat, c: nat, a: nat, b: nat, m: nat, d: nat, rows: nat)
    requires (i * b + j) * m + k < rows && c < d
    ensures ReshapeGather([rows, d], [a, b, m, d]).source([i, j, k, c]) == [(i * b + j) * m + k, c]
  {
    assert [i, j, k, c] == [i, j, k] + [c] && [a, b, m, d] == [a, b, m] + [d] && [rows, d] == [rows] + [d];
    UnflattenSnoc([i, j, k], c, [a, b, m], d, [rows]);
    FlattenThree(i, j, k, a, b, m);
    UnflattenOne((i * b + j) * m + k, rows);
    assert [(i * b + j) * m + k] + [c] == [(i * b + j) * m + k, c];
  }

  /** And back. */
  lemma JoinRow(i: nat, j: nat, k: nat, c: nat, a: nat, b: nat, m: nat, d: nat, rows: nat)
    requires i < a && j < b && k < m && c < d
    ensures ReshapeGather([a, b, m, d], [rows, d]).source([(i * b + j) * m + k, c]) == [i, j, k, c]
  {
    var row := (i * b + j) * m + k;
    assert [row, c] == [row] + [c] && [a, b, m, d] == [a, b, m] + [d] && [rows, d] == [rows] + [d];
    UnflattenSnoc([row], c, [rows], d, [a, b, m]);
    assert [row][..0] == [] && [rows][..0] == [];
    assert Flatten([row], [rows]) == FlattenOn([], [], row, rows) == Flatten([], []) * rows + row == row;
    UnflattenThree(i, j, k, a, b, m);
    assert [i, j, k] + [c] == [i, j, k, c];
  }

  lemma UnflattenThree(i: nat, j: nat, k: nat, a: nat, b: nat, m: nat)
    requires i < a && j < b && k < m
    ensures Unflatten((i * b + j) * m + k, [a, b, m]) == [i, j, k]
  {
    assert [a, b, m][..2] == [a, b] && [a, b][..1] == [a];
    DivModOf(i * b + j, m, k);
    DivModOf(i, b, j);
    UnflattenOne(i, a);
    assert Unflatten(i * b + j, [a, b]) == UnflattenOn(i * b + j, [a], b) == Unflatten(i, [a]) + [j];
    assert Unflatten((i * b + j) * m + k, [a, b, m]) == UnflattenOn((i * b + j) * m + k, [a, b], m);
  }

  lemma ProdOne(x: nat)
    ensures Prod([x]) == x
  {
    ProdSnoc([], x);
    assert [] + [x] == [x];
  }

  lemma ProdThree(a: nat, b: nat, c: nat)
    ensures Prod([a, b, c]) == a * b * c
  {
    ProdOne(a);
    ProdSnoc([a], b);
    ProdSnoc([a, b], c);
    assert [a] + [b] == [a, b] && [a, b] + [c] == [a, b, c];
  }

  // ----- the three steps -----

  /** The rows apart: heads, halves, pairs. */
  lemma RowsApart(l: Lora, h: nat, k: nat)
    requires Matrix(l) && Rank(l) > 0
    ensures var shape := [h, 2, k, Shape(l)[1]];
            && (Reshape(l, shape).Success? <==> Shape(l)[0] == h * 2 * k)
            && (Reshape(l, shape).Success? ==> Expanded(Shape(l), shape) == Success([h, 2, k, Shape(l)[1]]))
  {
    var target: seq<nat> := [h, 2, k, Shape(l)[1]];
    var shape: seq<int> := [h, 2, k, Shape(l)[1]];
    assert Becomes(Shape(l), shape, 0, target);
    BecomesExpanded(Shape(l), shape, 0, target);
    ReshapeToAccepts(l, target);
    assert target[..3] == [h, 2, k] && Shape(l)[..1] == [Shape(l)[0]];
    ProdThree(h, 2, k);
    ProdOne(Shape(l)[0]);
  }

  /** Apart, A has no batch. */
  lemma ApartUnbatched(l: Lora, target: seq<nat>)
    requires Matrix(l) && |target| == 4 && ReshapeTo(l, target).Success?
    ensures var l' := ReshapeTo(l, target).value;
            Valid(l') && |l'.A.shape| == 4 && l'.A.shape[0] == 1 && l'.A.shape[1] == 1
  {
    ReshapeSplit(l, target);
    ReshapedShape(l, target);
  }

  lemma MiddleAxes()
    ensures IsPermutation([0, 2, 1, 3], 4) && Axes(Transposed(4, 1, 2), 4) == Success([0, 2, 1, 3])
  {
    var axes: seq<nat> := [0, 2, 1, 3];
    TransposedIs(4, 1, 2, 1, 2, axes);
    NonNegativeIs(Transposed(4, 1, 2), 4);
  }

  /** Halves and pairs change places. */
  lemma SwapsMiddle(l: Lora)
    requires Valid(l) && |l.A.shape| == 4 && l.A.shape[0] == 1 && l.A.shape[1] == 1
    ensures var r := Transpose(l, 1, 2);
            && r.Success? && Valid(r.value) && Rank(r.value) == Rank(l) && r.value.A == l.A
            && IsPermutation([0, 2, 1, 3], 4)
            && Same(Dense(r.value), Apply(PermuteGather(Shape(l), [0, 2, 1, 3]), Dense(l)))
  {
    MiddleAxes();
    PermuteMiddle(l, [0, 2, 1, 3]);
  }

  lemma PermuteMiddle(l: Lora, axes: seq<nat>)
    requires Valid(l) && |l.A.shape| == 4 && l.A.shape[0] == 1 && l.A.shape[1] == 1
    requires IsPermutation(axes, 4) && axes[3] == 3
    ensures var r := PermuteTo(l, axes);
            && r.Success? && Valid(r.value) && Rank(r.value) == Rank(l) && r.value.A == l.A
            && Same(Dense(r.value), Apply(PermuteGather(Shape(l), axes), Dense(l)))
  {
    PermuteToAccepts(l, axes);
    PermuteToRefines(l, axes);
    MadeFrom(l.A, Apply(PermuteGather(l.B.shape, axes), l.B));
  }

  lemma FourAxes(s: seq<nat>)
    requires |s| == 4 && IsPermutation([0, 2, 1, 3], 4)
    ensures PermuteGather(s, [0, 2, 1, 3]).shape == [s[0], s[2], s[1], s[3]]
  {
  }

  lemma MiddleSwapped(s: seq<nat>, i: nat, j: nat, t: nat, c: nat)
    requires |s| == 4 && IsPermutation([0, 2, 1, 3], 4) && i < s[0] && j < s[2] && t < s[1] && c < s[3]
    ensures PermuteGather(s, [0, 2, 1, 3]).source([i, j, t, c]) == [i, t, j, c]
  {
    FourAxes(s);
    FourMoved(s, [0, 2, 1, 3], [i, j, t, c]);
  }

  lemma FourMoved(s: seq<nat>, axes: seq<nat>, ix: Index)
    requires |s| == 4 && axes == [0, 2, 1, 3] && IsPermutation(axes, 4) && InBounds(ix, PermuteGather(s, axes).shape)
    ensures PermuteGather(s, axes).source(ix) == [ix[0], ix[2], ix[1], ix[3]]
  {
    PermuteMoves(s, axes, ix, 0);
    PermuteMoves(s, axes, ix, 1);
    PermuteMoves(s, axes, ix, 2);
    PermuteMoves(s, axes, ix, 3);
  }

  /** And the rows together again. */
  lemma RowsTogether(l: Lora, rows: nat)
    requires Valid(l) && Rank(l) > 0 && |l.A.shape| == 4 && l.A.shape[0] == 1 && l.A.shape[1] == 1
    requires rows == Shape(l)[0] * Shape(l)[1] * Shape(l)[2]
    ensures Reshape(l, [rows, Shape(l)[3]]).Success?
    ensures Expanded(Shape(l), [rows, Shape(l)[3]]) == Success([rows, Shape(l)[3]])
  {
    var target: seq<nat> := [rows, Shape(l)[3]];
    var shape: seq<int> := [rows, Shape(l)[3]];
    assert Becomes(Shape(l), shape, 0, target);
    BecomesExpanded(Shape(l), shape, 0, target);
    ReshapeToAccepts(l, target);
    assert target[..1] == [rows] && Shape(l)[..3] == [Shape(l)[0], Shape(l)[1], Shape(l)[2]];
    ProdThree(Shape(l)[0], Shape(l)[1], Shape(l)[2]);
    ProdOne(rows);
  }

  // ----- all of it -----

  /** `rows` is `h` heads of two halves of `k`. */
  predicate Halves(rows: nat, h: nat, k: nat) { rows == h * 2 * k }

  /** The rows were apart as `[h, 2, k]` and are together again in the order `[h, k, 2]`. */
  ghost predicate Reordered(l: Lora, l': Lora, h: nat, k: nat)
    requires Matrix(l) && Matrix(l')
  {
    && Shape(l') == Shape(l) && Halves(Shape(l)[0], h, k)
    && forall i: nat, t: nat, j: nat, c: nat :: i < h && t < 2 && j < k && c < Shape(l)[1] ==>
         RowMoved(l, l', k, i, t, j, c)
  }

  /** Row `j` of half `t` of head `i` becomes row `t` of pair `j` of that head. */
  ghost predicate RowMoved(l: Lora, l': Lora, k: nat, i: nat, t: nat, j: nat, c: nat)
    requires Matrix(l) && Matrix(l')
  {
    Dense(l').at([(i * k + j) * 2 + t, c]) == Dense(l).at([(i * 2 + t) * k + j, c])
  }

  lemma Halved(rows: nat, h: nat, k: nat)
    requires h > 0 && rows == h * 2 * k
    ensures HalfRows(rows, h) == k
  {
    QuotientIs(rows, h);
    QuotientIs(2 * k, 2);
    DivModOf(2 * k, h, 0);
    assert rows == (2 * k) * h + 0;
  }

  lemma RowBound(i: nat, j: nat, k: nat, a: nat, b: nat, m: nat)
    requires i < a && j < b && k < m
    ensures (i * b + j) * m + k < a * b * m
  {
    FlattenThree(i, j, k, a, b, m);
    FlattenBound([i, j, k], [a, b, m]);
    ProdThree(a, b, m);
  }

  lemma Products(h: nat, k: nat)
    ensures h * 2 * k == h * k * 2
  {
  }

  lemma Read(before: Tensor, after: Tensor, g: Gather, ix: Index, origin: Index)
    requires Same(after, Apply(g, before)) && InBounds(ix, g.shape) && g.source(ix) == origin
    ensures after.at(ix) == before.at(origin)
  {
  }

  lemma ReadApart(t0: Tensor, t1: Tensor, rows: nat, h: nat, k: nat, d: nat, i: nat, t: nat, j: nat, c: nat)
    requires Halves(rows, h, k) && Same(t1, Apply(ReshapeGather([rows, d], [h, 2, k, d]), t0))
    requires i < h && t < 2 && j < k && c < d
    ensures t1.at([i, t, j, c]) == t0.at([(i * 2 + t) * k + j, c])
  {
    RowBound(i, t, j, h, 2, k);
    SplitRow(i, t, j, c, h, 2, k, d, rows);
    Read(t0, t1, ReshapeGather([rows, d], [h, 2, k, d]), [i, t, j, c], [(i * 2 + t) * k + j, c]);
  }

  lemma ReadSwapped(t1: Tensor, t2: Tensor, h: nat, k: nat, d: nat, i: nat, t: nat, j: nat, c: nat)
    requires IsPermutation([0, 2, 1, 3], 4)
    requires Same(t2, Apply(PermuteGather([h, 2, k, d], [0, 2, 1, 3]), t1))
    requires i < h && t < 2 && j < k && c < d
    ensures t2.at([i, j, t, c]) == t1.at([i, t, j, c])
  {
    MiddleSwapped([h, 2, k, d], i, j, t, c);
    Read(t1, t2, PermuteGather([h, 2, k, d], [0, 2, 1, 3]), [i, j, t, c], [i, t, j, c]);
  }

  lemma ReadTogether(t2: Tensor, t3: Tensor, rows: nat, h: nat, k: nat, d: nat, i: nat, t: nat, j: nat, c: nat)
    requires Halves(rows, h, k) && Same(t3, Apply(ReshapeGather([h, k, 2, d], [rows, d]), t2))
    requires i < h && t < 2 && j < k && c < d
    ensures t3.at([(i * k + j) * 2 + t, c]) == t2.at([i, j, t, c])
  {
    Products(h, k);
    RowBound(i, j, t, h, k, 2);
    JoinRow(i, j, t, c, h, k, 2, d, rows);
    Read(t2, t3, ReshapeGather([h, k, 2, d], [rows, d]), [(i * k + j) * 2 + t, c], [i, j, t, c]);
  }

  lemma TakeApart(l: Lora, h: nat, k: nat) returns (l': Lora)
    requires Matrix(l) && Rank(l) > 0 && Halves(Shape(l)[0], h, k)
    ensures Reshape(l, [h, 2, k, Shape(l)[1]]) == Success(l')
    ensures Valid(l') && Rank(l') == Rank(l) && Shape(l') == [h, 2, k, Shape(l)[1]]
    ensures |l'.A.shape| == 4 && l'.A.shape[0] == 1 && l'.A.shape[1] == 1
    ensures Same(Dense(l'), Apply(ReshapeGather(Shape(l), [h, 2, k, Shape(l)[1]]), Dense(l)))
  {
    RowsApart(l, h, k);
    ReshapeRefines(l, [h, 2, k, Shape(l)[1]]);
    ApartUnbatched(l, [h, 2, k, Shape(l)[1]]);
    l' := Reshape(l, [h, 2, k, Shape(l)[1]]).value;
  }

  lemma SwapHalves(l: Lora) returns (l': Lora)
    requires Valid(l) && |l.A.shape| == 4 && l.A.shape[0] == 1 && l.A.shape[1] == 1
    ensures Transpose(l, 1, 2) == Success(l')
    ensures Valid(l') && Rank(l') == Rank(l) && l'.A == l.A
    ensures var s := Shape(l); Shape(l') == [s[0], s[2], s[1], s[3]]
    ensures IsPermutation([0, 2, 1, 3], 4)
    ensures Same(Dense(l'), Apply(PermuteGather(Shape(l), [0, 2, 1, 3]), Dense(l)))
  {
    SwapsMiddle(l);
    FourAxes(Shape(l));
    l' := Transpose(l, 1, 2).value;
  }

  lemma PutTogether(l: Lora, rows: nat, h: nat, k: nat, d: nat) returns (l': Lora)
    requires Valid(l) && Rank(l) > 0 && |l.A.shape| == 4 && l.A.shape[0] == 1 && l.A.shape[1] == 1
    requires Shape(l) == [h, k, 2, d] && Halves(rows, h, k)
    ensures Reshape(l, [rows, d]) == Success(l')
    ensures Valid(l') && Rank(l') == Rank(l) && Shape(l') == [rows, d]
    ensures Same(Dense(l'), Apply(ReshapeGather([h, k, 2, d], [rows, d]), Dense(l)))
  {
    Products(h, k);
    RowsTogether(l, rows);
    ReshapeRefines(l, [rows, d]);
    l' := Reshape(l, [rows, d]).value;
  }

  /**
   The reordering succeeds exactly when the rows divide into `h` heads of two halves, and then every row is where
   it belongs.
   */
  lemma UndoRotaryExactly(l: Lora, h: nat)
    requires Matrix(l) && Rank(l) > 0 && h > 0
    ensures UndoRotary(l, h).Success? <==> exists k: nat :: Halves(Shape(l)[0], h, k)
    ensures UndoRotary(l, h).Success? ==>
              var l' := UndoRotary(l, h).value;
              Matrix(l') && Rank(l') == Rank(l) && Reordered(l, l', h, HalfRows(Shape(l)[0], h))
  {
    var k := HalfRows(Shape(l)[0], h);
    OnlyHalves(Shape(l)[0], h);
    if Halves(Shape(l)[0], h, k) { ThreeSteps(l, h, k); } else { NotApart(l, h, k); }
  }

  lemma OnlyHalves(rows: nat, h: nat)
    requires h > 0
    ensures (exists k: nat :: Halves(rows, h, k)) <==> Halves(rows, h, HalfRows(rows, h))
  {
    if k: nat :| Halves(rows, h, k) { Halved(rows, h, k); }
  }

  lemma NotApart(l: Lora, h: nat, k: nat)
    requires Matrix(l) && Rank(l) > 0 && h > 0 && k == HalfRows(Shape(l)[0], h) && !Halves(Shape(l)[0], h, k)
    ensures UndoRotary(l, h).Failure?
  {
    RowsApart(l, h, k);
  }

  lemma ThreeSteps(l: Lora, h: nat, k: nat)
    requires Matrix(l) && Rank(l) > 0 && h > 0 && Halves(Shape(l)[0], h, k) && k == HalfRows(Shape(l)[0], h)
    ensures UndoRotary(l, h).Success?
    ensures var l' := UndoRotary(l, h).value; Matrix(l') && Rank(l') == Rank(l) && Reordered(l, l', h, k)
  {
    var l1, l2, l3 := StepsTaken(l, h, k, Shape(l)[0], Shape(l)[1]);
    RowsTravel(l, l1, l2, l3, Shape(l)[0], h, k, Shape(l)[1]);
  }

  lemma StepsTaken(l: Lora, h: nat, k: nat, rows: nat, d: nat) returns (l1: Lora, l2: Lora, l3: Lora)
    requires Matrix(l) && Rank(l) > 0 && h > 0 && Shape(l) == [rows, d]
    requires Halves(rows, h, k) && k == HalfRows(rows, h)
    ensures Valid(l1) && Valid(l2) && Matrix(l3) && Rank(l3) == Rank(l) && Shape(l3) == [rows, d]
    ensures UndoRotary(l, h) == Success(l3) && IsPermutation([0, 2, 1, 3], 4)
    ensures Same(Dense(l1), Apply(ReshapeGather([rows, d], [h, 2, k, d]), Dense(l)))
    ensures Same(Dense(l2), Apply(PermuteGather([h, 2, k, d], [0, 2, 1, 3]), Dense(l1)))
    ensures Same(Dense(l3), Apply(ReshapeGather([h, k, 2, d], [rows, d]), Dense(l2)))
  {
    l1 := TakeApart(l, h, k);
    l2 := SwapHalves(l1);
    l3 := PutTogether(l2, rows, h, k, d);
    UndoneBy(l, h, l1, l2, l3);
  }

  lemma UndoneBy(l: Lora, h: nat, l1: Lora, l2: Lora, l3: Lora)
    requires Matrix(l) && h > 0 && Valid(l1) && Valid(l2)
    requires Reshape(l, [h, 2, HalfRows(Shape(l)[0], h), Shape(l)[1]]) == Success(l1)
    requires Transpose(l1, 1, 2) == Success(l2) && Reshape(l2, [Shape(l)[0], Shape(l)[1]]) == Success(l3)
    ensures UndoRotary(l, h) == Success(l3)
  {
  }

  lemma RowsTravel(l: Lora, l1: Lora, l2: Lora, l3: Lora, rows: nat, h: nat, k: nat, d: nat)
    requires Matrix(l) && Valid(l1) && Valid(l2) && Matrix(l3) && Halves(rows, h, k) && IsPermutation([0, 2, 1, 3], 4)
    requires Shape(l) == Shape(l3) == [rows, d]
    requires Same(Dense(l1), Apply(ReshapeGather([rows, d], [h, 2, k, d]), Dense(l)))
    requires Same(Dense(l2), Apply(PermuteGather([h, 2, k, d], [0, 2, 1, 3]), Dense(l1)))
    requires Same(Dense(l3), Apply(ReshapeGather([h, k, 2, d], [rows, d]), Dense(l2)))
    ensures Reordered(l, l3, h, k)
  {
    forall i: nat, t: nat, j: nat, c: nat | i < h && t < 2 && j < k && c < d ensures RowMoved(l, l3, k, i, t, j, c) {
      ReadApart(Dense(l), Dense(l1), rows, h, k, d, i, t, j, c);
      ReadSwapped(Dense(l1), Dense(l2), h, k, d, i, t, j, c);
      ReadTogether(Dense(l2), Dense(l3), rows, h, k, d, i, t, j, c);
    }
  }
}
