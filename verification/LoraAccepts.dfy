/**
 When the operations of `LoraTorchTensor` succeed: conditions on the shapes, exact for every operation, so that
 what the other modules prove of a result is known to have one.
 */
module LoraAccepts {
  import opened Wrappers
  import opened Division
  import opened Tensors
  import opened Picks
  import opened LoraTensor
  import opened LoraIndexing
  import opened LoraTuples
  import opened LoraShapes
  import opened LoraCombine

  // ----- reshape -----

  /** The product of the entries that are not -1. */
  function Known(shape: seq<int>): int {
    if shape == [] then 1 else Known(shape[..|shape| - 1]) * if shape[|shape| - 1] == -1 then 1 else shape[|shape| - 1]
  }

  /** `target` is `shape` with `v` for -1, where `v` times the other entries makes up all elements of `s`. */
  predicate Becomes(s: seq<nat>, shape: seq<int>, v: nat, target: seq<nat>) {
    && |target| == |shape|
    && (forall i :: 0 <= i < |shape| ==> target[i] == if shape[i] == -1 then v else shape[i])
    && (-1 in shape ==> Known(shape) > 0 && v * Known(shape) == Prod(s))
  }

  /** Two axes or more, the last one kept, and, where there is a rank, as many rows in B and no batch in A. */
  predicate CanHold(l: Lora, target: seq<nat>)
    requires Valid(l)
  {
    var n, m := |l.A.shape|, |target|;
    && m >= 2 && target[m - 1] == Shape(l)[n - 1]
    && (Rank(l) > 0 ==>
          && Prod(target[..m - 1]) == Prod(Shape(l)[..n - 1])
          && (target[m - 1] == 0 || forall i :: 0 <= i < n - 2 ==> l.A.shape[i] == 1))
  }

  lemma {:induction false} KnownIs(shape: seq<int>)
    requires forall i :: 0 <= i < |shape| ==> shape[i] >= -1
    ensures Known(shape) == Prod(Filled(shape, 1))
    decreases |shape|
  {
    if shape != [] {
      KnownIs(shape[..|shape| - 1]);
      assert Filled(shape, 1)[..|shape| - 1] == Filled(shape[..|shape| - 1], 1);
    }
  }

  lemma {:induction false} NaturalIs(shape: seq<int>)
    ensures Natural(shape) <==> forall i :: 0 <= i < |shape| ==> shape[i] >= -1
    decreases |shape|
  {
    if shape != [] {
      NaturalIs(shape[1..]);
      assert forall i :: 1 <= i < |shape| ==> shape[i] == shape[1..][i - 1];
    }
  }

  lemma QuotientExact(e: nat, k: nat)
    requires k > 0
    ensures Remainder(e, k) == 0 <==> Quotient(e, k) * k == e
    ensures forall v: nat :: v * k == e ==> Quotient(e, k) == v && Remainder(e, k) == 0
  {
    QuotientIs(e, k);
    assert e == (e / k) * k + e % k;
    forall v: nat | v * k == e ensures Quotient(e, k) == v && Remainder(e, k) == 0 { DivModOf(v, k, 0); }
  }

  lemma ExpandedBecomes(s: seq<nat>, shape: seq<int>) returns (v: nat)
    requires Expanded(s, shape).Success?
    ensures |shape| >= 2 && Becomes(s, shape, v, Expanded(s, shape).value)
  {
    NaturalIs(shape);
    v := 0;
    if -1 in shape {
      KnownIs(shape);
      QuotientExact(Prod(s), Prod(Filled(shape, 1)));
      v := Quotient(Prod(s), Prod(Filled(shape, 1)));
    }
  }

  lemma BecomesExpanded(s: seq<nat>, shape: seq<int>, v: nat, target: seq<nat>)
    requires |shape| >= 2 && Becomes(s, shape, v, target)
    ensures Expanded(s, shape) == Success(target)
  {
    assert forall i :: 0 <= i < |shape| ==> shape[i] >= -1 by {
      forall i | 0 <= i < |shape| ensures shape[i] >= -1 { assert target[i] >= 0; }
    }
    NaturalIs(shape);
    KnownIs(shape);
    if -1 in shape {
      QuotientExact(Prod(s), Prod(Filled(shape, 1)));
      assert Filled(shape, v) == target;
    } else {
      assert Filled(shape, 0) == target;
    }
  }

  lemma CancelExactly(a: nat, b: nat, r: nat)
    requires r > 0
    ensures a * r == b * r <==> a == b
  {
    if a * r == b * r { CancelFactor(a, b, r); }
  }

  lemma {:induction false} OnesExactly(s: seq<nat>)
    ensures Prod(s) == 1 <==> forall i :: 0 <= i < |s| ==> s[i] == 1
  {
    if Prod(s) == 1 {
      UnitProd(s);
    } else if forall i :: 0 <= i < |s| ==> s[i] == 1 {
      assert s == Ones(|s|);
      OnesProd(|s|);
    }
  }

  lemma CountsExactly(a: nat, t: nat, s: nat, r: nat, c: nat)
    ensures 1 * r * c == a * r * c && t * r == s * r <==> (r > 0 ==> t == s && (c == 0 || a == 1))
  {
    if r == 0 {
      ZeroTimes(a, t, s, c);
    } else {
      CancelExactly(t, s, r);
      if c > 0 {
        CancelExactly(1 * r, a * r, c);
        CancelExactly(1, a, r);
      }
    }
  }

  lemma ZeroTimes(a: nat, t: nat, s: nat, c: nat)
    ensures 1 * 0 * c == a * 0 * c && t * 0 == s * 0
  {
  }

  /** The element counts of both factors are kept exactly when the rows are, and A is one matrix or has no columns. */
  lemma CountsKept(l: Lora, target: seq<nat>)
    requires Valid(l) && |target| >= 2 && target[|target| - 1] == Shape(l)[|l.A.shape| - 1]
    ensures var m, r, c := |target|, Rank(l), target[|target| - 1];
            CanHold(l, target)
            <==> Prod(Ones(m - 2) + [r, c]) == Prod(l.A.shape) && Prod(target[..m - 1] + [r]) == Prod(l.B.shape)
  {
    var n, m, r, c := |l.A.shape|, |target|, Rank(l), target[|target| - 1];
    var batch, rows := l.A.shape[..n - 2], Shape(l)[..n - 1];
    ShapeParts(l);
    RowsOf(l);
    PairProd(Ones(m - 2), r, c);
    PairProd(batch, r, c);
    OnesProd(m - 2);
    ProdSnoc(target[..m - 1], r);
    ProdSnoc(rows, r);
    CountsExactly(Prod(batch), Prod(target[..m - 1]), Prod(rows), r, c);
    OneMatrix(l);
  }

  lemma RowsOf(l: Lora)
    requires Valid(l)
    ensures var n := |l.A.shape|; l.B.shape == Shape(l)[..n - 1] + [Rank(l)]
  {
  }

  lemma OneMatrix(l: Lora)
    requires Valid(l)
    ensures var n := |l.A.shape|; Prod(l.A.shape[..n - 2]) == 1 <==> forall i :: 0 <= i < n - 2 ==> l.A.shape[i] == 1
  {
    OnesExactly(l.A.shape[..|l.A.shape| - 2]);
  }

  lemma ReshapeToAccepts(l: Lora, target: seq<nat>)
    requires Valid(l)
    ensures ReshapeTo(l, target).Success? <==> CanHold(l, target)
  {
    if |target| >= 2 && target[|target| - 1] == l.A.shape[|l.A.shape| - 1] { CountsKept(l, target); }
  }

  ghost predicate ReshapesTo(l: Lora, shape: seq<int>, v: nat, target: seq<nat>)
    requires Valid(l)
  {
    Becomes(Shape(l), shape, v, target) && CanHold(l, target)
  }

  lemma AcceptedReshape(l: Lora, shape: seq<int>) returns (v: nat)
    requires Valid(l) && Reshape(l, shape).Success?
    ensures Expanded(Shape(l), shape).Success? && ReshapesTo(l, shape, v, Expanded(Shape(l), shape).value)
  {
    v := ExpandedBecomes(Shape(l), shape);
    ReshapeToAccepts(l, Expanded(Shape(l), shape).value);
  }

  lemma AcceptsReshape(l: Lora, shape: seq<int>, v: nat, target: seq<nat>)
    requires Valid(l) && ReshapesTo(l, shape, v, target)
    ensures Reshape(l, shape).Success? && Valid(Reshape(l, shape).value) && Shape(Reshape(l, shape).value) == target
  {
    BecomesExpanded(Shape(l), shape, v, target);
    ReshapeToAccepts(l, target);
    ReshapedShape(l, target);
  }

  /**
   A reshape succeeds exactly when the new shape, with -1 for whatever makes up the elements, has two axes or more,
   keeps the last, and, unless the rank is 0, keeps the number of rows of a tensor whose A is one matrix.
   */
  lemma ReshapeAcceptsExactly(l: Lora, shape: seq<int>)
    requires Valid(l)
    ensures Reshape(l, shape).Success? <==> exists v: nat, target: seq<nat> :: ReshapesTo(l, shape, v, target)
  {
    if Reshape(l, shape).Success? {
      var v := AcceptedReshape(l, shape);
    } else {
      forall v: nat, target: seq<nat> | ReshapesTo(l, shape, v, target) ensures false {
        AcceptsReshape(l, shape, v, target);
      }
    }
  }

  // ----- permute and transpose -----

  /** `axes` are the given ones, negative ones counted from the end. */
  predicate Names(dims: seq<int>, n: nat, axes: seq<nat>) {
    |axes| == |dims| && forall i :: 0 <= i < |dims| ==> axes[i] < n && (dims[i] == axes[i] || dims[i] == axes[i] - n)
  }

  lemma {:induction false} NonNegativeIs(dims: seq<int>, n: nat)
    ensures NonNegative(dims, n).Some? ==> Names(dims, n, NonNegative(dims, n).value)
    ensures forall axes :: Names(dims, n, axes) ==> NonNegative(dims, n) == Some(axes)
    decreases |dims|
  {
    if dims != [] {
      NonNegativeIs(dims[1..], n);
      forall axes | Names(dims, n, axes) ensures NonNegative(dims, n) == Some(axes) {
        assert Names(dims[1..], n, axes[1..]);
        assert axes == [axes[0]] + axes[1..];
      }
    }
  }

  /** The last axis stays and A is one matrix, or the two axes of a matrix change places. */
  predicate CanPermute(l: Lora, axes: seq<nat>)
    requires Valid(l)
  {
    var n := |l.A.shape|;
    && IsPermutation(axes, n)
    && (n == 2 || (axes[n - 1] == n - 1 && forall i :: 0 <= i < n - 2 ==> l.A.shape[i] == 1))
  }

  lemma PermuteToAccepts(l: Lora, axes: seq<nat>)
    requires Valid(l) && IsPermutation(axes, |l.A.shape|)
    ensures PermuteTo(l, axes).Success? <==> CanPermute(l, axes)
  {
    var n := |l.A.shape|;
    var batch := l.A.shape[..n - 2];
    assert batch == Ones(n - 2) <==> forall i :: 0 <= i < n - 2 ==> l.A.shape[i] == 1;
    if n == 2 && axes[1] != 1 { assert axes == [1, 0]; }
  }

  /** A permute succeeds exactly when its arguments name every axis once and it can be done on the factors. */
  lemma PermuteAcceptsExactly(l: Lora, dims: seq<int>)
    requires Valid(l)
    ensures Permute(l, dims).Success? <==> exists axes :: Names(dims, |l.A.shape|, axes) && CanPermute(l, axes)
  {
    NonNegativeIs(dims, |l.A.shape|);
    var axes := NonNegative(dims, |l.A.shape|);
    if axes.Some? && IsPermutation(axes.value, |l.A.shape|) { PermuteToAccepts(l, axes.value); }
  }

  /** What a permute does: axis `i` of the result is axis `axes[i]`, in its size and in every index. */
  lemma PermuteMoves(shape: seq<nat>, axes: seq<nat>, ix: Index, i: nat)
    requires IsPermutation(axes, |shape|) && InBounds(ix, PermuteGather(shape, axes).shape) && i < |shape|
    ensures PermuteGather(shape, axes).shape[i] == shape[axes[i]]
    ensures InBounds(PermuteGather(shape, axes).source(ix), shape)
    ensures PermuteGather(shape, axes).source(ix)[axes[i]] == ix[i]
  {
    PermuteFits(shape, axes);
    var p := Position(axes, axes[i]);
    assert axes[i] in axes && axes[p] == axes[i];
  }

  predicate AxisGiven(n: nat, d: int, a: nat) { a < n && (d == a || d == a - n) }

  lemma TransposedIs(n: nat, d0: int, d1: int, a: nat, b: nat, axes: seq<nat>)
    requires AxisGiven(n, d0, a) && AxisGiven(n, d1, b) && |axes| == n
    requires forall i :: 0 <= i < n ==> axes[i] == if i == a then b else if i == b then a else i
    ensures Names(Transposed(n, d0, d1), n, axes) && IsPermutation(axes, n)
  {
    forall d | 0 <= d < n ensures d in axes { assert axes[if d == a then b else if d == b then a else d] == d; }
  }

  /** A transpose succeeds exactly for two axes of a matrix, the same axis twice, or two that are not the last. */
  lemma TransposeAcceptsExactly(l: Lora, d0: int, d1: int)
    requires Valid(l)
    ensures var n := |l.A.shape|;
            Transpose(l, d0, d1).Success?
            <==> exists a: nat, b: nat :: AxisGiven(n, d0, a) && AxisGiven(n, d1, b)
                   && (n == 2 || ((a == b || (a < n - 1 && b < n - 1))
                                  && forall i :: 0 <= i < n - 2 ==> l.A.shape[i] == 1))
  {
    var n := |l.A.shape|;
    if 0 <= d0 + n && d0 < n && 0 <= d1 + n && d1 < n {
      var a, b := if d0 >= 0 then d0 else d0 + n, if d1 >= 0 then d1 else d1 + n;
      TransposeAccepts(l, d0, d1, a, b);
      assert AxisGiven(n, d0, a) && AxisGiven(n, d1, b);
    }
  }

  lemma TransposeAccepts(l: Lora, d0: int, d1: int, a: nat, b: nat)
    requires Valid(l) && AxisGiven(|l.A.shape|, d0, a) && AxisGiven(|l.A.shape|, d1, b)
    ensures var n := |l.A.shape|;
            Transpose(l, d0, d1).Success?
            <==> n == 2 || ((a == b || (a < n - 1 && b < n - 1)) && forall i :: 0 <= i < n - 2 ==> l.A.shape[i] == 1)
  {
    var n := |l.A.shape|;
    var axes: seq<nat> := seq(n, i requires 0 <= i < n => if i == a then b else if i == b then a else i);
    TransposedIs(n, d0, d1, a, b, axes);
    NonNegativeIs(Transposed(n, d0, d1), n);
    PermuteToAccepts(l, axes);
  }

  // ----- split, stack and cat -----

  function SizeOf(sizes: seq<nat>): nat { if sizes == [] then 0 else sizes[0] + SizeOf(sizes[1..]) }

  lemma {:induction false} TotalIs(sizes: seq<nat>)
    ensures Total(sizes) == SizeOf(sizes)
    decreases |sizes|
  {
    if sizes != [] {
      TotalIs(sizes[1..]);
      TotalCons(sizes[0], sizes[1..]);
      assert sizes == [sizes[0]] + sizes[1..];
    }
  }

  /** A split succeeds exactly when the sizes add up to the axis, counted from either end, with a chunk for each. */
  lemma SplitAcceptsExactly(l: Lora, sizes: seq<nat>, dim: int)
    requires Valid(l)
    ensures var n := |l.A.shape|;
            Split(l, sizes, dim).Success? <==> exists d: nat :: AxisGiven(n, dim, d) && Shape(l)[d] == SizeOf(sizes)
    ensures Split(l, sizes, dim).Success? ==> |Split(l, sizes, dim).value| == |sizes|
  {
    var n := |l.A.shape|;
    TotalIs(sizes);
    if 0 <= dim + n && dim < n { assert AxisGiven(n, dim, if dim < 0 then dim + n else dim); }
  }

  predicate AllValid(ls: seq<Lora>) { forall i :: 0 <= i < |ls| ==> Valid(ls[i]) }

  lemma EachFactor(ls: seq<Lora>)
    ensures forall i {:trigger ls[i].A} {:trigger As(ls)[i]} :: 0 <= i < |ls| ==> As(ls)[i] == ls[i].A
    ensures forall i {:trigger ls[i].B} {:trigger Bs(ls)[i]} :: 0 <= i < |ls| ==> Bs(ls)[i] == ls[i].B
  {
  }

  /** A stack succeeds exactly for at least one tensor, all with the same shape of A and of B. */
  lemma StackAcceptsExactly(ls: seq<Lora>)
    requires AllValid(ls)
    ensures Stack(ls).Success? <==>
              ls != [] && forall i :: 0 <= i < |ls| ==> ls[i].A.shape == ls[0].A.shape && ls[i].B.shape == ls[0].B.shape
  {
    if ls != [] {
      EachFactor(ls);
      assert Valid(ls[0]);
    }
  }

  /** The shapes agree but for the first axis. */
  predicate JoinAlong(s: seq<nat>, t: seq<nat>) {
    |s| == |t| && forall j :: 1 <= j < |s| ==> s[j] == t[j]
  }

  lemma TailsAgree(s: seq<nat>, t: seq<nat>)
    requires s != [] && t != []
    ensures s[1..] == t[1..] <==> JoinAlong(s, t)
  {
    if s[1..] == t[1..] {
      assert |s| == |t|;
      forall j | 1 <= j < |s| ensures s[j] == t[j] { assert s[j] == s[1..][j - 1] == t[1..][j - 1]; }
    }
  }

  lemma CanCatExactly(ts: seq<Tensor>)
    requires ts != [] && forall i :: 0 <= i < |ts| ==> ts[i].shape != []
    ensures CanCat(ts) <==> forall i :: 0 <= i < |ts| ==> JoinAlong(ts[i].shape, ts[0].shape)
  {
    forall i | 0 <= i < |ts| ensures ts[i].shape[1..] == ts[0].shape[1..] <==> JoinAlong(ts[i].shape, ts[0].shape) {
      TailsAgree(ts[i].shape, ts[0].shape);
    }
  }

  /**
   A cat succeeds exactly for at least one tensor when all B agree but for their first axis, and so do all A; those of
   matrices must be equal.
   */
  lemma CatAcceptsExactly(ls: seq<Lora>)
    requires AllValid(ls)
    ensures CatLoras(ls).Success? <==>
              && ls != []
              && (forall i :: 0 <= i < |ls| ==> JoinAlong(ls[i].B.shape, ls[0].B.shape))
              && (if |ls[0].A.shape| > 2 then forall i :: 0 <= i < |ls| ==> JoinAlong(ls[i].A.shape, ls[0].A.shape)
                  else SharedA(ls))
  {
    if ls != [] {
      assert Valid(ls[0]);
      EachFactor(ls);
      CanCatExactly(As(ls));
      CanCatExactly(Bs(ls));
    }
  }

  // ----- indexing -----

  /** An integer inside the axis, counted from either end, or a slice that steps forward. */
  predicate InRange(p: Pick, d: nat) {
    match p
    case At(i) => if i < 0 then -i <= d else i < d
    case Slice(_, _, step) => step > 0
  }

  /** Where a slice begins or ends: counted from the end if negative, and never outside the axis. */
  function Edge(v: Option<int>, fallback: nat, d: nat): int {
    match v
    case None => fallback
    case Some(x) =>
      var y := if x < 0 then x + d else x;
      if y < 0 then 0 else if y > d then d else y
  }

  lemma {:induction false} StepsExactly(n: nat, step: nat, x: nat)
    requires step > 0
    ensures x < Steps(n, step) <==> x * step < n
    decreases n
  {
    if n > 0 && x > 0 {
      assert x * step == (x - 1) * step + step;
      assert (x - 1) * step >= 0 by { MulMonotone(0, x - 1, step); }
      StepsExactly(if n > step then n - step else 0, step, x - 1);
    } else if x > 0 {
      MulMonotone(0, x, step);
    }
  }

  /** The elements of a slice: from its first edge in steps, as long as they are before its last one. */
  lemma SliceExactly(p: Pick, d: nat, x: nat)
    requires p.Slice? && p.step > 0
    ensures var at := Edge(p.start, 0, d) + x * p.step;
            (x < Len(p, d) <==> at < Edge(p.stop, d, d)) && Elem(p, d, x) == at
  {
    ElemIs(p, d, x);
    var lo, hi := Start(p, d), Bound(p.stop, d, d);
    StepsExactly(if hi <= lo then 0 else hi - lo, p.step, x);
  }

  lemma {:induction false} SameLeft(picks: seq<Pick>, a: seq<nat>, b: seq<nat>)
    requires |picks| == |a| == |b|
    ensures |PickDims(picks, a)| == |PickDims(picks, b)|
    decreases |picks|
  {
    if picks != [] {
      var n := |picks| - 1;
      SameLeft(picks[..n], a[..n], b[..n]);
    }
  }

  /** In-range picks that leave as many batch axes of both factors, and keep rows and columns, are accepted. */
  lemma Constructed(l: Lora, batchA: seq<Pick>, batchB: seq<Pick>, row: Pick, col: Pick)
    requires Valid(l) && |batchA| == |batchB| == |l.A.shape| - 2 && row.Slice? && col.Slice?
    requires var n := |batchA|; |PickDims(batchA, l.A.shape[..n])| == |PickDims(batchB, l.B.shape[..n])|
    ensures PickFactors(l, batchA, batchB, row, col).Success?
            <==> PicksOk(batchA + [FULL, col], l.A.shape) && PicksOk(batchB + [row, FULL], l.B.shape)
  {
    var n := |batchA|;
    var a, b, r, m, c := l.A.shape[..n], l.B.shape[..n], Rank(l), l.B.shape[n], l.A.shape[n + 1];
    SplitTwo(l.A.shape);
    SplitTwo(l.B.shape);
    FullSlice(r);
    PickTwoDims(batchA, a, FULL, r, col, c);
    PickTwoDims(batchB, b, row, m, FULL, r);
    RankKept(PickDims(batchA, a), PickDims(batchB, b), r, Len(col, c), Len(row, m));
  }

  lemma RankKept(a: seq<nat>, b: seq<nat>, r: nat, c: nat, m: nat)
    requires |a| == |b|
    ensures var s, t := a + [r] + [c], b + [m] + [r]; |s| == |t| >= 2 && s[|s| - 2] == r == t[|t| - 1]
  {
  }

  /** `t[i]` and `t[i:j]` succeed exactly when the first axes of both factors allow it; a matrix has no `t[i]`. */
  lemma GetFirstAcceptsExactly(l: Lora, p: Pick)
    requires Valid(l)
    ensures GetFirst(l, p).Success?
            <==> if |l.A.shape| > 2 then InRange(p, l.A.shape[0]) && InRange(p, l.B.shape[0])
                 else p.Slice? && p.step > 0
  {
    var n := |l.A.shape|;
    if n > 2 {
      var batch := [p] + Fulls(n - 3);
      SameLeft(batch, l.A.shape[..n - 2], l.B.shape[..n - 2]);
      Constructed(l, batch, batch, FULL, FULL);
      FirstInRange(p, l.A.shape);
      FirstInRange(p, l.B.shape);
      assert batch + [FULL, FULL] == [p] + Fulls(n - 1);
    } else if p.Slice? {
      MatrixSlice(l, p);
    }
  }

  lemma MatrixSlice(l: Lora, p: Pick)
    requires Valid(l) && |l.A.shape| == 2 && p.Slice?
    ensures PickFactors(l, [], [], p, FULL).Success? <==> p.step > 0
  {
    SameLeft([], l.A.shape[..0], l.B.shape[..0]);
    Constructed(l, [], [], p, FULL);
    BothInRange(FULL, FULL, l.A.shape);
    BothInRange(p, FULL, l.B.shape);
  }

  lemma BothInRange(p: Pick, q: Pick, shape: seq<nat>)
    requires |shape| == 2
    ensures PicksOk([] + [p, q], shape) <==> PickOk(p, shape[0]) && PickOk(q, shape[1])
  {
    assert ([] + [p, q])[0] == p && ([] + [p, q])[1] == q;
  }

  lemma FirstInRange(p: Pick, shape: seq<nat>)
    requires shape != []
    ensures PicksOk([p] + Fulls(|shape| - 1), shape) <==> InRange(p, shape[0])
  {
    var ps := [p] + Fulls(|shape| - 1);
    assert PickOk(ps[0], shape[0]) <==> InRange(p, shape[0]);
  }

  /**
   A tuple that keeps the last two axes succeeds exactly when it has an entry, no more than there are axes, and each
   is in range of its axis of the product.
   */
  lemma GetTupleAcceptsExactly(l: Lora, picks: seq<Pick>)
    requires Valid(l)
    ensures GetTuple(l, picks).Success? ==> 0 < |picks| <= |l.A.shape|
    ensures 0 < |picks| <= |l.A.shape| ==>
              var n, all := |l.A.shape|, Padded(picks, |l.A.shape|);
              all[n - 2].Slice? && all[n - 1].Slice? ==>
                (GetTuple(l, picks).Success? <==> forall i :: 0 <= i < n ==> InRange(all[i], Shape(l)[i]))
  {
    if 0 < |picks| <= |l.A.shape| { PaddedAccepts(l, picks, Padded(picks, |l.A.shape|)); }
  }

  lemma PaddedAccepts(l: Lora, picks: seq<Pick>, all: seq<Pick>)
    requires Valid(l) && 0 < |picks| <= |l.A.shape| && all == Padded(picks, |l.A.shape|)
    ensures all[|all| - 2].Slice? && all[|all| - 1].Slice? ==>
              (GetTuple(l, picks).Success? <==> forall i :: 0 <= i < |all| ==> InRange(all[i], Shape(l)[i]))
  {
    var n := |all|;
    var batch, row, col := all[..n - 2], all[n - 2], all[n - 1];
    PaddedFactors(l, picks, all);
    if row.Slice? && col.Slice? {
      TupleAccepts(l, batch, row, col);
      LastTwo(all);
      AllInRange(all, Shape(l));
    }
  }

  lemma PaddedFactors(l: Lora, picks: seq<Pick>, all: seq<Pick>)
    requires Valid(l) && 0 < |picks| <= |l.A.shape| && all == Padded(picks, |l.A.shape|)
    ensures var n := |all|;
            GetTuple(l, picks)
            == PickFactors(l, BatchPicksA(all[..n - 2], l.A.shape[..n - 2]), all[..n - 2], all[n - 2], all[n - 1])
  {
  }

  lemma LastTwo(all: seq<Pick>)
    requires |all| >= 2
    ensures all == all[..|all| - 2] + [all[|all| - 2], all[|all| - 1]]
  {
  }

  lemma AllInRange(picks: seq<Pick>, shape: seq<nat>)
    requires |picks| == |shape|
    ensures PicksOk(picks, shape) <==> forall i :: 0 <= i < |picks| ==> InRange(picks[i], shape[i])
  {
    assert forall i :: 0 <= i < |picks| ==> (PickOk(picks[i], shape[i]) <==> InRange(picks[i], shape[i]));
  }

  lemma TupleAccepts(l: Lora, batch: seq<Pick>, row: Pick, col: Pick)
    requires Valid(l) && |batch| + 2 == |l.A.shape| && row.Slice? && col.Slice?
    ensures PickFactors(l, BatchPicksA(batch, l.A.shape[..|batch|]), batch, row, col).Success?
            <==> PicksOk(batch + [row, col], Shape(l))
  {
    var n := |batch|;
    var a, b := l.A.shape[..n], l.B.shape[..n];
    FactorPicksOk(l, batch, row, col);
    if PicksOk(batch + [row, col], Shape(l)) {
      forall i | 0 <= i < n ensures PickOk(batch[i], b[i]) { assert PickOk((batch + [row, col])[i], Shape(l)[i]); }
      SamePicksDrop(batch, a, b);
      Constructed(l, BatchPicksA(batch, a), batch, row, col);
    }
  }

  /** Row scaling succeeds exactly when the last axis of the factor is 1, if any, and the others meet those of B. */
  lemma ScaleAcceptsExactly(l: Lora, other: Tensor)
    requires Valid(l)
    ensures var n, q := |l.B.shape|, |other.shape|;
            Scale(l, other).Success?
            <==> && q <= n && (q > 0 ==> other.shape[q - 1] == 1)
                 && forall i :: 0 <= i < q ==>
                      other.shape[i] == 1 || l.B.shape[n - q + i] == 1 || other.shape[i] == l.B.shape[n - q + i]
  {
    var n, q := |l.B.shape|, |other.shape|;
    if q <= n {
      var tail := l.B.shape[n - q..];
      assert |tail| == q && forall i :: 0 <= i < q ==> tail[i] == l.B.shape[n - q + i];
      if Scale(l, other).Failure? && LastIsOne(other.shape) && Compatible(other.shape, l.B.shape) {
        LastKept(l.B.shape, other.shape);
      }
    }
  }

  lemma LastKept(shape: seq<nat>, other: seq<nat>)
    requires shape != [] && |other| <= |shape| && LastIsOne(other)
    ensures Grown(shape, other)[|shape| - 1] == shape[|shape| - 1]
  {
  }
}
