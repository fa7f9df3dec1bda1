/**
 `reshape`, `permute`, `transpose` and `split` of `LoraTorchTensor`.
 */
module LoraShapes {
  import opened Wrappers
  import opened Division
  import opened Tensors
  import opened Picks
  import opened LoraTensor

  lemma ShapeParts(l: Lora)
    requires Valid(l)
    ensures var n := |l.A.shape|;
            && l.A.shape == l.A.shape[..n - 2] + [Rank(l), l.A.shape[n - 1]]
            && l.B.shape == l.B.shape[..n - 1] + [Rank(l)]
            && Shape(l) == l.B.shape[..n - 1] + [l.A.shape[n - 1]]
  {
  }

  // ----- reshape -----

  /** The new shape with every -1 replaced by `v`. */
  function Filled(shape: seq<int>, v: nat): (r: seq<nat>)
    ensures |r| == |shape|
  {
    seq(|shape|, i requires 0 <= i < |shape| => if shape[i] < 0 then v else shape[i])
  }

  predicate Natural(shape: seq<int>) { shape == [] || (shape[0] >= -1 && Natural(shape[1..])) }

  function Expanded(orig: seq<nat>, shape: seq<int>): Result<seq<nat>, LoraError> {
    if |shape| < 2 then Failure(NotImplemented)
    else if !Natural(shape) then Failure(TorchError)
    else if -1 !in shape then Success(Filled(shape, 0))
    else
      var elems, known := Prod(orig), Prod(Filled(shape, 1));
      if known == 0 then Failure(TorchError)
      else if Remainder(elems, known) != 0 then Failure(AssertionFailed)
      else Success(Filled(shape, Quotient(elems, known)))
  }

  function Ones(n: nat): seq<nat> { seq(n, _ => 1) }

  function ReshapeTo(l: Lora, target: seq<nat>): Result<Lora, LoraError>
    requires Valid(l)
  {
    var n, m := |l.A.shape|, |target|;
    if m < 2 || target[m - 1] != l.A.shape[n - 1] then Failure(NotImplemented)
    else
      var shapeA, shapeB := Ones(m - 2) + [Rank(l), l.A.shape[n - 1]], target[..m - 1] + [Rank(l)];
      if Prod(shapeA) != Prod(l.A.shape) || Prod(shapeB) != Prod(l.B.shape) then Failure(TorchError)
      else MakeLora(Reshaped(l.A, shapeA), Reshaped(l.B, shapeB))
  }

  function Reshape(l: Lora, shape: seq<int>): Result<Lora, LoraError>
    requires Valid(l)
  {
    match Expanded(Shape(l), shape)
    case Failure(e) => Failure(e)
    case Success(target) => ReshapeTo(l, target)
  }

  function Zeros(n: nat): Index { seq(n, _ => 0) }

  lemma ProdSnoc(s: seq<nat>, d: nat)
    ensures Prod(s + [d]) == Prod(s) * d
  {
    assert (s + [d])[..|s|] == s;
  }

  lemma {:induction false} OnesProd(n: nat)
    ensures Prod(Ones(n)) == 1
  {
    if n > 0 {
      OnesProd(n - 1);
      assert Ones(n)[..n - 1] == Ones(n - 1);
    }
  }

  lemma {:induction false} UnitProd(s: seq<nat>)
    requires Prod(s) == 1
    ensures s == Ones(|s|)
    decreases |s|
  {
    if s != [] {
      var n := |s| - 1;
      UnitFactors(Prod(s[..n]), s[n]);
      UnitProd(s[..n]);
      assert s == s[..n] + [s[n]];
    }
  }

  lemma UnitFactors(a: nat, b: nat)
    requires a * b == 1
    ensures a == 1 && b == 1
  {
    if a > 1 { MulMonotone(2, a, b); }
  }

  lemma CancelFactor(a: nat, b: nat, r: nat)
    requires r > 0 && a * r == b * r
    ensures a == b
  {
  }

  lemma {:induction false} ZerosFlat(n: nat, m: nat)
    ensures Flatten(Zeros(n), Ones(n)) == 0
    ensures Unflatten(0, Ones(m)) == Zeros(m)
    decreases n + m
  {
    if n > 0 {
      ZerosFlat(n - 1, 0);
      assert Zeros(n)[..n - 1] == Zeros(n - 1) && Ones(n)[..n - 1] == Ones(n - 1);
    }
    if m > 0 {
      ZerosFlat(0, m - 1);
      assert Ones(m)[..m - 1] == Ones(m - 1);
    }
  }

  /** The batch part of A has one element, so its reshape only renames that element's index. */
  lemma ReshapeColumn(n: nat, m: nat, r: nat, d: nat, k: nat, j: nat)
    requires k < r && j < d
    ensures ReshapeGather(Ones(n) + [r, d], Ones(m) + [r, d]).source(Zeros(m) + [k, j]) == Zeros(n) + [k, j]
  {
    ZerosFlat(m, n);
    UnflattenSnoc(Zeros(m), k, Ones(m), r, Ones(n));
    UnflattenSnoc(Zeros(m) + [k], j, Ones(m) + [r], d, Ones(n) + [r]);
    assert Zeros(m) + [k] + [j] == Zeros(m) + [k, j];
    assert Ones(m) + [r] + [d] == Ones(m) + [r, d] && Ones(n) + [r] + [d] == Ones(n) + [r, d];
    assert Zeros(n) + [k] + [j] == Zeros(n) + [k, j];
  }

  lemma ReshapeRow(s: seq<nat>, t: seq<nat>, r: nat, d: nat, ix: Index, k: nat)
    requires InBounds(ix, t + [d]) && k < r
    ensures |ReshapeGather(s + [d], t + [d]).source(ix)| == |s| + 1
    ensures ReshapeGather(s + [r], t + [r]).source(RowIndex(ix, k))
            == RowIndex(ReshapeGather(s + [d], t + [d]).source(ix), k)
  {
    var init, j := ix[..|t|], ix[|t|];
    assert ix == init + [j] && (t + [d])[|t|] == d;
    UnflattenSnoc(init, k, t, r, s);
    UnflattenSnoc(init, j, t, d, s);
  }

  lemma ClampOnes(ix: Index)
    ensures Clamp(ix, Ones(|ix|)) == Zeros(|ix|)
  {
  }

  /** Below a last axis that is kept, reshaping the rows of B reshapes the product. */
  lemma ReshapeEntry(sa: seq<nat>, ta: seq<nat>, b: Gather, g: Gather,
                     s: seq<nat>, t: seq<nat>, r: nat, d: nat, ix: Index, k: nat)
    requires |s| >= 1 && |t| >= 1 && InBounds(ix, t + [d]) && k < r
    requires sa == Ones(|s| - 1) + [r, d] && ta == Ones(|t| - 1) + [r, d]
    requires b == ReshapeGather(s + [r], t + [r]) && g == ReshapeGather(s + [d], t + [d])
    ensures ReadsEntry(sa, ta, ReshapeGather(sa, ta), b, g, ix, k)
  {
    var origin := OldIndex(s, t, r, d, ix, k);
    EntryOf(sa, ta, |s| - 1, |t| - 1, r, d, ix, origin, k, b, g);
  }

  lemma EntryOf(sa: seq<nat>, ta: seq<nat>, n: nat, m: nat, r: nat, d: nat, ix: Index, origin: Index, k: nat,
                b: Gather, g: Gather)
    requires sa == Ones(n) + [r, d] && ta == Ones(m) + [r, d]
    requires |ix| == m + 2 && |origin| == n + 2 && origin[n + 1] == ix[m + 1] < d && k < r
    requires g.source(ix) == origin && b.source(RowIndex(ix, k)) == RowIndex(origin, k)
    ensures ReadsEntry(sa, ta, ReshapeGather(sa, ta), b, g, ix, k)
  {
    ReshapeEntryColumn(n, m, r, d, ix, origin, k);
  }

  lemma OldIndex(s: seq<nat>, t: seq<nat>, r: nat, d: nat, ix: Index, k: nat) returns (origin: Index)
    requires |s| >= 1 && |t| >= 1 && InBounds(ix, t + [d]) && k < r
    ensures origin == ReshapeGather(s + [d], t + [d]).source(ix)
    ensures |origin| == |s| + 1 && origin[|s|] == ix[|t|] < d
    ensures ReshapeGather(s + [r], t + [r]).source(RowIndex(ix, k)) == RowIndex(origin, k)
  {
    ReshapeRow(s, t, r, d, ix, k);
    ReshapeLast(s, t, d, ix);
    origin := ReshapeGather(s + [d], t + [d]).source(ix);
  }

  /** The last coordinate stays. */
  lemma ReshapeLast(s: seq<nat>, t: seq<nat>, d: nat, ix: Index)
    requires InBounds(ix, t + [d])
    ensures var origin := ReshapeGather(s + [d], t + [d]).source(ix);
            |origin| == |s| + 1 && origin[|s|] == ix[|t|] < d
  {
    assert (t + [d])[|t|] == d && ix == ix[..|t|] + [ix[|t|]];
    UnflattenSnoc(ix[..|t|], ix[|t|], t, d, s);
  }

  lemma ReshapeEntryColumn(n: nat, m: nat, r: nat, d: nat, ix: Index, origin: Index, k: nat)
    requires |ix| == m + 2 && |origin| == n + 2 && origin[n + 1] == ix[m + 1] < d && k < r
    ensures ReshapeGather(Ones(n) + [r, d], Ones(m) + [r, d]).source(ColIndex(Ones(m) + [r, d], ix, k))
            == ColIndex(Ones(n) + [r, d], origin, k)
  {
    ReshapeColumn(n, m, r, d, k, ix[m + 1]);
    OnesColumn(m, r, d, ix, k);
    OnesColumn(n, r, d, origin, k);
  }

  lemma OnesColumn(n: nat, r: nat, d: nat, ix: Index, k: nat)
    requires |ix| == n + 2
    ensures ColIndex(Ones(n) + [r, d], ix, k) == Zeros(n) + [k, ix[n + 1]]
  {
    assert (Ones(n) + [r, d])[..n] == Ones(n);
    ClampOnes(ix[..n]);
  }

  lemma ReshapeSplit(l: Lora, target: seq<nat>)
    requires Valid(l) && ReshapeTo(l, target).Success?
    ensures var l', n, m, r := ReshapeTo(l, target).value, |l.A.shape|, |target|, Rank(l);
            && m >= 2 && target == target[..m - 1] + [l.A.shape[n - 1]]
            && l' == Lora(Reshaped(l.A, Ones(m - 2) + [r, l.A.shape[n - 1]]), Reshaped(l.B, target[..m - 1] + [r]))
            && Prod(Ones(m - 2) + [r, l.A.shape[n - 1]]) == Prod(l.A.shape)
            && Prod(target[..m - 1] + [r]) == Prod(l.B.shape)
  {
    var m := |target|;
    Snoc(target, target[m - 1]);
    var shapeA, shapeB := Ones(m - 2) + [Rank(l), target[m - 1]], target[..m - 1] + [Rank(l)];
    MadeFrom(Reshaped(l.A, shapeA), Reshaped(l.B, shapeB));
  }

  lemma Snoc(s: seq<nat>, d: nat)
    requires s != [] && s[|s| - 1] == d
    ensures s == s[..|s| - 1] + [d]
  {
  }

  lemma MadeFrom(A: Tensor, B: Tensor)
    ensures MakeLora(A, B).Success? ==> MakeLora(A, B).value == Lora(A, B)
  {
  }

  lemma ReshapeCommutes(l: Lora, l': Lora, target: seq<nat>)
    requires Valid(l) && Rank(l) > 0 && ReshapeTo(l, target) == Success(l')
    ensures Valid(l') && Rank(l') == Rank(l) && Prod(Shape(l)) == Prod(target)
    ensures Commutes(l, l', ReshapeGather(l.A.shape, l'.A.shape), ReshapeGather(l.B.shape, l'.B.shape),
                     ReshapeGather(Shape(l), target))
  {
    var n, m, r := |l.A.shape|, |target|, Rank(l);
    ReshapeSplit(l, target);
    ShapeParts(l);
    ReshapePartsCommute(l, l', l.B.shape[..n - 1], target[..m - 1], r, l.A.shape[n - 1]);
  }

  lemma ReshapePartsCommute(l: Lora, l': Lora, s: seq<nat>, t: seq<nat>, r: nat, d: nat)
    requires Valid(l) && r == Rank(l) > 0 && d == l.A.shape[|l.A.shape| - 1]
    requires l.B.shape == s + [r] && Shape(l) == s + [d] && |s| >= 1 && |t| >= 1
    requires l' == Lora(Reshaped(l.A, Ones(|t| - 1) + [r, d]), Reshaped(l.B, t + [r]))
    requires Prod(Ones(|t| - 1) + [r, d]) == Prod(l.A.shape) && Prod(t + [r]) == Prod(l.B.shape)
    ensures Valid(l') && Rank(l') == r && Prod(s + [d]) == Prod(t + [d])
    ensures Commutes(l, l', ReshapeGather(l.A.shape, l'.A.shape), ReshapeGather(l.B.shape, l'.B.shape),
                     ReshapeGather(Shape(l), t + [d]))
  {
    ReshapeFactors(l, l', t, r, d);
    ReshapeProds(s, t, r, d);
    ReshapeFits(Shape(l), t + [d]);
    ReshapeReads(l, s, t, r, d);
  }

  lemma ReshapeToRefines(l: Lora, target: seq<nat>)
    requires Valid(l) && ReshapeTo(l, target).Success?
    ensures var l' := ReshapeTo(l, target).value;
            && Valid(l') && Rank(l') == Rank(l) && Shape(l') == target
            && (Rank(l) > 0 ==> Prod(Shape(l)) == Prod(target))
            && Same(Dense(l'), Apply(ReshapeGather(Shape(l), target), Dense(l)))
  {
    var l' := ReshapeTo(l, target).value;
    ReshapedShape(l, target);
    if Rank(l) > 0 {
      ReshapeCommutes(l, l', target);
      GatherRefines(l, l', ReshapeGather(l.A.shape, l'.A.shape), ReshapeGather(l.B.shape, l'.B.shape),
                    ReshapeGather(Shape(l), target));
    } else {
      var g := ReshapeGather(Shape(l), target);
      forall ix | InBounds(ix, target) ensures Dense(l').at(ix) == Dense(l).at(g.source(ix)) {
        RankZero(l', ix);
        RankZero(l, g.source(ix));
      }
    }
  }

  /** A reshape that succeeds reshapes the product; only at rank 0 may the new shape have another size. */
  lemma ReshapeRefines(l: Lora, shape: seq<int>)
    requires Valid(l) && Reshape(l, shape).Success?
    ensures var l', target := Reshape(l, shape).value, Expanded(Shape(l), shape).value;
            && Valid(l') && Rank(l') == Rank(l) && Shape(l') == target
            && (Rank(l) > 0 ==> Prod(Shape(l)) == Prod(target))
            && Same(Dense(l'), Apply(ReshapeGather(Shape(l), target), Dense(l)))
  {
    ReshapeToRefines(l, Expanded(Shape(l), shape).value);
  }

  lemma ReshapedShape(l: Lora, target: seq<nat>)
    requires Valid(l) && ReshapeTo(l, target).Success?
    ensures var l' := ReshapeTo(l, target).value; Valid(l') && Rank(l') == Rank(l) && Shape(l') == target
  {
    ReshapeSplit(l, target);
    ReshapeFactors(l, ReshapeTo(l, target).value, target[..|target| - 1], Rank(l), l.A.shape[|l.A.shape| - 1]);
  }

  lemma ReshapeFactors(l: Lora, l': Lora, t: seq<nat>, r: nat, d: nat)
    requires Valid(l) && |t| >= 1 && r == Rank(l)
    requires l' == Lora(Reshaped(l.A, Ones(|t| - 1) + [r, d]), Reshaped(l.B, t + [r]))
    ensures Valid(l') && Rank(l') == r && Shape(l') == t + [d]
  {
    var m := |t| - 1;
    assert (Ones(m) + [r, d])[..m] == Ones(m);
    assert (t + [r])[..m + 1] == t;
  }

  lemma ReshapeProds(s: seq<nat>, t: seq<nat>, r: nat, d: nat)
    requires r > 0 && Prod(s + [r]) == Prod(t + [r])
    ensures Prod(s + [d]) == Prod(t + [d])
  {
    ProdSnoc(s, r);
    ProdSnoc(t, r);
    CancelFactor(Prod(s), Prod(t), r);
    ProdSnoc(s, d);
    ProdSnoc(t, d);
  }

  lemma ReshapeReads(l: Lora, s: seq<nat>, t: seq<nat>, r: nat, d: nat)
    requires Valid(l) && r == Rank(l) > 0 && d == l.A.shape[|l.A.shape| - 1]
    requires l.B.shape == s + [r] && |s| >= 1 && |t| >= 1
    requires Prod(Ones(|t| - 1) + [r, d]) == Prod(l.A.shape)
    ensures ReadsThrough(l.A.shape, Ones(|t| - 1) + [r, d], r,
                         ReshapeGather(l.A.shape, Ones(|t| - 1) + [r, d]),
                         ReshapeGather(s + [r], t + [r]), ReshapeGather(s + [d], t + [d]))
  {
    if d > 0 { OnlyOnes(l, d, |t| + 1); }
    ReadsOnes(l.A.shape, s, t, r, d);
  }

  lemma ReadsOnes(sa: seq<nat>, s: seq<nat>, t: seq<nat>, r: nat, d: nat)
    requires |s| >= 1 && |t| >= 1 && |sa| == |s| + 1 && (d > 0 ==> sa == Ones(|s| - 1) + [r, d])
    ensures ReadsThrough(sa, Ones(|t| - 1) + [r, d], r, ReshapeGather(sa, Ones(|t| - 1) + [r, d]),
                         ReshapeGather(s + [r], t + [r]), ReshapeGather(s + [d], t + [d]))
  {
    var ta, b, g := Ones(|t| - 1) + [r, d], ReshapeGather(s + [r], t + [r]), ReshapeGather(s + [d], t + [d]);
    var a := ReshapeGather(sa, ta);
    forall ix: Index, k: nat | InBounds(ix, g.shape) && k < r ensures ReadsEntry(sa, ta, a, b, g, ix, k) {
      assert (t + [d])[|t|] == d;
      ReshapeEntry(sa, ta, b, g, s, t, r, d, ix, k);
    }
  }

  lemma OnlyOnes(l: Lora, d: nat, m: nat)
    requires Valid(l) && m >= 2 && Rank(l) > 0 && d > 0 && d == l.A.shape[|l.A.shape| - 1]
    requires Prod(Ones(m - 2) + [Rank(l), d]) == Prod(l.A.shape)
    ensures l.A.shape == Ones(|l.A.shape| - 2) + [Rank(l), d]
  {
    var n, r := |l.A.shape|, Rank(l);
    var batch := l.A.shape[..n - 2];
    ShapeParts(l);
    PairProd(Ones(m - 2), r, d);
    PairProd(batch, r, d);
    OnesProd(m - 2);
    CancelFactor(1 * r, Prod(batch) * r, d);
    CancelFactor(1, Prod(batch), r);
    UnitProd(batch);
  }

  lemma PairProd(s: seq<nat>, r: nat, d: nat)
    ensures Prod(s + [r, d]) == Prod(s) * r * d
  {
    assert s + [r, d] == s + [r] + [d];
    ProdSnoc(s, r);
    ProdSnoc(s + [r], d);
  }

  // ----- permute -----

  predicate IsPermutation(axes: seq<nat>, n: nat) {
    && |axes| == n
    && (forall i :: 0 <= i < n ==> axes[i] < n)
    && (forall i, j :: 0 <= i < j < n ==> axes[i] != axes[j])
    && (forall d :: 0 <= d < n ==> d in axes)
  }

  /** Where axis `d` goes. */
  function Position(axes: seq<nat>, d: nat): (i: nat)
    ensures d in axes ==> i < |axes| && axes[i] == d
  {
    if axes == [] || axes[0] == d then 0 else 1 + Position(axes[1..], d)
  }

  function PermuteGather(shape: seq<nat>, axes: seq<nat>): Gather
    requires IsPermutation(axes, |shape|)
  {
    Gather(seq(|axes|, i requires 0 <= i < |axes| => shape[axes[i]]),
           ix => if |ix| == |axes| then
             seq(|axes|, d requires 0 <= d < |axes| => assert d in axes; ix[Position(axes, d)])
           else [])
  }

  lemma PermuteFits(shape: seq<nat>, axes: seq<nat>)
    requires IsPermutation(axes, |shape|)
    ensures Fits(PermuteGather(shape, axes), shape)
  {
    var g := PermuteGather(shape, axes);
    forall ix | InBounds(ix, g.shape) ensures InBounds(g.source(ix), shape) {
      forall d | 0 <= d < |shape| ensures g.source(ix)[d] < shape[d] {
        assert d in axes;
        assert ix[Position(axes, d)] < g.shape[Position(axes, d)];
      }
    }
  }

  /** Non-negative axes from the arguments, where each is in range. */
  function NonNegative(dims: seq<int>, n: nat): Option<seq<nat>> {
    if dims == [] then Some([])
    else if dims[0] + n < 0 || dims[0] >= n then None
    else
      match NonNegative(dims[1..], n)
      case None => None
      case Some(rest) => Some([if dims[0] >= 0 then dims[0] else dims[0] + n] + rest)
  }

  function Axes(dims: seq<int>, n: nat): Result<seq<nat>, LoraError> {
    var axes := NonNegative(dims, n);
    if axes.Some? && IsPermutation(axes.value, n) then Success(axes.value) else Failure(TorchError)
  }

  function PermuteTo(l: Lora, axes: seq<nat>): Result<Lora, LoraError>
    requires Valid(l) && IsPermutation(axes, |l.A.shape|)
  {
    var n := |l.A.shape|;
    if axes[n - 1] == n - 1 then
      if l.A.shape[..n - 2] != Ones(n - 2) then Failure(AssertionFailed)
      else MakeLora(l.A, Apply(PermuteGather(l.B.shape, axes), l.B))
    else if n == 2 then
      MakeLora(Apply(PermuteGather(l.B.shape, axes), l.B), Apply(PermuteGather(l.A.shape, axes), l.A))
    else Failure(NotImplemented)
  }

  function Permute(l: Lora, dims: seq<int>): Result<Lora, LoraError>
    requires Valid(l)
  {
    match Axes(dims, |l.A.shape|)
    case Failure(e) => Failure(e)
    case Success(axes) => PermuteTo(l, axes)
  }

  const IDENTITY_SOURCE: Index -> Index := ix => ix

  function Identity(shape: seq<nat>): Gather { Gather(shape, IDENTITY_SOURCE) }

  lemma LastAxisStays(axes: seq<nat>, d: nat)
    requires IsPermutation(axes, |axes|) && d < |axes| && axes[|axes| - 1] == |axes| - 1
    ensures d in axes && Position(axes, d) < |axes| && (Position(axes, d) == |axes| - 1 <==> d == |axes| - 1)
  {
    assert d in axes;
  }

  lemma PermuteRow(shape: seq<nat>, shape': seq<nat>, axes: seq<nat>, ix: Index, k: nat)
    requires |shape| == |shape'| == |axes| == |ix| >= 2 && IsPermutation(axes, |axes|)
    requires axes[|axes| - 1] == |axes| - 1
    ensures PermuteGather(shape, axes).source(RowIndex(ix, k)) == RowIndex(PermuteGather(shape', axes).source(ix), k)
    ensures PermuteGather(shape', axes).source(ix)[|axes| - 1] == ix[|axes| - 1]
  {
    var n := |axes|;
    var moved, origin := PermuteGather(shape, axes).source(RowIndex(ix, k)), PermuteGather(shape', axes).source(ix);
    forall d | 0 <= d < n ensures moved[d] == RowIndex(origin, k)[d] { LastAxisStays(axes, d); }
    LastAxisStays(axes, n - 1);
    assert |moved| == n == |RowIndex(origin, k)|;
  }

  lemma UnitColumn(shape: seq<nat>, ix: Index, ix': Index, k: nat)
    requires |shape| == |ix| == |ix'| >= 2 && shape[..|shape| - 2] == Ones(|shape| - 2)
    requires ix[|ix| - 1] == ix'[|ix| - 1]
    ensures ColIndex(shape, ix, k) == ColIndex(shape, ix', k)
  {
    ClampOnes(ix[..|ix| - 2]);
    ClampOnes(ix'[..|ix| - 2]);
  }

  lemma PermuteReads(shapeA: seq<nat>, shapeB: seq<nat>, s: seq<nat>, axes: seq<nat>, r: nat)
    requires |shapeA| == |shapeB| == |s| == |axes| >= 2 && IsPermutation(axes, |axes|)
    requires axes[|axes| - 1] == |axes| - 1 && shapeA[..|shapeA| - 2] == Ones(|shapeA| - 2)
    ensures ReadsThrough(shapeA, shapeA, r, Identity(shapeA), PermuteGather(shapeB, axes), PermuteGather(s, axes))
  {
    var ga, gb, g := Identity(shapeA), PermuteGather(shapeB, axes), PermuteGather(s, axes);
    forall ix: Index, k: nat | InBounds(ix, g.shape) && k < r ensures ReadsEntry(shapeA, shapeA, ga, gb, g, ix, k) {
      PermuteRow(shapeB, s, axes, ix, k);
      UnitColumn(shapeA, ix, g.source(ix), k);
    }
  }

  /** Keeping the last axis: the rows of B are permuted. */
  lemma PermuteRowsRefines(l: Lora, axes: seq<nat>)
    requires Valid(l) && IsPermutation(axes, |l.A.shape|) && axes[|axes| - 1] == |axes| - 1
    requires l.A.shape[..|axes| - 2] == Ones(|axes| - 2)
    ensures var l' := Lora(l.A, Apply(PermuteGather(l.B.shape, axes), l.B));
            && Valid(l') && Rank(l') == Rank(l)
            && Same(Dense(l'), Apply(PermuteGather(Shape(l), axes), Dense(l)))
  {
    var n := |axes|;
    var l' := Lora(l.A, Apply(PermuteGather(l.B.shape, axes), l.B));
    var l2 := Lora(Apply(Identity(l.A.shape), l.A), l'.B);
    assert l'.B.shape[n - 1] == l.B.shape[n - 1];
    PermutedShape(l, axes);
    PermuteFits(Shape(l), axes);
    PermuteReads(l.A.shape, l.B.shape, Shape(l), axes, Rank(l));
    GatherRefines(l, l2, Identity(l.A.shape), PermuteGather(l.B.shape, axes), PermuteGather(Shape(l), axes));
    SameFactors(l2, l');
  }

  lemma PermutedShape(l: Lora, axes: seq<nat>)
    requires Valid(l) && IsPermutation(axes, |l.A.shape|) && axes[|axes| - 1] == |axes| - 1
    ensures PermuteGather(l.B.shape, axes).shape[..|axes| - 1] + [l.A.shape[|axes| - 1]]
            == PermuteGather(Shape(l), axes).shape
  {
    var n := |axes|;
    forall i | 0 <= i < n - 1 ensures l.B.shape[axes[i]] == Shape(l)[axes[i]] {
      assert axes[i] != axes[n - 1];
    }
  }

  /** Equal factors, equal products. */
  lemma SameFactors(l: Lora, l': Lora)
    requires Valid(l) && Valid(l') && l.A.shape == l'.A.shape && l.B.shape == l'.B.shape
    requires forall ix :: l.A.at(ix) == l'.A.at(ix)
    requires forall ix :: l.B.at(ix) == l'.B.at(ix)
    ensures Same(Dense(l), Dense(l'))
  {
    forall ix | InBounds(ix, Shape(l)) ensures Dense(l).at(ix) == Dense(l').at(ix) {
      forall k: nat | k < Rank(l) ensures ReadsTerm(l', l, ix, ix, k) {
      }
      SumCommutes(l', l, Rank(l), ix, ix);
    }
  }

  /** Two axes swapped: the factors change places. */
  lemma TransposeRefines(l: Lora, axes: seq<nat>)
    requires Valid(l) && |l.A.shape| == 2 && IsPermutation(axes, 2) && axes[1] != 1
    ensures var l' := Lora(Apply(PermuteGather(l.B.shape, axes), l.B), Apply(PermuteGather(l.A.shape, axes), l.A));
            && Valid(l') && Rank(l') == Rank(l)
            && Same(Dense(l'), Apply(PermuteGather(Shape(l), axes), Dense(l)))
  {
    assert axes == [1, 0];
    var gb, ga, g := PermuteGather(l.B.shape, axes), PermuteGather(l.A.shape, axes), PermuteGather(Shape(l), axes);
    var l' := Lora(Apply(gb, l.B), Apply(ga, l.A));
    forall ix | InBounds(ix, g.shape) ensures Dense(l').at(ix) == Dense(l).at(g.source(ix)) {
      Swapped(l.A.shape, axes, ix);
      Swapped(l.B.shape, axes, ix);
      Swapped(Shape(l), axes, ix);
      forall k: nat | k < Rank(l) ensures Term(l', ix, k) == Term(l, g.source(ix), k) {
        TransposedReads(l, axes, ix, k);
        SwappedTerm(l, l', ix, g.source(ix), k);
      }
      SumEqual(Rank(l), (k: nat) => Term(l', ix, k), (k: nat) => Term(l, g.source(ix), k));
    }
  }

  lemma Swapped(shape: seq<nat>, axes: seq<nat>, ix: Index)
    requires |shape| == |ix| == 2 && axes == [1, 0]
    ensures IsPermutation(axes, 2) && PermuteGather(shape, axes).source(ix) == [ix[1], ix[0]]
    ensures PermuteGather(shape, axes).shape == [shape[1], shape[0]]
  {
    assert 0 in axes && 1 in axes;
    assert Position(axes[1..], 0) == 0;
    assert Position(axes, 0) == 1 && Position(axes, 1) == 0;
  }

  /** The factors of a transposed term are those of the old term, exchanged. */
  predicate ReadsSwapped(l: Lora, l': Lora, ix: Index, origin: Index, k: nat)
    requires |l.A.shape| == |l'.A.shape| == |ix| == |origin| == 2
  {
    && l'.B.at(RowIndex(ix, k)) == l.A.at(ColIndex(l.A.shape, origin, k))
    && l'.A.at(ColIndex(l'.A.shape, ix, k)) == l.B.at(RowIndex(origin, k))
  }

  lemma TransposedReads(l: Lora, axes: seq<nat>, ix: Index, k: nat)
    requires |l.A.shape| == |l.B.shape| == |ix| == 2 && axes == [1, 0] && IsPermutation(axes, 2)
    ensures var l' := Lora(Apply(PermuteGather(l.B.shape, axes), l.B), Apply(PermuteGather(l.A.shape, axes), l.A));
            && |l'.A.shape| == 2 && ReadsSwapped(l, l', ix, [ix[1], ix[0]], k)
  {
    var ga, gb, origin := PermuteGather(l.A.shape, axes), PermuteGather(l.B.shape, axes), [ix[1], ix[0]];
    FlatColumn(gb.shape, ix, k);
    FlatColumn(l.A.shape, origin, k);
    ApplyAt(gb, l.B, [k, ix[1]]);
    ApplyAt(ga, l.A, [ix[0], k]);
    Swapped(l.B.shape, axes, [k, ix[1]]);
    Swapped(l.A.shape, axes, [ix[0], k]);
  }

  lemma FlatColumn(shape: seq<nat>, ix: Index, k: nat)
    requires |shape| == |ix| == 2
    ensures ColIndex(shape, ix, k) == [k, ix[1]] && RowIndex(ix, k) == [ix[0], k]
  {
  }

  lemma SwappedTerm(l: Lora, l': Lora, ix: Index, origin: Index, k: nat)
    requires |l.A.shape| == |l'.A.shape| == |ix| == |origin| == 2 && ReadsSwapped(l, l', ix, origin, k)
    ensures Term(l', ix, k) == Term(l, origin, k)
  {
    Commuted(l.A.at(ColIndex(l.A.shape, origin, k)), l.B.at(RowIndex(origin, k)));
  }

  lemma Commuted(x: real, y: real)
    ensures x * y == y * x
  {
  }

  lemma PermuteToRefines(l: Lora, axes: seq<nat>)
    requires Valid(l) && IsPermutation(axes, |l.A.shape|) && PermuteTo(l, axes).Success?
    ensures var l' := PermuteTo(l, axes).value;
            && Valid(l') && Rank(l') == Rank(l)
            && Same(Dense(l'), Apply(PermuteGather(Shape(l), axes), Dense(l)))
  {
    if axes[|axes| - 1] == |axes| - 1 { PermuteRowsRefines(l, axes); } else { TransposeRefines(l, axes); }
  }

  /** A permute that succeeds permutes the product. */
  lemma PermuteRefines(l: Lora, dims: seq<int>)
    requires Valid(l) && Permute(l, dims).Success?
    ensures var l', axes := Permute(l, dims).value, Axes(dims, |l.A.shape|).value;
            && Valid(l') && Rank(l') == Rank(l) && IsPermutation(axes, |Shape(l)|)
            && Same(Dense(l'), Apply(PermuteGather(Shape(l), axes), Dense(l)))
  {
    PermuteToRefines(l, Axes(dims, |l.A.shape|).value);
  }

  /** `transpose`: a permute by the identity with two entries exchanged; negative axes count from the end. */
  function Transposed(n: nat, d0: int, d1: int): seq<int>
    requires 0 <= d0 + n && d0 < n && 0 <= d1 + n && d1 < n
  {
    var a, b := if d0 >= 0 then d0 else d0 + n, if d1 >= 0 then d1 else d1 + n;
    var dims: seq<int> := seq(n, i => i);
    dims[a := dims[b]][b := dims[a]]
  }

  function Transpose(l: Lora, d0: int, d1: int): Result<Lora, LoraError>
    requires Valid(l)
  {
    var n := |l.A.shape|;
    if 0 <= d0 + n && d0 < n && 0 <= d1 + n && d1 < n then Permute(l, Transposed(n, d0, d1)) else Failure(TorchError)
  }

  // ----- split -----

  function Total(sizes: seq<nat>): nat {
    if sizes == [] then 0 else Total(sizes[..|sizes| - 1]) + sizes[|sizes| - 1]
  }

  /** The sizes an integer split size stands for: full chunks and a last shorter one. */
  function ChunkSizes(n: nat, size: nat): (r: seq<nat>)
    requires size > 0
    ensures forall i :: 0 <= i < |r| - 1 ==> r[i] == size
    ensures r != [] && r[|r| - 1] <= size
    decreases n
  {
    if n <= size then [n] else [size] + ChunkSizes(n - size, size)
  }

  lemma {:induction false} TotalCons(x: nat, sizes: seq<nat>)
    ensures Total([x] + sizes) == x + Total(sizes)
    decreases |sizes|
  {
    if sizes != [] {
      var n := |sizes| - 1;
      TotalCons(x, sizes[..n]);
      assert ([x] + sizes)[..|sizes|] == [x] + sizes[..n];
    } else {
      assert [x] + sizes == [x] && [x][..0] == [];
    }
  }

  lemma {:induction false} ChunkSizesTotal(n: nat, size: nat)
    requires size > 0
    ensures Total(ChunkSizes(n, size)) == n
    decreases n
  {
    if n <= size {
      assert [n][..0] == [];
    } else {
      ChunkSizesTotal(n - size, size);
      TotalCons(size, ChunkSizes(n - size, size));
    }
  }

  function NarrowGather(shape: seq<nat>, dim: nat, offset: nat, len: nat): Gather
    requires dim < |shape|
  {
    Gather(shape[dim := len], ix => if dim < |ix| then ix[dim := ix[dim] + offset] else ix)
  }

  lemma NarrowFits(shape: seq<nat>, dim: nat, offset: nat, len: nat)
    requires dim < |shape| && offset + len <= shape[dim]
    ensures Fits(NarrowGather(shape, dim, offset, len), shape)
  {
    var g := NarrowGather(shape, dim, offset, len);
    forall ix | InBounds(ix, g.shape) ensures InBounds(g.source(ix), shape) {
      assert ix[dim] < g.shape[dim];
      forall i | 0 <= i < |ix| ensures g.source(ix)[i] < shape[i] {
        assert ix[i] < g.shape[i];
      }
    }
  }

  /** One chunk: whichever factor has the axis is narrowed; A only if it does not broadcast along it. */
  function Chunk(l: Lora, dim: nat, offset: nat, len: nat): Lora
    requires Valid(l) && dim < |l.A.shape|
  {
    var n := |l.A.shape|;
    var b := Apply(NarrowGather(l.B.shape, dim, offset, len), l.B);
    if dim == n - 1 then Lora(Apply(NarrowGather(l.A.shape, dim, offset, len), l.A), l.B)
    else if dim == n - 2 || l.A.shape[dim] == 1 then Lora(l.A, b)
    else Lora(Apply(NarrowGather(l.A.shape, dim, offset, len), l.A), b)
  }

  function SplitTo(l: Lora, sizes: seq<nat>, dim: nat): Result<seq<Lora>, LoraError>
    requires Valid(l) && dim < |l.A.shape|
  {
    if Total(sizes) != Shape(l)[dim] then Failure(TorchError)
    else Success(seq(|sizes|, i requires 0 <= i < |sizes| => Chunk(l, dim, Total(sizes[..i]), sizes[i])))
  }

  function Split(l: Lora, sizes: seq<nat>, dim: int): Result<seq<Lora>, LoraError>
    requires Valid(l)
  {
    var n := |l.A.shape|;
    if 0 <= dim + n && dim < n then SplitTo(l, sizes, if dim < 0 then dim + n else dim) else Failure(TorchError)
  }

  lemma {:induction false} TotalPrefix(sizes: seq<nat>, i: nat)
    requires i < |sizes|
    ensures Total(sizes[..i]) + sizes[i] <= Total(sizes)
    decreases |sizes|
  {
    if i < |sizes| - 1 {
      TotalPrefix(sizes[..|sizes| - 1], i);
      assert sizes[..|sizes| - 1][..i] == sizes[..i];
    }
  }

  lemma NarrowLastReads(sa: seq<nat>, sb: seq<nat>, s: seq<nat>, offset: nat, len: nat, r: nat)
    requires |sa| == |sb| == |s| >= 2
    ensures ReadsThrough(sa, sa[|s| - 1 := len], r, NarrowGather(sa, |s| - 1, offset, len), Identity(sb),
                         NarrowGather(s, |s| - 1, offset, len))
  {
    var n := |s|;
    var sa', ga, gb := sa[n - 1 := len], NarrowGather(sa, n - 1, offset, len), Identity(sb);
    var g := NarrowGather(s, n - 1, offset, len);
    forall ix: Index, k: nat | InBounds(ix, g.shape) && k < r ensures ReadsEntry(sa, sa', ga, gb, g, ix, k) {
      assert sa'[..n - 2] == sa[..n - 2] && g.source(ix)[..n - 2] == ix[..n - 2];
    }
  }

  lemma NarrowRowReads(sa: seq<nat>, sb: seq<nat>, s: seq<nat>, offset: nat, len: nat, r: nat)
    requires |sa| == |sb| == |s| >= 2
    ensures ReadsThrough(sa, sa, r, Identity(sa), NarrowGather(sb, |s| - 2, offset, len),
                         NarrowGather(s, |s| - 2, offset, len))
  {
    var n := |s|;
    var ga, gb, g := Identity(sa), NarrowGather(sb, n - 2, offset, len), NarrowGather(s, n - 2, offset, len);
    forall ix: Index, k: nat | InBounds(ix, g.shape) && k < r ensures ReadsEntry(sa, sa, ga, gb, g, ix, k) {
      assert g.source(ix)[..n - 2] == ix[..n - 2];
    }
  }

  lemma NarrowSharedReads(sa: seq<nat>, sb: seq<nat>, s: seq<nat>, dim: nat, offset: nat, len: nat, r: nat)
    requires |sa| == |sb| == |s| >= 2 && dim < |s| - 2 && sa[dim] == 1
    ensures ReadsThrough(sa, sa, r, Identity(sa), NarrowGather(sb, dim, offset, len), NarrowGather(s, dim, offset, len))
  {
    var n := |s|;
    var ga, gb, g := Identity(sa), NarrowGather(sb, dim, offset, len), NarrowGather(s, dim, offset, len);
    forall ix: Index, k: nat | InBounds(ix, g.shape) && k < r ensures ReadsEntry(sa, sa, ga, gb, g, ix, k) {
      assert Clamp(g.source(ix)[..n - 2], sa[..n - 2]) == Clamp(ix[..n - 2], sa[..n - 2]);
    }
  }

  lemma NarrowBothReads(sa: seq<nat>, sb: seq<nat>, s: seq<nat>, dim: nat, offset: nat, len: nat, r: nat)
    requires |sa| == |sb| == |s| >= 2 && dim < |s| - 2 && sa[dim] != 1
    ensures ReadsThrough(sa, sa[dim := len], r, NarrowGather(sa, dim, offset, len), NarrowGather(sb, dim, offset, len),
                         NarrowGather(s, dim, offset, len))
  {
    var n := |s|;
    var sa' := sa[dim := len];
    var ga, gb := NarrowGather(sa, dim, offset, len), NarrowGather(sb, dim, offset, len);
    var g := NarrowGather(s, dim, offset, len);
    forall ix: Index, k: nat | InBounds(ix, g.shape) && k < r ensures ReadsEntry(sa, sa', ga, gb, g, ix, k) {
      assert ix[dim] < g.shape[dim] == len;
      var c := Clamp(ix[..n - 2], sa'[..n - 2]);
      assert c[dim] == ix[dim];
      assert Clamp(g.source(ix)[..n - 2], sa[..n - 2]) == c[dim := ix[dim] + offset];
    }
  }

  /** A chunk of the tensor is the same chunk of its product, along any axis. */
  lemma ChunkRefines(l: Lora, dim: nat, offset: nat, len: nat)
    requires Valid(l) && dim < |l.A.shape| && offset + len <= Shape(l)[dim]
    ensures var l' := Chunk(l, dim, offset, len);
            && Valid(l') && Rank(l') == Rank(l)
            && Same(Dense(l'), Apply(NarrowGather(Shape(l), dim, offset, len), Dense(l)))
  {
    var n, l' := |l.A.shape|, Chunk(l, dim, offset, len);
    var g := NarrowGather(Shape(l), dim, offset, len);
    var na, nb := NarrowGather(l.A.shape, dim, offset, len), NarrowGather(l.B.shape, dim, offset, len);
    NarrowFits(Shape(l), dim, offset, len);
    if dim == n - 1 {
      NarrowLastReads(l.A.shape, l.B.shape, Shape(l), offset, len, Rank(l));
      ChunkFrom(l, l', na, Identity(l.B.shape), g);
    } else if dim == n - 2 {
      NarrowRowReads(l.A.shape, l.B.shape, Shape(l), offset, len, Rank(l));
      ChunkFrom(l, l', Identity(l.A.shape), nb, g);
    } else if l.A.shape[dim] == 1 {
      NarrowSharedReads(l.A.shape, l.B.shape, Shape(l), dim, offset, len, Rank(l));
      ChunkFrom(l, l', Identity(l.A.shape), nb, g);
    } else {
      NarrowBothReads(l.A.shape, l.B.shape, Shape(l), dim, offset, len, Rank(l));
      ChunkFrom(l, l', na, nb, g);
    }
  }

  lemma ChunkFrom(l: Lora, l': Lora, a: Gather, b: Gather, g: Gather)
    requires Valid(l) && Valid(l') && Rank(l') == Rank(l) && Shape(l') == g.shape && Fits(g, Shape(l))
    requires l'.A.shape == a.shape && l'.B.shape == b.shape
    requires forall ix :: l'.A.at(ix) == l.A.at(a.source(ix))
    requires forall ix :: l'.B.at(ix) == l.B.at(b.source(ix))
    requires ReadsThrough(l.A.shape, l'.A.shape, Rank(l), a, b, g)
    ensures Same(Dense(l'), Apply(g, Dense(l)))
  {
    var l2 := Lora(Apply(a, l.A), Apply(b, l.B));
    GatherRefines(l, l2, a, b, g);
    SameFactors(l', l2);
  }

  /** Splitting along any axis splits the product, chunk by chunk. */
  lemma SplitRefines(l: Lora, sizes: seq<nat>, dim: nat, i: nat)
    requires Valid(l) && dim < |l.A.shape| && SplitTo(l, sizes, dim).Success? && i < |sizes|
    ensures |SplitTo(l, sizes, dim).value| == |sizes|
    ensures var l' := SplitTo(l, sizes, dim).value[i];
            && Valid(l') && Rank(l') == Rank(l)
            && Same(Dense(l'), Apply(NarrowGather(Shape(l), dim, Total(sizes[..i]), sizes[i]), Dense(l)))
  {
    TotalPrefix(sizes, i);
    ChunkRefines(l, dim, Total(sizes[..i]), sizes[i]);
  }
}
