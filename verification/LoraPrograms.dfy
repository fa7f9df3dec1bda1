/**
 Whole computations on low-rank tensors, in which the operations of `LoraTorchTensor` are composed in
 any way, and what a split and a cat undo.
 */
module LoraPrograms {
  import opened Wrappers
  import opened Tensors
  import opened Picks
  import opened LoraTensor
  import opened LoraIndexing
  import opened LoraTuples
  import opened LoraShapes
  import opened LoraCombine

  datatype Op =
    | GetAxis(pick: Pick)
    | GetAxes(picks: seq<Pick>)
    | GetAround(pre: seq<Pick>, post: seq<Pick>)
    | ReshapeAs(shape: seq<int>)
    | PermuteBy(dims: seq<int>)
    | TransposeOf(d0: int, d1: int)
    | ChunkOf(sizes: seq<nat>, dim: nat, which: nat)
    | TimesRows(other: Tensor)

  /** The operation on the factors. */
  function Run(l: Lora, op: Op): Result<Lora, LoraError>
    requires Valid(l)
  {
    match op
    case GetAxis(p) => GetFirst(l, p)
    case GetAxes(picks) => GetTuple(l, picks)
    case GetAround(pre, post) => GetEntries(l, Entries(pre) + [Dots] + Entries(post))
    case ReshapeAs(shape) => Reshape(l, shape)
    case PermuteBy(dims) => Permute(l, dims)
    case TransposeOf(d0, d1) => Transpose(l, d0, d1)
    case ChunkOf(sizes, dim, i) =>
      if dim < |l.A.shape| && i < |sizes| && SplitTo(l, sizes, dim).Success? then
        Success(SplitTo(l, sizes, dim).value[i])
      else Failure(TorchError)
    case TimesRows(other) => Scale(l, other)
  }

  /** The shape conditions beyond those the code checks itself. */
  predicate Supported(l: Lora, op: Op)
    requires Valid(l)
  {
    var n := |l.A.shape|;
    match op
    case GetAxis(p) => n > 2 ==> FirstSliceOk(p, l.A.shape[0], l.B.shape[0])
    case GetAxes(picks) => |picks| <= n && TupleOk(l, Padded(picks, n))
    case GetAround(pre, post) =>
      if post == [] then |pre| <= n && TupleOk(l, Padded(pre, n)) else EllipsisOk(l, pre, post)
    case ReshapeAs(shape) =>
      Rank(l) == 0 && Expanded(Shape(l), shape).Success? ==> Prod(Shape(l)) == Prod(Expanded(Shape(l), shape).value)
    case _ => true
  }

  /** The operation can be done on a dense tensor of this shape. */
  predicate DenseShapeOk(shape: seq<nat>, op: Op) {
    match op
    case GetAxis(p) => shape != []
    case GetAxes(picks) => |picks| <= |shape|
    case GetAround(pre, post) => |pre| + |post| <= |shape|
    case ReshapeAs(target) => Expanded(shape, target).Success?
    case PermuteBy(dims) => Axes(dims, |shape|).Success?
    case TransposeOf(d0, d1) =>
      var n := |shape|;
      0 <= d0 + n && d0 < n && 0 <= d1 + n && d1 < n && Axes(Transposed(n, d0, d1), n).Success?
    case ChunkOf(sizes, dim, i) => dim < |shape| && i < |sizes|
    case TimesRows(other) => |other.shape| <= |shape| && Compatible(other.shape, shape)
  }

  /** The values an operation other than scaling moves. */
  function OpGather(shape: seq<nat>, op: Op): Gather
    requires DenseShapeOk(shape, op) && !op.TimesRows?
  {
    match op
    case GetAxis(p) => PickGather(FirstPicks(p, |shape|), shape)
    case GetAxes(picks) => PickGather(Padded(picks, |shape|), shape)
    case GetAround(pre, post) => PickGather(Meant(pre, post, |shape|), shape)
    case ReshapeAs(target) => ReshapeGather(shape, Expanded(shape, target).value)
    case PermuteBy(dims) => PermuteGather(shape, Axes(dims, |shape|).value)
    case TransposeOf(d0, d1) => PermuteGather(shape, Axes(Transposed(|shape|, d0, d1), |shape|).value)
    case ChunkOf(sizes, dim, i) => NarrowGather(shape, dim, Total(sizes[..i]), sizes[i])
  }

  ghost predicate DenseOk(shape: seq<nat>, op: Op) {
    DenseShapeOk(shape, op) && (!op.TimesRows? ==> Fits(OpGather(shape, op), shape))
  }

  /** The operation on the dense tensor. */
  function RunDense(t: Tensor, op: Op): Tensor
    requires DenseShapeOk(t.shape, op)
  {
    if op.TimesRows? then Scaled(t, op.other) else Apply(OpGather(t.shape, op), t)
  }

  lemma RunDenseRespectsSame(a: Tensor, b: Tensor, op: Op)
    requires Same(a, b) && DenseOk(a.shape, op)
    ensures Same(RunDense(a, op), RunDense(b, op))
  {
    if op.TimesRows? {
      ScaledRespectsSame(a, b, op.other);
    } else {
      GatherRespectsSame(OpGather(a.shape, op), a, b);
    }
  }

  lemma ScaledRespectsSame(a: Tensor, b: Tensor, other: Tensor)
    requires Same(a, b) && |other.shape| <= |a.shape|
    ensures Same(Scaled(a, other), Scaled(b, other))
  {
    forall ix | InBounds(ix, Scaled(a, other).shape) ensures Scaled(a, other).at(ix) == Scaled(b, other).at(ix) {
      ShrunkInBounds(a.shape, other.shape, ix);
      ScaledAt(a, other, ix);
      ScaledAt(b, other, ix);
    }
  }

  lemma ShrunkInBounds(shape: seq<nat>, other: seq<nat>, ix: Index)
    requires InBounds(ix, Grown(shape, other))
    ensures InBounds(Clamp(ix, shape), shape)
  {
    forall i | 0 <= i < |ix| ensures Clamp(ix, shape)[i] < shape[i] {
      assert ix[i] < Grown(shape, other)[i];
    }
  }

  /** `l'` is what `l` becomes when its product is gathered by `g`. */
  ghost predicate RefinedBy(l: Lora, l': Lora, g: Gather)
    requires Valid(l)
  {
    Valid(l') && Rank(l') == Rank(l) && Fits(g, Shape(l)) && Same(Dense(l'), Apply(g, Dense(l)))
  }

  lemma AxisRefined(l: Lora, p: Pick)
    requires Valid(l) && Supported(l, GetAxis(p)) && GetFirst(l, p).Success?
    ensures RefinedBy(l, GetFirst(l, p).value, PickGather(FirstPicks(p, |Shape(l)|), Shape(l)))
  {
    GetFirstRefines(l, p);
    PickFits(FirstPicks(p, |l.A.shape|), Shape(l));
  }

  lemma TupleRefined(l: Lora, picks: seq<Pick>)
    requires Valid(l) && Supported(l, GetAxes(picks)) && GetTuple(l, picks).Success?
    ensures RefinedBy(l, GetTuple(l, picks).value, PickGather(Padded(picks, |Shape(l)|), Shape(l)))
  {
    GetTupleExactly(l, picks);
    PickFits(Padded(picks, |l.A.shape|), Shape(l));
  }

  lemma AroundRefined(l: Lora, pre: seq<Pick>, post: seq<Pick>)
    requires Valid(l) && Supported(l, GetAround(pre, post)) && Run(l, GetAround(pre, post)).Success?
    ensures RefinedBy(l, Run(l, GetAround(pre, post)).value, PickGather(Meant(pre, post, |Shape(l)|), Shape(l)))
  {
    if post == [] {
      assert Entries(pre) + [Dots] + Entries(post) == Entries(pre) + [Dots];
      LastEllipsis(l, pre);
      TupleRefined(l, pre);
    } else {
      EllipsisPicks(l, pre, post);
      PickFits(Meant(pre, post, |l.A.shape|), Shape(l));
    }
  }

  lemma ReshapeRefined(l: Lora, target: seq<nat>)
    requires Valid(l) && ReshapeTo(l, target).Success? && (Rank(l) == 0 ==> Prod(Shape(l)) == Prod(target))
    ensures RefinedBy(l, ReshapeTo(l, target).value, ReshapeGather(Shape(l), target))
  {
    ReshapeToRefines(l, target);
    ReshapeFits(Shape(l), target);
  }

  lemma PermuteRefined(l: Lora, axes: seq<nat>)
    requires Valid(l) && IsPermutation(axes, |l.A.shape|) && PermuteTo(l, axes).Success?
    ensures RefinedBy(l, PermuteTo(l, axes).value, PermuteGather(Shape(l), axes))
  {
    PermuteToRefines(l, axes);
    PermuteFits(Shape(l), axes);
  }

  lemma ChunkRefined(l: Lora, sizes: seq<nat>, dim: nat, i: nat)
    requires Valid(l) && dim < |l.A.shape| && i < |sizes| && SplitTo(l, sizes, dim).Success?
    ensures |SplitTo(l, sizes, dim).value| == |sizes|
    ensures RefinedBy(l, SplitTo(l, sizes, dim).value[i], NarrowGather(Shape(l), dim, Total(sizes[..i]), sizes[i]))
  {
    SplitRefines(l, sizes, dim, i);
    TotalPrefix(sizes, i);
    NarrowFits(Shape(l), dim, Total(sizes[..i]), sizes[i]);
  }

  lemma MoveRefines(l: Lora, op: Op)
    requires Valid(l) && Supported(l, op) && Run(l, op).Success? && !op.TimesRows?
    ensures DenseShapeOk(Shape(l), op) && RefinedBy(l, Run(l, op).value, OpGather(Shape(l), op))
  {
    match op
    case GetAxis(p) => AxisRefined(l, p);
    case GetAxes(picks) => TupleRefined(l, picks);
    case GetAround(pre, post) => AroundRefined(l, pre, post);
    case ReshapeAs(shape) => ReshapeRefined(l, Expanded(Shape(l), shape).value);
    case PermuteBy(dims) => PermuteRefined(l, Axes(dims, |l.A.shape|).value);
    case TransposeOf(d0, d1) => PermuteRefined(l, Axes(Transposed(|l.A.shape|, d0, d1), |l.A.shape|).value);
    case ChunkOf(sizes, dim, i) => ChunkRefined(l, sizes, dim, i);
    case TimesRows(_) =>
  }

  /** Each operation commutes with taking the product, and keeps the rank. */
  lemma OpRefines(l: Lora, op: Op)
    requires Valid(l) && Supported(l, op) && Run(l, op).Success?
    ensures var l' := Run(l, op).value;
            && Valid(l') && Rank(l') == Rank(l)
            && DenseOk(Shape(l), op) && Same(Dense(l'), RunDense(Dense(l), op))
  {
    if op.TimesRows? { ScaleRefines(l, op.other); } else { MoveRefines(l, op); }
  }

  // ----- computations -----

  /** A computation: given tensors, operations on one tensor, stacks and concatenations. */
  datatype Program =
    | Leaf(l: Lora)
    | Then(arg: Program, op: Op)
    | StackOf(parts: seq<Program>)
    | CatOf(parts: seq<Program>)

  /** All values, or the first failure. */
  function Collect<T>(rs: seq<Result<T, LoraError>>): (r: Result<seq<T>, LoraError>)
    ensures r.Success? <==> forall i :: 0 <= i < |rs| ==> rs[i].Success?
    ensures r.Success? ==> |r.value| == |rs| && forall i :: 0 <= i < |rs| ==> rs[i] == Success(r.value[i])
  {
    if rs == [] then Success([])
    else if rs[0].Failure? then Failure(rs[0].error)
    else
      match Collect(rs[1..])
      case Failure(e) => Failure(e)
      case Success(rest) => Success([rs[0].value] + rest)
  }

  /** The computation on the factors; it stops at factors that cannot be multiplied. */
  ghost function Eval(p: Program): Result<Lora, LoraError> {
    match p
    case Leaf(l) => Success(l)
    case Then(arg, op) =>
      (match Eval(arg)
       case Failure(e) => Failure(e)
       case Success(l) => if Valid(l) then Run(l, op) else Failure(TorchError))
    case StackOf(parts) =>
      (match Collect(seq(|parts|, i requires 0 <= i < |parts| => Eval(parts[i])))
       case Failure(e) => Failure(e)
       case Success(ls) => Stack(ls))
    case CatOf(parts) =>
      (match Collect(seq(|parts|, i requires 0 <= i < |parts| => Eval(parts[i])))
       case Failure(e) => Failure(e)
       case Success(ls) => CatLoras(ls))
  }

  ghost function Evals(parts: seq<Program>): seq<Result<Lora, LoraError>> {
    seq(|parts|, i requires 0 <= i < |parts| => Eval(parts[i]))
  }

  /** Given tensors are valid, and every operation meets the conditions beyond those the code checks. */
  ghost predicate AllSupported(p: Program) {
    match p
    case Leaf(l) => Valid(l)
    case Then(arg, op) =>
      AllSupported(arg) && (Eval(arg).Success? && Valid(Eval(arg).value) ==> Supported(Eval(arg).value, op))
    case StackOf(parts) => forall i :: 0 <= i < |parts| ==> AllSupported(parts[i])
    case CatOf(parts) =>
      && (forall i :: 0 <= i < |parts| ==> AllSupported(parts[i]))
      && var ls := Collect(Evals(parts));
         ls.Success? && ls.value != [] && |ls.value[0].A.shape| > 2 ==> BatchesAlign(ls.value)
  }

  /** Every tensor the computation starts from has this rank. */
  ghost predicate RankIs(p: Program, r: nat) {
    match p
    case Leaf(l) => Valid(l) && Rank(l) == r
    case Then(arg, _) => RankIs(arg, r)
    case StackOf(parts) => forall i :: 0 <= i < |parts| ==> RankIs(parts[i], r)
    case CatOf(parts) => forall i :: 0 <= i < |parts| ==> RankIs(parts[i], r)
  }

  /** The same computation on dense tensors, where it is defined. */
  ghost function DenseEval(p: Program): Result<Tensor, LoraError> {
    match p
    case Leaf(l) => if Valid(l) then Success(Dense(l)) else Failure(TorchError)
    case Then(arg, op) =>
      (match DenseEval(arg)
       case Failure(e) => Failure(e)
       case Success(t) => if DenseOk(t.shape, op) then Success(RunDense(t, op)) else Failure(TorchError))
    case StackOf(parts) =>
      (match Collect(seq(|parts|, i requires 0 <= i < |parts| => DenseEval(parts[i])))
       case Failure(e) => Failure(e)
       case Success(ts) => if ts != [] && SameShapes(ts) then Success(Stacked(ts)) else Failure(TorchError))
    case CatOf(parts) =>
      (match Collect(seq(|parts|, i requires 0 <= i < |parts| => DenseEval(parts[i])))
       case Failure(e) => Failure(e)
       case Success(ts) => if CanCat(ts) then Success(Cat(ts)) else Failure(TorchError))
  }

  ghost function DenseEvals(parts: seq<Program>): seq<Result<Tensor, LoraError>> {
    seq(|parts|, i requires 0 <= i < |parts| => DenseEval(parts[i]))
  }

  ghost predicate AllSame(a: seq<Tensor>, b: seq<Tensor>) {
    |a| == |b| && forall i :: 0 <= i < |a| ==> Same(a[i], b[i])
  }

  lemma StackedRespectsSame(a: seq<Tensor>, b: seq<Tensor>)
    requires AllSame(a, b) && a != [] && SameShapes(a)
    ensures SameShapes(b) && Same(Stacked(a), Stacked(b))
  {
    forall ix | InBounds(ix, Stacked(a).shape) ensures Stacked(a).at(ix) == Stacked(b).at(ix) {
      assert ix[0] < Stacked(a).shape[0] && InBounds(ix[1..], a[ix[0]].shape);
    }
  }

  lemma CatRespectsSame(a: seq<Tensor>, b: seq<Tensor>)
    requires AllSame(a, b) && CanCat(a)
    ensures CanCat(b) && Same(Cat(a), Cat(b))
  {
    assert Firsts(b) == Firsts(a);
    forall ix | InBounds(ix, Cat(a).shape) ensures Cat(a).at(ix) == Cat(b).at(ix) {
      assert ix[0] < Cat(a).shape[0] && ix == [ix[0]] + ix[1..];
      CatPlaceInBounds(a, ix);
      CatAt(a, ix[0], ix[1..]);
      CatAt(b, ix[0], ix[1..]);
    }
  }

  lemma CatPlaceInBounds(a: seq<Tensor>, ix: Index)
    requires CanCat(a) && InBounds(ix, Cat(a).shape)
    ensures var p, place := PartOf(Firsts(a), ix[0]), PlaceIn(Firsts(a), ix[0]);
            p < |a| && InBounds([place] + ix[1..], a[p].shape)
  {
    assert ix[0] < Cat(a).shape[0];
    PartInRange(Firsts(a), ix[0]);
    var p := PartOf(Firsts(a), ix[0]);
    assert a[p].shape == [a[p].shape[0]] + a[0].shape[1..];
    assert InBounds(ix[1..], a[0].shape[1..]) by {
      forall i | 0 <= i < |ix| - 1 ensures ix[1..][i] < a[0].shape[1..][i] { assert ix[i + 1] < Cat(a).shape[i + 1]; }
    }
  }

  /** What is proved of a computation: valid factors of the common rank, whose product the dense computation gives. */
  ghost predicate Refines(p: Program, l: Lora) {
    && Valid(l) && RankIs(p, Rank(l))
    && DenseEval(p).Success? && Same(Dense(l), DenseEval(p).value)
  }

  /**
   Every computation whose operations are supported gives the factors of what the same computation
   gives on the dense products, and keeps the rank.
   */
  lemma {:induction false} ProgramRefines(p: Program)
    requires AllSupported(p) && Eval(p).Success?
    ensures Refines(p, Eval(p).value)
    decreases p, 0
  {
    match p
    case Leaf(l) =>
    case Then(arg, op) =>
      ProgramRefines(arg);
      ThenPart(arg, op, Eval(arg).value);
    case StackOf(parts) =>
      EvalStack(parts);
      var ls := Collect(Evals(parts)).value;
      forall i | 0 <= i < |parts| ensures Refines(parts[i], ls[i]) { PartRefines(parts, i, ls); }
      StackPart(parts, ls);
    case CatOf(parts) =>
      EvalCat(parts);
      var ls := Collect(Evals(parts)).value;
      forall i | 0 <= i < |parts| ensures Refines(parts[i], ls[i]) { PartRefines(parts, i, ls); }
      CatPart(parts, ls, Eval(p).value);
  }

  lemma {:induction false} PartRefines(parts: seq<Program>, i: nat, ls: seq<Lora>)
    requires i < |parts| && AllSupported(parts[i]) && Collect(Evals(parts)) == Success(ls)
    ensures Refines(parts[i], ls[i])
    decreases parts[i], 1
  {
    assert Evals(parts)[i] == Success(ls[i]);
    ProgramRefines(parts[i]);
  }

  lemma EvalStack(parts: seq<Program>)
    requires Eval(StackOf(parts)).Success?
    ensures Collect(Evals(parts)).Success? && Eval(StackOf(parts)) == Stack(Collect(Evals(parts)).value)
  {
    assert Evals(parts) == seq(|parts|, i requires 0 <= i < |parts| => Eval(parts[i]));
  }

  lemma EvalCat(parts: seq<Program>)
    requires Eval(CatOf(parts)).Success?
    ensures Collect(Evals(parts)).Success? && Eval(CatOf(parts)) == CatLoras(Collect(Evals(parts)).value)
  {
    assert Evals(parts) == seq(|parts|, i requires 0 <= i < |parts| => Eval(parts[i]));
  }

  lemma ThenPart(arg: Program, op: Op, l: Lora)
    requires Refines(arg, l) && Supported(l, op) && Run(l, op).Success?
    ensures Refines(Then(arg, op), Run(l, op).value)
  {
    OpRefines(l, op);
    var t, l' := DenseEval(arg).value, Run(l, op).value;
    RunDenseRespectsSame(Dense(l), t, op);
    SameTwice(Dense(l'), RunDense(Dense(l), op), RunDense(t, op));
    assert DenseEval(Then(arg, op)) == Success(RunDense(t, op));
  }

  lemma PartsDense(parts: seq<Program>, ls: seq<Lora>)
    requires |ls| == |parts| && forall i :: 0 <= i < |parts| ==> Refines(parts[i], ls[i])
    ensures (forall i :: 0 <= i < |ls| ==> Valid(ls[i]))
    ensures Collect(DenseEvals(parts)).Success? && AllSame(Denses(ls), Collect(DenseEvals(parts)).value)
  {
  }

  lemma StackPart(parts: seq<Program>, ls: seq<Lora>)
    requires |ls| == |parts| && (forall i :: 0 <= i < |parts| ==> Refines(parts[i], ls[i])) && Stack(ls).Success?
    ensures Refines(StackOf(parts), Stack(ls).value)
  {
    PartsDense(parts, ls);
    StackRefines(ls);
    EqualRows(ls);
    PartsRank(parts, ls, Rank(ls[0]));
    var ts := Collect(DenseEvals(parts)).value;
    StackedRespectsSame(Denses(ls), ts);
    SameTwice(Dense(Stack(ls).value), Stacked(Denses(ls)), Stacked(ts));
    DenseStack(parts);
  }

  /** Tensors that can be stacked have one rank and one shape. */
  lemma EqualRows(ls: seq<Lora>)
    requires (forall i :: 0 <= i < |ls| ==> Valid(ls[i])) && SameShapes(As(ls)) && SameShapes(Bs(ls))
    ensures forall i :: 0 <= i < |ls| ==> Rank(ls[i]) == Rank(ls[0])
    ensures SameShapes(Denses(ls))
  {
    forall i | 0 <= i < |ls| ensures Rank(ls[i]) == Rank(ls[0]) && Shape(ls[i]) == Shape(ls[0]) {
      assert As(ls)[i].shape == As(ls)[0].shape && Bs(ls)[i].shape == Bs(ls)[0].shape;
    }
  }

  lemma DenseStack(parts: seq<Program>)
    ensures var ts := Collect(DenseEvals(parts));
            ts.Success? && ts.value != [] && SameShapes(ts.value)
            ==> DenseEval(StackOf(parts)) == Success(Stacked(ts.value))
  {
    assert DenseEvals(parts) == seq(|parts|, i requires 0 <= i < |parts| => DenseEval(parts[i]));
  }

  lemma DenseCat(parts: seq<Program>)
    ensures var ts := Collect(DenseEvals(parts));
            ts.Success? && CanCat(ts.value) ==> DenseEval(CatOf(parts)) == Success(Cat(ts.value))
  {
    assert DenseEvals(parts) == seq(|parts|, i requires 0 <= i < |parts| => DenseEval(parts[i]));
  }

  lemma CatPart(parts: seq<Program>, ls: seq<Lora>, l': Lora)
    requires |ls| == |parts| && (forall i :: 0 <= i < |parts| ==> Refines(parts[i], ls[i]))
    requires CatLoras(ls) == Success(l') && (|ls[0].A.shape| > 2 ==> BatchesAlign(ls))
    ensures Refines(CatOf(parts), l')
  {
    PartsDense(parts, ls);
    CatSame(ls, Collect(DenseEvals(parts)).value);
    PartsRank(parts, ls, Rank(l'));
    DenseCat(parts);
  }

  lemma PartsRank(parts: seq<Program>, ls: seq<Lora>, r: nat)
    requires |ls| == |parts| && forall i :: 0 <= i < |parts| ==> Valid(ls[i]) && RankIs(parts[i], Rank(ls[i]))
    requires forall i :: 0 <= i < |ls| ==> Rank(ls[i]) == r
    ensures RankIs(StackOf(parts), r) && RankIs(CatOf(parts), r)
  {
  }

  lemma CatSame(ls: seq<Lora>, ts: seq<Tensor>)
    requires ls != [] && (forall i :: 0 <= i < |ls| ==> Valid(ls[i])) && CatLoras(ls).Success?
    requires |ls[0].A.shape| > 2 ==> BatchesAlign(ls)
    requires AllSame(Denses(ls), ts)
    ensures var l' := CatLoras(ls).value;
            && Valid(l') && CanCat(ts) && Same(Dense(l'), Cat(ts))
            && forall i :: 0 <= i < |ls| ==> Rank(ls[i]) == Rank(l')
  {
    var l' := CatLoras(ls).value;
    CatShapes(ls, l');
    CatRefines(ls);
    CatRespectsSame(Denses(ls), ts);
    SameTwice(Dense(l'), Cat(Denses(ls)), Cat(ts));
  }

  // ----- cat undoes split -----

  lemma {:induction false} PartOffset(sizes: seq<nat>, x: nat)
    requires x < Total(sizes)
    ensures PartOf(sizes, x) < |sizes| && Total(sizes[..PartOf(sizes, x)]) + PlaceIn(sizes, x) == x
    decreases |sizes|
  {
    PartInRange(sizes, x);
    assert sizes == [sizes[0]] + sizes[1..];
    TotalCons(sizes[0], sizes[1..]);
    if x >= sizes[0] {
      PartOffset(sizes[1..], x - sizes[0]);
      var p := PartOf(sizes[1..], x - sizes[0]);
      TotalCons(sizes[0], sizes[1..][..p]);
      assert sizes[..p + 1] == [sizes[0]] + sizes[1..][..p];
    }
  }

  /** Concatenating the row chunks of a matrix gives the matrix back, factor by factor. */
  lemma CatUndoesSplit(l: Lora, sizes: seq<nat>)
    requires Valid(l) && |l.A.shape| == 2 && sizes != [] && SplitTo(l, sizes, 0).Success?
    ensures var r := CatLoras(SplitTo(l, sizes, 0).value);
            r.Success? && r.value.A == l.A && Same(r.value.B, l.B)
  {
    var parts := SplitTo(l, sizes, 0).value;
    var bs := Bs(parts);
    RowChunks(l, sizes);
    forall ix | InBounds(ix, l.B.shape) ensures Cat(bs).at(ix) == l.B.at(ix) {
      RowOfChunks(l.B, sizes, bs, ix);
    }
    assert Cat(bs).shape == l.B.shape;
  }

  lemma RowChunks(l: Lora, sizes: seq<nat>)
    requires Valid(l) && |l.A.shape| == 2 && sizes != [] && SplitTo(l, sizes, 0).Success?
    ensures var parts := SplitTo(l, sizes, 0).value;
            && |parts| == |sizes| && SharedA(parts) && parts[0].A == l.A
            && CanCat(Bs(parts)) && Firsts(Bs(parts)) == sizes
            && forall i :: 0 <= i < |sizes| ==>
                 Bs(parts)[i] == Apply(NarrowGather(l.B.shape, 0, Total(sizes[..i]), sizes[i]), l.B)
  {
    var parts := SplitTo(l, sizes, 0).value;
    forall i | 0 <= i < |sizes|
      ensures parts[i] == Lora(l.A, Apply(NarrowGather(l.B.shape, 0, Total(sizes[..i]), sizes[i]), l.B))
      ensures Bs(parts)[i].shape == [sizes[i], l.B.shape[1]]
    {
    }
  }

  lemma RowOfChunks(b: Tensor, sizes: seq<nat>, parts: seq<Tensor>, ix: Index)
    requires CanCat(parts) && Firsts(parts) == sizes && b.shape != [] && |ix| == |b.shape| && ix[0] < Total(sizes)
    requires forall i :: 0 <= i < |sizes| ==>
               parts[i] == Apply(NarrowGather(b.shape, 0, Total(sizes[..i]), sizes[i]), b)
    ensures Cat(parts).at(ix) == b.at(ix)
  {
    var x, rest := ix[0], ix[1..];
    PartOffset(sizes, x);
    var p, place := PartOf(sizes, x), PlaceIn(sizes, x);
    CatAt(parts, x, rest);
    ChunkRow(b, parts[p], Total(sizes[..p]), sizes[p], place, rest, x);
    assert [x] + rest == ix;
  }

  lemma ChunkRow(b: Tensor, t: Tensor, offset: nat, len: nat, place: nat, rest: Index, x: nat)
    requires b.shape != [] && t == Apply(NarrowGather(b.shape, 0, offset, len), b) && offset + place == x
    ensures t.at([place] + rest) == b.at([x] + rest)
  {
    assert ([place] + rest)[0 := place + offset] == [x] + rest;
  }
}
