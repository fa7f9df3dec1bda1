/** Torch indexing by integers and slices, one pick per axis, as gathers. */
module Picks {
  import opened Wrappers
  import opened Division
  import opened Tensors

  /** One entry of an index tuple: an integer, or a slice with a positive step. */
  datatype Pick = At(index: int) | Slice(start: Option<int>, stop: Option<int>, step: nat)

  const FULL := Slice(None, None, 1)

  function Bound(v: Option<int>, fallback: nat, dim: nat): nat
    requires fallback <= dim
  {
    match v
    case None => fallback
    case Some(x) => if x + dim < 0 then 0 else if x < 0 then x + dim else if x > dim then dim else x
  }

  function Start(p: Pick, dim: nat): nat
    requires p.Slice?
  {
    Bound(p.start, 0, dim)
  }

  /** How many steps of size `step` start below `n`: the rounded-up quotient. */
  function Steps(n: nat, step: nat): nat {
    if n == 0 || step == 0 then 0 else 1 + Steps(if n > step then n - step else 0, step)
  }

  function Len(p: Pick, dim: nat): nat
    requires p.Slice?
  {
    var lo, hi := Start(p, dim), Bound(p.stop, dim, dim);
    Steps(if hi <= lo then 0 else hi - lo, p.step)
  }

  /** A non-negative or negative integer index, where torch accepts it. */
  function Norm(i: int, dim: nat): nat { if i >= 0 then i else if i + dim >= 0 then i + dim else 0 }

  predicate PickOk(p: Pick, dim: nat) {
    match p
    case At(i) => 0 <= i + dim && i < dim
    case Slice(_, _, step) => step > 0
  }

  predicate PicksOk(picks: seq<Pick>, shape: seq<nat>) {
    |picks| == |shape| && forall i :: 0 <= i < |picks| ==> PickOk(picks[i], shape[i])
  }

  /** The element a slice has at position `x`: `x` steps from its start. */
  function Elem(p: Pick, dim: nat, x: nat): nat
    requires p.Slice?
    decreases x
  {
    if x == 0 then Start(p, dim) else Elem(p, dim, x - 1) + p.step
  }

  lemma {:induction false} ElemIs(p: Pick, dim: nat, x: nat)
    requires p.Slice?
    ensures Elem(p, dim, x) == Start(p, dim) + x * p.step
    decreases x
  {
    if x > 0 {
      ElemIs(p, dim, x - 1);
      assert x * p.step == (x - 1) * p.step + p.step;
    }
  }

  lemma {:induction false} FullElem(dim: nat, x: nat)
    ensures Elem(FULL, dim, x) == x
    decreases x
  {
    if x > 0 { FullElem(dim, x - 1); }
  }

  lemma {:induction false} StepBelow(n: nat, step: nat, x: nat)
    requires x < Steps(n, step)
    ensures x * step < n
    decreases n
  {
    if x > 0 {
      StepBelow(n - step, step, x - 1);
      assert x * step == (x - 1) * step + step;
    }
  }

  lemma {:induction false} UnitSteps(n: nat)
    ensures Steps(n, 1) == n
  {
    if n > 0 { UnitSteps(n - 1); }
  }

  lemma SliceElement(p: Pick, dim: nat, x: nat)
    requires p.Slice? && x < Len(p, dim)
    ensures Elem(p, dim, x) < dim
  {
    ElemIs(p, dim, x);
    StepBelow(Bound(p.stop, dim, dim) - Start(p, dim), p.step, x);
  }

  /** A slice that keeps the whole axis keeps every element in place. */
  lemma WholeSlice(p: Pick, dim: nat, x: nat)
    requires p.Slice? && p.step > 0 && Len(p, dim) == dim && x < dim
    ensures Elem(p, dim, x) == x
  {
    SliceElement(p, dim, dim - 1);
    ElemIs(p, dim, dim - 1);
    ElemIs(p, dim, x);
    WholeStep(Start(p, dim), p.step, dim, x);
  }

  lemma WholeStep(start: nat, step: nat, dim: nat, x: nat)
    requires step > 0 && x < dim && start + (dim - 1) * step < dim
    ensures start + x * step == x
  {
    MulMonotone(1, step, dim - 1);
    if step > 1 { MulMonotone(2, step, dim - 1); }
  }

  lemma FullSlice(dim: nat)
    ensures Len(FULL, dim) == dim && Start(FULL, dim) == 0
  {
    UnitSteps(dim);
  }

  function PickDims(picks: seq<Pick>, shape: seq<nat>): seq<nat>
    requires |picks| == |shape|
  {
    if picks == [] then []
    else
      var n := |picks| - 1;
      PickDims(picks[..n], shape[..n]) + if picks[n].At? then [] else [Len(picks[n], shape[n])]
  }

  function Source(picks: seq<Pick>, shape: seq<nat>, ix: Index): (r: Index)
    requires |picks| == |shape|
    ensures |r| == |picks|
    decreases |picks|
  {
    if picks == [] then []
    else
      var n := |picks| - 1;
      match picks[n]
      case At(i) => Source(picks[..n], shape[..n], ix) + [Norm(i, shape[n])]
      case Slice(_, _, _) =>
        if ix == [] then Source(picks[..n], shape[..n], []) + [0]
        else Source(picks[..n], shape[..n], ix[..|ix| - 1]) + [Elem(picks[n], shape[n], ix[|ix| - 1])]
  }

  function PickGather(picks: seq<Pick>, shape: seq<nat>): Gather
    requires |picks| == |shape|
  {
    Gather(PickDims(picks, shape), ix => Source(picks, shape, ix))
  }

  lemma {:induction false} SourceInBounds(picks: seq<Pick>, shape: seq<nat>, ix: Index)
    requires PicksOk(picks, shape) && InBounds(ix, PickDims(picks, shape))
    ensures InBounds(Source(picks, shape, ix), shape)
    decreases |picks|
  {
    if picks != [] {
      var n := |picks| - 1;
      var dims := PickDims(picks[..n], shape[..n]);
      if picks[n].At? {
        assert PickDims(picks, shape) == dims;
        SourceInBounds(picks[..n], shape[..n], ix);
      } else {
        assert ix[..|ix| - 1] == ix[..|dims|];
        SourceInBounds(picks[..n], shape[..n], ix[..|ix| - 1]);
        SliceElement(picks[n], shape[n], ix[|ix| - 1]);
      }
    }
  }

  lemma PickFits(picks: seq<Pick>, shape: seq<nat>)
    requires PicksOk(picks, shape)
    ensures Fits(PickGather(picks, shape), shape)
  {
    forall ix | InBounds(ix, PickDims(picks, shape)) ensures InBounds(Source(picks, shape, ix), shape) {
      SourceInBounds(picks, shape, ix);
    }
  }

  /** Appending a slice for one more axis. */
  lemma SourceSnoc(picks: seq<Pick>, shape: seq<nat>, p: Pick, d: nat, ix: Index, j: nat)
    requires |picks| == |shape| && p.Slice?
    ensures PickDims(picks + [p], shape + [d]) == PickDims(picks, shape) + [Len(p, d)]
    ensures Source(picks + [p], shape + [d], ix + [j]) == Source(picks, shape, ix) + [Elem(p, d, j)]
  {
    assert (picks + [p])[..|picks|] == picks && (shape + [d])[..|picks|] == shape;
    assert (ix + [j])[..|ix|] == ix;
  }

  // ----- the same picks on a broadcast operand -----

  /** The index a broadcast operand is read at: 0 along every axis of size 1. */
  function Clamp(ix: Index, shape: seq<nat>): (r: Index)
    requires |ix| == |shape|
    ensures |r| == |ix|
  {
    seq(|ix|, i requires 0 <= i < |ix| => if shape[i] == 1 then 0 else ix[i])
  }

  predicate Broadcasts(a: seq<nat>, b: seq<nat>) {
    |a| == |b| && forall i :: 0 <= i < |a| ==> a[i] == 1 || a[i] == b[i]
  }

  lemma ClampSnoc(ix: Index, shape: seq<nat>, j: nat, d: nat)
    requires |ix| == |shape|
    ensures Clamp(ix + [j], shape + [d]) == Clamp(ix, shape) + [if d == 1 then 0 else j]
  {
  }

  /** Along one axis, picking from the broadcast operand agrees with picking from the full one. */
  ghost predicate AxisAgrees(pa: Pick, da: nat, pb: Pick, db: nat) {
    && (pa.At? <==> pb.At?)
    && match pb
       case At(i) => Norm(pa.index, da) == if da == 1 then 0 else Norm(i, db)
       case Slice(_, _, _) =>
         && (Len(pa, da) == 1 || Len(pa, da) == Len(pb, db))
         && forall x: nat :: x < Len(pb, db) ==> ElemAgrees(pa, da, pb, db, x)
  }

  predicate ElemAgrees(pa: Pick, da: nat, pb: Pick, db: nat, x: nat)
    requires pa.Slice? && pb.Slice?
  {
    Elem(pa, da, if Len(pa, da) == 1 then 0 else x) == if da == 1 then 0 else Elem(pb, db, x)
  }

  ghost predicate AxesAgree(pa: seq<Pick>, a: seq<nat>, pb: seq<Pick>, b: seq<nat>) {
    |pa| == |a| == |pb| == |b| && forall i :: 0 <= i < |a| ==> AxisAgrees(pa[i], a[i], pb[i], b[i])
  }

  /** Appending an integer index for one more axis. */
  lemma SourceAt(picks: seq<Pick>, shape: seq<nat>, p: Pick, d: nat, ix: Index)
    requires |picks| == |shape| && p.At?
    ensures PickDims(picks + [p], shape + [d]) == PickDims(picks, shape)
    ensures Source(picks + [p], shape + [d], ix) == Source(picks, shape, ix) + [Norm(p.index, d)]
  {
    assert (picks + [p])[..|picks|] == picks && (shape + [d])[..|picks|] == shape;
  }

  lemma BroadcastsSnoc(a: seq<nat>, b: seq<nat>, m: nat, n: nat)
    requires Broadcasts(a, b) && (m == 1 || m == n)
    ensures Broadcasts(a + [m], b + [n])
  {
  }

  /** What is proved for the axes so far: the two operands still broadcast, and the same elements are read. */
  ghost predicate Agreed(pa: seq<Pick>, a: seq<nat>, pb: seq<Pick>, b: seq<nat>, ix: Index) {
    && |pa| == |a| == |pb| == |b|
    && Broadcasts(PickDims(pa, a), PickDims(pb, b)) && |ix| == |PickDims(pa, a)|
    && Source(pa, a, Clamp(ix, PickDims(pa, a))) == Clamp(Source(pb, b, ix), a)
  }

  lemma AgreeAt(pa: seq<Pick>, a: seq<nat>, pb: seq<Pick>, b: seq<nat>, p: Pick, q: Pick, m: nat, n: nat, ix: Index)
    requires Agreed(pa, a, pb, b, ix) && AxisAgrees(p, m, q, n) && q.At?
    ensures Agreed(pa + [p], a + [m], pb + [q], b + [n], ix)
  {
    SourceAt(pa, a, p, m, Clamp(ix, PickDims(pa, a)));
    SourceAt(pb, b, q, n, ix);
    ClampSnoc(Source(pb, b, ix), a, Norm(q.index, n), m);
  }

  lemma AgreeSlice(pa: seq<Pick>, a: seq<nat>, pb: seq<Pick>, b: seq<nat>, p: Pick, q: Pick, m: nat, n: nat,
                   ix: Index, j: nat)
    requires Agreed(pa, a, pb, b, ix) && AxisAgrees(p, m, q, n) && q.Slice? && j < Len(q, n)
    ensures Agreed(pa + [p], a + [m], pb + [q], b + [n], ix + [j])
  {
    var ja := if Len(p, m) == 1 then 0 else j;
    var sa, sb := Elem(p, m, ja), Elem(q, n, j);
    SourceSnoc(pa, a, p, m, Clamp(ix, PickDims(pa, a)), ja);
    SourceSnoc(pb, b, q, n, ix, j);
    ClampSnoc(ix, PickDims(pa, a), j, Len(p, m));
    ClampSnoc(Source(pb, b, ix), a, sb, m);
    BroadcastsSnoc(PickDims(pa, a), PickDims(pb, b), Len(p, m), Len(q, n));
    assert ElemAgrees(p, m, q, n, j);
  }

  /** Picking from both operands keeps them broadcastable and reads the same elements. */
  lemma {:induction false} AgreeingPicks(pa: seq<Pick>, a: seq<nat>, pb: seq<Pick>, b: seq<nat>, ix: Index)
    requires AxesAgree(pa, a, pb, b) && InBounds(ix, PickDims(pb, b))
    ensures Agreed(pa, a, pb, b, ix)
    decreases |a|
  {
    if a != [] {
      var n := |a| - 1;
      var pa', a', pb', b' := pa[..n], a[..n], pb[..n], b[..n];
      assert pa' + [pa[n]] == pa && a' + [a[n]] == a && pb' + [pb[n]] == pb && b' + [b[n]] == b;
      assert AxisAgrees(pa[n], a[n], pb[n], b[n]);
      if pb[n].At? {
        AgreeingPicks(pa', a', pb', b', ix);
        AgreeAt(pa', a', pb', b', pa[n], pb[n], a[n], b[n], ix);
      } else {
        var init, j := ix[..|ix| - 1], ix[|ix| - 1];
        assert ix == init + [j];
        assert |init| == |PickDims(pb', b')|;
        AgreeingPicks(pa', a', pb', b', init);
        AgreeSlice(pa', a', pb', b', pa[n], pb[n], a[n], b[n], init, j);
      }
    }
  }

  /** Both operands lose the same axes. */
  predicate SameAxes(pa: seq<Pick>, a: seq<nat>, pb: seq<Pick>, b: seq<nat>) {
    |pa| == |a| == |pb| == |b| && forall i :: 0 <= i < |pa| ==> (pa[i].At? <==> pb[i].At?)
  }

  predicate SlicesBroadcast(pa: seq<Pick>, a: seq<nat>, pb: seq<Pick>, b: seq<nat>)
    requires SameAxes(pa, a, pb, b)
  {
    forall i :: 0 <= i < |pa| && pb[i].Slice? ==> Len(pa[i], a[i]) == 1 || Len(pa[i], a[i]) == Len(pb[i], b[i])
  }

  /** The picked operands broadcast exactly when every sliced axis does. */
  lemma {:induction false} PickDimsBroadcast(pa: seq<Pick>, a: seq<nat>, pb: seq<Pick>, b: seq<nat>)
    requires SameAxes(pa, a, pb, b)
    ensures Broadcasts(PickDims(pa, a), PickDims(pb, b)) <==> SlicesBroadcast(pa, a, pb, b)
    ensures |PickDims(pa, a)| == |PickDims(pb, b)|
    decreases |pa|
  {
    if pa != [] {
      var n := |pa| - 1;
      PickDimsBroadcast(pa[..n], a[..n], pb[..n], b[..n]);
      assert SlicesBroadcast(pa, a, pb, b) <==>
        SlicesBroadcast(pa[..n], a[..n], pb[..n], b[..n])
        && (pb[n].Slice? ==> Len(pa[n], a[n]) == 1 || Len(pa[n], a[n]) == Len(pb[n], b[n]));
      if pb[n].Slice? {
        BroadcastsUnsnoc(PickDims(pa[..n], a[..n]), PickDims(pb[..n], b[..n]), Len(pa[n], a[n]), Len(pb[n], b[n]));
      } else {
        assert PickDims(pa, a) == PickDims(pa[..n], a[..n]) && PickDims(pb, b) == PickDims(pb[..n], b[..n]);
      }
    }
  }

  lemma BroadcastsUnsnoc(a: seq<nat>, b: seq<nat>, m: nat, n: nat)
    requires |a| == |b|
    ensures Broadcasts(a + [m], b + [n]) <==> Broadcasts(a, b) && (m == 1 || m == n)
  {
    assert (a + [m])[|a|] == m && (b + [n])[|b|] == n;
    assert forall i :: 0 <= i < |a| ==> (a + [m])[i] == a[i] && (b + [n])[i] == b[i];
  }
}
