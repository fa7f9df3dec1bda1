/**
 Dense tensors as a shape and a value at every index, with the torch operations the low-rank
 conversion relies on. Operations that only move values around are gathers: a new shape and,
 for each new index, the old index its value comes from.
 */
module Tensors {
  import opened Division

  type Index = seq<nat>

  datatype Tensor = Tensor(shape: seq<nat>, at: Index -> real)

  predicate InBounds(ix: Index, shape: seq<nat>) {
    |ix| == |shape| && forall i :: 0 <= i < |ix| ==> ix[i] < shape[i]
  }

  /** Equal as tensors: the same shape and the same values inside it. */
  ghost predicate Same(a: Tensor, b: Tensor) {
    a.shape == b.shape && forall ix :: InBounds(ix, a.shape) ==> a.at(ix) == b.at(ix)
  }

  lemma SameTwice(a: Tensor, b: Tensor, c: Tensor)
    requires Same(a, b) && Same(b, c)
    ensures Same(a, c)
  {
  }

  function Constant(shape: seq<nat>, v: real): Tensor { Tensor(shape, _ => v) }

  datatype Gather = Gather(shape: seq<nat>, source: Index -> Index)

  /** Every new index comes from an index inside `origin`. */
  ghost predicate Fits(g: Gather, origin: seq<nat>) {
    forall ix :: InBounds(ix, g.shape) ==> InBounds(g.source(ix), origin)
  }

  function Apply(g: Gather, t: Tensor): Tensor {
    Tensor(g.shape, ix => t.at(g.source(ix)))
  }

  lemma GatherRespectsSame(g: Gather, a: Tensor, b: Tensor)
    requires Same(a, b) && Fits(g, a.shape)
    ensures Same(Apply(g, a), Apply(g, b))
  {
  }

  function Prod(shape: seq<nat>): nat
    decreases |shape|, 1
  {
    if shape == [] then 1 else ProdOf(shape[..|shape| - 1], shape[|shape| - 1])
  }

  function ProdOf(init: seq<nat>, last: nat): nat
    decreases |init|, 2
  {
    Prod(init) * last
  }

  // ----- sums -----

  function Sum(n: nat, f: nat -> real): real {
    if n == 0 then 0.0 else Sum(n - 1, f) + f(n - 1)
  }

  lemma {:induction false} SumEqual(n: nat, f: nat -> real, g: nat -> real)
    requires forall k: nat :: k < n ==> f(k) == g(k)
    ensures Sum(n, f) == Sum(n, g)
  {
    if n > 0 { SumEqual(n - 1, f, g); }
  }

  lemma {:induction false} SumScaled(n: nat, f: nat -> real, g: nat -> real, c: real)
    requires forall k: nat :: k < n ==> g(k) == c * f(k)
    ensures Sum(n, g) == c * Sum(n, f)
  {
    if n > 0 { SumScaled(n - 1, f, g, c); }
  }

  // ----- row-major order -----

  function Flatten(ix: Index, shape: seq<nat>): nat
    requires |ix| == |shape|
    decreases |ix|, 1
  {
    if ix == [] then 0
    else
      var n := |ix| - 1;
      FlattenOn(ix[..n], shape[..n], ix[n], shape[n])
  }

  function FlattenOn(ix: Index, shape: seq<nat>, j: nat, d: nat): nat
    requires |ix| == |shape|
    decreases |ix|, 2
  {
    Flatten(ix, shape) * d + j
  }

  lemma DivLess(f: nat, d: nat, p: nat)
    requires f < p * d
    ensures d > 0 && f / d < p && f % d < d
  {
    if d > 0 && f / d >= p { MulMonotone(p, f / d, d); }
  }

  function DivOr0(f: nat, d: nat): nat { if d == 0 then 0 else f / d }

  function ModOr0(f: nat, d: nat): nat { if d == 0 then 0 else f % d }

  /** The index at a row-major position; the dimensions that divide are not zero. */
  function Unflatten(f: nat, shape: seq<nat>): (ix: Index)
    ensures |ix| == |shape|
    decreases |shape|, 1
  {
    if shape == [] then [] else UnflattenOn(f, shape[..|shape| - 1], shape[|shape| - 1])
  }

  function UnflattenOn(f: nat, shape: seq<nat>, d: nat): (ix: Index)
    ensures |ix| == |shape| + 1
    decreases |shape|, 2
  {
    Unflatten(DivOr0(f, d), shape) + [ModOr0(f, d)]
  }

  /** The last axis passes through both ways. */
  lemma UnflattenSnoc(ix: Index, j: nat, shape: seq<nat>, d: nat, target: seq<nat>)
    requires |ix| == |shape| && j < d
    ensures Flatten(ix + [j], shape + [d]) == Flatten(ix, shape) * d + j
    ensures Unflatten(Flatten(ix + [j], shape + [d]), target + [d]) == Unflatten(Flatten(ix, shape), target) + [j]
  {
    assert (ix + [j])[..|ix|] == ix && (shape + [d])[..|ix|] == shape;
    assert (target + [d])[..|target|] == target;
    DivModOf(Flatten(ix, shape), d, j);
  }

  lemma {:induction false} FlattenBound(ix: Index, shape: seq<nat>)
    requires InBounds(ix, shape)
    ensures Flatten(ix, shape) < Prod(shape)
    decreases |ix|
  {
    if ix != [] {
      var n := |ix| - 1;
      FlattenBound(ix[..n], shape[..n]);
      var f, p, d := Flatten(ix[..n], shape[..n]), Prod(shape[..n]), shape[n];
      MulMonotone(f + 1, p, d);
    }
  }

  lemma {:induction false} UnflattenInBounds(f: nat, shape: seq<nat>)
    requires f < Prod(shape)
    ensures InBounds(Unflatten(f, shape), shape)
    decreases |shape|
  {
    if shape != [] {
      var n := |shape| - 1;
      var d, p := shape[n], Prod(shape[..n]);
      DivLess(f, d, p);
      UnflattenInBounds(f / d, shape[..n]);
    }
  }

  function Reshaped(t: Tensor, shape: seq<nat>): Tensor {
    Apply(ReshapeGather(t.shape, shape), t)
  }

  function ReshapeGather(given: seq<nat>, shape: seq<nat>): Gather {
    Gather(shape, ix => if |ix| == |shape| then Unflatten(Flatten(ix, shape), given) else [])
  }

  lemma ReshapeFits(given: seq<nat>, shape: seq<nat>)
    requires Prod(given) == Prod(shape)
    ensures Fits(ReshapeGather(given, shape), given)
  {
    forall ix | InBounds(ix, shape) ensures InBounds(Unflatten(Flatten(ix, shape), given), given) {
      FlattenBound(ix, shape);
      UnflattenInBounds(Flatten(ix, shape), given);
    }
  }
}
