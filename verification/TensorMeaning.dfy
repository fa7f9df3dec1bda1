/**
 What the dense operations are that the factors are compared with, entry by entry: the product of two matrices,
 row-major reshapes, the order of stacks, concatenations and chunks, and scaling.
 */
module TensorMeaning {
  import opened Tensors
  import opened Picks
  import opened LoraTensor
  import opened LoraShapes
  import opened LoraCombine
  import opened LoraAccepts

  /** Row `i` of B times column `j` of A. */
  lemma MatrixProduct(l: Lora, i: nat, j: nat)
    requires Valid(l) && |l.A.shape| == 2
    ensures Dense(l).shape == [l.B.shape[0], l.A.shape[1]]
    ensures Dense(l).at([i, j]) == Sum(l.B.shape[1], (k: nat) => l.B.at([i, k]) * l.A.at([k, j]))
  {
    var ix := [i, j];
    forall k: nat | k < Rank(l) ensures Term(l, ix, k) == l.B.at([i, k]) * l.A.at([k, j]) {
      FlatColumn(l.A.shape, ix, k);
    }
    SumEqual(Rank(l), (k: nat) => Term(l, ix, k), (k: nat) => l.B.at([i, k]) * l.A.at([k, j]));
  }

  /** With batches: the matrices of one batch of B and of A, the only one where A has one. */
  lemma BatchProduct(l: Lora, b: nat, i: nat, j: nat)
    requires Valid(l) && |l.A.shape| == 3
    ensures Dense(l).at([b, i, j])
            == Sum(l.B.shape[2], (k: nat) => l.B.at([b, i, k]) * l.A.at([if l.A.shape[0] == 1 then 0 else b, k, j]))
  {
    var ix, a := [b, i, j], if l.A.shape[0] == 1 then 0 else b;
    forall k: nat | k < Rank(l) ensures Term(l, ix, k) == l.B.at([b, i, k]) * l.A.at([a, k, j]) {
      assert RowIndex(ix, k) == [b, i, k];
      assert ix[..1] == [b] && Clamp(ix[..1], l.A.shape[..1]) == [a];
      assert ColIndex(l.A.shape, ix, k) == [a, k, j];
    }
    SumEqual(Rank(l), (k: nat) => Term(l, ix, k), (k: nat) => l.B.at([b, i, k]) * l.A.at([a, k, j]));
  }

  lemma {:induction false} FlattenUnflatten(f: nat, shape: seq<nat>)
    requires f < Prod(shape)
    ensures Flatten(Unflatten(f, shape), shape) == f
    decreases |shape|
  {
    if shape != [] {
      var n := |shape| - 1;
      DivLess(f, shape[n], Prod(shape[..n]));
      FlattenUnflatten(f / shape[n], shape[..n]);
      Remains(f, shape[n]);
    }
  }

  lemma Remains(f: nat, d: nat)
    requires d > 0
    ensures f / d * d + f % d == f
  {
  }

  /** A reshape keeps every element at its row-major position. */
  lemma ReshapeKeepsPosition(given: seq<nat>, shape: seq<nat>, ix: Index)
    requires Prod(given) == Prod(shape) && InBounds(ix, shape)
    ensures var origin := ReshapeGather(given, shape).source(ix);
            InBounds(origin, given) && Flatten(origin, given) == Flatten(ix, shape)
  {
    FlattenBound(ix, shape);
    UnflattenInBounds(Flatten(ix, shape), given);
    FlattenUnflatten(Flatten(ix, shape), given);
  }

  /** The first axis of a stack says which tensor. */
  lemma StackedMeans(ts: seq<Tensor>, i: nat, ix: Index)
    requires i < |ts|
    ensures Stacked(ts).shape == [|ts|] + ts[0].shape && Stacked(ts).at([i] + ix) == ts[i].at(ix)
  {
    assert ([i] + ix)[1..] == ix;
  }

  lemma {:induction false} PlaceOf(sizes: seq<nat>, i: nat, x: nat)
    requires i < |sizes| && x < sizes[i]
    ensures PartOf(sizes, SizeOf(sizes[..i]) + x) == i && PlaceIn(sizes, SizeOf(sizes[..i]) + x) == x
    ensures SizeOf(sizes[..i]) + x < SizeOf(sizes)
    decreases |sizes|
  {
    if i > 0 {
      PlaceOf(sizes[1..], i - 1, x);
      assert sizes[..i][1..] == sizes[1..][..i - 1];
    } else {
      assert sizes[..0] == [];
    }
  }

  /** A concatenation has the parts one after the other. */
  lemma CatMeans(ts: seq<Tensor>, i: nat, x: nat, rest: Index)
    requires CanCat(ts) && i < |ts| && x < ts[i].shape[0]
    ensures var before := SizeOf(Firsts(ts)[..i]);
            before + x < Cat(ts).shape[0] && Cat(ts).at([before + x] + rest) == ts[i].at([x] + rest)
  {
    PlaceOf(Firsts(ts), i, x);
    TotalIs(Firsts(ts));
    CatAt(ts, SizeOf(Firsts(ts)[..i]) + x, rest);
  }

  /** A chunk begins where the sizes before it end. */
  lemma ChunkMeans(shape: seq<nat>, dim: nat, sizes: seq<nat>, i: nat, ix: Index)
    requires dim < |shape| && i < |sizes| && |ix| == |shape|
    ensures var g := NarrowGather(shape, dim, Total(sizes[..i]), sizes[i]);
            g.shape == shape[dim := sizes[i]] && g.source(ix) == ix[dim := SizeOf(sizes[..i]) + ix[dim]]
  {
    TotalIs(sizes[..i]);
  }

  /** Scaling by a number, and by a number for each row. */
  lemma ScaledMeans(t: Tensor, other: Tensor, i: nat, j: nat)
    requires |t.shape| == 2 && i < t.shape[0] && j < t.shape[1]
    ensures other.shape == [] ==>
              Scaled(t, other).shape == t.shape && Scaled(t, other).at([i, j]) == other.at([]) * t.at([i, j])
    ensures other.shape == [t.shape[0], 1] ==>
              Scaled(t, other).shape == t.shape
              && Scaled(t, other).at([i, j]) == other.at([if t.shape[0] == 1 then 0 else i, 0]) * t.at([i, j])
  {
    var ix := [i, j];
    assert Clamp(ix, t.shape) == ix;
    if |other.shape| <= 2 { ScaledAt(t, other, ix); }
    if other.shape == [] {
      assert ix[2..] == [] && Clamp([], []) == [];
    } else if other.shape == [t.shape[0], 1] {
      assert ix[0..] == ix && Clamp(ix, other.shape) == [if t.shape[0] == 1 then 0 else i, 0];
    }
  }
}
