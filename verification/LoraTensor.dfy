/**
 `LoraTorchTensor` (convert_lora_to_gguf.py): a weight kept as the product B·A of two thin
 factors. Every operation acts on the factors; what it means is what the same operation does
 to the dense product. Values are reals.
 */
module LoraTensor {
  import opened Wrappers
  import opened Tensors
  import opened Picks

  datatype LoraError = NotImplemented | AssertionFailed | TorchError

  datatype Lora = Lora(A: Tensor, B: Tensor)

  /** The checks of the constructor. */
  function MakeLora(A: Tensor, B: Tensor): Result<Lora, LoraError> {
    var n := |A.shape|;
    if n != |B.shape| then Failure(AssertionFailed)
    else if n < 2 then Failure(TorchError)
    else if A.shape[n - 2] != B.shape[n - 1] then Failure(AssertionFailed)
    else Success(Lora(A, B))
  }

  /** The factors can be multiplied: the constructor's checks, and batch axes of A that broadcast to B's. */
  predicate Valid(l: Lora) {
    var n := |l.A.shape|;
    && n == |l.B.shape| && n >= 2
    && l.A.shape[n - 2] == l.B.shape[n - 1]
    && Broadcasts(l.A.shape[..n - 2], l.B.shape[..n - 2])
  }

  function Rank(l: Lora): nat
    requires Valid(l)
  {
    l.B.shape[|l.B.shape| - 1]
  }

  function Shape(l: Lora): (s: seq<nat>)
    requires Valid(l)
    ensures |s| == |l.A.shape|
  {
    l.B.shape[..|l.B.shape| - 1] + [l.A.shape[|l.A.shape| - 1]]
  }

  /** Where row `ix` of B has its k-th entry. */
  function RowIndex(ix: Index, k: nat): Index
    requires ix != []
  {
    ix[..|ix| - 1] + [k]
  }

  /** Where column `ix` of A has its k-th entry. */
  function ColIndex(shape: seq<nat>, ix: Index, k: nat): Index
    requires |ix| == |shape| >= 2
  {
    Clamp(ix[..|ix| - 2], shape[..|ix| - 2]) + [k, ix[|ix| - 1]]
  }

  function Term(l: Lora, ix: Index, k: nat): real
    requires |ix| == |l.A.shape| >= 2
  {
    l.B.at(RowIndex(ix, k)) * l.A.at(ColIndex(l.A.shape, ix, k))
  }

  /** One entry of the product. */
  function Entry(l: Lora, ix: Index): real
    requires Valid(l) && |ix| == |l.A.shape|
  {
    Sum(Rank(l), (k: nat) => Term(l, ix, k))
  }

  /** B·A, batch by batch. */
  function Dense(l: Lora): Tensor
    requires Valid(l)
  {
    Tensor(Shape(l), ix => if |ix| == |l.A.shape| then Entry(l, ix) else 0.0)
  }

  /** A product of rank 0 is zero everywhere. */
  lemma RankZero(l: Lora, ix: Index)
    requires Valid(l) && Rank(l) == 0
    ensures Dense(l).at(ix) == 0.0
  {
  }

  // ----- a refinement principle for operations that move values -----

  /** Gathers on the factors that read, for every new entry, the row and column of the old entry `g` names. */
  ghost predicate Commutes(l: Lora, l': Lora, a: Gather, b: Gather, g: Gather)
    requires Valid(l) && Valid(l')
  {
    && l'.A == Apply(a, l.A) && l'.B == Apply(b, l.B)
    && Shape(l') == g.shape && Rank(l') == Rank(l) && Fits(g, Shape(l))
    && ReadsThrough(l.A.shape, l'.A.shape, Rank(l), a, b, g)
  }

  ghost predicate ReadsThrough(shape: seq<nat>, shape': seq<nat>, r: nat, a: Gather, b: Gather, g: Gather) {
    && |g.shape| == |shape'| >= 2 && |shape| >= 2
    && forall ix: Index, k: nat :: InBounds(ix, g.shape) && k < r ==> ReadsEntry(shape, shape', a, b, g, ix, k)
  }

  predicate ReadsEntry(shape: seq<nat>, shape': seq<nat>, a: Gather, b: Gather, g: Gather, ix: Index, k: nat)
    requires |ix| == |shape'| >= 2 && |shape| >= 2
  {
    && |g.source(ix)| == |shape|
    && b.source(RowIndex(ix, k)) == RowIndex(g.source(ix), k)
    && a.source(ColIndex(shape', ix, k)) == ColIndex(shape, g.source(ix), k)
  }

  lemma GatherRefines(l: Lora, l': Lora, a: Gather, b: Gather, g: Gather)
    requires Valid(l) && Valid(l') && Commutes(l, l', a, b, g)
    ensures Same(Dense(l'), Apply(g, Dense(l)))
  {
    forall ix | InBounds(ix, g.shape) ensures Dense(l').at(ix) == Apply(g, Dense(l)).at(ix) {
      var origin := g.source(ix);
      assert InBounds(origin, Shape(l));
      forall k: nat | k < Rank(l) ensures ReadsTerm(l, l', ix, origin, k) {
        assert ReadsEntry(l.A.shape, l'.A.shape, a, b, g, ix, k);
        ApplyAt(a, l.A, ColIndex(l'.A.shape, ix, k));
        ApplyAt(b, l.B, RowIndex(ix, k));
      }
      SumCommutes(l, l', Rank(l), ix, origin);
    }
  }

  lemma ApplyAt(g: Gather, t: Tensor, ix: Index)
    ensures Apply(g, t).at(ix) == t.at(g.source(ix))
  {
  }

  /** The factors of one term are read from the old factors. */
  predicate ReadsTerm(l: Lora, l': Lora, ix: Index, origin: Index, k: nat)
    requires |ix| == |l'.A.shape| >= 2 && |origin| == |l.A.shape| >= 2
  {
    && l'.B.at(RowIndex(ix, k)) == l.B.at(RowIndex(origin, k))
    && l'.A.at(ColIndex(l'.A.shape, ix, k)) == l.A.at(ColIndex(l.A.shape, origin, k))
  }

  lemma SameTerm(l: Lora, l': Lora, ix: Index, origin: Index, k: nat)
    requires |ix| == |l'.A.shape| >= 2 && |origin| == |l.A.shape| >= 2 && ReadsTerm(l, l', ix, origin, k)
    ensures Term(l', ix, k) == Term(l, origin, k)
  {
  }

  lemma SumCommutes(l: Lora, l': Lora, r: nat, ix: Index, origin: Index)
    requires |ix| == |l'.A.shape| >= 2 && |origin| == |l.A.shape| >= 2
    requires forall k: nat :: k < r ==> ReadsTerm(l, l', ix, origin, k)
    ensures Sum(r, (k: nat) => Term(l', ix, k)) == Sum(r, (k: nat) => Term(l, origin, k))
  {
    var f, f' := (k: nat) => Term(l, origin, k), (k: nat) => Term(l', ix, k);
    forall k: nat | k < r ensures f'(k) == f(k) {
      SameTerm(l, l', ix, origin, k);
    }
    SumEqual(r, f', f);
  }
}
