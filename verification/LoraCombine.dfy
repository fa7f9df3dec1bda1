/**
 Scaling, stacking and concatenating `LoraTorchTensor`s.
 */
module LoraCombine {
  import opened Wrappers
  import opened Tensors
  import opened Picks
  import opened LoraTensor
  import opened LoraShapes

  // ----- row scaling -----

  /** The factor for one row: `other` is a scalar or ends in an axis of size 1, aligned to the right. */
  function Factor(other: Tensor, ix: Index): real
    requires |other.shape| <= |ix|
  {
    other.at(Clamp(ix[|ix| - |other.shape|..], other.shape))
  }

  /** Two lists of sizes broadcast together. */
  predicate Meet(a: seq<nat>, b: seq<nat>)
    requires |a| == |b|
  {
    forall i :: 0 <= i < |a| ==> a[i] == 1 || b[i] == 1 || a[i] == b[i]
  }

  /** As torch does it: aligned to the right. */
  predicate Compatible(a: seq<nat>, b: seq<nat>) {
    if |a| <= |b| then Meet(a, b[|b| - |a|..]) else Meet(a[|a| - |b|..], b)
  }

  /** The shape of a product: axes of size 1 take the other operand's size. */
  function Grown(shape: seq<nat>, o: seq<nat>): (r: seq<nat>)
    ensures |r| == |shape|
  {
    var n, q := |shape|, |o|;
    seq(n, i requires 0 <= i < n => if shape[i] == 1 && i + q >= n then o[i + q - n] else shape[i])
  }

  function Scaled(t: Tensor, other: Tensor): Tensor {
    Tensor(Grown(t.shape, other.shape),
           ix => if |other.shape| <= |ix| == |t.shape| then Factor(other, ix) * t.at(Clamp(ix, t.shape)) else 0.0)
  }

  predicate LastIsOne(shape: seq<nat>) { shape != [] ==> shape[|shape| - 1] == 1 }

  /** `__mul__`: torch multiplies B, and the constructor refuses a product with more axes than A. */
  function Scale(l: Lora, other: Tensor): Result<Lora, LoraError>
    requires Valid(l)
  {
    if !LastIsOne(other.shape) then Failure(NotImplemented)
    else if !Compatible(other.shape, l.B.shape) then Failure(TorchError)
    else if |other.shape| > |l.B.shape| then Failure(AssertionFailed)
    else MakeLora(l.A, Scaled(l.B, other))
  }

  lemma RowFactor(other: Tensor, ix: Index, k: nat)
    requires ix != [] && |other.shape| <= |ix| && LastIsOne(other.shape)
    ensures Factor(other, RowIndex(ix, k)) == Factor(other, ix)
  {
    var q := |other.shape|;
    assert Clamp(RowIndex(ix, k)[|ix| - q..], other.shape) == Clamp(ix[|ix| - q..], other.shape);
  }

  lemma ScaledAt(t: Tensor, other: Tensor, ix: Index)
    requires |other.shape| <= |ix| == |t.shape|
    ensures Scaled(t, other).at(ix) == Factor(other, ix) * t.at(Clamp(ix, t.shape))
  {
  }

  /** The row read in an axis of size 1 is its only one. */
  lemma ClampedRow(shapeB: seq<nat>, s: seq<nat>, ix: Index, k: nat)
    requires |shapeB| == |s| == |ix| >= 2 && shapeB[..|s| - 1] == s[..|s| - 1] && k < shapeB[|s| - 1]
    ensures Clamp(RowIndex(ix, k), shapeB) == RowIndex(Clamp(ix, s), k)
  {
    forall i | 0 <= i < |s| - 1 ensures shapeB[i] == s[i] {
      assert shapeB[..|s| - 1][i] == s[..|s| - 1][i];
    }
  }

  lemma ClampedColumn(a: seq<nat>, s: seq<nat>, ix: Index, k: nat)
    requires |a| == |s| == |ix| >= 2 && ix[|s| - 1] < s[|s| - 1]
    requires forall i :: 0 <= i < |s| - 2 && s[i] == 1 ==> a[i] == 1
    ensures ColIndex(a, Clamp(ix, s), k) == ColIndex(a, ix, k)
  {
    var n := |s|;
    assert Clamp(Clamp(ix, s)[..n - 2], a[..n - 2]) == Clamp(ix[..n - 2], a[..n - 2]);
  }

  lemma ScaledTerm(l: Lora, other: Tensor, ix: Index, k: nat)
    requires Valid(l) && |other.shape| <= |ix| == |l.A.shape| && LastIsOne(other.shape)
    requires k < Rank(l) && ix[|ix| - 1] < l.A.shape[|ix| - 1]
    ensures Term(Lora(l.A, Scaled(l.B, other)), ix, k) == Factor(other, ix) * Term(l, Clamp(ix, Shape(l)), k)
  {
    var row, origin := RowIndex(ix, k), Clamp(ix, Shape(l));
    RowFactor(other, ix, k);
    ScaledAt(l.B, other, row);
    ClampedRow(l.B.shape, Shape(l), ix, k);
    BatchOfOne(l);
    ClampedColumn(l.A.shape, Shape(l), ix, k);
    Regrouped(Factor(other, ix), l.B.at(RowIndex(origin, k)), l.A.at(ColIndex(l.A.shape, origin, k)));
  }

  /** Where the product has one batch, A has one. */
  lemma BatchOfOne(l: Lora)
    requires Valid(l)
    ensures var n := |l.A.shape|; forall i :: 0 <= i < n - 2 && Shape(l)[i] == 1 ==> l.A.shape[i] == 1
  {
    var n := |l.A.shape|;
    forall i | 0 <= i < n - 2 && Shape(l)[i] == 1 ensures l.A.shape[i] == 1 {
      assert l.A.shape[..n - 2][i] == l.A.shape[i] && l.B.shape[..n - 2][i] == l.B.shape[i];
    }
  }

  lemma Regrouped(x: real, y: real, z: real)
    ensures x * y * z == x * (y * z)
  {
  }

  lemma ScaledShapes(l: Lora, l': Lora, other: Tensor)
    requires Valid(l) && |other.shape| <= |l.B.shape| && LastIsOne(other.shape)
    requires l' == Lora(l.A, Scaled(l.B, other))
    ensures Valid(l') && Rank(l') == Rank(l) && Shape(l') == Grown(Shape(l), other.shape)
  {
    var n := |l.A.shape|;
    BatchOfOne(l);
    forall i | 0 <= i < n - 2 ensures l'.A.shape[i] == 1 || l'.A.shape[i] == l'.B.shape[i] {
      assert l.A.shape[..n - 2][i] == l.A.shape[i] && l.B.shape[..n - 2][i] == l.B.shape[i] == Shape(l)[i];
    }
  }

  /** Scaling the rows of B scales the rows of the product, also where the factor enlarges both. */
  lemma ScaleRefines(l: Lora, other: Tensor)
    requires Valid(l) && Scale(l, other).Success?
    ensures var l' := Scale(l, other).value;
            && Valid(l') && Rank(l') == Rank(l)
            && |other.shape| <= |Shape(l)| && Compatible(other.shape, Shape(l))
            && Same(Dense(l'), Scaled(Dense(l), other))
  {
    var l' := Lora(l.A, Scaled(l.B, other));
    ScaledShapes(l, l', other);
    CompatibleRows(other.shape, l.B.shape, Shape(l));
    forall ix | InBounds(ix, Shape(l')) ensures Dense(l').at(ix) == Scaled(Dense(l), other).at(ix) {
      ScaledDense(l, l', other, ix);
    }
  }

  lemma ScaledDense(l: Lora, l': Lora, other: Tensor, ix: Index)
    requires Valid(l) && Valid(l') && l' == Lora(l.A, Scaled(l.B, other)) && Rank(l') == Rank(l)
    requires |other.shape| <= |ix| == |l.A.shape| && LastIsOne(other.shape)
    requires InBounds(ix, Grown(Shape(l), other.shape))
    ensures Dense(l').at(ix) == Scaled(Dense(l), other).at(ix)
  {
    GrownLast(Shape(l), other.shape);
    assert ix[|ix| - 1] < Grown(Shape(l), other.shape)[|ix| - 1];
    ScaledAt(Dense(l), other, ix);
    ScaledEntry(l, l', other, ix);
  }

  lemma GrownLast(shape: seq<nat>, o: seq<nat>)
    requires shape != [] && |o| <= |shape| && LastIsOne(o)
    ensures Grown(shape, o)[|shape| - 1] == shape[|shape| - 1]
  {
  }

  lemma CompatibleRows(o: seq<nat>, b: seq<nat>, s: seq<nat>)
    requires |o| <= |b| == |s| && s != [] && b[..|b| - 1] == s[..|s| - 1] && LastIsOne(o) && Compatible(o, b)
    ensures Compatible(o, s)
  {
    var n, q := |s|, |o|;
    forall i | 0 <= i < q ensures o[i] == 1 || s[n - q..][i] == 1 || o[i] == s[n - q..][i] {
      assert o[i] == 1 || b[n - q..][i] == 1 || o[i] == b[n - q..][i];
      if i < q - 1 { assert b[..n - 1][n - q + i] == s[..n - 1][n - q + i]; }
    }
  }

  lemma ScaledEntry(l: Lora, l': Lora, other: Tensor, ix: Index)
    requires Valid(l) && Valid(l') && l' == Lora(l.A, Scaled(l.B, other)) && Rank(l') == Rank(l)
    requires |other.shape| <= |ix| == |l.A.shape| && LastIsOne(other.shape) && ix[|ix| - 1] < l.A.shape[|ix| - 1]
    ensures Entry(l', ix) == Factor(other, ix) * Entry(l, Clamp(ix, Shape(l)))
  {
    var c, origin := Factor(other, ix), Clamp(ix, Shape(l));
    forall k: nat | k < Rank(l) ensures ScaledBy(Term(l', ix, k), c, Term(l, origin, k)) {
      ScaledTerm(l, other, ix, k);
    }
    SumOfScaled(l, l', Rank(l), ix, origin, c);
  }

  predicate ScaledBy(x: real, c: real, y: real) { x == c * y }

  lemma SumOfScaled(l: Lora, l': Lora, r: nat, ix: Index, origin: Index, c: real)
    requires |ix| == |l'.A.shape| >= 2 && |origin| == |l.A.shape| >= 2
    requires forall k: nat :: k < r ==> ScaledBy(Term(l', ix, k), c, Term(l, origin, k))
    ensures Sum(r, (k: nat) => Term(l', ix, k)) == c * Sum(r, (k: nat) => Term(l, origin, k))
  {
    var f, f' := (k: nat) => Term(l, origin, k), (k: nat) => Term(l', ix, k);
    forall k: nat | k < r ensures f'(k) == c * f(k) {
      assert ScaledBy(Term(l', ix, k), c, Term(l, origin, k));
    }
    SumScaled(r, f, f', c);
  }

  // ----- stack -----

  predicate SameShapes(ts: seq<Tensor>) { forall i :: 0 <= i < |ts| ==> ts[i].shape == ts[0].shape }

  function Stacked(ts: seq<Tensor>): Tensor
    requires ts != []
  {
    Tensor([|ts|] + ts[0].shape, ix => if ix != [] && ix[0] < |ts| then ts[ix[0]].at(ix[1..]) else 0.0)
  }

  function As(ls: seq<Lora>): (r: seq<Tensor>)
    ensures |r| == |ls|
  {
    seq(|ls|, i requires 0 <= i < |ls| => ls[i].A)
  }

  function Bs(ls: seq<Lora>): (r: seq<Tensor>)
    ensures |r| == |ls|
  {
    seq(|ls|, i requires 0 <= i < |ls| => ls[i].B)
  }

  function Denses(ls: seq<Lora>): (r: seq<Tensor>)
    requires forall i :: 0 <= i < |ls| ==> Valid(ls[i])
    ensures |r| == |ls|
  {
    seq(|ls|, i requires 0 <= i < |ls| => Dense(ls[i]))
  }

  function Stack(ls: seq<Lora>): Result<Lora, LoraError> {
    if ls == [] || !SameShapes(As(ls)) || !SameShapes(Bs(ls)) then Failure(TorchError)
    else MakeLora(Stacked(As(ls)), Stacked(Bs(ls)))
  }

  lemma StackedTerm(ls: seq<Lora>, ix: Index, k: nat)
    requires ls != [] && ix != [] && ix[0] < |ls| && SameShapes(As(ls))
    requires |ix| == |ls[0].A.shape| + 1 >= 3
    ensures var l' := Lora(Stacked(As(ls)), Stacked(Bs(ls)));
            && |l'.A.shape| == |ix| && |ls[ix[0]].A.shape| == |ix[1..]|
            && Term(l', ix, k) == Term(ls[ix[0]], ix[1..], k)
  {
    var l', l, tail := Lora(Stacked(As(ls)), Stacked(Bs(ls))), ls[ix[0]], ix[1..];
    assert As(ls)[ix[0]].shape == As(ls)[0].shape;
    assert RowIndex(ix, k) == [ix[0]] + RowIndex(tail, k);
    var n := |ix|;
    var batch := l'.A.shape[..n - 2];
    assert batch == [|ls|] + l.A.shape[..n - 3];
    assert Clamp(ix[..n - 2], batch) == [ix[0]] + Clamp(tail[..n - 3], l.A.shape[..n - 3]);
    assert ColIndex(l'.A.shape, ix, k) == [ix[0]] + ColIndex(l.A.shape, tail, k);
    assert ([ix[0]] + RowIndex(tail, k))[1..] == RowIndex(tail, k);
    assert ([ix[0]] + ColIndex(l.A.shape, tail, k))[1..] == ColIndex(l.A.shape, tail, k);
    StackReads(ls, ix, k);
  }

  lemma StackReads(ls: seq<Lora>, ix: Index, k: nat)
    requires ls != [] && ix != [] && ix[0] < |ls|
    ensures forall jx: Index :: Stacked(As(ls)).at([ix[0]] + jx) == ls[ix[0]].A.at(jx)
    ensures forall jx: Index :: Stacked(Bs(ls)).at([ix[0]] + jx) == ls[ix[0]].B.at(jx)
  {
    forall jx: Index
      ensures Stacked(As(ls)).at([ix[0]] + jx) == ls[ix[0]].A.at(jx)
      ensures Stacked(Bs(ls)).at([ix[0]] + jx) == ls[ix[0]].B.at(jx)
    {
      assert ([ix[0]] + jx)[1..] == jx;
    }
  }

  /** Stacking the factors stacks the products. */
  lemma StackRefines(ls: seq<Lora>)
    requires forall i :: 0 <= i < |ls| ==> Valid(ls[i])
    requires Stack(ls).Success?
    ensures var l' := Stack(ls).value;
            && Valid(l') && Rank(l') == Rank(ls[0])
            && Same(Dense(l'), Stacked(Denses(ls)))
  {
    var l', n := Stack(ls).value, |ls[0].A.shape|;
    assert l'.A.shape[..n - 1] == [|ls|] + ls[0].A.shape[..n - 2];
    assert l'.B.shape[..n - 1] == [|ls|] + ls[0].B.shape[..n - 2];
    assert Shape(l') == [|ls|] + Shape(ls[0]);
    forall ix | InBounds(ix, Shape(l')) ensures Dense(l').at(ix) == Stacked(Denses(ls)).at(ix) {
      assert ix[0] < Shape(l')[0];
      StackedEntry(ls, l', ix);
    }
  }

  lemma StackedEntry(ls: seq<Lora>, l': Lora, ix: Index)
    requires ls != [] && (forall i :: 0 <= i < |ls| ==> Valid(ls[i])) && SameShapes(As(ls)) && SameShapes(Bs(ls))
    requires l' == Lora(Stacked(As(ls)), Stacked(Bs(ls))) && Valid(l') && Rank(l') == Rank(ls[0])
    requires |ix| == |ls[0].A.shape| + 1 && ix[0] < |ls|
    ensures |ix[1..]| == |ls[ix[0]].A.shape| && Entry(l', ix) == Entry(ls[ix[0]], ix[1..])
  {
    var l := ls[ix[0]];
    assert As(ls)[ix[0]].shape == As(ls)[0].shape && Bs(ls)[ix[0]].shape == Bs(ls)[0].shape;
    forall k: nat | k < Rank(l) ensures Term(l', ix, k) == Term(l, ix[1..], k) {
      StackedTerm(ls, ix, k);
    }
    SumEqual(Rank(l), (k: nat) => Term(l', ix, k), (k: nat) => Term(l, ix[1..], k));
  }

  // ----- cat -----

  /** Which part a position of the concatenated axis falls in. */
  function PartOf(sizes: seq<nat>, x: nat): nat {
    if sizes == [] || x < sizes[0] then 0 else 1 + PartOf(sizes[1..], x - sizes[0])
  }

  function PlaceIn(sizes: seq<nat>, x: nat): nat {
    if sizes == [] || x < sizes[0] then x else PlaceIn(sizes[1..], x - sizes[0])
  }

  function Firsts(ts: seq<Tensor>): (r: seq<nat>)
    requires forall i :: 0 <= i < |ts| ==> ts[i].shape != []
    ensures |r| == |ts|
  {
    seq(|ts|, i requires 0 <= i < |ts| => ts[i].shape[0])
  }

  /** The tensors agree on every axis but the first. */
  predicate CanCat(ts: seq<Tensor>) {
    && ts != [] && (forall i :: 0 <= i < |ts| ==> ts[i].shape != [])
    && forall i :: 0 <= i < |ts| ==> ts[i].shape[1..] == ts[0].shape[1..]
  }

  function Cat(ts: seq<Tensor>): Tensor
    requires CanCat(ts)
  {
    var sizes := Firsts(ts);
    Tensor([Total(sizes)] + ts[0].shape[1..],
           ix => if ix != [] && PartOf(sizes, ix[0]) < |ts|
                 then ts[PartOf(sizes, ix[0])].at([PlaceIn(sizes, ix[0])] + ix[1..]) else 0.0)
  }

  lemma {:induction false} PartInRange(sizes: seq<nat>, x: nat)
    requires x < Total(sizes)
    ensures PartOf(sizes, x) < |sizes| && PlaceIn(sizes, x) < sizes[PartOf(sizes, x)]
    decreases |sizes|
  {
    assert sizes == [sizes[0]] + sizes[1..];
    TotalCons(sizes[0], sizes[1..]);
    if x >= sizes[0] { PartInRange(sizes[1..], x - sizes[0]); }
  }

  /** `torch.equal` on the A factors. */
  ghost predicate SharedA(ls: seq<Lora>) { forall i :: 0 <= i < |ls| ==> Same(ls[i].A, ls[0].A) }

  ghost function CatLoras(ls: seq<Lora>): Result<Lora, LoraError> {
    if ls == [] then Failure(TorchError)
    else if |ls[0].A.shape| > 2 then
      if CanCat(As(ls)) && CanCat(Bs(ls)) then MakeLora(Cat(As(ls)), Cat(Bs(ls))) else Failure(TorchError)
    else if !SharedA(ls) then Failure(NotImplemented)
    else if CanCat(Bs(ls)) then MakeLora(ls[0].A, Cat(Bs(ls)))
    else Failure(TorchError)
  }

  predicate Shaped(ls: seq<Lora>) { forall i :: 0 <= i < |ls| ==> ls[i].A.shape != [] && ls[i].B.shape != [] }

  /** Batches stay aligned: each part has its own first axis, or all of A is one batch, which then broadcasts. */
  predicate BatchesAlign(ls: seq<Lora>) {
    Shaped(ls) && (Firsts(As(ls)) == Firsts(Bs(ls)) || Total(Firsts(As(ls))) == 1)
  }

  lemma CatAt(ts: seq<Tensor>, x: nat, rest: Index)
    requires CanCat(ts) && x < Total(Firsts(ts))
    ensures PartOf(Firsts(ts), x) < |ts|
    ensures Cat(ts).at([x] + rest) == ts[PartOf(Firsts(ts), x)].at([PlaceIn(Firsts(ts), x)] + rest)
  {
    PartInRange(Firsts(ts), x);
    assert ([x] + rest)[1..] == rest;
  }

  /** Where an entry of the concatenation is read in its part. */
  function PartIndex(sizes: seq<nat>, ix: Index): Index
    requires ix != []
  {
    [PlaceIn(sizes, ix[0])] + ix[1..]
  }

  lemma FirstColumn(d: nat, rest: seq<nat>, x: nat, tail: Index, k: nat)
    requires |tail| == |rest| >= 2
    ensures ColIndex([d] + rest, [x] + tail, k) == [OnAxis(d, x)] + ColIndex(rest, tail, k)
  {
    var n := |rest|;
    assert ([x] + tail)[..n - 1] == [x] + tail[..n - 2] && ([d] + rest)[..n - 1] == [d] + rest[..n - 2];
    assert Clamp([x] + tail[..n - 2], [d] + rest[..n - 2]) == [OnAxis(d, x)] + Clamp(tail[..n - 2], rest[..n - 2]);
  }

  /** Where an axis of size `d` is read when it broadcasts. */
  function OnAxis(d: nat, x: nat): nat { if d == 1 then 0 else x }

  lemma FirstRow(x: nat, tail: Index, k: nat)
    requires tail != []
    ensures RowIndex([x] + tail, k) == [x] + RowIndex(tail, k)
  {
  }

  /** Sizes of A that are 1 or those of B. */
  predicate Sized(a: seq<nat>, b: seq<nat>) { |a| == |b| && forall i :: 0 <= i < |a| ==> a[i] == 1 || a[i] == b[i] }

  /** Reading the concatenated A where the concatenated B has `x` leads to the same part and place. */
  predicate Aligned(a: seq<nat>, b: seq<nat>, x: nat) {
    && PartOf(b, x) < |a| && OnAxis(Total(a), x) < Total(a)
    && PartOf(a, OnAxis(Total(a), x)) == PartOf(b, x)
    && PlaceIn(a, OnAxis(Total(a), x)) == OnAxis(a[PartOf(b, x)], PlaceIn(b, x))
  }

  lemma OwnAligned(a: seq<nat>, x: nat)
    requires x < Total(a)
    ensures Aligned(a, a, x)
  {
    PartInRange(a, x);
  }

  /** When the sizes of A add up to 1, the other parts are empty in B too. */
  lemma {:induction false} OneAligned(a: seq<nat>, b: seq<nat>, x: nat)
    requires Sized(a, b) && Total(a) == 1 && x < Total(b)
    ensures PartOf(a, 0) == PartOf(b, x) < |a| && PlaceIn(a, 0) == 0 && a[PartOf(b, x)] == 1
    decreases |a|
  {
    assert a == [a[0]] + a[1..] && b == [b[0]] + b[1..];
    TotalCons(a[0], a[1..]);
    TotalCons(b[0], b[1..]);
    if a[0] == 0 { OneAligned(a[1..], b[1..], x); } else { NothingLeft(a[1..], b[1..]); }
  }

  lemma {:induction false} NothingLeft(a: seq<nat>, b: seq<nat>)
    requires Sized(a, b) && Total(a) == 0
    ensures Total(b) == 0
    decreases |a|
  {
    if a != [] {
      var n := |a| - 1;
      assert a[n] == 1 || a[n] == b[n];
      NothingLeft(a[..n], b[..n]);
    }
  }

  lemma PartsAligned(ls: seq<Lora>, x: nat)
    requires Shaped(ls) && BatchesAlign(ls) && x < Total(Firsts(Bs(ls)))
    requires Sized(Firsts(As(ls)), Firsts(Bs(ls)))
    ensures Aligned(Firsts(As(ls)), Firsts(Bs(ls)), x)
  {
    if Firsts(As(ls)) == Firsts(Bs(ls)) {
      OwnAligned(Firsts(As(ls)), x);
    } else {
      OneAligned(Firsts(As(ls)), Firsts(Bs(ls)), x);
    }
  }

  /** One entry of a batched concatenation comes from one entry of one part. */
  lemma CatReads(ls: seq<Lora>, l': Lora, ix: Index, k: nat)
    requires CanCat(As(ls)) && CanCat(Bs(ls)) && l' == Lora(Cat(As(ls)), Cat(Bs(ls)))
    requires |ix| == |l'.A.shape| >= 3 && ix[0] < Total(Firsts(Bs(ls)))
    requires Aligned(Firsts(As(ls)), Firsts(Bs(ls)), ix[0])
    ensures var p, jx := PartOf(Firsts(Bs(ls)), ix[0]), PartIndex(Firsts(Bs(ls)), ix);
            p < |ls| && |ls[p].A.shape| == |jx| && ReadsTerm(ls[p], l', ix, jx, k)
  {
    var sizes, x, tail := Firsts(Bs(ls)), ix[0], ix[1..];
    PartInRange(sizes, x);
    var p, place := PartOf(sizes, x), PlaceIn(sizes, x);
    assert ix == [x] + tail;
    CatReadsA(ls, x, tail, k);
    FirstRow(place, tail, k);
    FirstRow(x, tail, k);
    CatAt(Bs(ls), x, RowIndex(tail, k));
  }

  lemma CatReadsA(ls: seq<Lora>, x: nat, tail: Index, k: nat)
    requires CanCat(As(ls)) && CanCat(Bs(ls)) && |tail| + 1 == |ls[0].A.shape| >= 3
    requires Aligned(Firsts(As(ls)), Firsts(Bs(ls)), x)
    ensures var p, jx := PartOf(Firsts(Bs(ls)), x), [PlaceIn(Firsts(Bs(ls)), x)] + tail;
            && |ls[p].A.shape| == |jx|
            && Cat(As(ls)).at(ColIndex(Cat(As(ls)).shape, [x] + tail, k)) == ls[p].A.at(ColIndex(ls[p].A.shape, jx, k))
  {
    var a, b, rest := Firsts(As(ls)), Firsts(Bs(ls)), ls[0].A.shape[1..];
    var p, place := PartOf(b, x), PlaceIn(b, x);
    assert As(ls)[p].shape[1..] == As(ls)[0].shape[1..];
    assert ls[p].A.shape == [a[p]] + rest;
    FirstColumn(Total(a), rest, x, tail, k);
    FirstColumn(a[p], rest, place, tail, k);
    CatAt(As(ls), OnAxis(Total(a), x), ColIndex(rest, tail, k));
  }

  /** All parts have the same rank and the same axes after the first. */
  lemma CatParts(ls: seq<Lora>)
    requires ls != [] && (forall i :: 0 <= i < |ls| ==> Valid(ls[i])) && CatLoras(ls).Success?
    ensures forall i :: 0 <= i < |ls| ==> |ls[i].B.shape| == |ls[i].A.shape| == |ls[0].A.shape|
    ensures forall i :: 0 <= i < |ls| ==> ls[i].B.shape[1..] == ls[0].B.shape[1..]
    ensures var n := |ls[0].A.shape|; forall i :: 0 <= i < |ls| ==> ls[i].A.shape[n - 1] == ls[0].A.shape[n - 1]
  {
    var n := |ls[0].A.shape|;
    forall i | 0 <= i < |ls|
      ensures |ls[i].B.shape| == |ls[i].A.shape| == n && ls[i].B.shape[1..] == ls[0].B.shape[1..]
      ensures ls[i].A.shape[n - 1] == ls[0].A.shape[n - 1]
    {
      assert Bs(ls)[i].shape[1..] == Bs(ls)[0].shape[1..];
      assert |ls[i].B.shape| == |ls[i].B.shape[1..]| + 1;
      if n > 2 {
        assert As(ls)[i].shape[1..] == As(ls)[0].shape[1..];
        assert ls[i].A.shape[n - 1] == ls[i].A.shape[1..][n - 2];
      } else {
        assert Same(ls[i].A, ls[0].A);
      }
    }
  }

  lemma CatShapes(ls: seq<Lora>, l': Lora)
    requires ls != [] && (forall i :: 0 <= i < |ls| ==> Valid(ls[i])) && CatLoras(ls) == Success(l')
    requires |ls[0].A.shape| > 2 ==> BatchesAlign(ls)
    ensures Valid(l') && Rank(l') == Rank(ls[0]) && CanCat(Denses(ls))
    ensures forall i :: 0 <= i < |ls| ==> |ls[i].A.shape| == |ls[0].A.shape| && Rank(ls[i]) == Rank(ls[0])
    ensures Firsts(Denses(ls)) == Firsts(Bs(ls))
    ensures Shape(l') == [Total(Firsts(Bs(ls)))] + Shape(ls[0])[1..]
  {
    CatParts(ls);
    CatRanks(ls, |ls[0].A.shape|);
    if |ls[0].A.shape| > 2 { CatBatched(ls, l'); } else { CatMatrix(ls, l'); }
  }

  lemma CatMatrix(ls: seq<Lora>, l': Lora)
    requires ls != [] && Valid(ls[0]) && |ls[0].A.shape| == 2 && CanCat(Bs(ls)) && l' == Lora(ls[0].A, Cat(Bs(ls)))
    ensures Valid(l') && Rank(l') == Rank(ls[0])
    ensures Shape(l') == [Total(Firsts(Bs(ls)))] + Shape(ls[0])[1..]
  {
  }

  lemma CatBatched(ls: seq<Lora>, l': Lora)
    requires ls != [] && Valid(ls[0]) && |ls[0].A.shape| > 2 && BatchesAlign(ls)
    requires CanCat(As(ls)) && CanCat(Bs(ls)) && l' == Lora(Cat(As(ls)), Cat(Bs(ls)))
    ensures Valid(l') && Rank(l') == Rank(ls[0])
    ensures Shape(l') == [Total(Firsts(Bs(ls)))] + Shape(ls[0])[1..]
  {
    var n := |ls[0].A.shape|;
    var a, b := ls[0].A.shape[..n - 2], ls[0].B.shape[..n - 2];
    var s, t := Total(Firsts(As(ls))), Total(Firsts(Bs(ls)));
    TailBroadcasts(a, b, s, t);
    assert l'.A.shape[..n - 2] == [s] + a[1..] && l'.B.shape[..n - 2] == [t] + b[1..];
  }

  lemma TailBroadcasts(a: seq<nat>, b: seq<nat>, s: nat, t: nat)
    requires Broadcasts(a, b) && a != []
    ensures Broadcasts([s] + a[1..], [t] + b[1..]) <==> s == 1 || s == t
  {
    assert ([s] + a[1..])[0] == s && ([t] + b[1..])[0] == t;
  }

  lemma CatRanks(ls: seq<Lora>, n: nat)
    requires ls != [] && n >= 2
    requires forall i :: 0 <= i < |ls| ==> Valid(ls[i]) && |ls[i].B.shape| == |ls[i].A.shape| == n
    requires forall i :: 0 <= i < |ls| ==> ls[i].B.shape[1..] == ls[0].B.shape[1..]
    requires forall i :: 0 <= i < |ls| ==> ls[i].A.shape[n - 1] == ls[0].A.shape[n - 1]
    ensures forall i :: 0 <= i < |ls| ==> Rank(ls[i]) == Rank(ls[0])
    ensures CanCat(Denses(ls)) && Firsts(Denses(ls)) == Firsts(Bs(ls))
  {
    forall i | 0 <= i < |ls|
      ensures Rank(ls[i]) == Rank(ls[0])
      ensures Shape(ls[i])[1..] == Shape(ls[0])[1..] && Shape(ls[i])[0] == ls[i].B.shape[0]
    {
      assert ls[i].B.shape[n - 1] == ls[i].B.shape[1..][n - 2];
      assert Shape(ls[i])[1..] == ls[i].B.shape[1..][..n - 2] + [ls[i].A.shape[n - 1]];
    }
  }

  /** Concatenating along the first axis concatenates the products. */
  lemma CatRefines(ls: seq<Lora>)
    requires ls != [] && (forall i :: 0 <= i < |ls| ==> Valid(ls[i])) && CatLoras(ls).Success?
    requires |ls[0].A.shape| > 2 ==> BatchesAlign(ls)
    ensures var l' := CatLoras(ls).value;
            && Valid(l') && Rank(l') == Rank(ls[0]) && CanCat(Denses(ls))
            && Same(Dense(l'), Cat(Denses(ls)))
  {
    var l' := CatLoras(ls).value;
    CatShapes(ls, l');
    forall ix | InBounds(ix, Shape(l')) ensures Dense(l').at(ix) == Cat(Denses(ls)).at(ix) {
      CatEntry(ls, l', ix);
      CatDense(ls, ix);
    }
  }

  lemma CatEntry(ls: seq<Lora>, l': Lora, ix: Index)
    requires ls != [] && (forall i :: 0 <= i < |ls| ==> Valid(ls[i])) && CatLoras(ls) == Success(l')
    requires |ls[0].A.shape| > 2 ==> BatchesAlign(ls)
    requires Valid(l') && InBounds(ix, Shape(l')) && |ix| == |ls[0].A.shape|
    requires Shape(l')[0] == Total(Firsts(Bs(ls)))
    requires forall i :: 0 <= i < |ls| ==> |ls[i].A.shape| == |ls[0].A.shape| && Rank(ls[i]) == Rank(l')
    ensures var p, jx := PartOf(Firsts(Bs(ls)), ix[0]), PartIndex(Firsts(Bs(ls)), ix);
            p < |ls| && Entry(l', ix) == Entry(ls[p], jx)
  {
    var sizes := Firsts(Bs(ls));
    PartInRange(sizes, ix[0]);
    var p, jx := PartOf(sizes, ix[0]), PartIndex(sizes, ix);
    forall k: nat | k < Rank(l') ensures ReadsTerm(ls[p], l', ix, jx, k) { CatTerm(ls, l', ix, k); }
    SumCommutes(ls[p], l', Rank(l'), ix, jx);
  }

  lemma CatTerm(ls: seq<Lora>, l': Lora, ix: Index, k: nat)
    requires ls != [] && (forall i :: 0 <= i < |ls| ==> Valid(ls[i])) && CatLoras(ls) == Success(l')
    requires |ls[0].A.shape| > 2 ==> BatchesAlign(ls)
    requires forall i :: 0 <= i < |ls| ==> |ls[i].A.shape| == |ls[0].A.shape|
    requires Valid(l') && |ix| == |ls[0].A.shape| && InBounds(ix, Shape(l')) && k < Rank(l')
    requires ix[0] < Total(Firsts(Bs(ls)))
    ensures var p, jx := PartOf(Firsts(Bs(ls)), ix[0]), PartIndex(Firsts(Bs(ls)), ix);
            p < |ls| && |ls[p].A.shape| == |jx| && ReadsTerm(ls[p], l', ix, jx, k)
  {
    if |ls[0].A.shape| > 2 {
      CatSized(ls);
      PartsAligned(ls, ix[0]);
      CatReads(ls, l', ix, k);
    } else {
      CatReads2(ls, l', ix, k);
    }
  }

  lemma CatDense(ls: seq<Lora>, ix: Index)
    requires (forall i :: 0 <= i < |ls| ==> Valid(ls[i])) && CanCat(Denses(ls)) && Firsts(Denses(ls)) == Firsts(Bs(ls))
    requires ls != [] && |ix| == |ls[0].A.shape| && ix[0] < Total(Firsts(Bs(ls)))
    requires forall i :: 0 <= i < |ls| ==> |ls[i].A.shape| == |ls[0].A.shape|
    ensures var p, jx := PartOf(Firsts(Bs(ls)), ix[0]), PartIndex(Firsts(Bs(ls)), ix);
            p < |ls| && Cat(Denses(ls)).at(ix) == Entry(ls[p], jx)
  {
    CatAt(Denses(ls), ix[0], ix[1..]);
    assert [ix[0]] + ix[1..] == ix;
  }

  lemma CatReads2(ls: seq<Lora>, l': Lora, ix: Index, k: nat)
    requires ls != [] && CanCat(Bs(ls)) && SharedA(ls) && l' == Lora(ls[0].A, Cat(Bs(ls)))
    requires |ix| == |l'.A.shape| == 2 && ix[0] < Total(Firsts(Bs(ls)))
    requires k < ls[0].A.shape[0] && ix[1] < ls[0].A.shape[1]
    ensures var p, jx := PartOf(Firsts(Bs(ls)), ix[0]), PartIndex(Firsts(Bs(ls)), ix);
            p < |ls| && |ls[p].A.shape| == |jx| && ReadsTerm(ls[p], l', ix, jx, k)
  {
    var sizes := Firsts(Bs(ls));
    PartInRange(sizes, ix[0]);
    var p, jx := PartOf(sizes, ix[0]), PartIndex(sizes, ix);
    assert Same(ls[p].A, ls[0].A);
    assert RowIndex(ix, k) == [ix[0]] + [k] && RowIndex(jx, k) == [jx[0]] + [k];
    CatAt(Bs(ls), ix[0], [k]);
    assert ColIndex(ls[0].A.shape, ix, k) == [k, ix[1]] && ColIndex(ls[p].A.shape, jx, k) == [k, ix[1]];
    assert InBounds([k, ix[1]], ls[0].A.shape);
  }

  // ----- when the first axes are not each part's own -----

  /** Broadcasting sizes that are equal in sum are equal throughout, unless some part is empty. */
  lemma {:induction false} TotalsCompare(a: seq<nat>, b: seq<nat>)
    requires Sized(a, b) && forall i :: 0 <= i < |b| ==> b[i] != 0
    ensures Total(a) <= Total(b) && (Total(a) == Total(b) ==> a == b)
    decreases |a|
  {
    if a != [] {
      var n := |a| - 1;
      var a', b' := a[..n], b[..n];
      TotalsCompare(a', b');
      assert a[n] == 1 || a[n] == b[n];
      if Total(a) == Total(b) { SnocSame(a, b, n); }
    }
  }

  lemma SnocSame(a: seq<nat>, b: seq<nat>, n: nat)
    requires |a| == |b| == n + 1 && a[..n] == b[..n] && a[n] == b[n]
    ensures a == b
  {
    assert a == a[..n] + [a[n]] && b == b[..n] + [b[n]];
  }

  /**
   When concatenated batched factors still broadcast: when their batches align, or, by accident,
   when sizes that differ part by part add up to the same total because a part has no rows.
   */
  lemma CatExactly(ls: seq<Lora>)
    requires ls != [] && (forall i :: 0 <= i < |ls| ==> Valid(ls[i])) && |ls[0].A.shape| > 2
    requires CatLoras(ls).Success?
    ensures Valid(CatLoras(ls).value) <==> BatchesAlign(ls) || Accidental(ls)
  {
    CatTails(ls);
    CatSized(ls);
    var a, b := Firsts(As(ls)), Firsts(Bs(ls));
    if Total(a) == Total(b) && forall i :: 0 <= i < |b| ==> b[i] != 0 { TotalsCompare(a, b); }
  }

  lemma CatSized(ls: seq<Lora>)
    requires Shaped(ls) && forall i :: 0 <= i < |ls| ==> Valid(ls[i]) && |ls[i].A.shape| > 2
    ensures Sized(Firsts(As(ls)), Firsts(Bs(ls)))
  {
    forall i | 0 <= i < |ls| ensures ls[i].A.shape[0] == 1 || ls[i].A.shape[0] == ls[i].B.shape[0] {
      FirstBroadcasts(ls[i]);
    }
  }

  /** The totals agree although some part has no rows. */
  predicate Accidental(ls: seq<Lora>) {
    && Shaped(ls) && Total(Firsts(As(ls))) == Total(Firsts(Bs(ls)))
    && exists i :: 0 <= i < |ls| && Firsts(Bs(ls))[i] == 0
  }

  lemma CatTails(ls: seq<Lora>)
    requires ls != [] && Valid(ls[0]) && |ls[0].A.shape| > 2 && CatLoras(ls).Success?
    ensures Shaped(ls) && forall i :: 0 <= i < |ls| ==> |ls[i].A.shape| == |ls[0].A.shape|
    ensures Valid(CatLoras(ls).value)
            <==> Total(Firsts(As(ls))) == 1 || Total(Firsts(As(ls))) == Total(Firsts(Bs(ls)))
  {
    var n, l' := |ls[0].A.shape|, CatLoras(ls).value;
    forall i | 0 <= i < |ls| ensures ls[i].B.shape != [] && |ls[i].A.shape| == n {
      assert As(ls)[i].shape != [] && Bs(ls)[i].shape != [];
      assert As(ls)[i].shape[1..] == As(ls)[0].shape[1..];
      assert |ls[i].A.shape| == |ls[i].A.shape[1..]| + 1;
    }
    var a, b := ls[0].A.shape[..n - 2], ls[0].B.shape[..n - 2];
    var s, t := Total(Firsts(As(ls))), Total(Firsts(Bs(ls)));
    assert l'.A.shape[..n - 2] == [s] + a[1..] && l'.B.shape[..n - 2] == [t] + b[1..];
    TailBroadcasts(a, b, s, t);
  }

  lemma FirstBroadcasts(l: Lora)
    requires Valid(l) && |l.A.shape| > 2
    ensures l.A.shape[0] == 1 || l.A.shape[0] == l.B.shape[0]
  {
    var n := |l.A.shape|;
    assert l.A.shape[..n - 2][0] == l.A.shape[0] && l.B.shape[..n - 2][0] == l.B.shape[0];
  }
}
