/**
 When an operation of `LoraTorchTensor` is right for all values that factors of the given shapes can
 hold: if it is not supported, there are factors of the same shapes for which it goes wrong.
 */
module LoraExact {
  import opened Wrappers
  import opened Tensors
  import opened Picks
  import opened PickMoves
  import opened LoraTensor
  import opened LoraIndexing
  import opened LoraTuples
  import opened LoraShapes
  import opened LoraCombine

  predicate ShapedLike(t: Lora, l: Lora) { t.A.shape == l.A.shape && t.B.shape == l.B.shape }

  // ----- factors that tell two entries of the product apart -----

  /** One in every entry of the row of `u`, zero elsewhere. */
  function RowMarked(shape: seq<nat>, u: Index): Tensor
    requires u != []
  {
    Tensor(shape, ix => if ix != [] && ix[..|ix| - 1] == u[..|u| - 1] then 1.0 else 0.0)
  }

  /** One in the columns with the number `c`, zero elsewhere. */
  function ColumnMarked(shape: seq<nat>, c: nat): Tensor {
    Tensor(shape, ix => if ix != [] && ix[|ix| - 1] == c then 1.0 else 0.0)
  }

  function Telling(l: Lora, u: Index, v: Index): Lora
    requires |u| == |v| > 0
  {
    var n := |u| - 1;
    if u[..n] != v[..n] then Lora(Constant(l.A.shape, 1.0), RowMarked(l.B.shape, u))
    else Lora(ColumnMarked(l.A.shape, u[n]), Constant(l.B.shape, 1.0))
  }

  lemma {:induction false} SumOfOnes(n: nat, f: nat -> real)
    requires forall k: nat :: k < n ==> f(k) == 1.0
    ensures Sum(n, f) == n as real
  {
    if n > 0 { SumOfOnes(n - 1, f); }
  }

  lemma {:induction false} SumOfZeros(n: nat, f: nat -> real)
    requires forall k: nat :: k < n ==> f(k) == 0.0
    ensures Sum(n, f) == 0.0
  {
    if n > 0 { SumOfZeros(n - 1, f); }
  }

  lemma EntryOfOnes(l: Lora, ix: Index)
    requires Valid(l) && |ix| == |l.A.shape| && forall k: nat :: k < Rank(l) ==> Term(l, ix, k) == 1.0
    ensures Dense(l).at(ix) == Rank(l) as real
  {
    SumOfOnes(Rank(l), (k: nat) => Term(l, ix, k));
  }

  lemma EntryOfZeros(l: Lora, ix: Index)
    requires Valid(l) && |ix| == |l.A.shape| && forall k: nat :: k < Rank(l) ==> Term(l, ix, k) == 0.0
    ensures Dense(l).at(ix) == 0.0
  {
    SumOfZeros(Rank(l), (k: nat) => Term(l, ix, k));
  }

  lemma MarkedTerm(l: Lora, u: Index, v: Index, w: Index, k: nat)
    requires |u| == |v| == |w| == |l.A.shape| == |l.B.shape| >= 2 && u != v && (w == u || w == v)
    ensures Term(Telling(l, u, v), w, k) == if w == u then 1.0 else 0.0
  {
    var n := |u| - 1;
    assert RowIndex(w, k)[..n] == w[..n];
    if u[..n] == v[..n] { assert u == u[..n] + [u[n]] && v == v[..n] + [v[n]]; }
  }

  /** At positive rank any two entries of the product can differ. */
  lemma TellsApart(l: Lora, u: Index, v: Index)
    requires Valid(l) && Rank(l) > 0 && |u| == |v| == |l.A.shape| && u != v
    ensures var t := Telling(l, u, v); Valid(t) && ShapedLike(t, l) && Dense(t).at(u) != Dense(t).at(v)
  {
    var t := Telling(l, u, v);
    forall k: nat | k < Rank(t) ensures Term(t, u, k) == 1.0 && Term(t, v, k) == 0.0 {
      MarkedTerm(l, u, v, u, k);
      MarkedTerm(l, u, v, v, k);
    }
    EntryOfOnes(t, u);
    EntryOfZeros(t, v);
  }

  // ----- ellipses -----

  function Around(pre: seq<Pick>, post: seq<Pick>): seq<Entry> { Entries(pre) + [Dots] + Entries(post) }

  /** The index is accepted, and picks from the product what is meant. */
  ghost predicate EllipsisRight(l: Lora, pre: seq<Pick>, post: seq<Pick>) {
    && Valid(l) && |pre| + |post| <= |l.A.shape| && GetEntries(l, Around(pre, post)).Success?
    && PicksFrom(l, GetEntries(l, Around(pre, post)).value, Meant(pre, post, |l.A.shape|))
  }

  lemma AcceptedAlike(l: Lora, t: Lora, picks: seq<Pick>)
    requires Valid(l) && Valid(t) && ShapedLike(t, l) && GetTuple(l, picks).Success?
    ensures GetTuple(t, picks).Success? && ShapedLike(GetTuple(t, picks).value, GetTuple(l, picks).value)
  {
  }

  lemma Alike(l: Lora, t: Lora)
    requires Valid(l) && ShapedLike(t, l)
    ensures Valid(t) && Rank(t) == Rank(l) && Shape(t) == Shape(l)
  {
  }

  lemma TupleOkAlike(l: Lora, t: Lora, all: seq<Pick>)
    requires Valid(l) && ShapedLike(t, l) && |all| == |l.A.shape|
    ensures Valid(t) && TupleOk(t, all) == TupleOk(l, all)
  {
    Alike(l, t);
  }

  lemma EllipsisOkAlike(l: Lora, t: Lora, pre: seq<Pick>, post: seq<Pick>)
    requires Valid(l) && ShapedLike(t, l) && EllipsisOk(l, pre, post)
    ensures Valid(t) && EllipsisOk(t, pre, post)
  {
    Alike(l, t);
    TupleOkAlike(l, t, Padded(AsGiven(pre, post), |l.A.shape|));
  }

  lemma EllipsisRightAlike(l: Lora, t: Lora, pre: seq<Pick>, post: seq<Pick>)
    requires Valid(l) && ShapedLike(t, l) && post != [] && GetEntries(l, Around(pre, post)).Success?
    requires EllipsisOk(l, pre, post)
    ensures EllipsisRight(t, pre, post)
  {
    EllipsisOkAlike(l, t, pre, post);
    AroundAlike(l, t, pre, post);
    EllipsisPicks(t, pre, post);
  }

  lemma AroundAlike(l: Lora, t: Lora, pre: seq<Pick>, post: seq<Pick>)
    requires Valid(l) && Valid(t) && ShapedLike(t, l) && post != [] && GetEntries(l, Around(pre, post)).Success?
    ensures GetEntries(t, Around(pre, post)).Success? && GetTuple(t, AsGiven(pre, post)).Success?
    ensures GetEntries(t, Around(pre, post)) == GetTuple(t, AsGiven(pre, post))
  {
    InnerEllipsis(l, pre, post);
    InnerEllipsis(t, pre, post);
    AcceptedAlike(l, t, AsGiven(pre, post));
  }

  /** Moving an ellipsis' width around changes no number of integers. */
  lemma SameAxesLeft(pre: seq<Pick>, post: seq<Pick>, n: nat, s: seq<nat>)
    requires |AsGiven(pre, post)| <= n == |s|
    ensures |PickDims(Padded(AsGiven(pre, post), n), s)| == |PickDims(Meant(pre, post, n), s)|
  {
    var k := |pre| + |post|;
    var given, meant := Padded(AsGiven(pre, post), n), Meant(pre, post, n);
    SlotsAreAxes(given, s);
    SlotsAreAxes(meant, s);
    SlotConcat(AsGiven(pre, post), Fulls(n - 2 * k));
    SlotConcat(pre + Fulls(k), post);
    SlotConcat(pre, Fulls(k));
    SlotConcat(pre + Fulls(n - k), post);
    SlotConcat(pre, Fulls(n - k));
    FullSlots(k);
    FullSlots(n - k);
    FullSlots(n - 2 * k);
  }

  lemma {:induction false} FullSlots(n: nat)
    ensures Slot(Fulls(n), n) == n
  {
    if n > 0 {
      FullSlots(n - 1);
      assert Fulls(n)[..n - 1] == Fulls(n - 1);
      SlotOfPrefix(Fulls(n), n - 1, n - 1);
    }
  }

  /** If the result has the axes that are meant, the given tuple is one the factors support. */
  lemma RightAxesMeanOk(l: Lora, picks: seq<Pick>, axes: nat)
    requires Valid(l) && GetTuple(l, picks).Success? && Valid(GetTuple(l, picks).value)
    requires axes == |PickDims(Padded(picks, |l.A.shape|), Shape(l))| == |GetTuple(l, picks).value.A.shape|
    ensures TupleOk(l, Padded(picks, |l.A.shape|))
  {
    var batch, row, col := TupleFactors(l, picks);
    OkFactors(l, batch, row, col, axes);
  }

  lemma TupleFactors(l: Lora, picks: seq<Pick>) returns (batch: seq<Pick>, row: Pick, col: Pick)
    requires Valid(l) && GetTuple(l, picks).Success?
    ensures |batch| + 2 == |l.A.shape| && Padded(picks, |l.A.shape|) == batch + [row, col]
    ensures GetTuple(l, picks) == PickFactors(l, BatchPicksA(batch, l.A.shape[..|batch|]), batch, row, col)
    ensures TupleOk(l, Padded(picks, |l.A.shape|))
            <==> row.Slice? && col.Slice? && TupleSlicesOk(batch, l.A.shape[..|batch|], l.B.shape[..|batch|])
  {
    var n, all := |l.A.shape|, Padded(picks, |l.A.shape|);
    batch, row, col := all[..n - 2], all[n - 2], all[n - 1];
    assert all == batch + [row, col];
  }

  lemma OkFactors(l: Lora, batch: seq<Pick>, row: Pick, col: Pick, axes: nat)
    requires Valid(l) && |batch| + 2 == |l.A.shape|
    requires var r := PickFactors(l, BatchPicksA(batch, l.A.shape[..|batch|]), batch, row, col);
             r.Success? && Valid(r.value) && |r.value.A.shape| == axes
    requires axes == |PickDims(batch + [row, col], Shape(l))|
    ensures row.Slice? && col.Slice? && TupleSlicesOk(batch, l.A.shape[..|batch|], l.B.shape[..|batch|])
  {
    FactorPicksOk(l, batch, row, col);
    if row.Slice? && col.Slice? { TupleExactly(l, batch, row, col); } else { LastIntegers(l, batch, row, col); }
  }

  lemma RightMeansOk(l: Lora, pre: seq<Pick>, post: seq<Pick>)
    requires Valid(l) && post != [] && GetEntries(l, Around(pre, post)).Success?
    requires forall t :: ShapedLike(t, l) ==> EllipsisRight(t, pre, post)
    ensures EllipsisOk(l, pre, post)
  {
    var n, picks := |l.A.shape|, AsGiven(pre, post);
    InnerEllipsis(l, pre, post);
    var given, meant, l' := Padded(picks, n), Meant(pre, post, n), GetTuple(l, picks).value;
    assert EllipsisRight(l, pre, post);
    PickedAxes(l, l', meant);
    SameAxesLeft(pre, post, n, Shape(l));
    RightAxesMeanOk(l, picks, |l'.A.shape|);
    GetTupleExactly(l, picks);
    if Rank(l) > 0 {
      if !SamePicks(given, meant, Shape(l)) { Misread(l, pre, post); }
    }
  }

  /** Where the given and the meant picks differ, some factors of the same shapes show it. */
  lemma Misread(l: Lora, pre: seq<Pick>, post: seq<Pick>)
    requires Valid(l) && Rank(l) > 0 && post != [] && 2 * (|pre| + |post|) <= |l.A.shape|
    requires GetEntries(l, Around(pre, post)).Success?
    requires var given, meant := Padded(AsGiven(pre, post), |l.A.shape|), Meant(pre, post, |l.A.shape|);
             && TupleOk(l, given) && PicksOk(given, Shape(l)) && PicksOk(meant, Shape(l))
             && PickDims(given, Shape(l)) == PickDims(meant, Shape(l)) && !SamePicks(given, meant, Shape(l))
    ensures exists t :: ShapedLike(t, l) && !EllipsisRight(t, pre, post)
  {
    var given, meant := Padded(AsGiven(pre, post), |l.A.shape|), Meant(pre, post, |l.A.shape|);
    var ix := Differing(given, meant, Shape(l));
    var u, v := Source(given, Shape(l), ix), Source(meant, Shape(l), ix);
    var t := Telling(l, u, v);
    TellsApart(l, u, v);
    Alike(l, t);
    MisreadBy(l, t, pre, post, ix);
  }

  lemma Differing(ps: seq<Pick>, qs: seq<Pick>, s: seq<nat>) returns (ix: Index)
    requires PicksOk(ps, s) && PicksOk(qs, s) && PickDims(ps, s) == PickDims(qs, s) && !SamePicks(ps, qs, s)
    ensures InBounds(ix, PickDims(ps, s)) && Source(ps, s, ix) != Source(qs, s, ix)
  {
    SamePicksExactly(ps, qs, s);
    assert PickGather(ps, s).shape == PickGather(qs, s).shape;
    ix :| InBounds(ix, PickGather(ps, s).shape) && PickGather(ps, s).source(ix) != PickGather(qs, s).source(ix);
  }

  lemma MisreadBy(l: Lora, t: Lora, pre: seq<Pick>, post: seq<Pick>, ix: Index)
    requires Valid(l) && Valid(t) && ShapedLike(t, l) && post != [] && 2 * (|pre| + |post|) <= |l.A.shape|
    requires GetEntries(l, Around(pre, post)).Success?
    requires var given, meant := Padded(AsGiven(pre, post), |l.A.shape|), Meant(pre, post, |l.A.shape|);
             && TupleOk(l, given) && InBounds(ix, PickDims(given, Shape(t)))
             && Dense(t).at(Source(given, Shape(t), ix)) != Dense(t).at(Source(meant, Shape(t), ix))
    ensures !EllipsisRight(t, pre, post)
  {
    var given, meant := Padded(AsGiven(pre, post), |l.A.shape|), Meant(pre, post, |l.A.shape|);
    AroundAlike(l, t, pre, post);
    TupleOkAlike(l, t, given);
    GetTupleExactly(t, AsGiven(pre, post));
    ReadAt(t, GetTuple(t, AsGiven(pre, post)).value, given, meant, ix);
  }

  /** A result cannot be picked by both lists where the product tells their sources apart. */
  lemma ReadAt(t: Lora, t': Lora, ps: seq<Pick>, qs: seq<Pick>, ix: Index)
    requires Valid(t) && PicksFrom(t, t', ps) && InBounds(ix, PickDims(ps, Shape(t)))
    requires |qs| == |Shape(t)|
    requires Dense(t).at(Source(ps, Shape(t), ix)) != Dense(t).at(Source(qs, Shape(t), ix))
    ensures !PicksFrom(t, t', qs)
  {
    assert Dense(t').at(ix) == Dense(t).at(Source(ps, Shape(t), ix));
  }

  /**
   An accepted index with an ellipsis that is not at its end is right for all factors of these shapes
   exactly when `EllipsisOk`.
   */
  lemma EllipsisExactly(l: Lora, pre: seq<Pick>, post: seq<Pick>)
    requires Valid(l) && post != [] && GetEntries(l, Around(pre, post)).Success?
    ensures (forall t :: ShapedLike(t, l) ==> EllipsisRight(t, pre, post)) <==> EllipsisOk(l, pre, post)
  {
    if EllipsisOk(l, pre, post) {
      forall t | ShapedLike(t, l) ensures EllipsisRight(t, pre, post) { EllipsisRightAlike(l, t, pre, post); }
    }
    if forall t :: ShapedLike(t, l) ==> EllipsisRight(t, pre, post) { RightMeansOk(l, pre, post); }
  }

  // ----- concatenations -----

  predicate AllAlike(ts: seq<Lora>, ls: seq<Lora>) {
    |ts| == |ls| && forall i :: 0 <= i < |ls| ==> ShapedLike(ts[i], ls[i])
  }

  /** The parts can be concatenated, and the factors then multiply to the concatenated products. */
  ghost predicate CatRight(ls: seq<Lora>) {
    && (forall i :: 0 <= i < |ls| ==> Valid(ls[i])) && CatLoras(ls).Success? && Valid(CatLoras(ls).value)
    && CanCat(Denses(ls)) && Same(Dense(CatLoras(ls).value), Cat(Denses(ls)))
  }

  /** The product has no entries, or only zeros. */
  predicate NoEntries(ls: seq<Lora>)
    requires ls != [] && Valid(ls[0])
  {
    Rank(ls[0]) == 0 || 0 in Shape(ls[0])[1..]
  }

  /** Sizes that are misaligned although they add up to the same put some position into different parts. */
  lemma {:induction false} Misaligned(a: seq<nat>, b: seq<nat>) returns (x: nat)
    requires Sized(a, b) && Total(a) == Total(b) && a != b
    ensures x < Total(b) && PartOf(a, x) != PartOf(b, x)
    decreases |a|
  {
    assert a == [a[0]] + a[1..] && b == [b[0]] + b[1..];
    TotalCons(a[0], a[1..]);
    TotalCons(b[0], b[1..]);
    if a[0] == b[0] {
      x := Misaligned(a[1..], b[1..]);
      x := x + a[0];
    } else {
      x := if b[0] == 0 then 0 else 1;
    }
  }

  /** Parts of the given shapes of which only A of part `p` is not zero. */
  function OnlyPart(ls: seq<Lora>, p: nat): (ts: seq<Lora>)
    ensures AllAlike(ts, ls)
  {
    seq(|ls|, i requires 0 <= i < |ls| =>
      Lora(Constant(ls[i].A.shape, if i == p then 1.0 else 0.0), Constant(ls[i].B.shape, 1.0)))
  }

  lemma PartsAlike(ls: seq<Lora>, ts: seq<Lora>)
    requires AllAlike(ts, ls) && forall i :: 0 <= i < |ls| ==> Valid(ls[i])
    ensures forall i :: 0 <= i < |ls| ==> Valid(ts[i]) && Shape(ts[i]) == Shape(ls[i]) && Rank(ts[i]) == Rank(ls[i])
  {
    forall i | 0 <= i < |ls| ensures Valid(ts[i]) && Shape(ts[i]) == Shape(ls[i]) && Rank(ts[i]) == Rank(ls[i]) {
      Alike(ls[i], ts[i]);
    }
  }

  lemma CatsAlike(us: seq<Tensor>, vs: seq<Tensor>)
    requires CanCat(us) && |vs| == |us| && forall i :: 0 <= i < |us| ==> vs[i].shape == us[i].shape
    ensures CanCat(vs) && Firsts(vs) == Firsts(us) && Cat(vs).shape == Cat(us).shape
  {
    assert Firsts(vs) == Firsts(us);
  }

  lemma JoinedAlike(ls: seq<Lora>, ts: seq<Lora>)
    requires AllAlike(ts, ls) && ls != [] && |ls[0].A.shape| > 2 && CatLoras(ls).Success?
    ensures CatLoras(ts).Success? && ShapedLike(CatLoras(ts).value, CatLoras(ls).value)
    ensures CanCat(As(ls)) && CanCat(As(ts)) && Firsts(As(ts)) == Firsts(As(ls))
    ensures CanCat(Bs(ls)) && CanCat(Bs(ts)) && Firsts(Bs(ts)) == Firsts(Bs(ls))
  {
    CatsAlike(As(ls), As(ts));
    CatsAlike(Bs(ls), Bs(ts));
  }

  /** The shapes fit whenever the factors broadcast. */
  lemma JoinedShape(ls: seq<Lora>, l': Lora)
    requires ls != [] && (forall i :: 0 <= i < |ls| ==> Valid(ls[i])) && |ls[0].A.shape| > 2
    requires CatLoras(ls) == Success(l') && Valid(l')
    ensures forall i :: 0 <= i < |ls| ==> |ls[i].A.shape| == |ls[0].A.shape| && Rank(ls[i]) == Rank(ls[0]) == Rank(l')
    ensures CanCat(Denses(ls)) && Firsts(Denses(ls)) == Firsts(Bs(ls))
    ensures Shape(l') == [Total(Firsts(Bs(ls)))] + Shape(ls[0])[1..] == Cat(Denses(ls)).shape
  {
    CatParts(ls);
    CatRanks(ls, |ls[0].A.shape|);
    JoinedRows(ls, l');
  }

  lemma JoinedRows(ls: seq<Lora>, l': Lora)
    requires ls != [] && Valid(ls[0]) && |ls[0].A.shape| > 2 && CatLoras(ls) == Success(l') && Valid(l')
    ensures Rank(l') == Rank(ls[0]) && Shape(l') == [Total(Firsts(Bs(ls)))] + Shape(ls[0])[1..]
  {
  }

  lemma NothingToRead(ls: seq<Lora>)
    requires ls != [] && (forall i :: 0 <= i < |ls| ==> Valid(ls[i])) && |ls[0].A.shape| > 2
    requires CatLoras(ls).Success? && Valid(CatLoras(ls).value) && NoEntries(ls)
    ensures CatRight(ls)
  {
    var l' := CatLoras(ls).value;
    JoinedShape(ls, l');
    forall ix | InBounds(ix, Shape(l')) ensures Dense(l').at(ix) == Cat(Denses(ls)).at(ix) {
      NothingEmpty(ix, Shape(l'));
      assert Shape(ls[0])[1..] == Shape(l')[1..];
      assert 0 !in Shape(ls[0])[1..];
      ZeroParts(ls, ix);
      RankZero(l', ix);
    }
  }

  lemma ZeroParts(ls: seq<Lora>, ix: Index)
    requires (forall i :: 0 <= i < |ls| ==> Valid(ls[i]) && Rank(ls[i]) == 0) && CanCat(Denses(ls))
    ensures Cat(Denses(ls)).at(ix) == 0.0
  {
    if ix != [] && PartOf(Firsts(Denses(ls)), ix[0]) < |ls| {
      var p := PartOf(Firsts(Denses(ls)), ix[0]);
      RankZero(ls[p], [PlaceIn(Firsts(Denses(ls)), ix[0])] + ix[1..]);
    }
  }

  /** The concatenated A is read in a part other than `p`, and so holds zero. */
  lemma JoinedZero(ls: seq<Lora>, l': Lora, p: nat, x: nat, tail: Index)
    requires CanCat(As(ls)) && l'.A == Cat(As(ls)) && Valid(l') && |tail| + 1 == |l'.A.shape| >= 3
    requires x < Total(Firsts(As(ls))) != 1 && PartOf(Firsts(As(ls)), x) != p
    requires forall i :: 0 <= i < |ls| && i != p ==> ls[i].A == Constant(ls[i].A.shape, 0.0)
    ensures Dense(l').at([x] + tail) == 0.0
  {
    var rest := ls[0].A.shape[1..];
    forall k: nat | k < Rank(l') ensures Term(l', [x] + tail, k) == 0.0 {
      FirstColumn(Total(Firsts(As(ls))), rest, x, tail, k);
      CatAt(As(ls), x, ColIndex(rest, tail, k));
    }
    EntryOfZeros(l', [x] + tail);
  }

  lemma SeparateOne(ls: seq<Lora>, p: nat, x: nat, tail: Index)
    requires (forall i :: 0 <= i < |ls| ==> Valid(ls[i])) && CanCat(Denses(ls)) && x < Total(Firsts(Denses(ls)))
    requires PartOf(Firsts(Denses(ls)), x) == p && p < |ls| && |tail| + 1 == |ls[p].A.shape|
    requires ls[p] == Lora(Constant(ls[p].A.shape, 1.0), Constant(ls[p].B.shape, 1.0))
    ensures Cat(Denses(ls)).at([x] + tail) == Rank(ls[p]) as real
  {
    CatAt(Denses(ls), x, tail);
    var jx := [PlaceIn(Firsts(Denses(ls)), x)] + tail;
    forall k: nat | k < Rank(ls[p]) ensures Term(ls[p], jx, k) == 1.0 {
    }
    EntryOfOnes(ls[p], jx);
  }

  /** Sizes that agree by accident: for some values the product is another one. */
  lemma AccidentGoesWrong(ls: seq<Lora>)
    requires ls != [] && (forall i :: 0 <= i < |ls| ==> Valid(ls[i])) && |ls[0].A.shape| > 2
    requires CatLoras(ls).Success? && Valid(CatLoras(ls).value)
    requires Accidental(ls) && !BatchesAlign(ls) && !NoEntries(ls)
    ensures exists ts :: AllAlike(ts, ls) && !CatRight(ts)
  {
    CatTails(ls);
    CatSized(ls);
    var x := Misaligned(Firsts(As(ls)), Firsts(Bs(ls)));
    PartInRange(Firsts(Bs(ls)), x);
    var ts := OnlyPart(ls, PartOf(Firsts(Bs(ls)), x));
    WrongAt(ls, ts, x);
  }

  lemma WrongAt(ls: seq<Lora>, ts: seq<Lora>, x: nat)
    requires ls != [] && (forall i :: 0 <= i < |ls| ==> Valid(ls[i])) && |ls[0].A.shape| > 2
    requires CatLoras(ls).Success? && Valid(CatLoras(ls).value) && Shaped(ls) && !NoEntries(ls)
    requires var a, b := Firsts(As(ls)), Firsts(Bs(ls));
             && x < Total(b) == Total(a) != 1 && PartOf(a, x) != PartOf(b, x) < |ls|
             && ts == OnlyPart(ls, PartOf(b, x))
    ensures !CatRight(ts)
  {
    PartsAlike(ls, ts);
    JoinedAlike(ls, ts);
    Alike(CatLoras(ls).value, CatLoras(ts).value);
    JoinedShape(ts, CatLoras(ts).value);
    WrongEntry(ts, CatLoras(ts).value, PartOf(Firsts(Bs(ls)), x), x, Origin(|ls[0].A.shape| - 1));
  }

  lemma WrongEntry(ts: seq<Lora>, l': Lora, p: nat, x: nat, tail: Index)
    requires (forall i :: 0 <= i < |ts| ==> Valid(ts[i])) && p < |ts| && |ts[p].A.shape| == |l'.A.shape| >= 3
    requires CatLoras(ts) == Success(l') && Valid(l') && CanCat(As(ts)) && l'.A == Cat(As(ts)) && CanCat(Denses(ts))
    requires Shape(l') == [Total(Firsts(Denses(ts)))] + Shape(ts[0])[1..] && 0 !in Shape(ts[0])[1..] && Rank(ts[p]) > 0
    requires tail == Origin(|l'.A.shape| - 1)
    requires x < Total(Firsts(As(ts))) != 1 && x < Total(Firsts(Denses(ts)))
    requires PartOf(Firsts(Denses(ts)), x) == p != PartOf(Firsts(As(ts)), x)
    requires ts[p] == Lora(Constant(ts[p].A.shape, 1.0), Constant(ts[p].B.shape, 1.0))
    requires forall i :: 0 <= i < |ts| && i != p ==> ts[i].A == Constant(ts[i].A.shape, 0.0)
    ensures !CatRight(ts)
  {
    JoinedZero(ts, l', p, x, tail);
    SeparateOne(ts, p, x, tail);
    OriginInside([x] + tail, Shape(l'), tail);
    NotRightAt(ts, l', [x] + tail);
  }

  lemma NotRightAt(ts: seq<Lora>, l': Lora, ix: Index)
    requires (forall i :: 0 <= i < |ts| ==> Valid(ts[i])) && CatLoras(ts) == Success(l') && Valid(l')
    requires CanCat(Denses(ts)) && InBounds(ix, Shape(l')) && Dense(l').at(ix) != Cat(Denses(ts)).at(ix)
    ensures !CatRight(ts)
  {
  }

  lemma OriginInside(ix: Index, shape: seq<nat>, tail: Index)
    requires shape != [] && |ix| == |shape| && tail == Origin(|shape| - 1) && ix[1..] == tail && ix[0] < shape[0]
    requires 0 !in shape[1..]
    ensures InBounds(ix, shape)
  {
    forall i | 0 <= i < |ix| ensures ix[i] < shape[i] {
      if i > 0 { assert ix[i] == tail[i - 1] == 0 && shape[i] == shape[1..][i - 1]; }
    }
  }

  /**
   A batched concatenation that is accepted is right for all factors of these shapes exactly when the
   batches align, or the totals agree by accident and there is nothing to read.
   */
  lemma CatAlwaysRight(ls: seq<Lora>)
    requires ls != [] && (forall i :: 0 <= i < |ls| ==> Valid(ls[i])) && |ls[0].A.shape| > 2
    requires CatLoras(ls).Success?
    ensures (forall ts :: AllAlike(ts, ls) ==> CatRight(ts)) <==> BatchesAlign(ls) || (Accidental(ls) && NoEntries(ls))
  {
    CatExactly(ls);
    if BatchesAlign(ls) || (Accidental(ls) && NoEntries(ls)) {
      forall ts | AllAlike(ts, ls) ensures CatRight(ts) { RightAlike(ls, ts); }
    }
    if forall ts :: AllAlike(ts, ls) ==> CatRight(ts) {
      assert AllAlike(ls, ls);
      if !BatchesAlign(ls) && !NoEntries(ls) { AccidentGoesWrong(ls); }
    }
  }

  lemma RightAlike(ls: seq<Lora>, ts: seq<Lora>)
    requires ls != [] && (forall i :: 0 <= i < |ls| ==> Valid(ls[i])) && |ls[0].A.shape| > 2 && AllAlike(ts, ls)
    requires CatLoras(ls).Success? && (BatchesAlign(ls) || (Accidental(ls) && NoEntries(ls)))
    ensures CatRight(ts)
  {
    CatExactly(ls);
    PartsAlike(ls, ts);
    JoinedAlike(ls, ts);
    Alike(CatLoras(ls).value, CatLoras(ts).value);
    if BatchesAlign(ls) { CatRefines(ts); } else { NothingToRead(ts); }
  }
}
