/**
 `__getitem__` of `LoraTorchTensor` with a tuple of integers, slices and ellipses. The batch
 slices are not applied to A, integers on the last two axes are applied to one factor each, and
 an ellipsis is spread over a number of axes that need not be the number left.
 */
module LoraTuples {
  import opened Wrappers
  import opened Tensors
  import opened Picks
  import opened PickMoves
  import opened LoraTensor
  import opened LoraIndexing

  /** What the tuple branch does to the batch axes of A: integers wrap around, slices are dropped. */
  function BatchPicksA(picks: seq<Pick>, shape: seq<nat>): (r: seq<Pick>)
    requires |picks| == |shape|
    ensures |r| == |picks|
  {
    seq(|picks|, i requires 0 <= i < |picks| =>
      if picks[i].At? && shape[i] > 0 then At(picks[i].index % shape[i]) else FULL)
  }

  /** The picks a tuple stands for, padded to every axis. */
  function Padded(picks: seq<Pick>, n: nat): seq<Pick>
    requires |picks| <= n
  {
    picks + Fulls(n - |picks|)
  }

  /** A tuple of picks, padded with full slices. */
  function GetTuple(l: Lora, picks: seq<Pick>): Result<Lora, LoraError>
    requires Valid(l)
  {
    var n := |l.A.shape|;
    if picks == [] then Failure(AssertionFailed)
    else if |picks| > n then Failure(TorchError)
    else
      var all := Padded(picks, n);
      PickFactors(l, BatchPicksA(all[..n - 2], l.A.shape[..n - 2]), all[..n - 2], all[n - 2], all[n - 1])
  }

  /** A slice in the tuple branch is not applied to A, so A's axis must have size 1 or the slice must keep all of it. */
  predicate TupleSlicesOk(picks: seq<Pick>, a: seq<nat>, b: seq<nat>)
    requires |picks| == |a| == |b|
  {
    forall i :: 0 <= i < |picks| && picks[i].Slice? ==> a[i] == 1 || Len(picks[i], b[i]) == a[i]
  }

  /** An integer's remainder is the index it means, on an axis that has it. */
  lemma WrapsAround(i: int, d: nat)
    requires 0 <= i + d && i < d
    ensures Norm(i % d, d) == Norm(i, d)
  {
    if i >= 0 {
      assert i % d == i;
    } else {
      assert i % d == i + d;
    }
  }

  lemma IntegerAgrees(p: Pick, da: nat, db: nat)
    requires p.At? && (da == 1 || da == db) && PickOk(p, db) && da > 0
    ensures AxisAgrees(At(p.index % da), da, p, db)
  {
    if da != 1 { WrapsAround(p.index, da); }
  }

  lemma SliceAgrees(p: Pick, da: nat, db: nat)
    requires p.Slice? && PickOk(p, db) && (da == 1 || (da == db && Len(p, db) == da))
    ensures AxisAgrees(FULL, da, p, db)
  {
    FullSlice(da);
    forall x: nat | x < Len(p, db) ensures ElemAgrees(FULL, da, p, db, x) {
      FullElem(da, if Len(FULL, da) == 1 then 0 else x);
      if da != 1 { WholeSlice(p, db, x); } else { SliceElement(p, db, x); }
    }
  }

  lemma TupleAxesAgree(picks: seq<Pick>, a: seq<nat>, b: seq<nat>)
    requires |picks| == |a| == |b| && Broadcasts(a, b) && TupleSlicesOk(picks, a, b)
    requires forall i :: 0 <= i < |picks| ==> PickOk(picks[i], b[i])
    ensures AxesAgree(BatchPicksA(picks, a), a, picks, b)
  {
    forall i | 0 <= i < |picks| ensures AxisAgrees(BatchPicksA(picks, a)[i], a[i], picks[i], b[i]) {
      if picks[i].At? { IntegerAgrees(picks[i], a[i], b[i]); } else { SliceAgrees(picks[i], a[i], b[i]); }
    }
  }

  lemma TupleExactly(l: Lora, batch: seq<Pick>, row: Pick, col: Pick)
    requires Valid(l) && |batch| + 2 == |l.A.shape| && row.Slice? && col.Slice?
    requires PickFactors(l, BatchPicksA(batch, l.A.shape[..|batch|]), batch, row, col).Success?
    ensures var a, b := l.A.shape[..|batch|], l.B.shape[..|batch|];
            var l' := PickFactors(l, BatchPicksA(batch, a), batch, row, col).value;
            && (Valid(l') <==> TupleSlicesOk(batch, a, b))
            && (Valid(l') ==>
                  && Rank(l') == Rank(l) && PicksOk(batch + [row, col], Shape(l))
                  && Same(Dense(l'), Apply(PickGather(batch + [row, col], Shape(l)), Dense(l))))
  {
    var n := |l.A.shape|;
    var a, b := l.A.shape[..n - 2], l.B.shape[..n - 2];
    var batchA := BatchPicksA(batch, a);
    var l' := PickFactors(l, batchA, batch, row, col).value;
    forall i | 0 <= i < n - 2 ensures PickOk(batch[i], b[i]) {
      assert PickOk((batch + [row, FULL])[i], l.B.shape[i]);
    }
    PickShapes(l, batchA, batch, row, col);
    TupleDims(batch, a, b);
    ValidFrom(l', PickDims(batchA, a), PickDims(batch, b), Rank(l), Len(row, l.B.shape[n - 2]),
              Len(col, l.A.shape[n - 1]));
    if TupleSlicesOk(batch, a, b) {
      TupleAxesAgree(batch, a, b);
      PickRefines(l, batchA, batch, row, col);
    }
  }

  lemma TupleDims(picks: seq<Pick>, a: seq<nat>, b: seq<nat>)
    requires |picks| == |a| == |b| && Broadcasts(a, b) && BatchOk(picks, b)
    ensures |PickDims(BatchPicksA(picks, a), a)| == |PickDims(picks, b)|
    ensures Broadcasts(PickDims(BatchPicksA(picks, a), a), PickDims(picks, b)) <==> TupleSlicesOk(picks, a, b)
  {
    var pa := BatchPicksA(picks, a);
    forall i | 0 <= i < |picks| ensures pa[i].At? <==> picks[i].At? {
      assert PickOk(picks[i], b[i]);
    }
    forall i | 0 <= i < |picks| && picks[i].Slice? ensures Len(pa[i], a[i]) == a[i] {
      FullSlice(a[i]);
    }
    PickDimsBroadcast(pa, a, picks, b);
  }

  // ----- integers on the last two axes -----

  lemma PickTwoDims(picks: seq<Pick>, shape: seq<nat>, p: Pick, d: nat, q: Pick, e: nat)
    requires |picks| == |shape|
    ensures PickDims(picks + [p, q], shape + [d, e]) == PickDims(picks, shape) + Kept(p, d) + Kept(q, e)
  {
    PickOneDim(picks, shape, p, d);
    PickOneDim(picks + [p], shape + [d], q, e);
    assert picks + [p] + [q] == picks + [p, q] && shape + [d] + [e] == shape + [d, e];
  }

  /** What a pick leaves of an axis. */
  function Kept(p: Pick, d: nat): seq<nat> { if p.At? then [] else [Len(p, d)] }

  lemma PickOneDim(picks: seq<Pick>, shape: seq<nat>, p: Pick, d: nat)
    requires |picks| == |shape|
    ensures PickDims(picks + [p], shape + [d]) == PickDims(picks, shape) + Kept(p, d)
  {
    if p.At? { SourceAt(picks, shape, p, d, []); } else { SourceSnoc(picks, shape, p, d, [], 0); }
  }

  /**
   With an integer on one of the last two axes the factors lose different numbers of axes and are refused.
   With integers on both, the constructor takes the last batch axis left of A for the rank.
   */
  lemma LastIntegers(l: Lora, batch: seq<Pick>, row: Pick, col: Pick)
    requires Valid(l) && |batch| + 2 == |l.A.shape| && !(row.Slice? && col.Slice?)
    requires PicksOk(batch + [row, col], Shape(l))
    ensures var a := l.A.shape[..|batch|];
            var batchA := BatchPicksA(batch, a);
            var dims, r := PickDims(batchA, a), PickFactors(l, batchA, batch, row, col);
            && (r.Success? <==> row.At? && col.At? && dims != [] && dims[|dims| - 1] == Rank(l))
            && (r.Success? ==> |r.value.A.shape| == |PickDims(batch + [row, col], Shape(l))| + 1)
  {
    var n := |batch|;
    var a, b, m, c := l.A.shape[..n], l.B.shape[..n], l.B.shape[n], l.A.shape[n + 1];
    var batchA := BatchPicksA(batch, a);
    FactorPicksOk(l, batch, row, col);
    SplitTwo(l.A.shape);
    SplitTwo(l.B.shape);
    assert Shape(l) == b + [m, c];
    PicksOkParts(batch, b, row, m, col, c);
    SamePicksDrop(batch, a, b);
    FullSlice(Rank(l));
    PickTwoDims(batchA, a, FULL, Rank(l), col, c);
    PickTwoDims(batch, b, row, m, FULL, Rank(l));
    PickTwoDims(batch, b, row, m, col, c);
    RefusedUnless(Apply(PickGather(batchA + [FULL, col], l.A.shape), l.A),
                  Apply(PickGather(batch + [row, FULL], l.B.shape), l.B),
                  PickDims(batchA, a), PickDims(batch, b), Rank(l), Kept(col, c), Kept(row, m));
  }

  /** The constructor's checks on factors of which at least one lost an axis. */
  lemma RefusedUnless(A: Tensor, B: Tensor, a: seq<nat>, b: seq<nat>, r: nat, c: seq<nat>, m: seq<nat>)
    requires |a| == |b| && |c| <= 1 && |m| <= 1 && !(|c| == 1 && |m| == 1)
    requires A.shape == a + [r] + c && B.shape == b + m + [r]
    ensures MakeLora(A, B).Success? <==> c == [] && m == [] && a != [] && a[|a| - 1] == r
  {
  }

  lemma SamePicksDrop(picks: seq<Pick>, a: seq<nat>, b: seq<nat>)
    requires |picks| == |a| == |b| && Broadcasts(a, b) && BatchOk(picks, b)
    ensures |PickDims(BatchPicksA(picks, a), a)| == |PickDims(picks, b)|
  {
    TupleDims(picks, a, b);
  }

  predicate BatchOk(picks: seq<Pick>, shape: seq<nat>)
    requires |picks| == |shape|
  {
    forall i :: 0 <= i < |picks| ==> PickOk(picks[i], shape[i])
  }

  lemma PicksOkParts(batch: seq<Pick>, shape: seq<nat>, p: Pick, d: nat, q: Pick, e: nat)
    requires |batch| == |shape|
    ensures PicksOk(batch + [p, q], shape + [d, e]) <==> BatchOk(batch, shape) && PickOk(p, d) && PickOk(q, e)
  {
    var n := |batch|;
    var picks, dims := batch + [p, q], shape + [d, e];
    assert picks[n] == p && picks[n + 1] == q && dims[n] == d && dims[n + 1] == e;
    assert forall i :: 0 <= i < n ==> picks[i] == batch[i] && dims[i] == shape[i];
    if PicksOk(picks, dims) {
      forall i | 0 <= i < n ensures PickOk(batch[i], shape[i]) { assert PickOk(picks[i], dims[i]); }
    }
  }

  lemma WrappedOk(batch: seq<Pick>, a: seq<nat>)
    requires |batch| == |a|
    ensures BatchOk(BatchPicksA(batch, a), a)
  {
  }

  /** The picks are in range for the factors when they are for the product. */
  lemma FactorPicksOk(l: Lora, batch: seq<Pick>, row: Pick, col: Pick)
    requires Valid(l) && |batch| + 2 == |l.A.shape|
    ensures PicksOk(batch + [row, col], Shape(l)) <==>
              && PicksOk(BatchPicksA(batch, l.A.shape[..|batch|]) + [FULL, col], l.A.shape)
              && PicksOk(batch + [row, FULL], l.B.shape)
  {
    var n := |batch|;
    var a, b, m, c := l.A.shape[..n], l.B.shape[..n], l.B.shape[n], l.A.shape[n + 1];
    SplitTwo(l.A.shape);
    SplitTwo(l.B.shape);
    assert Shape(l) == b + [m, c];
    WrappedOk(batch, a);
    PicksOkParts(batch, b, row, m, col, c);
    PicksOkParts(BatchPicksA(batch, a), a, FULL, Rank(l), col, c);
    PicksOkParts(batch, b, row, m, FULL, Rank(l));
  }

  /** `l'` is what a tuple of picks, one for each axis, makes of `l`. */
  ghost predicate PicksFrom(l: Lora, l': Lora, all: seq<Pick>)
    requires Valid(l)
  {
    && Valid(l') && Rank(l') == Rank(l) && PicksOk(all, Shape(l))
    && Same(Dense(l'), Apply(PickGather(all, Shape(l)), Dense(l)))
  }

  lemma PickedAxes(l: Lora, l': Lora, all: seq<Pick>)
    requires Valid(l) && PicksFrom(l, l', all)
    ensures |l'.A.shape| == |PickDims(all, Shape(l))|
  {
  }

  /** The last two picks are slices, and so are harmless the batch slices that A does not get. */
  predicate TupleOk(l: Lora, all: seq<Pick>)
    requires Valid(l) && |all| == |l.A.shape|
  {
    var n := |all|;
    all[n - 2].Slice? && all[n - 1].Slice? && TupleSlicesOk(all[..n - 2], l.A.shape[..n - 2], l.B.shape[..n - 2])
  }

  /** A tuple of picks that is accepted picks from the product exactly when `TupleOk`; otherwise the result is wrong. */
  lemma GetTupleExactly(l: Lora, picks: seq<Pick>)
    requires Valid(l) && GetTuple(l, picks).Success?
    ensures var all := Padded(picks, |l.A.shape|); PicksFrom(l, GetTuple(l, picks).value, all) <==> TupleOk(l, all)
  {
    var n := |l.A.shape|;
    var all := Padded(picks, n);
    var batch, row, col, l' := all[..n - 2], all[n - 2], all[n - 1], GetTuple(l, picks).value;
    assert all == batch + [row, col];
    if row.Slice? && col.Slice? {
      TupleExactly(l, batch, row, col);
    } else {
      if PicksFrom(l, l', all) { PickedAxes(l, l', all); }
      FactorPicksOk(l, batch, row, col);
      LastIntegers(l, batch, row, col);
    }
  }

  // ----- ellipses -----

  datatype Entry = Dots | Of(pick: Pick)

  /** Every ellipsis becomes `width` full slices. */
  function Spread(entries: seq<Entry>, width: nat): seq<Pick> {
    if entries == [] then []
    else (if entries[0].Dots? then Fulls(width) else [entries[0].pick]) + Spread(entries[1..], width)
  }

  /** Ellipses at the end are dropped; any other one is given one slice less than there are entries. */
  function GetEntries(l: Lora, entries: seq<Entry>): Result<Lora, LoraError>
    requires Valid(l)
    decreases |entries|
  {
    if entries == [] then Failure(AssertionFailed)
    else if entries[|entries| - 1].Dots? then GetEntries(l, entries[..|entries| - 1])
    else GetTuple(l, Spread(entries, |entries| - 1))
  }

  function Entries(picks: seq<Pick>): seq<Entry> {
    seq(|picks|, i requires 0 <= i < |picks| => Of(picks[i]))
  }

  /** One pick for each of `n` axes, where an ellipsis stands for all the axes that are left. */
  function Meant(pre: seq<Pick>, post: seq<Pick>, n: nat): seq<Pick>
    requires |pre| + |post| <= n
  {
    pre + Fulls(n - |pre| - |post|) + post
  }

  /** The picks the code makes of an index with one ellipsis that is not at its end. */
  function AsGiven(pre: seq<Pick>, post: seq<Pick>): seq<Pick> { pre + Fulls(|pre| + |post|) + post }

  lemma {:induction false} SpreadEntries(picks: seq<Pick>, rest: seq<Entry>, width: nat)
    ensures Spread(Entries(picks) + rest, width) == picks + Spread(rest, width)
    decreases |picks|
  {
    if picks == [] {
      assert Entries(picks) + rest == rest;
    } else {
      var all := Entries(picks) + rest;
      assert all[0] == Of(picks[0]) && all[1..] == Entries(picks[1..]) + rest;
      SpreadEntries(picks[1..], rest, width);
      assert [picks[0]] + (picks[1..] + Spread(rest, width)) == picks + Spread(rest, width);
    }
  }

  lemma OneEllipsis(pre: seq<Pick>, post: seq<Pick>, width: nat)
    ensures Spread(Entries(pre) + [Dots] + Entries(post), width) == pre + Fulls(width) + post
  {
    var rest := [Dots] + Entries(post);
    assert Entries(pre) + [Dots] + Entries(post) == Entries(pre) + rest;
    SpreadEntries(pre, rest, width);
    assert rest[1..] == Entries(post);
    SpreadEntries(post, [], width);
    assert Entries(post) + [] == Entries(post);
    assert pre + (Fulls(width) + post) == pre + Fulls(width) + post;
  }

  /** At the end an ellipsis means what torch means by it. */
  lemma LastEllipsis(l: Lora, pre: seq<Pick>)
    requires Valid(l) && GetEntries(l, Entries(pre) + [Dots]).Success?
    ensures |pre| <= |l.A.shape| && GetEntries(l, Entries(pre) + [Dots]) == GetTuple(l, pre)
    ensures Padded(pre, |l.A.shape|) == Meant(pre, [], |l.A.shape|)
  {
    var entries := Entries(pre) + [Dots];
    assert entries[..|entries| - 1] == Entries(pre);
    if pre != [] { PlainEntries(l, pre); }
  }

  lemma PlainEntries(l: Lora, picks: seq<Pick>)
    requires Valid(l) && picks != []
    ensures GetEntries(l, Entries(picks)) == GetTuple(l, picks)
  {
    SpreadEntries(picks, [], |picks| - 1);
    assert Entries(picks) + [] == Entries(picks) && picks + Spread([], |picks| - 1) == picks;
    NotAtTheEnd(l, Entries(picks));
  }

  lemma NotAtTheEnd(l: Lora, entries: seq<Entry>)
    requires Valid(l) && entries != [] && !entries[|entries| - 1].Dots?
    ensures GetEntries(l, entries) == GetTuple(l, Spread(entries, |entries| - 1))
  {
  }

  /**
   Anywhere else it is spread over as many axes as there are picks. That is right when the tuple is,
   and the picks it gives move the same elements as those meant; at rank 0, where the product is zero
   everywhere, it is enough that they leave the same shape.
   */
  predicate EllipsisOk(l: Lora, pre: seq<Pick>, post: seq<Pick>)
    requires Valid(l)
  {
    var n, k := |l.A.shape|, |pre| + |post|;
    && 2 * k <= n
    && var given, meant := Padded(AsGiven(pre, post), n), Meant(pre, post, n);
       && TupleOk(l, given) && PicksOk(meant, Shape(l))
       && (if Rank(l) == 0 then PickDims(given, Shape(l)) == PickDims(meant, Shape(l))
           else SamePicks(given, meant, Shape(l)))
  }

  /** An accepted index with such an ellipsis picks from the product what is meant. */
  lemma EllipsisPicks(l: Lora, pre: seq<Pick>, post: seq<Pick>)
    requires Valid(l) && post != [] && GetEntries(l, Entries(pre) + [Dots] + Entries(post)).Success?
    requires EllipsisOk(l, pre, post)
    ensures PicksFrom(l, GetEntries(l, Entries(pre) + [Dots] + Entries(post)).value, Meant(pre, post, |l.A.shape|))
  {
    var n := |l.A.shape|;
    var given, meant := Padded(AsGiven(pre, post), n), Meant(pre, post, n);
    InnerEllipsis(l, pre, post);
    GetTupleExactly(l, AsGiven(pre, post));
    if Rank(l) > 0 { SamePicksMove(given, meant, Shape(l)); }
    SameMoved(l, given, meant);
    SameTwice(Dense(GetTuple(l, AsGiven(pre, post)).value), Apply(PickGather(given, Shape(l)), Dense(l)),
              Apply(PickGather(meant, Shape(l)), Dense(l)));
  }

  lemma SameMoved(l: Lora, ps: seq<Pick>, qs: seq<Pick>)
    requires Valid(l) && |ps| == |qs| == |Shape(l)|
    requires if Rank(l) == 0 then PickDims(ps, Shape(l)) == PickDims(qs, Shape(l))
             else SameGather(PickGather(ps, Shape(l)), PickGather(qs, Shape(l)))
    ensures Same(Apply(PickGather(ps, Shape(l)), Dense(l)), Apply(PickGather(qs, Shape(l)), Dense(l)))
  {
    var g, h := PickGather(ps, Shape(l)), PickGather(qs, Shape(l));
    forall ix | InBounds(ix, g.shape) ensures Dense(l).at(g.source(ix)) == Dense(l).at(h.source(ix)) {
      if Rank(l) == 0 {
        RankZero(l, g.source(ix));
        RankZero(l, h.source(ix));
      }
    }
  }

  lemma InnerEllipsis(l: Lora, pre: seq<Pick>, post: seq<Pick>)
    requires Valid(l) && post != []
    ensures GetEntries(l, Entries(pre) + [Dots] + Entries(post)) == GetTuple(l, AsGiven(pre, post))
  {
    var entries := Entries(pre) + [Dots] + Entries(post);
    assert entries[|entries| - 1] == Of(post[|post| - 1]);
    assert |entries| == |pre| + 1 + |post|;
    OneEllipsis(pre, post, |pre| + |post|);
    NotAtTheEnd(l, entries);
  }
}
