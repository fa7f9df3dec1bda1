/**
 `__getitem__` of `LoraTorchTensor` with picks for every axis, and with one for the first axis.
 When the picked factors still broadcast, they are the factors of the picked product.
 */
module LoraIndexing {
  import opened Wrappers
  import opened Tensors
  import opened Picks
  import opened LoraTensor

  function Fulls(n: nat): seq<Pick> { seq(n, _ => FULL) }

  /** Picks on the factors that pick batch axes from both, rows from B and columns from A. */
  function PickFactors(l: Lora, batchA: seq<Pick>, batchB: seq<Pick>, row: Pick, col: Pick): Result<Lora, LoraError>
    requires Valid(l) && |batchA| == |batchB| == |l.A.shape| - 2
  {
    var picksA, picksB := batchA + [FULL, col], batchB + [row, FULL];
    if !PicksOk(picksA, l.A.shape) || !PicksOk(picksB, l.B.shape) then Failure(TorchError)
    else MakeLora(Apply(PickGather(picksA, l.A.shape), l.A), Apply(PickGather(picksB, l.B.shape), l.B))
  }

  /** `t[i]` and `t[i:j]`: the first axis. */
  function GetFirst(l: Lora, p: Pick): Result<Lora, LoraError>
    requires Valid(l)
  {
    var n := |l.A.shape|;
    if n > 2 then PickFactors(l, [p] + Fulls(n - 3), [p] + Fulls(n - 3), FULL, FULL)
    else if p.At? then Failure(NotImplemented)
    else PickFactors(l, [], [], p, FULL)
  }

  lemma PickTwo(picks: seq<Pick>, shape: seq<nat>, p: Pick, d: nat, q: Pick, e: nat, ix: Index, i: nat, j: nat)
    requires |picks| == |shape| && p.Slice? && q.Slice?
    ensures PickDims(picks + [p, q], shape + [d, e]) == PickDims(picks, shape) + [Len(p, d), Len(q, e)]
    ensures Source(picks + [p, q], shape + [d, e], ix + [i, j])
            == Source(picks, shape, ix) + [Elem(p, d, i), Elem(q, e, j)]
  {
    SourceSnoc(picks, shape, p, d, ix, i);
    SourceSnoc(picks + [p], shape + [d], q, e, ix + [i], j);
    assert picks + [p] + [q] == picks + [p, q] && shape + [d] + [e] == shape + [d, e] && ix + [i] + [j] == ix + [i, j];
  }

  lemma SplitTwo(shape: seq<nat>)
    requires |shape| >= 2
    ensures shape == shape[..|shape| - 2] + [shape[|shape| - 2], shape[|shape| - 1]]
  {
  }

  /** Reading the k-th entry of a picked row of B. */
  lemma PickRow(b: seq<nat>, r: nat, m: nat, n: nat, batch: seq<Pick>, row: Pick, col: Pick,
                bix: Index, i: nat, j: nat, k: nat)
    requires |batch| == |b| && row.Slice? && col.Slice?
    ensures var g := Source(batch + [row, col], b + [m, n], bix + [i, j]);
            && Source(batch + [row, FULL], b + [m, r], bix + [i, k]) == RowIndex(g, k)
            && g[..|b|] == Source(batch, b, bix) && g[|b| + 1] == Elem(col, n, j)
  {
    PickTwo(batch, b, row, m, col, n, bix, i, j);
    PickTwo(batch, b, row, m, FULL, r, bix, i, k);
    FullElem(r, k);
    var s, e, f := Source(batch, b, bix), Elem(row, m, i), Elem(col, n, j);
    TwoAppended(s, e, f, k);
  }

  lemma TwoAppended(s: Index, e: nat, f: nat, k: nat)
    ensures (s + [e, f])[..|s|] == s && (s + [e, f])[|s| + 1] == f
    ensures RowIndex(s + [e, f], k) == s + [e, k]
  {
  }

  /** Reading the k-th entry of a picked column of A. */
  lemma PickColumn(a: seq<nat>, b: seq<nat>, r: nat, n: nat, batchA: seq<Pick>, batchB: seq<Pick>, col: Pick,
                   bix: Index, j: nat, k: nat)
    requires AxesAgree(batchA, a, batchB, b) && col.Slice?
    requires InBounds(bix, PickDims(batchB, b))
    ensures |PickDims(batchA, a)| == |bix|
    ensures Source(batchA + [FULL, col], a + [r, n], Clamp(bix, PickDims(batchA, a)) + [k, j])
            == Clamp(Source(batchB, b, bix), a) + [k, Elem(col, n, j)]
  {
    AgreeingPicks(batchA, a, batchB, b, bix);
    PickTwo(batchA, a, FULL, r, col, n, Clamp(bix, PickDims(batchA, a)), k, j);
    FullElem(r, k);
  }

  lemma PickShapes(l: Lora, batchA: seq<Pick>, batchB: seq<Pick>, row: Pick, col: Pick)
    requires Valid(l) && |batchA| == |batchB| == |l.A.shape| - 2 && row.Slice? && col.Slice?
    requires PickFactors(l, batchA, batchB, row, col).Success?
    ensures var n := |l.A.shape|;
            var l' := PickFactors(l, batchA, batchB, row, col).value;
            && l'.A.shape == PickDims(batchA, l.A.shape[..n - 2]) + [Rank(l), Len(col, l.A.shape[n - 1])]
            && l'.B.shape == PickDims(batchB, l.B.shape[..n - 2]) + [Len(row, l.B.shape[n - 2]), Rank(l)]
  {
    var n := |l.A.shape|;
    SplitTwo(l.A.shape);
    SplitTwo(l.B.shape);
    FullSlice(Rank(l));
    PickTwo(batchA, l.A.shape[..n - 2], FULL, Rank(l), col, l.A.shape[n - 1], [], 0, 0);
    PickTwo(batchB, l.B.shape[..n - 2], row, l.B.shape[n - 2], FULL, Rank(l), [], 0, 0);
  }

  lemma ValidFrom(l: Lora, a: seq<nat>, b: seq<nat>, r: nat, m: nat, c: nat)
    requires l.A.shape == a + [r, c] && l.B.shape == b + [m, r] && |a| == |b|
    ensures Valid(l) <==> Broadcasts(a, b)
    ensures Valid(l) ==> Rank(l) == r && Shape(l) == b + [m, c]
  {
    assert (a + [r, c])[..|a|] == a && (b + [m, r])[..|b|] == b;
  }

  /** Whatever is picked from the factors in agreement is picked from the product. */
  lemma PickRefines(l: Lora, batchA: seq<Pick>, batchB: seq<Pick>, row: Pick, col: Pick)
    requires Valid(l) && |batchA| == |batchB| == |l.A.shape| - 2 && row.Slice? && col.Slice?
    requires AxesAgree(batchA, l.A.shape[..|batchA|], batchB, l.B.shape[..|batchA|])
    requires PickFactors(l, batchA, batchB, row, col).Success?
    ensures var l' := PickFactors(l, batchA, batchB, row, col).value;
            && Valid(l') && Rank(l') == Rank(l)
            && PicksOk(batchB + [row, col], Shape(l))
            && Same(Dense(l'), Apply(PickGather(batchB + [row, col], Shape(l)), Dense(l)))
  {
    var n := |l.A.shape|;
    var a, b := l.A.shape[..n - 2], l.B.shape[..n - 2];
    var r, m, c := Rank(l), l.B.shape[n - 2], l.A.shape[n - 1];
    var l' := PickFactors(l, batchA, batchB, row, col).value;
    SplitTwo(l.A.shape);
    SplitTwo(l.B.shape);
    PickShapes(l, batchA, batchB, row, col);
    AxesBroadcast(batchA, a, batchB, b);
    ValidFrom(l, a, b, r, m, c);
    ValidFrom(l', PickDims(batchA, a), PickDims(batchB, b), r, Len(row, m), Len(col, c));
    PickCommutes(l, l', batchA, batchB, row, col);
    GatherRefines(l, l', PickGather(batchA + [FULL, col], l.A.shape), PickGather(batchB + [row, FULL], l.B.shape),
                  PickGather(batchB + [row, col], Shape(l)));
  }

  lemma AxesBroadcast(pa: seq<Pick>, a: seq<nat>, pb: seq<Pick>, b: seq<nat>)
    requires AxesAgree(pa, a, pb, b)
    ensures Broadcasts(PickDims(pa, a), PickDims(pb, b))
  {
    forall i | 0 <= i < |pa| ensures pa[i].At? <==> pb[i].At? {
      assert AxisAgrees(pa[i], a[i], pb[i], b[i]);
    }
    forall i | 0 <= i < |pa| && pb[i].Slice? ensures Len(pa[i], a[i]) == 1 || Len(pa[i], a[i]) == Len(pb[i], b[i]) {
      assert AxisAgrees(pa[i], a[i], pb[i], b[i]);
    }
    PickDimsBroadcast(pa, a, pb, b);
  }

  lemma PickCommutes(l: Lora, l': Lora, batchA: seq<Pick>, batchB: seq<Pick>, row: Pick, col: Pick)
    requires Valid(l) && Valid(l') && |batchA| == |batchB| == |l.A.shape| - 2 && row.Slice? && col.Slice?
    requires AxesAgree(batchA, l.A.shape[..|batchA|], batchB, l.B.shape[..|batchA|])
    requires PickFactors(l, batchA, batchB, row, col) == Success(l')
    requires Rank(l') == Rank(l)
    ensures PicksOk(batchB + [row, col], Shape(l))
    ensures Commutes(l, l', PickGather(batchA + [FULL, col], l.A.shape), PickGather(batchB + [row, FULL], l.B.shape),
                     PickGather(batchB + [row, col], Shape(l)))
  {
    var n := |batchA|;
    var a, b, r, m, c := l.A.shape[..n], l.B.shape[..n], Rank(l), l.B.shape[n], l.A.shape[n + 1];
    PicksForProduct(batchA, batchB, row, col, l.A.shape, l.B.shape, Shape(l));
    PickFits(batchB + [row, col], Shape(l));
    PickShapes(l, batchA, batchB, row, col);
    PickedShapes(l, l', a, b, r, m, c, PickDims(batchA, a), PickDims(batchB, b), Len(row, m), Len(col, c));
    PickTwo(batchB, b, row, m, col, c, [], 0, 0);
    PickReadsThrough(a, b, r, m, c, l.A.shape, l.B.shape, Shape(l), l'.A.shape, batchA, batchB, row, col);
  }

  lemma PickedShapes(l: Lora, l': Lora, a: seq<nat>, b: seq<nat>, r: nat, m: nat, c: nat,
                     a': seq<nat>, b': seq<nat>, m': nat, c': nat)
    requires Valid(l) && Valid(l') && |a| + 2 == |l.A.shape| == |b| + 2 && r == Rank(l)
    requires a == l.A.shape[..|a|] && b == l.B.shape[..|b|] && m == l.B.shape[|b|] && c == l.A.shape[|a| + 1]
    requires l'.A.shape == a' + [r, c'] && l'.B.shape == b' + [m', r]
    ensures l.A.shape == a + [r, c] && l.B.shape == b + [m, r] && Shape(l) == b + [m, c]
    ensures Shape(l') == b' + [m', c']
  {
    SplitTwo(l.A.shape);
    SplitTwo(l.B.shape);
    assert |a'| == |b'|;
    ValidFrom(l', a', b', r, m', c');
  }

  lemma PickReadsThrough(a: seq<nat>, b: seq<nat>, r: nat, m: nat, c: nat, sa: seq<nat>, sb: seq<nat>, s: seq<nat>,
                         sa': seq<nat>, batchA: seq<Pick>, batchB: seq<Pick>, row: Pick, col: Pick)
    requires AxesAgree(batchA, a, batchB, b) && row.Slice? && col.Slice?
    requires sa == a + [r, c] && sb == b + [m, r] && s == b + [m, c] && sa' == PickDims(batchA, a) + [r, Len(col, c)]
    ensures ReadsThrough(sa, sa', r, PickGather(batchA + [FULL, col], sa), PickGather(batchB + [row, FULL], sb),
                         PickGather(batchB + [row, col], s))
  {
    AxesBroadcast(batchA, a, batchB, b);
    PickTwo(batchB, b, row, m, col, c, [], 0, 0);
    var ga, gb, g := PickGather(batchA + [FULL, col], sa), PickGather(batchB + [row, FULL], sb),
                     PickGather(batchB + [row, col], s);
    forall ix: Index, k: nat | InBounds(ix, g.shape) && k < r ensures ReadsEntry(sa, sa', ga, gb, g, ix, k) {
      PickIndices(a, b, r, m, c, sa', batchA, batchB, row, col, ix, k);
    }
  }

  lemma PickIndices(a: seq<nat>, b: seq<nat>, r: nat, m: nat, c: nat, sa': seq<nat>,
                    batchA: seq<Pick>, batchB: seq<Pick>, row: Pick, col: Pick, ix: Index, k: nat)
    requires AxesAgree(batchA, a, batchB, b) && row.Slice? && col.Slice?
    requires InBounds(ix, PickDims(batchB + [row, col], b + [m, c]))
    requires sa' == PickDims(batchA, a) + [r, Len(col, c)]
    ensures |ix| == |sa'|
    ensures Source(batchB + [row, FULL], b + [m, r], RowIndex(ix, k))
            == RowIndex(Source(batchB + [row, col], b + [m, c], ix), k)
    ensures Source(batchA + [FULL, col], a + [r, c], ColIndex(sa', ix, k))
            == ColIndex(a + [r, c], Source(batchB + [row, col], b + [m, c], ix), k)
  {
    PickTwo(batchB, b, row, m, col, c, [], 0, 0);
    var dims := PickDims(batchB, b);
    BatchInBounds(ix, dims, Len(row, m), Len(col, c));
    var bix, i, j := ix[..|dims|], ix[|dims|], ix[|dims| + 1];
    PickRow(b, r, m, c, batchB, row, col, bix, i, j, k);
    PickColumn(a, b, r, c, batchA, batchB, col, bix, j, k);
    TwoAppended(bix, i, j, k);
    ColumnIndex(PickDims(batchA, a), r, Len(col, c), bix, i, j, k);
    SourceColumn(a, b, r, m, c, batchB, row, col, bix, i, j, k);
  }

  lemma SourceColumn(a: seq<nat>, b: seq<nat>, r: nat, m: nat, c: nat, batch: seq<Pick>, row: Pick, col: Pick,
                     bix: Index, i: nat, j: nat, k: nat)
    requires |batch| == |b| == |a| && row.Slice? && col.Slice?
    ensures ColIndex(a + [r, c], Source(batch + [row, col], b + [m, c], bix + [i, j]), k)
            == Clamp(Source(batch, b, bix), a) + [k, Elem(col, c, j)]
  {
    PickTwo(batch, b, row, m, col, c, bix, i, j);
    ColumnIndex(a, r, c, Source(batch, b, bix), Elem(row, m, i), Elem(col, c, j), k);
  }

  lemma BatchInBounds(ix: Index, dims: seq<nat>, m: nat, n: nat)
    requires InBounds(ix, dims + [m, n])
    ensures |ix| == |dims| + 2 && InBounds(ix[..|dims|], dims)
    ensures ix == ix[..|dims|] + [ix[|dims|], ix[|dims| + 1]]
  {
    assert forall x :: 0 <= x < |dims| ==> (dims + [m, n])[x] == dims[x];
  }

  lemma ColumnIndex(a: seq<nat>, r: nat, c: nat, bix: Index, i: nat, j: nat, k: nat)
    requires |bix| == |a|
    ensures ColIndex(a + [r, c], bix + [i, j], k) == Clamp(bix, a) + [k, j]
  {
    assert (bix + [i, j])[..|a|] == bix && (a + [r, c])[..|a|] == a;
  }

  lemma PicksForProduct(batchA: seq<Pick>, batchB: seq<Pick>, row: Pick, col: Pick,
                        a: seq<nat>, b: seq<nat>, s: seq<nat>)
    requires |a| == |b| == |s| == |batchA| + 2 == |batchB| + 2
    requires PicksOk(batchA + [FULL, col], a) && PicksOk(batchB + [row, FULL], b)
    requires s[..|s| - 1] == b[..|s| - 1] && s[|s| - 1] == a[|s| - 1]
    ensures PicksOk(batchB + [row, col], s)
  {
    var n := |s|;
    var ps, qs := batchB + [row, col], batchB + [row, FULL];
    forall i | 0 <= i < n ensures PickOk(ps[i], s[i]) {
      if i < n - 1 {
        assert ps[i] == qs[i] && s[i] == s[..n - 1][i] == b[i];
        assert PickOk(qs[i], b[i]);
      } else {
        assert PickOk((batchA + [FULL, col])[i], a[i]);
      }
    }
  }

  // ----- when the factors agree -----

  lemma FullAgrees(da: nat, db: nat)
    requires da == 1 || da == db
    ensures AxisAgrees(FULL, da, FULL, db)
  {
    FullSlice(da);
    FullSlice(db);
    forall x: nat | x < Len(FULL, db) ensures ElemAgrees(FULL, da, FULL, db, x) {
      FullElem(db, x);
      FullElem(da, if Len(FULL, da) == 1 then 0 else x);
    }
  }

  /** Slicing a broadcast first axis in place is harmless unless it leaves nothing of it. */
  predicate FirstSliceOk(p: Pick, da: nat, db: nat) {
    p.Slice? ==> da == db || Len(p, 1) == 1 || Len(p, db) == 0
  }

  lemma FirstAgrees(p: Pick, da: nat, db: nat)
    requires (da == 1 || da == db) && PickOk(p, da) && PickOk(p, db) && FirstSliceOk(p, da, db)
    ensures AxisAgrees(p, da, p, db)
  {
    if p.Slice? {
      forall x: nat | x < Len(p, db) ensures ElemAgrees(p, da, p, db, x) {
        SliceElement(p, db, x);
        if Len(p, da) == 1 { SliceElement(p, da, 0); }
      }
      if da == 1 { ShortSlice(p); }
    }
  }

  /** A slice of an axis of size 1 has at most one element. */
  lemma ShortSlice(p: Pick)
    requires p.Slice? && p.step > 0
    ensures Len(p, 1) <= 1
  {
    if Len(p, 1) > 1 {
      ElemIs(p, 1, 1);
      SliceElement(p, 1, 1);
    }
  }

  lemma AxesAgreeCons(p: Pick, da: nat, db: nat, a: seq<nat>, b: seq<nat>)
    requires |a| == |b| && Broadcasts(a, b) && AxisAgrees(p, da, p, db)
    ensures AxesAgree([p] + Fulls(|a|), [da] + a, [p] + Fulls(|a|), [db] + b)
  {
    var ps := [p] + Fulls(|a|);
    forall i | 0 <= i < |ps| ensures AxisAgrees(ps[i], ([da] + a)[i], ps[i], ([db] + b)[i]) {
      if i > 0 { FullAgrees(a[i - 1], b[i - 1]); }
    }
  }

  /** The picks on the product that `t[p]` stands for. */
  function FirstPicks(p: Pick, n: nat): seq<Pick>
    requires n > 0
  {
    [p] + Fulls(n - 1)
  }

  /** `t[i]` and `t[i:j]` pick from the product, with the broadcast axis as the one exception. */
  lemma GetFirstRefines(l: Lora, p: Pick)
    requires Valid(l) && GetFirst(l, p).Success?
    requires |l.A.shape| > 2 ==> FirstSliceOk(p, l.A.shape[0], l.B.shape[0])
    ensures var l' := GetFirst(l, p).value;
            && Valid(l') && Rank(l') == Rank(l) && PicksOk(FirstPicks(p, |l.A.shape|), Shape(l))
            && Same(Dense(l'), Apply(PickGather(FirstPicks(p, |l.A.shape|), Shape(l)), Dense(l)))
  {
    var n := |l.A.shape|;
    if n > 2 {
      var batch := [p] + Fulls(n - 3);
      assert batch + [FULL, FULL] == FirstPicks(p, n);
      assert PickOk((batch + [FULL, FULL])[0], l.A.shape[0]) && PickOk((batch + [FULL, FULL])[0], l.B.shape[0]);
      FirstAxesAgree(p, l.A.shape[..n - 2], l.B.shape[..n - 2]);
      PickRefines(l, batch, batch, FULL, FULL);
    } else {
      assert [] + [p, FULL] == FirstPicks(p, n);
      PickRefines(l, [], [], p, FULL);
    }
  }

  lemma FirstAxesAgree(p: Pick, a: seq<nat>, b: seq<nat>)
    requires a != [] && Broadcasts(a, b) && PickOk(p, a[0]) && PickOk(p, b[0]) && FirstSliceOk(p, a[0], b[0])
    ensures AxesAgree([p] + Fulls(|a| - 1), a, [p] + Fulls(|a| - 1), b)
  {
    FirstAgrees(p, a[0], b[0]);
    AxesAgreeCons(p, a[0], b[0], a[1..], b[1..]);
    assert [a[0]] + a[1..] == a && [b[0]] + b[1..] == b;
  }

  /** A first slice gives factors that still broadcast exactly when it leaves a broadcast axis its one element. */
  lemma GetFirstExactly(l: Lora, p: Pick)
    requires Valid(l) && GetFirst(l, p).Success?
    ensures Valid(GetFirst(l, p).value) <==> (|l.A.shape| > 2 ==> FirstSliceOk(p, l.A.shape[0], l.B.shape[0]))
  {
    var n := |l.A.shape|;
    if n > 2 && !FirstSliceOk(p, l.A.shape[0], l.B.shape[0]) {
      var a, b, batch := l.A.shape[..n - 2], l.B.shape[..n - 2], [p] + Fulls(n - 3);
      assert Broadcasts(a, b) && a[0] == 1;
      assert PickOk((batch + [FULL, FULL])[0], l.A.shape[0]);
      ShortSlice(p);
      PickShapes(l, batch, batch, FULL, FULL);
      BatchPicks(batch, a, b);
      ValidFrom(GetFirst(l, p).value, PickDims(batch, a), PickDims(batch, b), Rank(l),
                Len(FULL, l.B.shape[n - 2]), Len(FULL, l.A.shape[n - 1]));
    } else {
      GetFirstRefines(l, p);
    }
  }

  lemma BatchPicks(batch: seq<Pick>, a: seq<nat>, b: seq<nat>)
    requires |batch| == |a| == |b| > 0 && batch[0].Slice?
    requires Len(batch[0], a[0]) != 1 && Len(batch[0], a[0]) != Len(batch[0], b[0])
    ensures |PickDims(batch, a)| == |PickDims(batch, b)| && !Broadcasts(PickDims(batch, a), PickDims(batch, b))
  {
    PickDimsBroadcast(batch, a, batch, b);
  }
}
