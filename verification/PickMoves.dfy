/** When two lists of picks, one pick for each axis, take the same elements to the same places. */
module PickMoves {
  import opened Tensors
  import opened Picks

  /** The axis of the result that a slice on axis `i` becomes: the number of slices before it. */
  function Slot(ps: seq<Pick>, i: nat): nat
    requires i <= |ps|
  {
    if i == 0 then 0 else Slot(ps, i - 1) + (if ps[i - 1].Slice? then 1 else 0)
  }

  lemma {:induction false} SlotOfPrefix(ps: seq<Pick>, n: nat, i: nat)
    requires i <= n <= |ps|
    ensures Slot(ps[..n], i) == Slot(ps, i)
    decreases i
  {
    if i > 0 { SlotOfPrefix(ps, n, i - 1); }
  }

  lemma {:induction false} SlotsRise(ps: seq<Pick>, i: nat, j: nat)
    requires i < j <= |ps| && ps[i].Slice?
    ensures Slot(ps, i) < Slot(ps, j)
    decreases j
  {
    if i < j - 1 { SlotsRise(ps, i, j - 1); }
  }

  lemma {:induction false} SlotsAreAxes(ps: seq<Pick>, s: seq<nat>)
    requires |ps| == |s|
    ensures |PickDims(ps, s)| == Slot(ps, |ps|)
    decreases |ps|
  {
    if ps != [] {
      var n := |ps| - 1;
      SlotsAreAxes(ps[..n], s[..n]);
      SlotOfPrefix(ps, n, n);
    }
  }

  lemma {:induction false} SlotConcat(a: seq<Pick>, b: seq<Pick>)
    ensures Slot(a + b, |a + b|) == Slot(a, |a|) + Slot(b, |b|)
    decreases |b|
  {
    if b == [] {
      assert a + b == a;
    } else {
      var n := |b| - 1;
      SlotConcat(a, b[..n]);
      assert (a + b)[..|a| + n] == a + b[..n];
      SlotOfPrefix(a + b, |a| + n, |a| + n);
      SlotOfPrefix(b, n, n);
    }
  }

  /** The coordinate a pick reads for an index of the result, where its own axis is `slot`. */
  function Coordinate(p: Pick, d: nat, slot: nat, ix: Index): nat
    requires p.Slice? ==> slot < |ix|
  {
    if p.At? then Norm(p.index, d) else Elem(p, d, ix[slot])
  }

  lemma {:induction false} SourceEntry(ps: seq<Pick>, s: seq<nat>, ix: Index, i: nat)
    requires |ps| == |s| && |ix| == Slot(ps, |ps|) && i < |ps|
    ensures ps[i].Slice? ==> Slot(ps, i) < |ix|
    ensures Source(ps, s, ix)[i] == Coordinate(ps[i], s[i], Slot(ps, i), ix)
    decreases |ps|
  {
    var n := |ps| - 1;
    SlotOfPrefix(ps, n, n);
    SlotOfPrefix(ps, n, if i < n then i else n);
    if i < n {
      if ps[i].Slice? { SlotsRise(ps, i, n); }
      SourceEntry(ps[..n], s[..n], if ps[n].Slice? then ix[..|ix| - 1] else ix, i);
    }
  }

  lemma {:induction false} DimsEntry(ps: seq<Pick>, s: seq<nat>, i: nat)
    requires |ps| == |s| && i < |ps| && ps[i].Slice?
    ensures Slot(ps, i) < |PickDims(ps, s)| && PickDims(ps, s)[Slot(ps, i)] == Len(ps[i], s[i])
    decreases |ps|
  {
    var n := |ps| - 1;
    SlotsAreAxes(ps[..n], s[..n]);
    SlotOfPrefix(ps, n, n);
    if i < n {
      SlotOfPrefix(ps, n, i);
      DimsEntry(ps[..n], s[..n], i);
    }
  }

  // ----- when two lists are as good as equal -----

  /** The first element a pick reads. */
  function First(p: Pick, d: nat): nat { if p.At? then Norm(p.index, d) else Start(p, d) }

  predicate OnlyOne(p: Pick, d: nat) { p.Slice? ==> Len(p, d) == 1 }

  /**
   Two picks on the same axis read the same coordinate: both begin at the same element, and either
   neither goes on from there, or both do with the same step along the same axis of the result.
   */
  predicate AxisSame(p: Pick, q: Pick, d: nat, slotP: nat, slotQ: nat) {
    && First(p, d) == First(q, d)
    && ((OnlyOne(p, d) && OnlyOne(q, d)) || (p.Slice? && q.Slice? && slotP == slotQ && p.step == q.step))
  }

  /** Results of the same shape that are empty, or whose axes all read the same. */
  predicate SamePicks(ps: seq<Pick>, qs: seq<Pick>, s: seq<nat>)
    requires |ps| == |qs| == |s|
  {
    && PickDims(ps, s) == PickDims(qs, s)
    && (0 in PickDims(ps, s)
        || forall i :: 0 <= i < |s| ==> AxisSame(ps[i], qs[i], s[i], Slot(ps, i), Slot(qs, i)))
  }

  ghost predicate SameGather(g: Gather, h: Gather) {
    g.shape == h.shape && forall ix :: InBounds(ix, g.shape) ==> g.source(ix) == h.source(ix)
  }

  lemma ElemWithin(p: Pick, d: nat, x: nat)
    requires p.Slice?
    ensures Elem(p, d, 0) == Start(p, d) && Elem(p, d, 1) == Start(p, d) + p.step
    ensures Elem(p, d, x) == Start(p, d) + x * p.step
  {
    ElemIs(p, d, x);
    ElemIs(p, d, 1);
  }

  lemma SameCoordinate(p: Pick, q: Pick, d: nat, slotP: nat, slotQ: nat, ix: Index)
    requires AxisSame(p, q, d, slotP, slotQ)
    requires p.Slice? ==> slotP < |ix| && ix[slotP] < Len(p, d)
    requires q.Slice? ==> slotQ < |ix| && ix[slotQ] < Len(q, d)
    ensures Coordinate(p, d, slotP, ix) == Coordinate(q, d, slotQ, ix)
  {
    if p.Slice? { ElemWithin(p, d, ix[slotP]); }
    if q.Slice? { ElemWithin(q, d, ix[slotQ]); }
  }

  lemma NothingEmpty(ix: Index, dims: seq<nat>)
    requires InBounds(ix, dims)
    ensures 0 !in dims
  {
    forall j | 0 <= j < |dims| ensures dims[j] != 0 { assert ix[j] < dims[j]; }
  }

  lemma SamePicksMove(ps: seq<Pick>, qs: seq<Pick>, s: seq<nat>)
    requires |ps| == |qs| == |s| && SamePicks(ps, qs, s)
    ensures SameGather(PickGather(ps, s), PickGather(qs, s))
  {
    forall ix | InBounds(ix, PickDims(ps, s)) ensures Source(ps, s, ix) == Source(qs, s, ix) {
      SlotsAreAxes(ps, s);
      SlotsAreAxes(qs, s);
      NothingEmpty(ix, PickDims(ps, s));
      forall i | 0 <= i < |s| ensures Source(ps, s, ix)[i] == Source(qs, s, ix)[i] {
        SameEntry(ps, qs, s, ix, i);
      }
    }
  }

  lemma SameEntry(ps: seq<Pick>, qs: seq<Pick>, s: seq<nat>, ix: Index, i: nat)
    requires |ps| == |qs| == |s| && PickDims(ps, s) == PickDims(qs, s) && InBounds(ix, PickDims(ps, s)) && i < |s|
    requires |ix| == Slot(ps, |ps|) == Slot(qs, |qs|)
    requires AxisSame(ps[i], qs[i], s[i], Slot(ps, i), Slot(qs, i))
    ensures Source(ps, s, ix)[i] == Source(qs, s, ix)[i]
  {
    SourceEntry(ps, s, ix, i);
    SourceEntry(qs, s, ix, i);
    if ps[i].Slice? { DimsEntry(ps, s, i); }
    if qs[i].Slice? { DimsEntry(qs, s, i); }
    SameCoordinate(ps[i], qs[i], s[i], Slot(ps, i), Slot(qs, i), ix);
  }

  // ----- otherwise they differ somewhere -----

  function Origin(n: nat): Index { seq(n, _ => 0) }

  /** The origin, or the index one step along the slice on axis `i`. */
  function Probe(n: nat, slot: nat, step: bool): Index {
    if step && slot < n then Origin(n)[slot := 1] else Origin(n)
  }

  lemma ProbeInBounds(dims: seq<nat>, slot: nat, step: bool)
    requires 0 !in dims && (step && slot < |dims| ==> dims[slot] > 1)
    ensures InBounds(Probe(|dims|, slot, step), dims)
  {
    forall i | 0 <= i < |dims| ensures Probe(|dims|, slot, step)[i] < dims[i] { assert dims[i] in dims; }
  }

  /** Gathers that agree at the origin and one step along each of the two slices read the same axis. */
  lemma ProbesDecide(p: Pick, q: Pick, d: nat, slotP: nat, slotQ: nat, n: nat)
    requires PickOk(p, d) && PickOk(q, d) && (p.Slice? ==> slotP < n) && (q.Slice? ==> slotQ < n)
    requires p.Slice? && q.Slice? && slotP == slotQ ==> Len(p, d) == Len(q, d)
    requires p.Slice? ==> Len(p, d) > 0
    requires q.Slice? ==> Len(q, d) > 0
    requires ReadSame(p, q, d, slotP, slotQ, Origin(n))
    requires p.Slice? && Len(p, d) > 1 ==> ReadSame(p, q, d, slotP, slotQ, Probe(n, slotP, true))
    requires q.Slice? && Len(q, d) > 1 ==> ReadSame(p, q, d, slotP, slotQ, Probe(n, slotQ, true))
    ensures AxisSame(p, q, d, slotP, slotQ)
  {
    if p.Slice? { ElemWithin(p, d, 0); }
    if q.Slice? { ElemWithin(q, d, 0); }
  }

  predicate ReadSame(p: Pick, q: Pick, d: nat, slotP: nat, slotQ: nat, ix: Index)
    requires (p.Slice? ==> slotP < |ix|) && (q.Slice? ==> slotQ < |ix|)
  {
    Coordinate(p, d, slotP, ix) == Coordinate(q, d, slotQ, ix)
  }

  lemma GathersRead(ps: seq<Pick>, qs: seq<Pick>, s: seq<nat>, i: nat, ix: Index)
    requires |ps| == |qs| == |s| && i < |s| && SameGather(PickGather(ps, s), PickGather(qs, s))
    requires InBounds(ix, PickDims(ps, s))
    ensures ps[i].Slice? ==> Slot(ps, i) < |ix|
    ensures qs[i].Slice? ==> Slot(qs, i) < |ix|
    ensures ReadSame(ps[i], qs[i], s[i], Slot(ps, i), Slot(qs, i), ix)
  {
    SlotsAreAxes(ps, s);
    SlotsAreAxes(qs, s);
    SourceEntry(ps, s, ix, i);
    SourceEntry(qs, s, ix, i);
    assert PickGather(ps, s).source(ix) == PickGather(qs, s).source(ix);
  }

  lemma AxisDecided(ps: seq<Pick>, qs: seq<Pick>, s: seq<nat>, i: nat)
    requires PicksOk(ps, s) && PicksOk(qs, s) && SameGather(PickGather(ps, s), PickGather(qs, s))
    requires i < |s| && 0 !in PickDims(ps, s)
    ensures AxisSame(ps[i], qs[i], s[i], Slot(ps, i), Slot(qs, i))
  {
    var dims, p, q, slotP, slotQ := PickDims(ps, s), ps[i], qs[i], Slot(ps, i), Slot(qs, i);
    ProbeInBounds(dims, 0, false);
    GathersRead(ps, qs, s, i, Origin(|dims|));
    if p.Slice? {
      DimsEntry(ps, s, i);
      if Len(p, s[i]) > 1 {
        ProbeInBounds(dims, slotP, true);
        GathersRead(ps, qs, s, i, Probe(|dims|, slotP, true));
      }
    }
    if q.Slice? {
      DimsEntry(qs, s, i);
      if Len(q, s[i]) > 1 {
        ProbeInBounds(dims, slotQ, true);
        GathersRead(ps, qs, s, i, Probe(|dims|, slotQ, true));
      }
    }
    ProbesDecide(p, q, s[i], slotP, slotQ, |dims|);
  }

  /** Two lists of picks that torch accepts move the same elements exactly when they are `SamePicks`. */
  lemma SamePicksExactly(ps: seq<Pick>, qs: seq<Pick>, s: seq<nat>)
    requires PicksOk(ps, s) && PicksOk(qs, s)
    ensures SameGather(PickGather(ps, s), PickGather(qs, s)) <==> SamePicks(ps, qs, s)
  {
    if SamePicks(ps, qs, s) { SamePicksMove(ps, qs, s); }
    if SameGather(PickGather(ps, s), PickGather(qs, s)) && 0 !in PickDims(ps, s) {
      forall i | 0 <= i < |s| ensures AxisSame(ps[i], qs[i], s[i], Slot(ps, i), Slot(qs, i)) {
        AxisDecided(ps, qs, s, i);
      }
    }
  }
}
