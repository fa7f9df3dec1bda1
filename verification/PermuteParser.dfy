/**
 `permute` (common/chat-peg-parser.cpp): a parser that accepts its parts in any order, built
 as one rule per subset of the parts still to come. Subsets are bit masks; the recursion is
 memoised in a map from masks to rules. Parts are deterministic matchers over complete input.
 */
module PermuteParser {
  import opened Wrappers

  /** From a position to the position after the match, if there is one. */
  type Matcher = nat -> Option<nat>

  datatype Parser =
    | Epsilon
    | Part(index: nat)
    | Sequence(parts: seq<Parser>)
    | Choice(alternatives: seq<Parser>)
    | Rule(mask: nat, body: Parser)

  const MAX_PERMUTE := 6

  /** Sequence, ordered choice and rules, with the standard semantics. */
  function Parse(ms: seq<Matcher>, p: Parser, pos: nat): Option<nat>
    decreases p, 0
  {
    match p
    case Epsilon => Some(pos)
    case Part(i) => if i < |ms| then ms[i](pos) else None
    case Sequence(parts) => ParseSequence(ms, parts, pos)
    case Choice(alternatives) => ParseChoice(ms, alternatives, pos)
    case Rule(_, body) => Parse(ms, body, pos)
  }

  function ParseSequence(ms: seq<Matcher>, parts: seq<Parser>, pos: nat): Option<nat>
    decreases parts, 1
  {
    if parts == [] then Some(pos)
    else
      match Parse(ms, parts[0], pos)
      case None => None
      case Some(end) => ParseSequence(ms, parts[1..], end)
  }

  function ParseChoice(ms: seq<Matcher>, alternatives: seq<Parser>, pos: nat): Option<nat>
    decreases alternatives, 1
  {
    if alternatives == [] then None
    else
      match Parse(ms, alternatives[0], pos)
      case None => ParseChoice(ms, alternatives[1..], pos)
      case Some(end) => Some(end)
  }

  // ----- bit masks -----

  predicate Bit(mask: nat, i: nat)
    decreases i
  {
    if i == 0 then mask % 2 == 1 else Bit(mask / 2, i - 1)
  }

  /** `mask & ~(1 << i)` */
  function Clear(mask: nat, i: nat): (r: nat)
    ensures r <= mask
    ensures Bit(mask, i) ==> r < mask
    decreases i
  {
    if i == 0 then mask - mask % 2 else 2 * Clear(mask / 2, i - 1) + mask % 2
  }

  /** `(1 << n) - 1` */
  function Full(n: nat): nat {
    if n == 0 then 0 else 2 * Full(n - 1) + 1
  }

  lemma {:induction false} ClearBit(mask: nat, i: nat, j: nat)
    ensures Bit(Clear(mask, i), j) <==> j != i && Bit(mask, j)
    decreases i
  {
    if i > 0 {
      assert Clear(mask, i) / 2 == Clear(mask / 2, i - 1);
      assert Clear(mask, i) % 2 == mask % 2;
      if j > 0 { ClearBit(mask / 2, i - 1, j - 1); }
    } else if j > 0 {
      assert Clear(mask, 0) / 2 == mask / 2;
    }
  }

  lemma {:induction false} FullBit(n: nat, j: nat)
    ensures Bit(Full(n), j) <==> j < n
    decreases n
  {
    if n == 0 {
      ZeroBit(j);
    } else {
      assert Full(n) / 2 == Full(n - 1);
      if j > 0 { FullBit(n - 1, j - 1); }
    }
  }

  lemma {:induction false} ZeroBit(j: nat)
    ensures !Bit(0, j)
    decreases j
  {
    if j > 0 { ZeroBit(j - 1); }
  }

  predicate Below(mask: nat, n: nat) { mask <= Full(n) }

  lemma {:induction false} BelowBits(mask: nat, n: nat)
    requires Below(mask, n)
    ensures forall j: nat :: Bit(mask, j) ==> j < n
    decreases n
  {
    forall j: nat | Bit(mask, j) ensures j < n {
      if n == 0 {
        ZeroBit(j);
      } else if j > 0 {
        BelowBits(mask / 2, n - 1);
        assert Bit(mask / 2, j - 1);
      }
    }
  }

  lemma {:induction false} SomeBit(mask: nat) returns (i: nat)
    requires mask != 0
    ensures Bit(mask, i)
    decreases mask
  {
    if mask % 2 == 1 {
      i := 0;
    } else {
      var k := SomeBit(mask / 2);
      i := k + 1;
    }
  }

  ghost predicate Sub(a: nat, b: nat) { forall i: nat :: Bit(a, i) ==> Bit(b, i) }

  /** A proper subset misses some bit. */
  lemma {:induction false} MissingBit(a: nat, b: nat) returns (i: nat)
    requires Sub(a, b) && a != b
    ensures Bit(b, i) && !Bit(a, i)
    decreases a + b
  {
    assert Bit(a, 0) ==> Bit(b, 0);
    if a % 2 != b % 2 {
      i := 0;
    } else {
      forall j: nat | Bit(a / 2, j) ensures Bit(b / 2, j) {
        assert Bit(a, j + 1);
        assert Bit(b, j + 1);
      }
      var k := MissingBit(a / 2, b / 2);
      assert Bit(b, k + 1) && !Bit(a, k + 1);
      i := k + 1;
    }
  }

  lemma {:induction false} SubOfFull(m: nat, n: nat)
    ensures Sub(m, Full(n)) <==> Below(m, n)
    decreases n
  {
    if Below(m, n) {
      BelowBits(m, n);
      forall j: nat | Bit(m, j) ensures Bit(Full(n), j) { FullBit(n, j); }
    } else if n == 0 {
      var k := SomeBit(m);
      ZeroBit(k);
    } else {
      SubOfFull(m / 2, n - 1);
      var k: nat :| Bit(m / 2, k) && !Bit(Full(n - 1), k);
      FullBit(n - 1, k);
      FullBit(n, k + 1);
      assert Bit(m, k + 1);
    }
  }

  // ----- the construction without the memo -----

  function Remaining(n: nat, mask: nat): Parser
    decreases mask, n + 1
  {
    if mask == 0 then Epsilon else Rule(mask, Choice(Alternatives(n, mask, 0)))
  }

  function Alternatives(n: nat, mask: nat, i: nat): seq<Parser>
    decreases mask, n - i
  {
    if i >= n then []
    else if Bit(mask, i) then
      [Sequence([Part(i), Remaining(n, Clear(mask, i))])] + Alternatives(n, mask, i + 1)
    else Alternatives(n, mask, i + 1)
  }

  // ----- the construction with the memo -----

  type Memo = map<nat, Parser>

  function RemainingOf(n: nat, mask: nat, rules: Memo): (Parser, Memo)
    decreases mask, n + 1
  {
    if mask == 0 then (Epsilon, rules)
    else if mask in rules then (rules[mask], rules)
    else
      var (alternatives, rules') := AlternativesOf(n, mask, 0, rules);
      var p := Rule(mask, Choice(alternatives));
      if mask in rules' then (rules'[mask], rules') else (p, rules'[mask := p])
  }

  /** The loop over the parts, from part `i` on. */
  function AlternativesOf(n: nat, mask: nat, i: nat, rules: Memo): (seq<Parser>, Memo)
    decreases mask, n - i
  {
    if i >= n then ([], rules)
    else if Bit(mask, i) then
      var (rest, rules1) := RemainingOf(n, Clear(mask, i), rules);
      var (more, rules2) := AlternativesOf(n, mask, i + 1, rules1);
      ([Sequence([Part(i), rest])] + more, rules2)
    else AlternativesOf(n, mask, i + 1, rules)
  }

  function Parts(n: nat): seq<Parser> { seq(n, i requires 0 <= i < n => Part(i)) }

  function Permute(n: nat): Parser {
    if n == 0 then Epsilon
    else if n == 1 || n > MAX_PERMUTE then Sequence(Parts(n))
    else RemainingOf(n, Full(n), map[]).0
  }

  /** The memo holds what the plain recursion builds, and with a mask all its non-empty subsets. */
  ghost predicate MemoInv(n: nat, rules: Memo) {
    && (forall m :: m in rules ==> m != 0 && rules[m] == Remaining(n, m))
    && (forall m: nat, s: nat :: m in rules && s != 0 && Sub(s, m) ==> s in rules)
  }

  /** After building for `mask`: the old keys and every non-empty subset of `mask`. */
  ghost predicate Covers(rules: Memo, rules': Memo, mask: nat) {
    forall m: nat :: m in rules' <==> m in rules || (m != 0 && Sub(m, mask))
  }

  ghost predicate Reached(n: nat, mask: nat, i: nat, m: nat) {
    exists j: nat :: i <= j < n && Bit(mask, j) && Sub(m, Clear(mask, j))
  }

  lemma ClearSub(mask: nat, i: nat, m: nat)
    ensures Sub(m, Clear(mask, i)) <==> Sub(m, mask) && !Bit(m, i)
  {
    forall j: nat ensures Bit(Clear(mask, i), j) <==> j != i && Bit(mask, j) {
      ClearBit(mask, i, j);
    }
  }

  /** The non-empty proper subsets of a mask are reached by clearing one of its bits. */
  lemma ReachedExactly(n: nat, mask: nat, m: nat)
    requires Below(mask, n)
    ensures Reached(n, mask, 0, m) <==> Sub(m, mask) && m != mask
  {
    if Reached(n, mask, 0, m) {
      var j: nat :| j < n && Bit(mask, j) && Sub(m, Clear(mask, j));
      ClearSub(mask, j, m);
    }
    if Sub(m, mask) && m != mask {
      var j := MissingBit(m, mask);
      BelowBits(mask, n);
      ClearSub(mask, j, m);
    }
  }

  lemma {:induction false} MemoisedRule(n: nat, mask: nat, rules: Memo)
    requires Below(mask, n) && MemoInv(n, rules)
    ensures var (p, rules') := RemainingOf(n, mask, rules);
            p == Remaining(n, mask) && MemoInv(n, rules') && Covers(rules, rules', mask)
    decreases mask, n + 1
  {
    if mask == 0 {
      forall m: nat | m != 0 ensures !Sub(m, 0) {
        var k := SomeBit(m);
        ZeroBit(k);
      }
    } else if mask in rules {
    } else {
      var (alternatives, rules1) := AlternativesOf(n, mask, 0, rules);
      MemoisedAlternatives(n, mask, 0, rules);
      forall m: nat ensures Reached(n, mask, 0, m) <==> Sub(m, mask) && m != mask {
        ReachedExactly(n, mask, m);
      }
      assert mask !in rules1;
      var rules' := rules1[mask := Rule(mask, Choice(alternatives))];
      assert rules'[mask] == Remaining(n, mask);
      forall m: nat, s: nat | m in rules' && s != 0 && Sub(s, m) ensures s in rules' {
        if m == mask && s != mask { assert Reached(n, mask, 0, s); }
      }
    }
  }

  lemma {:induction false} MemoisedAlternatives(n: nat, mask: nat, i: nat, rules: Memo)
    requires Below(mask, n) && MemoInv(n, rules)
    ensures var (alternatives, rules') := AlternativesOf(n, mask, i, rules);
            && alternatives == Alternatives(n, mask, i) && MemoInv(n, rules')
            && (forall m: nat :: m in rules' <==> m in rules || (m != 0 && Reached(n, mask, i, m)))
    decreases mask, n - i
  {
    if i < n {
      var rules1 := rules;
      if Bit(mask, i) {
        MemoisedRule(n, Clear(mask, i), rules);
        rules1 := RemainingOf(n, Clear(mask, i), rules).1;
      }
      MemoisedAlternatives(n, mask, i + 1, rules1);
      forall m: nat
        ensures Reached(n, mask, i, m) <==> Reached(n, mask, i + 1, m) || (Bit(mask, i) && Sub(m, Clear(mask, i)))
      {
      }
    }
  }

  /** Memoising changes nothing, and the finished memo has exactly one rule for each non-empty subset. */
  lemma MemoIsExact(n: nat)
    ensures RemainingOf(n, Full(n), map[]).0 == Remaining(n, Full(n))
    ensures forall m: nat :: m in RemainingOf(n, Full(n), map[]).1 <==> 1 <= m <= Full(n)
    ensures forall m: nat :: 1 <= m <= Full(n) ==> RemainingOf(n, Full(n), map[]).1[m] == Remaining(n, m)
  {
    MemoisedRule(n, Full(n), map[]);
    forall m: nat ensures Sub(m, Full(n)) <==> m <= Full(n) { SubOfFull(m, n); }
  }

  // ----- what is accepted -----

  /** Running the parts one after the other in the given order. */
  function RunOrder(ms: seq<Matcher>, order: seq<nat>, pos: nat): Option<nat>
    decreases |order|
  {
    if order == [] then Some(pos)
    else if order[0] >= |ms| then None
    else
      match ms[order[0]](pos)
      case None => None
      case Some(end) => RunOrder(ms, order[1..], end)
  }

  /** An ordering of exactly the parts in the mask. */
  ghost predicate IsOrder(order: seq<nat>, mask: nat) {
    && (forall i, j :: 0 <= i < j < |order| ==> order[i] != order[j])
    && (forall i: nat :: i in order <==> Bit(mask, i))
  }

  predicate LexLeq(a: seq<nat>, b: seq<nat>)
    decreases |a|
  {
    a == [] || (b != [] && (a[0] < b[0] || (a[0] == b[0] && LexLeq(a[1..], b[1..]))))
  }

  ghost predicate Works(ms: seq<Matcher>, order: seq<nat>, mask: nat, pos: nat) {
    && IsOrder(order, mask)
    && RunOrder(ms, order, pos).Some?
  }

  /** The outcome of a parse told in terms of orderings: nothing works, or the first that does decides. */
  ghost predicate Tells(ms: seq<Matcher>, mask: nat, least: nat, pos: nat, r: Option<nat>) {
    match r
    case None => forall o :: Works(ms, o, mask, pos) ==> o != [] && o[0] < least
    case Some(end) => exists o :: IsFirst(ms, o, mask, least, pos, end)
  }

  ghost predicate IsFirst(ms: seq<Matcher>, o: seq<nat>, mask: nat, least: nat, pos: nat, end: nat) {
    && Works(ms, o, mask, pos)
    && RunOrder(ms, o, pos) == Some(end)
    && (o != [] ==> least <= o[0])
    && forall o' :: Works(ms, o', mask, pos) && (o' != [] ==> least <= o'[0]) ==> LexLeq(o, o')
  }

  lemma OrderTail(order: seq<nat>, mask: nat)
    requires IsOrder(order, mask) && order != []
    ensures Bit(mask, order[0]) && IsOrder(order[1..], Clear(mask, order[0]))
  {
    var a, tail := order[0], order[1..];
    assert a in order;
    forall i: nat ensures i in tail <==> Bit(Clear(mask, a), i) {
      ClearBit(mask, a, i);
      assert i in order <==> i == a || i in tail;
    }
  }

  lemma OrderCons(a: nat, tail: seq<nat>, mask: nat)
    requires Bit(mask, a) && IsOrder(tail, Clear(mask, a))
    ensures IsOrder([a] + tail, mask)
  {
    ClearBit(mask, a, a);
    forall i: nat ensures i in [a] + tail <==> Bit(mask, i) {
      ClearBit(mask, a, i);
    }
  }

  lemma WorksTail(ms: seq<Matcher>, order: seq<nat>, mask: nat, pos: nat)
    requires Works(ms, order, mask, pos) && order != []
    ensures order[0] < |ms| && Bit(mask, order[0]) && ms[order[0]](pos).Some?
    ensures Works(ms, order[1..], Clear(mask, order[0]), ms[order[0]](pos).value)
  {
    assert order[0] in order;
    OrderTail(order, mask);
  }

  lemma WorksCons(ms: seq<Matcher>, a: nat, tail: seq<nat>, mask: nat, pos: nat)
    requires a < |ms| && Bit(mask, a) && ms[a](pos).Some?
    requires Works(ms, tail, Clear(mask, a), ms[a](pos).value)
    ensures Works(ms, [a] + tail, mask, pos)
    ensures RunOrder(ms, [a] + tail, pos) == RunOrder(ms, tail, ms[a](pos).value)
  {
    OrderCons(a, tail, mask);
    assert ([a] + tail)[1..] == tail;
  }

  lemma EmptyOrder(order: seq<nat>, mask: nat)
    requires IsOrder(order, mask)
    ensures order == [] <==> mask == 0
  {
    if mask == 0 {
      if order != [] {
        assert order[0] in order;
        ZeroBit(order[0]);
      }
    } else {
      var k := SomeBit(mask);
    }
  }

  lemma {:induction false} RuleTells(ms: seq<Matcher>, mask: nat, pos: nat)
    requires Below(mask, |ms|)
    ensures Tells(ms, mask, 0, pos, Parse(ms, Remaining(|ms|, mask), pos))
    decreases mask, |ms| + 1
  {
    if mask == 0 {
      forall i: nat ensures !Bit(0, i) { ZeroBit(i); }
      assert IsFirst(ms, [], 0, 0, pos, pos);
    } else {
      AlternativesTell(ms, mask, 0, pos);
      var choice := Choice(Alternatives(|ms|, mask, 0));
      assert Parse(ms, Rule(mask, choice), pos) == Parse(ms, choice, pos);
    }
  }

  lemma {:induction false} AlternativesTell(ms: seq<Matcher>, mask: nat, i: nat, pos: nat)
    requires Below(mask, |ms|) && mask != 0
    ensures Tells(ms, mask, i, pos, ParseChoice(ms, Alternatives(|ms|, mask, i), pos))
    decreases mask, if i <= |ms| then |ms| - i else 0
  {
    if i >= |ms| {
      forall o | Works(ms, o, mask, pos) ensures o != [] && o[0] < i {
        EmptyOrder(o, mask);
        assert o[0] in o;
      }
    } else if !Bit(mask, i) {
      AlternativesTell(ms, mask, i + 1, pos);
      SkipPart(ms, mask, i, pos, ParseChoice(ms, Alternatives(|ms|, mask, i), pos));
    } else {
      var rest := Remaining(|ms|, Clear(mask, i));
      var alternative := Sequence([Part(i), rest]);
      FirstAlternative(ms, mask, i, pos);
      if ms[i](pos).Some? { RuleTells(ms, Clear(mask, i), ms[i](pos).value); }
      AlternativesTell(ms, mask, i + 1, pos);
      TakePart(ms, mask, i, pos, ParseChoice(ms, Alternatives(|ms|, mask, i + 1), pos));
    }
  }

  lemma FirstAlternative(ms: seq<Matcher>, mask: nat, i: nat, pos: nat)
    requires i < |ms| && Bit(mask, i)
    ensures ParseChoice(ms, Alternatives(|ms|, mask, i), pos)
            == var head := if ms[i](pos).None? then None
                           else Parse(ms, Remaining(|ms|, Clear(mask, i)), ms[i](pos).value);
               if head.Some? then head else ParseChoice(ms, Alternatives(|ms|, mask, i + 1), pos)
  {
    var rest := Remaining(|ms|, Clear(mask, i));
    var parts := [Part(i), rest];
    assert parts[1..] == [rest] && [rest][1..] == [];
    assert Parse(ms, Sequence(parts), pos) == ParseSequence(ms, parts, pos);
    assert Parse(ms, Part(i), pos) == ms[i](pos);
    if ms[i](pos).Some? {
      var mid := ms[i](pos).value;
      assert ParseSequence(ms, parts, pos) == ParseSequence(ms, [rest], mid);
      assert ParseSequence(ms, [], mid) == Some(mid);
      assert ParseSequence(ms, [rest], mid) == Parse(ms, rest, mid);
    }
    var all := Alternatives(|ms|, mask, i);
    assert all[0] == Sequence(parts) && all[1..] == Alternatives(|ms|, mask, i + 1);
  }

  /** A part outside the mask starts no ordering. */
  lemma SkipPart(ms: seq<Matcher>, mask: nat, i: nat, pos: nat, r: Option<nat>)
    requires !Bit(mask, i) && mask != 0 && Tells(ms, mask, i + 1, pos, r)
    ensures Tells(ms, mask, i, pos, r)
  {
    forall o | Works(ms, o, mask, pos) ensures o != [] && o[0] != i {
      EmptyOrder(o, mask);
      WorksTail(ms, o, mask, pos);
    }
    if r.Some? {
      var o :| IsFirst(ms, o, mask, i + 1, pos, r.value);
      assert IsFirst(ms, o, mask, i, pos, r.value);
    }
  }

  /** A part in the mask: the orderings that start with it come before all that start later. */
  lemma TakePart(ms: seq<Matcher>, mask: nat, i: nat, pos: nat, later: Option<nat>)
    requires i < |ms| && Bit(mask, i) && mask != 0 && Tells(ms, mask, i + 1, pos, later)
    requires ms[i](pos).Some? ==>
               Tells(ms, Clear(mask, i), 0, ms[i](pos).value,
                     Parse(ms, Remaining(|ms|, Clear(mask, i)), ms[i](pos).value))
    ensures var head := if ms[i](pos).None? then None
                        else Parse(ms, Remaining(|ms|, Clear(mask, i)), ms[i](pos).value);
            Tells(ms, mask, i, pos, if head.Some? then head else later)
  {
    var head := if ms[i](pos).None? then None
                else Parse(ms, Remaining(|ms|, Clear(mask, i)), ms[i](pos).value);
    if head.Some? {
      var tail :| IsFirst(ms, tail, Clear(mask, i), 0, ms[i](pos).value, head.value);
      WorksCons(ms, i, tail, mask, pos);
      var o := [i] + tail;
      forall o' | Works(ms, o', mask, pos) && (o' != [] ==> i <= o'[0]) ensures LexLeq(o, o') {
        EmptyOrder(o', mask);
        WorksTail(ms, o', mask, pos);
        assert o[1..] == tail;
      }
      assert IsFirst(ms, o, mask, i, pos, head.value);
    } else {
      forall o | Works(ms, o, mask, pos) ensures o != [] && o[0] != i {
        EmptyOrder(o, mask);
        WorksTail(ms, o, mask, pos);
      }
      if later.Some? {
        var o :| IsFirst(ms, o, mask, i + 1, pos, later.value);
        assert IsFirst(ms, o, mask, i, pos, later.value);
      }
    }
  }

  /**
   For 2 to 6 parts: the parser succeeds exactly where some ordering of all of them does, and
   ends where the lexicographically first such ordering ends.
   */
  lemma PermuteAcceptsPermutations(ms: seq<Matcher>, pos: nat)
    requires 2 <= |ms| <= 6
    ensures var r := Parse(ms, Permute(|ms|), pos);
            && (r.Some? <==> exists o :: Works(ms, o, Full(|ms|), pos))
            && (r.Some? ==> exists o :: IsFirst(ms, o, Full(|ms|), 0, pos, r.value))
  {
    MemoIsExact(|ms|);
    RuleTells(ms, Full(|ms|), pos);
    var r := Parse(ms, Permute(|ms|), pos);
    if r.Some? {
      var o :| IsFirst(ms, o, Full(|ms|), 0, pos, r.value);
      assert Works(ms, o, Full(|ms|), pos);
    }
  }

  /** An ordering of the full mask is a permutation of all the parts. */
  lemma FullOrderIsPermutation(order: seq<nat>, n: nat)
    requires IsOrder(order, Full(n))
    ensures forall i: nat :: i in order <==> i < n
  {
    forall i: nat ensures i in order <==> i < n { FullBit(n, i); }
  }

  function Identity(lo: nat, n: nat): seq<nat>
    requires lo <= n
  {
    seq(n - lo, i requires 0 <= i < n - lo => lo + i)
  }

  /** Beyond six parts, or with only one, the given order is the only one accepted. */
  lemma FixedOrderOtherwise(ms: seq<Matcher>, pos: nat)
    requires |ms| <= 1 || |ms| > 6
    ensures Parse(ms, Permute(|ms|), pos) == RunOrder(ms, Identity(0, |ms|), pos)
  {
    PartsInOrder(ms, 0, pos);
    assert Parts(|ms|)[0..] == Parts(|ms|);
  }

  lemma {:induction false} PartsInOrder(ms: seq<Matcher>, lo: nat, pos: nat)
    requires lo <= |ms|
    ensures ParseSequence(ms, Parts(|ms|)[lo..], pos) == RunOrder(ms, Identity(lo, |ms|), pos)
    decreases |ms| - lo
  {
    if lo < |ms| {
      var parts, order := Parts(|ms|)[lo..], Identity(lo, |ms|);
      assert parts[1..] == Parts(|ms|)[lo + 1..] && order[1..] == Identity(lo + 1, |ms|);
      if ms[lo](pos).Some? { PartsInOrder(ms, lo + 1, ms[lo](pos).value); }
    }
  }
}
