/** Laws of concatenation and of the prefix order. */
module Sequences {
  lemma Associate<T>(a: seq<T>, b: seq<T>, c: seq<T>)
    ensures a + b + c == a + (b + c)
  {
  }

  /** A common beginning cancels. */
  lemma Cancel<T>(a: seq<T>, x: seq<T>, y: seq<T>)
    ensures a + x == a + y <==> x == y
  {
    if a + x == a + y {
      assert x == (a + x)[|a|..] && y == (a + y)[|a|..];
    }
  }

  lemma SamePrefix<T>(x: seq<T>, a: seq<T>, b: seq<T>)
    ensures x + a <= x + b <==> a <= b
  {
    if x + a <= x + b {
      assert a == (x + a)[|x|..];
      assert b[..|a|] == (x + b)[|x|..|x| + |a|];
    }
  }
}
