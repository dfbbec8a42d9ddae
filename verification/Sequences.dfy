/** Regrouping and cutting sequences. */
module Sequences {
  lemma Associate<T>(a: seq<T>, b: seq<T>, c: seq<T>)
    ensures (a + b) + c == a + (b + c)
  {
  }

  /** Four pieces in every grouping. */
  lemma AssociateFour<T>(a: seq<T>, b: seq<T>, c: seq<T>, d: seq<T>)
    ensures a + (b + (c + d)) == a + ((b + c) + d) == (a + (b + c)) + d == ((a + b) + c) + d == (a + b) + (c + d)
  {
  }

  lemma TakeSnoc<T>(xs: seq<T>, i: nat)
    requires i < |xs|
    ensures xs[..i + 1] == xs[..i] + [xs[i]]
  {
  }

  lemma DropTail<T>(xs: seq<T>, i: nat)
    requires i < |xs|
    ensures xs[i..] != [] && xs[i..][0] == xs[i] && xs[i..][1..] == xs[i + 1..]
  {
  }

  lemma DropMore<T>(xs: seq<T>, i: nat, n: nat)
    requires i + n <= |xs|
    ensures xs[i..][n..] == xs[i + n..]
  {
  }
}
