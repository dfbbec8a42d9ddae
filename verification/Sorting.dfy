/** Python's `sorted`: a stable sort by a total preorder. */
module Sorting {

  ghost predicate TotalPreorder<T(!new)>(le: (T, T) -> bool) {
    && (forall a, b :: le(a, b) || le(b, a))
    && (forall a, b, c :: le(a, b) && le(b, c) ==> le(a, c))
  }

  ghost predicate Antisymmetric<T(!new)>(le: (T, T) -> bool) {
    forall a, b :: le(a, b) && le(b, a) ==> a == b
  }

  ghost predicate SortedBy<T(!new)>(xs: seq<T>, le: (T, T) -> bool) {
    forall i, j | 0 <= i < j < |xs| :: le(xs[i], xs[j])
  }

  /** Insert `x` before the first element it does not exceed, so equal elements keep their order. */
  function Insert<T>(x: T, xs: seq<T>, le: (T, T) -> bool): seq<T> {
    if xs == [] then [x]
    else if le(x, xs[0]) then [x] + xs
    else [xs[0]] + Insert(x, xs[1..], le)
  }

  function Sort<T>(xs: seq<T>, le: (T, T) -> bool): seq<T> {
    if xs == [] then [] else Insert(xs[0], Sort(xs[1..], le), le)
  }

  lemma PrependSorted<T(!new)>(x: T, xs: seq<T>, le: (T, T) -> bool)
    requires SortedBy(xs, le) && forall t | t in xs :: le(x, t)
    ensures SortedBy([x] + xs, le)
  {
    assert forall j | 0 <= j < |xs| :: xs[j] in xs;
  }

  lemma {:induction false} InsertElements<T(!new)>(x: T, xs: seq<T>, le: (T, T) -> bool)
    ensures multiset(Insert(x, xs, le)) == multiset(xs) + multiset{x}
    ensures forall t | t in Insert(x, xs, le) :: t == x || t in xs
  {
    if xs != [] && !le(x, xs[0]) {
      InsertElements(x, xs[1..], le);
      assert xs == [xs[0]] + xs[1..];
    }
  }

  lemma {:induction false} InsertSorted<T(!new)>(x: T, xs: seq<T>, le: (T, T) -> bool)
    requires TotalPreorder(le) && SortedBy(xs, le)
    ensures SortedBy(Insert(x, xs, le), le)
  {
    if xs == [] {
    } else if le(x, xs[0]) {
      forall t | t in xs ensures le(x, t) {
        var k :| 0 <= k < |xs| && xs[k] == t;
        assert k == 0 || le(xs[0], xs[k]);
      }
      PrependSorted(x, xs, le);
    } else {
      InsertSorted(x, xs[1..], le);
      InsertElements(x, xs[1..], le);
      forall t | t in Insert(x, xs[1..], le) ensures le(xs[0], t) {
        if t in xs[1..] {
          var k :| 0 <= k < |xs[1..]| && xs[1..][k] == t;
          assert le(xs[0], xs[k + 1]);
        }
      }
      PrependSorted(xs[0], Insert(x, xs[1..], le), le);
    }
  }

  /** The sort is a sorted permutation. */
  lemma {:induction false} SortSpec<T(!new)>(xs: seq<T>, le: (T, T) -> bool)
    requires TotalPreorder(le)
    ensures SortedBy(Sort(xs, le), le)
    ensures multiset(Sort(xs, le)) == multiset(xs)
    ensures |Sort(xs, le)| == |xs|
  {
    if xs != [] {
      SortSpec(xs[1..], le);
      InsertSorted(xs[0], Sort(xs[1..], le), le);
      InsertElements(xs[0], Sort(xs[1..], le), le);
      assert xs == [xs[0]] + xs[1..];
    }
    assert |multiset(Sort(xs, le))| == |multiset(xs)|;
  }

  lemma {:induction false} SortOfSorted<T(!new)>(xs: seq<T>, le: (T, T) -> bool)
    requires SortedBy(xs, le)
    ensures Sort(xs, le) == xs
  {
    if xs != [] {
      SortOfSorted(xs[1..], le);
      assert xs == [xs[0]] + xs[1..];
      if |xs| > 1 { assert le(xs[0], xs[1]); }
    }
  }

  /** Under an antisymmetric order the sorted arrangement of a multiset is unique. */
  lemma {:induction false} SortedUnique<T(!new)>(xs: seq<T>, ys: seq<T>, le: (T, T) -> bool)
    requires TotalPreorder(le) && Antisymmetric(le)
    requires SortedBy(xs, le) && SortedBy(ys, le) && multiset(xs) == multiset(ys)
    ensures xs == ys
  {
    if xs == [] {
      assert |multiset(ys)| == 0;
    } else {
      assert |multiset(ys)| == |multiset(xs)|;
      HeadIsLeast(xs, ys, le);
      HeadIsLeast(ys, xs, le);
      assert xs == [xs[0]] + xs[1..] && ys == [ys[0]] + ys[1..];
      assert multiset(xs[1..]) == multiset(xs) - multiset{xs[0]};
      assert multiset(ys[1..]) == multiset(ys) - multiset{ys[0]};
      SortedUnique(xs[1..], ys[1..], le);
    }
  }

  lemma HeadIsLeast<T(!new)>(xs: seq<T>, ys: seq<T>, le: (T, T) -> bool)
    requires TotalPreorder(le) && SortedBy(xs, le) && |xs| > 0 && |ys| > 0
    requires multiset(xs) == multiset(ys)
    ensures le(xs[0], ys[0])
  {
    assert ys[0] in multiset(xs);
    var k :| 0 <= k < |xs| && xs[k] == ys[0];
    assert k == 0 || le(xs[0], xs[k]);
  }

  // ---- mapping over sequences --------------------------------------------------------

  function Map<A, B>(f: A -> B, xs: seq<A>): (ys: seq<B>)
    ensures |ys| == |xs| && forall i | 0 <= i < |xs| :: ys[i] == f(xs[i])
  {
    seq(|xs|, i requires 0 <= i < |xs| => f(xs[i]))
  }

  lemma {:induction false} MapPermutes<A, B>(f: A -> B, xs: seq<A>, ys: seq<A>)
    requires multiset(xs) == multiset(ys)
    ensures multiset(Map(f, xs)) == multiset(Map(f, ys))
    decreases |xs|
  {
    if xs == [] {
      assert |multiset(ys)| == 0;
      assert Map(f, xs) == [] && Map(f, ys) == [];
    } else {
      var x := xs[0];
      assert x in multiset(ys);
      var k :| 0 <= k < |ys| && ys[k] == x;
      TakeOut(f, xs, 0);
      TakeOut(f, ys, k);
      var xs', ys' := xs[..0] + xs[1..], ys[..k] + ys[k + 1..];
      assert multiset(xs') == multiset(ys') by {
        assert multiset(xs') == multiset(xs) - multiset{x};
        assert multiset(ys') == multiset(ys) - multiset{x};
      }
      MapPermutes(f, xs', ys');
    }
  }

  lemma TakeOut<A, B>(f: A -> B, ys: seq<A>, k: nat)
    requires k < |ys|
    ensures multiset(ys) == multiset(ys[..k] + ys[k + 1..]) + multiset{ys[k]}
    ensures multiset(Map(f, ys)) == multiset(Map(f, ys[..k] + ys[k + 1..])) + multiset{f(ys[k])}
  {
    var fs := Map(f, ys);
    assert ys == ys[..k] + [ys[k]] + ys[k + 1..];
    assert fs == fs[..k] + [f(ys[k])] + fs[k + 1..];
    assert Map(f, ys[..k] + ys[k + 1..]) == fs[..k] + fs[k + 1..];
  }

  /** Sorting by a key commutes with projecting to that key. */
  lemma {:induction false} SortMap<A, B>(f: A -> B, xs: seq<A>, leA: (A, A) -> bool, leB: (B, B) -> bool)
    requires forall a, b | a in xs && b in xs :: leA(a, b) == leB(f(a), f(b))
    ensures Map(f, Sort(xs, leA)) == Sort(Map(f, xs), leB)
    ensures forall x | x in Sort(xs, leA) :: x in xs
  {
    if xs != [] {
      var tail := Sort(xs[1..], leA);
      SortMap(f, xs[1..], leA, leB);
      assert forall x | x in tail :: x in xs[1..] && x in xs;
      InsertMap(f, xs[0], tail, leA, leB);
      assert Map(f, xs)[1..] == Map(f, xs[1..]);
    }
  }

  lemma {:induction false} InsertMap<A, B>(f: A -> B, x: A, xs: seq<A>, leA: (A, A) -> bool, leB: (B, B) -> bool)
    requires forall a | a in xs :: leA(x, a) == leB(f(x), f(a))
    ensures Map(f, Insert(x, xs, leA)) == Insert(f(x), Map(f, xs), leB)
    ensures forall y | y in Insert(x, xs, leA) :: y == x || y in xs
  {
    if xs == [] {
    } else if leA(x, xs[0]) {
      assert Map(f, [x] + xs) == [f(x)] + Map(f, xs);
    } else {
      InsertMap(f, x, xs[1..], leA, leB);
      assert Map(f, xs)[1..] == Map(f, xs[1..]);
      assert Map(f, Insert(x, xs, leA)) == [f(xs[0])] + Map(f, Insert(x, xs[1..], leA));
    }
  }
}
