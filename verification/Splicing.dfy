/** Replacing disjoint spans of a sequence: `apply_replacements` (app/desktop/engine.py), the
    splice that `Vault.tokenize`, the CSV rewriter and the formatting-run rewriter share. */
module Splicing {
  import opened Sorting

  datatype Replacement<T> = Replacement(start: nat, end: nat, content: seq<T>)

  predicate ByStart<T>(a: Replacement<T>, b: Replacement<T>) { a.start <= b.start }

  predicate ByStartDescending<T>(a: Replacement<T>, b: Replacement<T>) { b.start <= a.start }

  /** The spans lie in order within [from, n]. */
  predicate Ordered<T>(n: nat, from: nat, reps: seq<Replacement<T>>)
    decreases |reps|
  {
    reps == [] || (from <= reps[0].start <= reps[0].end <= n && Ordered(n, reps[0].end, reps[1..]))
  }

  /** The reference meaning: gaps and replacements, left to right. */
  function Splice<T>(text: seq<T>, from: nat, reps: seq<Replacement<T>>): seq<T>
    requires from <= |text| && Ordered(|text|, from, reps)
    decreases |reps|
  {
    if reps == [] then text[from..]
    else text[from..reps[0].start] + (reps[0].content + Splice(text, reps[0].end, reps[1..]))
  }

  /** `a` ends before `b` begins, and they do not start at the same place. */
  predicate Before<T>(a: Replacement<T>, b: Replacement<T>) { a.end <= b.start && a.start < b.start }

  predicate Apart<T>(a: Replacement<T>, b: Replacement<T>) { Before(a, b) || Before(b, a) }

  /** Pairwise disjoint spans within a text of length `n`, in any order, no two at one place. */
  ghost predicate Disjoint<T>(n: nat, reps: seq<Replacement<T>>)
    decreases |reps|
  {
    reps == [] || (
      && reps[0].start <= reps[0].end <= n
      && (forall r | r in reps[1..] :: Apart(reps[0], r))
      && Disjoint(n, reps[1..]))
  }

  /** Each span lies in the text and ends before every later one begins. */
  ghost predicate Ascending<T>(n: nat, reps: seq<Replacement<T>>)
    decreases |reps|
  {
    reps == [] || (
      && reps[0].start <= reps[0].end <= n
      && (forall r | r in reps[1..] :: Before(reps[0], r))
      && Ascending(n, reps[1..]))
  }

  lemma {:induction false} AscendingIsOrdered<T>(n: nat, from: nat, reps: seq<Replacement<T>>)
    requires Ascending(n, reps) && (reps != [] ==> from <= reps[0].start)
    ensures Ordered(n, from, reps)
    decreases |reps|
  {
    if reps != [] {
      assert |reps| > 1 ==> reps[1] in reps[1..];
      AscendingIsOrdered(n, reps[0].end, reps[1..]);
    }
  }

  lemma {:induction false} InsertAscends<T>(n: nat, x: Replacement<T>, xs: seq<Replacement<T>>)
    requires x.start <= x.end <= n && Ascending(n, xs) && forall r | r in xs :: Apart(x, r)
    ensures Ascending(n, Insert(x, xs, ByStart))
    ensures forall r | r in Insert(x, xs, ByStart) :: r == x || r in xs
    decreases |xs|
  {
    if xs == [] {
    } else if ByStart(x, xs[0]) {
      assert ([x] + xs)[1..] == xs && xs == [xs[0]] + xs[1..];
      forall r | r in xs ensures Before(x, r) {
        assert r == xs[0] || r in xs[1..];
        assert Apart(x, xs[0]) && Apart(x, r);
      }
    } else {
      InsertAscends(n, x, xs[1..]);
      var tail := Insert(x, xs[1..], ByStart);
      assert ([xs[0]] + tail)[1..] == tail && Apart(x, xs[0]);
    }
  }

  /** Sorting disjoint spans by start puts them in text order. */
  lemma {:induction false} SortAscends<T>(n: nat, reps: seq<Replacement<T>>)
    requires Disjoint(n, reps)
    ensures Ascending(n, Sort(reps, ByStart)) && Ordered(n, 0, Sort(reps, ByStart))
    ensures forall r | r in Sort(reps, ByStart) :: r in reps
    decreases |reps|
  {
    if reps != [] {
      SortAscends(n, reps[1..]);
      InsertAscends(n, reps[0], Sort(reps[1..], ByStart));
    }
    AscendingIsOrdered(n, 0, Sort(reps, ByStart));
  }

  lemma {:induction false} AscendingIsSorted<T>(n: nat, reps: seq<Replacement<T>>)
    requires Ascending(n, reps)
    ensures Sort(reps, ByStart) == reps && Disjoint(n, reps)
    decreases |reps|
  {
    if reps != [] {
      AscendingIsSorted(n, reps[1..]);
      assert reps == [reps[0]] + reps[1..];
      assert |reps| > 1 ==> reps[1] in reps[1..];
    }
  }

  function Reverse<T>(xs: seq<T>): (ys: seq<T>)
    ensures |ys| == |xs| && forall k | 0 <= k < |xs| :: ys[k] == xs[|xs| - 1 - k]
  {
    seq(|xs|, k requires 0 <= k < |xs| => xs[|xs| - 1 - k])
  }

  lemma HeadBack<T>(a: seq<T>, x: seq<T>, b: seq<T>)
    requires a != []
    ensures [a[0]] + (a[1..] + x + b) == a + x + b
  {
  }

  /** Where an element lands that exceeds all of `a` and not the head of `b`. */
  lemma {:induction false} InsertBetween<T>(x: T, a: seq<T>, b: seq<T>, le: (T, T) -> bool)
    requires forall t | t in a :: !le(x, t)
    requires b == [] || le(x, b[0])
    ensures Insert(x, a + b, le) == a + [x] + b
  {
    if a == [] {
      assert a + b == b;
    } else {
      assert (a + b)[0] == a[0] && (a + b)[1..] == a[1..] + b;
      InsertBetween(x, a[1..], b, le);
      HeadBack(a, [x], b);
    }
  }

  /** The spans of `xs` that lie before `x`. */
  lemma {:induction false} SplitAt<T>(n: nat, x: Replacement<T>, xs: seq<Replacement<T>>) returns (k: nat)
    requires Ascending(n, xs) && forall r | r in xs :: Apart(x, r)
    ensures k <= |xs|
    ensures forall r | r in xs[..k] :: Before(r, x)
    ensures forall r | r in xs[k..] :: Before(x, r)
    decreases |xs|
  {
    if xs == [] {
      k := 0;
    } else if Before(xs[0], x) {
      k := SplitAt(n, x, xs[1..]);
      assert xs[..k + 1] == [xs[0]] + xs[1..][..k] && xs[k + 1..] == xs[1..][k..];
      k := k + 1;
    } else {
      assert Apart(x, xs[0]);
      assert xs == [xs[0]] + xs[1..];
      k := 0;
    }
  }

  lemma ReverseAround<T>(a: seq<T>, x: T, b: seq<T>)
    ensures Reverse(a + b) == Reverse(b) + Reverse(a)
    ensures Reverse(a + [x] + b) == Reverse(b) + [x] + Reverse(a)
  {
  }

  lemma ReverseMembers<T>(xs: seq<T>)
    ensures forall t | t in Reverse(xs) :: t in xs
    ensures xs != [] ==> Reverse(xs)[0] in xs
  {
  }

  /** A span lands between those before it and those behind it, in either order. */
  lemma LandsBetween<T>(x: Replacement<T>, a: seq<Replacement<T>>, b: seq<Replacement<T>>)
    requires (forall r | r in a :: Before(r, x)) && (forall r | r in b :: Before(x, r))
    ensures Insert(x, a + b, ByStart) == a + [x] + b
    ensures Insert(x, Reverse(b) + Reverse(a), ByStartDescending) == Reverse(b) + [x] + Reverse(a)
  {
    assert b != [] ==> b[0] in b;
    InsertBetween(x, a, b, ByStart);
    ReverseMembers(a);
    ReverseMembers(b);
    InsertBetween(x, Reverse(b), Reverse(a), ByStartDescending);
  }

  /** The right-to-left order is the mirror image of the left-to-right one. */
  lemma {:induction false} DescendingMirrors<T>(n: nat, reps: seq<Replacement<T>>)
    requires Disjoint(n, reps)
    ensures Sort(reps, ByStartDescending) == Reverse(Sort(reps, ByStart))
    decreases |reps|
  {
    if reps != [] {
      var x, ys := reps[0], Sort(reps[1..], ByStart);
      SortAscends(n, reps[1..]);
      DescendingMirrors(n, reps[1..]);
      var k := SplitAt(n, x, ys);
      assert ys == ys[..k] + ys[k..];
      ReverseAround(ys[..k], x, ys[k..]);
      LandsBetween(x, ys[..k], ys[k..]);
    }
  }

  // ---- one right-to-left step --------------------------------------------------------

  /** With the spans of `reps` already replaced, replacing one more span to their left. */
  lemma SpliceStep<T>(text: seq<T>, from: nat, r: Replacement<T>, reps: seq<Replacement<T>>, out: seq<T>)
    requires from <= |text| && Ordered(|text|, from, [r] + reps)
    requires Ordered(|text|, r.end, reps) && out == text[..r.end] + Splice(text, r.end, reps)
    ensures out[..r.start] + r.content + out[r.end..] == text[..from] + Splice(text, from, [r] + reps)
  {
    var rest := Splice(text, r.end, reps);
    assert ([r] + reps)[1..] == reps;
    assert out[..r.start] == text[..from] + text[from..r.start] && out[r.end..] == rest;
    assert text[..from] + text[from..r.start] + r.content + rest
        == text[..from] + (text[from..r.start] + (r.content + rest));
  }

  /** One span in front of others. */
  lemma SpliceCons<T>(text: seq<T>, from: nat, r: Replacement<T>, reps: seq<Replacement<T>>)
    requires from <= r.start <= r.end <= |text| && Ordered(|text|, r.end, reps)
    ensures Ordered(|text|, from, [r] + reps)
    ensures Splice(text, from, [r] + reps) == text[from..r.start] + (r.content + Splice(text, r.end, reps))
  {
    assert ([r] + reps)[0] == r && ([r] + reps)[1..] == reps;
  }

  /** Untouched text between `from` and `at` comes first. */
  lemma SpliceAhead<T>(text: seq<T>, from: nat, at: nat, reps: seq<Replacement<T>>)
    requires from <= at <= |text| && Ordered(|text|, at, reps)
    ensures Ordered(|text|, from, reps)
    ensures Splice(text, from, reps) == text[from..at] + Splice(text, at, reps)
  {
    if reps == [] {
      assert text[from..at] + text[at..] == text[from..];
    } else {
      var rest := reps[0].content + Splice(text, reps[0].end, reps[1..]);
      assert text[from..reps[0].start] == text[from..at] + text[at..reps[0].start];
      assert text[from..at] + text[at..reps[0].start] + rest == text[from..at] + (text[at..reps[0].start] + rest);
    }
  }

  function EndBefore<T>(reps: seq<Replacement<T>>, k: nat): nat
    requires k <= |reps|
  {
    if k == 0 then 0 else reps[k - 1].end
  }

  lemma {:induction false} OrderedSuffix<T>(n: nat, from: nat, reps: seq<Replacement<T>>, k: nat)
    requires Ordered(n, from, reps) && k <= |reps| && from <= n
    ensures Ordered(n, if k == 0 then from else EndBefore(reps, k), reps[k..])
    ensures from <= (if k == 0 then from else EndBefore(reps, k)) <= n
    decreases |reps|
  {
    if k == 0 {
      assert reps[0..] == reps;
    } else {
      OrderedSuffix(n, reps[0].end, reps[1..], k - 1);
      assert reps[1..][k - 1..] == reps[k..];
    }
  }

  /** `out` is `text` with the spans of `reps` from index `k` on replaced. */
  ghost predicate SplicedFrom<T>(text: seq<T>, reps: seq<Replacement<T>>, k: nat, out: seq<T>) {
    && k <= |reps| && EndBefore(reps, k) <= |text|
    && Ordered(|text|, EndBefore(reps, k), reps[k..])
    && out == text[..EndBefore(reps, k)] + Splice(text, EndBefore(reps, k), reps[k..])
  }

  lemma SplicedNone<T>(text: seq<T>, reps: seq<Replacement<T>>)
    requires Ordered(|text|, 0, reps)
    ensures SplicedFrom(text, reps, |reps|, text)
  {
    OrderedSuffix(|text|, 0, reps, |reps|);
    SpliceNothing(text, EndBefore(reps, |reps|), reps[|reps|..]);
  }

  lemma SpliceNothing<T>(text: seq<T>, e: nat, none: seq<Replacement<T>>)
    requires e <= |text| && |none| == 0
    ensures Ordered(|text|, e, none) && text == text[..e] + Splice(text, e, none)
  {
  }

  lemma SplicedAll<T>(text: seq<T>, reps: seq<Replacement<T>>, out: seq<T>)
    requires SplicedFrom(text, reps, 0, out)
    ensures Ordered(|text|, 0, reps) && out == Splice(text, 0, reps)
  {
    assert reps[0..] == reps && text[..0] == [];
  }

  /** The next span to the left. */
  lemma SpliceRightmost<T>(text: seq<T>, reps: seq<Replacement<T>>, k: nat, out: seq<T>)
    requires k < |reps| && Ordered(|text|, 0, reps) && SplicedFrom(text, reps, k + 1, out)
    ensures reps[k].start <= reps[k].end <= |out|
    ensures SplicedFrom(text, reps, k, out[..reps[k].start] + reps[k].content + out[reps[k].end..])
  {
    OrderedSuffix(|text|, 0, reps, k);
    assert [reps[k]] + reps[k + 1..] == reps[k..];
    SpliceStep(text, EndBefore(reps, k), reps[k], reps[k + 1..], out);
  }

  /** Splices from the right so that offsets on the left stay valid. */
  method ApplyReplacements<T>(text: seq<T>, reps: seq<Replacement<T>>) returns (out: seq<T>)
    requires Disjoint(|text|, reps)
    ensures Ordered(|text|, 0, Sort(reps, ByStart))
    ensures out == Splice(text, 0, Sort(reps, ByStart))
  {
    var down := Sort(reps, ByStartDescending);
    SortAscends(|text|, reps);
    DescendingMirrors(|text|, reps);
    out := ApplyDown(text, down, Sort(reps, ByStart));
  }

  method ApplyDown<T>(text: seq<T>, down: seq<Replacement<T>>, ghost up: seq<Replacement<T>>) returns (out: seq<T>)
    requires Ordered(|text|, 0, up) && down == Reverse(up)
    ensures out == Splice(text, 0, up)
  {
    SplicedNone(text, up);
    out := text;
    ghost var left := |up|;
    for k := 0 to |down|
      invariant left == |up| - k && SplicedFrom(text, up, left, out)
    {
      var r := down[k];
      left := left - 1;
      assert r == up[left];
      SpliceRightmost(text, up, left, out);
      out := out[..r.start] + r.content + out[r.end..];
    }
    SplicedAll(text, up, out);
  }
}
