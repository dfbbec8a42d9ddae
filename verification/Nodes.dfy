/** Replacements over separately formatted text nodes: `_apply_to_nodes` (app/desktop/formats.py). The nodes are
    compared with their join, every character tagged with the number of its node. */
module Nodes {
  import opened Sequences
  import opened Sorting
  import opened Splicing

  function Join(texts: seq<string>): string {
    if texts == [] then "" else texts[0] + Join(texts[1..])
  }

  // ---- every character with the node it stands in ------------------------------------

  type Tagged = (char, nat)

  function TagAll(s: string, i: nat): (r: seq<Tagged>)
    ensures |r| == |s|
  {
    seq(|s|, k requires 0 <= k < |s| => (s[k], i))
  }

  /** The joined text, each character paired with the index of its node; nodes count from `i`. */
  function Tags(texts: seq<string>, i: nat): seq<Tagged>
    decreases |texts|
  {
    if texts == [] then [] else TagAll(texts[0], i) + Tags(texts[1..], i + 1)
  }

  function Chars(ts: seq<Tagged>): (r: string)
    ensures |r| == |ts|
  {
    seq(|ts|, k requires 0 <= k < |ts| => ts[k].0)
  }

  lemma {:induction false} TagsJoin(texts: seq<string>, i: nat)
    ensures Chars(Tags(texts, i)) == Join(texts)
    decreases |texts|
  {
    if texts != [] {
      TagsJoin(texts[1..], i + 1);
      assert Chars(TagAll(texts[0], i)) == texts[0];
      assert Chars(Tags(texts, i)) == Chars(TagAll(texts[0], i)) + Chars(Tags(texts[1..], i + 1));
    }
  }

  /** The node in which position `at` of the joined text stands. */
  function Owner(texts: seq<string>, at: nat): nat
    decreases |texts|
  {
    if texts == [] then 0 else if at < |texts[0]| then 0 else 1 + Owner(texts[1..], at - |texts[0]|)
  }

  // ---- one replacement ---------------------------------------------------------------

  /** Cut the first `k` characters off the nodes. */
  function CutFront(texts: seq<string>, k: nat): (r: seq<string>)
    ensures |r| == |texts|
    decreases |texts|
  {
    if texts == [] || k == 0 then texts
    else if k <= |texts[0]| then [texts[0][k..]] + texts[1..]
    else [""] + CutFront(texts[1..], k - |texts[0]|)
  }

  /** Put `content` where the span starts, cut the rest of the span from the following nodes. */
  function ReplaceOne(texts: seq<string>, start: nat, end: nat, content: string): (r: seq<string>)
    requires start <= end
    ensures |r| == |texts|
    decreases |texts|
  {
    if texts == [] then []
    else
      var t := texts[0];
      if start >= |t| then [t] + ReplaceOne(texts[1..], start - |t|, end - |t|, content)
      else if end <= |t| then [t[..start] + content + t[end..]] + texts[1..]
      else [t[..start] + content] + CutFront(texts[1..], end - |t|)
  }

  lemma {:induction false} CutFrontTags(texts: seq<string>, k: nat, i: nat)
    requires k <= |Tags(texts, i)|
    ensures Tags(CutFront(texts, k), i) == Tags(texts, i)[k..]
    decreases |texts|
  {
    if texts != [] && k > 0 {
      var t := texts[0];
      if k <= |t| {
        assert TagAll(t[k..], i) == TagAll(t, i)[k..];
      } else {
        CutFrontTags(texts[1..], k - |t|, i + 1);
        assert TagAll("", i) == [];
      }
    }
  }

  lemma TagPieces(t: string, start: nat, end: nat, content: string, i: nat)
    requires start <= end <= |t|
    ensures TagAll(t[..start] + content + t[end..], i) == TagAll(t, i)[..start] + TagAll(content, i) + TagAll(t, i)[end..]
    ensures TagAll(t[..start] + content, i) == TagAll(t, i)[..start] + TagAll(content, i)
  {
  }

  lemma CutBeyond<T>(head: seq<T>, tail: seq<T>, k: nat)
    requires |head| <= k <= |head| + |tail|
    ensures (head + tail)[..k] == head + tail[..k - |head|] && (head + tail)[k..] == tail[k - |head|..]
  {
  }

  lemma CutWithin<T>(head: seq<T>, tail: seq<T>, k: nat)
    requires k <= |head|
    ensures (head + tail)[..k] == head[..k] && (head + tail)[k..] == head[k..] + tail
  {
  }

  /** The span lies in later nodes. */
  lemma ReplaceLater(texts: seq<string>, start: nat, end: nat, content: string, i: nat)
    requires start < end <= |Tags(texts, i)| && start >= |texts[0]|
    requires var s, e := start - |texts[0]|, end - |texts[0]|;
             Tags(ReplaceOne(texts[1..], s, e, content), i + 1)
             == Tags(texts[1..], i + 1)[..s] + TagAll(content, i + 1 + Owner(texts[1..], s)) + Tags(texts[1..], i + 1)[e..]
    ensures SplicesTags(texts, start, end, content, i)
  {
    var head, tail := TagAll(texts[0], i), Tags(texts[1..], i + 1);
    var s, e := start - |head|, end - |head|;
    var mid := TagAll(content, i + 1 + Owner(texts[1..], s));
    TagsCons(texts[0], ReplaceOne(texts[1..], s, e, content), i);
    BehindHead(head, tail, s, e, mid, Tags(ReplaceOne(texts[1..], s, e, content), i + 1));
  }

  lemma BehindHead<T>(head: seq<T>, tail: seq<T>, s: nat, e: nat, mid: seq<T>, changed: seq<T>)
    requires s <= e <= |tail| && changed == tail[..s] + mid + tail[e..]
    ensures head + changed == (head + tail)[..|head| + s] + mid + (head + tail)[|head| + e..]
  {
    CutBeyond(head, tail, |head| + s);
    CutBeyond(head, tail, |head| + e);
    AssociateFour(head, tail[..s], mid, tail[e..]);
  }

  lemma TagsCons(t: string, rest: seq<string>, i: nat)
    ensures Tags([t] + rest, i) == TagAll(t, i) + Tags(rest, i + 1)
  {
    assert ([t] + rest)[1..] == rest;
  }

  /** The span lies in the first node. */
  lemma ReplaceHere(texts: seq<string>, start: nat, end: nat, content: string, i: nat)
    requires start < end <= |Tags(texts, i)| && end <= |texts[0]|
    ensures SplicesTags(texts, start, end, content, i)
  {
    var t := texts[0];
    CutWithin(TagAll(t, i), Tags(texts[1..], i + 1), start);
    CutWithin(TagAll(t, i), Tags(texts[1..], i + 1), end);
    TagPieces(t, start, end, content, i);
    var first := t[..start] + content + t[end..];
    assert ([first] + texts[1..])[1..] == texts[1..];
  }

  /** The span starts in the first node and ends in a later one. */
  lemma ReplaceAcross(texts: seq<string>, start: nat, end: nat, content: string, i: nat)
    requires start < end <= |Tags(texts, i)| && start < |texts[0]| < end
    ensures SplicesTags(texts, start, end, content, i)
  {
    var t := texts[0];
    CutFrontTags(texts[1..], end - |t|, i + 1);
    CutWithin(TagAll(t, i), Tags(texts[1..], i + 1), start);
    CutBeyond(TagAll(t, i), Tags(texts[1..], i + 1), end);
    TagPieces(t, start, |t|, content, i);
    var first, rest := t[..start] + content, CutFront(texts[1..], end - |t|);
    assert ([first] + rest)[1..] == rest;
  }

  /** Replacing on the nodes splices the tagged text; the new characters belong to the span's first node. */
  ghost predicate SplicesTags(texts: seq<string>, start: nat, end: nat, content: string, i: nat)
    requires start < end <= |Tags(texts, i)|
  {
    Tags(ReplaceOne(texts, start, end, content), i)
    == Tags(texts, i)[..start] + TagAll(content, i + Owner(texts, start)) + Tags(texts, i)[end..]
  }

  /** One replacement on the nodes is one splice of the tagged text: characters outside the span
      keep their node, the new ones belong to the node where the span starts. */
  lemma {:induction false} ReplaceOneTags(texts: seq<string>, start: nat, end: nat, content: string, i: nat)
    requires start < end <= |Tags(texts, i)|
    ensures SplicesTags(texts, start, end, content, i)
    decreases |texts|
  {
    var n := |texts[0]|;
    if start >= n {
      ReplaceOneTags(texts[1..], start - n, end - n, content, i + 1);
      ReplaceLater(texts, start, end, content, i);
    } else if end <= n {
      ReplaceHere(texts, start, end, content, i);
    } else {
      ReplaceAcross(texts, start, end, content, i);
    }
  }

  // ---- many replacements -------------------------------------------------------------

  lemma {:induction false} OwnerIsTag(texts: seq<string>, i: nat, at: nat)
    requires at < |Tags(texts, i)|
    ensures Tags(texts, i)[at].1 == i + Owner(texts, at)
    decreases |texts|
  {
    if at >= |texts[0]| { OwnerIsTag(texts[1..], i + 1, at - |texts[0]|); }
  }

  /** A replacement of the joined text, its new characters tagged with the node where it starts. */
  function TagRep(texts: seq<string>, r: Replacement<char>): Replacement<Tagged> {
    Replacement(r.start, r.end, TagAll(r.content, Owner(texts, r.start)))
  }

  function TagReps(texts: seq<string>, reps: seq<Replacement<char>>): (q: seq<Replacement<Tagged>>)
    ensures |q| == |reps| && forall k | 0 <= k < |reps| :: q[k] == TagRep(texts, reps[k])
  {
    seq(|reps|, k requires 0 <= k < |reps| => TagRep(texts, reps[k]))
  }

  lemma {:induction false} TagRepsOrdered(texts: seq<string>, n: nat, from: nat, reps: seq<Replacement<char>>)
    requires Ordered(n, from, reps)
    ensures Ordered(n, from, TagReps(texts, reps))
    decreases |reps|
  {
    if reps != [] {
      TagRepsOrdered(texts, n, reps[0].end, reps[1..]);
      assert TagReps(texts, reps)[1..] == TagReps(texts, reps[1..]);
    }
  }

  /** Forgetting the tags of a tagged splice leaves the splice of the joined text. */
  lemma {:induction false} SpliceChars(texts: seq<string>, ts: seq<Tagged>, from: nat, reps: seq<Replacement<char>>)
    requires from <= |ts| && Ordered(|ts|, from, reps) && Ordered(|ts|, from, TagReps(texts, reps))
    ensures Chars(Splice(ts, from, TagReps(texts, reps))) == Splice(Chars(ts), from, reps)
    decreases |reps|
  {
    var q := TagReps(texts, reps);
    if reps == [] {
      assert Chars(ts[from..]) == Chars(ts)[from..];
    } else {
      var r := reps[0];
      assert q[1..] == TagReps(texts, reps[1..]);
      SpliceChars(texts, ts, r.end, reps[1..]);
      var rest := Splice(ts, r.end, q[1..]);
      CharsConcat(q[0].content, rest);
      CharsConcat(ts[from..r.start], q[0].content + rest);
      CharsSlice(ts, from, r.start);
      assert Chars(q[0].content) == r.content;
    }
  }

  lemma CharsConcat(a: seq<Tagged>, b: seq<Tagged>)
    ensures Chars(a + b) == Chars(a) + Chars(b)
  {
  }

  lemma CharsSlice(ts: seq<Tagged>, from: nat, to: nat)
    requires from <= to <= |ts|
    ensures Chars(ts[from..to]) == Chars(ts)[from..to]
  {
  }

  /** The tagged text determines the nodes. */
  lemma {:induction false} TagsDetermineNodes(a: seq<string>, b: seq<string>, i: nat)
    requires |a| == |b| && Tags(a, i) == Tags(b, i)
    ensures a == b
    decreases |a|
  {
    if a != [] {
      var ta, tb := Tags(a, i), Tags(b, i);
      TagsAreLater(a[1..], i + 1);
      TagsAreLater(b[1..], i + 1);
      assert forall k | 0 <= k < |a[0]| :: ta[k] == (a[0][k], i);
      assert forall k | 0 <= k < |b[0]| :: tb[k] == (b[0][k], i);
      if |a[0]| < |ta| { assert ta[|a[0]|] == Tags(a[1..], i + 1)[0]; }
      if |b[0]| < |tb| { assert tb[|b[0]|] == Tags(b[1..], i + 1)[0]; }
      assert |a[0]| == |b[0]|;
      forall k | 0 <= k < |a[0]| ensures a[0][k] == b[0][k] { assert ta[k] == tb[k]; }
      assert a[0] == b[0];
      assert Tags(a[1..], i + 1) == ta[|a[0]|..] && Tags(b[1..], i + 1) == tb[|b[0]|..];
      TagsDetermineNodes(a[1..], b[1..], i + 1);
      assert a == [a[0]] + a[1..] && b == [b[0]] + b[1..];
    }
  }

  lemma {:induction false} TagsAreLater(a: seq<string>, i: nat)
    ensures forall k | 0 <= k < |Tags(a, i)| :: Tags(a, i)[k].1 >= i
    decreases |a|
  {
    if a != [] {
      TagsAreLater(a[1..], i + 1);
      var tail := Tags(a[1..], i + 1);
      forall k | 0 <= k < |Tags(a, i)| ensures Tags(a, i)[k].1 >= i {
        if k >= |a[0]| { assert Tags(a, i)[k] == tail[k - |a[0]|]; }
      }
    }
  }

  // ---- node by node, as the source computes it ---------------------------------------

  function Min(a: int, b: int): int { if a <= b then a else b }

  function Max(a: int, b: int): int { if a >= b then a else b }

  /** Offset of node `i` in the joined text. */
  function StartOf(texts: seq<string>, i: nat): nat
    requires i <= |texts|
    decreases |texts|
  {
    if i == 0 then 0 else |texts[0]| + StartOf(texts[1..], i - 1)
  }

  lemma {:induction false} StartOfNext(texts: seq<string>, i: nat)
    requires i < |texts|
    ensures StartOf(texts, i + 1) == StartOf(texts, i) + |texts[i]|
    decreases |texts|
  {
    if i > 0 { StartOfNext(texts[1..], i - 1); }
  }

  /** The owner is the first node whose range holds the position. */
  lemma {:induction false} OwnerSpec(texts: seq<string>, at: nat)
    requires at < |Join(texts)|
    ensures var o := Owner(texts, at);
            o < |texts| && StartOf(texts, o) <= at < StartOf(texts, o) + |texts[o]|
    ensures forall i | 0 <= i < Owner(texts, at) :: StartOf(texts, i) + |texts[i]| <= at
    decreases |texts|
  {
    if at >= |texts[0]| {
      OwnerSpec(texts[1..], at - |texts[0]|);
      forall i | 0 <= i < Owner(texts, at) ensures StartOf(texts, i) + |texts[i]| <= at {
        if i > 0 { assert StartOf(texts[1..], i - 1) + |texts[1..][i - 1]| <= at - |texts[0]|; }
      }
    }
  }

  /** Node `i` after one replacement. */
  function NodeAfter(texts: seq<string>, start: nat, end: nat, content: string, i: nat): string
    requires start < end && start < |Join(texts)| && i < |texts|
  {
    OwnerSpec(texts, start);
    var t, b, o := texts[i], StartOf(texts, i), Owner(texts, start);
    if i < o || b >= end then t
    else
      var eLocal := Min(end - b, |t|);
      if i == o then t[..start - b] + content + t[eLocal..] else t[eLocal..]
  }

  lemma {:induction false} CutFrontAt(texts: seq<string>, k: nat, i: nat)
    requires i < |texts|
    ensures CutFront(texts, k)[i]
         == if StartOf(texts, i) >= k then texts[i] else texts[i][Min(k - StartOf(texts, i), |texts[i]|)..]
    decreases |texts|
  {
    if k > |texts[0]| && i > 0 { CutFrontAt(texts[1..], k - |texts[0]|, i - 1); }
  }

  lemma {:induction false} ReplaceOneAt(texts: seq<string>, start: nat, end: nat, content: string, i: nat)
    requires start < end && start < |Join(texts)| && i < |texts|
    ensures ReplaceOne(texts, start, end, content)[i] == NodeAfter(texts, start, end, content, i)
    decreases |texts|, 1
  {
    if i > 0 && start >= |texts[0]| {
      ReplaceLaterAt(texts, start, end, content, i);
    } else {
      ReplaceNearAt(texts, start, end, content, i);
    }
  }

  lemma {:induction false} ReplaceLaterAt(texts: seq<string>, start: nat, end: nat, content: string, i: nat)
    requires 0 < i < |texts| && start < end && |texts[0]| <= start < |Join(texts)|
    ensures ReplaceOne(texts, start, end, content)[i] == NodeAfter(texts, start, end, content, i)
    decreases |texts|, 0
  {
    var n := |texts[0]|;
    JoinTail(texts);
    ReplaceOneAt(texts[1..], start - n, end - n, content, i - 1);
    StepLater(texts, start, end, content, i);
  }

  lemma JoinTail(texts: seq<string>)
    requires texts != []
    ensures |Join(texts)| == |texts[0]| + |Join(texts[1..])|
  {
  }

  lemma ReplaceNearAt(texts: seq<string>, start: nat, end: nat, content: string, i: nat)
    requires start < end && start < |Join(texts)| && i < |texts| && (i == 0 || start < |texts[0]|)
    ensures ReplaceOne(texts, start, end, content)[i] == NodeAfter(texts, start, end, content, i)
  {
    if i == 0 { ReplaceFirst(texts, start, end, content); } else { NodeAfterCut(texts, start, end, content, i); }
  }

  lemma StepLater(texts: seq<string>, start: nat, end: nat, content: string, i: nat)
    requires 0 < i < |texts| && start < end && |texts[0]| <= start < |Join(texts)|
    requires start - |texts[0]| < |Join(texts[1..])|
    requires ReplaceOne(texts[1..], start - |texts[0]|, end - |texts[0]|, content)[i - 1]
          == NodeAfter(texts[1..], start - |texts[0]|, end - |texts[0]|, content, i - 1)
    ensures ReplaceOne(texts, start, end, content)[i] == NodeAfter(texts, start, end, content, i)
  {
    NodeAfterLater(texts, start, end, content, i);
  }

  lemma NodeAfterLater(texts: seq<string>, start: nat, end: nat, content: string, i: nat)
    requires 0 < i < |texts| && start < end && |texts[0]| <= start < |Join(texts)|
    ensures var n := |texts[0]|;
            && start - n < |Join(texts[1..])|
            && NodeAfter(texts, start, end, content, i) == NodeAfter(texts[1..], start - n, end - n, content, i - 1)
    ensures ReplaceOne(texts, start, end, content)[i]
         == ReplaceOne(texts[1..], start - |texts[0]|, end - |texts[0]|, content)[i - 1]
  {
  }

  /** A node behind the one where the span starts. */
  lemma NodeAfterCut(texts: seq<string>, start: nat, end: nat, content: string, i: nat)
    requires 0 < i < |texts| && start < end && start < |Join(texts)| && start < |texts[0]|
    ensures ReplaceOne(texts, start, end, content)[i] == NodeAfter(texts, start, end, content, i)
  {
    if end > |texts[0]| { CutFrontAt(texts[1..], end - |texts[0]|, i - 1); }
  }

  lemma ReplaceFirst(texts: seq<string>, start: nat, end: nat, content: string)
    requires start < end && start < |Join(texts)|
    ensures ReplaceOne(texts, start, end, content)[0] == NodeAfter(texts, start, end, content, 0)
  {
    var t := texts[0];
    if start < |t| < end { assert t[|t|..] == "" && t[..start] + content + "" == t[..start] + content; }
  }

  method NodeStarts(texts: seq<string>) returns (starts: seq<nat>)
    ensures |starts| == |texts| && forall i | 0 <= i < |texts| :: starts[i] == StartOf(texts, i)
  {
    starts := [];
    var pos: nat := 0;
    for i := 0 to |texts|
      invariant |starts| == i && pos == StartOf(texts, i)
      invariant forall k | 0 <= k < i :: starts[k] == StartOf(texts, k)
    {
      StartOfNext(texts, i);
      starts := starts + [pos];
      pos := pos + |texts[i]|;
    }
  }

  method ApplyOne(texts: seq<string>, r: Replacement<char>) returns (out: seq<string>)
    requires r.start < r.end <= |Join(texts)|
    ensures out == ReplaceOne(texts, r.start, r.end, r.content)
  {
    ghost var result := ReplaceOne(texts, r.start, r.end, r.content);
    OwnerSpec(texts, r.start);
    ghost var o := Owner(texts, r.start);
    forall i | 0 <= i < |texts| ensures result[i] == NodeAfter(texts, r.start, r.end, r.content, i) {
      ReplaceOneAt(texts, r.start, r.end, r.content, i);
    }
    var starts := NodeStarts(texts);
    var first := 0;
    while first < |texts| && !(starts[first] <= r.start < starts[first] + |texts[first]|)
      invariant first <= o
    {
      first := first + 1;
    }
    assert first == o;
    out := texts;
    var i := first;
    while i < |texts|
      invariant first <= i <= |texts| == |out|
      invariant forall k | i <= k < |texts| :: out[k] == texts[k]
      invariant forall k | 0 <= k < i :: out[k] == result[k]
    {
      var b, t := starts[i], texts[i];
      if b >= r.end {
        StartsRise(texts, i);
        break;
      }
      var sLocal, eLocal := Max(r.start - b, 0), Min(r.end - b, |t|);
      if i > first { OwnedBefore(texts, first, i); }
      out := out[i := if i == first then t[..sLocal] + r.content + t[eLocal..] else t[eLocal..]];
      i := i + 1;
    }
    assert out == result;
  }

  lemma {:induction false} StartsRise(texts: seq<string>, i: nat)
    requires i <= |texts|
    ensures forall k | i <= k <= |texts| :: StartOf(texts, k) >= StartOf(texts, i)
    decreases |texts| - i
  {
    if i < |texts| { StartsRise(texts, i + 1); StartOfNext(texts, i); }
  }

  lemma OwnedBefore(texts: seq<string>, o: nat, i: nat)
    requires o < i <= |texts|
    ensures StartOf(texts, o) + |texts[o]| <= StartOf(texts, i)
  {
    StartOfNext(texts, o);
    StartsRise(texts, o + 1);
  }

  /** Right to left over the nodes. Node for node this is the tagged splice: the join of the result is
      the replaced join, the number of nodes stays, every character outside a replaced span stays in
      its own node and every new one goes to the node where its span starts. */
  method ApplyToNodes(texts: seq<string>, reps: seq<Replacement<char>>) returns (out: seq<string>)
    requires Disjoint(|Join(texts)|, reps) && forall r | r in reps :: r.start < r.end
    ensures |out| == |texts|
    ensures var up := Sort(reps, ByStart);
            && Ordered(|Tags(texts, 0)|, 0, TagReps(texts, up))
            && Tags(out, 0) == Splice(Tags(texts, 0), 0, TagReps(texts, up))
            && Ordered(|Join(texts)|, 0, up)
            && Join(out) == Splice(Join(texts), 0, up)
  {
    var down := Sort(reps, ByStartDescending);
    ghost var up := Sort(reps, ByStart);
    SortAscends(|Join(texts)|, reps);
    DescendingMirrors(|Join(texts)|, reps);
    out := ApplyDescending(texts, down, up);
    OnNodesDone(texts, up, out);
  }

  method ApplyDescending(texts: seq<string>, down: seq<Replacement<char>>, ghost up: seq<Replacement<char>>)
    returns (out: seq<string>)
    requires Ordered(|Join(texts)|, 0, up) && down == Reverse(up) && forall r | r in up :: r.start < r.end
    ensures |out| == |texts| && OnNodes(texts, up, 0, out)
  {
    OnNodesStart(texts, up);
    out := texts;
    var k := 0;
    ghost var left := |up|;
    while k < |down|
      invariant k <= |down| && left == |down| - k && |out| == |texts|
      invariant OnNodes(texts, up, left, out)
    {
      var r := down[k];
      left := left - 1;
      RightmostFits(texts, up, left, out);
      ghost var was := out;
      out := ApplyOne(out, r);
      NextOnNodes(texts, up, left, r, was, out);
      k := k + 1;
    }
  }

  /** The spans from index `k` on have been replaced on the nodes. */
  ghost predicate OnNodes(texts: seq<string>, up: seq<Replacement<char>>, k: nat, out: seq<string>) {
    && Ordered(|Tags(texts, 0)|, 0, TagReps(texts, up))
    && SplicedFrom(Tags(texts, 0), TagReps(texts, up), k, Tags(out, 0))
  }

  lemma OnNodesStart(texts: seq<string>, up: seq<Replacement<char>>)
    requires Ordered(|Join(texts)|, 0, up)
    ensures OnNodes(texts, up, |up|, texts)
  {
    TagsJoin(texts, 0);
    TagRepsOrdered(texts, |Tags(texts, 0)|, 0, up);
    SplicedNone(Tags(texts, 0), TagReps(texts, up));
  }

  lemma OnNodesDone(texts: seq<string>, up: seq<Replacement<char>>, out: seq<string>)
    requires OnNodes(texts, up, 0, out) && Ordered(|Join(texts)|, 0, up)
    ensures Tags(out, 0) == Splice(Tags(texts, 0), 0, TagReps(texts, up))
    ensures Join(out) == Splice(Join(texts), 0, up)
  {
    TagsJoin(texts, 0);
    SplicedAll(Tags(texts, 0), TagReps(texts, up), Tags(out, 0));
    SpliceChars(texts, Tags(texts, 0), 0, up);
    TagsJoin(out, 0);
  }

  lemma RightmostFits(texts: seq<string>, up: seq<Replacement<char>>, k: nat, out: seq<string>)
    requires k < |up| && OnNodes(texts, up, k + 1, out)
    ensures up[k].end <= |Join(out)|
  {
    SpliceRightmost(Tags(texts, 0), TagReps(texts, up), k, Tags(out, 0));
    TagsJoin(out, 0);
  }

  lemma NextOnNodes(texts: seq<string>, up: seq<Replacement<char>>, k: nat, r: Replacement<char>, out: seq<string>,
                    next: seq<string>)
    requires k < |up| && OnNodes(texts, up, k + 1, out) && r == up[k] && r.start < r.end <= |Join(out)|
    requires next == ReplaceOne(out, r.start, r.end, r.content)
    ensures OnNodes(texts, up, k, next)
  {
    var text, q, now := Tags(texts, 0), TagReps(texts, up), Tags(out, 0);
    SpliceRightmost(text, q, k, now);
    TagsJoin(out, 0);
    ReplaceOneTags(out, r.start, r.end, r.content, 0);
    assert now[r.start] == text[r.start];
    OwnerIsTag(texts, 0, r.start);
    OwnerIsTag(out, 0, r.start);
  }
}
