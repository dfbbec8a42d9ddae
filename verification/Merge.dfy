/** Overlap resolution: `merge_spans` (app/redaction/merge.py). */
module Merge {
  import opened Sorting
  import opened Entities

  function SourceRank(source: string): int {
    if source == "manual" then 4
    else if source == "regex" then 3
    else if source == "llm" then 2
    else if source == "presidio" then 1
    else 0
  }

  /** Everything the resolver looks at. */
  datatype Core = Core(start: nat, end: nat, score: real, rank: int)

  function CoreOf(s: EntitySpan): Core { Core(s.start, s.end, s.score, SourceRank(s.source)) }

  function Length(c: Core): int { c.end - c.start }

  /** `(score, length, source rank)`, compared as Python compares tuples. */
  predicate KeyLe(a: Core, b: Core) {
    a.score < b.score
    || (a.score == b.score && (Length(a) < Length(b) || (Length(a) == Length(b) && a.rank <= b.rank)))
  }

  predicate KeyLt(a: Core, b: Core) { KeyLe(a, b) && !KeyLe(b, a) }

  /** `_better(a, b)` is `a`. */
  predicate Wins(a: EntitySpan, b: EntitySpan) { KeyLe(CoreOf(b), CoreOf(a)) }

  /** The sort key `(start, -score, -length, -rank)`. */
  predicate CoreBefore(a: Core, b: Core) { a.start < b.start || (a.start == b.start && KeyLe(b, a)) }

  predicate SpanBefore(a: EntitySpan, b: EntitySpan) { CoreBefore(CoreOf(a), CoreOf(b)) }

  /** The final sort key `(start, end)`. */
  predicate ByPosition(a: EntitySpan, b: EntitySpan) { a.start < b.start || (a.start == b.start && a.end <= b.end) }

  predicate ByStartOnly(a: EntitySpan, b: EntitySpan) { a.start <= b.start }

  // ---- the reference fold ------------------------------------------------------------

  /** One span of the start-sorted input against the spans kept so far: only the last kept span can
      overlap it, and it is dropped or evicts exactly that one. */
  function Step(kept: seq<EntitySpan>, s: EntitySpan): seq<EntitySpan> {
    if kept == [] || kept[|kept| - 1].end <= s.start then kept + [s]
    else if Wins(kept[|kept| - 1], s) then kept
    else kept[..|kept| - 1] + [s]
  }

  function Fold(spans: seq<EntitySpan>): seq<EntitySpan> {
    if spans == [] then [] else Step(Fold(spans[..|spans| - 1]), spans[|spans| - 1])
  }

  function Merged(spans: seq<EntitySpan>): seq<EntitySpan> { Fold(Sort(spans, SpanBefore)) }

  // ---- sorted and disjoint -----------------------------------------------------------

  ghost predicate NonEmpty(spans: seq<EntitySpan>) {
    forall s | s in spans :: s.start < s.end
  }

  /** Each span ends before the next one starts. */
  ghost predicate Separated(spans: seq<EntitySpan>) {
    forall i, j | 0 <= i < j < |spans| :: spans[i].end <= spans[j].start
  }

  lemma SpanOrder()
    ensures TotalPreorder(SpanBefore)
  {
  }

  ghost predicate StartBy(spans: seq<EntitySpan>, at: nat) {
    forall s | s in spans :: s.start <= at
  }

  lemma StepInvariant(kept: seq<EntitySpan>, s: EntitySpan)
    requires Separated(kept) && NonEmpty(kept) && StartBy(kept, s.start) && s.start < s.end
    ensures Separated(Step(kept, s)) && NonEmpty(Step(kept, s)) && StartBy(Step(kept, s), s.start)
    ensures Step(kept, s) != [] && forall t | t in Step(kept, s) :: t in kept || t == s
  {
    var base := StepShape(kept, s);
    if Step(kept, s) != kept {
      assert forall t | t in base :: t in kept;
      SeparatedSnoc(kept, base, s);
    }
  }

  /** Nothing changes, or the new span comes behind the kept spans that end before it. */
  lemma StepShape(kept: seq<EntitySpan>, s: EntitySpan) returns (base: seq<EntitySpan>)
    requires Separated(kept) && NonEmpty(kept) && StartBy(kept, s.start)
    ensures base <= kept && (forall t | t in base :: t.end <= s.start)
    ensures (Step(kept, s) == kept && kept != []) || Step(kept, s) == base + [s]
  {
    var n := |kept| - 1;
    if kept == [] || kept[n].end <= s.start { base := kept; } else { base := kept[..n]; }
    if kept != [] { assert kept[n] in kept; }
    forall t | t in base ensures t.end <= s.start {
      var i :| 0 <= i < |base| && base[i] == t;
      if i < n { assert kept[i].end <= kept[n].start; }
    }
  }

  lemma SeparatedSnoc(kept: seq<EntitySpan>, base: seq<EntitySpan>, s: EntitySpan)
    requires Separated(kept) && base <= kept && forall t | t in base :: t.end <= s.start
    ensures Separated(base + [s])
  {
    forall i, j | 0 <= i < j < |base + [s]| ensures (base + [s])[i].end <= (base + [s])[j].start {
      assert base[i] == kept[i] && base[i] in base;
      if j < |base| { assert base[j] == kept[j]; }
    }
  }

  /** The kept spans of a start-sorted prefix: all from it, disjoint, starting no later than its end. */
  lemma {:induction false} FoldInvariant(spans: seq<EntitySpan>)
    requires NonEmpty(spans) && SortedBy(spans, SpanBefore)
    ensures Separated(Fold(spans)) && NonEmpty(Fold(spans))
    ensures forall s | s in Fold(spans) :: s in spans
    ensures spans != [] ==> StartBy(Fold(spans), spans[|spans| - 1].start) && Fold(spans) != []
  {
    if spans != [] {
      var n := |spans| - 1;
      FoldInvariant(spans[..n]);
      PrefixStarts(spans, n);
      assert spans[n] in spans;
      StepInvariant(Fold(spans[..n]), spans[n]);
    }
  }

  lemma PrefixStarts(spans: seq<EntitySpan>, n: nat)
    requires SortedBy(spans, SpanBefore) && n < |spans|
    requires forall s | s in Fold(spans[..n]) :: s in spans[..n]
    ensures StartBy(Fold(spans[..n]), spans[n].start)
    ensures forall s | s in Fold(spans[..n]) :: s in spans
  {
    forall s | s in Fold(spans[..n]) ensures s in spans && s.start <= spans[n].start {
      var i :| 0 <= i < n && spans[..n][i] == s;
      assert SpanBefore(spans[i], spans[n]);
    }
  }

  /** The result is start-sorted, pairwise non-overlapping, and consists of input spans. */
  lemma MergedIsSeparated(spans: seq<EntitySpan>)
    requires NonEmpty(spans)
    ensures Separated(Merged(spans))
    ensures forall s | s in Merged(spans) :: s in spans
    ensures spans != [] ==> Merged(spans) != []
  {
    SpanOrder();
    SortSpec(spans, SpanBefore);
    var sorted := Sort(spans, SpanBefore);
    forall s | s in sorted ensures s in spans { assert s in multiset(sorted); }
    FoldInvariant(sorted);
  }

  // ---- chains of overlapping spans ---------------------------------------------------

  /** Input spans, each overlapping the next and never of a smaller key than it. */
  ghost predicate Chain(input: seq<EntitySpan>, c: seq<EntitySpan>) {
    && c != [] && (forall s | s in c :: s in input)
    && forall i | 0 <= i < |c| - 1 :: LinkUp(c[i], c[i + 1])
  }

  predicate LinkUp(a: EntitySpan, b: EntitySpan) { a.Overlaps(b) && KeyLe(CoreOf(a), CoreOf(b)) }

  ghost predicate ChainTo(input: seq<EntitySpan>, c: seq<EntitySpan>, s: EntitySpan, kept: seq<EntitySpan>) {
    Chain(input, c) && c[0] == s && c[|c| - 1] in kept
  }

  lemma ChainExtends(input: seq<EntitySpan>, c: seq<EntitySpan>, t: EntitySpan)
    requires Chain(input, c) && t in input && LinkUp(c[|c| - 1], t)
    ensures Chain(input, c + [t])
  {
    var d := c + [t];
    forall i | 0 <= i < |d| - 1 ensures LinkUp(d[i], d[i + 1]) {
      if i < |c| - 1 { assert d[i] == c[i] && d[i + 1] == c[i + 1]; }
    }
  }

  /** What becomes of a span that was kept or is new: it stays, or it links up to a span that stays. */
  lemma StepLinks(kept: seq<EntitySpan>, s: EntitySpan, t: EntitySpan) returns (next: EntitySpan)
    requires NonEmpty(kept) && StartBy(kept, s.start) && s.start < s.end && (t in kept || t == s)
    ensures next in Step(kept, s) && (next in kept || next == s)
    ensures next == t || LinkUp(t, next)
  {
    var r, n := Step(kept, s), |kept| - 1;
    next := t;
    if kept != [] && kept[n].end > s.start {
      assert kept[n] in kept;
      if Wins(kept[n], s) {
        if t == s { next := kept[n]; }
      } else {
        assert r[n] == s;
        if t in kept {
          var i :| 0 <= i < |kept| && kept[i] == t;
          if i == n { next := s; } else { assert r[i] == t; }
        }
      }
    } else {
      assert r == kept + [s];
    }
  }

  /** Every input span is linked by a chain of overlapping input spans with non-decreasing
      (score, length, source rank) to a span that the fold keeps. */
  lemma {:induction false} FoldChains(input: seq<EntitySpan>, spans: seq<EntitySpan>, s: EntitySpan)
    returns (c: seq<EntitySpan>)
    requires NonEmpty(spans) && SortedBy(spans, SpanBefore) && s in spans
    requires forall t | t in spans :: t in input
    ensures ChainTo(input, c, s, Fold(spans))
    decreases |spans|
  {
    var n := |spans| - 1;
    var x := spans[n];
    LastStep(input, spans);
    c := [s];
    if s in spans[..n] { c := FoldChains(input, spans[..n], s); } else { assert s == x; }
    c := ChainStep(input, c, Fold(spans[..n]), x);
  }

  /** The fold's last step, on the spans before it. */
  lemma LastStep(input: seq<EntitySpan>, spans: seq<EntitySpan>)
    requires NonEmpty(spans) && SortedBy(spans, SpanBefore) && spans != []
    requires forall t | t in spans :: t in input
    ensures var n := |spans| - 1;
            var x, kept := spans[n], Fold(spans[..n]);
            && NonEmpty(spans[..n]) && SortedBy(spans[..n], SpanBefore) && (forall t | t in spans[..n] :: t in input)
            && NonEmpty(kept) && StartBy(kept, x.start) && x.start < x.end && x in input
            && (forall t | t in kept :: t in input) && Fold(spans) == Step(kept, x)
            && (forall t | t in spans :: t in spans[..n] || t == x)
  {
    var n := |spans| - 1;
    FoldInvariant(spans[..n]);
    PrefixStarts(spans, n);
    assert spans == spans[..n] + [spans[n]] && spans[n] in spans;
  }

  lemma ChainStep(input: seq<EntitySpan>, c: seq<EntitySpan>, kept: seq<EntitySpan>, x: EntitySpan)
    returns (d: seq<EntitySpan>)
    requires Chain(input, c) && (c[|c| - 1] in kept || c[|c| - 1] == x)
    requires NonEmpty(kept) && StartBy(kept, x.start) && x.start < x.end
    requires x in input && forall t | t in kept :: t in input
    ensures ChainTo(input, d, c[0], Step(kept, x))
  {
    var last := c[|c| - 1];
    var next := StepLinks(kept, x, last);
    d := c;
    if next != last {
      ChainExtends(input, c, next);
      d := c + [next];
    }
  }

  /** Nothing is lost without a reason: from every input span a chain of overlapping input spans with
      non-decreasing (score, length, source rank) leads to a kept span. */
  lemma MergedChains(spans: seq<EntitySpan>, s: EntitySpan) returns (c: seq<EntitySpan>)
    requires NonEmpty(spans) && s in spans
    ensures ChainTo(spans, c, s, Merged(spans))
  {
    SpanOrder();
    SortSpec(spans, SpanBefore);
    var sorted := Sort(spans, SpanBefore);
    forall t | t in sorted ensures t in spans { assert t in multiset(sorted); }
    assert s in multiset(sorted);
    c := FoldChains(spans, sorted, s);
  }

  lemma {:induction false} ChainKeyRises(input: seq<EntitySpan>, c: seq<EntitySpan>, i: nat)
    requires Chain(input, c) && i < |c|
    ensures KeyLe(CoreOf(c[0]), CoreOf(c[i]))
  {
    if i > 0 {
      ChainKeyRises(input, c, i - 1);
      assert LinkUp(c[i - 1], c[i]);
    }
  }

  /** Spans connected by overlaps, whatever their keys. */
  ghost predicate Connected(input: seq<EntitySpan>, c: seq<EntitySpan>, a: EntitySpan, b: EntitySpan) {
    && c != [] && c[0] == a && c[|c| - 1] == b && (forall s | s in c :: s in input)
    && forall i | 0 <= i < |c| - 1 :: c[i].Overlaps(c[i + 1])
  }

  /** Each overlap-connected cluster keeps a span of maximal key. */
  lemma ClusterKeepsMaximum(spans: seq<EntitySpan>, s: EntitySpan)
    requires NonEmpty(spans) && s in spans
    requires forall c, t | t in spans && Connected(spans, c, s, t) :: KeyLe(CoreOf(t), CoreOf(s))
    ensures exists c, k :: k in Merged(spans) && Connected(spans, c, s, k)
                           && KeyLe(CoreOf(s), CoreOf(k)) && KeyLe(CoreOf(k), CoreOf(s))
  {
    var c := MergedChains(spans, s);
    var k := c[|c| - 1];
    ChainKeyRises(spans, c, |c| - 1);
    forall i | 0 <= i < |c| - 1 ensures c[i].Overlaps(c[i + 1]) { assert LinkUp(c[i], c[i + 1]); }
    assert Connected(spans, c, s, k) && k in spans;
  }

  /** A span that strictly beats everything it overlaps is kept. */
  lemma StrictWinnerIsKept(spans: seq<EntitySpan>, s: EntitySpan)
    requires NonEmpty(spans) && s in spans
    requires forall t | t in spans && t != s && s.Overlaps(t) :: KeyLt(CoreOf(t), CoreOf(s))
    ensures s in Merged(spans)
  {
    var c := MergedChains(spans, s);
    WinnerChainStays(spans, c, s, |c| - 1);
  }

  lemma {:induction false} WinnerChainStays(spans: seq<EntitySpan>, c: seq<EntitySpan>, s: EntitySpan, i: nat)
    requires Chain(spans, c) && c[0] == s && i < |c|
    requires forall t | t in spans && t != s && s.Overlaps(t) :: KeyLt(CoreOf(t), CoreOf(s))
    ensures c[i] == s
  {
    if i > 0 {
      WinnerChainStays(spans, c, s, i - 1);
      assert LinkUp(c[i - 1], c[i]) && c[i] in c;
    }
  }

  // ---- who wins, in the spans' own fields --------------------------------------------

  /** Manual before regex, regex before llm, llm before presidio, and any other source last. */
  predicate MoreTrusted(a: string, b: string) {
    || (a == "manual" && b != "manual")
    || (a == "regex" && b != "manual" && b != "regex")
    || (a == "llm" && b != "manual" && b != "regex" && b != "llm")
    || (a == "presidio" && b != "manual" && b != "regex" && b != "llm" && b != "presidio")
  }

  /** A higher score; at equal score longer; at equal score and length a more trusted source. */
  predicate Beats(a: EntitySpan, b: EntitySpan) {
    || a.score > b.score
    || (a.score == b.score && a.end - a.start > b.end - b.start)
    || (a.score == b.score && a.end - a.start == b.end - b.start && MoreTrusted(a.source, b.source))
  }

  lemma BeatsIsKeyLt(a: EntitySpan, b: EntitySpan)
    ensures Beats(a, b) <==> KeyLt(CoreOf(b), CoreOf(a))
    ensures !Beats(a, b) <==> KeyLe(CoreOf(a), CoreOf(b))
  {
  }

  /** Two spans share a character. */
  ghost predicate Shares(a: EntitySpan, b: EntitySpan) { exists i :: Covers(a, i) && Covers(b, i) }

  predicate Covers(s: EntitySpan, i: int) { s.start <= i < s.end }

  lemma SharesIsOverlaps(a: EntitySpan, b: EntitySpan)
    requires a.start < a.end && b.start < b.end
    ensures Shares(a, b) <==> a.Overlaps(b)
  {
    if a.Overlaps(b) {
      var i := if a.start <= b.start then b.start else a.start;
      assert Covers(a, i) && Covers(b, i);
    }
  }

  /** A span that beats every other one it shares a character with is kept. */
  lemma BestIsKept(spans: seq<EntitySpan>, s: EntitySpan)
    requires NonEmpty(spans) && s in spans
    requires forall t | t in spans && t != s && Shares(s, t) :: Beats(s, t)
    ensures s in Merged(spans)
  {
    forall t | t in spans && t != s && s.Overlaps(t) ensures KeyLt(CoreOf(t), CoreOf(s)) {
      SharesIsOverlaps(s, t);
      BeatsIsKeyLt(s, t);
    }
    StrictWinnerIsKept(spans, s);
  }

  /** Of two spans that share a character the beaten one is gone, in either order of the input. If neither beats
      the other, the one that starts first stays, and of two that start together the one that came first. */
  lemma TwoCompete(a: EntitySpan, b: EntitySpan)
    requires a.start < a.end && b.start < b.end && Shares(a, b)
    ensures Beats(a, b) ==> Merged([a, b]) == [a] && Merged([b, a]) == [a]
    ensures !Beats(a, b) && !Beats(b, a) && a.start < b.start ==> Merged([a, b]) == [a] && Merged([b, a]) == [a]
    ensures !Beats(a, b) && !Beats(b, a) && a.start == b.start ==> Merged([a, b]) == [a]
  {
    SharesIsOverlaps(a, b);
    BeatsIsKeyLt(a, b);
    BeatsIsKeyLt(b, a);
    MergedPair(a, b);
    MergedPair(b, a);
  }

  /** Two overlapping spans leave one: the first in the order of the sort unless the other has a greater key. */
  lemma MergedPair(a: EntitySpan, b: EntitySpan)
    requires a.Overlaps(b)
    ensures Merged([a, b]) == [if SpanBefore(a, b) then (if KeyLe(CoreOf(b), CoreOf(a)) then a else b)
                               else if KeyLe(CoreOf(a), CoreOf(b)) then b else a]
  {
    assert [a, b][1..] == [b] && [b][1..] == [];
    var sorted := if SpanBefore(a, b) then [a, b] else [b, a];
    assert Sort([b], SpanBefore) == [b];
    if !SpanBefore(a, b) { assert [b][1..] == [] && Insert(a, [], SpanBefore) == [a]; }
    assert Sort([a, b], SpanBefore) == sorted;
    assert sorted[..1] == [sorted[0]] && [sorted[0]][..0] == [];
    assert Fold([sorted[0]]) == Step(Fold([]), sorted[0]) == [sorted[0]];
    assert Fold(sorted) == Step([sorted[0]], sorted[1]);
  }

  // ---- idempotence -------------------------------------------------------------------

  lemma {:induction false} FoldOfSeparated(spans: seq<EntitySpan>)
    requires Separated(spans)
    ensures Fold(spans) == spans
  {
    if spans != [] {
      var n := |spans| - 1;
      FoldOfSeparated(spans[..n]);
      assert spans == spans[..n] + [spans[n]];
      assert n > 0 ==> spans[n - 1].end <= spans[n].start;
    }
  }

  /** Merging a merged list changes nothing. */
  lemma MergeIdempotent(spans: seq<EntitySpan>)
    requires NonEmpty(spans)
    ensures Merged(Merged(spans)) == Merged(spans)
  {
    MergedIsSeparated(spans);
    var m := Merged(spans);
    forall i, j | 0 <= i < j < |m| ensures SpanBefore(m[i], m[j]) {
      assert m[i] in m && m[j] in m;
    }
    SortOfSorted(m, SpanBefore);
    FoldOfSeparated(m);
  }

  // ---- the order of the input does not matter ----------------------------------------

  function CoreStep(kept: seq<Core>, s: Core): seq<Core> {
    if kept == [] || kept[|kept| - 1].end <= s.start then kept + [s]
    else if KeyLe(s, kept[|kept| - 1]) then kept
    else kept[..|kept| - 1] + [s]
  }

  function CoreFold(cores: seq<Core>): seq<Core> {
    if cores == [] then [] else CoreStep(CoreFold(cores[..|cores| - 1]), cores[|cores| - 1])
  }

  lemma {:induction false} FoldOnCores(spans: seq<EntitySpan>)
    ensures Map(CoreOf, Fold(spans)) == CoreFold(Map(CoreOf, spans))
  {
    if spans == [] {
      assert Map(CoreOf, []) == [];
    } else {
      var n := |spans| - 1;
      FoldOnCores(spans[..n]);
      assert Map(CoreOf, spans)[..n] == Map(CoreOf, spans[..n]);
      StepOnCores(Fold(spans[..n]), spans[n]);
    }
  }

  lemma StepOnCores(kept: seq<EntitySpan>, s: EntitySpan)
    ensures Map(CoreOf, Step(kept, s)) == CoreStep(Map(CoreOf, kept), CoreOf(s))
  {
    assert Map(CoreOf, kept + [s]) == Map(CoreOf, kept) + [CoreOf(s)];
    if kept != [] {
      var k := kept[..|kept| - 1];
      assert Map(CoreOf, k) == Map(CoreOf, kept)[..|kept| - 1];
      assert Map(CoreOf, k + [s]) == Map(CoreOf, k) + [CoreOf(s)];
    }
  }

  lemma CoreOrder()
    ensures TotalPreorder(CoreBefore) && Antisymmetric(CoreBefore)
  {
  }

  /** The sequence of (start, end, score, source rank) is the same for every permutation of the input. */
  lemma MergePermutationInvariant(a: seq<EntitySpan>, b: seq<EntitySpan>)
    requires multiset(a) == multiset(b)
    ensures Map(CoreOf, Merged(a)) == Map(CoreOf, Merged(b))
  {
    SortMap(CoreOf, a, SpanBefore, CoreBefore);
    SortMap(CoreOf, b, SpanBefore, CoreBefore);
    MapPermutes(CoreOf, a, b);
    CoreOrder();
    SortSpec(Map(CoreOf, a), CoreBefore);
    SortSpec(Map(CoreOf, b), CoreBefore);
    SortedUnique(Sort(Map(CoreOf, a), CoreBefore), Sort(Map(CoreOf, b), CoreBefore), CoreBefore);
    FoldOnCores(Sort(a, SpanBefore));
    FoldOnCores(Sort(b, SpanBefore));
  }

  // ---- the source's loops ------------------------------------------------------------

  /** `spans` with the entry at `i` popped. */
  function Pop(spans: seq<EntitySpan>, i: nat): seq<EntitySpan>
    requires i < |spans|
  {
    spans[..i] + spans[i + 1..]
  }

  /** The scan back over the kept spans for one new span. It drops the span or evicts at most one
      kept span, the last. */
  method ScanBack(before: seq<EntitySpan>, span: EntitySpan) returns (kept: seq<EntitySpan>, replaced: bool, drop: bool)
    requires Separated(before) && NonEmpty(before) && span.start < span.end
    requires StartBy(before, span.start)
    ensures drop ==> Step(before, span) == before
    ensures !drop ==> Step(before, span) == kept + [span]
    ensures |before| - 1 <= |kept| <= |before|
    ensures replaced <==> |kept| < |before|
  {
    kept, replaced, drop := before, false, false;
    var i := |kept| - 1;
    while i >= 0
      invariant -1 <= i < |before| && !drop
      invariant !replaced ==> kept == before && i == |before| - 1
      invariant replaced ==> |before| > 0 && kept == before[..|before| - 1] && i < |before| - 1
      invariant replaced ==> Step(before, span) == kept + [span]
      invariant replaced ==> before[|before| - 1].start <= span.start
    {
      var existing := kept[i];
      assert existing in before;
      if existing.end <= span.start { break; }
      if !existing.Overlaps(span) {
        i := i - 1;
        continue;
      }
      if Wins(existing, span) {
        drop := true;
        break;
      }
      kept, replaced := Pop(kept, i), true;
      i := i - 1;
    }
  }

  /** Sort, scan, evict, re-sort: the result is the reference fold over the sorted input. */
  method MergeSpans(spans: seq<EntitySpan>) returns (r: seq<EntitySpan>)
    requires NonEmpty(spans)
    ensures r == Merged(spans)
    ensures Separated(r) && forall s | s in r :: s in spans
  {
    MergedIsSeparated(spans);
    if spans == [] { return []; }
    SpanOrder();
    SortSpec(spans, SpanBefore);
    var ordered := Sort(spans, SpanBefore);
    forall s | s in ordered ensures s in spans { assert s in multiset(ordered); }
    r := ScanAll(ordered);
    SeparatedIsSorted(r);
    r := Sort(r, ByPosition);
  }

  method ScanAll(ordered: seq<EntitySpan>) returns (r: seq<EntitySpan>)
    requires NonEmpty(ordered) && SortedBy(ordered, SpanBefore)
    ensures r == Fold(ordered) && Separated(r) && NonEmpty(r)
  {
    r := [];
    for i := 0 to |ordered|
      invariant r == Fold(ordered[..i])
    {
      var span := ordered[i];
      PrefixFacts(ordered, i);
      var kept, replaced, drop := ScanBack(r, span);
      FoldSnoc(ordered, i);
      if !drop {
        r := kept + [span];
        if replaced {
          PrefixFacts(ordered, i + 1);
          SeparatedIsSorted(r);
          r := Sort(r, ByStartOnly);
        }
      }
    }
    PrefixFacts(ordered, |ordered|);
    assert ordered[..|ordered|] == ordered;
  }

  lemma FoldSnoc(ordered: seq<EntitySpan>, i: nat)
    requires i < |ordered|
    ensures Fold(ordered[..i + 1]) == Step(Fold(ordered[..i]), ordered[i])
  {
    assert ordered[..i + 1][..i] == ordered[..i];
  }

  lemma PrefixFacts(ordered: seq<EntitySpan>, i: nat)
    requires NonEmpty(ordered) && SortedBy(ordered, SpanBefore) && i <= |ordered|
    ensures Separated(Fold(ordered[..i])) && NonEmpty(Fold(ordered[..i]))
    ensures i < |ordered| ==> StartBy(Fold(ordered[..i]), ordered[i].start)
    ensures i < |ordered| ==> ordered[i] in ordered
  {
    FoldInvariant(ordered[..i]);
    if i < |ordered| { PrefixStarts(ordered, i); }
  }

  /** The final sorts find nothing to do. */
  lemma SeparatedIsSorted(spans: seq<EntitySpan>)
    requires Separated(spans) && NonEmpty(spans)
    ensures Sort(spans, ByStartOnly) == spans && Sort(spans, ByPosition) == spans
  {
    forall i, j | 0 <= i < j < |spans| ensures spans[i].start < spans[j].start {
      assert spans[i] in spans && spans[i].end <= spans[j].start;
    }
    SortOfSorted(spans, ByStartOnly);
    SortOfSorted(spans, ByPosition);
  }
}
