/** Tokenizing whole texts: `Vault.tokenize` as a splice, and the round trip through
    `Vault.detokenize` (app/redaction/vault.py). */
module Tokenizing {
  import opened Placeholders
  import opened Sorting
  import opened Splicing
  import opened Entities
  import opened Tokens

  predicate StartDescending(a: EntitySpan, b: EntitySpan) { b.start <= a.start }

  function Bare(s: EntitySpan): Replacement<char> { Replacement(s.start, s.end, "") }

  /** The spans lie within the text and are pairwise disjoint, in any order. */
  ghost predicate SpansOk(text: string, spans: seq<EntitySpan>) {
    && (forall s | s in spans :: IsType(s.entityType) && s.start <= s.end <= |text|)
    && Disjoint(|text|, Map(Bare, spans))
  }

  function Descending(spans: seq<EntitySpan>): seq<EntitySpan> { Sort(spans, StartDescending) }

  /** Walk the spans in the given order, threading the session's records. */
  function Assign(c: Crypto, sid: string, text: string, rs: seq<Record>, spans: seq<EntitySpan>,
                  es: seq<Entropy>): (r: (seq<Record>, seq<string>))
    requires |spans| <= |es| && forall s | s in spans :: s.start <= s.end <= |text|
    ensures |r.1| == |spans|
    decreases |spans|
  {
    if spans == [] then (rs, []) else
      var s := spans[0];
      var (rs1, p) := TokenizeOne(c, sid, rs, s.entityType, text[s.start..s.end], es[0]);
      var (rs2, ps) := Assign(c, sid, text, rs1, spans[1..], es[1..]);
      (rs2, [p] + ps)
  }

  /** One step into a run that is under way. */
  lemma AssignStep(c: Crypto, sid: string, text: string, rs: seq<Record>, spans: seq<EntitySpan>,
                   es: seq<Entropy>, final: seq<Record>, ps: seq<string>, i: nat)
    requires i < |spans| == |ps| && |spans| <= |es| && forall s | s in spans :: s.start <= s.end <= |text|
    requires Assign(c, sid, text, rs, spans[i..], es[i..]) == (final, ps[i..])
    ensures var s := spans[i];
            var (rs1, p) := TokenizeOne(c, sid, rs, s.entityType, text[s.start..s.end], es[i]);
            p == ps[i] && Assign(c, sid, text, rs1, spans[i + 1..], es[i + 1..]) == (final, ps[i + 1..])
  {
    assert spans[i..][0] == spans[i] && spans[i..][1..] == spans[i + 1..];
    assert es[i..][0] == es[i] && es[i..][1..] == es[i + 1..];
    assert ps[i..][0] == ps[i] && ps[i..][1..] == ps[i + 1..];
  }

  /** Every placeholder allocated on the way is new. */
  predicate FreshRun(c: Crypto, sid: string, text: string, rs: seq<Record>, spans: seq<EntitySpan>, es: seq<Entropy>)
    requires |spans| <= |es| && forall s | s in spans :: s.start <= s.end <= |text|
    decreases |spans|
  {
    spans == [] || (
      var s := spans[0];
      var value := text[s.start..s.end];
      && FreshStep(c, sid, rs, s.entityType, value, es[0])
      && FreshRun(c, sid, text, TokenizeOne(c, sid, rs, s.entityType, value, es[0]).0, spans[1..], es[1..]))
  }

  lemma ExtendsTrans(a: seq<Record>, b: seq<Record>, d: seq<Record>)
    requires Extends(a, b) && Extends(b, d)
    ensures Extends(a, d)
  {
    forall k | 0 <= k < |a| ensures a[k].occurrences <= d[k].occurrences && d[k] == a[k].(occurrences := d[k].occurrences) {
      assert b[k] == a[k].(occurrences := b[k].occurrences);
    }
  }

  lemma ExtendsInjective(rs: seq<Record>, rs': seq<Record>)
    requires Extends(rs, rs') && Injective(rs')
    ensures Injective(rs)
  {
    forall i, j | 0 <= i < j < |rs| ensures rs[i].placeholder != rs[j].placeholder {
      assert rs'[i].placeholder != rs'[j].placeholder;
    }
  }

  /** A run of `tokenize` steps keeps the session keyed, only adds and counts up records, and keeps
      the placeholders injective exactly when every allocation on the way was new. */
  lemma {:induction false} AssignKeeps(c: Crypto, sid: string, text: string, rs: seq<Record>,
                                       spans: seq<EntitySpan>, es: seq<Entropy>)
    requires Ideal(c) && Keyed(c, sid, rs) && |spans| <= |es|
    requires forall s | s in spans :: IsType(s.entityType) && s.start <= s.end <= |text|
    requires forall e | e in es :: LegalEntropy(e)
    ensures var rs' := Assign(c, sid, text, rs, spans, es).0;
            && Keyed(c, sid, rs') && Extends(rs, rs')
            && (Injective(rs) ==> (Injective(rs') <==> FreshRun(c, sid, text, rs, spans, es)))
    decreases |spans|
  {
    if spans != [] {
      var s := spans[0];
      var value := text[s.start..s.end];
      var rs1 := TokenizeOne(c, sid, rs, s.entityType, value, es[0]).0;
      TokenizeOneSpec(c, sid, rs, s.entityType, value, es[0]);
      AssignKeeps(c, sid, text, rs1, spans[1..], es[1..]);
      var rs2 := Assign(c, sid, text, rs1, spans[1..], es[1..]).0;
      ExtendsTrans(rs, rs1, rs2);
      if Injective(rs2) { ExtendsInjective(rs1, rs2); }
    }
  }

  /** Every span's value is stored under its placeholder. */
  lemma {:induction false} AssignStores(c: Crypto, sid: string, text: string, rs: seq<Record>,
                                        spans: seq<EntitySpan>, es: seq<Entropy>, i: nat)
    requires Ideal(c) && Keyed(c, sid, rs) && |spans| <= |es| && i < |spans|
    requires forall s | s in spans :: IsType(s.entityType) && s.start <= s.end <= |text|
    requires forall e | e in es :: LegalEntropy(e)
    ensures var (rs', ps) := Assign(c, sid, text, rs, spans, es);
            Stored(c, sid, rs', ps[i], spans[i].entityType, text[spans[i].start..spans[i].end])
    decreases |spans|
  {
    var s := spans[0];
    var value := text[s.start..s.end];
    var (rs1, p) := TokenizeOne(c, sid, rs, s.entityType, value, es[0]);
    TokenizeOneSpec(c, sid, rs, s.entityType, value, es[0]);
    AssignRest(c, sid, text, rs, spans, es, rs1);
    AssignKeeps(c, sid, text, rs1, spans[1..], es[1..]);
    if i == 0 {
      StoredPersists(c, sid, rs1, Assign(c, sid, text, rs1, spans[1..], es[1..]).0, p, s.entityType, value);
    } else {
      AssignStores(c, sid, text, rs1, spans[1..], es[1..], i - 1);
    }
  }

  /** Every span is counted once under its type. */
  lemma {:induction false} AssignCounts(c: Crypto, sid: string, text: string, rs: seq<Record>,
                                        spans: seq<EntitySpan>, es: seq<Entropy>, t: string)
    requires Ideal(c) && Keyed(c, sid, rs) && |spans| <= |es|
    requires forall s | s in spans :: IsType(s.entityType) && s.start <= s.end <= |text|
    requires forall e | e in es :: LegalEntropy(e)
    ensures Occurrences(Assign(c, sid, text, rs, spans, es).0, t) == Occurrences(rs, t) + CountType(spans, t)
    decreases |spans|
  {
    if spans != [] {
      var s := spans[0];
      var value := text[s.start..s.end];
      var rs1 := TokenizeOne(c, sid, rs, s.entityType, value, es[0]).0;
      TokenizeOneSpec(c, sid, rs, s.entityType, value, es[0]);
      TokenizeOneCounts(c, sid, rs, s.entityType, value, es[0], t);
      AssignCounts(c, sid, text, rs1, spans[1..], es[1..], t);
      AssignRest(c, sid, text, rs, spans, es, rs1);
      CountFirst(spans, t);
    }
  }

  lemma CountFirst(spans: seq<EntitySpan>, t: string)
    requires spans != []
    ensures CountType(spans, t) == CountType(spans[1..], t) + if spans[0].entityType == t then 1 else 0
  {
    CountTakeOut(spans, 0, t);
    assert spans[..0] + spans[1..] == spans[1..];
  }

  /** The run behind its first step. */
  lemma AssignRest(c: Crypto, sid: string, text: string, rs: seq<Record>, spans: seq<EntitySpan>, es: seq<Entropy>,
                   rs1: seq<Record>)
    requires 0 < |spans| <= |es| && forall s | s in spans :: s.start <= s.end <= |text|
    requires rs1 == TokenizeOne(c, sid, rs, spans[0].entityType, text[spans[0].start..spans[0].end], es[0]).0
    ensures forall s | s in spans[1..] :: s.start <= s.end <= |text|
    ensures Assign(c, sid, text, rs, spans, es).0 == Assign(c, sid, text, rs1, spans[1..], es[1..]).0
    ensures Assign(c, sid, text, rs, spans, es).1
         == [TokenizeOne(c, sid, rs, spans[0].entityType, text[spans[0].start..spans[0].end], es[0]).1]
            + Assign(c, sid, text, rs1, spans[1..], es[1..]).1
  {
  }

  // ---- the tokenized text ------------------------------------------------------------

  function Placed(spans: seq<EntitySpan>, ps: seq<string>): (r: seq<Replacement<char>>)
    requires |ps| == |spans|
    ensures |r| == |spans|
  {
    seq(|spans|, i requires 0 <= i < |spans| => Replacement(spans[i].start, spans[i].end, ps[i]))
  }

  lemma {:induction false} OrderedByShape(n: nat, from: nat, a: seq<Replacement<char>>, b: seq<Replacement<char>>)
    requires Ordered(n, from, a) && |a| == |b|
    requires forall k | 0 <= k < |a| :: a[k].start == b[k].start && a[k].end == b[k].end
    ensures Ordered(n, from, b)
    decreases |a|
  {
    if a != [] { OrderedByShape(n, a[0].end, a[1..], b[1..]); }
  }

  /** Placeholders put at right-to-left sorted spans are in order, read from the right. */
  lemma PlacedOrdered(text: string, spans: seq<EntitySpan>, ps: seq<string>)
    requires SpansOk(text, spans) && |ps| == |Descending(spans)|
    ensures Ordered(|text|, 0, Reverse(Placed(Descending(spans), ps)))
  {
    var bare := Map(Bare, spans);
    SortMap(Bare, spans, StartDescending, ByStartDescending);
    DescendingMirrors(|text|, bare);
    SortAscends(|text|, bare);
    OrderedByShape(|text|, 0, Sort(bare, ByStart), Reverse(Placed(Descending(spans), ps)));
  }

  lemma DescendingSpec(text: string, spans: seq<EntitySpan>)
    requires SpansOk(text, spans)
    ensures multiset(Descending(spans)) == multiset(spans) && |Descending(spans)| == |spans|
    ensures forall s | s in Descending(spans) :: s in spans && IsType(s.entityType) && s.start <= s.end <= |text|
  {
    SortSpec(spans, StartDescending);
    forall s | s in Descending(spans) ensures s in spans { assert s in multiset(spans); }
  }

  /** `tokenize`: the session afterwards and the rewritten text. */
  ghost function Tokenized(c: Crypto, sid: string, text: string, rs: seq<Record>, spans: seq<EntitySpan>,
                           es: seq<Entropy>): (seq<Record>, string)
    requires SpansOk(text, spans) && |spans| <= |es|
  {
    DescendingSpec(text, spans);
    var (rs', ps) := Assign(c, sid, text, rs, Descending(spans), es);
    PlacedOrdered(text, spans, ps);
    (rs', Splice(text, 0, Reverse(Placed(Descending(spans), ps))))
  }

  // ---- de-tokenizing a splice of placeholders ----------------------------------------

  /** Nothing in `s` would be rewritten. */
  ghost predicate Inert(s: string, m: Resolver) {
    forall i, j | 0 <= i <= j <= |s| && IsPlaceholder(s[i..j]) :: !Active(m, s[i..j])
  }

  lemma {:induction false} InertIsFixed(s: string, m: Resolver)
    requires Inert(s, m)
    ensures Detok(s, m) == s
  {
    if s != "" {
      var n := MatchLen(s);
      MatchLenSpec(s);
      var d := if n == 0 then 1 else n;
      assert s[..n] == s[0..n];
      InertSuffix(s, d, m);
      InertIsFixed(s[d..], m);
      assert s[..d] + s[d..] == s;
    }
  }

  lemma InertSuffix(s: string, d: nat, m: Resolver)
    requires Inert(s, m) && d <= |s|
    ensures Inert(s[d..], m)
  {
    forall i, j | 0 <= i <= j <= |s[d..]| && IsPlaceholder(s[d..][i..j]) ensures !Active(m, s[d..][i..j]) {
      assert s[d..][i..j] == s[d + i..d + j];
    }
  }

  /** No literal text left in place is a placeholder that the session would rewrite. */
  ghost predicate GapsInert(text: string, from: nat, reps: seq<Replacement<char>>, m: Resolver)
    requires from <= |text| && Ordered(|text|, from, reps)
    decreases |reps|
  {
    if reps == [] then Inert(text[from..], m)
    else Inert(text[from..reps[0].start], m) && GapsInert(text, reps[0].end, reps[1..], m)
  }

  /** A placeholder is never cut off from the literal text before it. */
  lemma BeforePlaceholderIsClean(gap: string, p: string, rest: string, m: Resolver)
    requires IsPlaceholder(p)
    ensures CleanCut(gap + (p + rest), |gap|, m)
  {
    var s, c := gap + (p + rest), |gap|;
    assert p[0..|p|] == p;
    MatchChars(p, 0, |p|);
    assert s[c] == p[0] == '[' && s[c + 1] == p[1] == '[';
    forall i, j | 0 <= i < c < j <= |s| ensures !IsPlaceholder(s[i..j]) {
      if IsPlaceholder(s[i..j]) { MatchChars(s, i, j); }
    }
  }

  predicate Holds(p: string, m: Resolver, value: string) {
    IsPlaceholder(p) && p in m && m[p] == value
  }

  /** A gap, a known placeholder, and the rest. */
  lemma DetokPiece(gap: string, p: string, rest: string, m: Resolver)
    requires IsPlaceholder(p) && p in m && Inert(gap, m)
    ensures Detok(gap + (p + rest), m) == gap + (m[p] + Detok(rest, m))
  {
    var s := gap + (p + rest);
    InertIsFixed(gap, m);
    BeforePlaceholderIsClean(gap, p, rest, m);
    DetokAtCut(s, |gap|, m);
    assert s[..|gap|] == gap && s[|gap|..] == p + rest;
    DetokFront(p, rest, m);
  }

  /** De-tokenizing a text whose spans hold known placeholders puts each value back in place. */
  lemma {:induction false} DetokSplice(text: string, from: nat, reps: seq<Replacement<char>>, m: Resolver)
    requires from <= |text| && Ordered(|text|, from, reps) && GapsInert(text, from, reps, m)
    requires forall r | r in reps :: r.start <= r.end <= |text| && Holds(r.content, m, text[r.start..r.end])
    ensures Detok(Splice(text, from, reps), m) == text[from..]
    decreases |reps|
  {
    if reps == [] {
      InertIsFixed(text[from..], m);
    } else {
      var r := reps[0];
      var gap, rest := text[from..r.start], Splice(text, r.end, reps[1..]);
      assert Holds(r.content, m, text[r.start..r.end]);
      DetokPiece(gap, r.content, rest, m);
      assert Detok(rest, m) == text[r.end..] by { DetokSplice(text, r.end, reps[1..], m); }
      ThreeSlices(text, from, r.start, r.end);
    }
  }

  lemma ThreeSlices(text: string, a: nat, b: nat, d: nat)
    requires a <= b <= d <= |text|
    ensures text[a..b] + (text[b..d] + text[d..]) == text[a..]
  {
  }

  /** Tokenize, let the session grow in any way that keeps it sound, then de-tokenize: the text is
      back, whatever the values contain. */
  lemma RoundTrip(c: Crypto, sid: string, text: string, rs: seq<Record>, spans: seq<EntitySpan>,
                  es: seq<Entropy>, later: seq<Record>)
    requires Ideal(c) && Keyed(c, sid, rs) && SpansOk(text, spans) && |spans| <= |es|
    requires forall e | e in es :: LegalEntropy(e)
    requires Extends(Tokenized(c, sid, text, rs, spans, es).0, later)
    requires Keyed(c, sid, later) && Injective(later)
    requires LiteralsInert(c, sid, text, rs, spans, es, ResolutionMap(c, sid, later))
    ensures Detok(Tokenized(c, sid, text, rs, spans, es).1, ResolutionMap(c, sid, later)) == text
  {
    DescendingSpec(text, spans);
    var down := Descending(spans);
    var (rs', ps) := Assign(c, sid, text, rs, down, es);
    var m, up := ResolutionMap(c, sid, later), Reverse(Placed(down, ps));
    PlacedOrdered(text, spans, ps);
    forall r | r in up
      ensures r.start <= r.end <= |text| && Holds(r.content, m, text[r.start..r.end])
    {
      var k :| 0 <= k < |up| && up[k] == r;
      var i := |up| - 1 - k;
      AssignStores(c, sid, text, rs, down, es, i);
      StoredPersists(c, sid, rs', later, ps[i], down[i].entityType, text[down[i].start..down[i].end]);
      StoredResolves(c, sid, later, ps[i], down[i].entityType, text[down[i].start..down[i].end]);
    }
    DetokSplice(text, 0, up, m);
    assert text[0..] == text;
  }

  ghost predicate LiteralsInert(c: Crypto, sid: string, text: string, rs: seq<Record>, spans: seq<EntitySpan>,
                                es: seq<Entropy>, m: Resolver)
    requires SpansOk(text, spans) && |spans| <= |es|
  {
    DescendingSpec(text, spans);
    var ps := Assign(c, sid, text, rs, Descending(spans), es).1;
    PlacedOrdered(text, spans, ps);
    GapsInert(text, 0, Reverse(Placed(Descending(spans), ps)), m)
  }

  /** A text in which no active placeholder occurs literally is safe whatever its spans are. */
  lemma {:induction false} InertTextHasInertGaps(text: string, from: nat, reps: seq<Replacement<char>>, m: Resolver)
    requires from <= |text| && Ordered(|text|, from, reps) && Inert(text, m)
    ensures GapsInert(text, from, reps, m)
    decreases |reps|
  {
    var to := if reps == [] then |text| else reps[0].start;
    assert text[from..|text|] == text[from..];
    forall i, j | 0 <= i <= j <= to - from && IsPlaceholder(text[from..to][i..j])
      ensures !Active(m, text[from..to][i..j])
    {
      assert text[from..to][i..j] == text[from + i..from + j];
    }
    if reps != [] { InertTextHasInertGaps(text, reps[0].end, reps[1..], m); }
  }

  // ---- one text of a request ---------------------------------------------------------

  /** A text, the spans to hide in it, and the randomness spent on them. */
  datatype Job = Job(text: string, spans: seq<EntitySpan>, entropy: seq<Entropy>)

  ghost predicate JobOk(j: Job) {
    && SpansOk(j.text, j.spans) && |j.spans| <= |j.entropy|
    && forall e | e in j.entropy :: LegalEntropy(e)
  }

  ghost predicate Tokenizes(c: Crypto, sid: string, j: Job, rs: seq<Record>, rs': seq<Record>, out: string) {
    JobOk(j) && (rs', out) == Tokenized(c, sid, j.text, rs, j.spans, j.entropy)
  }

  /** Every placeholder allocated for this text is new. */
  ghost predicate FreshJob(c: Crypto, sid: string, j: Job, rs: seq<Record>)
    requires JobOk(j)
  {
    DescendingSpec(j.text, j.spans);
    FreshRun(c, sid, j.text, rs, Descending(j.spans), j.entropy)
  }

  lemma JobKeeps(c: Crypto, sid: string, j: Job, rs: seq<Record>, rs': seq<Record>, out: string)
    requires Ideal(c) && Keyed(c, sid, rs) && Tokenizes(c, sid, j, rs, rs', out)
    ensures Keyed(c, sid, rs') && Extends(rs, rs')
    ensures Injective(rs') <==> Injective(rs) && FreshJob(c, sid, j, rs)
  {
    DescendingSpec(j.text, j.spans);
    AssignKeeps(c, sid, j.text, rs, Descending(j.spans), j.entropy);
    if Injective(rs') { ExtendsInjective(rs, rs'); }
  }

  lemma JobCounts(c: Crypto, sid: string, j: Job, rs: seq<Record>, rs': seq<Record>, out: string, t: string)
    requires Ideal(c) && Keyed(c, sid, rs) && Tokenizes(c, sid, j, rs, rs', out)
    ensures Occurrences(rs', t) == Occurrences(rs, t) + CountType(j.spans, t)
  {
    DescendingSpec(j.text, j.spans);
    AssignCounts(c, sid, j.text, rs, Descending(j.spans), j.entropy, t);
    CountTypePermutes(Descending(j.spans), j.spans, t);
  }

  /** No literal text of the job is a placeholder that the resolver would rewrite. */
  ghost predicate JobLiteralsInert(c: Crypto, sid: string, j: Job, rs: seq<Record>, m: Resolver)
    requires JobOk(j)
  {
    LiteralsInert(c, sid, j.text, rs, j.spans, j.entropy, m)
  }

  lemma JobRoundTrip(c: Crypto, sid: string, j: Job, rs: seq<Record>, rs': seq<Record>, out: string, later: seq<Record>)
    requires Ideal(c) && Keyed(c, sid, rs) && Tokenizes(c, sid, j, rs, rs', out)
    requires Extends(rs', later) && Keyed(c, sid, later) && Injective(later)
    requires JobLiteralsInert(c, sid, j, rs, ResolutionMap(c, sid, later))
    ensures Detok(out, ResolutionMap(c, sid, later)) == j.text
  {
    RoundTrip(c, sid, j.text, rs, j.spans, j.entropy, later);
  }
}
