/** One request: extract, detect, filter, block or tokenize, inject (app/redaction/pipeline.py,
    app/redaction/policy.py). */
module Pipeline {
  import opened Placeholders
  import opened Sorting
  import opened Splicing
  import opened Entities
  import opened Tokens
  import opened Tokenizing
  import opened TokenVault
  import opened Payload

  // ---- policy ------------------------------------------------------------------------

  function FilterSpans(d: PolicyDecision, spans: seq<EntitySpan>): seq<EntitySpan> {
    if spans == [] then []
    else (if d.ShouldRedact(spans[0].entityType) then [spans[0]] else []) + FilterSpans(d, spans[1..])
  }

  lemma {:induction false} FilterSelects(d: PolicyDecision, spans: seq<EntitySpan>)
    ensures forall s | s in FilterSpans(d, spans) :: s in spans && d.ShouldRedact(s.entityType)
    ensures forall s | s in spans && d.ShouldRedact(s.entityType) :: s in FilterSpans(d, spans)
    ensures |FilterSpans(d, spans)| <= |spans|
  {
    if spans != [] { FilterSelects(d, spans[1..]); }
  }

  lemma {:induction false} FilterKeepsDisjoint(d: PolicyDecision, n: nat, spans: seq<EntitySpan>)
    requires Disjoint(n, Map(Bare, spans))
    ensures Disjoint(n, Map(Bare, FilterSpans(d, spans)))
  {
    if spans != [] {
      var s, rest := spans[0], FilterSpans(d, spans[1..]);
      MapCons(s, spans[1..], spans);
      FilterKeepsDisjoint(d, n, spans[1..]);
      if d.ShouldRedact(s.entityType) {
        MapCons(s, rest, [s] + rest);
        forall r | r in Map(Bare, rest) ensures Apart(Bare(s), r) { FilterMaps(d, spans[1..], r); }
      } else {
        assert [] + rest == rest;
      }
    }
  }

  lemma MapCons(s: EntitySpan, rest: seq<EntitySpan>, all: seq<EntitySpan>)
    requires all == [s] + rest
    ensures Map(Bare, all)[0] == Bare(s) && Map(Bare, all)[1..] == Map(Bare, rest)
  {
  }

  lemma FilterMaps(d: PolicyDecision, spans: seq<EntitySpan>, r: Replacement<char>)
    requires r in Map(Bare, FilterSpans(d, spans))
    ensures r in Map(Bare, spans)
  {
    FilterSelects(d, spans);
    var rest := FilterSpans(d, spans);
    var k :| 0 <= k < |rest| && Map(Bare, rest)[k] == r;
    assert rest[k] in spans;
    var j :| 0 <= j < |spans| && spans[j] == rest[k];
    assert Map(Bare, spans)[j] == r;
  }

  lemma FilterKeepsSpans(d: PolicyDecision, text: string, spans: seq<EntitySpan>)
    requires SpansOk(text, spans)
    ensures SpansOk(text, FilterSpans(d, spans)) && |FilterSpans(d, spans)| <= |spans|
  {
    FilterSelects(d, spans);
    FilterKeepsDisjoint(d, |text|, spans);
  }

  function TypesOf(spans: seq<EntitySpan>): set<string> { set s | s in spans :: s.entityType }

  function BlockedHit(d: PolicyDecision, types: set<string>): set<string> {
    set t | t in types && t in d.blockedTypes
  }

  predicate Blocks(d: PolicyDecision, types: set<string>) {
    d.mode == HardBlock || BlockedHit(d, types) != {}
  }

  /** The types an HardBlockError names. */
  function Offending(d: PolicyDecision, types: set<string>): set<string> {
    if BlockedHit(d, types) != {} then BlockedHit(d, types) else types
  }

  // ---- what a sanitized text looks like ----------------------------------------------

  /** The policy selects everything, or names the type. */
  predicate Chosen(d: PolicyDecision, t: string) {
    match d.redactTypes
    case None => true
    case Some(types) => exists i :: 0 <= i < |types| && types[i] == t
  }

  /** The span is replaced by a placeholder under which the session stores its type and text. */
  predicate Replaces(c: Crypto, sid: string, rs: seq<Record>, text: string, s: EntitySpan, r: Replacement<char>) {
    && r.start == s.start && r.end == s.end && s.start <= s.end <= |text| && IsPlaceholder(r.content)
    && Stored(c, sid, rs, r.content, s.entityType, text[s.start..s.end])
  }

  /** Exactly the detected spans that the policy selects are replaced. */
  ghost predicate Hides(c: Crypto, sid: string, rs: seq<Record>, d: PolicyDecision, text: string,
                        detected: seq<EntitySpan>, reps: seq<Replacement<char>>)
  {
    && Ordered(|text|, 0, reps)
    && (forall r | r in reps ::
          exists s :: s in detected && Chosen(d, s.entityType) && Replaces(c, sid, rs, text, s, r))
    && (forall s | s in detected && Chosen(d, s.entityType) ::
          exists r :: r in reps && Replaces(c, sid, rs, text, s, r))
  }

  /** `out` is the text with those replacements, and nothing else changed. */
  ghost predicate Hidden(c: Crypto, sid: string, rs: seq<Record>, d: PolicyDecision, text: string,
                         detected: seq<EntitySpan>, out: string)
  {
    exists reps :: Hides(c, sid, rs, d, text, detected, reps) && out == Splice(text, 0, reps)
  }

  lemma JobHides(c: Crypto, sid: string, d: PolicyDecision, detected: seq<EntitySpan>, j: Job, rs: seq<Record>,
                 rs': seq<Record>, out: string, later: seq<Record>)
    requires Ideal(c) && Keyed(c, sid, rs) && Tokenizes(c, sid, j, rs, rs', out) && Extends(rs', later)
    requires Keyed(c, sid, later) && j.spans == FilterSpans(d, detected)
    ensures Hidden(c, sid, later, d, j.text, detected, out)
  {
    DescendingSpec(j.text, j.spans);
    var down := Descending(j.spans);
    var ps := Assign(c, sid, j.text, rs, down, j.entropy).1;
    var reps := Reverse(Placed(down, ps));
    PlacedOrdered(j.text, j.spans, ps);
    forall i | 0 <= i < |down| ensures Replaces(c, sid, later, j.text, down[i], reps[|reps| - 1 - i]) {
      SpanReplaced(c, sid, j.text, rs, down, j.entropy, later, i);
    }
    forall s ensures s in down <==> s in detected && d.ShouldRedact(s.entityType) {
      FilterSelects(d, detected);
      assert s in multiset(down) <==> s in multiset(j.spans);
    }
    PlacedHides(c, sid, later, d, j.text, detected, down, reps);
  }

  lemma PlacedHides(c: Crypto, sid: string, rs: seq<Record>, d: PolicyDecision, text: string,
                    detected: seq<EntitySpan>, down: seq<EntitySpan>, reps: seq<Replacement<char>>)
    requires Ordered(|text|, 0, reps) && |reps| == |down|
    requires forall i | 0 <= i < |down| :: Replaces(c, sid, rs, text, down[i], reps[|reps| - 1 - i])
    requires forall s :: s in down <==> s in detected && d.ShouldRedact(s.entityType)
    ensures Hides(c, sid, rs, d, text, detected, reps)
  {
    forall r | r in reps
      ensures exists s :: s in detected && Chosen(d, s.entityType) && Replaces(c, sid, rs, text, s, r)
    {
      var k :| 0 <= k < |reps| && reps[k] == r;
      assert Replaces(c, sid, rs, text, down[|reps| - 1 - k], reps[|reps| - 1 - (|reps| - 1 - k)]);
    }
    forall s | s in detected && Chosen(d, s.entityType)
      ensures exists r :: r in reps && Replaces(c, sid, rs, text, s, r)
    {
      assert s in down;
      var i :| 0 <= i < |down| && down[i] == s;
      assert Replaces(c, sid, rs, text, down[i], reps[|reps| - 1 - i]);
    }
  }

  lemma SpanReplaced(c: Crypto, sid: string, text: string, rs: seq<Record>, spans: seq<EntitySpan>, es: seq<Entropy>,
                     later: seq<Record>, i: nat)
    requires Ideal(c) && Keyed(c, sid, rs) && |spans| <= |es| && i < |spans| && forall e | e in es :: LegalEntropy(e)
    requires forall s | s in spans :: IsType(s.entityType) && s.start <= s.end <= |text|
    requires Extends(Assign(c, sid, text, rs, spans, es).0, later) && Keyed(c, sid, later)
    ensures var ps := Assign(c, sid, text, rs, spans, es).1;
            Replaces(c, sid, later, text, spans[i], Replacement(spans[i].start, spans[i].end, ps[i]))
  {
    var (rs', ps) := Assign(c, sid, text, rs, spans, es);
    var s, value := spans[i], text[spans[i].start..spans[i].end];
    AssignStores(c, sid, text, rs, spans, es, i);
    StoredPersists(c, sid, rs', later, ps[i], s.entityType, value);
    var k: nat :| k < |later| && later[k].placeholder == ps[i] && later[k].entityType == s.entityType
                  && ValueOf(c, sid, later[k]) == value;
    assert RecordOk(c, sid, later[k]);
  }

  /** How many spans of type `t` the detector found in all texts. */
  function DetectedOf(found: seq<seq<EntitySpan>>, t: string): nat {
    if found == [] then 0 else DetectedOf(found[..|found| - 1], t) + CountType(found[|found| - 1], t)
  }

  /** The spans that remain are the detected ones of the selected types. */
  lemma {:induction false} FilterCounts(d: PolicyDecision, spans: seq<EntitySpan>, t: string)
    ensures CountType(FilterSpans(d, spans), t) == if d.ShouldRedact(t) then CountType(spans, t) else 0
  {
    if spans != [] {
      var head := if d.ShouldRedact(spans[0].entityType) then [spans[0]] else [];
      FilterCounts(d, spans[1..], t);
      assert spans == [spans[0]] + spans[1..];
      CountTypeConcat([spans[0]], spans[1..], t);
      CountTypeConcat(head, FilterSpans(d, spans[1..]), t);
      assert [spans[0]][..0] == [];
    }
  }

  lemma {:induction false} SpansCount(d: PolicyDecision, jobs: seq<Job>, found: seq<seq<EntitySpan>>, t: string)
    requires |found| == |jobs| && forall i | 0 <= i < |jobs| :: jobs[i].spans == FilterSpans(d, found[i])
    ensures CountType(SpansOf(jobs), t) == if d.ShouldRedact(t) then DetectedOf(found, t) else 0
  {
    if jobs != [] {
      var n := |jobs| - 1;
      SpansCount(d, jobs[..n], found[..n], t);
      FilterCounts(d, found[n], t);
      CountTypeConcat(SpansOf(jobs[..n]), jobs[n].spans, t);
    }
  }

  /** A detected span of type `t` that the policy selects. */
  ghost predicate Selected(d: PolicyDecision, found: seq<seq<EntitySpan>>, t: string) {
    Chosen(d, t) && exists i, s :: 0 <= i < |found| && s in found[i] && s.entityType == t
  }

  lemma {:induction false} CountPositive(spans: seq<EntitySpan>, t: string)
    ensures CountType(spans, t) > 0 <==> exists s :: s in spans && s.entityType == t
  {
    if spans != [] {
      var n := |spans| - 1;
      CountPositive(spans[..n], t);
      assert spans == spans[..n] + [spans[n]];
    }
  }

  lemma {:induction false} DetectedPositive(found: seq<seq<EntitySpan>>, t: string)
    ensures DetectedOf(found, t) > 0 <==> exists i :: 0 <= i < |found| && CountType(found[i], t) > 0
  {
    if found != [] {
      var n := |found| - 1;
      DetectedPositive(found[..n], t);
      if i :| 0 <= i < |found| && CountType(found[i], t) > 0 && i < n { assert found[..n][i] == found[i]; }
    }
  }

  lemma SpansTypes(d: PolicyDecision, jobs: seq<Job>, found: seq<seq<EntitySpan>>, t: string)
    requires |found| == |jobs| && forall i | 0 <= i < |jobs| :: jobs[i].spans == FilterSpans(d, found[i])
    ensures t in TypesOf(SpansOf(jobs)) <==> Selected(d, found, t)
  {
    SpansCount(d, jobs, found, t);
    CountPositive(SpansOf(jobs), t);
    DetectedPositive(found, t);
    if i :| 0 <= i < |found| && CountType(found[i], t) > 0 { CountPositive(found[i], t); }
    if i, s :| 0 <= i < |found| && s in found[i] && s.entityType == t { CountPositive(found[i], t); }
  }

  // ---- all texts of a request under one session --------------------------------------

  /** Text after text is tokenized under one session: the session before and after each text. */
  ghost predicate RequestRun(c: Crypto, sid: string, jobs: seq<Job>, states: seq<seq<Record>>, outs: seq<string>) {
    && |states| == |jobs| + 1 && |outs| == |jobs|
    && forall i | 0 <= i < |jobs| :: Tokenizes(c, sid, jobs[i], states[i], states[i + 1], outs[i])
  }

  /** A session that only grows; `isNew[i]` says whether step `i` kept its placeholders injective. */
  ghost predicate Growth(states: seq<seq<Record>>, isNew: seq<bool>) {
    |states| == |isNew| + 1 && forall i: nat | i < |isNew| :: GrowthStep(states, isNew, i)
  }

  ghost predicate GrowthStep(states: seq<seq<Record>>, isNew: seq<bool>, i: nat)
    requires i < |isNew| < |states|
  {
    Extends(states[i], states[i + 1]) && (Injective(states[i + 1]) <==> Injective(states[i]) && isNew[i])
  }

  lemma {:induction false} GrowthBetween(states: seq<seq<Record>>, isNew: seq<bool>, m: nat, n: nat)
    requires Growth(states, isNew) && m <= n < |states|
    ensures Extends(states[m], states[n])
    ensures Injective(states[n]) <==> Injective(states[m]) && forall i | m <= i < n :: isNew[i]
    decreases n
  {
    if m < n {
      GrowthBetween(states, isNew, m, n - 1);
      assert GrowthStep(states, isNew, n - 1);
      ExtendsTrans(states[m], states[n - 1], states[n]);
    }
  }

  /** One more text, whatever came before. */
  lemma RequestStep(c: Crypto, sid: string, jobs: seq<Job>, states: seq<seq<Record>>, outs: seq<string>, i: nat)
    requires Ideal(c) && RequestRun(c, sid, jobs, states, outs) && i < |jobs| && Keyed(c, sid, states[i])
    ensures Keyed(c, sid, states[i + 1]) && Extends(states[i], states[i + 1]) && JobOk(jobs[i])
    ensures Injective(states[i + 1]) <==> Injective(states[i]) && FreshJob(c, sid, jobs[i], states[i])
  {
    assert Tokenizes(c, sid, jobs[i], states[i], states[i + 1], outs[i]);
    JobKeeps(c, sid, jobs[i], states[i], states[i + 1], outs[i]);
  }

  lemma {:induction false} RequestKeyed(c: Crypto, sid: string, jobs: seq<Job>, states: seq<seq<Record>>,
                                        outs: seq<string>, n: nat)
    requires Ideal(c) && RequestRun(c, sid, jobs, states, outs) && n <= |jobs| && Keyed(c, sid, states[0])
    ensures Keyed(c, sid, states[n])
  {
    if n > 0 {
      RequestKeyed(c, sid, jobs, states, outs, n - 1);
      RequestStep(c, sid, jobs, states, outs, n - 1);
    }
  }

  /** Over a whole request the session stays keyed, only grows, and its placeholders stay injective
      exactly as long as every allocation is new. */
  lemma RequestGrows(c: Crypto, sid: string, jobs: seq<Job>, states: seq<seq<Record>>, outs: seq<string>)
    returns (isNew: seq<bool>)
    requires Ideal(c) && RequestRun(c, sid, jobs, states, outs) && Keyed(c, sid, states[0])
    ensures forall n | 0 <= n <= |jobs| :: Keyed(c, sid, states[n])
    ensures |isNew| == |jobs| && Growth(states, isNew)
    ensures forall i: nat | i < |jobs| :: isNew[i] == IsFresh(c, sid, jobs[i], states[i])
  {
    forall n | 0 <= n <= |jobs| ensures Keyed(c, sid, states[n]) { RequestKeyed(c, sid, jobs, states, outs, n); }
    isNew := seq(|jobs|, i requires 0 <= i < |jobs| => IsFresh(c, sid, jobs[i], states[i]));
    forall i: nat | i < |jobs| ensures GrowthStep(states, isNew, i) {
      RequestStep(c, sid, jobs, states, outs, i);
    }
  }

  ghost predicate IsFresh(c: Crypto, sid: string, j: Job, rs: seq<Record>) { JobOk(j) && FreshJob(c, sid, j, rs) }

  /** The whole-request round trip: de-tokenizing each sanitized text under the final session gives
      back the normalized text, although later texts added records. */
  lemma RequestRoundTrip(c: Crypto, sid: string, jobs: seq<Job>, states: seq<seq<Record>>, outs: seq<string>, i: nat)
    requires Ideal(c) && RequestRun(c, sid, jobs, states, outs) && i < |jobs|
    requires Keyed(c, sid, states[0]) && Injective(states[0])
    requires forall k: nat | k < |jobs| :: IsFresh(c, sid, jobs[k], states[k])
    requires JobOk(jobs[i]) && JobLiteralsInert(c, sid, jobs[i], states[i], ResolutionMap(c, sid, states[|jobs|]))
    ensures Detok(outs[i], ResolutionMap(c, sid, states[|jobs|])) == jobs[i].text
  {
    var isNew := RequestGrows(c, sid, jobs, states, outs);
    GrowthBetween(states, isNew, 0, |jobs|);
    GrowthBetween(states, isNew, i + 1, |jobs|);
    JobRoundTrip(c, sid, jobs[i], states[i], states[i + 1], outs[i], states[|jobs|]);
  }

  function SpansOf(jobs: seq<Job>): seq<EntitySpan> {
    if jobs == [] then [] else SpansOf(jobs[..|jobs| - 1]) + jobs[|jobs| - 1].spans
  }

  /** Conservation: the records of a request account for every detected span, type by type. */
  lemma {:induction false} RequestCounts(c: Crypto, sid: string, jobs: seq<Job>, states: seq<seq<Record>>,
                                         outs: seq<string>, n: nat, t: string)
    requires Ideal(c) && RequestRun(c, sid, jobs, states, outs) && n <= |jobs| && Keyed(c, sid, states[0])
    ensures Occurrences(states[n], t) == Occurrences(states[0], t) + CountType(SpansOf(jobs[..n]), t)
  {
    if n > 0 {
      RequestCounts(c, sid, jobs, states, outs, n - 1, t);
      RequestKeyed(c, sid, jobs, states, outs, n - 1);
      JobCounts(c, sid, jobs[n - 1], states[n - 1], states[n], outs[n - 1], t);
      assert jobs[..n][..n - 1] == jobs[..n - 1];
      CountTypeConcat(SpansOf(jobs[..n - 1]), jobs[n - 1].spans, t);
    }
  }

  // ---- the pipeline ------------------------------------------------------------------

  datatype Context = Context(sessionId: string, entityCounts: map<string, nat>, blocked: bool,
                             spans: seq<EntitySpan>)

  datatype Outcome =
    | Sanitized(payload: Json, ctx: Context)
    | Refused(offending: set<string>, ctx: Context)
    | Failed(error: Error)

  /** `counts` lists exactly the types that occur, each with how often it occurs. */
  ghost predicate CountsOf(counts: map<string, nat>, spans: seq<EntitySpan>) {
    forall t :: if CountType(spans, t) == 0 then t !in counts else t in counts && counts[t] == CountType(spans, t)
  }

  method CountTypes(spans: seq<EntitySpan>) returns (out: map<string, nat>)
    ensures CountsOf(out, spans)
  {
    out := map[];
    var i := 0;
    assert spans[..0] == [];
    while i < |spans|
      invariant i <= |spans| && CountsOf(out, spans[..i])
    {
      var t := spans[i].entityType;
      assert spans[..i + 1][..i] == spans[..i];
      assert CountType(spans[..i], t) == if t in out then out[t] else 0;
      out := out[t := (if t in out then out[t] else 0) + 1];
      i := i + 1;
    }
    assert spans[..|spans|] == spans;
  }

  /** A request comes back: with the session, the texts and the counts that sanitizing a request under a new
      session leaves, de-tokenizing each text gives the normalized one, and the counts are the occurrences
      stored. Every allocation must have been new, and the texts must hold no placeholder of the session. */
  lemma SanitizedComesBack(c: Crypto, sid: string, jobs: seq<Job>, states: seq<seq<Record>>, outs: seq<string>,
                           counts: map<string, nat>)
    requires Ideal(c) && ':' !in sid && RequestRun(c, sid, jobs, states, outs) && states[0] == []
    requires CountsOf(counts, SpansOf(jobs))
    requires forall i: nat | i < |jobs| ::
               && IsFresh(c, sid, jobs[i], states[i])
               && JobLiteralsInert(c, sid, jobs[i], states[i], ResolutionMap(c, sid, states[|jobs|]))
    ensures forall i: nat | i < |jobs| :: Detok(outs[i], ResolutionMap(c, sid, states[|jobs|])) == jobs[i].text
    ensures forall t :: Occurrences(states[|jobs|], t) == if t in counts then counts[t] else 0
  {
    forall i: nat | i < |jobs| ensures Detok(outs[i], ResolutionMap(c, sid, states[|jobs|])) == jobs[i].text {
      RequestRoundTrip(c, sid, jobs, states, outs, i);
    }
    forall t ensures Occurrences(states[|jobs|], t) == if t in counts then counts[t] else 0 {
      RequestCounts(c, sid, jobs, states, outs, |jobs|, t);
      assert jobs[..|jobs|] == jobs;
    }
  }

  class RedactionPipeline {
    const vault: Vault
    const decision: PolicyDecision
    const normalize: string -> string
    const detect: string -> seq<EntitySpan>

    constructor (vault: Vault, decision: PolicyDecision, normalize: string -> string,
                 detect: string -> seq<EntitySpan>)
      ensures this.vault == vault && this.decision == decision
      ensures this.normalize == normalize && this.detect == detect
    {
      this.vault, this.decision, this.normalize, this.detect := vault, decision, normalize, detect;
    }

    /** What is to be hidden in one extracted text: it is normalized first, and only spans that the
        policy selects are kept. */
    function JobFor(text: string, es: seq<Entropy>): Job {
      Job(normalize(text), FilterSpans(decision, detect(normalize(text))), es)
    }

    function Jobs(texts: seq<string>, ess: seq<seq<Entropy>>): (r: seq<Job>)
      requires |ess| == |texts|
      ensures |r| == |texts|
    {
      seq(|texts|, i requires 0 <= i < |texts| => JobFor(texts[i], ess[i]))
    }

    /** The detector returns disjoint spans within the text it was given, and there is randomness
        for each of them. */
    ghost predicate DetectorOk(texts: seq<string>, ess: seq<seq<Entropy>>) {
      && |ess| == |texts|
      && forall i | 0 <= i < |texts| ::
           && SpansOk(normalize(texts[i]), detect(normalize(texts[i])))
           && |detect(normalize(texts[i]))| <= |ess[i]|
           && forall e | e in ess[i] :: LegalEntropy(e)
    }

    /** What the detector finds in the normalized texts. */
    function Found(texts: seq<string>): (r: seq<seq<EntitySpan>>)
      ensures |r| == |texts| && forall i | 0 <= i < |texts| :: r[i] == detect(normalize(texts[i]))
    {
      seq(|texts|, i requires 0 <= i < |texts| => detect(normalize(texts[i])))
    }

    /** Every text that leaves is the normalized one with exactly the selected spans hidden. */
    lemma RequestHides(sid: string, texts: seq<string>, ess: seq<seq<Entropy>>, states: seq<seq<Record>>,
                       outs: seq<string>, i: nat)
      requires |ess| == |texts| && i < |texts| && Ideal(vault.crypto) && ':' !in sid
      requires RequestRun(vault.crypto, sid, Jobs(texts, ess), states, outs) && states[0] == []
      ensures Hidden(vault.crypto, sid, states[|texts|], decision, normalize(texts[i]), detect(normalize(texts[i])), outs[i])
    {
      var jobs := Jobs(texts, ess);
      var isNew := RequestGrows(vault.crypto, sid, jobs, states, outs);
      GrowthBetween(states, isNew, i + 1, |jobs|);
      assert Tokenizes(vault.crypto, sid, jobs[i], states[i], states[i + 1], outs[i]);
      JobHides(vault.crypto, sid, decision, detect(normalize(texts[i])), jobs[i], states[i], states[i + 1], outs[i],
               states[|jobs|]);
    }

    /** A request with texts is refused exactly if the policy blocks everything or a selected span's type; the
        offending types are the blocked ones among them, or all if none is. */
    ghost predicate Decides(texts: seq<string>, r: Outcome) {
      var found := Found(texts);
      && (r.Refused? <==> texts != [] && (decision.mode == HardBlock
                                          || exists t :: t in decision.blockedTypes && Selected(decision, found, t)))
      && (r.Refused? ==> forall t :: t in r.offending <==>
            Selected(decision, found, t)
            && (t in decision.blockedTypes || forall u | u in decision.blockedTypes :: !Selected(decision, found, u)))
    }

    /** The counts are those of the selected spans of all texts. */
    ghost predicate CountsSelected(texts: seq<string>, counts: map<string, nat>) {
      forall t :: (if t in counts then counts[t] else 0)
                  == if Chosen(decision, t) then DetectedOf(Found(texts), t) else 0
    }

    /** Every text that leaves has its selected spans hidden. */
    ghost predicate AllHidden(sid: string, texts: seq<string>, rs: seq<Record>, outs: seq<string>) {
      |outs| == |texts| && forall i | 0 <= i < |texts| ::
        Hidden(vault.crypto, sid, rs, decision, normalize(texts[i]), detect(normalize(texts[i])), outs[i])
    }

    lemma CountsMean(texts: seq<string>, ess: seq<seq<Entropy>>, counts: map<string, nat>)
      requires |ess| == |texts| && CountsOf(counts, SpansOf(Jobs(texts, ess)))
      ensures CountsSelected(texts, counts)
    {
      forall t ensures (if t in counts then counts[t] else 0)
                       == if Chosen(decision, t) then DetectedOf(Found(texts), t) else 0
      {
        SpansCount(decision, Jobs(texts, ess), Found(texts), t);
      }
    }

    lemma DecisionMeans(texts: seq<string>, ess: seq<seq<Entropy>>, r: Outcome)
      requires |ess| == |texts|
      requires var types := TypesOf(SpansOf(Jobs(texts, ess)));
               && (r.Refused? <==> texts != [] && Blocks(decision, types))
               && (r.Refused? ==> r.offending == Offending(decision, types))
      ensures Decides(texts, r)
    {
      var types, found := TypesOf(SpansOf(Jobs(texts, ess))), Found(texts);
      forall t ensures t in types <==> Selected(decision, found, t) {
        SpansTypes(decision, Jobs(texts, ess), found, t);
      }
      BlockedMeans(decision, types, found);
    }

    lemma AllAreHidden(sid: string, texts: seq<string>, ess: seq<seq<Entropy>>, states: seq<seq<Record>>, outs: seq<string>)
      requires |ess| == |texts| && Ideal(vault.crypto) && ':' !in sid
      requires RequestRun(vault.crypto, sid, Jobs(texts, ess), states, outs) && states[0] == []
      ensures AllHidden(sid, texts, states[|texts|], outs)
    {
      forall i | 0 <= i < |texts|
        ensures Hidden(vault.crypto, sid, states[|texts|], decision, normalize(texts[i]), detect(normalize(texts[i])), outs[i])
      {
        RequestHides(sid, texts, ess, states, outs, i);
      }
    }

    lemma JobsAreOk(texts: seq<string>, ess: seq<seq<Entropy>>, i: nat)
      requires DetectorOk(texts, ess) && i < |texts|
      ensures JobOk(Jobs(texts, ess)[i])
    {
      FilterKeepsSpans(decision, normalize(texts[i]), detect(normalize(texts[i])));
    }

    /** Collect the spans of all texts, in order. */
    method DetectAll(texts: seq<string>, ess: seq<seq<Entropy>>) returns (jobs: seq<Job>, allSpans: seq<EntitySpan>)
      requires |ess| == |texts|
      ensures jobs == Jobs(texts, ess) && allSpans == SpansOf(jobs)
    {
      jobs, allSpans := [], [];
      for i := 0 to |texts|
        invariant jobs == Jobs(texts, ess)[..i] && allSpans == SpansOf(jobs)
      {
        var job := JobFor(texts[i], ess[i]);
        assert (jobs + [job])[..i] == jobs;
        jobs, allSpans := jobs + [job], allSpans + job.spans;
      }
    }

    /** A text without spans stays as it is. */
    method TokenizeJob(sid: string, job: Job) returns (out: string)
      requires vault.store.Valid() && JobOk(job)
      modifies vault.store
      ensures vault.store.Valid() && forall s | s != sid :: vault.store.View(s) == old(vault.store.View(s))
      ensures Tokenizes(vault.crypto, sid, job, old(vault.store.View(sid)), vault.store.View(sid), out)
    {
      out := job.text;
      if job.spans != [] {
        out := vault.Tokenize(sid, job.text, job.spans, job.entropy);
      } else {
        NothingToTokenize(vault.crypto, sid, job, vault.store.View(sid));
      }
    }

    /** Tokenize the texts one after the other under one session. */
    method TokenizeAll(sid: string, jobs: seq<Job>) returns (outs: seq<string>, ghost states: seq<seq<Record>>)
      requires vault.store.Valid() && forall i | 0 <= i < |jobs| :: JobOk(jobs[i])
      modifies vault.store
      ensures vault.store.Valid() && forall s | s != sid :: vault.store.View(s) == old(vault.store.View(s))
      ensures RequestRun(vault.crypto, sid, jobs, states, outs)
      ensures states[0] == old(vault.store.View(sid)) && states[|jobs|] == vault.store.View(sid)
    {
      outs, states := [], [vault.store.View(sid)];
      for i := 0 to |jobs|
        invariant vault.store.Valid() && forall s | s != sid :: vault.store.View(s) == old(vault.store.View(s))
        invariant RequestRun(vault.crypto, sid, jobs[..i], states, outs)
        invariant states[0] == old(vault.store.View(sid)) && states[i] == vault.store.View(sid)
      {
        var out := TokenizeJob(sid, jobs[i]);
        RequestRunSnoc(vault.crypto, sid, jobs, i, states, outs, vault.store.View(sid), out);
        outs, states := outs + [out], states + [vault.store.View(sid)];
      }
      assert jobs[..|jobs|] == jobs;
    }

    /** A refused or failed request leaves the store alone. Otherwise the request's texts become the
        tokenized normalized texts, all under session `sid`, and the counts are those of the spans. */
    method SanitizeRequest(payload: map<string, Json>, sid: string, ess: seq<seq<Entropy>>)
      returns (r: Outcome, ghost states: seq<seq<Record>>, ghost outs: seq<string>)
      requires vault.store.Valid() && vault.store.View(sid) == [] && DetectorOk(RequestTexts(payload), ess)
      modifies vault.store
      ensures vault.store.Valid() && forall s | s != sid :: vault.store.View(s) == old(vault.store.View(s))
      ensures var jobs := Jobs(RequestTexts(payload), ess);
              var types := TypesOf(SpansOf(jobs));
              && (r.Failed? <==> !Walkable(payload))
              && (r.Refused? <==> Walkable(payload) && jobs != [] && Blocks(decision, types))
              && (r.Refused? ==> r.offending == Offending(decision, types)
                                 && r.ctx.blocked && CountsOf(r.ctx.entityCounts, SpansOf(jobs)))
              && (!r.Sanitized? ==> vault.store.View(sid) == [])
              && (r.Sanitized? ==>
                    && RequestRun(vault.crypto, sid, jobs, states, outs)
                    && states[0] == [] && states[|jobs|] == vault.store.View(sid)
                    && r.payload == WithTexts(payload, outs)
                    && r.ctx.sessionId == sid && !r.ctx.blocked
                    && CountsOf(r.ctx.entityCounts, SpansOf(jobs)))
              && (!r.Failed? ==> r.ctx.spans == SpansOf(jobs))
      ensures Walkable(payload) ==>
                && Decides(RequestTexts(payload), r) && CountsSelected(RequestTexts(payload), r.ctx.entityCounts)
                && (r.Sanitized? && Ideal(vault.crypto) && ':' !in sid ==>
                      AllHidden(sid, RequestTexts(payload), vault.store.View(sid), outs))
    {
      states, outs := [[]], [];
      var extracted := ExtractTexts(payload);
      if extracted.Err? { return Failed(extracted.error), states, outs; }
      var texts := extracted.value;
      if texts == [] {
        RequestLens(payload, [], []);
        var none := CountTypes([]);
        CountsMean(texts, ess, none);
        return Sanitized(Obj(payload), Context(sid, none, false, [])), states, outs;
      }
      var jobs, allSpans := DetectAll(texts, ess);
      var counts := CountTypes(allSpans);
      CountsMean(texts, ess, counts);
      if Blocks(decision, TypesOf(allSpans)) {
        r := Refused(Offending(decision, TypesOf(allSpans)), Context(sid, counts, true, allSpans));
        DecisionMeans(texts, ess, r);
        return;
      }
      forall i | 0 <= i < |jobs| ensures JobOk(jobs[i]) { JobsAreOk(texts, ess, i); }
      var sanitized;
      sanitized, states := TokenizeAll(sid, jobs);
      outs := sanitized;
      var injected := InjectTexts(payload, sanitized);
      r := Sanitized(injected.value, Context(sid, counts, false, allSpans));
      DecisionMeans(texts, ess, r);
      if Ideal(vault.crypto) && ':' !in sid { AllAreHidden(sid, texts, ess, states, outs); }
    }
  }

  lemma BlockedMeans(d: PolicyDecision, types: set<string>, found: seq<seq<EntitySpan>>)
    requires forall t :: t in types <==> Selected(d, found, t)
    ensures Blocks(d, types) <==> d.mode == HardBlock || exists t :: t in d.blockedTypes && Selected(d, found, t)
    ensures forall t :: t in Offending(d, types) <==>
              Selected(d, found, t) && (t in d.blockedTypes || forall u | u in d.blockedTypes :: !Selected(d, found, u))
  {
    forall t ensures t in BlockedHit(d, types) <==> t in d.blockedTypes && Selected(d, found, t) {}
    if t :| t in d.blockedTypes && Selected(d, found, t) { assert t in BlockedHit(d, types); }
  }

  lemma RequestRunSnoc(c: Crypto, sid: string, jobs: seq<Job>, i: nat, states: seq<seq<Record>>, outs: seq<string>,
                       after: seq<Record>, out: string)
    requires i < |jobs| && RequestRun(c, sid, jobs[..i], states, outs)
    requires Tokenizes(c, sid, jobs[i], states[i], after, out)
    ensures RequestRun(c, sid, jobs[..i + 1], states + [after], outs + [out])
  {
  }

  lemma NothingToTokenize(c: Crypto, sid: string, j: Job, rs: seq<Record>)
    requires j.spans == [] && JobOk(j)
    ensures Tokenizes(c, sid, j, rs, rs, j.text)
  {
    assert Descending([]) == [];
    PlacedOrdered(j.text, [], []);
    assert Reverse(Placed([], [])) == [] && j.text[0..] == j.text;
  }
}
