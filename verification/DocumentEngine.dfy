/** Anonymizing and restoring documents against the mutable vault: `anonymize_unit`, `restore_unit`,
    `finish_anon` (app/desktop/engine.py), `anonymize_file` and `restore_file` (app/desktop/pipeline.py). */
module DocumentEngine {
  import opened Entities
  import opened Labels
  import opened Dictionary
  import opened Identity
  import opened LabelEngine
  import opened Documents
  import opened RestoredLabels
  import opened Sequences
  import opened Sorting
  import opened Splicing

  /** A detected span, as `merge_spans` leaves them. */
  datatype Mention = Mention(start: nat, end: nat, category: string)

  ghost predicate MentionsOk(text: string, spans: seq<Mention>) {
    && (forall i | 0 <= i < |spans| :: spans[i].start < spans[i].end <= |text|)
    && (forall i, j | 0 <= i < j < |spans| :: spans[i].end <= spans[j].start)
  }

  /** The project may be asked for every mention. */
  ghost predicate MentionsIn(used: iset<Spelling>, text: string, spans: seq<Mention>)
    requires MentionsOk(text, spans)
  {
    forall i | 0 <= i < |spans| :: CanAsk(used, text, spans[i])
  }

  predicate CanAsk(used: iset<Spelling>, text: string, s: Mention)
    requires s.start <= s.end <= |text|
  {
    Spelling(s.category, text[s.start..s.end]) in used
  }

  function CallFor(text: string, s: Mention): Call
    requires s.start <= s.end <= |text|
  {
    Call.Resolve(s.category, text[s.start..s.end], "auto")
  }

  /** The states the vault goes through while the mentions are resolved. */
  ghost predicate Resolves(r: Rules, text: string, spans: seq<Mention>, ps: seq<Project>)
    requires MentionsOk(text, spans)
  {
    |ps| == |spans| + 1 && forall i | 0 <= i < |spans| :: ps[i + 1] == After(r, ps[i], CallFor(text, spans[i]))
  }

  predicate IsExcluded(p: Project, k: Key) { k in Ents(p) && Ents(p)[k].row.excluded }

  /** What one mention contributes: nothing if its entity is excluded. */
  ghost function MarkFor(r: Rules, render: Key -> string, text: string, s: Mention, p: Project, q: Project): seq<Mark>
    requires s.start <= s.end <= |text|
  {
    var k := Answer(r, p, CallFor(text, s));
    if IsExcluded(q, k) then [] else [Mark(s.start, s.end, render(k), k, text[s.start..s.end])]
  }

  ghost function MarksFor(r: Rules, render: Key -> string, text: string, spans: seq<Mention>, ps: seq<Project>): seq<Mark>
    requires MentionsOk(text, spans) && |ps| == |spans| + 1
  {
    if spans == [] then []
    else
      var n := |spans| - 1;
      MarksFor(r, render, text, spans[..n], ps[..n + 1]) + MarkFor(r, render, text, spans[n], ps[n], ps[n + 1])
  }

  /** Marks in text order, each covering the text it remembers. */
  ghost predicate Lined(text: string, marks: seq<Mark>, upto: nat) {
    && (forall i | 0 <= i < |marks| :: marks[i].start < marks[i].end <= upto && upto <= |text|
                                       && marks[i].original == text[marks[i].start..marks[i].end])
    && (forall i, j | 0 <= i < j < |marks| :: marks[i].end <= marks[j].start)
  }

  lemma {:induction false} MarksLined(r: Rules, render: Key -> string, text: string, spans: seq<Mention>, ps: seq<Project>)
    requires MentionsOk(text, spans) && |ps| == |spans| + 1
    ensures Lined(text, MarksFor(r, render, text, spans, ps), if spans == [] then 0 else spans[|spans| - 1].end)
  {
    if spans != [] {
      var n := |spans| - 1;
      MarksLined(r, render, text, spans[..n], ps[..n + 1]);
    }
  }

  lemma LinedTail(text: string, marks: seq<Mark>, upto: nat)
    requires Lined(text, marks, upto) && marks != []
    ensures Lined(text, marks[1..], upto) && (|marks| > 1 ==> marks[0].end <= marks[1].start)
  {
    var rest := marks[1..];
    assert marks[0].end <= upto <= |text|;
    forall i | 0 <= i < |rest|
      ensures rest[i].start < rest[i].end <= upto && upto <= |text| && rest[i].original == text[rest[i].start..rest[i].end]
    {
      assert rest[i] == marks[i + 1];
      assert marks[i + 1].original == text[marks[i + 1].start..marks[i + 1].end];
    }
    forall i, j | 0 <= i < j < |rest| ensures rest[i].end <= rest[j].start {
      assert marks[i + 1].end <= marks[j + 1].start;
    }
  }

  lemma {:induction false} LinedIsOrdered(text: string, marks: seq<Mark>, upto: nat, from: nat)
    requires Lined(text, marks, upto) && (marks != [] ==> from <= marks[0].start)
    ensures Ordered(|text|, from, Reps(marks))
    decreases |marks|
  {
    if marks != [] {
      assert Reps(marks)[1..] == Reps(marks[1..]);
      LinedTail(text, marks, upto);
      LinedIsOrdered(text, marks[1..], upto, marks[0].end);
    }
  }

  lemma LinedIsOk(text: string, marks: seq<Mark>, upto: nat)
    requires Lined(text, marks, upto)
    ensures MarksOk(text, marks)
  {
    LinedIsOrdered(text, marks, upto, 0);
  }

  lemma {:induction false} RepMember(marks: seq<Mark>, x: Replacement<char>)
    requires x in Reps(marks)
    ensures exists m | m in marks :: x == RepOf(m)
  {
    if x != RepOf(marks[0]) {
      assert x in Reps(marks[1..]);
      RepMember(marks[1..], x);
    }
  }

  lemma {:induction false} LinedAscends(text: string, marks: seq<Mark>, upto: nat)
    requires Lined(text, marks, upto)
    ensures Ascending(|text|, Reps(marks))
    decreases |marks|
  {
    if marks != [] {
      LinedTail(text, marks, upto);
      LinedAscends(text, marks[1..], upto);
      assert Reps(marks)[1..] == Reps(marks[1..]);
      forall x | x in Reps(marks)[1..] ensures Before(Reps(marks)[0], x) {
        assert x in Reps(marks[1..]);
        RepMember(marks[1..], x);
        var m :| m in marks[1..] && x == RepOf(m);
        var j :| 0 <= j < |marks[1..]| && marks[1..][j] == m;
        assert marks[j + 1] == m;
      }
    }
  }

  // ---- which mentions are hidden -----------------------------------------------------

  /** The label of the entity that the mention's value belongs to, over the mention. */
  ghost predicate Marks(r: Rules, render: Key -> string, ents: map<Key, Entity>, text: string, s: Mention, m: Mark) {
    && s.start <= s.end <= |text| && m.start == s.start && m.end == s.end && m.original == text[s.start..s.end]
    && Owns(ents, m.key, NormFp(r, s.category, m.original)) && !ents[m.key].row.excluded && m.tag == render(m.key)
  }

  /** The mention's value belongs to an entity that the user excluded. */
  ghost predicate LeftOut(r: Rules, ents: map<Key, Entity>, text: string, s: Mention) {
    && s.start <= s.end <= |text|
    && exists k :: Owns(ents, k, NormFp(r, s.category, text[s.start..s.end])) && ents[k].row.excluded
  }

  /** Exactly the mentions of entities that are not excluded are marked. */
  ghost predicate Labelled(r: Rules, render: Key -> string, ents: map<Key, Entity>, text: string,
                           spans: seq<Mention>, marks: seq<Mark>)
  {
    && (forall m | m in marks :: exists s :: s in spans && Marks(r, render, ents, text, s, m))
    && (forall s | s in spans :: LeftOut(r, ents, text, s) || exists m :: m in marks && Marks(r, render, ents, text, s, m))
  }

  /** Entities keep what they own and whether they are excluded. */
  ghost predicate Stays(a: map<Key, Entity>, b: map<Key, Entity>) {
    forall k | k in a :: k in b && b[k].row.excluded == a[k].row.excluded && forall f | Has(a[k], f) :: Has(b[k], f)
  }

  lemma StaysTrans(a: map<Key, Entity>, b: map<Key, Entity>, c: map<Key, Entity>)
    requires Stays(a, b) && Stays(b, c)
    ensures Stays(a, c)
  {
  }

  lemma MarksStay(r: Rules, render: Key -> string, a: map<Key, Entity>, b: map<Key, Entity>, text: string, s: Mention, m: Mark)
    requires Marks(r, render, a, text, s, m) && Stays(a, b)
    ensures Marks(r, render, b, text, s, m)
  {
  }

  lemma LeftOutStays(r: Rules, a: map<Key, Entity>, b: map<Key, Entity>, text: string, s: Mention)
    requires LeftOut(r, a, text, s) && Stays(a, b)
    ensures LeftOut(r, b, text, s)
  {
    var k :| Owns(a, k, NormFp(r, s.category, text[s.start..s.end])) && a[k].row.excluded;
    assert Owns(b, k, NormFp(r, s.category, text[s.start..s.end]));
  }

  lemma LabelledStays(r: Rules, render: Key -> string, a: map<Key, Entity>, b: map<Key, Entity>, text: string,
                      spans: seq<Mention>, marks: seq<Mark>)
    requires Labelled(r, render, a, text, spans, marks) && Stays(a, b)
    ensures Labelled(r, render, b, text, spans, marks)
  {
    forall m | m in marks ensures exists s :: s in spans && Marks(r, render, b, text, s, m) {
      var s :| s in spans && Marks(r, render, a, text, s, m);
      MarksStay(r, render, a, b, text, s, m);
    }
    forall s | s in spans
      ensures LeftOut(r, b, text, s) || exists m :: m in marks && Marks(r, render, b, text, s, m)
    {
      if LeftOut(r, a, text, s) {
        LeftOutStays(r, a, b, text, s);
      } else {
        var m :| m in marks && Marks(r, render, a, text, s, m);
        MarksStay(r, render, a, b, text, s, m);
      }
    }
  }

  /** One resolution keeps what entities own and whether they are excluded, and marks its mention unless the
      entity is excluded. */
  lemma MarkMeans(r: Rules, used: iset<Spelling>, render: Key -> string, text: string, s: Mention, p: Project)
    requires Inv(r, used, p) && RulesOk(r, used) && s.start <= s.end <= |text| && CanAsk(used, text, s)
    ensures var q := After(r, p, CallFor(text, s));
            && Inv(r, used, q) && Stays(Ents(p), Ents(q))
            && Labelled(r, render, Ents(q), text, [s], MarkFor(r, render, text, s, p, q))
  {
    var call := CallFor(text, s);
    var q, k := After(r, p, call), Answer(r, p, call);
    AfterInv(r, used, p, call);
    ResolveIdentifies(r, used, p, s.category, text[s.start..s.end], "auto");
    StaysAfter(r, p, q, s.category, text[s.start..s.end], k);
    assert Owns(Ents(q), k, NormFp(r, s.category, text[s.start..s.end]));
    if IsExcluded(q, k) {
      assert LeftOut(r, Ents(q), text, s);
    } else {
      var m := Mark(s.start, s.end, render(k), k, text[s.start..s.end]);
      assert Marks(r, render, Ents(q), text, s, m) && m in MarkFor(r, render, text, s, p, q) && s in [s];
    }
  }

  lemma StaysAfter(r: Rules, p: Project, q: Project, category: string, surface: string, k: Key)
    requires Keeps(p, q) && Identified(r, Ents(p), Ents(q), category, surface, "auto", k)
    ensures Stays(Ents(p), Ents(q))
  {
    forall m | m in Ents(p)
      ensures m in Ents(q) && Ents(q)[m].row.excluded == Ents(p)[m].row.excluded
      ensures forall f | Has(Ents(p)[m], f) :: Has(Ents(q)[m], f)
    {
      forall f | Has(Ents(p)[m], f) ensures Has(Ents(q)[m], f) { assert Owns(Ents(p), m, f); }
    }
  }

  lemma LabelledSnoc(r: Rules, render: Key -> string, ents: map<Key, Entity>, text: string, spans: seq<Mention>,
                     s: Mention, marks: seq<Mark>, mark: seq<Mark>)
    requires Labelled(r, render, ents, text, spans, marks) && Labelled(r, render, ents, text, [s], mark)
    ensures Labelled(r, render, ents, text, spans + [s], marks + mark)
  {
    forall m | m in marks + mark ensures exists t :: t in spans + [s] && Marks(r, render, ents, text, t, m) {
      if m in marks {
        var t :| t in spans && Marks(r, render, ents, text, t, m);
        assert t in spans + [s];
      } else {
        var t :| t in [s] && Marks(r, render, ents, text, t, m);
        assert t in spans + [s];
      }
    }
    forall t | t in spans + [s]
      ensures LeftOut(r, ents, text, t) || exists m :: m in marks + mark && Marks(r, render, ents, text, t, m)
    {
      if !LeftOut(r, ents, text, t) {
        if t in spans {
          var m :| m in marks && Marks(r, render, ents, text, t, m);
          assert m in marks + mark;
        } else {
          assert t in [s];
          var m :| m in mark && Marks(r, render, ents, text, t, m);
          assert m in marks + mark;
        }
      }
    }
  }

  /** Resolving all mentions of a unit marks exactly those of entities that are not excluded. */
  lemma {:induction false} MarksMean(r: Rules, used: iset<Spelling>, render: Key -> string, text: string,
                                     spans: seq<Mention>, ps: seq<Project>)
    requires MentionsOk(text, spans) && MentionsIn(used, text, spans) && Resolves(r, text, spans, ps)
    requires Inv(r, used, ps[0]) && RulesOk(r, used)
    ensures Inv(r, used, ps[|spans|]) && Stays(Ents(ps[0]), Ents(ps[|spans|]))
    ensures Labelled(r, render, Ents(ps[|spans|]), text, spans, MarksFor(r, render, text, spans, ps))
  {
    if spans != [] {
      var n := |spans| - 1;
      assert CanAsk(used, text, spans[n]);
      MentionsPrefixIn(used, text, spans, n);
      MarksMean(r, used, render, text, spans[..n], ps[..n + 1]);
      MarkMeans(r, used, render, text, spans[n], ps[n]);
      var marks := MarksFor(r, render, text, spans[..n], ps[..n + 1]);
      StaysTrans(Ents(ps[0]), Ents(ps[n]), Ents(ps[n + 1]));
      LabelledStays(r, render, Ents(ps[n]), Ents(ps[n + 1]), text, spans[..n], marks);
      LabelledSnoc(r, render, Ents(ps[n + 1]), text, spans[..n], spans[n], marks,
                   MarkFor(r, render, text, spans[n], ps[n], ps[n + 1]));
      assert spans[..n] + [spans[n]] == spans;
    }
  }

  lemma MentionsPrefixIn(used: iset<Spelling>, text: string, spans: seq<Mention>, n: nat)
    requires MentionsOk(text, spans) && MentionsIn(used, text, spans) && n <= |spans|
    ensures MentionsOk(text, spans[..n]) && MentionsIn(used, text, spans[..n])
  {
    forall i | 0 <= i < n ensures CanAsk(used, text, spans[..n][i]) { assert CanAsk(used, text, spans[i]); }
  }

  /** Whatever states the resolution goes through. */
  lemma MentionsMean(r: Rules, used: iset<Spelling>, render: Key -> string, text: string, spans: seq<Mention>, p: Project)
    requires MentionsOk(text, spans) && MentionsIn(used, text, spans) && Inv(r, used, p) && RulesOk(r, used)
    ensures forall q, ps, marks | Marking(r, render, text, spans, p, q, ps, marks) ::
              Labelled(r, render, Ents(q), text, spans, marks) && Stays(Ents(p), Ents(q))
  {
    forall q, ps, marks | Marking(r, render, text, spans, p, q, ps, marks)
      ensures Labelled(r, render, Ents(q), text, spans, marks) && Stays(Ents(p), Ents(q))
    {
      MarksMean(r, used, render, text, spans, ps);
    }
  }

  ghost predicate AllLabelled(r: Rules, render: Key -> string, ents: map<Key, Entity>, spans: seq<seq<Mention>>,
                              units: seq<Unit>)
  {
    |units| == |spans| && forall i | 0 <= i < |units| ::
      Labelled(r, render, ents, units[i].text, spans[i], units[i].marks)
  }

  lemma AllLabelledStays(r: Rules, render: Key -> string, a: map<Key, Entity>, b: map<Key, Entity>,
                         spans: seq<seq<Mention>>, units: seq<Unit>)
    requires AllLabelled(r, render, a, spans, units) && Stays(a, b)
    ensures AllLabelled(r, render, b, spans, units)
  {
    forall i | 0 <= i < |units| ensures Labelled(r, render, b, units[i].text, spans[i], units[i].marks) {
      LabelledStays(r, render, a, b, units[i].text, spans[i], units[i].marks);
    }
  }

  // ---- what accumulates over the units of one document -------------------------------

  function CountOf(occ: seq<Occurrence>, k: Key): nat {
    if occ == [] then 0
    else CountOf(occ[..|occ| - 1], k) + if occ[|occ| - 1].key == k then 1 else 0
  }

  /** The counter holds how often each label was recorded. */
  ghost predicate Tally(counts: map<Key, nat>, occ: seq<Occurrence>) {
    forall k :: (k in counts <==> CountOf(occ, k) > 0) && (k in counts ==> counts[k] == CountOf(occ, k))
  }

  lemma TallyOne(counts: map<Key, nat>, occ: seq<Occurrence>, o: Occurrence)
    requires Tally(counts, occ)
    ensures Tally(counts[o.key := (if o.key in counts then counts[o.key] else 0) + 1], occ + [o])
  {
    assert (occ + [o])[..|occ|] == occ;
  }

  class RunState {
    var occurrences: seq<Occurrence>
    var counts: map<Key, nat>
    var unitsOut: seq<string>
    var unknown: seq<Hit>

    constructor ()
      ensures occurrences == [] && counts == map[] && unitsOut == [] && unknown == [] && Valid()
    {
      occurrences, counts, unitsOut, unknown := [], map[], [], [];
    }

    ghost predicate Valid()
      reads this
    {
      Tally(counts, occurrences)
    }

    method AddUnit(out: string)
      requires Valid()
      modifies this`unitsOut
      ensures Valid() && unitsOut == old(unitsOut) + [out]
    {
      unitsOut := unitsOut + [out];
    }

    method Add(marks: seq<Mark>)
      requires Valid()
      modifies this`occurrences, this`counts
      ensures Valid() && occurrences == old(occurrences) + Occurrences(marks)
    {
      assert marks[..0] == [] && old(occurrences) + [] == old(occurrences);
      for i := 0 to |marks|
        invariant Valid() && occurrences == old(occurrences) + Occurrences(marks[..i])
      {
        var m := marks[i];
        OccurrencesSnoc(marks, i);
        TallyOne(counts, occurrences, Occurrence(m.key, m.original));
        occurrences := occurrences + [Occurrence(m.key, m.original)];
        counts := counts[m.key := (if m.key in counts then counts[m.key] else 0) + 1];
      }
      assert marks[..|marks|] == marks;
    }
  }

  lemma {:induction false} OccurrencesConcat(a: seq<Mark>, b: seq<Mark>)
    ensures Occurrences(a + b) == Occurrences(a) + Occurrences(b)
  {
    if a == [] {
      assert a + b == b;
    } else {
      assert (a + b)[1..] == a[1..] + b;
      OccurrencesConcat(a[1..], b);
    }
  }

  lemma OccurrencesSnoc(marks: seq<Mark>, i: nat)
    requires i < |marks|
    ensures Occurrences(marks[..i + 1]) == Occurrences(marks[..i]) + [Occurrence(marks[i].key, marks[i].original)]
  {
    assert marks[..i + 1] == marks[..i] + [marks[i]];
    OccurrencesConcat(marks[..i], [marks[i]]);
    assert [marks[i]][1..] == [];
  }

  // ---- occurrences are added up ------------------------------------------------------

  /** The occurrence columns have grown by the counts, and nothing else has changed. */
  ghost predicate Bumped(a: map<Key, Entity>, b: map<Key, Entity>, counts: map<Key, nat>) {
    a.Keys == b.Keys && forall k | k in a :: b[k] == a[k].(row := GrownRow(a[k].row, if k in counts then counts[k] else 0))
  }

  function GrownRow(row: Row, n: nat): Row { row.(occurrences := row.occurrences + n) }

  lemma BumpEnts(r: Rules, used: iset<Spelling>, p: Project, k: Key, n: nat)
    requires Inv(r, used, p)
    ensures Ents(After(r, p, Bump(k, n)))
         == if k in Ents(p) then Ents(p)[k := Ents(p)[k].(row := GrownRow(Ents(p)[k].row, n))] else Ents(p)
  {
    if k in p.entity {
      assert Home(r, used, k, Ents(p)[k]);
      SameSpellingHome(r, used, k, Ents(p)[k], GrownRow(p.entity[k], n));
      SetRowInv(r, used, p, k, GrownRow(p.entity[k], n));
    }
  }

  lemma BumpRemembers(l: Letters, r: Rules, used: iset<Spelling>, p: Project, dict: Option<Dict>, k: Key, n: nat)
    requires Inv(r, used, p) && RulesOk(r, used) && Remembers(l, dict, Ents(p))
    ensures Remembers(l, dict, Ents(After(r, p, Bump(k, n))))
  {
    StepRemembers(l, r, used, p, dict, Bump(k, n));
  }

  method BumpOne(anon: Anonymizer, k: Key, n: nat)
    requires anon.Valid()
    modifies anon.vault
    ensures anon.Valid()
    ensures var ents := old(Ents(anon.vault.State()));
            Ents(anon.vault.State())
            == if k in ents then ents[k := ents[k].(row := GrownRow(ents[k].row, n))] else ents
  {
    BumpEnts(anon.vault.rules, anon.vault.used, anon.vault.State(), k, n);
    BumpRemembers(anon.detector.letters, anon.vault.rules, anon.vault.used, anon.vault.State(), anon.detector.dict, k, n);
    anon.vault.Bump(k, n);
  }

  lemma BumpedOne(a: map<Key, Entity>, b: map<Key, Entity>, done: map<Key, nat>, k: Key, n: nat)
    requires Bumped(a, b, done) && k !in done
    ensures Bumped(a, if k in b then b[k := b[k].(row := GrownRow(b[k].row, n))] else b, done[k := n])
  {
  }

  /** `bump` */
  method BumpAll(anon: Anonymizer, counts: map<Key, nat>)
    requires anon.Valid()
    modifies anon.vault
    ensures anon.Valid() && Bumped(old(Ents(anon.vault.State())), Ents(anon.vault.State()), counts)
  {
    ghost var start := Ents(anon.vault.State());
    ghost var done: map<Key, nat> := map[];
    var left := counts.Keys;
    while left != {}
      invariant left <= counts.Keys && done == map k | k in counts && k !in left :: counts[k]
      invariant anon.Valid() && Bumped(start, Ents(anon.vault.State()), done)
      decreases left
    {
      var k :| k in left;
      BumpedOne(start, Ents(anon.vault.State()), done, k, counts[k]);
      BumpOne(anon, k, counts[k]);
      left, done := left - {k}, done[k := counts[k]];
    }
    assert done == counts;
  }

  lemma BumpedStays(a: map<Key, Entity>, b: map<Key, Entity>, counts: map<Key, nat>)
    requires Bumped(a, b, counts)
    ensures Stays(a, b)
  {
  }

  // ---- what resolution does to the counters ------------------------------------------

  /** Every entity keeps its counter, new ones start from zero, and the recorded labels have entities. */
  ghost predicate Settled(a: map<Key, Entity>, b: map<Key, Entity>, occ: seq<Occurrence>) {
    && a.Keys <= b.Keys && (forall o | o in occ :: o.key in b)
    && forall k | k in b :: b[k].row.occurrences == if k in a then a[k].row.occurrences else 0
  }

  lemma SettledTrans(a: map<Key, Entity>, b: map<Key, Entity>, c: map<Key, Entity>, x: seq<Occurrence>, y: seq<Occurrence>)
    requires Settled(a, b, x) && Settled(b, c, y)
    ensures Settled(a, c, x + y)
  {
  }

  /** Every counter has grown by how often its label was recorded. */
  ghost predicate Counted(a: map<Key, Entity>, b: map<Key, Entity>, occ: seq<Occurrence>) {
    forall k | k in b :: b[k].row.occurrences == (if k in a then a[k].row.occurrences else 0) + CountOf(occ, k)
  }

  lemma {:induction false} KeyRecorded(occ: seq<Occurrence>, k: Key)
    requires k in KeysOf(occ)
    ensures exists o | o in occ :: o.key == k
  {
    if k != occ[0].key {
      assert k in KeysOf(occ[1..]);
      KeyRecorded(occ[1..], k);
    }
  }

  lemma CountedAfter(a: map<Key, Entity>, mid: map<Key, Entity>, b: map<Key, Entity>, occ: seq<Occurrence>,
                     counts: map<Key, nat>)
    requires Settled(a, mid, occ) && Bumped(mid, b, counts) && Tally(counts, occ)
    ensures Counted(a, b, occ) && a.Keys <= b.Keys && forall k | k in KeysOf(occ) :: k in b
  {
    forall k | k in KeysOf(occ) ensures k in b { KeyRecorded(occ, k); }
    forall k | k in b
      ensures b[k].row.occurrences == (if k in a then a[k].row.occurrences else 0) + CountOf(occ, k)
    {
      assert k in counts || CountOf(occ, k) == 0;
    }
  }

  lemma AddVariantSettles(p: Project, k: Key, f: Fingerprint, s: string)
    requires CacheCurrent(p) && p.cache.Some? && k in Ents(p) && CacheCurrent(AddVariant(p, k, f, s))
    ensures Settled(Ents(p), Ents(AddVariant(p, k, f, s)), [])
  {
  }

  lemma AliasSettles(r: Rules, used: iset<Spelling>, p: Project, k: Key, surface: string)
    requires Inv(r, used, p) && p.cache.Some? && RulesOk(r, used)
    requires k in Ents(p) && k.category == PERSON && Spelling(PERSON, surface) in used
    requires forall m :: !Owns(Ents(p), m, NormFp(r, PERSON, surface))
    ensures Settled(Ents(p), Ents(ResolveAlias(r, p, k, surface)), [])
  {
    var f := NormFp(r, PERSON, surface);
    AliasInv(r, used, p, k, surface);
    AddVariantInv(r, used, p, k, f, surface);
    AddVariantSettles(p, k, f, surface);
    var q := AddVariant(p, k, f, surface);
    var row := Ents(q)[k].row;
    if r.score(surface) > r.score(row.value) {
      CanonicalSettles(r, used, q, k, row.(value := surface, meta := Merged(r.parse(surface), row.meta)));
    }
  }

  lemma CanonicalSettles(r: Rules, used: iset<Spelling>, p: Project, k: Key, row: Row)
    requires Inv(r, used, p) && p.cache.Some? && RulesOk(r, used) && k in Ents(p) && k.category == PERSON
    requires row.fp == Ents(p)[k].row.fp && row.occurrences == Ents(p)[k].row.occurrences
    requires Has(Ents(p)[k], NormFp(r, PERSON, row.value)) && Spelling(PERSON, row.value) in used
    ensures var was := Ents(p)[k].row.value;
            Settled(Ents(p), Ents(AddVariant(SetRow(p, k, row), k, SurfaceFp(PERSON, was), was)), [])
  {
    var was := Ents(p)[k].row.value;
    CanonicalInv(r, used, p, k, row);
    assert Home(r, used, k, Ents(p)[k]);
    CanonicalHome(r, used, k, Ents(p)[k], row);
    SetRowInv(r, used, p, k, row);
    AddVariantSettles(SetRow(p, k, row), k, SurfaceFp(PERSON, was), was);
  }

  lemma FreshSettles(r: Rules, used: iset<Spelling>, p: Project, category: string, surface: string, origin: string)
    requires Inv(r, used, p) && p.cache.Some? && RulesOk(r, used)
    requires forall m :: !Owns(Ents(p), m, NormFp(r, category, surface))
    ensures var k := Key(category, MaxN(p.entity.Keys, category) + 1);
            Settled(Ents(p), Ents(AddEntity(p, k, FreshRow(r, category, surface, origin))), [])
  {
    var k := Key(category, MaxN(p.entity.Keys, category) + 1);
    AddEntitySettles(p, k, FreshRow(r, category, surface, origin));
  }

  lemma AddEntitySettles(p: Project, k: Key, row: Row)
    requires NoOrphans(p) && p.cache.Some? && k !in p.entity && row.occurrences == 0
    ensures Settled(Ents(p), Ents(AddEntity(p, k, row)), [])
  {
    EntsAddEntity(p, k, row);
  }

  lemma ResolveSettles(r: Rules, used: iset<Spelling>, p: Project, category: string, surface: string, origin: string)
    requires Inv(r, used, p) && RulesOk(r, used) && Spelling(category, surface) in used
    ensures var call := Call.Resolve(category, surface, origin);
            && Settled(Ents(p), Ents(After(r, p, call)), [])
            && After(r, p, call).cache.Some? && After(r, p, call).cache.value.ents == Ents(After(r, p, call))
            && Answer(r, p, call) in Ents(After(r, p, call))
  {
    OpenedInv(r, used, p);
    var q, f := Opened(p), NormFp(r, category, surface);
    ResolveInv(r, used, q, category, surface, origin);
    IndexedIsOwned(Ents(p), q.cache.value.idx, f);
    if exists k :: Owns(Ents(p), k, f) {
      var k :| Owns(Ents(p), k, f);
      KnownAnswer(r, used, p, category, surface, origin, k);
      KnownSettles(r, used, q, k, surface);
    } else if Links(r, q, category, surface) {
      var k := ResolveIn(r, q, category, surface, origin).1;
      AliasSettles(r, used, q, k, surface);
    } else {
      FreshSettles(r, used, q, category, surface, origin);
    }
  }

  lemma KnownSettles(r: Rules, used: iset<Spelling>, p: Project, k: Key, surface: string)
    requires Inv(r, used, p) && p.cache.Some? && RulesOk(r, used) && Owns(Ents(p), k, NormFp(r, k.category, surface))
    requires Spelling(k.category, surface) in used
    ensures Settled(Ents(p), Ents(ResolveKnown(p, k, k.category, surface)), [])
  {
    KnownInv(r, used, p, k, surface);
    if !IsSurfaceOf(Ents(p)[k], surface) { AddVariantSettles(p, k, SurfaceFp(k.category, surface), surface); }
  }

  class Cursor {
    var at: nat

    constructor ()
      ensures at == 0
    {
      at := 0;
    }
  }

  class Desk {
    const anon: Anonymizer
    const find: string -> seq<Hit>
    const digest: seq<Key> -> string
    const render: Key -> string
    var docs: seq<Doc>

    ghost predicate Valid()
      reads anon.vault, anon.detector
    {
      anon.Valid() && IsScanner(find)
    }

    ghost function Entities(): map<Key, Entity>
      reads anon.vault
    {
      Ents(anon.vault.State())
    }

    constructor (anon: Anonymizer, find: string -> seq<Hit>, digest: seq<Key> -> string, render: Key -> string)
      requires anon.Valid() && IsScanner(find)
      ensures Valid() && this.anon == anon && this.find == find && this.digest == digest && this.render == render
      ensures docs == []
    {
      this.anon, this.find, this.digest, this.render, docs := anon, find, digest, render, [];
    }

    /** Resolve one mention; its mark, unless the entity is excluded. */
    method ResolveOne(text: string, s: Mention) returns (mark: seq<Mark>)
      requires Valid() && s.start <= s.end <= |text| && CanAsk(anon.vault.used, text, s)
      modifies anon.vault, anon.detector
      ensures Valid() && anon.vault.State() == After(anon.vault.rules, old(anon.vault.State()), CallFor(text, s))
      ensures mark == MarkFor(anon.vault.rules, render, text, s, old(anon.vault.State()), anon.vault.State())
      ensures Settled(old(Entities()), Entities(), Occurrences(mark))
    {
      ghost var p, r := anon.vault.State(), anon.vault.rules;
      var surface := text[s.start..s.end];
      ResolveSettles(r, anon.vault.used, p, s.category, surface, "auto");
      var k := anon.Resolve(s.category, surface, "auto");
      if anon.vault.cache.value.ents[k].row.excluded { return []; }
      mark := [Mark(s.start, s.end, render(k), k, surface)];
    }

    method ResolveMentions(text: string, spans: seq<Mention>) returns (marks: seq<Mark>, ghost ps: seq<Project>)
      requires Valid() && MentionsOk(text, spans) && MentionsIn(anon.vault.used, text, spans)
      modifies anon.vault, anon.detector
      ensures Valid() && Marking(anon.vault.rules, render, text, spans, old(anon.vault.State()), anon.vault.State(), ps, marks)
      ensures Settled(old(Entities()), Entities(), Occurrences(marks))
    {
      marks, ps := [], [anon.vault.State()];
      ghost var start := anon.vault.State();
      for i := 0 to |spans|
        invariant Valid() && Marking(anon.vault.rules, render, text, spans[..i], start, anon.vault.State(), ps, marks)
        invariant Settled(old(Entities()), Entities(), Occurrences(marks))
      {
        ghost var p := anon.vault.State();
        var mark := ResolveOne(text, spans[i]);
        TakeSnoc(spans, i);
        MentionsPrefix(text, spans, i + 1);
        MarkingSnoc(anon.vault.rules, render, text, spans[..i], spans[i], spans[..i + 1], start, p, ps, marks,
                    anon.vault.State(), mark);
        OccurrencesConcat(marks, mark);
        SettledTrans(old(Entities()), Ents(p), Entities(), Occurrences(marks), Occurrences(mark));
        ps, marks := ps + [anon.vault.State()], marks + mark;
      }
      assert spans[..|spans|] == spans;
    }

    /** The unit with labels, and the run state with this unit's occurrences added. */
    method AnonymizeUnit(text: string, spans: seq<Mention>, st: RunState) returns (marks: seq<Mark>, ghost ps: seq<Project>)
      requires Valid() && MentionsOk(text, spans) && MentionsIn(anon.vault.used, text, spans) && st.Valid()
      modifies anon.vault, anon.detector, st
      ensures Valid() && Marking(anon.vault.rules, render, text, spans, old(anon.vault.State()), anon.vault.State(), ps, marks)
      ensures st.Valid() && st.occurrences == old(st.occurrences) + Occurrences(marks) && st.unknown == old(st.unknown)
      ensures MarksOk(text, marks) && st.unitsOut == old(st.unitsOut) + [OutOf(text, marks)]
      ensures Settled(old(Entities()), Entities(), Occurrences(marks))
      ensures Labelled(anon.vault.rules, render, Entities(), text, spans, marks) && Stays(old(Entities()), Entities())
    {
      MentionsMean(anon.vault.rules, anon.vault.used, render, text, spans, anon.vault.State());
      marks, ps := ResolveMentions(text, spans);
      UnitReady(anon.vault.rules, render, text, spans, old(anon.vault.State()), anon.vault.State(), ps, marks);
      marks := Sort(marks, ByPlace);
      Emit(text, marks, st);
    }

    /** All units of a document, and its record. */
    method AnonymizeFile(texts: seq<string>, spans: seq<seq<Mention>>) returns (outs: seq<string>, ghost units: seq<Unit>)
      requires Valid() && |spans| == |texts|
      requires forall i | 0 <= i < |texts| :: MentionsOk(texts[i], spans[i]) && MentionsIn(anon.vault.used, texts[i], spans[i])
      modifies anon.vault, anon.detector, this`docs
      ensures Valid() && Processed(units, texts, AllOccurrences(units), outs)
      ensures docs == old(docs) + [Doc(true, Some(digest(KeysOf(AllOccurrences(units)))), Some(AllOccurrences(units)))]
      ensures old(Entities().Keys) <= Entities().Keys && forall k | k in KeysOf(AllOccurrences(units)) :: k in Entities()
      ensures Counted(old(Entities()), Entities(), AllOccurrences(units))
      ensures AllLabelled(anon.vault.rules, render, Entities(), spans, units) && Stays(old(Entities()), Entities())
    {
      var st := new RunState();
      units := AnonymizeUnits(texts, spans, st);
      outs := st.unitsOut;
      ghost var settled := Entities();
      BumpAll(anon, st.counts);
      CountedAfter(old(Entities()), settled, Entities(), st.occurrences, st.counts);
      BumpedStays(settled, Entities(), st.counts);
      AllLabelledStays(anon.vault.rules, render, settled, Entities(), spans, units);
      docs := docs + [Doc(true, Some(digest(KeysOf(st.occurrences))), Some(st.occurrences))];
    }

    /** Replace every known label; `cursor` runs over the recorded occurrences of the whole document. */
    method RestoreUnit(text: string, st: RunState, exact: Option<seq<Occurrence>>, cursor: Cursor)
      returns (reps: seq<Replacement<char>>)
      requires Valid()
      modifies anon.vault`cache, st`unitsOut, st`unknown, cursor
      ensures Valid() && Entities() == old(Entities())
      ensures reps == RestoreReps(find(text), Entities(), exact, old(cursor.at))
      ensures cursor.at == CursorAfter(find(text), Entities(), exact, old(cursor.at))
      ensures st.unknown == old(st.unknown) + UnknownOf(find(text), Entities())
      ensures st.unitsOut == old(st.unitsOut) + [text]
      ensures reps == PutBack(find(text), Entities(), exact, old(cursor.at))
      ensures SamePlace(exact, cursor.at, old(cursor.at) + |Resolving(find(text), Entities())|)
    {
      RepsPutBack(find(text), Entities(), exact, cursor.at, cursor.at);
      reps := ReplaceLabels(text, st, exact, cursor);
    }

    method ReplaceLabels(text: string, st: RunState, exact: Option<seq<Occurrence>>, cursor: Cursor)
      returns (reps: seq<Replacement<char>>)
      requires Valid()
      modifies anon.vault`cache, st`unitsOut, st`unknown, cursor
      ensures Valid() && Entities() == old(Entities())
      ensures reps == RestoreReps(find(text), Entities(), exact, old(cursor.at))
      ensures cursor.at == CursorAfter(find(text), Entities(), exact, old(cursor.at))
      ensures st.unknown == old(st.unknown) + UnknownOf(find(text), Entities())
      ensures st.unitsOut == old(st.unitsOut) + [text]
    {
      st.unitsOut := st.unitsOut + [text];
      var hits := find(text);
      reps := [];
      ghost var ents, was, rest, unknown := Entities(), st.unknown, hits, [];
      RestoringNone(hits, ents, exact, cursor.at);
      for i := 0 to |hits|
        invariant Valid() && Entities() == ents && st.unitsOut == old(st.unitsOut) + [text]
        invariant rest == hits[i..] && st.unknown == was + unknown
        invariant Restoring(hits, rest, ents, exact, old(cursor.at), reps, cursor.at, unknown)
      {
        RestoringStep(hits, rest, ents, exact, old(cursor.at), reps, cursor.at, unknown);
        DropTail(hits, i);
        var rep := RestoreHit(hits[i], st, exact, cursor);
        reps, rest, unknown := reps + rep, rest[1..], unknown + if hits[i].key in ents then [] else [hits[i]];
      }
    }

    method RestoreHit(h: Hit, st: RunState, exact: Option<seq<Occurrence>>, cursor: Cursor)
      returns (rep: seq<Replacement<char>>)
      requires Valid()
      modifies anon.vault`cache, st`unknown, cursor
      ensures Valid() && Entities() == old(Entities())
      ensures rep == RepFor(h, Entities(), exact, old(cursor.at))
      ensures cursor.at == if h.key in Entities() then Advance(exact, old(cursor.at)) else old(cursor.at)
      ensures st.unknown == old(st.unknown) + if h.key in Entities() then [] else [h]
    {
      var e := LookUp(h.key);
      if e.None? {
        st.unknown := st.unknown + [h];
        return [];
      }
      var value := e.value.row.value;
      if exact.Some? && cursor.at < |exact.value| {
        var o := exact.value[cursor.at];
        if o.key == h.key { value := o.surface; }
        cursor.at := cursor.at + 1;
      }
      rep := [Replacement(h.start, h.end, value)];
    }

    method LookUp(k: Key) returns (e: Option<Entity>)
      requires Valid()
      modifies anon.vault`cache
      ensures Valid() && Entities() == old(Entities())
      ensures e == if k in Entities() then Some(Entities()[k]) else None
    {
      e := anon.vault.EntityOf(k);
    }

    /** All units of a document, with one cursor across them. */
    method RestoreFile(texts: seq<string>) returns (outs: seq<string>)
      requires Valid()
      modifies anon.vault`cache, this`docs
      ensures Valid() && Entities() == old(Entities()) && docs == old(docs) + [Doc(false, None, None)]
      ensures outs == RestoreAll(find, Entities(), ExactMap(find, digest, old(docs), texts), texts, 0)
      ensures AllReadBack(find, Entities(), ExactMap(find, digest, old(docs), texts), texts, outs)
    {
      RestoredReadsBack(find, Entities(), ExactMap(find, digest, docs, texts), texts);
      var exact := ExactMap(find, digest, docs, texts);
      outs := RestoreUnits(texts, exact);
      docs := docs + [Doc(false, None, None)];
    }

    method RestoreOne(text: string, st: RunState, exact: Option<seq<Occurrence>>, cursor: Cursor) returns (out: string)
      requires Valid()
      modifies anon.vault`cache, st`unitsOut, st`unknown, cursor
      ensures Valid() && Entities() == old(Entities())
      ensures out == RestoreText(find, Entities(), exact, text, old(cursor.at))
      ensures cursor.at == CursorAfter(find(text), Entities(), exact, old(cursor.at))
    {
      RestoredText(find, Entities(), exact, text, cursor.at);
      var reps := RestoreUnit(text, st, exact, cursor);
      out := ApplyReplacements(text, reps);
    }

    method RestoreUnits(texts: seq<string>, exact: Option<seq<Occurrence>>) returns (outs: seq<string>)
      requires Valid()
      modifies anon.vault`cache
      ensures Valid() && Entities() == old(Entities())
      ensures outs == RestoreAll(find, Entities(), exact, texts, 0)
    {
      var st := new RunState();
      var cursor := new Cursor();
      outs := [];
      ghost var ents, rest := Entities(), texts;
      for i := 0 to |texts|
        invariant Valid() && Entities() == ents
        invariant rest == texts[i..] && Restored(find, ents, exact, texts, rest, outs, cursor.at)
      {
        DropTail(texts, i);
        RestoredStep(find, ents, exact, texts, rest, outs, cursor.at);
        var out := RestoreOne(texts[i], st, exact, cursor);
        outs, rest := outs + [out], rest[1..];
      }
    }

    method AnonymizeUnits(texts: seq<string>, spans: seq<seq<Mention>>, st: RunState) returns (ghost units: seq<Unit>)
      requires Valid() && |spans| == |texts|
      requires forall i | 0 <= i < |texts| :: MentionsOk(texts[i], spans[i]) && MentionsIn(anon.vault.used, texts[i], spans[i])
      requires st.Valid() && st.occurrences == [] && st.unitsOut == []
      modifies anon.vault, anon.detector, st
      ensures Valid() && st.Valid() && Processed(units, texts, st.occurrences, st.unitsOut)
      ensures Settled(old(Entities()), Entities(), st.occurrences)
      ensures AllLabelled(anon.vault.rules, render, Entities(), spans, units) && Stays(old(Entities()), Entities())
    {
      units := [];
      ghost var r, start := anon.vault.rules, Entities();
      for i := 0 to |texts|
        invariant Valid() && st.Valid()
        invariant UnitsDone(r, render, start, Entities(), texts[..i], spans[..i], units, st.occurrences, st.unitsOut)
      {
        ghost var ents, occ, outs := Entities(), st.occurrences, st.unitsOut;
        var marks, ps := AnonymizeUnit(texts[i], spans[i], st);
        TakeSnoc(texts, i);
        TakeSnoc(spans, i);
        UnitDone(r, render, start, ents, Entities(), texts[..i], spans[..i], units, occ, outs, Unit(texts[i], marks), spans[i]);
        units := units + [Unit(texts[i], marks)];
      }
      assert texts[..|texts|] == texts && spans[..|spans|] == spans;
    }
  }

  /** Everything that holds when some units of a document are done. */
  ghost predicate UnitsDone(r: Rules, render: Key -> string, start: map<Key, Entity>, ents: map<Key, Entity>,
                            texts: seq<string>, spans: seq<seq<Mention>>, units: seq<Unit>, occ: seq<Occurrence>,
                            outs: seq<string>)
  {
    && Processed(units, texts, occ, outs) && Settled(start, ents, occ)
    && AllLabelled(r, render, ents, spans, units) && Stays(start, ents)
  }

  lemma UnitDone(r: Rules, render: Key -> string, start: map<Key, Entity>, was: map<Key, Entity>, now: map<Key, Entity>,
                 texts: seq<string>, spans: seq<seq<Mention>>, units: seq<Unit>, occ: seq<Occurrence>,
                 outs: seq<string>, u: Unit, mentions: seq<Mention>)
    requires UnitsDone(r, render, start, was, texts, spans, units, occ, outs) && MarksOk(u.text, u.marks)
    requires Settled(was, now, Occurrences(u.marks)) && Stays(was, now)
    requires Labelled(r, render, now, u.text, mentions, u.marks)
    ensures UnitsDone(r, render, start, now, texts + [u.text], spans + [mentions], units + [u],
                      occ + Occurrences(u.marks), outs + [OutOf(u.text, u.marks)])
  {
    ProcessedSnoc(units, texts, occ, outs, u, texts + [u.text]);
    SettledTrans(start, was, now, occ, Occurrences(u.marks));
    AllLabelledStays(r, render, was, now, spans, units);
    StaysTrans(start, was, now);
  }

  /** The units of a document so far, what they recorded, and what they became. */
  ghost predicate Processed(units: seq<Unit>, texts: seq<string>, occ: seq<Occurrence>, outs: seq<string>) {
    AllOk(units) && Texts(units) == texts && occ == AllOccurrences(units) && outs == Outs(units)
  }

  lemma {:induction false} ProcessedSnoc(units: seq<Unit>, texts: seq<string>, occ: seq<Occurrence>, outs: seq<string>,
                                         u: Unit, all: seq<string>)
    requires Processed(units, texts, occ, outs) && MarksOk(u.text, u.marks) && all == texts + [u.text]
    ensures Processed(units + [u], all, occ + Occurrences(u.marks), outs + [OutOf(u.text, u.marks)])
    decreases |units|
  {
    if units == [] {
      assert [u][1..] == [] && [] + Occurrences(u.marks) == Occurrences(u.marks) + [];
    } else {
      assert (units + [u])[0] == units[0] && (units + [u])[1..] == units[1..] + [u];
      ProcessedSnoc(units[1..], Texts(units[1..]), AllOccurrences(units[1..]), Outs(units[1..]), u,
                    Texts(units[1..]) + [u.text]);
      Associate([units[0].text], Texts(units[1..]), [u.text]);
      Associate(Occurrences(units[0].marks), AllOccurrences(units[1..]), Occurrences(u.marks));
      Associate([OutOf(units[0].text, units[0].marks)], Outs(units[1..]), [OutOf(u.text, u.marks)]);
    }
  }

  /** A document comes back. `units` and `outs` are what anonymizing left, with its record behind the earlier
      ones; then come any calls without deletions, and documents with other labels. What restoring `outs` gives
      is the original texts, if the label scanner finds exactly the inserted labels. */
  lemma DocumentComesBack(r: Rules, used: iset<Spelling>, ps: seq<Project>, calls: seq<Call>, find: string -> seq<Hit>,
                          digest: seq<Key> -> string, docs: seq<Doc>, later: seq<Doc>, units: seq<Unit>,
                          texts: seq<string>, outs: seq<string>)
    requires Processed(units, texts, AllOccurrences(units), outs) && IsScanner(find) && AllFound(find, units)
    requires Steps(r, ps, calls) && Inv(r, used, ps[0]) && RulesOk(r, used) && CallsIn(r, used, calls) && DeletionFree(calls)
    requires forall k | k in KeysOf(AllOccurrences(units)) :: k in Ents(ps[0])
    requires forall doc | doc in later :: !doc.anon || doc.digest != Some(digest(KeysOf(AllOccurrences(units))))
    ensures var record := Doc(true, Some(digest(KeysOf(AllOccurrences(units)))), Some(AllOccurrences(units)));
            RestoreAll(find, Ents(ps[|calls|]), ExactMap(find, digest, docs + [record] + later, outs), outs, 0) == texts
  {
    var occ := AllOccurrences(units);
    StepsKeep(r, used, ps, calls, 0, |calls|);
    RecordedIsLatest(docs, later, digest(KeysOf(occ)), occ);
    RestoresOriginal(find, digest, docs + [Doc(true, Some(digest(KeysOf(occ))), Some(occ))] + later, units,
                     Ents(ps[|calls|]));
  }

  method Emit(text: string, marks: seq<Mark>, st: RunState)
    requires MarksOk(text, marks) && st.Valid()
    requires Splicing.Disjoint(|text|, Reps(marks)) && Sort(Reps(marks), ByStart) == Reps(marks)
    modifies st
    ensures st.Valid() && st.occurrences == old(st.occurrences) + Occurrences(marks) && st.unknown == old(st.unknown)
    ensures st.unitsOut == old(st.unitsOut) + [OutOf(text, marks)]
  {
    st.Add(marks);
    var out := ApplyReplacements(text, Reps(marks));
    st.AddUnit(out);
  }

  /** The marks of a unit, and the states from `p` to `q` in which they were made. */
  ghost predicate Marking(r: Rules, render: Key -> string, text: string, spans: seq<Mention>, p: Project, q: Project,
                          ps: seq<Project>, marks: seq<Mark>)
  {
    && MentionsOk(text, spans) && Resolves(r, text, spans, ps) && ps[0] == p && ps[|spans|] == q
    && marks == MarksFor(r, render, text, spans, ps)
  }

  lemma MentionsPrefix(text: string, spans: seq<Mention>, n: nat)
    requires MentionsOk(text, spans) && n <= |spans|
    ensures MentionsOk(text, spans[..n])
  {
  }

  lemma MarkingSnoc(r: Rules, render: Key -> string, text: string, spans: seq<Mention>, s: Mention, all: seq<Mention>,
                    start: Project, p: Project, ps: seq<Project>, marks: seq<Mark>, q: Project, mark: seq<Mark>)
    requires MentionsOk(text, all) && all == spans + [s] && Marking(r, render, text, spans, start, p, ps, marks)
    requires s.start <= s.end <= |text| && q == After(r, p, CallFor(text, s)) && mark == MarkFor(r, render, text, s, p, q)
    ensures Marking(r, render, text, all, start, q, ps + [q], marks + mark)
  {
    MarksSnoc(r, render, text, spans, s, ps, q, all);
  }

  lemma UnitReady(r: Rules, render: Key -> string, text: string, spans: seq<Mention>, p: Project, q: Project,
                  ps: seq<Project>, marks: seq<Mark>)
    requires Marking(r, render, text, spans, p, q, ps, marks)
    ensures MarksOk(text, marks) && Sort(marks, ByPlace) == marks
    ensures Splicing.Disjoint(|text|, Reps(marks)) && Sort(Reps(marks), ByStart) == Reps(marks)
  {
    MarksLined(r, render, text, spans, ps);
    var upto := if spans == [] then 0 else spans[|spans| - 1].end;
    LinedIsOk(text, marks, upto);
    LinedAscends(text, marks, upto);
    AscendingIsSorted(|text|, Reps(marks));
    SortOfSorted(marks, ByPlace);
  }

  predicate ByPlace(a: Mark, b: Mark) { a.start <= b.start }

  lemma MarksSnoc(r: Rules, render: Key -> string, text: string, spans: seq<Mention>, s: Mention, ps: seq<Project>,
                  q: Project, all: seq<Mention>)
    requires all == spans + [s] && MentionsOk(text, all) && MentionsOk(text, spans) && Resolves(r, text, spans, ps)
    requires s.start <= s.end <= |text| && q == After(r, ps[|spans|], CallFor(text, s))
    ensures Resolves(r, text, all, ps + [q])
    ensures MarksFor(r, render, text, all, ps + [q])
         == MarksFor(r, render, text, spans, ps) + MarkFor(r, render, text, s, ps[|spans|], q)
  {
    ResolvesSnoc(r, text, spans, s, ps, q, all);
    var n := |spans|;
    assert all[..n] == spans && (ps + [q])[..n + 1] == ps;
  }

  lemma ResolvesSnoc(r: Rules, text: string, spans: seq<Mention>, s: Mention, ps: seq<Project>, q: Project, all: seq<Mention>)
    requires all == spans + [s] && MentionsOk(text, all) && MentionsOk(text, spans) && Resolves(r, text, spans, ps)
    requires s.start <= s.end <= |text| && q == After(r, ps[|spans|], CallFor(text, s))
    ensures Resolves(r, text, all, ps + [q])
  {
  }

  // ---- restoring ---------------------------------------------------------------------

  function UnknownOf(hits: seq<Hit>, ents: map<Key, Entity>): seq<Hit> {
    if hits == [] then []
    else (if hits[0].key in ents then [] else [hits[0]]) + UnknownOf(hits[1..], ents)
  }

  lemma {:induction false} UnknownSpec(hits: seq<Hit>, ents: map<Key, Entity>)
    ensures forall h :: h in UnknownOf(hits, ents) <==> h in hits && h.key !in ents
    ensures |UnknownOf(hits, ents)| + |Resolving(hits, ents)| == |hits|
  {
    if hits != [] {
      UnknownSpec(hits[1..], ents);
      assert hits == [hits[0]] + hits[1..];
    }
  }

  /** What one label contributes. */
  function RepFor(h: Hit, ents: map<Key, Entity>, exact: Option<seq<Occurrence>>, at: nat): seq<Replacement<char>> {
    if h.key in ents then [Replacement(h.start, h.end, ValueFor(h, ents[h.key], exact, at))] else []
  }

  /** The hits before `rest` are done. */
  ghost predicate Restoring(hits: seq<Hit>, rest: seq<Hit>, ents: map<Key, Entity>, exact: Option<seq<Occurrence>>,
                            start: nat, reps: seq<Replacement<char>>, at: nat, unknown: seq<Hit>)
  {
    && RestoreReps(hits, ents, exact, start) == reps + RestoreReps(rest, ents, exact, at)
    && CursorAfter(hits, ents, exact, start) == CursorAfter(rest, ents, exact, at)
    && UnknownOf(hits, ents) == unknown + UnknownOf(rest, ents)
  }

  lemma RestoringNone(hits: seq<Hit>, ents: map<Key, Entity>, exact: Option<seq<Occurrence>>, start: nat)
    ensures Restoring(hits, hits, ents, exact, start, [], start, [])
  {
  }

  lemma RestoringStep(hits: seq<Hit>, rest: seq<Hit>, ents: map<Key, Entity>, exact: Option<seq<Occurrence>>,
                      start: nat, reps: seq<Replacement<char>>, at: nat, unknown: seq<Hit>)
    requires rest != [] && Restoring(hits, rest, ents, exact, start, reps, at, unknown)
    ensures var h := rest[0];
            Restoring(hits, rest[1..], ents, exact, start, reps + RepFor(h, ents, exact, at),
                      if h.key in ents then Advance(exact, at) else at, unknown + if h.key in ents then [] else [h])
  {
    assert reps + [] == reps && unknown + [] == unknown;
  }

  /** The units before `rest` are done. */
  ghost predicate Restored(find: string -> seq<Hit>, ents: map<Key, Entity>, exact: Option<seq<Occurrence>>,
                           texts: seq<string>, rest: seq<string>, outs: seq<string>, at: nat)
    requires IsScanner(find)
  {
    RestoreAll(find, ents, exact, texts, 0) == outs + RestoreAll(find, ents, exact, rest, at)
  }

  lemma RestoredStep(find: string -> seq<Hit>, ents: map<Key, Entity>, exact: Option<seq<Occurrence>>,
                     texts: seq<string>, rest: seq<string>, outs: seq<string>, at: nat)
    requires IsScanner(find) && rest != [] && Restored(find, ents, exact, texts, rest, outs, at)
    ensures Restored(find, ents, exact, texts, rest[1..], outs + [RestoreText(find, ents, exact, rest[0], at)],
                     CursorAfter(find(rest[0]), ents, exact, at))
  {
  }

  lemma {:induction false} RestoreInside(n: nat, from: nat, hits: seq<Hit>, ents: map<Key, Entity>,
                                         exact: Option<seq<Occurrence>>, cursor: nat)
    requires InOrder(n, from, hits)
    ensures forall x | x in RestoreReps(hits, ents, exact, cursor) :: from <= x.start < x.end <= n
    decreases |hits|
  {
    if hits != [] {
      RestoreInside(n, hits[0].end, hits[1..], ents, exact,
                    if hits[0].key in ents then Advance(exact, cursor) else cursor);
    }
  }

  lemma {:induction false} RestoreAscends(n: nat, from: nat, hits: seq<Hit>, ents: map<Key, Entity>,
                                          exact: Option<seq<Occurrence>>, cursor: nat)
    requires InOrder(n, from, hits)
    ensures Ascending(n, RestoreReps(hits, ents, exact, cursor))
    decreases |hits|
  {
    if hits != [] {
      var next := if hits[0].key in ents then Advance(exact, cursor) else cursor;
      RestoreAscends(n, hits[0].end, hits[1..], ents, exact, next);
      RestoreInside(n, hits[0].end, hits[1..], ents, exact, next);
      if hits[0].key in ents {
        assert RestoreReps(hits, ents, exact, cursor)[1..] == RestoreReps(hits[1..], ents, exact, next);
      }
    }
  }

  lemma RestoredText(find: string -> seq<Hit>, ents: map<Key, Entity>, exact: Option<seq<Occurrence>>, text: string, cursor: nat)
    requires IsScanner(find)
    ensures var reps := RestoreReps(find(text), ents, exact, cursor);
            && Splicing.Disjoint(|text|, reps) && Sort(reps, ByStart) == reps && Ordered(|text|, 0, reps)
            && RestoreText(find, ents, exact, text, cursor) == Splice(text, 0, reps)
  {
    RestoreAscends(|text|, 0, find(text), ents, exact, cursor);
    AscendingIsSorted(|text|, RestoreReps(find(text), ents, exact, cursor));
    RestoreOrdered(|text|, 0, find(text), ents, exact, cursor);
  }
}
