/** What every label of a restored document becomes. */
module RestoredLabels {
  // `restore_unit` under the file driver (app/desktop/engine.py, app/desktop/pipeline.py), said label by label

  import opened Entities
  import opened Labels
  import opened Splicing
  import opened Documents

  /** The labels that stand for an entity, in text order. */
  function Resolving(hits: seq<Hit>, ents: map<Key, Entity>): seq<Hit> {
    if hits == [] then [] else (if hits[0].key in ents then [hits[0]] else []) + Resolving(hits[1..], ents)
  }

  lemma {:induction false} ResolvingSpec(hits: seq<Hit>, ents: map<Key, Entity>)
    ensures forall h :: h in Resolving(hits, ents) <==> h in hits && h.key in ents
  {
    if hits != [] {
      ResolvingSpec(hits[1..], ents);
      assert hits == [hits[0]] + hits[1..];
    }
  }

  /** The record has this label at this place. */
  predicate RecordNames(exact: Option<seq<Occurrence>>, at: nat, k: Key) {
    exact.Some? && at < |exact.value| && exact.value[at].key == k
  }

  /** The spelling that the record has at this place, if it has the label there, or the canonical value. */
  function SpellingAt(exact: Option<seq<Occurrence>>, at: nat, k: Key, e: Entity): string {
    if RecordNames(exact, at, k) then exact.value[at].surface else e.row.value
  }

  /** A replacement for every label that stands for an entity; the first one is number `at` of the document. */
  function PutBack(hits: seq<Hit>, ents: map<Key, Entity>, exact: Option<seq<Occurrence>>, at: nat)
    : (r: seq<Replacement<char>>)
    ensures |r| == |Resolving(hits, ents)|
  {
    var known := Resolving(hits, ents);
    ResolvingSpec(hits, ents);
    seq(|known|, j requires 0 <= j < |known| =>
      Replacement(known[j].start, known[j].end, SpellingAt(exact, at + j, known[j].key, ents[known[j].key])))
  }

  /** `out` is the text with those replacements, and nothing else changed. */
  ghost predicate ReadsBack(find: string -> seq<Hit>, ents: map<Key, Entity>, exact: Option<seq<Occurrence>>,
                            at: nat, text: string, out: string)
  {
    var reps := PutBack(find(text), ents, exact, at);
    Ordered(|text|, 0, reps) && out == Splice(text, 0, reps)
  }

  /** How many labels of the first `n` texts stand for an entity. */
  function LabelsBefore(find: string -> seq<Hit>, ents: map<Key, Entity>, texts: seq<string>, n: nat): nat
    requires n <= |texts|
  {
    if n == 0 then 0 else LabelsBefore(find, ents, texts, n - 1) + |Resolving(find(texts[n - 1]), ents)|
  }

  /** Every text with its labels replaced; the labels are counted across all texts. */
  ghost predicate AllReadBack(find: string -> seq<Hit>, ents: map<Key, Entity>, exact: Option<seq<Occurrence>>,
                              texts: seq<string>, outs: seq<string>)
  {
    |outs| == |texts| && forall i | 0 <= i < |texts| ::
      ReadsBack(find, ents, exact, LabelsBefore(find, ents, texts, i), texts[i], outs[i])
  }

  /** The cursor is as good as a count of labels: beyond the record both say the canonical value. */
  predicate SamePlace(exact: Option<seq<Occurrence>>, cursor: nat, at: nat) {
    exact.Some? ==> cursor == at || (cursor >= |exact.value| && at >= |exact.value|)
  }

  lemma {:induction false} RepsPutBack(hits: seq<Hit>, ents: map<Key, Entity>, exact: Option<seq<Occurrence>>,
                                       cursor: nat, at: nat)
    requires SamePlace(exact, cursor, at)
    ensures RestoreReps(hits, ents, exact, cursor) == PutBack(hits, ents, exact, at)
    ensures SamePlace(exact, CursorAfter(hits, ents, exact, cursor), at + |Resolving(hits, ents)|)
    decreases |hits|
  {
    if hits != [] {
      if hits[0].key in ents {
        RepsPutBack(hits[1..], ents, exact, Advance(exact, cursor), at + 1);
        PutBackCons(hits, ents, exact, at);
      } else {
        RepsPutBack(hits[1..], ents, exact, cursor, at);
        assert [] + Resolving(hits[1..], ents) == Resolving(hits[1..], ents);
      }
    }
  }

  lemma PutBackCons(hits: seq<Hit>, ents: map<Key, Entity>, exact: Option<seq<Occurrence>>, at: nat)
    requires hits != [] && hits[0].key in ents
    ensures var h := hits[0];
            PutBack(hits, ents, exact, at)
            == [Replacement(h.start, h.end, SpellingAt(exact, at, h.key, ents[h.key]))] + PutBack(hits[1..], ents, exact, at + 1)
  {
    assert Resolving(hits, ents) == [hits[0]] + Resolving(hits[1..], ents);
  }

  lemma TextReadsBack(find: string -> seq<Hit>, ents: map<Key, Entity>, exact: Option<seq<Occurrence>>, text: string,
                      cursor: nat, at: nat)
    requires IsScanner(find) && SamePlace(exact, cursor, at)
    ensures ReadsBack(find, ents, exact, at, text, RestoreText(find, ents, exact, text, cursor))
    ensures SamePlace(exact, CursorAfter(find(text), ents, exact, cursor), at + |Resolving(find(text), ents)|)
  {
    RepsPutBack(find(text), ents, exact, cursor, at);
    RestoreOrdered(|text|, 0, find(text), ents, exact, cursor);
  }

  /** The cursor before text `n`. */
  function CursorAt(find: string -> seq<Hit>, ents: map<Key, Entity>, exact: Option<seq<Occurrence>>,
                    texts: seq<string>, cursor: nat, n: nat): nat
    requires n <= |texts|
  {
    if n == 0 then cursor else CursorAfter(find(texts[n - 1]), ents, exact, CursorAt(find, ents, exact, texts, cursor, n - 1))
  }

  lemma {:induction false} CursorBehindFirst(find: string -> seq<Hit>, ents: map<Key, Entity>,
                                             exact: Option<seq<Occurrence>>, texts: seq<string>, cursor: nat, n: nat)
    requires 0 < n <= |texts|
    ensures CursorAt(find, ents, exact, texts, cursor, n)
         == CursorAt(find, ents, exact, texts[1..], CursorAfter(find(texts[0]), ents, exact, cursor), n - 1)
  {
    if n > 1 { CursorBehindFirst(find, ents, exact, texts, cursor, n - 1); }
  }

  lemma {:induction false} RestoreAllAt(find: string -> seq<Hit>, ents: map<Key, Entity>, exact: Option<seq<Occurrence>>,
                                        texts: seq<string>, cursor: nat, i: nat)
    requires IsScanner(find) && i < |texts|
    ensures |RestoreAll(find, ents, exact, texts, cursor)| == |texts|
    ensures RestoreAll(find, ents, exact, texts, cursor)[i]
         == RestoreText(find, ents, exact, texts[i], CursorAt(find, ents, exact, texts, cursor, i))
    decreases |texts|
  {
    var next := CursorAfter(find(texts[0]), ents, exact, cursor);
    RestoreLength(find, ents, exact, texts, cursor);
    if i > 0 {
      RestoreAllAt(find, ents, exact, texts[1..], next, i - 1);
      CursorBehindFirst(find, ents, exact, texts, cursor, i);
    }
  }

  lemma {:induction false} RestoreLength(find: string -> seq<Hit>, ents: map<Key, Entity>, exact: Option<seq<Occurrence>>,
                                         texts: seq<string>, cursor: nat)
    requires IsScanner(find)
    ensures |RestoreAll(find, ents, exact, texts, cursor)| == |texts|
    decreases |texts|
  {
    if texts != [] {
      RestoreLength(find, ents, exact, texts[1..], CursorAfter(find(texts[0]), ents, exact, cursor));
    }
  }

  lemma {:induction false} CursorCountsLabels(find: string -> seq<Hit>, ents: map<Key, Entity>,
                                              exact: Option<seq<Occurrence>>, texts: seq<string>, n: nat)
    requires n <= |texts|
    ensures SamePlace(exact, CursorAt(find, ents, exact, texts, 0, n), LabelsBefore(find, ents, texts, n))
  {
    if n > 0 {
      CursorCountsLabels(find, ents, exact, texts, n - 1);
      RepsPutBack(find(texts[n - 1]), ents, exact, CursorAt(find, ents, exact, texts, 0, n - 1),
                  LabelsBefore(find, ents, texts, n - 1));
    }
  }

  /** Restoring gives every label that stands for an entity the recorded spelling where the record names the
      same label, and the canonical value everywhere else: without a record, behind its end, and where it names
      another label. */
  lemma RestoredReadsBack(find: string -> seq<Hit>, ents: map<Key, Entity>, exact: Option<seq<Occurrence>>,
                          texts: seq<string>)
    requires IsScanner(find)
    ensures AllReadBack(find, ents, exact, texts, RestoreAll(find, ents, exact, texts, 0))
  {
    var outs := RestoreAll(find, ents, exact, texts, 0);
    RestoreLength(find, ents, exact, texts, 0);
    forall i | 0 <= i < |texts|
      ensures ReadsBack(find, ents, exact, LabelsBefore(find, ents, texts, i), texts[i], outs[i])
    {
      RestoreAllAt(find, ents, exact, texts, 0, i);
      CursorCountsLabels(find, ents, exact, texts, i);
      TextReadsBack(find, ents, exact, texts[i], CursorAt(find, ents, exact, texts, 0, i), LabelsBefore(find, ents, texts, i));
    }
  }

  // ---- without a record --------------------------------------------------------------

  /** The canonical values of the marked entities. */
  function CanonicalOf(marks: seq<Mark>, ents: map<Key, Entity>): (r: seq<string>)
    requires forall m | m in marks :: m.key in ents
    ensures |r| == |marks| && forall i | 0 <= i < |marks| :: r[i] == ents[marks[i].key].row.value
  {
    seq(|marks|, i requires 0 <= i < |marks| => ents[marks[i].key].row.value)
  }

  lemma {:induction false} HitsAt(n: nat, from: nat, marks: seq<Mark>, off: nat)
    requires Ordered(n, from, Reps(marks))
    ensures |HitsOf(from, marks, off)| == |marks|
    ensures forall i | 0 <= i < |marks| :: HitsOf(from, marks, off)[i].key == marks[i].key
    decreases |marks|
  {
    if marks != [] {
      assert Reps(marks)[1..] == Reps(marks[1..]);
      HitsAt(n, marks[0].end, marks[1..], off + (marks[0].start - from) + |marks[0].tag|);
    }
  }

  lemma {:induction false} ValuesWithoutRecord(hits: seq<Hit>, ents: map<Key, Entity>, cursor: nat)
    requires forall h | h in hits :: h.key in ents
    ensures |ValuesFor(hits, ents, None, cursor)| == |hits|
    ensures forall i | 0 <= i < |hits| :: ValuesFor(hits, ents, None, cursor)[i] == ents[hits[i].key].row.value
  {
    if hits != [] { ValuesWithoutRecord(hits[1..], ents, cursor); }
  }

  /** One anonymized unit without a record comes back in the canonical values. */
  lemma UnitWithoutRecord(find: string -> seq<Hit>, u: Unit, ents: map<Key, Entity>)
    requires IsScanner(find) && FindsInserted(find, u) && forall m | m in u.marks :: m.key in ents
    ensures var values := CanonicalOf(u.marks, ents);
            && Ordered(|u.text|, 0, Respelled(u.marks, values))
            && RestoreText(find, ents, None, OutOf(u.text, u.marks), 0) == Splice(u.text, 0, Respelled(u.marks, values))
            && CursorAfter(find(OutOf(u.text, u.marks)), ents, None, 0) == 0
  {
    var out := OutOf(u.text, u.marks);
    var hits := find(out);
    HitsAt(|u.text|, 0, u.marks, 0);
    forall h | h in hits ensures h.key in ents {
      var i :| 0 <= i < |hits| && hits[i] == h;
      assert u.marks[i] in u.marks;
    }
    ValuesWithoutRecord(hits, ents, 0);
    RestoreIsOver(hits, ents, None, 0);
    assert ValuesFor(hits, ents, None, 0) == CanonicalOf(u.marks, ents);
    SpliceOver(u.text, 0, u.marks, CanonicalOf(u.marks, ents), "");
    assert "" + out == out;
    NoRecordNoCursor(hits, ents, 0);
  }

  lemma {:induction false} NoRecordNoCursor(hits: seq<Hit>, ents: map<Key, Entity>, cursor: nat)
    ensures CursorAfter(hits, ents, None, cursor) == cursor
  {
    if hits != [] { NoRecordNoCursor(hits[1..], ents, cursor); }
  }

  /** The unit's text with the canonical values in place of the marked spellings. */
  ghost predicate IsCanonical(u: Unit, ents: map<Key, Entity>, out: string) {
    && (forall m | m in u.marks :: m.key in ents)
    && Ordered(|u.text|, 0, Respelled(u.marks, CanonicalOf(u.marks, ents)))
    && out == Splice(u.text, 0, Respelled(u.marks, CanonicalOf(u.marks, ents)))
  }

  /** An anonymized document without a record comes back in the canonical values. */
  lemma {:induction false} WithoutRecord(find: string -> seq<Hit>, units: seq<Unit>, ents: map<Key, Entity>)
    requires IsScanner(find) && AllFound(find, units) && AllOk(units)
    requires forall u | u in units :: forall m | m in u.marks :: m.key in ents
    ensures |RestoreAll(find, ents, None, Outs(units), 0)| == |units|
    ensures forall i | 0 <= i < |units| :: IsCanonical(units[i], ents, RestoreAll(find, ents, None, Outs(units), 0)[i])
    decreases |units|
  {
    if units != [] {
      var u, rest := units[0], units[1..];
      UnitWithoutRecord(find, u, ents);
      WithoutRecord(find, rest, ents);
      FirstWithoutRecord(find, units, ents);
      var all, later := RestoreAll(find, ents, None, Outs(units), 0), RestoreAll(find, ents, None, Outs(rest), 0);
      forall i | 0 <= i < |units| ensures IsCanonical(units[i], ents, all[i]) {
        if i > 0 { assert IsCanonical(rest[i - 1], ents, later[i - 1]) && all[i] == later[i - 1]; }
      }
    }
  }

  lemma FirstWithoutRecord(find: string -> seq<Hit>, units: seq<Unit>, ents: map<Key, Entity>)
    requires IsScanner(find) && AllOk(units) && units != []
    requires CursorAfter(find(OutOf(units[0].text, units[0].marks)), ents, None, 0) == 0
    ensures RestoreAll(find, ents, None, Outs(units), 0)
         == [RestoreText(find, ents, None, OutOf(units[0].text, units[0].marks), 0)]
            + RestoreAll(find, ents, None, Outs(units[1..]), 0)
  {
    assert Outs(units)[1..] == Outs(units[1..]);
  }

  // ---- which record is used ----------------------------------------------------------

  /** An anonymized document with this digest. */
  predicate Matches(doc: Doc, digest: string) { doc.anon && doc.digest.Some? && doc.digest.value == digest }

  lemma {:induction false} LatestIs(docs: seq<Doc>, digest: string, i: nat)
    requires i < |docs| && Matches(docs[i], digest) && forall j | i < j < |docs| :: !Matches(docs[j], digest)
    ensures Latest(docs, digest) == docs[i].restore
  {
    if i < |docs| - 1 { LatestIs(docs[..|docs| - 1], digest, i); }
  }

  lemma {:induction false} LatestFrom(docs: seq<Doc>, digest: string) returns (i: nat)
    requires Latest(docs, digest).Some?
    ensures i < |docs| && Matches(docs[i], digest) && docs[i].restore == Latest(docs, digest)
    ensures forall j | i < j < |docs| :: !Matches(docs[j], digest)
  {
    var n := |docs| - 1;
    if Matches(docs[n], digest) { i := n; } else { i := LatestFrom(docs[..n], digest); }
  }

  /** A record is used exactly if the texts hold labels, the latest anonymized document with their digest has it,
      and it names the same labels in the same order. */
  lemma RecordUsedIff(find: string -> seq<Hit>, digest: seq<Key> -> string, docs: seq<Doc>, texts: seq<string>,
                      occ: seq<Occurrence>)
    ensures var keys := AllKeys(find, texts);
            ExactMap(find, digest, docs, texts) == Some(occ) <==>
              && keys != [] && KeysOf(occ) == keys
              && exists i: nat :: i < |docs| && Matches(docs[i], digest(keys)) && docs[i].restore == Some(occ)
                                  && forall j | i < j < |docs| :: !Matches(docs[j], digest(keys))
  {
    var keys := AllKeys(find, texts);
    if ExactMap(find, digest, docs, texts) == Some(occ) {
      var i := LatestFrom(docs, digest(keys));
    }
    if i: nat :| i < |docs| && Matches(docs[i], digest(keys)) && docs[i].restore == Some(occ)
                 && forall j | i < j < |docs| :: !Matches(docs[j], digest(keys))
    {
      LatestIs(docs, digest(keys), i);
    }
  }
}
