/** A CSV document anonymized and restored cell by cell: `CsvHandler.rewrite` (app/desktop/formats.py) under
    the file drivers of app/desktop/pipeline.py, as a statement about the cell values that are read back and
    not about bytes. */
module CsvDocuments {
  import opened Entities
  import opened Labels
  import opened Splicing
  import opened CsvLayout
  import opened Csv
  import opened CsvScanner
  import opened Documents

  /** Labels are not empty, do not contain the delimiter, and replace something. */
  predicate TagsFit(d: char, marks: seq<Mark>) {
    marks == [] || (marks[0].tag != "" && d !in marks[0].tag && marks[0].start < marks[0].end && TagsFit(d, marks[1..]))
  }

  predicate AllFit(d: char, units: seq<Unit>) {
    units == [] || (TagsFit(d, units[0].marks) && AllFit(d, units[1..]))
  }

  /** A cell is rewritten only if the unit function returned replacements. */
  ghost function AnonEdits(units: seq<Unit>): (r: seq<Option<string>>)
    requires AllOk(units)
    ensures |r| == |units|
  {
    if units == [] then []
    else [if units[0].marks == [] then None else Some(OutOf(units[0].text, units[0].marks))] + AnonEdits(units[1..])
  }

  /** A cell is restored only if the unit function returned replacements; one cursor runs over all cells. */
  ghost function RestoreEdits(find: string -> seq<Hit>, ents: map<Key, Entity>, exact: Option<seq<Occurrence>>,
                              texts: seq<string>, cursor: nat): (r: seq<Option<string>>)
    requires IsScanner(find)
    ensures |r| == |texts|
  {
    if texts == [] then []
    else
      var t := texts[0];
      [if RestoreReps(find(t), ents, exact, cursor) == [] then None else Some(RestoreText(find, ents, exact, t, cursor))]
      + RestoreEdits(find, ents, exact, texts[1..], CursorAfter(find(t), ents, exact, cursor))
  }

  /** A cell without a label that resolves stays; `values` holds what the others were restored to. */
  function ResolvedEdits(find: string -> seq<Hit>, ents: map<Key, Entity>, texts: seq<string>, values: seq<string>)
    : (r: seq<Option<string>>)
    requires |values| == |texts|
    ensures |r| == |texts|
  {
    if texts == [] then []
    else [if Resolved(find(texts[0]), ents) == 0 then None else Some(values[0])]
         + ResolvedEdits(find, ents, texts[1..], values[1..])
  }

  lemma {:induction false} RestoreEditsAreResolved(find: string -> seq<Hit>, ents: map<Key, Entity>,
                                                   exact: Option<seq<Occurrence>>, texts: seq<string>, cursor: nat)
    requires IsScanner(find)
    ensures var values := RestoreAll(find, ents, exact, texts, cursor);
            && |values| == |texts|
            && RestoreEdits(find, ents, exact, texts, cursor) == ResolvedEdits(find, ents, texts, values)
    decreases |texts|
  {
    if texts != [] {
      ResolvedIsReps(find(texts[0]), ents, exact, cursor);
      RestoreEditsAreResolved(find, ents, exact, texts[1..], CursorAfter(find(texts[0]), ents, exact, cursor));
    }
  }

  /** A label resolves exactly if there is something to replace. */
  lemma {:induction false} ResolvedIsReps(hits: seq<Hit>, ents: map<Key, Entity>, exact: Option<seq<Occurrence>>, cursor: nat)
    ensures |RestoreReps(hits, ents, exact, cursor)| == Resolved(hits, ents)
  {
    if hits != [] {
      ResolvedIsReps(hits[1..], ents, exact, if hits[0].key in ents then Advance(exact, cursor) else cursor);
    }
  }

  // ---- every edit is safe ------------------------------------------------------------

  lemma {:induction false} SpliceAvoids(text: string, from: nat, marks: seq<Mark>, d: char)
    requires from <= |text| && Ordered(|text|, from, Reps(marks)) && TagsFit(d, marks) && d !in text
    ensures d !in Splice(text, from, Reps(marks))
    ensures marks != [] ==> Splice(text, from, Reps(marks)) != ""
    decreases |marks|
  {
    if marks != [] {
      var m := marks[0];
      SpliceHead(text, from, Documents.RepOf(m), Reps(marks[1..]));
      SpliceAvoids(text, m.end, marks[1..], d);
      ThreeAvoid(text[from..m.start], m.tag, Splice(text, m.end, Reps(marks[1..])), d);
    }
  }

  lemma ThreeAvoid(a: string, b: string, c: string, d: char)
    requires d !in a && d !in b && d !in c && b != ""
    ensures d !in a + (b + c) && a + (b + c) != ""
  {
  }

  lemma {:induction false} SpliceNonEmpty(text: string, from: nat, marks: seq<Mark>, d: char)
    requires from <= |text| && Ordered(|text|, from, Reps(marks)) && TagsFit(d, marks) && marks != []
    ensures Splice(text, from, Reps(marks)) != ""
  {
    SpliceHead(text, from, Documents.RepOf(marks[0]), Reps(marks[1..]));
  }

  lemma AnonEditSafe(c: Cell, u: Unit, d: char)
    requires LegalDelimiter(d) && CellOk(c, d) && u.text == Decode(c) && MarksOk(u.text, u.marks) && TagsFit(d, u.marks)
    ensures SafeEdit(c, if u.marks == [] then None else Some(OutOf(u.text, u.marks)), d)
  {
    if u.marks != [] {
      SpliceNonEmpty(u.text, 0, u.marks, d);
      if c.Plain? {
        NoBreakHasNoDelimiter(c.s, d);
        SpliceAvoids(u.text, 0, u.marks, d);
      }
    }
  }

  /** Putting the original value back into the edited cell. */
  lemma BackEditSafe(c: Cell, edit: Option<string>, value: string, d: char)
    requires LegalDelimiter(d) && CellOk(c, d) && value == Decode(c) && value != ""
    ensures SafeEdit(EditCell(c, edit), Some(value), d)
  {
    if c.Plain? { NoBreakHasNoDelimiter(c.s, d); }
  }

  // ---- the round trip ----------------------------------------------------------------

  /** The units are the decoded cells. */
  predicate UnitsOf(items: seq<Item>, units: seq<Unit>) {
    |items| == |units| && forall k | 0 <= k < |items| :: units[k].text == Decode(items[k].cell)
  }

  lemma {:induction false} AllCellsOk(items: seq<Item>, d: char, k: nat)
    requires WellFormed(items, d) && k < |items|
    ensures CellOk(items[k].cell, d)
  {
    if k > 0 { AllCellsOk(items[1..], d, k - 1); }
  }

  lemma {:induction false} AnonEditAt(units: seq<Unit>, d: char, k: nat)
    requires AllOk(units) && AllFit(d, units) && k < |units|
    ensures MarksOk(units[k].text, units[k].marks) && TagsFit(d, units[k].marks)
    ensures AnonEdits(units)[k] == if units[k].marks == [] then None else Some(OutOf(units[k].text, units[k].marks))
    ensures Outs(units)[k] == OutOf(units[k].text, units[k].marks)
  {
    if k > 0 { AnonEditAt(units[1..], d, k - 1); }
  }

  lemma {:induction false} EditedAt(items: seq<Item>, edits: seq<Option<string>>, k: nat)
    requires |edits| == |items| && k < |items|
    ensures Edited(items, edits)[k] == Item(EditCell(items[k].cell, edits[k]), items[k].term)
  {
    if k > 0 { EditedAt(items[1..], edits[1..], k - 1); }
  }

  lemma AnonCell(items: seq<Item>, d: char, units: seq<Unit>, k: nat)
    requires LegalDelimiter(d) && WellFormed(items, d) && UnitsOf(items, units) && AllOk(units) && AllFit(d, units)
    requires k < |items|
    ensures SafeEdit(items[k].cell, AnonEdits(units)[k], d)
    ensures Decode(Edited(items, AnonEdits(units))[k].cell) == Outs(units)[k]
  {
    var c, u, edit := items[k].cell, units[k], AnonEdits(units)[k];
    AllCellsOk(items, d, k);
    AnonEditAt(units, d, k);
    AnonEditSafe(c, u, d);
    EditedAt(items, AnonEdits(units), k);
    DecodeOfEdit(c, edit);
    assert u.text[0..] == u.text;
  }

  /** Reading the anonymized file gives the anonymized units. */
  lemma AnonymizedCells(text: string, d: char, units: seq<Unit>)
    requires LegalDelimiter(d) && UnitsOf(Scan(text, d), units) && AllOk(units) && AllFit(d, units)
    ensures var out := Rewritten(text, d, AnonEdits(units));
            Scan(out, d) == Edited(Scan(text, d), AnonEdits(units)) && Units(out, d) == Outs(units)
  {
    var items, edits := Scan(text, d), AnonEdits(units);
    RenderOfScan(text, d);
    forall k | 0 <= k < |items| ensures SafeEdit(items[k].cell, edits[k], d) {
      AnonCell(items, d, units, k);
    }
    SafeRewriteAgrees(text, d, edits);
    var out := Rewritten(text, d, edits);
    forall k | 0 <= k < |items| ensures Units(out, d)[k] == Outs(units)[k] {
      AnonCell(items, d, units, k);
    }
    assert Units(out, d) == Outs(units);
  }

  /** The edits that restoring makes: the original value, wherever something was anonymized. */
  function BackEdits(units: seq<Unit>): (r: seq<Option<string>>)
    ensures |r| == |units|
    ensures forall k | 0 <= k < |units| :: r[k] == if units[k].marks == [] then None else Some(units[k].text)
  {
    seq(|units|, k requires 0 <= k < |units| => if units[k].marks == [] then None else Some(units[k].text))
  }

  /** Writing the original values back gives every cell its value, in the same rows and columns. */
  lemma WrittenBack(text: string, d: char, units: seq<Unit>)
    requires LegalDelimiter(d) && UnitsOf(Scan(text, d), units) && AllOk(units) && AllFit(d, units)
    ensures var out := Rewritten(text, d, AnonEdits(units));
            && |Scan(out, d)| == |units|
            && Rows(Scan(Rewritten(out, d, BackEdits(units)), d)) == Rows(Scan(text, d))
  {
    var items, edits, back := Scan(text, d), AnonEdits(units), BackEdits(units);
    var out := Rewritten(text, d, edits);
    AnonymizedCells(text, d, units);
    RenderOfScan(text, d);
    forall k | 0 <= k < |items|
      ensures SafeEdit(Scan(out, d)[k].cell, back[k], d)
      ensures NewValue(Scan(out, d)[k].cell, back[k]) == Decode(items[k].cell)
    {
      AllCellsOk(items, d, k);
      AnonEditAt(units, d, k);
      EditedAt(items, edits, k);
      BackEditOk(items[k].cell, units[k], edits[k], d);
    }
    SafeRewriteAgrees(out, d, back);
    SameShape(items, edits, back);
  }

  lemma BackEditOk(c: Cell, u: Unit, edit: Option<string>, d: char)
    requires LegalDelimiter(d) && CellOk(c, d) && u.text == Decode(c) && MarksOk(u.text, u.marks) && TagsFit(d, u.marks)
    requires u.marks == [] ==> edit == None
    ensures var back := if u.marks == [] then None else Some(u.text);
            SafeEdit(EditCell(c, edit), back, d) && NewValue(EditCell(c, edit), back) == Decode(c)
  {
    if u.marks != [] {
      assert Ordered(|u.text|, 0, Reps(u.marks)) && u.marks[0].end <= |u.text|;
      BackEditSafe(c, edit, u.text, d);
    }
  }

  lemma {:induction false} SameShape(items: seq<Item>, edits: seq<Option<string>>, back: seq<Option<string>>)
    requires items != [] && |edits| == |items| == |back|
    requires forall k | 0 <= k < |items| :: NewValue(Edited(items, edits)[k].cell, back[k]) == Decode(items[k].cell)
    ensures ExpectedRows(Edited(items, edits), back) == Rows(items)
    decreases |items|
  {
    var e := Edited(items, edits);
    EditedAt(items, edits, 0);
    assert e[1..] == Edited(items[1..], edits[1..]);
    assert NewValue(e[0].cell, back[0]) == Decode(items[0].cell);
    if |items| > 1 {
      forall k | 0 <= k < |items[1..]|
        ensures NewValue(Edited(items[1..], edits[1..])[k].cell, back[1..][k]) == Decode(items[1..][k].cell)
      {
        assert NewValue(e[k + 1].cell, back[k + 1]) == Decode(items[k + 1].cell);
      }
      SameShape(items[1..], edits[1..], back[1..]);
    }
  }

  lemma {:induction false} RestoreEditsAreBack(find: string -> seq<Hit>, ents: map<Key, Entity>, units: seq<Unit>)
    requires AllFound(find, units) && AllOk(units) && forall k | k in KeysOf(AllOccurrences(units)) :: k in ents
    ensures |Texts(units)| == |units|
    ensures ResolvedEdits(find, ents, Outs(units), Texts(units)) == BackEdits(units)
    decreases |units|
  {
    if units == [] {
    } else {
      var u := units[0];
      KeysConcat(Occurrences(u.marks), AllOccurrences(units[1..]));
      AllResolve(find, ents, u);
      RestoreEditsAreBack(find, ents, units[1..]);
      assert Outs(units)[1..] == Outs(units[1..]) && Texts(units)[1..] == Texts(units[1..]);
      BackEditsUnfold(units);
    }
  }

  lemma BackEditsUnfold(units: seq<Unit>)
    requires units != []
    ensures BackEdits(units)
         == [if units[0].marks == [] then None else Some(units[0].text)] + BackEdits(units[1..])
  {
  }

  lemma AllResolve(find: string -> seq<Hit>, ents: map<Key, Entity>, u: Unit)
    requires FindsInserted(find, u) && forall k | k in KeysOf(Occurrences(u.marks)) :: k in ents
    ensures Resolved(find(OutOf(u.text, u.marks)), ents) == 0 <==> u.marks == []
  {
    var hits := find(OutOf(u.text, u.marks));
    HitsLength(|u.text|, 0, u.marks, 0);
    KeysOfHits(|u.text|, 0, u.marks, 0);
    if hits != [] { HitKeyMember(hits, hits[0]); }
  }

  /** Anonymizing a CSV file and restoring it gives the same rows with the same values, for any delimiter. */
  lemma CsvRoundTrip(find: string -> seq<Hit>, digest: seq<Key> -> string, docs: seq<Doc>, ents: map<Key, Entity>,
                     text: string, d: char, units: seq<Unit>)
    requires LegalDelimiter(d) && UnitsOf(Scan(text, d), units) && AllFit(d, units)
    requires IsScanner(find) && AllFound(find, units)
    requires forall k | k in KeysOf(AllOccurrences(units)) :: k in ents
    requires Latest(docs, digest(KeysOf(AllOccurrences(units)))) == Some(AllOccurrences(units))
    ensures AllOk(units)
    ensures var out := Rewritten(text, d, AnonEdits(units));
            var cells := Units(out, d);
            var edits := RestoreEdits(find, ents, ExactMap(find, digest, docs, cells), cells, 0);
            && |cells| == |Scan(out, d)|
            && Rows(Scan(Rewritten(out, d, edits), d)) == Rows(Scan(text, d))
  {
    FoundIsOk(find, units);
    AnonymizedCells(text, d, units);
    RestoresOriginal(find, digest, docs, units, ents);
    RestoreEditsAreResolved(find, ents, ExactMap(find, digest, docs, Outs(units)), Outs(units), 0);
    RestoreEditsAreBack(find, ents, units);
    WrittenBack(text, d, units);
  }
}
