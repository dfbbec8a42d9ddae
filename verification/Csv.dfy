/** Rewriting cells of a CSV text and reading them back: `_csv_cells` and `CsvHandler`
    (app/desktop/formats.py). Quoting follows rules 5 to 7 in section 2 of RFC 4180. */
module Csv {
  import opened Entities
  import opened CsvLayout

  // ---- quoting -----------------------------------------------------------------------

  /** `v.replace('"', '""')` */
  function Escape(v: string): string {
    if v == "" then "" else (if v[0] == '"' then "\"\"" else [v[0]]) + Escape(v[1..])
  }

  /** `b.replace('""', '"')`, left to right */
  function Unescape(b: string): string {
    if b == "" then ""
    else if |b| > 1 && b[0] == '"' && b[1] == '"' then "\"" + Unescape(b[2..])
    else [b[0]] + Unescape(b[1..])
  }

  lemma {:induction false} UnescapeEscape(v: string)
    ensures Unescape(Escape(v)) == v && EvenQuotes(Escape(v))
  {
    if v != "" {
      UnescapeEscape(v[1..]);
      var e := Escape(v);
      if v[0] == '"' { assert e[2..] == Escape(v[1..]); } else { assert e[1..] == Escape(v[1..]); }
      assert [v[0]] + v[1..] == v;
    }
  }

  /** The value a user sees. */
  function Decode(c: Cell): string {
    match c
    case Plain(s) => s
    case Quoted(body, _, _) => Unescape(body)
  }

  /** A plain cell gets quotes for a quote, a line break, or a comma that was not there before. */
  predicate NeedsQuotes(v: string, before: string) {
    '"' in v || '\n' in v || '\r' in v || (',' in v && ',' !in before)
  }

  /** A cell after its value was replaced, or left alone. */
  function EditCell(c: Cell, edit: Option<string>): Cell {
    match edit
    case None => c
    case Some(v) =>
      match c
      case Quoted(_, closed, junk) => Quoted(Escape(v), closed, junk)
      case Plain(s) => if NeedsQuotes(v, s) then Quoted(Escape(v), true, "") else Plain(v)
  }

  /** A cell that had no quotes is written as the bare value unless that holds a quote or a line break, or a comma
      that the old value did not have; then quotes go around it and its quotes are doubled. A cell that had quotes
      keeps them and whatever follows them. */
  lemma CellWritten(c: Cell, v: string)
    ensures c.Plain? ==>
              RawCell(EditCell(c, Some(v)))
              == if '"' !in v && '\n' !in v && '\r' !in v && (',' in v ==> ',' in c.s) then v
                 else "\"" + Escape(v) + "\""
    ensures c.Quoted? ==> RawCell(EditCell(c, Some(v))) == "\"" + Escape(v) + if c.closed then "\"" + c.junk else ""
  {
    var e := Escape(v);
    assert "\"" + (e + ("\"" + "")) == "\"" + e + "\"";
    if c.Quoted? { assert "\"" + (e + ("\"" + c.junk)) == "\"" + e + ("\"" + c.junk) && "\"" + e + "" == "\"" + e; }
  }

  function NewValue(c: Cell, edit: Option<string>): string {
    match edit
    case None => Decode(c)
    case Some(v) => v
  }

  lemma DecodeOfEdit(c: Cell, edit: Option<string>)
    ensures Decode(EditCell(c, edit)) == NewValue(c, edit)
  {
    if edit.Some? { UnescapeEscape(edit.value); }
  }

  function Edited(items: seq<Item>, edits: seq<Option<string>>): (r: seq<Item>)
    requires |edits| == |items|
    ensures |r| == |items|
  {
    if items == [] then []
    else [Item(EditCell(items[0].cell, edits[0]), items[0].term)] + Edited(items[1..], edits[1..])
  }

  // ---- rows --------------------------------------------------------------------------

  /** The decoded cells, row by row. */
  function Rows(items: seq<Item>): (r: seq<seq<string>>)
    requires items != []
    ensures r != []
  {
    var v := Decode(items[0].cell);
    if |items| == 1 then [[v]]
    else
      var rest := Rows(items[1..]);
      if items[0].term.Delim? then [[v] + rest[0]] + rest[1..] else [[v]] + rest
  }

  function Total(rows: seq<seq<string>>): nat {
    if rows == [] then 0 else |rows[0]| + Total(rows[1..])
  }

  lemma {:induction false} RowsHoldAllCells(items: seq<Item>)
    requires items != []
    ensures Total(Rows(items)) == |items|
  {
    if |items| > 1 { RowsHoldAllCells(items[1..]); }
  }

  /** The rows that a rewrite is meant to produce: the same shape, each value replaced. */
  function ExpectedRows(items: seq<Item>, edits: seq<Option<string>>): (r: seq<seq<string>>)
    requires items != [] && |edits| == |items|
    ensures r != []
  {
    var v := NewValue(items[0].cell, edits[0]);
    if |items| == 1 then [[v]]
    else
      var rest := ExpectedRows(items[1..], edits[1..]);
      if items[0].term.Delim? then [[v] + rest[0]] + rest[1..] else [[v]] + rest
  }

  lemma {:induction false} EditedRows(items: seq<Item>, edits: seq<Option<string>>)
    requires items != [] && |edits| == |items|
    ensures Rows(Edited(items, edits)) == ExpectedRows(items, edits)
  {
    DecodeOfEdit(items[0].cell, edits[0]);
    assert Edited(items, edits)[1..] == Edited(items[1..], edits[1..]);
    if |items| > 1 { EditedRows(items[1..], edits[1..]); }
  }

  // ---- what can go wrong -------------------------------------------------------------

  /** A plain cell that now holds a delimiter and will be read as several. */
  predicate Splits(c: Cell, d: char) { c.Plain? && d in c.s }

  predicate AnySplit(items: seq<Item>, d: char) {
    items != [] && (Splits(items[0].cell, d) || AnySplit(items[1..], d))
  }

  /** A row that was emptied and is swallowed: at the end of the text, or between a lone carriage
      return and a line feed. */
  predicate Swallows(t: Term, rest: seq<Item>, d: char) {
    t.Newline? && rest != [] && (Render(rest, d) == "" || (t.s == "\r" && Render(rest, d)[0] == '\n'))
  }

  predicate AnySwallowed(items: seq<Item>, d: char) {
    items != [] && (Swallows(items[0].term, items[1..], d) || AnySwallowed(items[1..], d))
  }

  /** An edited layout: well-formed but for plain cells with delimiters and swallowed rows. */
  predicate Loose(items: seq<Item>, d: char) {
    && items != [] && TermOk(items[0].term)
    && (CellOk(items[0].cell, d)
        || (items[0].cell.Plain? && Bare(items[0].cell.s)))
    && (items[0].cell.Quoted? && !items[0].cell.closed ==> items[0].term.End?)
    && (items[0].term.End? ==> |items| == 1) && (items[0].term.Delim? ==> |items| > 1)
    && (|items| > 1 ==> Loose(items[1..], d))
  }

  lemma {:induction false} EditedIsLoose(items: seq<Item>, edits: seq<Option<string>>, d: char)
    requires WellFormed(items, d) && |edits| == |items|
    ensures Loose(Edited(items, edits), d)
  {
    var e := Edited(items, edits);
    assert e[1..] == Edited(items[1..], edits[1..]);
    if edits[0].Some? { UnescapeEscape(edits[0].value); }
    assert NoBreak("", d);
    if |items| > 1 { EditedIsLoose(items[1..], edits[1..], d); }
  }

  /** A plain cell as it will be read: cut at every delimiter. */
  function Pieces(s: string, t: Term, d: char): (r: seq<Item>)
    ensures r != []
  {
    var k := RunLen(s, d);
    if k == |s| then [Item(Plain(s), t)]
    else [Item(Plain(s[..k]), Delim)] + Pieces(s[k + 1..], t, d)
  }

  /** The layout that scanning an edited layout yields. */
  function Reread(items: seq<Item>, d: char): (r: seq<Item>)
    requires items != []
    ensures r != []
  {
    var i := items[0];
    var rest := if |items| == 1 then [] else Reread(items[1..], d);
    var swallowed := Swallows(i.term, items[1..], d);
    var term := if swallowed && Render(items[1..], d) != "" then Newline("\r\n") else i.term;
    var tail := if swallowed then rest[1..] else rest;
    (if Splits(i.cell, d) then Pieces(i.cell.s, term, d) else [Item(i.cell, term)]) + tail
  }

  /** The text has no quote and no line break, so only a delimiter can break it. */
  predicate Bare(s: string) { '"' !in s && '\n' !in s && '\r' !in s }

  lemma BareRun(s: string, d: char)
    requires Bare(s)
    ensures var k := RunLen(s, d);
            && NoBreak(s[..k], d) && (s[..k] != "" ==> s[..k][0] != '"')
            && (k < |s| ==> s[k] == d && d in s && Bare(s[k + 1..]))
            && (k == |s| ==> s[..k] == s && d !in s)
  {
    var k := RunLen(s, d);
    RunLenSpec(s, d);
    if k > 0 { assert s[..k][0] in s; }
    if k == |s| { assert s[..k] == s; NoBreakHasNoDelimiter(s, d); } else { assert s[k] in s; }
  }

  lemma {:induction false} PiecesSpec(s: string, t: Term, d: char, tail: seq<Item>)
    requires Bare(s) && TermOk(t) && FollowOk(t, tail, d) && (tail != [] ==> WellFormed(tail, d))
    ensures WellFormed(Pieces(s, t, d) + tail, d)
    ensures Render(Pieces(s, t, d) + tail, d) == s + (TermText(t, d) + Render(tail, d))
    ensures |Pieces(s, t, d)| >= if d in s then 2 else 1
    decreases |s|
  {
    var k := RunLen(s, d);
    var end := TermText(t, d) + Render(tail, d);
    BareRun(s, d);
    PiecesUnfold(s, t, d, tail);
    if k == |s| {
      LastPiece(s, t, d, tail);
    } else {
      PiecesSpec(s[k + 1..], t, d, tail);
      FirstPiece(s[..k], d, Pieces(s[k + 1..], t, d) + tail);
      CutAt(s, k, end);
    }
  }

  lemma PiecesUnfold(s: string, t: Term, d: char, tail: seq<Item>)
    ensures var k := RunLen(s, d);
            Pieces(s, t, d) + tail
            == if k == |s| then [Item(Plain(s), t)] + tail
               else [Item(Plain(s[..k]), Delim)] + (Pieces(s[k + 1..], t, d) + tail)
    ensures RunLen(s, d) < |s| ==> |Pieces(s, t, d)| == 1 + |Pieces(s[RunLen(s, d) + 1..], t, d)|
  {
  }

  lemma LastPiece(s: string, t: Term, d: char, tail: seq<Item>)
    requires NoBreak(s, d) && (s != "" ==> s[0] != '"')
    requires TermOk(t) && FollowOk(t, tail, d) && (tail != [] ==> WellFormed(tail, d))
    ensures WellFormed([Item(Plain(s), t)] + tail, d)
    ensures Render([Item(Plain(s), t)] + tail, d) == s + (TermText(t, d) + Render(tail, d))
  {
    assert ([Item(Plain(s), t)] + tail)[1..] == tail;
  }

  lemma FirstPiece(first: string, d: char, rest: seq<Item>)
    requires NoBreak(first, d) && (first != "" ==> first[0] != '"') && WellFormed(rest, d)
    ensures WellFormed([Item(Plain(first), Delim)] + rest, d)
    ensures Render([Item(Plain(first), Delim)] + rest, d) == first + ([d] + Render(rest, d))
  {
    assert ([Item(Plain(first), Delim)] + rest)[1..] == rest;
  }

  lemma CutAt(s: string, k: nat, end: string)
    requires k < |s|
    ensures s[..k] + ([s[k]] + (s[k + 1..] + end)) == s + end
  {
  }

  lemma {:induction false} NoBreakHasNoDelimiter(s: string, d: char)
    requires NoBreak(s, d)
    ensures d !in s
  {
    if s != "" {
      NoBreakHasNoDelimiter(s[1..], d);
      assert s == [s[0]] + s[1..];
    }
  }

  /** No cell starts with a line feed. */
  lemma RawStart(c: Cell, d: char)
    requires LegalDelimiter(d)
    requires CellOk(c, d) || (c.Plain? && Bare(c.s))
    ensures RawCell(c) == "" ==> c == Plain("")
    ensures RawCell(c) != "" ==> RawCell(c)[0] != '\n'
  {
    if c.Plain? && c.s != "" { assert c.s[0] in c.s; }
  }

  lemma HeadOf(a: string, b: string)
    ensures a + b == "" <==> a == "" && b == ""
    ensures a != "" ==> (a + b)[0] == a[0]
    ensures a == "" ==> a + b == b
  {
  }

  /** A swallowed row is one empty plain cell; what follows it stays. */
  lemma SwallowedItem(items: seq<Item>, d: char)
    requires LegalDelimiter(d) && Loose(items, d) && (Render(items, d) == "" || Render(items, d)[0] == '\n')
    ensures items[0].cell == Plain("")
    ensures Render(items, d) == TermText(items[0].term, d) + Render(items[1..], d)
    ensures Render(items, d) == "" ==> items == [Item(Plain(""), End)]
    ensures Render(items, d) != "" ==> items[0].term == Newline("\n")
  {
    var i := items[0];
    RawStart(i.cell, d);
    HeadOf(RawCell(i.cell), TermText(i.term, d) + Render(items[1..], d));
    HeadOf(TermText(i.term, d), Render(items[1..], d));
    assert items == [i] + items[1..];
  }

  /** Scanning an edited layout yields exactly the reread layout. */
  lemma {:induction false} RereadIsScan(items: seq<Item>, d: char)
    requires LegalDelimiter(d) && Loose(items, d)
    ensures WellFormed(Reread(items, d), d) && Render(Reread(items, d), d) == Render(items, d)
    decreases |items|
  {
    var i := items[0];
    var r := Render(items[1..], d);
    var swallowed := Swallows(i.term, items[1..], d);
    if |items| > 1 { RereadIsScan(items[1..], d); }
    var rest := if |items| == 1 then [] else Reread(items[1..], d);
    assert |items| == 1 ==> items[1..] == [];
    var term, tail := i.term, rest;
    if swallowed {
      SwallowedItem(items[1..], d);
      SwallowOne(items, d);
      term := if r != "" then Newline("\r\n") else i.term;
      tail := rest[1..];
    }
    assert FollowOk(term, tail, d) && (tail != [] ==> WellFormed(tail, d));
    assert TermText(term, d) + Render(tail, d) == TermText(i.term, d) + r;
    if Splits(i.cell, d) {
      SplitNotOk(i.cell, d);
      PiecesSpec(i.cell.s, term, d, tail);
    } else {
      NoSplitIsOk(i.cell, d);
      var all := [Item(i.cell, term)] + tail;
      assert all[1..] == tail;
    }
  }

  lemma SplitNotOk(c: Cell, d: char)
    requires Splits(c, d)
    ensures !CellOk(c, d)
  {
    if CellOk(c, d) { NoBreakHasNoDelimiter(c.s, d); }
  }

  lemma {:induction false} NoBreakWithout(s: string, d: char)
    requires d !in s && '\n' !in s && '\r' !in s
    ensures NoBreak(s, d)
  {
    if s != "" { NoBreakWithout(s[1..], d); }
  }

  lemma NoSplitIsOk(c: Cell, d: char)
    requires !Splits(c, d)
    requires CellOk(c, d) || (c.Plain? && Bare(c.s))
    ensures CellOk(c, d)
  {
    if !CellOk(c, d) { NoBreakWithout(c.s, d); }
  }

  /** The step that drops a swallowed row. */
  lemma SwallowOne(items: seq<Item>, d: char)
    requires LegalDelimiter(d) && Loose(items, d) && Swallows(items[0].term, items[1..], d)
    requires WellFormed(Reread(items[1..], d), d) && Render(Reread(items[1..], d), d) == Render(items[1..], d)
    ensures var i, r, rest := items[0], Render(items[1..], d), Reread(items[1..], d);
            var term := if r != "" then Newline("\r\n") else i.term;
            && FollowOk(term, rest[1..], d) && (rest[1..] != [] ==> WellFormed(rest[1..], d))
            && TermText(term, d) + Render(rest[1..], d) == TermText(i.term, d) + r
            && rest[0].term == (if r == "" then End else Newline("\n")) && |rest[1..]| == |rest| - 1
  {
    var i, r, rest := items[0], Render(items[1..], d), Reread(items[1..], d);
    SwallowedItem(items[1..], d);
    WellFormedIsLoose(rest, d);
    SwallowedItem(rest, d);
    if r != "" {
      assert "\r" + ("\n" + Render(rest[1..], d)) == "\r\n" + Render(rest[1..], d);
    }
  }

  lemma {:induction false} WellFormedIsLoose(items: seq<Item>, d: char)
    requires WellFormed(items, d)
    ensures Loose(items, d)
  {
    if |items| > 1 { WellFormedIsLoose(items[1..], d); }
  }

  // ---- when a rewrite reads back as intended -----------------------------------------

  lemma {:induction false} PiecesRows(s: string, t: Term, d: char, tail: seq<Item>)
    ensures |Rows(Pieces(s, t, d) + tail)| == |Rows([Item(Plain(s), t)] + tail)|
    decreases |s|
  {
    var k := RunLen(s, d);
    PiecesUnfold(s, t, d, tail);
    if k < |s| {
      var rest := Pieces(s[k + 1..], t, d) + tail;
      PiecesRows(s[k + 1..], t, d, tail);
      assert ([Item(Plain(s[..k]), Delim)] + rest)[1..] == rest;
      assert ([Item(Plain(s), t)] + tail)[1..] == tail && ([Item(Plain(s[k + 1..]), t)] + tail)[1..] == tail;
    }
  }

  /** Rereading loses a row for every swallowed one, and gains a cell for every split one. */
  lemma {:induction false} RereadCounts(items: seq<Item>, d: char)
    requires LegalDelimiter(d) && Loose(items, d)
    ensures |Rows(Reread(items, d))| <= |Rows(items)|
    ensures AnySwallowed(items, d) ==> |Rows(Reread(items, d))| < |Rows(items)|
    ensures !AnySwallowed(items, d) ==> |Reread(items, d)| >= |items|
    ensures !AnySwallowed(items, d) && AnySplit(items, d) ==> |Reread(items, d)| > |items|
    decreases |items|
  {
    var i := items[0];
    var r := Render(items[1..], d);
    var swallowed := Swallows(i.term, items[1..], d);
    var rest := if |items| == 1 then [] else Reread(items[1..], d);
    if |items| > 1 {
      RereadCounts(items[1..], d);
      RereadIsScan(items[1..], d);
    } else {
      assert items[1..] == [];
      assert !AnySwallowed(items[1..], d) && !AnySplit(items[1..], d);
    }
    var term := if swallowed && r != "" then Newline("\r\n") else i.term;
    var tail := if swallowed then rest[1..] else rest;
    if swallowed { SwallowOne(items, d); }
    HeadRows(i.cell, term, tail, d);
    assert Reread(items, d) == (if Splits(i.cell, d) then Pieces(i.cell.s, term, d) else [Item(i.cell, term)]) + tail;
    if Splits(i.cell, d) { SplitNotOk(i.cell, d); PiecesLength(i.cell.s, term, d); }
    if swallowed {
      assert |Rows(rest)| == if tail == [] then 1 else 1 + |Rows(tail)|;
    }
  }

  lemma PiecesLength(s: string, t: Term, d: char)
    requires Bare(s)
    ensures |Pieces(s, t, d)| >= if d in s then 2 else 1
  {
    BareRun(s, d);
    PiecesUnfold(s, t, d, []);
  }

  lemma HeadRows(c: Cell, t: Term, tail: seq<Item>, d: char)
    ensures var front := if Splits(c, d) then Pieces(c.s, t, d) else [Item(c, t)];
            |Rows(front + tail)| == if tail == [] then 1 else if t.Delim? then |Rows(tail)| else 1 + |Rows(tail)|
  {
    assert ([Item(c, t)] + tail)[1..] == tail;
    if Splits(c, d) { PiecesRows(c.s, t, d, tail); }
  }

  lemma {:induction false} LooseIsWellFormed(items: seq<Item>, d: char)
    requires LegalDelimiter(d) && Loose(items, d) && !AnySplit(items, d) && !AnySwallowed(items, d)
    ensures WellFormed(items, d)
    decreases |items|
  {
    NoSplitIsOk(items[0].cell, d);
    if |items| > 1 { LooseIsWellFormed(items[1..], d); }
  }

  /** The text after the edits. */
  function Rewritten(text: string, d: char, edits: seq<Option<string>>): string
    requires |edits| == |Scan(text, d)|
  {
    Render(Edited(Scan(text, d), edits), d)
  }

  /** Scanning the rewritten text gives the same rows and columns with every cell at its new value,
      exactly when no plain cell now holds a delimiter and no row was emptied away. */
  lemma RewriteAgreesIff(text: string, d: char, edits: seq<Option<string>>)
    requires LegalDelimiter(d) && |edits| == |Scan(text, d)|
    ensures var items := Scan(text, d);
            var e := Edited(items, edits);
            Rows(Scan(Rewritten(text, d, edits), d)) == ExpectedRows(items, edits)
            <==> !AnySplit(e, d) && !AnySwallowed(e, d)
  {
    var items := Scan(text, d);
    var e := Edited(items, edits);
    RenderOfScan(text, d);
    EditedIsLoose(items, edits, d);
    EditedRows(items, edits);
    if !AnySplit(e, d) && !AnySwallowed(e, d) {
      LooseIsWellFormed(e, d);
      ScanOfRender(e, d);
    } else {
      RereadIsScan(e, d);
      ScanOfRender(Reread(e, d), d);
      RereadCounts(e, d);
      RowsHoldAllCells(e);
      RowsHoldAllCells(Reread(e, d));
    }
  }

  /** Replacements that keep every plain cell free of the delimiter and do not empty a cell. */
  predicate SafeEdit(c: Cell, edit: Option<string>, d: char) {
    edit.Some? ==>
      && edit.value != ""
      && (d == ',' || d !in edit.value || c.Quoted? || NeedsQuotes(edit.value, c.s))
  }

  lemma {:induction false} SafeEditsAreFine(items: seq<Item>, edits: seq<Option<string>>, d: char)
    requires LegalDelimiter(d) && WellFormed(items, d) && |edits| == |items|
    requires forall k | 0 <= k < |items| :: SafeEdit(items[k].cell, edits[k], d)
    ensures !AnySplit(Edited(items, edits), d) && !AnySwallowed(Edited(items, edits), d)
    ensures Render(Edited(items, edits), d) == "" ==> Render(items, d) == ""
    ensures Render(items, d) != "" && Render(Edited(items, edits), d)[0] == '\n' ==> Render(items, d)[0] == '\n'
    decreases |items|
  {
    var e, c, t := Edited(items, edits), items[0].cell, items[0].term;
    assert e[1..] == Edited(items[1..], edits[1..]);
    SafeEditCell(c, edits[0], d);
    var tail, tail' := Render(items[1..], d), Render(e[1..], d);
    if |items| > 1 {
      forall k | 0 <= k < |items[1..]| ensures SafeEdit(items[1..][k].cell, edits[1..][k], d) {
        assert SafeEdit(items[k + 1].cell, edits[k + 1], d);
      }
      SafeEditsAreFine(items[1..], edits[1..], d);
    }
    HeadOf(RawCell(c), TermText(t, d) + tail);
    HeadOf(RawCell(e[0].cell), TermText(t, d) + tail');
    HeadOf(TermText(t, d), tail);
    HeadOf(TermText(t, d), tail');
  }

  lemma SafeEditCell(c: Cell, edit: Option<string>, d: char)
    requires LegalDelimiter(d) && CellOk(c, d) && SafeEdit(c, edit, d)
    ensures !Splits(EditCell(c, edit), d)
    ensures RawCell(EditCell(c, edit)) == "" ==> RawCell(c) == ""
    ensures RawCell(EditCell(c, edit)) != "" ==> RawCell(EditCell(c, edit))[0] != '\n'
  {
    RawStart(c, d);
    if c.Plain? {
      NoBreakHasNoDelimiter(c.s, d);
      if edit.Some? { assert edit.value[0] in edit.value; }
    }
  }

  /** Non-empty replacements that put no delimiter into an unquoted cell, or any non-empty ones when
      the delimiter is a comma, read back as intended. */
  lemma SafeRewriteAgrees(text: string, d: char, edits: seq<Option<string>>)
    requires LegalDelimiter(d) && |edits| == |Scan(text, d)|
    requires forall k | 0 <= k < |edits| :: SafeEdit(Scan(text, d)[k].cell, edits[k], d)
    ensures Rows(Scan(Rewritten(text, d, edits), d)) == ExpectedRows(Scan(text, d), edits)
    ensures Scan(Rewritten(text, d, edits), d) == Edited(Scan(text, d), edits)
  {
    RenderOfScan(text, d);
    SafeEditsAreFine(Scan(text, d), edits, d);
    RewriteAgreesIff(text, d, edits);
    EditedIsLoose(Scan(text, d), edits, d);
    LooseIsWellFormed(Edited(Scan(text, d), edits), d);
    ScanOfRender(Edited(Scan(text, d), edits), d);
  }

  /** In a file separated by semicolons a value with a semicolon falls apart. */
  lemma SemicolonFallsApart(text: string, value: string)
    requires text == "x" && value == "a;b"
    ensures |Scan(text, ';')| == 1 && ExpectedRows(Scan(text, ';'), [Some(value)]) == [[value]]
    ensures Rows(Scan(Rewritten(text, ';', [Some(value)]), ';')) == [["a", "b"]]
  {
    var b := value[2..];
    assert text[1..] == "" && text[..1] == "x" && b[1..] == "" && b[..1] == "b";
    assert value[1..][1..] == b && value[..1] == "a";
    assert RunLen(text, ';') == 1 && RunLen(b, ';') == 1 && RunLen(value, ';') == 1;
    assert Scan(text, ';') == [Item(Plain(text[..1]), End)] && Scan(b, ';') == [Item(Plain(b[..1]), End)];
    assert Scan(value, ';') == [Item(Plain(value[..1]), Delim)] + Scan(b, ';');
    assert Edited(Scan(text, ';'), [Some(value)]) == [Item(Plain(value), End)];
    assert Render([Item(Plain(value), End)], ';') == value + ("" + "") == value;
    assert Rewritten(text, ';', [Some(value)]) == value;
    var items := Scan(value, ';');
    assert items[1..] == Scan(b, ';') && Rows(items[1..]) == [["b"]];
    assert ["a"] + ["b"] == ["a", "b"];
    assert Rows(items) == [["a"] + ["b"]] + [] == [["a", "b"]];
  }
}
