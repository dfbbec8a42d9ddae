/** A table written as RFC 4180 asks for reads back, for any delimiter and each of the three line ends: what
    `_csv_cells` and `CsvHandler._cell` (app/desktop/formats.py) make of a file that a spreadsheet wrote. Quoting is
    that of rules 5 to 7 in section 2. */
module CsvTables {
  import opened Sequences
  import opened CsvLayout
  import opened Csv

  /** A value, and whether it is written in quotes. */
  datatype Shown = Shown(value: string, quoted: bool)

  /** Without quotes a value holds neither the delimiter nor a line break and does not begin with a quote. */
  predicate CanShow(f: Shown, d: char) {
    f.quoted || ((forall k | 0 <= k < |f.value| :: f.value[k] != d && f.value[k] != '\n' && f.value[k] != '\r')
                 && (f.value != "" ==> f.value[0] != '"'))
  }

  function FieldText(f: Shown): string { if f.quoted then "\"" + (Escape(f.value) + "\"") else f.value }

  function RowText(row: seq<Shown>, d: char): string {
    if row == [] then ""
    else FieldText(row[0]) + if |row| == 1 then "" else [d] + RowText(row[1..], d)
  }

  /** The rows with `end` between them. */
  function TableText(rows: seq<seq<Shown>>, d: char, end: string): string {
    if rows == [] then ""
    else RowText(rows[0], d) + if |rows| == 1 then "" else end + TableText(rows[1..], d, end)
  }

  function ValuesOf(row: seq<Shown>): (r: seq<string>)
    ensures |r| == |row| && forall k | 0 <= k < |row| :: r[k] == row[k].value
  {
    seq(|row|, k requires 0 <= k < |row| => row[k].value)
  }

  function TableValues(rows: seq<seq<Shown>>): (r: seq<seq<string>>)
    ensures |r| == |rows| && forall k | 0 <= k < |rows| :: r[k] == ValuesOf(rows[k])
  {
    seq(|rows|, k requires 0 <= k < |rows| => ValuesOf(rows[k]))
  }

  predicate RowOk(row: seq<Shown>, d: char) { row != [] && forall k | 0 <= k < |row| :: CanShow(row[k], d) }

  predicate TableOk(rows: seq<seq<Shown>>, d: char) { rows != [] && forall i | 0 <= i < |rows| :: RowOk(rows[i], d) }

  predicate IsLineEnd(end: string) { end == "\n" || end == "\r\n" || end == "\r" }

  // ---- the layout of a table ---------------------------------------------------------

  function CellOf(f: Shown): Cell { if f.quoted then Quoted(Escape(f.value), true, "") else Plain(f.value) }

  function RowItems(row: seq<Shown>, last: Term): seq<Item> {
    if row == [] then []
    else if |row| == 1 then [Item(CellOf(row[0]), last)]
    else [Item(CellOf(row[0]), Delim)] + RowItems(row[1..], last)
  }

  function TableItems(rows: seq<seq<Shown>>, end: string, last: Term): seq<Item> {
    if rows == [] then []
    else if |rows| == 1 then RowItems(rows[0], last)
    else RowItems(rows[0], Newline(end)) + TableItems(rows[1..], end, last)
  }

  lemma {:induction false} NoneIsNoBreak(s: string, d: char)
    requires forall k | 0 <= k < |s| :: s[k] != d && s[k] != '\n' && s[k] != '\r'
    ensures NoBreak(s, d)
  {
    if s != "" { NoneIsNoBreak(s[1..], d); }
  }

  lemma CellOfOk(f: Shown, d: char)
    requires CanShow(f, d)
    ensures CellOk(CellOf(f), d) && RawCell(CellOf(f)) == FieldText(f) && Decode(CellOf(f)) == f.value
    ensures CellOf(f).Quoted? ==> CellOf(f).closed
  {
    if f.quoted {
      UnescapeEscape(f.value);
      assert "\"" + "" == "\"";
    } else {
      NoneIsNoBreak(f.value, d);
    }
  }

  lemma {:induction false} RenderConcat(a: seq<Item>, b: seq<Item>, d: char)
    ensures Render(a + b, d) == Render(a, d) + Render(b, d)
  {
    if a == [] {
      assert a + b == b;
    } else {
      assert (a + b)[0] == a[0] && (a + b)[1..] == a[1..] + b;
      RenderConcat(a[1..], b, d);
      AssociateFour(RawCell(a[0].cell), TermText(a[0].term, d), Render(a[1..], d), Render(b, d));
    }
  }

  lemma {:induction false} RowItemsText(row: seq<Shown>, last: Term, d: char)
    requires RowOk(row, d)
    ensures RowItems(row, last) != [] && Render(RowItems(row, last), d) == RowText(row, d) + TermText(last, d)
  {
    CellOfOk(row[0], d);
    var items := RowItems(row, last);
    if |row| == 1 {
      assert items[1..] == [];
      assert FieldText(row[0]) + (TermText(last, d) + "") == (FieldText(row[0]) + "") + TermText(last, d);
    } else {
      RowItemsText(row[1..], last, d);
      assert items[1..] == RowItems(row[1..], last);
      AssociateFour(FieldText(row[0]), [d], RowText(row[1..], d), TermText(last, d));
    }
  }

  /** A field and a delimiter in front of a layout join its first row. */
  lemma FieldInFront(f: Shown, tail: seq<Item>, d: char, row: seq<string>, more: seq<seq<string>>)
    requires CanShow(f, d) && tail != [] && WellFormed(tail, d) && Rows(tail) == [row] + more
    ensures var items := [Item(CellOf(f), Delim)] + tail;
            WellFormed(items, d) && Rows(items) == [[f.value] + row] + more
  {
    CellOfOk(f, d);
    var items := [Item(CellOf(f), Delim)] + tail;
    assert items[1..] == tail && ([row] + more)[1..] == more;
  }

  /** The last field of a row in front of the rows behind it. */
  lemma LastInFront(f: Shown, last: Term, rest: seq<Item>, d: char, more: seq<seq<string>>)
    requires CanShow(f, d) && TermOk(last) && !last.Delim? && FollowOk(last, rest, d)
    requires if rest == [] then more == [] else WellFormed(rest, d) && Rows(rest) == more
    ensures var items := [Item(CellOf(f), last)] + rest;
            WellFormed(items, d) && Rows(items) == [[f.value]] + more
  {
    CellOfOk(f, d);
    var items := [Item(CellOf(f), last)] + rest;
    assert items[1..] == rest;
  }

  /** A row in front of `rest` is well-formed and reads as its values. */
  lemma {:induction false} RowInFront(row: seq<Shown>, last: Term, rest: seq<Item>, d: char, more: seq<seq<string>>,
                                      items: seq<Item>)
    requires RowOk(row, d) && TermOk(last) && !last.Delim? && FollowOk(last, rest, d)
    requires if rest == [] then more == [] else WellFormed(rest, d) && Rows(rest) == more
    requires items == RowItems(row, last) + rest
    ensures items != [] && WellFormed(items, d) && Rows(items) == [ValuesOf(row)] + more
    decreases |row|
  {
    if |row| == 1 {
      LastInFront(row[0], last, rest, d, more);
      assert ValuesOf(row) == [row[0].value];
    } else {
      var tail := RowItems(row[1..], last) + rest;
      RowInFront(row[1..], last, rest, d, more, tail);
      FieldInFront(row[0], tail, d, ValuesOf(row[1..]), more);
      ItemsCons(row, last, rest);
    }
  }

  lemma ItemsCons(row: seq<Shown>, last: Term, rest: seq<Item>)
    requires |row| > 1
    ensures RowItems(row, last) + rest == [Item(CellOf(row[0]), Delim)] + (RowItems(row[1..], last) + rest)
    ensures ValuesOf(row) == [row[0].value] + ValuesOf(row[1..])
  {
  }

  /** A row does not begin with a line feed. */
  lemma RowBegins(row: seq<Shown>, d: char)
    requires RowOk(row, d) && LegalDelimiter(d)
    ensures RowText(row, d) != "" ==> RowText(row, d)[0] != '\n'
  {
    assert CanShow(row[0], d);
  }

  /** Neither does a table, unless it begins with an empty line. */
  lemma TableBegins(rows: seq<seq<Shown>>, d: char, end: string, tail: string)
    requires TableOk(rows, d) && LegalDelimiter(d) && (tail == end || (tail == "" && RowText(rows[|rows| - 1], d) != ""))
    requires IsLineEnd(end)
    ensures var text := TableText(rows, d, end) + tail;
            text != "" && (end == "\r" ==> text[0] != '\n')
  {
    assert RowOk(rows[0], d);
    RowBegins(rows[0], d);
  }

  lemma {:induction false} TableLayout(rows: seq<seq<Shown>>, d: char, end: string, last: Term)
    requires TableOk(rows, d) && LegalDelimiter(d) && IsLineEnd(end) && (last == End || last == Newline(end))
    requires last == End && |rows| > 1 ==> RowText(rows[|rows| - 1], d) != ""
    ensures TableItems(rows, end, last) != [] && WellFormed(TableItems(rows, end, last), d)
    ensures Rows(TableItems(rows, end, last)) == TableValues(rows)
    ensures Render(TableItems(rows, end, last), d) == TableText(rows, d, end) + TermText(last, d)
  {
    assert RowOk(rows[0], d);
    if |rows| == 1 {
      OneRow(rows, d, end, last);
    } else {
      assert forall i | 0 <= i < |rows[1..]| :: rows[1..][i] == rows[i + 1];
      TableLayout(rows[1..], d, end, last);
      TableBegins(rows[1..], d, end, TermText(last, d));
      RowAndTable(rows, d, end, last);
    }
  }

  lemma OneRow(rows: seq<seq<Shown>>, d: char, end: string, last: Term)
    requires |rows| == 1 && RowOk(rows[0], d) && TermOk(last) && !last.Delim?
    ensures TableItems(rows, end, last) != [] && WellFormed(TableItems(rows, end, last), d)
    ensures Rows(TableItems(rows, end, last)) == TableValues(rows)
    ensures Render(TableItems(rows, end, last), d) == TableText(rows, d, end) + TermText(last, d)
  {
    RowItemsText(rows[0], last, d);
    assert RowItems(rows[0], last) + [] == RowItems(rows[0], last);
    RowInFront(rows[0], last, [], d, [], RowItems(rows[0], last));
    assert TableValues(rows) == [ValuesOf(rows[0])] + [];
    assert RowText(rows[0], d) + "" == RowText(rows[0], d);
  }

  lemma RowAndTable(rows: seq<seq<Shown>>, d: char, end: string, last: Term)
    requires |rows| > 1 && RowOk(rows[0], d) && IsLineEnd(end)
    requires var rest, text := TableItems(rows[1..], end, last), TableText(rows[1..], d, end) + TermText(last, d);
             && rest != [] && WellFormed(rest, d) && Rows(rest) == TableValues(rows[1..]) && Render(rest, d) == text
             && text != "" && (end == "\r" ==> text[0] != '\n')
    ensures TableItems(rows, end, last) != [] && WellFormed(TableItems(rows, end, last), d)
    ensures Rows(TableItems(rows, end, last)) == TableValues(rows)
    ensures Render(TableItems(rows, end, last), d) == TableText(rows, d, end) + TermText(last, d)
  {
    TableUnfold(rows, d, end, last);
    RowAndRest(rows[0], d, end, TableItems(rows[1..], end, last), TableText(rows[1..], d, end), TermText(last, d),
               TableValues(rows[1..]));
  }

  lemma TableUnfold(rows: seq<seq<Shown>>, d: char, end: string, last: Term)
    requires |rows| > 1
    ensures TableItems(rows, end, last) == RowItems(rows[0], Newline(end)) + TableItems(rows[1..], end, last)
    ensures TableText(rows, d, end) == RowText(rows[0], d) + (end + TableText(rows[1..], d, end))
    ensures TableValues(rows) == [ValuesOf(rows[0])] + TableValues(rows[1..])
  {
  }

  lemma RowAndRest(row: seq<Shown>, d: char, end: string, rest: seq<Item>, more: string, tail: string, values: seq<seq<string>>)
    requires RowOk(row, d) && IsLineEnd(end) && rest != [] && WellFormed(rest, d) && Rows(rest) == values
    requires Render(rest, d) == more + tail && more + tail != "" && (end == "\r" ==> (more + tail)[0] != '\n')
    ensures var items := RowItems(row, Newline(end)) + rest;
            && items != [] && WellFormed(items, d) && Rows(items) == [ValuesOf(row)] + values
            && Render(items, d) == (RowText(row, d) + (end + more)) + tail
  {
    RowInFront(row, Newline(end), rest, d, values, RowItems(row, Newline(end)) + rest);
    RowOnTop(row, rest, d, end, more, tail);
  }

  lemma RowOnTop(row: seq<Shown>, rest: seq<Item>, d: char, end: string, more: string, tail: string)
    requires RowOk(row, d) && Render(rest, d) == more + tail
    ensures Render(RowItems(row, Newline(end)) + rest, d) == (RowText(row, d) + (end + more)) + tail
  {
    RowItemsText(row, Newline(end), d);
    RenderConcat(RowItems(row, Newline(end)), rest, d);
    AssociateFour(RowText(row, d), end, more, tail);
  }

  /** The text of a table, with or without a line end at the end, reads back as the table: the same rows, columns
      and values. Only a last row without any text needs the line end. */
  lemma TableReadsBack(rows: seq<seq<Shown>>, d: char, end: string)
    requires TableOk(rows, d) && LegalDelimiter(d) && IsLineEnd(end)
    ensures Rows(Scan(TableText(rows, d, end) + end, d)) == TableValues(rows)
    ensures |rows| == 1 || RowText(rows[|rows| - 1], d) != "" ==> Rows(Scan(TableText(rows, d, end), d)) == TableValues(rows)
  {
    TableLayout(rows, d, end, Newline(end));
    ScanOfRender(TableItems(rows, end, Newline(end)), d);
    if |rows| == 1 || RowText(rows[|rows| - 1], d) != "" {
      TableLayout(rows, d, end, End);
      ScanOfRender(TableItems(rows, end, End), d);
      assert TableText(rows, d, end) + "" == TableText(rows, d, end);
    }
  }
}
