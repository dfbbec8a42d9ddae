/** The offset scanner `_csv_cells` and `CsvHandler.units` / `rewrite` over it (app/desktop/formats.py). The
    methods keep the source's index arithmetic; each is proved against the cells and terminators of the
    layout grammar, so what holds of rewritten layouts holds of rewritten texts. */
module CsvScanner {
  import opened Entities
  import opened Sequences
  import opened Splicing
  import opened CsvLayout
  import opened Csv

  /** Where a cell's content stands in the text; inside the quotes if it is quoted. */
  datatype Span = Span(start: nat, end: nat, quoted: bool)

  function Content(c: Cell): string {
    match c
    case Plain(s) => s
    case Quoted(body, _, _) => body
  }

  /** What stands before and behind a cell's content. */
  function Opening(c: Cell): string { if c.Quoted? then "\"" else "" }

  function Closing(c: Cell): string { if c.Quoted? && c.closed then "\"" + c.junk else "" }

  function SpanOf(c: Cell, off: nat): Span {
    Span(off + |Opening(c)|, off + |Opening(c)| + |Content(c)|, c.Quoted?)
  }

  function ItemLen(i: Item, d: char): nat { |RawCell(i.cell)| + |TermText(i.term, d)| }

  function Spans(items: seq<Item>, off: nat, d: char): (r: seq<Span>)
    ensures |r| == |items|
    decreases |items|
  {
    if items == [] then [] else [SpanOf(items[0].cell, off)] + Spans(items[1..], off + ItemLen(items[0], d), d)
  }

  /** `row` continued by the first of the remaining rows. */
  function Prepend(row: seq<Span>, rows: seq<seq<Span>>): seq<seq<Span>>
    requires rows != []
  {
    [row + rows[0]] + rows[1..]
  }

  function SpanRows(items: seq<Item>, off: nat, d: char): (r: seq<seq<Span>>)
    requires items != []
    ensures r != []
    decreases |items|
  {
    var span := SpanOf(items[0].cell, off);
    if |items| == 1 then [[span]]
    else
      var rest := SpanRows(items[1..], off + ItemLen(items[0], d), d);
      if items[0].term.Delim? then Prepend([span], rest) else [[span]] + rest
  }

  function Flatten(rows: seq<seq<Span>>): seq<Span> {
    if rows == [] then [] else rows[0] + Flatten(rows[1..])
  }

  lemma FlattenPrepend(span: Span, rest: seq<seq<Span>>)
    requires rest != []
    ensures Flatten(Prepend([span], rest)) == [span] + Flatten(rest)
    ensures Flatten([[span]] + rest) == [span] + Flatten(rest)
  {
    assert Prepend([span], rest)[1..] == rest[1..] && ([[span]] + rest)[1..] == rest;
    assert ([span] + rest[0]) + Flatten(rest[1..]) == [span] + (rest[0] + Flatten(rest[1..]));
  }

  lemma FlattenOne(span: Span)
    ensures Flatten([[span]]) == [span]
  {
    assert [[span]][1..] == [];
  }

  lemma {:induction false} FlattenSpanRows(items: seq<Item>, off: nat, d: char)
    requires items != []
    ensures Flatten(SpanRows(items, off, d)) == Spans(items, off, d)
    decreases |items|
  {
    var span, next := SpanOf(items[0].cell, off), off + ItemLen(items[0], d);
    if |items| == 1 {
      FlattenOne(span);
      assert Spans(items[1..], next, d) == [];
    } else {
      FlattenSpanRows(items[1..], next, d);
      FlattenPrepend(span, SpanRows(items[1..], next, d));
      SpanRowsUnfold(items, off, d);
    }
  }

  lemma SpanRowsUnfold(items: seq<Item>, off: nat, d: char)
    requires |items| > 1
    ensures var span, rest := SpanOf(items[0].cell, off), SpanRows(items[1..], off + ItemLen(items[0], d), d);
            SpanRows(items, off, d) == if items[0].term.Delim? then Prepend([span], rest) else [[span]] + rest
    ensures Spans(items, off, d) == [SpanOf(items[0].cell, off)] + Spans(items[1..], off + ItemLen(items[0], d), d)
  {
  }

  /** Every item but the last ends with a delimiter or a line break. */
  predicate Terminated(items: seq<Item>, d: char) {
    |items| <= 1 || (TermText(items[0].term, d) != "" && Terminated(items[1..], d))
  }

  lemma {:induction false} LooseIsTerminated(items: seq<Item>, d: char)
    requires Loose(items, d)
    ensures Terminated(items, d)
  {
    if |items| > 1 { LooseIsTerminated(items[1..], d); }
  }

  lemma SpanWithinCell(c: Cell, off: nat)
    ensures var s := SpanOf(c, off); off <= s.start <= s.end <= off + |RawCell(c)|
  {
  }

  /** Each span begins behind the one before it, and all lie below `n`. */
  predicate InOrder(spans: seq<Span>, from: nat, n: nat)
    decreases |spans|
  {
    spans == [] || (from <= spans[0].start <= spans[0].end <= n && InOrder(spans[1..], spans[0].end + 1, n))
  }

  lemma InOrderCons(s: Span, later: seq<Span>, from: nat, next: nat, n: nat)
    requires from <= s.start <= s.end <= n && InOrder(later, next, n) && (later != [] ==> s.end < next)
    ensures InOrder([s] + later, from, n)
  {
    assert ([s] + later)[1..] == later;
  }

  lemma RenderLen(items: seq<Item>, d: char)
    requires items != []
    ensures |Render(items, d)| == ItemLen(items[0], d) + |Render(items[1..], d)|
  {
  }

  /** The spans are in order, disjoint, and within the text. */
  lemma {:induction false} SpansInOrder(items: seq<Item>, off: nat, n: nat, d: char)
    requires Terminated(items, d) && off + |Render(items, d)| <= n
    ensures InOrder(Spans(items, off, d), off, n)
    decreases |items|
  {
    if items != [] {
      var next := off + ItemLen(items[0], d);
      RenderLen(items, d);
      SpanWithinCell(items[0].cell, off);
      SpansInOrder(items[1..], next, n, d);
      InOrderCons(SpanOf(items[0].cell, off), Spans(items[1..], next, d), off, next, n);
    }
  }

  /** Any two spans are apart. */
  lemma {:induction false} InOrderApart(spans: seq<Span>, from: nat, n: nat, k: nat, m: nat)
    requires InOrder(spans, from, n) && k < m < |spans|
    ensures from <= spans[k].start <= spans[k].end < spans[m].start <= spans[m].end <= n
    decreases |spans|
  {
    if k > 0 {
      InOrderApart(spans[1..], spans[0].end + 1, n, k - 1, m - 1);
    } else if m > 1 {
      InOrderApart(spans[1..], spans[0].end + 1, n, 0, m - 1);
    }
  }

  /** The cells the scanner records, in reading order, lie apart and within the text. */
  lemma SpansApart(text: string, d: char, k: nat, m: nat)
    requires LegalDelimiter(d) && k < m < |Flatten(SpanRows(Scan(text, d), 0, d))|
    ensures var spans := Flatten(SpanRows(Scan(text, d), 0, d));
            spans[k].start <= spans[k].end < spans[m].start <= spans[m].end <= |text|
  {
    var items := Scan(text, d);
    RenderOfScan(text, d);
    WellFormedIsLoose(items, d);
    LooseIsTerminated(items, d);
    SpansInOrder(items, 0, |text|, d);
    FlattenSpanRows(items, 0, d);
    InOrderApart(Spans(items, 0, d), 0, |text|, k, m);
  }

  lemma CellParts(c: Cell)
    ensures RawCell(c) == Opening(c) + (Content(c) + Closing(c))
  {
    if c.Plain? {
      assert "" + (c.s + "") == c.s;
    } else if !c.closed {
      assert c.body + "" == c.body;
    }
  }

  lemma Regroup(before: string, a: string, b: string, c: string, after: string)
    ensures before + ((a + (b + c)) + after) == (before + a) + (b + (c + after))
  {
  }

  lemma ContentInRaw(text: string, before: string, c: Cell, after: string)
    requires text == before + (RawCell(c) + after)
    ensures var s := SpanOf(c, |before|); s.start <= s.end <= |text| && text[s.start..s.end] == Content(c)
  {
    CellParts(c);
    Regroup(before, Opening(c), Content(c), Closing(c), after);
    MiddleOf(text, before + Opening(c), Content(c), Closing(c) + after);
  }

  lemma MiddleOf(text: string, before: string, s: string, after: string)
    requires text == before + (s + after)
    ensures |before| + |s| <= |text| && text[|before|..|before| + |s|] == s
  {
  }

  // ---- the scanner -------------------------------------------------------------------

  lemma QuoteEndStep(t: string)
    requires t != ""
    ensures t[0] != '"' ==> QuoteEnd(t) == 1 + QuoteEnd(t[1..])
    ensures t[0] == '"' && |t| > 1 && t[1] == '"' ==> QuoteEnd(t) == 2 + QuoteEnd(t[2..])
    ensures t[0] == '"' && (|t| == 1 || t[1] != '"') ==> QuoteEnd(t) == 0
  {
  }

  /** Advance over the content behind an opening quote. */
  method FindQuoteEnd(text: string, from: nat) returns (j: nat)
    requires from <= |text|
    ensures j == from + QuoteEnd(text[from..])
  {
    j := from;
    while j < |text|
      invariant from <= j <= |text| && from + QuoteEnd(text[from..]) == j + QuoteEnd(text[j..])
      decreases |text| - j
    {
      QuoteEndStep(text[j..]);
      if text[j] == '"' {
        if j + 1 < |text| && text[j + 1] == '"' {
          assert text[j..][2..] == text[j + 2..];
          j := j + 2;
          continue;
        }
        break;
      }
      assert text[j..][1..] == text[j + 1..];
      j := j + 1;
    }
  }

  /** Advance to the next delimiter or line break. */
  method FindBreak(text: string, from: nat, d: char) returns (j: nat)
    requires from <= |text|
    ensures j == from + RunLen(text[from..], d)
  {
    j := from;
    while j < |text| && !IsBreak(text[j], d)
      invariant from <= j <= |text| && from + RunLen(text[from..], d) == j + RunLen(text[j..], d)
    {
      assert text[j..][1..] == text[j + 1..];
      j := j + 1;
    }
  }

  /** One cell at index `i`, and where the text goes on. */
  method ScanCellAt(text: string, i: nat, d: char) returns (span: Span, next: nat)
    requires i <= |text|
    ensures CellDone(text, d, i, span, next) && i <= next
  {
    if i < |text| && text[i] == '"' {
      span, next := ScanQuotedAt(text, i, d);
    } else {
      next := FindBreak(text, i, d);
      span := Span(i, next, false);
      DropMore(text, i, next - i);
    }
  }

  method ScanQuotedAt(text: string, i: nat, d: char) returns (span: Span, next: nat)
    requires i < |text| && text[i] == '"'
    ensures CellDone(text, d, i, span, next) && i <= next
  {
    var j := FindQuoteEnd(text, i + 1);
    span, next := Span(i + 1, j, true), j + 1;
    if next <= |text| { next := FindBreak(text, next, d); }
    QuotedDone(text, i, d, j, span, next);
  }

  /** What a quoted cell's closing quote at `j` makes of it. */
  lemma QuotedDone(text: string, i: nat, d: char, j: nat, span: Span, next: nat)
    requires i < |text| && text[i] == '"' && j == i + 1 + QuoteEnd(text[i + 1..]) && span == Span(i + 1, j, true)
    requires next == if j + 1 <= |text| then j + 1 + RunLen(text[j + 1..], d) else j + 1
    ensures CellDone(text, d, i, span, next)
  {
    if j + 1 <= |text| { ClosedDone(text, i, d, text[i + 1..], text[j + 1..], j - i - 1, span, next); } else { OpenDone(text, i, d, j, span, next); }
  }

  lemma ClosedDone(text: string, i: nat, d: char, u: string, after: string, e: nat, span: Span, next: nat)
    requires i + 2 + e <= |text| && text[i] == '"' && u == text[i + 1..] && after == text[i + 2 + e..]
    requires e == QuoteEnd(u) && span == Span(i + 1, i + 1 + e, true) && next == i + 2 + e + RunLen(after, d)
    ensures CellDone(text, d, i, span, next)
  {
    ClosedSlices(text, i, e, RunLen(after, d));
    ClosedAt(text, i, d, u, after, text[next..], e, RunLen(after, d), span, next);
  }

  lemma ClosedSlices(text: string, i: nat, e: nat, k: nat)
    requires i + 2 + e + k <= |text|
    ensures text[i + 1..][e + 1..] == text[i + 2 + e..] && text[i + 2 + e..][k..] == text[i + 2 + e + k..]
  {
  }

  lemma ClosedAt(text: string, i: nat, d: char, u: string, after: string, rest: string, e: nat, k: nat, span: Span, next: nat)
    requires i < |text| && text[i] == '"' && u == text[i + 1..] && e == QuoteEnd(u) < |u|
    requires after == u[e + 1..] && k == RunLen(after, d) && rest == after[k..]
    requires next == i + 2 + e + k && span == Span(i + 1, i + 1 + e, true)
    requires if next < |text| then rest == text[next..] else rest == ""
    ensures CellDone(text, d, i, span, next)
  {
    QuotedScan(text, i, d, u);
    ClosedQuote(u, d, e, after);
    DoneAs(text, d, i, span, next, Quoted(u[..e], true, after[..k]), rest);
  }

  lemma OpenDone(text: string, i: nat, d: char, j: nat, span: Span, next: nat)
    requires i < |text| && text[i] == '"' && j == i + 1 + QuoteEnd(text[i + 1..]) && span == Span(i + 1, j, true)
    requires j + 1 > |text| && next == j + 1
    ensures CellDone(text, d, i, span, next)
  {
    var u := text[i + 1..];
    QuotedScan(text, i, d, u);
    DoneAs(text, d, i, span, next, Quoted(u, false, ""), "");
  }

  lemma QuotedScan(text: string, i: nat, d: char, u: string)
    requires i < |text| && text[i] == '"' && u == text[i + 1..]
    ensures ScanCell(text[i..], d) == ScanQuoted(u, d)
  {
    DropMore(text, i, 1);
  }

  lemma DoneAs(text: string, d: char, i: nat, span: Span, next: nat, c: Cell, rest: string)
    requires i <= |text| && ScanCell(text[i..], d) == (c, rest) && span == SpanOf(c, i)
    requires if next < |text| then rest == text[next..] && next == i + |RawCell(c)| else rest == ""
    ensures CellDone(text, d, i, span, next)
  {
  }

  lemma ClosedQuote(u: string, d: char, e: nat, after: string)
    requires e == QuoteEnd(u) < |u| && after == u[e + 1..]
    ensures var k := RunLen(after, d);
            ScanQuoted(u, d) == (Quoted(u[..e], true, after[..k]), after[k..])
            && |RawCell(Quoted(u[..e], true, after[..k]))| == 2 + e + k
  {
  }

  /** The cell at `i` has been scanned and the text goes on at `next`. */
  ghost predicate CellDone(text: string, d: char, i: nat, span: Span, next: nat) {
    && i <= |text|
    && var (c, rest) := ScanCell(text[i..], d);
       span == SpanOf(c, i)
       && (if next < |text| then rest == text[next..] && next == i + |RawCell(c)| else rest == "")
  }

  /** The text from `i` on is the layout `items`. */
  ghost predicate Standing(text: string, d: char, items: seq<Item>, i: nat) {
    LegalDelimiter(d) && i <= |text| && text[i..] == Render(items, d) && WellFormed(items, d)
  }

  lemma FirstCell(text: string, d: char, items: seq<Item>, i: nat)
    requires Standing(text, d, items, i)
    ensures ScanCell(text[i..], d) == (items[0].cell, TermText(items[0].term, d) + Render(items[1..], d))
  {
    var t, tail := items[0].term, Render(items[1..], d);
    if t == Newline("\r") && items[1..] != [] { assert tail[0] != '\n'; }
    ScanTermOfText(t, tail, d);
    assert t.End? ==> TermText(t, d) + tail == "";
    ScanCellOfRaw(items[0].cell, TermText(t, d) + tail, d);
  }

  function AfterBreak(text: string, next: nat): nat
    requires next < |text|
  {
    if text[next] == '\r' && next + 1 < |text| && text[next + 1] == '\n' then next + 2 else next + 1
  }

  /** What the scan finds behind the first cell. */
  lemma FirstTerm(text: string, d: char, items: seq<Item>, i: nat, span: Span, next: nat)
    requires Standing(text, d, items, i) && CellDone(text, d, i, span, next)
    ensures span == SpanOf(items[0].cell, i)
    ensures next >= |text| ==> items[0].term.End? && |items| == 1
    ensures next < |text| && text[next] == d ==>
              items[0].term.Delim? && |items| > 1 && Standing(text, d, items[1..], next + 1)
              && next + 1 == i + ItemLen(items[0], d)
    ensures next < |text| && text[next] != d ==>
              var i' := AfterBreak(text, next);
              items[0].term.Newline? && (i' == |text| ==> |items| == 1)
              && (i' < |text| ==> |items| > 1 && Standing(text, d, items[1..], i'))
              && i' == i + ItemLen(items[0], d)
  {
    FirstCell(text, d, items, i);
    var t, tail := items[0].term, Render(items[1..], d);
    if t == Newline("\r") && items[1..] != [] { assert tail[0] != '\n'; }
    ScanTermOfText(t, tail, d);
    if next < |text| {
      if text[next] == d { NextDelim(text, next, d); } else { NextNewline(text, next, d); }
    }
  }

  /** Rows done, the row under way, and the layout still ahead make up the whole. */
  ghost predicate Scanning(total: seq<seq<Span>>, d: char, rows: seq<seq<Span>>, row: seq<Span>,
                           items: seq<Item>, i: nat)
  {
    items != [] && total == rows + Prepend(row, SpanRows(items, i, d))
  }

  lemma AtEnd(total: seq<seq<Span>>, d: char, rows: seq<seq<Span>>, row: seq<Span>, items: seq<Item>, i: nat,
              span: Span)
    requires Scanning(total, d, rows, row, items, i) && |items| == 1 && span == SpanOf(items[0].cell, i)
    ensures total == rows + [row + [span]]
  {
    assert Prepend(row, [[span]]) == [row + [span]];
  }

  lemma AtDelim(total: seq<seq<Span>>, d: char, rows: seq<seq<Span>>, row: seq<Span>, items: seq<Item>, i: nat,
                span: Span, i': nat)
    requires Scanning(total, d, rows, row, items, i) && |items| > 1 && items[0].term.Delim?
    requires span == SpanOf(items[0].cell, i) && i' == i + ItemLen(items[0], d)
    ensures Scanning(total, d, rows, row + [span], items[1..], i')
  {
    PrependTwice(row, span, SpanRows(items[1..], i', d));
  }

  lemma AtNewline(total: seq<seq<Span>>, d: char, rows: seq<seq<Span>>, row: seq<Span>, items: seq<Item>, i: nat,
                  span: Span, i': nat)
    requires Scanning(total, d, rows, row, items, i) && |items| > 1 && items[0].term.Newline?
    requires span == SpanOf(items[0].cell, i) && i' == i + ItemLen(items[0], d)
    ensures Scanning(total, d, rows + [row + [span]], [], items[1..], i')
  {
    RowEnds(rows, row, span, SpanRows(items[1..], i', d));
  }

  lemma RowEnds(rows: seq<seq<Span>>, row: seq<Span>, span: Span, rest: seq<seq<Span>>)
    requires rest != []
    ensures rows + Prepend(row, [[span]] + rest) == rows + [row + [span]] + Prepend([], rest)
  {
    assert Prepend(row, [[span]] + rest) == [row + [span]] + rest;
    PrependNone(rest);
  }

  /** Every cell of every row, as offsets into the text. */
  method CsvCells(text: string, d: char) returns (rows: seq<seq<Span>>)
    requires LegalDelimiter(d)
    ensures rows == SpanRows(Scan(text, d), 0, d)
  {
    RenderOfScan(text, d);
    assert text[0..] == text;
    PrependNone(SpanRows(Scan(text, d), 0, d));
    rows := ScanRows(text, d, Scan(text, d), SpanRows(Scan(text, d), 0, d));
  }

  method ScanRows(text: string, d: char, ghost layout: seq<Item>, ghost total: seq<seq<Span>>)
    returns (rows: seq<seq<Span>>)
    requires Standing(text, d, layout, 0) && Scanning(total, d, [], [], layout, 0)
    ensures rows == total
  {
    ghost var items := layout;
    rows := [];
    var row: seq<Span> := [];
    var i: nat := 0;
    while true
      invariant Standing(text, d, items, i) && Scanning(total, d, rows, row, items, i)
      decreases |items|
    {
      var span, next := ScanCellAt(text, i, d);
      FirstTerm(text, d, items, i, span, next);
      if next >= |text| {
        AtEnd(total, d, rows, row, items, i, span);
        rows := rows + [row + [span]];
        break;
      }
      if text[next] == d {
        AtDelim(total, d, rows, row, items, i, span, next + 1);
        row, i, items := row + [span], next + 1, items[1..];
        continue;
      }
      var i' := AfterBreak(text, next);
      if i' == |text| {
        AtEnd(total, d, rows, row, items, i, span);
      } else {
        AtNewline(total, d, rows, row, items, i, span, i');
      }
      i := i';
      rows := rows + [row + [span]];
      row := [];
      if i == |text| { break; }
      items := items[1..];
    }
  }

  lemma NextDelim(text: string, at: nat, d: char)
    requires at < |text| && text[at] == d
    ensures ScanTerm(text[at..], d) == (Delim, text[at + 1..])
  {
    assert text[at..][0] == text[at] && text[at..][1..] == text[at + 1..];
  }

  lemma NextNewline(text: string, at: nat, d: char)
    requires at < |text| && text[at] != d
    ensures var two := text[at] == '\r' && at + 1 < |text| && text[at + 1] == '\n';
            var (t, rest) := ScanTerm(text[at..], d);
            t.Newline? && |t.s| == (if two then 2 else 1) && rest == text[at + |t.s|..]
  {
    var u := text[at..];
    assert u[0] == text[at] && u[1..] == text[at + 1..];
    if at + 1 < |text| { assert u[1] == text[at + 1] && u[2..] == text[at + 2..]; }
  }

  lemma PrependNone(rows: seq<seq<Span>>)
    requires rows != []
    ensures Prepend([], rows) == rows
  {
    assert [] + rows[0] == rows[0];
  }

  lemma PrependTwice(row: seq<Span>, span: Span, rest: seq<seq<Span>>)
    requires rest != []
    ensures Prepend(row, Prepend([span], rest)) == Prepend(row + [span], rest)
  {
    assert row + ([span] + rest[0]) == row + [span] + rest[0];
  }

  // ---- units -------------------------------------------------------------------------

  predicate InText(text: string, c: Span) { c.start <= c.end <= |text| }

  predicate AllIn(text: string, spans: seq<Span>) {
    spans == [] || (InText(text, spans[0]) && AllIn(text, spans[1..]))
  }

  /** `CsvHandler._cell` */
  function CellValue(text: string, c: Span): string
    requires InText(text, c)
  {
    var s := text[c.start..c.end];
    if c.quoted then Unescape(s) else s
  }

  function ValuesOf(text: string, spans: seq<Span>): seq<string>
    requires AllIn(text, spans)
  {
    if spans == [] then [] else [CellValue(text, spans[0])] + ValuesOf(text, spans[1..])
  }

  /** The decoded cells in reading order, which are the units a document is processed by. */
  function Units(text: string, d: char): (r: seq<string>)
    ensures |r| == |Scan(text, d)|
  {
    var items := Scan(text, d);
    seq(|items|, k requires 0 <= k < |items| => Decode(items[k].cell))
  }

  function Decoded(items: seq<Item>): (r: seq<string>)
    ensures |r| == |items|
  {
    if items == [] then [] else [Decode(items[0].cell)] + Decoded(items[1..])
  }

  lemma {:induction false} DecodedAt(items: seq<Item>, k: nat)
    requires k < |items|
    ensures Decoded(items)[k] == Decode(items[k].cell)
  {
    if k > 0 { DecodedAt(items[1..], k - 1); }
  }

  lemma UnitsAreDecoded(text: string, d: char)
    ensures Units(text, d) == Decoded(Scan(text, d))
  {
    forall k | 0 <= k < |Scan(text, d)| ensures Units(text, d)[k] == Decoded(Scan(text, d))[k] {
      DecodedAt(Scan(text, d), k);
    }
  }

  /** The span holds the content of its cell. */
  lemma HeadReads(text: string, before: string, c: Cell, after: string)
    requires text == before + (RawCell(c) + after)
    ensures InText(text, SpanOf(c, |before|)) && CellValue(text, SpanOf(c, |before|)) == Decode(c)
  {
    ContentInRaw(text, before, c, after);
  }

  lemma ReadsCons(text: string, items: seq<Item>, off: nat, d: char)
    requires items != [] && InText(text, SpanOf(items[0].cell, off))
    requires CellValue(text, SpanOf(items[0].cell, off)) == Decode(items[0].cell)
    requires var later := Spans(items[1..], off + ItemLen(items[0], d), d);
             AllIn(text, later) && ValuesOf(text, later) == Decoded(items[1..])
    ensures AllIn(text, Spans(items, off, d)) && ValuesOf(text, Spans(items, off, d)) == Decoded(items)
  {
    assert Spans(items, off, d)[1..] == Spans(items[1..], off + ItemLen(items[0], d), d);
  }

  lemma RenderStep(text: string, before: string, items: seq<Item>, d: char)
    requires items != [] && text == before + Render(items, d)
    ensures text == (before + (RawCell(items[0].cell) + TermText(items[0].term, d))) + Render(items[1..], d)
    ensures text == before + ((RawCell(items[0].cell) + TermText(items[0].term, d)) + Render(items[1..], d))
    ensures text == before + (RawCell(items[0].cell) + (TermText(items[0].term, d) + Render(items[1..], d)))
  {
    AssociateFour(before, RawCell(items[0].cell), TermText(items[0].term, d), Render(items[1..], d));
  }

  lemma LayoutHead(text: string, before: string, items: seq<Item>, d: char)
    requires items != [] && text == before + Render(items, d)
    ensures InText(text, SpanOf(items[0].cell, |before|))
    ensures CellValue(text, SpanOf(items[0].cell, |before|)) == Decode(items[0].cell)
  {
    RenderStep(text, before, items, d);
    HeadReads(text, before, items[0].cell, TermText(items[0].term, d) + Render(items[1..], d));
  }

  lemma {:induction false} LayoutReads(text: string, before: string, items: seq<Item>, off: nat, d: char)
    requires text == before + Render(items, d) && off == |before|
    ensures AllIn(text, Spans(items, off, d)) && ValuesOf(text, Spans(items, off, d)) == Decoded(items)
    decreases |items|
  {
    if items != [] {
      LayoutHead(text, before, items, d);
      RenderStep(text, before, items, d);
      LayoutReads(text, before + (RawCell(items[0].cell) + TermText(items[0].term, d)), items[1..],
                  off + ItemLen(items[0], d), d);
      ReadsCons(text, items, off, d);
    }
  }

  /** The text is the rendering of its scan, so every span holds its cell. */
  lemma ScanReads(text: string, d: char)
    requires LegalDelimiter(d)
    ensures AllIn(text, Spans(Scan(text, d), 0, d))
    ensures ValuesOf(text, Spans(Scan(text, d), 0, d)) == Decoded(Scan(text, d)) == Units(text, d)
  {
    RenderOfScan(text, d);
    assert "" + text == text;
    LayoutReads(text, "", Scan(text, d), 0, d);
    UnitsAreDecoded(text, d);
  }

  lemma {:induction false} AllInConcat(text: string, a: seq<Span>, b: seq<Span>)
    ensures AllIn(text, a + b) <==> AllIn(text, a) && AllIn(text, b)
    ensures AllIn(text, a + b) ==> ValuesOf(text, a + b) == ValuesOf(text, a) + ValuesOf(text, b)
  {
    if a == [] {
      assert a + b == b;
    } else {
      assert (a + b)[1..] == a[1..] + b;
      AllInConcat(text, a[1..], b);
    }
  }

  lemma PrefixIn(text: string, row: seq<Span>, ci: nat)
    requires AllIn(text, row) && ci <= |row|
    ensures AllIn(text, row[..ci])
  {
    assert row == row[..ci] + row[ci..];
    AllInConcat(text, row[..ci], row[ci..]);
  }

  lemma RowStep(text: string, row: seq<Span>, ci: nat)
    requires AllIn(text, row) && ci < |row|
    ensures AllIn(text, row[..ci]) && InText(text, row[ci]) && AllIn(text, row[..ci + 1])
    ensures ValuesOf(text, row[..ci + 1]) == ValuesOf(text, row[..ci]) + [CellValue(text, row[ci])]
  {
    TakeSnoc(row, ci);
    PrefixIn(text, row, ci);
    PrefixIn(text, row, ci + 1);
    AllInConcat(text, row[..ci], [row[ci]]);
    assert [row[ci]][1..] == [];
  }

  /** The values of one row. */
  method ReadRow(text: string, row: seq<Span>) returns (out: seq<string>)
    requires AllIn(text, row)
    ensures out == ValuesOf(text, row)
  {
    out := [];
    for ci := 0 to |row|
      invariant AllIn(text, row[..ci]) && out == ValuesOf(text, row[..ci])
    {
      RowStep(text, row, ci);
      out := out + [CellValue(text, row[ci])];
    }
    assert row[..|row|] == row;
  }

  /** Every cell of every row. */
  method ReadUnits(text: string, d: char) returns (out: seq<string>)
    requires LegalDelimiter(d)
    ensures out == Units(text, d)
  {
    var rows := CsvCells(text, d);
    FlattenSpanRows(Scan(text, d), 0, d);
    ScanReads(text, d);
    out := ReadRows(text, rows);
  }

  method ReadRows(text: string, rows: seq<seq<Span>>) returns (out: seq<string>)
    requires AllIn(text, Flatten(rows))
    ensures out == ValuesOf(text, Flatten(rows))
  {
    out := [];
    assert rows[..0] == [];
    for ri := 0 to |rows|
      invariant AllIn(text, Flatten(rows[..ri])) && out == ValuesOf(text, Flatten(rows[..ri]))
    {
      RowsStep(text, rows, ri);
      var values := ReadRow(text, rows[ri]);
      out := out + values;
    }
    assert rows[..|rows|] == rows;
  }

  lemma RowsStep(text: string, rows: seq<seq<Span>>, ri: nat)
    requires AllIn(text, Flatten(rows)) && ri < |rows|
    ensures AllIn(text, Flatten(rows[..ri])) && AllIn(text, rows[ri]) && AllIn(text, Flatten(rows[..ri + 1]))
    ensures ValuesOf(text, Flatten(rows[..ri + 1])) == ValuesOf(text, Flatten(rows[..ri])) + ValuesOf(text, rows[ri])
  {
    FlatRow(rows, ri);
    AllInConcat(text, Flatten(rows[..ri + 1]), Flatten(rows[ri + 1..]));
    AllInConcat(text, Flatten(rows[..ri]), rows[ri]);
  }

  lemma {:induction false} FlattenConcat(a: seq<seq<Span>>, b: seq<seq<Span>>)
    ensures Flatten(a + b) == Flatten(a) + Flatten(b)
  {
    if a == [] {
      assert a + b == b;
    } else {
      assert (a + b)[1..] == a[1..] + b;
      FlattenConcat(a[1..], b);
    }
  }

  /** Row `ri` stands in the flat list behind all earlier rows. */
  lemma FlatRow(rows: seq<seq<Span>>, ri: nat)
    requires ri < |rows|
    ensures Flatten(rows[..ri + 1]) == Flatten(rows[..ri]) + rows[ri]
    ensures Flatten(rows) == Flatten(rows[..ri + 1]) + Flatten(rows[ri + 1..])
  {
    TakeSnoc(rows, ri);
    assert rows == rows[..ri + 1] + rows[ri + 1..];
    FlattenConcat(rows[..ri], [rows[ri]]);
    assert [rows[ri]][1..] == [] && Flatten([rows[ri]]) == rows[ri] + [];
    FlattenConcat(rows[..ri + 1], rows[ri + 1..]);
  }

  // ---- rewriting ---------------------------------------------------------------------

  /** The raw text that replaces a cell's content. */
  function NewRaw(c: Cell, v: string): string {
    if c.Quoted? then Escape(v)
    else if NeedsQuotes(v, c.s) then "\"" + Escape(v) + "\""
    else v
  }

  /** The raw replacements for the edited cells, from item `k` on. */
  function RawReps(items: seq<Item>, edits: seq<Option<string>>, off: nat, d: char): seq<Replacement<char>>
    requires |edits| == |items|
    decreases |items|
  {
    if items == [] then []
    else
      var s := SpanOf(items[0].cell, off);
      (if edits[0].Some? then [Replacement(s.start, s.end, NewRaw(items[0].cell, edits[0].value))] else [])
      + RawReps(items[1..], edits[1..], off + ItemLen(items[0], d), d)
  }

  /** Swapping a cell's content for the new raw text gives the edited cell. */
  lemma EditParts(c: Cell, v: string)
    ensures c.Plain? ==> RawCell(EditCell(c, Some(v))) == NewRaw(c, v)
    ensures c.Quoted? && c.closed ==> RawCell(EditCell(c, Some(v))) == "\"" + (NewRaw(c, v) + ("\"" + c.junk))
    ensures c.Quoted? && !c.closed ==> RawCell(EditCell(c, Some(v))) == "\"" + NewRaw(c, v)
  {
    assert "\"" + Escape(v) + "\"" == "\"" + (Escape(v) + ("\"" + ""));
  }

  lemma OpenParts(c: Cell, v: string)
    requires c.Quoted? && !c.closed
    ensures NewRaw(c, v) == Escape(v) && RawCell(c) == "\"" + c.body
    ensures RawCell(EditCell(c, Some(v))) == "\"" + Escape(v)
  {
  }

  lemma ClosedParts(c: Cell, v: string)
    requires c.Quoted? && c.closed
    ensures NewRaw(c, v) == Escape(v) && RawCell(c) == "\"" + (c.body + ("\"" + c.junk))
    ensures RawCell(EditCell(c, Some(v))) == "\"" + (Escape(v) + ("\"" + c.junk))
  {
  }

  /** Replacing the content of a raw cell, with more replacements behind its terminator. */
  lemma PutCell(text: string, before: string, a: string, b: string, c: string, term: string, tail: string,
                put: string, raw: string, edited: string, next: nat, reps: seq<Replacement<char>>, rest: string)
    requires raw == a + (b + c) && edited == a + (put + c) && text == before + ((raw + term) + tail)
    requires next == |before| + |raw| + |term| && Ordered(|text|, next, reps) && Splice(text, next, reps) == rest
    ensures var all := [Replacement(|before| + |a|, |before| + |a| + |b|, put)] + reps;
            Ordered(|text|, |before|, all) && Splice(text, |before|, all) == edited + (term + rest)
  {
    var start, end := |before| + |a|, |before| + |a| + |b|;
    PutSlices(text, before, a, b, c, term, tail);
    SpliceAhead(text, end, next, reps);
    SpliceOne(text, |before|, Replacement(start, end, put), reps, a, (c + term) + rest);
    GlueAfter(a, put, c, term, rest);
  }

  lemma PutSlices(text: string, before: string, a: string, b: string, c: string, term: string, tail: string)
    requires text == before + (((a + (b + c)) + term) + tail)
    ensures var start, end := |before| + |a|, |before| + |a| + |b|;
            && end + |c + term| <= |text|
            && text[|before|..start] == a && text[end..end + |c + term|] == c + term
  {
    GlueBefore(before, a, b, c, term, tail);
    Slices(text, before, a, b, c + term, tail);
  }

  lemma SpliceOne(text: string, off: nat, r: Replacement<char>, reps: seq<Replacement<char>>, ahead: string, behind: string)
    requires off <= r.start <= r.end <= |text| && text[off..r.start] == ahead
    requires Ordered(|text|, r.end, reps) && Splice(text, r.end, reps) == behind
    ensures Ordered(|text|, off, [r] + reps) && Splice(text, off, [r] + reps) == ahead + (r.content + behind)
  {
    assert ([r] + reps)[1..] == reps;
  }

  lemma GlueBefore(before: string, a: string, b: string, c: string, term: string, tail: string)
    ensures before + (((a + (b + c)) + term) + tail) == (before + a) + (b + ((c + term) + tail))
  {
  }

  lemma GlueAfter(a: string, put: string, c: string, term: string, rest: string)
    ensures (a + (put + c)) + (term + rest) == a + (put + ((c + term) + rest))
  {
  }

  lemma Slices(text: string, before: string, a: string, b: string, c: string, tail: string)
    requires text == (before + a) + (b + (c + tail))
    ensures |before| + |a| + |b| + |c| <= |text| && text[|before|..|before| + |a|] == a
    ensures text[|before| + |a| + |b|..|before| + |a| + |b| + |c|] == c
  {
  }

  /** Replacing the contents at their offsets is rendering the edited layout. */
  lemma {:induction false} RawRepsRender(text: string, before: string, items: seq<Item>, edits: seq<Option<string>>,
                                         off: nat, d: char)
    requires |edits| == |items| && text == before + Render(items, d) && off == |before|
    ensures Renders(text, items, edits, off, d)
    decreases |items|
  {
    if items == [] {
      assert text[|before|..] == "";
    } else {
      RenderStep(text, before, items, d);
      RawRepsRender(text, before + (RawCell(items[0].cell) + TermText(items[0].term, d)), items[1..], edits[1..],
                    off + ItemLen(items[0], d), d);
      RawRepsItem(text, before, items, edits, off, d);
    }
  }

  /** The raw replacements from `off` on turn the text into the rendering of the edited items. */
  predicate Renders(text: string, items: seq<Item>, edits: seq<Option<string>>, off: nat, d: char)
    requires |edits| == |items|
  {
    var reps := RawReps(items, edits, off, d);
    off <= |text| && Ordered(|text|, off, reps) && Splice(text, off, reps) == Render(Edited(items, edits), d)
  }

  lemma RawRepsItem(text: string, before: string, items: seq<Item>, edits: seq<Option<string>>, off: nat, d: char)
    requires |edits| == |items| > 0 && text == before + Render(items, d) && off == |before|
    requires Renders(text, items[1..], edits[1..], off + ItemLen(items[0], d), d)
    ensures Renders(text, items, edits, off, d)
  {
    if edits[0].None? {
      ItemLeft(text, before, items, edits, off, d);
    } else {
      ItemEdited(text, before, items, edits, off, d);
    }
  }

  lemma ItemLeft(text: string, before: string, items: seq<Item>, edits: seq<Option<string>>, off: nat, d: char)
    requires |edits| == |items| > 0 && text == before + Render(items, d) && off == |before| && edits[0].None?
    requires Renders(text, items[1..], edits[1..], off + ItemLen(items[0], d), d)
    ensures Renders(text, items, edits, off, d)
  {
    var i, next := items[0], off + ItemLen(items[0], d);
    RawRepsUnfold(items, edits, off, d);
    EditedUnfold(items, edits, d);
    RenderStep(text, before, items, d);
    MiddleOf(text, before, RawCell(i.cell) + TermText(i.term, d), Render(items[1..], d));
    CellLeft(text, off, next, RawCell(i.cell), TermText(i.term, d), RawReps(items[1..], edits[1..], next, d));
  }

  lemma ItemEdited(text: string, before: string, items: seq<Item>, edits: seq<Option<string>>, off: nat, d: char)
    requires |edits| == |items| > 0 && text == before + Render(items, d) && off == |before| && edits[0].Some?
    requires Renders(text, items[1..], edits[1..], off + ItemLen(items[0], d), d)
    ensures Renders(text, items, edits, off, d)
  {
    var next, rest := off + ItemLen(items[0], d), Render(Edited(items[1..], edits[1..]), d);
    var i, tail := items[0], Render(items[1..], d);
    assert text == before + ((RawCell(i.cell) + TermText(i.term, d)) + tail) by { RenderStep(text, before, items, d); }
    CellEdited(text, before, i, tail, edits[0].value, RawReps(items[1..], edits[1..], next, d), rest, d);
    RawRepsUnfold(items, edits, off, d);
    EditedUnfold(items, edits, d);
  }

  lemma RawRepsUnfold(items: seq<Item>, edits: seq<Option<string>>, off: nat, d: char)
    requires |edits| == |items| > 0
    ensures var s := SpanOf(items[0].cell, off);
            var reps := RawReps(items[1..], edits[1..], off + ItemLen(items[0], d), d);
            RawReps(items, edits, off, d)
            == if edits[0].Some? then [Replacement(s.start, s.end, NewRaw(items[0].cell, edits[0].value))] + reps
               else reps
  {
  }

  lemma EditedUnfold(items: seq<Item>, edits: seq<Option<string>>, d: char)
    requires |edits| == |items| > 0
    ensures Render(Edited(items, edits), d)
            == RawCell(EditCell(items[0].cell, edits[0]))
               + (TermText(items[0].term, d) + Render(Edited(items[1..], edits[1..]), d))
  {
    assert Edited(items, edits)[1..] == Edited(items[1..], edits[1..]);
  }

  /** With the content of the cell behind `before` replaced, the edited cell stands there. */
  predicate PutBack(text: string, before: string, i: Item, v: string, reps: seq<Replacement<char>>, rest: string, d: char) {
    var s := SpanOf(i.cell, |before|);
    var all := [Replacement(s.start, s.end, NewRaw(i.cell, v))] + reps;
    && Ordered(|text|, |before|, all)
    && Splice(text, |before|, all) == RawCell(EditCell(i.cell, Some(v))) + (TermText(i.term, d) + rest)
  }

  lemma EditPlain(text: string, before: string, i: Item, tail: string, v: string,
                  reps: seq<Replacement<char>>, rest: string, d: char)
    requires i.cell.Plain?
    requires text == before + ((RawCell(i.cell) + TermText(i.term, d)) + tail)
    requires var next := |before| + ItemLen(i, d);
             next <= |text| && Ordered(|text|, next, reps) && Splice(text, next, reps) == rest
    ensures PutBack(text, before, i, v, reps, rest, d)
  {
    EditParts(i.cell, v);
    PlainEdited(text, before, i.cell.s, TermText(i.term, d), tail, NewRaw(i.cell, v), |before| + ItemLen(i, d), reps, rest);
  }

  /** What the replacement in a quoted cell has to give. */
  lemma PutBackFrom(text: string, before: string, i: Item, v: string, reps: seq<Replacement<char>>, rest: string,
                    d: char, edited: string)
    requires i.cell.Quoted? && |before| <= |text| && edited == RawCell(EditCell(i.cell, Some(v)))
    ensures var all := [Replacement(|before| + 1, |before| + 1 + |i.cell.body|, Escape(v))] + reps;
            Ordered(|text|, |before|, all) && Splice(text, |before|, all) == edited + (TermText(i.term, d) + rest)
            ==> PutBack(text, before, i, v, reps, rest, d)
  {
    assert SpanOf(i.cell, |before|) == Span(|before| + 1, |before| + 1 + |i.cell.body|, true);
  }

  lemma EditClosed(text: string, before: string, i: Item, tail: string, v: string,
                   reps: seq<Replacement<char>>, rest: string, d: char)
    requires i.cell.Quoted? && i.cell.closed
    requires text == before + ((RawCell(i.cell) + TermText(i.term, d)) + tail)
    requires var next := |before| + ItemLen(i, d);
             next <= |text| && Ordered(|text|, next, reps) && Splice(text, next, reps) == rest
    ensures PutBack(text, before, i, v, reps, rest, d)
  {
    ClosedParts(i.cell, v);
    var edited := RawCell(EditCell(i.cell, Some(v)));
    PutBackFrom(text, before, i, v, reps, rest, d, edited);
    ClosedEdited(text, before, i.cell.body, "\"" + i.cell.junk, TermText(i.term, d), tail, Escape(v),
                 |before| + ItemLen(i, d), reps, rest, RawCell(i.cell), edited);
  }

  lemma EditOpen(text: string, before: string, i: Item, tail: string, v: string,
                 reps: seq<Replacement<char>>, rest: string, d: char)
    requires i.cell.Quoted? && !i.cell.closed
    requires text == before + ((RawCell(i.cell) + TermText(i.term, d)) + tail)
    requires var next := |before| + ItemLen(i, d);
             next <= |text| && Ordered(|text|, next, reps) && Splice(text, next, reps) == rest
    ensures PutBack(text, before, i, v, reps, rest, d)
  {
    OpenParts(i.cell, v);
    var edited := RawCell(EditCell(i.cell, Some(v)));
    PutBackFrom(text, before, i, v, reps, rest, d, edited);
    OpenEdited(text, before, i.cell.body, TermText(i.term, d), tail, Escape(v), |before| + ItemLen(i, d), reps, rest,
               RawCell(i.cell), edited);
  }

  lemma CellEdited(text: string, before: string, i: Item, tail: string, v: string,
                   reps: seq<Replacement<char>>, rest: string, d: char)
    requires text == before + ((RawCell(i.cell) + TermText(i.term, d)) + tail)
    requires var next := |before| + ItemLen(i, d);
             next <= |text| && Ordered(|text|, next, reps) && Splice(text, next, reps) == rest
    ensures PutBack(text, before, i, v, reps, rest, d)
  {
    if i.cell.Plain? {
      EditPlain(text, before, i, tail, v, reps, rest, d);
    } else if i.cell.closed {
      EditClosed(text, before, i, tail, v, reps, rest, d);
    } else {
      EditOpen(text, before, i, tail, v, reps, rest, d);
    }
  }

  lemma PlainEdited(text: string, before: string, s: string, term: string, tail: string, put: string,
                    next: nat, reps: seq<Replacement<char>>, rest: string)
    requires text == before + ((s + term) + tail) && next == |before| + (|s| + |term|)
    requires Ordered(|text|, next, reps) && Splice(text, next, reps) == rest
    ensures var all := [Replacement(|before|, |before| + |s|, put)] + reps;
            Ordered(|text|, |before|, all) && Splice(text, |before|, all) == put + (term + rest)
  {
    assert s == "" + (s + "") && put == "" + (put + "");
    PutCell(text, before, "", s, "", term, tail, put, s, put, next, reps, rest);
  }

  lemma ClosedEdited(text: string, before: string, body: string, closing: string, term: string, tail: string,
                     put: string, next: nat, reps: seq<Replacement<char>>, rest: string, raw: string, edited: string)
    requires raw == "\"" + (body + closing) && edited == "\"" + (put + closing)
    requires text == before + ((raw + term) + tail) && next == |before| + (|raw| + |term|)
    requires Ordered(|text|, next, reps) && Splice(text, next, reps) == rest
    ensures var all := [Replacement(|before| + 1, |before| + 1 + |body|, put)] + reps;
            Ordered(|text|, |before|, all) && Splice(text, |before|, all) == edited + (term + rest)
  {
    PutCell(text, before, "\"", body, closing, term, tail, put, raw, edited, next, reps, rest);
  }

  lemma OpenEdited(text: string, before: string, body: string, term: string, tail: string, put: string,
                   next: nat, reps: seq<Replacement<char>>, rest: string, raw: string, edited: string)
    requires raw == "\"" + body && edited == "\"" + put
    requires text == before + ((raw + term) + tail) && next == |before| + (|raw| + |term|)
    requires Ordered(|text|, next, reps) && Splice(text, next, reps) == rest
    ensures var all := [Replacement(|before| + 1, |before| + 1 + |body|, put)] + reps;
            Ordered(|text|, |before|, all) && Splice(text, |before|, all) == edited + (term + rest)
  {
    assert raw == "\"" + (body + "") && edited == "\"" + (put + "");
    PutCell(text, before, "\"", body, "", term, tail, put, raw, edited, next, reps, rest);
  }

  /** An unedited cell is kept with its terminator. */
  lemma CellLeft(text: string, off: nat, next: nat, raw: string, term: string, reps: seq<Replacement<char>>)
    requires off <= next <= |text| && text[off..next] == raw + term && Ordered(|text|, next, reps)
    ensures Ordered(|text|, off, reps)
    ensures Splice(text, off, reps) == raw + (term + Splice(text, next, reps))
  {
    SpliceAhead(text, off, next, reps);
    Associate(raw, term, Splice(text, next, reps));
  }

  lemma {:induction false} RawRepsBounds(items: seq<Item>, edits: seq<Option<string>>, off: nat, d: char)
    requires |edits| == |items|
    ensures forall r | r in RawReps(items, edits, off, d) :: off <= r.start <= r.end <= off + |Render(items, d)|
    decreases |items|
  {
    if items != [] {
      SpanWithinCell(items[0].cell, off);
      RawRepsBounds(items[1..], edits[1..], off + ItemLen(items[0], d), d);
    }
  }

  lemma {:induction false} RawRepsAscend(items: seq<Item>, edits: seq<Option<string>>, off: nat, d: char, n: nat)
    requires |edits| == |items| && Terminated(items, d) && off + |Render(items, d)| <= n
    ensures Ascending(n, RawReps(items, edits, off, d))
    decreases |items|
  {
    if items != [] {
      var next := off + ItemLen(items[0], d);
      var rest := RawReps(items[1..], edits[1..], next, d);
      RawRepsAscend(items[1..], edits[1..], next, d, n);
      RawRepsBounds(items[1..], edits[1..], next, d);
      SpanWithinCell(items[0].cell, off);
      var all := RawReps(items, edits, off, d);
      if edits[0].Some? { assert all[1..] == rest; } else { assert all == rest; }
      if |items| == 1 { assert items[1..] == [] && rest == []; }
    }
  }

  /** The replacement the source records for one cell. */
  function RepOf(text: string, c: Span, edit: Option<string>): seq<Replacement<char>>
    requires InText(text, c)
  {
    if edit.None? then [] else
      var v := edit.value;
      var raw := if c.quoted then Escape(v)
                 else if NeedsQuotes(v, CellValue(text, c)) then "\"" + Escape(v) + "\""
                 else v;
      [Replacement(c.start, c.end, raw)]
  }

  function RepsOf(text: string, spans: seq<Span>, edits: seq<Option<string>>): seq<Replacement<char>>
    requires |edits| == |spans| && AllIn(text, spans)
    decreases |spans|
  {
    if spans == [] then [] else RepOf(text, spans[0], edits[0]) + RepsOf(text, spans[1..], edits[1..])
  }

  lemma {:induction false} RepsOfConcat(text: string, a: seq<Span>, b: seq<Span>, ea: seq<Option<string>>,
                                        eb: seq<Option<string>>)
    requires |ea| == |a| && |eb| == |b| && AllIn(text, a) && AllIn(text, b)
    ensures AllIn(text, a + b) && RepsOf(text, a + b, ea + eb) == RepsOf(text, a, ea) + RepsOf(text, b, eb)
    decreases |a|
  {
    AllInConcat(text, a, b);
    if a == [] {
      assert a + b == b && ea + eb == eb;
    } else {
      RepsOfConcat(text, a[1..], b, ea[1..], eb);
      RepsOfStep(text, a, b, ea, eb);
    }
  }

  lemma RepsOfStep(text: string, a: seq<Span>, b: seq<Span>, ea: seq<Option<string>>, eb: seq<Option<string>>)
    requires |ea| == |a| > 0 && |eb| == |b| && AllIn(text, a) && AllIn(text, b) && AllIn(text, a + b)
    requires AllIn(text, a[1..]) && AllIn(text, a[1..] + b)
    requires RepsOf(text, a[1..] + b, ea[1..] + eb) == RepsOf(text, a[1..], ea[1..]) + RepsOf(text, b, eb)
    ensures RepsOf(text, a + b, ea + eb) == RepsOf(text, a, ea) + RepsOf(text, b, eb)
  {
    RepsHeadConcat(text, a, b, ea, eb);
    RepsHead(text, a, ea, a[0], ea[0], a[1..], ea[1..]);
    HeadedSum(RepsOf(text, a + b, ea + eb), RepOf(text, a[0], ea[0]), RepsOf(text, a[1..] + b, ea[1..] + eb),
              RepsOf(text, a, ea), RepsOf(text, a[1..], ea[1..]), RepsOf(text, b, eb));
  }

  lemma RepsHeadConcat(text: string, a: seq<Span>, b: seq<Span>, ea: seq<Option<string>>, eb: seq<Option<string>>)
    requires |ea| == |a| > 0 && |eb| == |b| && AllIn(text, a + b) && AllIn(text, a[1..] + b) && InText(text, a[0])
    ensures RepsOf(text, a + b, ea + eb) == RepOf(text, a[0], ea[0]) + RepsOf(text, a[1..] + b, ea[1..] + eb)
  {
    DropOne(a, b);
    DropOne(ea, eb);
    RepsHead(text, a + b, ea + eb, a[0], ea[0], a[1..] + b, ea[1..] + eb);
  }

  lemma HeadedSum<T>(whole: seq<T>, head: seq<T>, joined: seq<T>, left: seq<T>, mine: seq<T>, others: seq<T>)
    requires whole == head + joined && joined == mine + others && left == head + mine
    ensures whole == left + others
  {
  }

  lemma DropOne<T>(a: seq<T>, b: seq<T>)
    requires a != []
    ensures (a + b)[0] == a[0] && (a + b)[1..] == a[1..] + b
  {
  }

  lemma RepsHead(text: string, spans: seq<Span>, edits: seq<Option<string>>, first: Span, edit: Option<string>,
                 later: seq<Span>, rest: seq<Option<string>>)
    requires spans != [] && |edits| == |spans| && AllIn(text, spans) && spans[0] == first && edits[0] == edit
    requires spans[1..] == later && edits[1..] == rest
    ensures InText(text, first) && AllIn(text, later) && |rest| == |later|
    ensures RepsOf(text, spans, edits) == RepOf(text, first, edit) + RepsOf(text, later, rest)
  {
  }

  lemma RepOfCell(text: string, c: Cell, off: nat, edit: Option<string>)
    requires InText(text, SpanOf(c, off)) && CellValue(text, SpanOf(c, off)) == Decode(c)
    ensures var s := SpanOf(c, off);
            RepOf(text, s, edit)
            == if edit.Some? then [Replacement(s.start, s.end, NewRaw(c, edit.value))] else []
  {
  }

  lemma {:induction false} RawRepsAreRepsOf(text: string, items: seq<Item>, edits: seq<Option<string>>, off: nat, d: char)
    requires |edits| == |items| && AllIn(text, Spans(items, off, d))
    requires ValuesOf(text, Spans(items, off, d)) == Decoded(items)
    ensures RawReps(items, edits, off, d) == RepsOf(text, Spans(items, off, d), edits)
    decreases |items|
  {
    if items != [] {
      var next := off + ItemLen(items[0], d);
      var c, later := items[0].cell, Spans(items[1..], next, d);
      ValuesHead(text, Spans(items, off, d), later, Decode(c), Decoded(items[1..]));
      RepsHead(text, Spans(items, off, d), edits, SpanOf(c, off), edits[0], later, edits[1..]);
      RawRepsAreRepsOf(text, items[1..], edits[1..], next, d);
      RepOfCell(text, c, off, edits[0]);
      RawRepsUnfold(items, edits, off, d);
    }
  }

  lemma ValuesHead(text: string, spans: seq<Span>, later: seq<Span>, v: string, rest: seq<string>)
    requires spans != [] && spans[1..] == later && AllIn(text, spans) && ValuesOf(text, spans) == [v] + rest
    ensures InText(text, spans[0]) && CellValue(text, spans[0]) == v
    ensures AllIn(text, later) && ValuesOf(text, later) == rest
  {
    assert ValuesOf(text, spans)[0] == v && ValuesOf(text, spans)[1..] == rest;
    assert ([CellValue(text, spans[0])] + ValuesOf(text, later))[1..] == ValuesOf(text, later);
  }

  lemma RowRepsStep(text: string, row: seq<Span>, edits: seq<Option<string>>, ci: nat)
    requires AllIn(text, row) && |edits| == |row| && ci < |row|
    ensures AllIn(text, row[..ci]) && InText(text, row[ci]) && AllIn(text, row[..ci + 1])
    ensures RepsOf(text, row[..ci + 1], edits[..ci + 1])
         == RepsOf(text, row[..ci], edits[..ci]) + RepOf(text, row[ci], edits[ci])
  {
    RowStep(text, row, ci);
    TakeSnoc(row, ci);
    TakeSnoc(edits, ci);
    RepsOfConcat(text, row[..ci], [row[ci]], edits[..ci], [edits[ci]]);
    RepsHead(text, [row[ci]], [edits[ci]], row[ci], edits[ci], [], []);
    assert RepsOf(text, [row[ci]], [edits[ci]]) == RepOf(text, row[ci], edits[ci]) + [];
  }

  /** The raw replacements of one row. */
  method RowReps(text: string, row: seq<Span>, edits: seq<Option<string>>) returns (reps: seq<Replacement<char>>)
    requires |edits| == |row| && AllIn(text, row)
    ensures reps == RepsOf(text, row, edits)
  {
    reps := [];
    for ci := 0 to |row|
      invariant AllIn(text, row[..ci]) && reps == RepsOf(text, row[..ci], edits[..ci])
    {
      RowRepsStep(text, row, edits, ci);
      var c, edit := row[ci], edits[ci];
      if edit.Some? {
        var val := CellValue(text, c);
        var newRaw := edit.value;
        if c.quoted {
          newRaw := Escape(edit.value);
        } else if NeedsQuotes(edit.value, val) {
          newRaw := "\"" + Escape(edit.value) + "\"";
        }
        reps := reps + [Replacement(c.start, c.end, newRaw)];
      }
    }
    assert row[..|row|] == row && edits[..|edits|] == edits;
  }

  /** Rewrite the cells for which `edits` (in reading order) has a new value. */
  method Rewrite(text: string, d: char, edits: seq<Option<string>>) returns (out: string)
    requires LegalDelimiter(d) && |edits| == |Scan(text, d)|
    ensures out == Rewritten(text, d, edits)
  {
    var rows := CsvCells(text, d);
    FlattenSpanRows(Scan(text, d), 0, d);
    RewriteFacts(text, d, edits);
    var rawReps := CollectReps(text, rows, edits);
    AscendingIsSorted(|text|, rawReps);
    out := ApplyReplacements(text, rawReps);
  }

  lemma RewriteFacts(text: string, d: char, edits: seq<Option<string>>)
    requires LegalDelimiter(d) && |edits| == |Scan(text, d)|
    ensures var spans := Spans(Scan(text, d), 0, d);
            && AllIn(text, spans)
            && var reps := RepsOf(text, spans, edits);
               Ascending(|text|, reps) && Ordered(|text|, 0, reps)
               && Splice(text, 0, reps) == Rewritten(text, d, edits)
  {
    var items := Scan(text, d);
    ScanReads(text, d);
    RawRepsAreRepsOf(text, items, edits, 0, d);
    RenderOfScan(text, d);
    WellFormedIsLoose(items, d);
    LooseIsTerminated(items, d);
    RawRepsAscend(items, edits, 0, d, |text|);
    assert "" + text == text;
    RawRepsRender(text, "", items, edits, 0, d);
  }

  lemma CollectStep(text: string, rows: seq<seq<Span>>, edits: seq<Option<string>>, ri: nat, at: nat, next: nat)
    requires AllIn(text, Flatten(rows)) && |edits| == |Flatten(rows)| && ri < |rows|
    requires at == |Flatten(rows[..ri])| && next == at + |rows[ri]|
    ensures next == |Flatten(rows[..ri + 1])| <= |edits|
    ensures AllIn(text, Flatten(rows[..ri])) && AllIn(text, rows[ri]) && AllIn(text, Flatten(rows[..ri + 1]))
    ensures RepsOf(text, Flatten(rows[..ri + 1]), edits[..next])
         == RepsOf(text, Flatten(rows[..ri]), edits[..at]) + RepsOf(text, rows[ri], edits[at..next])
  {
    RowsStep(text, rows, ri);
    FlatRow(rows, ri);
    TakeRange(edits, at, next);
    RepsOfConcat(text, Flatten(rows[..ri]), rows[ri], edits[..at], edits[at..next]);
  }

  lemma TakeRange<T>(xs: seq<T>, at: nat, next: nat)
    requires at <= next <= |xs|
    ensures xs[..next] == xs[..at] + xs[at..next]
  {
  }

  method CollectReps(text: string, rows: seq<seq<Span>>, edits: seq<Option<string>>)
    returns (reps: seq<Replacement<char>>)
    requires |edits| == |Flatten(rows)| && AllIn(text, Flatten(rows))
    ensures reps == RepsOf(text, Flatten(rows), edits)
  {
    reps := [];
    var at := 0;
    assert rows[..0] == [];
    for ri := 0 to |rows|
      invariant at == |Flatten(rows[..ri])| <= |edits| && AllIn(text, Flatten(rows[..ri]))
      invariant reps == RepsOf(text, Flatten(rows[..ri]), edits[..at])
    {
      var next := at + |rows[ri]|;
      CollectStep(text, rows, edits, ri, at, next);
      var rowReps := RowReps(text, rows[ri], edits[at..next]);
      reps, at := reps + rowReps, next;
    }
    assert rows[..|rows|] == rows && edits[..|edits|] == edits;
  }
}
