/** The grammar behind the CSV scanner (app/desktop/formats.py): a text is a sequence of raw cells and
    terminators, and scanning and rendering are inverse to each other. */
module CsvLayout {
  predicate LegalDelimiter(d: char) { d != '"' && d != '\n' && d != '\r' }

  predicate IsBreak(c: char, d: char) { c == d || c == '\n' || c == '\r' }

  /** A cell as it stands in the text. A quoted cell may lack its closing quote (only at the end of
      the text), and may have stray text behind it. */
  datatype Cell = Plain(s: string) | Quoted(body: string, closed: bool, junk: string)

  datatype Term = Delim | Newline(s: string) | End

  datatype Item = Item(cell: Cell, term: Term)

  function RawCell(c: Cell): string {
    match c
    case Plain(s) => s
    case Quoted(body, closed, junk) => "\"" + (if closed then body + ("\"" + junk) else body)
  }

  function TermText(t: Term, d: char): string {
    match t
    case Delim => [d]
    case Newline(s) => s
    case End => ""
  }

  function Render(items: seq<Item>, d: char): string {
    if items == [] then ""
    else RawCell(items[0].cell) + (TermText(items[0].term, d) + Render(items[1..], d))
  }

  // ---- scanning ----------------------------------------------------------------------

  /** Offset of the closing quote in the text behind an opening one, |t| when it is missing. */
  function QuoteEnd(t: string): (n: nat)
    ensures n <= |t|
  {
    if t == "" then 0
    else if t[0] != '"' then 1 + QuoteEnd(t[1..])
    else if |t| > 1 && t[1] == '"' then 2 + QuoteEnd(t[2..])
    else 0
  }

  /** Offset of the first delimiter or line break, |t| when there is none. */
  function RunLen(t: string, d: char): (n: nat)
    ensures n <= |t|
  {
    if t == "" || IsBreak(t[0], d) then 0 else 1 + RunLen(t[1..], d)
  }

  /** A quoted cell, from behind its opening quote. */
  function ScanQuoted(u: string, d: char): (r: (Cell, string))
    ensures |r.1| <= |u|
  {
    var e := QuoteEnd(u);
    if e == |u| then (Quoted(u, false, ""), "")
    else
      var after := u[e + 1..];
      var k := RunLen(after, d);
      (Quoted(u[..e], true, after[..k]), after[k..])
  }

  function ScanCell(t: string, d: char): (r: (Cell, string))
    ensures |r.1| <= |t|
  {
    if t != "" && t[0] == '"' then ScanQuoted(t[1..], d)
    else
      var k := RunLen(t, d);
      (Plain(t[..k]), t[k..])
  }

  /** The terminator in front of `t`, which starts with a break or is empty. */
  function ScanTerm(t: string, d: char): (r: (Term, string))
    ensures r.0 != End ==> |r.1| < |t|
  {
    if t == "" then (End, "")
    else if t[0] == d then (Delim, t[1..])
    else if t[0] == '\r' && |t| > 1 && t[1] == '\n' then (Newline(t[..2]), t[2..])
    else (Newline(t[..1]), t[1..])
  }

  /** Cell after cell; a text that ends with a line break has no further row. */
  function Scan(t: string, d: char): (r: seq<Item>)
    ensures r != []
    decreases |t|
  {
    var (cell, r1) := ScanCell(t, d);
    var (term, r2) := ScanTerm(r1, d);
    if term.End? || (term.Newline? && r2 == "") then [Item(cell, term)]
    else [Item(cell, term)] + Scan(r2, d)
  }

  // ---- well-formed layouts -----------------------------------------------------------

  predicate NoBreak(s: string, d: char) {
    s == "" || (!IsBreak(s[0], d) && NoBreak(s[1..], d))
  }

  /** Every quote is doubled. */
  predicate EvenQuotes(b: string) {
    b == "" || (if b[0] != '"' then EvenQuotes(b[1..]) else |b| > 1 && b[1] == '"' && EvenQuotes(b[2..]))
  }

  predicate CellOk(c: Cell, d: char) {
    match c
    case Plain(s) => NoBreak(s, d) && (s != "" ==> s[0] != '"')
    case Quoted(body, closed, junk) =>
      EvenQuotes(body) && NoBreak(junk, d) && (junk != "" ==> junk[0] != '"') && (!closed ==> junk == "")
  }

  predicate TermOk(t: Term) {
    t.Newline? ==> t.s == "\n" || t.s == "\r" || t.s == "\r\n"
  }

  /** An open quote runs to the end of the text. */
  predicate ItemOk(i: Item, d: char) {
    CellOk(i.cell, d) && TermOk(i.term) && (i.cell.Quoted? && !i.cell.closed ==> i.term.End?)
  }

  /** What may follow a terminator: nothing only after the end or a line break; a lone carriage return
      is not followed by a line feed, and no row is empty text at the very end. */
  predicate FollowOk(t: Term, rest: seq<Item>, d: char) {
    match t
    case End => rest == []
    case Delim => rest != []
    case Newline(s) => rest == [] || (Render(rest, d) != "" && (s == "\r" ==> Render(rest, d)[0] != '\n'))
  }

  predicate WellFormed(items: seq<Item>, d: char) {
    && items != [] && ItemOk(items[0], d) && FollowOk(items[0].term, items[1..], d)
    && (items[1..] != [] ==> WellFormed(items[1..], d))
  }

  // ---- scanning a rendered layout gives it back --------------------------------------

  lemma {:induction false} QuoteEndOfEven(b: string, rest: string)
    requires EvenQuotes(b)
    requires rest == "" || (rest[0] == '"' && (|rest| == 1 || rest[1] != '"'))
    ensures QuoteEnd(b + rest) == |b|
  {
    if b == "" {
      assert b + rest == rest;
    } else if b[0] != '"' {
      assert (b + rest)[1..] == b[1..] + rest;
      QuoteEndOfEven(b[1..], rest);
    } else {
      assert (b + rest)[2..] == b[2..] + rest;
      QuoteEndOfEven(b[2..], rest);
    }
  }

  lemma {:induction false} RunLenOfRun(s: string, rest: string, d: char)
    requires NoBreak(s, d) && (rest == "" || IsBreak(rest[0], d))
    ensures RunLen(s + rest, d) == |s|
  {
    if s == "" {
      assert s + rest == rest;
    } else {
      assert (s + rest)[1..] == s[1..] + rest;
      RunLenOfRun(s[1..], rest, d);
    }
  }

  lemma ScanCellOfRaw(c: Cell, rest: string, d: char)
    requires LegalDelimiter(d) && CellOk(c, d) && (rest == "" || IsBreak(rest[0], d))
    requires c.Quoted? && !c.closed ==> rest == ""
    ensures ScanCell(RawCell(c) + rest, d) == (c, rest)
  {
    match c
    case Plain(s) => ScanPlain(s, rest, d);
    case Quoted(body, closed, junk) =>
      if closed {
        ScanClosed(body, junk, rest, d);
        Reassemble(body, junk, rest);
        BehindQuote(RawCell(c) + rest, body + ("\"" + (junk + rest)));
      } else {
        QuoteEndOfEven(body, "");
        assert body + "" == body;
        BehindQuote(RawCell(c) + rest, body);
      }
  }

  lemma BehindQuote(t: string, u: string)
    requires t == "\"" + u
    ensures t != "" && t[0] == '"' && t[1..] == u
  {
  }

  lemma ScanPlain(s: string, rest: string, d: char)
    requires NoBreak(s, d) && (s != "" ==> s[0] != '"') && LegalDelimiter(d)
    requires rest == "" || IsBreak(rest[0], d)
    ensures ScanCell(s + rest, d) == (Plain(s), rest)
  {
    RunLenOfRun(s, rest, d);
    DropAppend(s, rest);
  }

  lemma ScanClosed(body: string, junk: string, rest: string, d: char)
    requires LegalDelimiter(d) && EvenQuotes(body) && NoBreak(junk, d) && (junk != "" ==> junk[0] != '"')
    requires rest == "" || IsBreak(rest[0], d)
    ensures ScanQuoted(body + ("\"" + (junk + rest)), d) == (Quoted(body, true, junk), rest)
  {
    var after := junk + rest;
    var tail := "\"" + after;
    QuoteEndOfEven(body, tail);
    DropAppend(body, tail);
    RunLenOfRun(junk, rest, d);
    DropAppend(junk, rest);
    assert tail[1..] == after && (body + tail)[|body| + 1..] == tail[1..];
  }

  lemma DropAppend(a: string, b: string)
    ensures (a + b)[..|a|] == a && (a + b)[|a|..] == b
  {
  }

  lemma ScanTermOfText(t: Term, rest: string, d: char)
    requires LegalDelimiter(d) && TermOk(t) && (t.End? ==> rest == "")
    requires t == Newline("\r") ==> rest == "" || rest[0] != '\n'
    ensures ScanTerm(TermText(t, d) + rest, d) == (t, rest)
    ensures !t.End? ==> TermText(t, d) != "" && IsBreak(TermText(t, d)[0], d)
  {
    var s := TermText(t, d);
    assert (s + rest)[|s|..] == rest && (s + rest)[..|s|] == s;
  }

  /** Scanning undoes rendering on every well-formed layout. */
  lemma {:induction false} ScanOfRender(items: seq<Item>, d: char)
    requires LegalDelimiter(d) && WellFormed(items, d)
    ensures Scan(Render(items, d), d) == items
    decreases |items|
  {
    var i, rest := items[0], items[1..];
    var tail := Render(rest, d);
    assert items == [i] + rest;
    if i.term == Newline("\r") && rest != [] { assert tail[0] != '\n'; }
    ScanTermOfText(i.term, tail, d);
    var after := TermText(i.term, d) + tail;
    assert i.term.End? ==> after == "";
    ScanCellOfRaw(i.cell, after, d);
    if rest != [] { ScanOfRender(rest, d); }
  }

  // ---- rendering a scanned text gives it back ----------------------------------------

  lemma {:induction false} QuoteEndSpec(t: string)
    ensures EvenQuotes(t[..QuoteEnd(t)])
    ensures var e := QuoteEnd(t); e < |t| ==> t[e] == '"' && (e + 1 < |t| ==> t[e + 1] != '"')
  {
    if t != "" {
      if t[0] != '"' {
        QuoteEndSpec(t[1..]);
        assert t[..QuoteEnd(t)][1..] == t[1..][..QuoteEnd(t[1..])];
      } else if |t| > 1 && t[1] == '"' {
        QuoteEndSpec(t[2..]);
        assert t[..QuoteEnd(t)][2..] == t[2..][..QuoteEnd(t[2..])];
      }
    }
  }

  lemma {:induction false} RunLenSpec(t: string, d: char)
    ensures NoBreak(t[..RunLen(t, d)], d)
    ensures RunLen(t, d) < |t| ==> IsBreak(t[RunLen(t, d)], d)
  {
    if t != "" && !IsBreak(t[0], d) {
      RunLenSpec(t[1..], d);
      assert t[..RunLen(t, d)][1..] == t[1..][..RunLen(t[1..], d)];
    }
  }

  lemma ScanCellSpec(t: string, d: char)
    requires LegalDelimiter(d)
    ensures var (c, rest) := ScanCell(t, d);
            && CellOk(c, d) && RawCell(c) + rest == t
            && (rest != "" ==> IsBreak(rest[0], d))
            && (c.Quoted? && !c.closed ==> rest == "")
  {
    if t != "" && t[0] == '"' {
      ScanQuotedSpec(t[1..], d);
      assert "\"" + t[1..] == t;
    } else {
      RunLenSpec(t, d);
      assert t[..RunLen(t, d)] + t[RunLen(t, d)..] == t;
    }
  }

  lemma ScanQuotedSpec(u: string, d: char)
    requires LegalDelimiter(d)
    ensures var (c, rest) := ScanQuoted(u, d);
            && CellOk(c, d) && RawCell(c) + rest == "\"" + u
            && (rest != "" ==> IsBreak(rest[0], d))
            && (c.Quoted? && !c.closed ==> rest == "")
  {
    var e := QuoteEnd(u);
    QuoteEndSpec(u);
    if e == |u| {
      assert u[..e] == u && "\"" + u + "" == "\"" + u;
    } else {
      var after := u[e + 1..];
      SplitAtQuote(u, e);
      RunSpec(after, d);
      Reassemble(u[..e], after[..RunLen(after, d)], after[RunLen(after, d)..]);
    }
  }

  lemma SplitAtQuote(u: string, e: nat)
    requires e < |u| && u[e] == '"'
    ensures u == u[..e] + ("\"" + u[e + 1..])
    ensures u[e + 1..] != "" ==> u[e + 1..][0] == u[e + 1]
  {
    assert u[e..] == "\"" + u[e + 1..];
  }

  lemma RunSpec(t: string, d: char)
    ensures var k := RunLen(t, d);
            && NoBreak(t[..k], d) && t[..k] + t[k..] == t
            && (t[k..] != "" ==> IsBreak(t[k..][0], d))
            && (t[..k] != "" ==> t[..k][0] == t[0])
  {
    RunLenSpec(t, d);
  }

  lemma Reassemble(body: string, junk: string, rest: string)
    ensures RawCell(Quoted(body, true, junk)) + rest == "\"" + (body + ("\"" + (junk + rest)))
  {
  }

  lemma ScanTermSpec(t: string, d: char)
    requires LegalDelimiter(d) && (t != "" ==> IsBreak(t[0], d))
    ensures var (term, rest) := ScanTerm(t, d);
            && TermOk(term) && TermText(term, d) + rest == t
            && (term.End? ==> rest == "")
            && (term == Newline("\r") ==> rest == "" || rest[0] != '\n')
  {
    if t != "" && t[0] != d {
      assert t[..1] == [t[0]];
      if |t| > 1 { assert t[..2] == [t[0], t[1]]; }
    }
  }

  /** Every text is the rendering of its scan, which is a well-formed layout. */
  lemma {:induction false} RenderOfScan(t: string, d: char)
    requires LegalDelimiter(d)
    ensures WellFormed(Scan(t, d), d) && Render(Scan(t, d), d) == t
    decreases |t|
  {
    var (cell, r1) := ScanCell(t, d);
    var (term, r2) := ScanTerm(r1, d);
    ScanCellSpec(t, d);
    ScanTermSpec(r1, d);
    var items := Scan(t, d);
    if term.End? || (term.Newline? && r2 == "") {
      assert items == [Item(cell, term)] && items[1..] == [];
      assert TermText(term, d) + Render([], d) == r1;
    } else {
      RenderOfScan(r2, d);
      assert items[1..] == Scan(r2, d);
    }
  }
}
