/** Anonymizing a document and restoring it (`anonymize_unit`, `restore_unit`, `exact_map` in
    app/desktop/engine.py and the file drivers in app/desktop/pipeline.py), on values. */
module Documents {
  import opened Entities
  import opened Labels
  import opened Sequences
  import opened Splicing

  /** A replacement of a surface by a label, with what it replaced. */
  datatype Mark = Mark(start: nat, end: nat, tag: string, key: Key, original: string)

  /** A label found in a text. */
  datatype Hit = Hit(start: nat, end: nat, key: Key)

  /** One entry of the recorded restore list. */
  datatype Occurrence = Occurrence(key: Key, surface: string)

  datatype Unit = Unit(text: string, marks: seq<Mark>)

  function RepOf(m: Mark): Replacement<char> { Replacement(m.start, m.end, m.tag) }

  function Reps(marks: seq<Mark>): (r: seq<Replacement<char>>)
    ensures |r| == |marks|
  {
    if marks == [] then [] else [RepOf(marks[0])] + Reps(marks[1..])
  }

  function Occurrences(marks: seq<Mark>): (r: seq<Occurrence>)
    ensures |r| == |marks|
  {
    if marks == [] then [] else [Occurrence(marks[0].key, marks[0].original)] + Occurrences(marks[1..])
  }

  function KeysOf(occ: seq<Occurrence>): (r: seq<Key>)
    ensures |r| == |occ|
  {
    if occ == [] then [] else [occ[0].key] + KeysOf(occ[1..])
  }

  /** Disjoint marks in text order that remember what they cover. */
  ghost predicate MarksOk(text: string, marks: seq<Mark>) {
    && Ordered(|text|, 0, Reps(marks))
    && forall k | 0 <= k < |marks| :: marks[k].start <= marks[k].end <= |text| && marks[k].original == text[marks[k].start..marks[k].end]
  }

  function OutOf(text: string, marks: seq<Mark>): string
    requires Ordered(|text|, 0, Reps(marks))
  {
    Splice(text, 0, Reps(marks))
  }

  // ---- restoring one unit ------------------------------------------------------------

  /** Where the labels landed. */
  function HitsOf(from: nat, marks: seq<Mark>, off: nat): seq<Hit>
    decreases |marks|
  {
    if marks == [] || marks[0].start < from then [] else
      var m, pos := marks[0], off + (marks[0].start - from);
      [Hit(pos, pos + |m.tag|, m.key)] + HitsOf(m.end, marks[1..], pos + |m.tag|)
  }

  /** The label scanner finds the inserted labels and nothing else. */
  ghost predicate FindsInserted(find: string -> seq<Hit>, u: Unit) {
    MarksOk(u.text, u.marks) && find(OutOf(u.text, u.marks)) == HitsOf(0, u.marks, 0)
  }

  /** What one label is replaced by: the recorded spelling if the record is at the same label. */
  function ValueFor(h: Hit, e: Entity, exact: Option<seq<Occurrence>>, cursor: nat): string {
    if exact.Some? && cursor < |exact.value| && exact.value[cursor].key == h.key then exact.value[cursor].surface
    else e.row.value
  }

  function Advance(exact: Option<seq<Occurrence>>, cursor: nat): nat {
    if exact.Some? && cursor < |exact.value| then cursor + 1 else cursor
  }

  /** The replacements `restore_unit` makes; an unknown label is left alone and moves nothing. */
  function RestoreReps(hits: seq<Hit>, ents: map<Key, Entity>, exact: Option<seq<Occurrence>>, cursor: nat)
    : seq<Replacement<char>>
  {
    if hits == [] then []
    else if hits[0].key !in ents then RestoreReps(hits[1..], ents, exact, cursor)
    else
      [Replacement(hits[0].start, hits[0].end, ValueFor(hits[0], ents[hits[0].key], exact, cursor))]
      + RestoreReps(hits[1..], ents, exact, Advance(exact, cursor))
  }

  function CursorAfter(hits: seq<Hit>, ents: map<Key, Entity>, exact: Option<seq<Occurrence>>, cursor: nat): nat {
    if hits == [] then cursor
    else CursorAfter(hits[1..], ents, exact, if hits[0].key in ents then Advance(exact, cursor) else cursor)
  }

  function Resolved(hits: seq<Hit>, ents: map<Key, Entity>): nat {
    if hits == [] then 0 else (if hits[0].key in ents then 1 else 0) + Resolved(hits[1..], ents)
  }

  /** The cursor counts the labels that resolve, so it is aligned with the record exactly while all do. */
  lemma {:induction false} CursorCounts(hits: seq<Hit>, ents: map<Key, Entity>, exact: seq<Occurrence>, cursor: nat)
    requires cursor + |hits| <= |exact|
    ensures CursorAfter(hits, ents, Some(exact), cursor) == cursor + Resolved(hits, ents)
    ensures CursorAfter(hits, ents, Some(exact), cursor) == cursor + |hits| <==> forall h | h in hits :: h.key in ents
    ensures Resolved(hits, ents) <= |hits|
  {
    if hits != [] {
      CursorCounts(hits[1..], ents, exact, if hits[0].key in ents then cursor + 1 else cursor);
      assert hits == [hits[0]] + hits[1..];
    }
  }

  // ---- splicing over what was spliced in ---------------------------------------------

  /** `marks` with other contents: what the document would have said with these spellings. */
  function Respelled(marks: seq<Mark>, surfaces: seq<string>): (r: seq<Replacement<char>>)
    requires |surfaces| == |marks|
    ensures |r| == |marks|
  {
    if marks == [] then []
    else [Replacement(marks[0].start, marks[0].end, surfaces[0])] + Respelled(marks[1..], surfaces[1..])
  }

  function Over(hits: seq<Hit>, surfaces: seq<string>): (r: seq<Replacement<char>>)
    requires |surfaces| == |hits|
  {
    if hits == [] then [] else [Replacement(hits[0].start, hits[0].end, surfaces[0])] + Over(hits[1..], surfaces[1..])
  }

  lemma {:induction false} HitsLength(n: nat, from: nat, marks: seq<Mark>, off: nat)
    requires Ordered(n, from, Reps(marks))
    ensures |HitsOf(from, marks, off)| == |marks|
    decreases |marks|
  {
    if marks != [] {
      assert Reps(marks)[1..] == Reps(marks[1..]);
      HitsLength(n, marks[0].end, marks[1..], off + (marks[0].start - from) + |marks[0].tag|);
    }
  }

  /** One inserted piece replaced, and whatever follows it. */
  lemma OverOne(before: string, gap: string, tag: string, next: nat, out: string, rest: string,
                later: seq<Replacement<char>>, tail: string, surface: string)
    requires out == before + (gap + (tag + rest)) && next == |before| + |gap| + |tag|
    requires Ordered(|out|, next, later) && Splice(out, next, later) == tail
    ensures var all := [Replacement(next - |tag|, next, surface)] + later;
            Ordered(|out|, |before|, all) && Splice(out, |before|, all) == gap + (surface + tail)
  {
    var all := [Replacement(next - |tag|, next, surface)] + later;
    assert all[1..] == later && out[|before|..next - |tag|] == gap;
  }

  lemma SpliceHead<T>(text: seq<T>, from: nat, r: Replacement<T>, rest: seq<Replacement<T>>)
    requires from <= |text| && Ordered(|text|, from, [r] + rest)
    ensures from <= r.start <= r.end <= |text| && Ordered(|text|, r.end, rest)
    ensures Splice(text, from, [r] + rest) == text[from..r.start] + (r.content + Splice(text, r.end, rest))
  {
    assert ([r] + rest)[1..] == rest;
  }

  /** Replacing the inserted labels by any spellings gives the text with those spellings in place. */
  lemma {:induction false} SpliceOver(text: string, from: nat, marks: seq<Mark>, surfaces: seq<string>, before: string)
    requires from <= |text| && Ordered(|text|, from, Reps(marks)) && |surfaces| == |marks|
    ensures |HitsOf(from, marks, |before|)| == |marks|
    ensures var out := before + Splice(text, from, Reps(marks));
            var reps := Over(HitsOf(from, marks, |before|), surfaces);
            && Ordered(|text|, from, Respelled(marks, surfaces)) && Ordered(|out|, |before|, reps)
            && Splice(out, |before|, reps) == Splice(text, from, Respelled(marks, surfaces))
    decreases |marks|
  {
    HitsLength(|text|, from, marks, |before|);
    var out := before + Splice(text, from, Reps(marks));
    if marks == [] {
      assert out[|before|..] == text[from..];
    } else {
      var m, surface := marks[0], surfaces[0];
      var gap := text[from..m.start];
      SpliceHead(text, from, RepOf(m), Reps(marks[1..]));
      var rest := Splice(text, m.end, Reps(marks[1..]));
      var before' := before + (gap + m.tag);
      SpliceOver(text, m.end, marks[1..], surfaces[1..], before');
      AssociateFour(before, gap, m.tag, rest);
      HeadAgain(text, from, m, surface, Respelled(marks[1..], surfaces[1..]));
      OverUnfold(from, marks, surfaces, |before|, |before'|);
      var later := Over(HitsOf(m.end, marks[1..], |before'|), surfaces[1..]);
      OverOne(before, gap, m.tag, |before'|, out, rest, later,
              Splice(text, m.end, Respelled(marks[1..], surfaces[1..])), surface);
    }
  }

  lemma OverUnfold(from: nat, marks: seq<Mark>, surfaces: seq<string>, off: nat, next: nat)
    requires |HitsOf(from, marks, off)| == |marks| == |surfaces| > 0 && from <= marks[0].start
    requires next == off + (marks[0].start - from) + |marks[0].tag|
    requires |HitsOf(marks[0].end, marks[1..], next)| == |marks| - 1
    ensures Over(HitsOf(from, marks, off), surfaces)
         == [Replacement(next - |marks[0].tag|, next, surfaces[0])] + Over(HitsOf(marks[0].end, marks[1..], next), surfaces[1..])
  {
    assert HitsOf(from, marks, off)[1..] == HitsOf(marks[0].end, marks[1..], next);
  }

  lemma HeadAgain(text: string, from: nat, m: Mark, surface: string, rest: seq<Replacement<char>>)
    requires from <= m.start <= m.end <= |text| && Ordered(|text|, m.end, rest)
    ensures var all := [Replacement(m.start, m.end, surface)] + rest;
            && Ordered(|text|, from, all)
            && Splice(text, from, all) == text[from..m.start] + (surface + Splice(text, m.end, rest))
  {
    SpliceCons(text, from, Replacement(m.start, m.end, surface), rest);
  }

  // ---- one unit back -----------------------------------------------------------------

  /** The spelling each label gets when every label resolves. */
  function ValuesFor(hits: seq<Hit>, ents: map<Key, Entity>, exact: Option<seq<Occurrence>>, cursor: nat)
    : (r: seq<string>)
    requires forall h | h in hits :: h.key in ents
    ensures |r| == |hits|
  {
    if hits == [] then []
    else [ValueFor(hits[0], ents[hits[0].key], exact, cursor)]
         + ValuesFor(hits[1..], ents, exact, Advance(exact, cursor))
  }

  lemma {:induction false} RestoreIsOver(hits: seq<Hit>, ents: map<Key, Entity>, exact: Option<seq<Occurrence>>, cursor: nat)
    requires forall h | h in hits :: h.key in ents
    ensures RestoreReps(hits, ents, exact, cursor) == Over(hits, ValuesFor(hits, ents, exact, cursor))
  {
    if hits != [] { RestoreIsOver(hits[1..], ents, exact, Advance(exact, cursor)); }
  }

  function SurfacesOf(occ: seq<Occurrence>): (r: seq<string>)
    ensures |r| == |occ|
  {
    if occ == [] then [] else [occ[0].surface] + SurfacesOf(occ[1..])
  }

  function HitKeys(hits: seq<Hit>): (r: seq<Key>)
    ensures |r| == |hits|
  {
    if hits == [] then [] else [hits[0].key] + HitKeys(hits[1..])
  }

  /** With the cursor at a stretch of the record that has the same labels, the recorded spellings are used. */
  lemma {:induction false} ExactValues(hits: seq<Hit>, ents: map<Key, Entity>, done: seq<Occurrence>,
                                       here: seq<Occurrence>, later: seq<Occurrence>)
    requires (forall h | h in hits :: h.key in ents) && KeysOf(here) == HitKeys(hits)
    ensures ValuesFor(hits, ents, Some(done + here + later), |done|) == SurfacesOf(here)
    ensures CursorAfter(hits, ents, Some(done + here + later), |done|) == |done + here|
    decreases |hits|
  {
    assert |here| == |KeysOf(here)| == |HitKeys(hits)| == |hits|;
    if hits == [] {
      assert done + here == done;
    } else {
      var exact := done + here + later;
      assert KeysOf(here)[0] == HitKeys(hits)[0];
      assert KeysOf(here)[1..] == KeysOf(here[1..]) && HitKeys(hits)[1..] == HitKeys(hits[1..]);
      assert (done + [here[0]]) + here[1..] == done + here;
      assert exact[|done|] == here[0];
      ExactValues(hits[1..], ents, done + [here[0]], here[1..], later);
    }
  }

  lemma {:induction false} KeysOfHits(n: nat, from: nat, marks: seq<Mark>, off: nat)
    requires Ordered(n, from, Reps(marks))
    ensures HitKeys(HitsOf(from, marks, off)) == KeysOf(Occurrences(marks))
    decreases |marks|
  {
    if marks != [] {
      assert Reps(marks)[1..] == Reps(marks[1..]);
      KeysOfHits(n, marks[0].end, marks[1..], off + (marks[0].start - from) + |marks[0].tag|);
    }
  }

  lemma {:induction false} HitKeyMember(hits: seq<Hit>, h: Hit)
    requires h in hits
    ensures h.key in HitKeys(hits)
  {
    if h != hits[0] { HitKeyMember(hits[1..], h); }
  }

  /** A text with its own spellings in place is the text. */
  lemma {:induction false} OwnSpelling(text: string, from: nat, marks: seq<Mark>)
    requires from <= |text| && Ordered(|text|, from, Reps(marks))
    requires forall k | 0 <= k < |marks| :: marks[k].start <= marks[k].end <= |text| && marks[k].original == text[marks[k].start..marks[k].end]
    ensures Ordered(|text|, from, Respelled(marks, SurfacesOf(Occurrences(marks))))
    ensures Splice(text, from, Respelled(marks, SurfacesOf(Occurrences(marks)))) == text[from..]
    decreases |marks|
  {
    if marks != [] {
      var m, rest := marks[0], Respelled(marks[1..], SurfacesOf(Occurrences(marks[1..])));
      SpliceHead(text, from, RepOf(m), Reps(marks[1..]));
      OwnSpelling(text, m.end, marks[1..]);
      HeadAgain(text, from, m, m.original, rest);
      assert text[from..] == text[from..m.start] + (text[m.start..m.end] + text[m.end..]);
    }
  }

  // ---- whole documents ---------------------------------------------------------------

  /** Matches are not empty, come in text order and do not overlap. */
  ghost predicate InOrder(n: nat, from: nat, hits: seq<Hit>)
    decreases |hits|
  {
    hits == [] || (from <= hits[0].start < hits[0].end <= n && InOrder(n, hits[0].end, hits[1..]))
  }

  ghost predicate IsScanner(find: string -> seq<Hit>) { forall t :: InOrder(|t|, 0, find(t)) }

  lemma {:induction false} RestoreOrdered(n: nat, from: nat, hits: seq<Hit>, ents: map<Key, Entity>,
                                          exact: Option<seq<Occurrence>>, cursor: nat)
    requires InOrder(n, from, hits)
    ensures Ordered(n, from, RestoreReps(hits, ents, exact, cursor))
    decreases |hits|
  {
    if hits != [] {
      if hits[0].key !in ents {
        RestoreOrdered(n, hits[0].end, hits[1..], ents, exact, cursor);
        OrderedFromEarlier(n, from, hits[0].end, RestoreReps(hits[1..], ents, exact, cursor));
      } else {
        RestoreOrdered(n, hits[0].end, hits[1..], ents, exact, Advance(exact, cursor));
        assert RestoreReps(hits, ents, exact, cursor)[1..] == RestoreReps(hits[1..], ents, exact, Advance(exact, cursor));
      }
    }
  }

  lemma OrderedFromEarlier(n: nat, from: nat, at: nat, reps: seq<Replacement<char>>)
    requires from <= at && Ordered(n, at, reps)
    ensures Ordered(n, from, reps)
  {
  }

  ghost function RestoreText(find: string -> seq<Hit>, ents: map<Key, Entity>, exact: Option<seq<Occurrence>>,
                             text: string, cursor: nat): string
    requires IsScanner(find)
  {
    RestoreOrdered(|text|, 0, find(text), ents, exact, cursor);
    Splice(text, 0, RestoreReps(find(text), ents, exact, cursor))
  }

  /** All units of a document, with one cursor across them. */
  ghost function RestoreAll(find: string -> seq<Hit>, ents: map<Key, Entity>, exact: Option<seq<Occurrence>>,
                            texts: seq<string>, cursor: nat): seq<string>
    requires IsScanner(find)
  {
    if texts == [] then []
    else [RestoreText(find, ents, exact, texts[0], cursor)]
         + RestoreAll(find, ents, exact, texts[1..], CursorAfter(find(texts[0]), ents, exact, cursor))
  }

  function AllOccurrences(units: seq<Unit>): seq<Occurrence> {
    if units == [] then [] else Occurrences(units[0].marks) + AllOccurrences(units[1..])
  }

  function AllKeys(find: string -> seq<Hit>, texts: seq<string>): seq<Key> {
    if texts == [] then [] else HitKeys(find(texts[0])) + AllKeys(find, texts[1..])
  }

  ghost predicate AllOk(units: seq<Unit>) {
    units == [] || (MarksOk(units[0].text, units[0].marks) && AllOk(units[1..]))
  }

  ghost predicate AllFound(find: string -> seq<Hit>, units: seq<Unit>) {
    units == [] || (FindsInserted(find, units[0]) && AllFound(find, units[1..]))
  }

  lemma {:induction false} FoundIsOk(find: string -> seq<Hit>, units: seq<Unit>)
    requires AllFound(find, units)
    ensures AllOk(units)
  {
    if units != [] { FoundIsOk(find, units[1..]); }
  }

  ghost function Outs(units: seq<Unit>): (r: seq<string>)
    requires AllOk(units)
    ensures |r| == |units|
  {
    if units == [] then [] else [OutOf(units[0].text, units[0].marks)] + Outs(units[1..])
  }

  function Texts(units: seq<Unit>): seq<string> {
    if units == [] then [] else [units[0].text] + Texts(units[1..])
  }

  /** The document with the spellings of another record that has the same labels. */
  ghost function RespelledAll(units: seq<Unit>, occ: seq<Occurrence>): seq<string>
    requires |occ| == |AllOccurrences(units)| && AllOk(units)
  {
    if units == [] then []
    else
      var u, n := units[0], |units[0].marks|;
      RespelledOrdered(|u.text|, 0, u.marks, SurfacesOf(occ[..n]));
      [Splice(u.text, 0, Respelled(u.marks, SurfacesOf(occ[..n])))] + RespelledAll(units[1..], occ[n..])
  }

  lemma {:induction false} RespelledOrdered(n: nat, from: nat, marks: seq<Mark>, surfaces: seq<string>)
    requires Ordered(n, from, Reps(marks)) && |surfaces| == |marks|
    ensures Ordered(n, from, Respelled(marks, surfaces))
    decreases |marks|
  {
    if marks != [] {
      assert Reps(marks)[1..] == Reps(marks[1..]);
      RespelledOrdered(n, marks[0].end, marks[1..], surfaces[1..]);
      assert Respelled(marks, surfaces)[1..] == Respelled(marks[1..], surfaces[1..]);
    }
  }

  lemma {:induction false} KeysConcat(a: seq<Occurrence>, b: seq<Occurrence>)
    ensures KeysOf(a + b) == KeysOf(a) + KeysOf(b)
  {
    if a == [] {
      assert a + b == b;
    } else {
      assert (a + b)[1..] == a[1..] + b;
      KeysConcat(a[1..], b);
    }
  }

  /** One unit under an aligned cursor. */
  lemma RestoreUnitExact(find: string -> seq<Hit>, u: Unit, ents: map<Key, Entity>, done: seq<Occurrence>,
                         here: seq<Occurrence>, later: seq<Occurrence>)
    requires IsScanner(find) && FindsInserted(find, u) && KeysOf(here) == KeysOf(Occurrences(u.marks))
    requires forall k | k in KeysOf(here) :: k in ents
    ensures var out, exact := OutOf(u.text, u.marks), Some(done + here + later);
            && |here| == |u.marks| && Ordered(|u.text|, 0, Respelled(u.marks, SurfacesOf(here)))
            && RestoreText(find, ents, exact, out, |done|) == Splice(u.text, 0, Respelled(u.marks, SurfacesOf(here)))
            && CursorAfter(find(out), ents, exact, |done|) == |done + here|
  {
    var out, exact := OutOf(u.text, u.marks), Some(done + here + later);
    var hits := find(out);
    assert |KeysOf(here)| == |here| == |u.marks|;
    KeysOfHits(|u.text|, 0, u.marks, 0);
    forall h | h in hits ensures h.key in ents { HitKeyMember(hits, h); }
    ExactValues(hits, ents, done, here, later);
    RestoreIsOver(hits, ents, exact, |done|);
    SpliceOver(u.text, 0, u.marks, SurfacesOf(here), "");
    assert "" + out == out;
  }

  /** The record splits into the first unit's part and the rest. */
  lemma SplitRecord(units: seq<Unit>, occ: seq<Occurrence>)
    requires units != [] && KeysOf(occ) == KeysOf(AllOccurrences(units))
    ensures var n := |units[0].marks|;
            && |occ| == |AllOccurrences(units)| && n <= |occ| && occ == occ[..n] + occ[n..]
            && KeysOf(occ[..n]) == KeysOf(Occurrences(units[0].marks))
            && KeysOf(occ[n..]) == KeysOf(AllOccurrences(units[1..]))
            && (forall k | k in KeysOf(occ[..n]) || k in KeysOf(occ[n..]) :: k in KeysOf(occ))
  {
    var n := |units[0].marks|;
    assert |KeysOf(occ)| == |occ| && |KeysOf(AllOccurrences(units))| == |AllOccurrences(units)|;
    assert occ == occ[..n] + occ[n..];
    KeysConcat(occ[..n], occ[n..]);
    KeysConcat(Occurrences(units[0].marks), AllOccurrences(units[1..]));
    SplitEqual(KeysOf(occ[..n]), KeysOf(occ[n..]), KeysOf(Occurrences(units[0].marks)), KeysOf(AllOccurrences(units[1..])));
  }

  /** The cursor stays aligned with the record across all units, so every mention gets the recorded spelling. */
  lemma {:induction false} RestoreAllExact(find: string -> seq<Hit>, units: seq<Unit>, ents: map<Key, Entity>,
                                           exact: seq<Occurrence>, done: seq<Occurrence>, occ: seq<Occurrence>)
    requires IsScanner(find) && AllFound(find, units) && AllOk(units) && exact == done + occ
    requires KeysOf(occ) == KeysOf(AllOccurrences(units)) && forall k | k in KeysOf(occ) :: k in ents
    ensures |occ| == |AllOccurrences(units)|
    ensures RestoreAll(find, ents, Some(exact), Outs(units), |done|) == RespelledAll(units, occ)
    decreases |units|
  {
    assert |KeysOf(occ)| == |occ|;
    if units != [] {
      SplitRecord(units, occ);
      var u, n := units[0], |units[0].marks|;
      assert exact == done + occ[..n] + occ[n..];
      RestoreUnitExact(find, u, ents, done, occ[..n], occ[n..]);
      RestoreAllExact(find, units[1..], ents, exact, done + occ[..n], occ[n..]);
      FirstThenRest(find, units, ents, exact, |done|);
    }
  }

  lemma FirstThenRest(find: string -> seq<Hit>, units: seq<Unit>, ents: map<Key, Entity>, exact: seq<Occurrence>, cursor: nat)
    requires IsScanner(find) && units != [] && AllOk(units)
    ensures var out := OutOf(units[0].text, units[0].marks);
            RestoreAll(find, ents, Some(exact), Outs(units), cursor)
            == [RestoreText(find, ents, Some(exact), out, cursor)]
               + RestoreAll(find, ents, Some(exact), Outs(units[1..]), CursorAfter(find(out), ents, Some(exact), cursor))
  {
    assert Outs(units)[1..] == Outs(units[1..]);
  }

  lemma SplitEqual<T>(a: seq<T>, b: seq<T>, c: seq<T>, d: seq<T>)
    requires a + b == c + d && |a| == |c|
    ensures a == c && b == d
    ensures forall x | x in a || x in b :: x in a + b
  {
    assert a == (a + b)[..|a|] && c == (c + d)[..|a|];
    assert b == (a + b)[|a|..] && d == (c + d)[|a|..];
  }

  // ---- the record of documents -------------------------------------------------------

  /** A row of the document table; `anon` tells anonymized documents from restored ones. */
  datatype Doc = Doc(anon: bool, digest: Option<string>, restore: Option<seq<Occurrence>>)

  /** `restore_map`: the latest anonymized document with the digest. Rows stand in creation order. */
  function Latest(docs: seq<Doc>, digest: string): Option<seq<Occurrence>> {
    if docs == [] then None
    else
      var doc := docs[|docs| - 1];
      if doc.anon && doc.digest == Some(digest) then doc.restore else Latest(docs[..|docs| - 1], digest)
  }

  /** `exact_map`: nothing without labels, nothing when the record's labels differ. */
  function ExactMap(find: string -> seq<Hit>, digest: seq<Key> -> string, docs: seq<Doc>, texts: seq<string>)
    : Option<seq<Occurrence>>
  {
    var keys := AllKeys(find, texts);
    if keys == [] then None
    else
      var exact := Latest(docs, digest(keys));
      if exact.Some? && KeysOf(exact.value) != keys then None else exact
  }

  lemma {:induction false} KeysFound(find: string -> seq<Hit>, units: seq<Unit>)
    requires AllFound(find, units) && AllOk(units)
    ensures AllKeys(find, Outs(units)) == KeysOf(AllOccurrences(units))
  {
    if units != [] {
      var u := units[0];
      KeysOfHits(|u.text|, 0, u.marks, 0);
      KeysConcat(Occurrences(u.marks), AllOccurrences(units[1..]));
      assert Outs(units)[1..] == Outs(units[1..]);
      KeysFound(find, units[1..]);
    }
  }

  lemma {:induction false} RespelledOwn(units: seq<Unit>)
    requires AllOk(units)
    ensures RespelledAll(units, AllOccurrences(units)) == Texts(units)
  {
    if units != [] {
      var u, all := units[0], AllOccurrences(units);
      assert all[..|u.marks|] == Occurrences(u.marks) && all[|u.marks|..] == AllOccurrences(units[1..]);
      OwnSpelling(u.text, 0, u.marks);
      assert u.text[0..] == u.text;
      RespelledOwn(units[1..]);
    }
  }

  lemma {:induction false} NoLabels(find: string -> seq<Hit>, units: seq<Unit>, ents: map<Key, Entity>, cursor: nat)
    requires IsScanner(find) && AllFound(find, units) && AllOk(units) && AllOccurrences(units) == []
    ensures RestoreAll(find, ents, None, Outs(units), cursor) == Texts(units)
  {
    if units != [] {
      var u := units[0];
      assert |Occurrences(u.marks)| == 0 && Occurrences(u.marks) == [] && AllOccurrences(units[1..]) == [];
      assert u.marks == [] && u.text[0..] == u.text && Outs(units)[1..] == Outs(units[1..]);
      NoLabels(find, units[1..], ents, cursor);
    }
  }

  /** Restoring uses the latest record with the same labels, for every unit: the result is the original
      document in that record's spellings. */
  lemma RestoreUsesLatest(find: string -> seq<Hit>, digest: seq<Key> -> string, docs: seq<Doc>, units: seq<Unit>,
                          ents: map<Key, Entity>, occ: seq<Occurrence>)
    requires IsScanner(find) && AllFound(find, units) && AllOccurrences(units) != []
    requires Latest(docs, digest(KeysOf(AllOccurrences(units)))) == Some(occ)
    requires KeysOf(occ) == KeysOf(AllOccurrences(units)) && forall k | k in KeysOf(occ) :: k in ents
    ensures AllOk(units) && |occ| == |AllOccurrences(units)|
    ensures RestoreAll(find, ents, ExactMap(find, digest, docs, Outs(units)), Outs(units), 0) == RespelledAll(units, occ)
  {
    FoundIsOk(find, units);
    KeysFound(find, units);
    assert |KeysOf(AllOccurrences(units))| > 0;
    assert occ == [] + occ;
    RestoreAllExact(find, units, ents, occ, [], occ);
  }

  /** Restoring an anonymized document returns every unit's original text, if the scanner finds exactly the
      inserted labels, all of them still resolve, and the document is the latest with its label sequence. */
  lemma RestoresOriginal(find: string -> seq<Hit>, digest: seq<Key> -> string, docs: seq<Doc>, units: seq<Unit>,
                         ents: map<Key, Entity>)
    requires IsScanner(find) && AllFound(find, units)
    requires forall k | k in KeysOf(AllOccurrences(units)) :: k in ents
    requires Latest(docs, digest(KeysOf(AllOccurrences(units)))) == Some(AllOccurrences(units))
    ensures AllOk(units)
    ensures RestoreAll(find, ents, ExactMap(find, digest, docs, Outs(units)), Outs(units), 0) == Texts(units)
  {
    FoundIsOk(find, units);
    KeysFound(find, units);
    if AllOccurrences(units) == [] {
      NoLabels(find, units, ents, 0);
    } else {
      RestoreUsesLatest(find, digest, docs, units, ents, AllOccurrences(units));
      RespelledOwn(units);
    }
  }

  /** A recorded document stays the latest with its labels until another one with the same digest comes. */
  lemma {:induction false} RecordedIsLatest(docs: seq<Doc>, later: seq<Doc>, digest: string, occ: seq<Occurrence>)
    requires forall doc | doc in later :: !doc.anon || doc.digest != Some(digest)
    ensures Latest(docs + [Doc(true, Some(digest), Some(occ))] + later, digest) == Some(occ)
    decreases |later|
  {
    var all := docs + [Doc(true, Some(digest), Some(occ))] + later;
    if later == [] {
    } else {
      assert all[|all| - 1] == later[|later| - 1] && later[|later| - 1] in later;
      assert all[..|all| - 1] == docs + [Doc(true, Some(digest), Some(occ))] + later[..|later| - 1];
      RecordedIsLatest(docs, later[..|later| - 1], digest, occ);
    }
  }

  /** A deleted label shifts the record: the mentions behind it lose their own spelling. */
  lemma DeletedLabelMisaligns(gone: Key, kept: Key, ents: map<Key, Entity>, first: string, second: string)
    requires gone !in ents && kept in ents && gone != kept
    ensures var hits := [Hit(0, 1, gone), Hit(1, 2, kept)];
            var exact := Some([Occurrence(gone, first), Occurrence(kept, second)]);
            RestoreReps(hits, ents, exact, 0) == [Replacement(1, 2, ents[kept].row.value)]
  {
    var hits, one := [Hit(0, 1, gone), Hit(1, 2, kept)], [Hit(1, 2, kept)];
    var exact := Some([Occurrence(gone, first), Occurrence(kept, second)]);
    assert hits[1..] == one && one[1..] == [];
    assert RestoreReps(one, ents, exact, 0) == [Replacement(1, 2, ents[kept].row.value)];
  }
}
