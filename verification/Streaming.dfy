/** Stream-safe re-inflation: `trailing_partial_len` (app/redaction/placeholders.py) and
    `StreamDetokenizer` (app/redaction/vault.py). */
module Streaming {
  import opened Placeholders

  const MAX_PLACEHOLDER_LEN: nat := 64

  // ---- _PARTIAL_TAIL_RE ------------------------------------------------------------

  /** `s` is `[[`, type characters up to `v`, optionally `_` and hex digits up to `e`, and
      optionally one closing bracket. */
  predicate PartialShape(s: string, v: nat, e: nat) {
    && 2 <= v <= e <= |s| && s[0] == '[' && s[1] == '['
    && (forall k | 2 <= k < v :: TypeChar(s[k]))
    && (v < e ==> s[v] == '_' && forall k | v < k < e :: HexChar(s[k]))
    && (e < |s| ==> e == |s| - 1 && s[e] == ']')
  }

  predicate IsPartial(s: string) {
    s == "[" || exists v: nat, e: nat | v <= |s| && e <= |s| :: PartialShape(s, v, e)
  }

  /** The pattern ends with `$`, which also matches just before a final newline. */
  predicate TailHere(t: string) {
    IsPartial(t) || (|t| > 0 && t[|t| - 1] == '\n' && IsPartial(t[..|t| - 1]))
  }

  /** Two brackets, capitals, digits and underscores, perhaps an underscore and hex digits, perhaps one closing
      bracket. */
  predicate Beginning(s: string, types: string, hex: string, close: string) {
    && s == "[[" + types + hex + close && WrittenIn(types, TYPE_LETTERS)
    && (hex == "" || (hex[0] == '_' && WrittenIn(hex[1..], HEX_LETTERS)))
    && (close == "" || close == "]")
  }

  /** One bracket, or the beginning of a placeholder. */
  ghost predicate Unfinished(s: string) { s == "[" || exists types, hex, close :: Beginning(s, types, hex, close) }

  /** What is withheld at the end of a buffer, perhaps with a final line break. */
  lemma TailIsUnfinished(t: string)
    ensures TailHere(t) <==> exists s, end :: t == s + end && Unfinished(s) && (end == "" || end == "\n")
  {
    if TailHere(t) {
      if IsPartial(t) {
        PartialIsUnfinished(t);
        assert t == t + "";
      } else {
        var s := t[..|t| - 1];
        PartialIsUnfinished(s);
        assert t == s + "\n";
      }
    }
    if s, end :| t == s + end && Unfinished(s) && (end == "" || end == "\n") {
      PartialIsUnfinished(s);
      if end == "" { assert t == s; } else { assert t[..|t| - 1] == s; }
    }
  }

  lemma PartialIsUnfinished(s: string)
    ensures IsPartial(s) <==> Unfinished(s)
  {
    if s != "[" {
      if v: nat, e: nat :| v <= |s| && e <= |s| && PartialShape(s, v, e) { ShapeIsBeginning(s, v, e); }
      if types, hex, close :| Beginning(s, types, hex, close) { BeginningIsShape(s, types, hex, close); }
    }
  }

  lemma ShapeIsBeginning(s: string, v: nat, e: nat)
    requires v <= |s| && e <= |s| && PartialShape(s, v, e)
    ensures Beginning(s, s[2..v], s[v..e], s[e..])
  {
    var types, hex, close := s[2..v], s[v..e], s[e..];
    assert s == "[[" + types + hex + close;
    forall k | 0 <= k < |types| ensures TypeChar(types[k]) { assert types[k] == s[2 + k]; }
    TypeText(types);
    if hex != "" {
      forall k | 0 <= k < |hex[1..]| ensures HexChar(hex[1..][k]) { assert hex[1..][k] == s[v + 1 + k]; }
      HexText(hex[1..]);
    }
  }

  lemma BeginningIsShape(s: string, types: string, hex: string, close: string)
    requires Beginning(s, types, hex, close)
    ensures 2 + |types| + |hex| <= |s| && PartialShape(s, 2 + |types|, 2 + |types| + |hex|)
  {
    var v, e := 2 + |types|, 2 + |types| + |hex|;
    FourParts(s, types, hex, close);
    TypeText(types);
    forall k | 2 <= k < v ensures TypeChar(s[k]) { assert TypeChar(types[k - 2]); }
    if hex != "" {
      HexText(hex[1..]);
      forall k | v < k < e ensures HexChar(s[k]) { assert hex[k - v] == hex[1..][k - v - 1]; }
    }
  }

  lemma FourParts(s: string, types: string, hex: string, close: string)
    requires s == "[[" + types + hex + close
    ensures var v, e := 2 + |types|, 2 + |types| + |hex|;
            && |s| == e + |close| && s[0] == '[' && s[1] == '['
            && (forall k | 2 <= k < v :: s[k] == types[k - 2]) && (forall k | v <= k < e :: s[k] == hex[k - v])
            && (forall k | e <= k < |s| :: s[k] == close[k - e])
  {
  }

  /** Leftmost index from `p` on where the tail pattern matches, |t| when there is none. */
  function PartialStart(t: string, p: nat): (r: nat)
    requires p <= |t|
    ensures p <= r <= |t|
    decreases |t| - p
  {
    if p == |t| then p else if TailHere(t[p..]) then p else PartialStart(t, p + 1)
  }

  lemma {:induction false} PartialStartSpec(t: string, p: nat)
    requires p <= |t|
    ensures PartialStart(t, p) < |t| ==> TailHere(t[PartialStart(t, p)..])
    ensures forall q | p <= q < |t| && TailHere(t[q..]) :: PartialStart(t, p) <= q
    decreases |t| - p
  {
    if p < |t| && !TailHere(t[p..]) { PartialStartSpec(t, p + 1); }
  }

  function TrailingPartialLen(text: string): (n: nat)
    ensures n <= |text|
  {
    |text| - PartialStart(text, 0)
  }

  /** Every proper prefix of a placeholder is recognised as a partial one. */
  lemma PrefixIsPartial(p: string, k: nat)
    requires IsPlaceholder(p) && 0 < k < |p|
    ensures IsPartial(p[..k])
  {
    var u := SplitWitness(p, 0);
    var s := p[..k];
    if k > 1 {
      var v, e := if k <= u then k else u, if k <= |p| - 2 then k else |p| - 2;
      assert PartialShape(s, v, e);
    }
  }

  /** What the characters of a text can be from a matching tail on. */
  lemma TailChars(t: string, p: nat)
    requires p < |t| && TailHere(t[p..])
    ensures t[p] == '['
    ensures p + 1 < |t| ==> t[p + 1] == '[' || t[p + 1] == '\n'
    ensures forall k | p + 2 <= k < |t| :: t[k] != '['
    ensures forall k | p <= k < |t| - 1 :: t[k] != ']' || t[k + 1] != ']'
  {
    var s := if IsPartial(t[p..]) then t[p..] else t[p..][..|t| - p - 1];
    forall k | 0 <= k < |s| ensures t[p + k] == s[k] {}
    PartialChars(s);
    forall k | p + 2 <= k < |t| ensures t[k] != '[' {
      if k - p < |s| { assert s[k - p] == t[k]; }
    }
    forall k | p <= k < |t| - 1 ensures t[k] != ']' || t[k + 1] != ']' {
      if k + 1 - p < |s| { assert s[k - p] == t[k] && s[k + 1 - p] == t[k + 1]; }
    }
  }

  lemma PartialChars(s: string)
    requires IsPartial(s)
    ensures |s| > 0 && s[0] == '['
    ensures |s| > 1 ==> s[1] == '['
    ensures forall k | 2 <= k < |s| :: s[k] != '['
    ensures forall k | 0 <= k < |s| - 1 :: s[k] != ']'
  {
    if s != "[" {
      var v: nat, e: nat :| v <= |s| && e <= |s| && PartialShape(s, v, e);
      forall k | 2 <= k < |s| ensures s[k] != '[' && (k < |s| - 1 ==> s[k] != ']') {
        assert k < v || k == v || k == e || HexChar(s[k]);
      }
    }
  }

  // ---- what push withholds ---------------------------------------------------------

  function HoldLen(buffer: string): (n: nat)
    ensures n <= |buffer| && n <= MAX_PLACEHOLDER_LEN
  {
    var n := TrailingPartialLen(buffer);
    if n <= MAX_PLACEHOLDER_LEN then n else MAX_PLACEHOLDER_LEN
  }

  function Cut(buffer: string): (c: nat)
    ensures c <= |buffer| <= c + MAX_PLACEHOLDER_LEN
  {
    |buffer| - HoldLen(buffer)
  }

  /** Withheld is the longest tail that can be the beginning of a placeholder, or its last 64 characters. */
  lemma HeldIs(buffer: string, p: nat)
    requires p <= |buffer| && (p < |buffer| ==> TailHere(buffer[p..])) && forall q | 0 <= q < p :: !TailHere(buffer[q..])
    ensures HoldLen(buffer) == if |buffer| - p <= 64 then |buffer| - p else 64
  {
    PartialStartSpec(buffer, 0);
    if PartialStart(buffer, 0) < |buffer| { assert TailHere(buffer[PartialStart(buffer, 0)..]); }
  }

  /** A complete match in the buffer is never cut. */
  lemma CompleteMatchIsWhole(buffer: string, i: nat, j: nat)
    requires i <= j <= |buffer| && IsPlaceholder(buffer[i..j])
    ensures Cut(buffer) <= i || j <= Cut(buffer)
  {
    var p := PartialStart(buffer, 0);
    PartialStartSpec(buffer, 0);
    MatchChars(buffer, i, j);
    if p < |buffer| { TailChars(buffer, p); }
  }

  /** A match that is still growing is withheld from its first character on. */
  lemma GrowingMatchIsHeld(buffer: string, rest: string, i: nat, j: nat)
    requires i < |buffer| < j <= |buffer + rest| && IsPlaceholder((buffer + rest)[i..j])
    requires j - i <= MAX_PLACEHOLDER_LEN + 1
    ensures Cut(buffer) <= i
  {
    var p := (buffer + rest)[i..j];
    PrefixIsPartial(p, |buffer| - i);
    assert p[..|buffer| - i] == buffer[i..];
    PartialStartSpec(buffer, 0);
  }

  /** Every placeholder that would be rewritten has at most `n` characters. */
  ghost predicate KeysUpTo(m: Resolver, n: nat) {
    forall k | k in m && IsPlaceholder(k) && m[k] != k :: |k| <= n
  }

  /** Every placeholder that would be rewritten is at most one character longer than the
      withheld tail. */
  ghost predicate ShortKeys(m: Resolver) { KeysUpTo(m, MAX_PLACEHOLDER_LEN + 1) }

  lemma HoldIsClean(buffer: string, rest: string, m: Resolver)
    requires ShortKeys(m)
    ensures CleanCut(buffer + rest, Cut(buffer), m)
  {
    var s, c := buffer + rest, Cut(buffer);
    forall i, j | 0 <= i < c < j <= |s| && IsPlaceholder(s[i..j]) ensures !Active(m, s[i..j]) {
      if j <= |buffer| {
        assert s[i..j] == buffer[i..j];
        CompleteMatchIsWhole(buffer, i, j);
      } else if Active(m, s[i..j]) {
        GrowingMatchIsHeld(buffer, rest, i, j);
      }
    }
  }

  // ---- whole streams ---------------------------------------------------------------

  function Concat(chunks: seq<string>): string {
    if chunks == [] then "" else chunks[0] + Concat(chunks[1..])
  }

  /** Everything that the pushes of `chunks` and the final flush emit, from a given buffer. */
  function StreamFrom(buffer: string, chunks: seq<string>, m: Resolver): string
    decreases |chunks|
  {
    if chunks == [] then Detok(buffer, m) else
      var b := buffer + chunks[0];
      Detok(b[..Cut(b)], m) + StreamFrom(b[Cut(b)..], chunks[1..], m)
  }

  /** What has been emitted and what is withheld always make up the one-shot result. */
  lemma PushKeepsMeaning(b: string, future: string, m: Resolver)
    requires ShortKeys(m)
    ensures Detok(b + future, m) == Detok(b[..Cut(b)], m) + Detok(b[Cut(b)..] + future, m)
  {
    var c := Cut(b);
    HoldIsClean(b, future, m);
    DetokAtCut(b + future, c, m);
    assert (b + future)[..c] == b[..c] && (b + future)[c..] == b[c..] + future;
  }

  lemma {:induction false} StreamExact(buffer: string, chunks: seq<string>, m: Resolver)
    requires ShortKeys(m)
    ensures StreamFrom(buffer, chunks, m) == Detok(buffer + Concat(chunks), m)
    decreases |chunks|
  {
    if chunks == [] {
      assert buffer + "" == buffer;
    } else {
      var b, rest := buffer + chunks[0], Concat(chunks[1..]);
      assert buffer + (chunks[0] + rest) == b + rest;
      StreamExact(b[Cut(b)..], chunks[1..], m);
      PushKeepsMeaning(b, rest, m);
    }
  }

  // ---- a placeholder of 66 characters or more can be lost ---------------------------

  lemma NoTail(t: string, p: nat)
    requires p <= |t|
    requires forall q | p <= q < |t| :: !TailHere(t[q..])
    ensures PartialStart(t, p) == |t|
    decreases |t| - p
  {
    if p < |t| { NoTail(t, p + 1); }
  }

  lemma LongKeyIsLost(k: string, m: Resolver) returns (chunks: seq<string>)
    requires IsPlaceholder(k) && |k| >= 66
    ensures Concat(chunks) == k && StreamFrom("", chunks, m) == k
  {
    var n := |k| - 1;
    var c := n - MAX_PLACEHOLDER_LEN;
    LongKeyFirstPush(k, m);
    LongKeySecondPush(k, m);
    Regroup(k, c, n);
    TwoPushes(k[..n], k[n..], m, k[..c], k[c..]);
    chunks := [k[..n], k[n..]];
  }

  lemma Regroup(k: string, c: nat, n: nat)
    requires c <= n <= |k|
    ensures k[..n][c..] + k[n..] == k[c..] && k[..n] + k[n..] == k && k[..c] + k[c..] == k
  {
  }

  lemma DetokWhole(k: string, m: Resolver)
    requires Active(m, k) && IsPlaceholder(k)
    ensures Detok(k, m) == m[k]
  {
    assert k + "" == k && m[k] + "" == m[k];
    DetokFront(k, "", m);
  }

  lemma LongKeyFirstPush(k: string, m: Resolver)
    requires IsPlaceholder(k) && |k| > MAX_PLACEHOLDER_LEN + 1
    ensures var first, c := k[..|k| - 1], |k| - 1 - MAX_PLACEHOLDER_LEN;
            Cut(first) == c && Detok(first[..Cut(first)], m) == k[..c] && first[Cut(first)..] == first[c..]
  {
    var n := |k|;
    var first, c := k[..n - 1], n - 1 - MAX_PLACEHOLDER_LEN;
    PrefixIsPartial(k, n - 1);
    assert first[0..] == first && first[..c] == k[..c] && k[0..n] == k;
    InsideIsPlain(k, n, c);
    PlainIsFixed(k[..c], m);
  }

  lemma LongKeySecondPush(k: string, m: Resolver)
    requires IsPlaceholder(k) && |k| > MAX_PLACEHOLDER_LEN + 1
    ensures var c := |k| - 1 - MAX_PLACEHOLDER_LEN;
            Cut(k[c..]) == |k| - c && Detok(k[c..], m) == k[c..]
  {
    var n, c := |k|, |k| - 1 - MAX_PLACEHOLDER_LEN;
    assert k[0..n] == k;
    InsideIsPlain(k, n, c);
    PlainIsFixed(k[c..], m);
    SuffixHasNoTail(k, c);
  }

  lemma TwoPushes(first: string, last: string, m: Resolver, x: string, b: string)
    requires Detok(first[..Cut(first)], m) == x
    requires b == first[Cut(first)..] + last && Cut(b) == |b| && Detok(b, m) == b
    ensures Concat([first, last]) == first + last
    ensures StreamFrom("", [first, last], m) == x + b
  {
    var chunks := [first, last];
    assert "" + first == first && chunks[1..] == [last] && [last][1..] == [];
    assert Concat([last]) == last + "" == last;
    assert b[..|b|] == b && b[|b|..] == "" && b + "" == b;
    assert StreamFrom(first[Cut(first)..], [last], m) == b + "";
  }

  lemma SuffixHasNoTail(k: string, c: nat)
    requires IsPlaceholder(k) && 0 < c < |k|
    ensures PartialStart(k[c..], 0) == |k| - c
  {
    assert k[0..|k|] == k;
    MatchChars(k, 0, |k|);
    var t := k[c..];
    forall i | 0 <= i < |t| ensures t[i] == k[c + i] {}
    forall q | 0 <= q < |t| ensures !TailHere(t[q..]) {
      if TailHere(t[q..]) { TailChars(t, q); }
    }
    NoTail(t, 0);
  }

  /** Streaming gives the one-shot result for every way of cutting every text exactly when no
      rewritten placeholder is longer than 65 characters. */
  lemma StreamAgreesIff(m: Resolver)
    ensures (forall chunks :: StreamFrom("", chunks, m) == Detok(Concat(chunks), m)) <==> KeysUpTo(m, 65)
  {
    if ShortKeys(m) {
      forall chunks ensures StreamFrom("", chunks, m) == Detok(Concat(chunks), m) {
        StreamExact("", chunks, m);
        assert "" + Concat(chunks) == Concat(chunks);
      }
    } else {
      var k :| k in m && IsPlaceholder(k) && m[k] != k && |k| > MAX_PLACEHOLDER_LEN + 1;
      var chunks := LongKeyIsLost(k, m);
      DetokWhole(k, m);
      assert StreamFrom("", chunks, m) != Detok(Concat(chunks), m);
    }
  }

  // ---- the class -------------------------------------------------------------------

  class StreamDetokenizer {
    var buffer: string
    const resolved: Resolver

    constructor (resolved: Resolver)
      ensures buffer == "" && this.resolved == resolved
    {
      buffer := "";
      this.resolved := resolved;
    }

    /** Whatever follows, the emitted text and the new buffer mean what the old buffer and
        the chunk meant; at most 64 characters are withheld. */
    method Push(chunk: string) returns (out: string)
      modifies this`buffer
      ensures var b := old(buffer) + chunk; out == Detok(b[..Cut(b)], resolved) && buffer == b[Cut(b)..]
      ensures |buffer| <= 64
      ensures KeysUpTo(resolved, 65) ==>
                forall future ::
                  Detok(old(buffer) + chunk + future, resolved) == out + Detok(buffer + future, resolved)
    {
      buffer := buffer + chunk;
      ghost var b := buffer;
      var hold := HoldLen(buffer);
      if hold >= |buffer| {
        assert b[..0] == "" && b[0..] == b;
        out := "";
      } else {
        var emitSrc := if hold > 0 then buffer[..|buffer| - hold] else buffer;
        buffer := if hold > 0 then buffer[|buffer| - hold..] else "";
        assert emitSrc == b[..Cut(b)] && buffer == b[Cut(b)..];
        out := Resolve(emitSrc, resolved);
      }
      if ShortKeys(resolved) {
        forall future ensures Detok(b + future, resolved) == out + Detok(buffer + future, resolved) {
          PushKeepsMeaning(b, future, resolved);
        }
      }
    }

    method Flush() returns (out: string)
      modifies this`buffer
      ensures out == Detok(old(buffer), resolved) && buffer == ""
    {
      if buffer == "" { return ""; }
      out := Resolve(buffer, resolved);
      buffer := "";
    }
  }

  /** A consumer that pushes every chunk and then flushes. */
  method StreamAll(chunks: seq<string>, m: Resolver) returns (out: string)
    ensures out == StreamFrom("", chunks, m)
    ensures KeysUpTo(m, 65) ==> out == Detok(Concat(chunks), m)
  {
    var d := new StreamDetokenizer(m);
    out := "";
    var i := 0;
    assert chunks[0..] == chunks;
    assert StreamFrom("", chunks, m) == "" + StreamFrom("", chunks, m);
    while i < |chunks|
      invariant i <= |chunks| && fresh(d) && d.resolved == m
      invariant StreamFrom("", chunks, m) == out + StreamFrom(d.buffer, chunks[i..], m)
    {
      ghost var before := d.buffer;
      var piece := d.Push(chunks[i]);
      StreamStep(out, before, chunks, i, m);
      out := out + piece;
      i := i + 1;
    }
    assert chunks[i..] == [];
    var last := d.Flush();
    out := out + last;
    if KeysUpTo(m, 65) { WholeStream(chunks, m); }
  }

  lemma StreamStep(out: string, buffer: string, chunks: seq<string>, i: nat, m: Resolver)
    requires i < |chunks|
    ensures var b := buffer + chunks[i];
            out + StreamFrom(buffer, chunks[i..], m)
            == (out + Detok(b[..Cut(b)], m)) + StreamFrom(b[Cut(b)..], chunks[i + 1..], m)
  {
    assert chunks[i..][0] == chunks[i] && chunks[i..][1..] == chunks[i + 1..];
  }

  lemma WholeStream(chunks: seq<string>, m: Resolver)
    requires KeysUpTo(m, 65)
    ensures StreamFrom("", chunks, m) == Detok(Concat(chunks), m)
  {
    StreamExact("", chunks, m);
    assert "" + Concat(chunks) == Concat(chunks);
  }
}
