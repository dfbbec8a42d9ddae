/** The `[[TYPE_hex]]` placeholder grammar (app/redaction/placeholders.py). */
module Placeholders {
  // The patterns as predicates, and the single-pass substitution that every de-tokenizer performs

  predicate Upper(c: char) { 'A' <= c <= 'Z' }

  predicate TypeChar(c: char) { Upper(c) || '0' <= c <= '9' || c == '_' }

  predicate HexChar(c: char) { '0' <= c <= '9' || 'a' <= c <= 'f' }

  /** Entity types are UPPER_SNAKE. */
  predicate IsType(t: string) {
    |t| > 0 && Upper(t[0]) && forall k | 0 <= k < |t| :: TypeChar(t[k])
  }

  predicate IsHex(h: string) {
    forall k | 0 <= k < |h| :: HexChar(h[k])
  }

  function MakePlaceholder(entityType: string, tokenHex: string): string {
    "[[" + entityType + "_" + tokenHex + "]]"
  }

  /** `s` is a full match of PLACEHOLDER_RE whose type/hex separator is at index `u`. */
  predicate Shape(s: string, u: nat) {
    && 3 <= u && u + 7 <= |s| <= u + 15
    && s[0] == '[' && s[1] == '[' && s[|s| - 2] == ']' && s[|s| - 1] == ']'
    && Upper(s[2]) && (forall k | 2 <= k < u :: TypeChar(s[k]))
    && s[u] == '_' && (forall k | u < k < |s| - 2 :: HexChar(s[k]))
  }

  /** Some index from `u` on separates a legal type from a legal hex suffix. */
  predicate SplitsFrom(s: string, u: nat)
    decreases |s| - u
  {
    u < |s| && (Shape(s, u) || SplitsFrom(s, u + 1))
  }

  predicate IsPlaceholder(s: string) { SplitsFrom(s, 0) }

  lemma {:induction false} SplitFound(s: string, u: nat, v: nat)
    requires u <= v < |s| && Shape(s, v)
    ensures SplitsFrom(s, u)
    decreases v - u
  {
    if u < v { SplitFound(s, u + 1, v); }
  }

  lemma {:induction false} SplitWitness(s: string, u: nat) returns (v: nat)
    requires SplitsFrom(s, u)
    ensures v < |s| && Shape(s, v)
    decreases |s| - u
  {
    if Shape(s, u) { v := u; } else { v := SplitWitness(s, u + 1); }
  }

  lemma MakeShape(t: string, h: string)
    requires IsType(t) && IsHex(h) && 4 <= |h| <= 12
    ensures Shape(MakePlaceholder(t, h), 2 + |t|)
  {
    var s, u := MakePlaceholder(t, h), 2 + |t|;
    assert |s| == u + 1 + |h| + 2;
    forall k | 2 <= k < u ensures s[k] == t[k - 2] {}
    forall k | u < k < |s| - 2 ensures s[k] == h[k - u - 1] {}
  }

  /** The grammar is exactly the set of strings `make_placeholder` builds from a legal
      type and 4 to 12 hex digits. */
  lemma GrammarIsMakePlaceholder(s: string)
    ensures IsPlaceholder(s) <==>
            exists t, h :: IsType(t) && IsHex(h) && 4 <= |h| <= 12 && s == MakePlaceholder(t, h)
  {
    if IsPlaceholder(s) {
      var u := SplitWitness(s, 0);
      var t, h := s[2..u], s[u + 1..|s| - 2];
      assert s == MakePlaceholder(t, h);
    }
    if t, h :| IsType(t) && IsHex(h) && 4 <= |h| <= 12 && s == MakePlaceholder(t, h) {
      MakeShape(t, h);
      SplitFound(s, 0, 2 + |t|);
    }
  }

  const CAPITALS := "ABCDEFGHIJKLMNOPQRSTUVWXYZ"
  const DIGITS := "0123456789"
  const TYPE_LETTERS := CAPITALS + DIGITS + "_"
  const HEX_LETTERS := DIGITS + "abcdef"

  predicate WrittenIn(s: string, letters: string) { forall k | 0 <= k < |s| :: s[k] in letters }

  /** `[[`, a capital, capitals, digits and underscores, an underscore, 4 to 12 hex digits, `]]`. */
  predicate Written(s: string, t: string, h: string) {
    && s == "[[" + t + "_" + h + "]]" && |t| >= 1 && t[0] in CAPITALS
    && WrittenIn(t, TYPE_LETTERS) && 4 <= |h| <= 12 && WrittenIn(h, HEX_LETTERS)
  }

  lemma GrammarInLetters(s: string)
    ensures IsPlaceholder(s) <==> exists t, h :: Written(s, t, h)
  {
    GrammarIsMakePlaceholder(s);
    if t, h :| IsType(t) && IsHex(h) && 4 <= |h| <= 12 && s == MakePlaceholder(t, h) { MadeIsWritten(s, t, h); }
    if t, h :| Written(s, t, h) { MadeIsWritten(s, t, h); }
  }

  lemma MadeIsWritten(s: string, t: string, h: string)
    ensures Written(s, t, h) <==> IsType(t) && IsHex(h) && 4 <= |h| <= 12 && s == MakePlaceholder(t, h)
  {
    TypeText(t);
    HexText(h);
    if |t| > 0 { Capitals(t[0]); }
    assert "[[" + t + "_" + h + "]]" == MakePlaceholder(t, h);
  }

  lemma Capitals(c: char)
    ensures Upper(c) <==> c in CAPITALS
  {
    if Upper(c) { assert CAPITALS[c as int - 65] == c; }
  }

  lemma Digits(c: char)
    ensures '0' <= c <= '9' <==> c in DIGITS
  {
    if '0' <= c <= '9' { assert DIGITS[c as int - 48] == c; }
  }

  lemma TypeLetters(c: char)
    ensures TypeChar(c) <==> c in TYPE_LETTERS
  {
    Capitals(c);
    Digits(c);
  }

  lemma HexLetters(c: char)
    ensures HexChar(c) <==> c in HEX_LETTERS
  {
    Digits(c);
    if 'a' <= c <= 'f' { assert "abcdef"[c as int - 97] == c; }
  }

  lemma TypeText(t: string)
    ensures (forall k | 0 <= k < |t| :: TypeChar(t[k])) <==> WrittenIn(t, TYPE_LETTERS)
  {
    forall k | 0 <= k < |t| ensures TypeChar(t[k]) <==> t[k] in TYPE_LETTERS { TypeLetters(t[k]); }
  }

  lemma HexText(h: string)
    ensures IsHex(h) <==> WrittenIn(h, HEX_LETTERS)
  {
    forall k | 0 <= k < |h| ensures HexChar(h[k]) <==> h[k] in HEX_LETTERS { HexLetters(h[k]); }
  }

  // ---- where brackets can stand inside a placeholder ------------------------------

  /** A match in a text starts with two opening brackets and a capital, ends with two closing
      brackets, and holds no other bracket and no newline. */
  lemma MatchChars(s: string, i: nat, j: nat)
    requires i <= j <= |s| && IsPlaceholder(s[i..j])
    ensures i + 10 <= j
    ensures s[i] == '[' && s[i + 1] == '[' && Upper(s[i + 2])
    ensures s[j - 2] == ']' && s[j - 1] == ']'
    ensures forall k | i + 2 <= k < j - 2 :: s[k] != '[' && s[k] != ']' && s[k] != '\n'
  {
    var p := s[i..j];
    var u := SplitWitness(p, 0);
    forall k | i <= k < j ensures s[k] == p[k - i] {}
    forall k | i + 2 <= k < j - 2 ensures s[k] != '[' && s[k] != ']' && s[k] != '\n' {
      assert p[k - i] == '_' || TypeChar(p[k - i]) || HexChar(p[k - i]);
    }
  }

  /** At one start position there is at most one match. */
  lemma MatchUnique(s: string, i: nat, j: nat, k: nat)
    requires i <= j <= |s| && i <= k <= |s| && IsPlaceholder(s[i..j]) && IsPlaceholder(s[i..k])
    ensures j == k
  {
    MatchChars(s, i, j);
    MatchChars(s, i, k);
  }

  /** Two matches that start at different positions never overlap. */
  lemma MatchesDisjoint(s: string, a: nat, b: nat, c: nat, d: nat)
    requires a < c && a <= b <= |s| && c <= d <= |s|
    requires IsPlaceholder(s[a..b]) && IsPlaceholder(s[c..d])
    ensures b <= c
  {
    MatchChars(s, a, b);
    MatchChars(s, c, d);
  }

  /** The shortest prefix of length at least `n` that is a placeholder, 0 when there is none. */
  function MatchFrom(s: string, n: nat): (k: nat)
    ensures k <= |s|
    decreases |s| - n
  {
    if n > |s| then 0 else if IsPlaceholder(s[..n]) then n else MatchFrom(s, n + 1)
  }

  /** Length of the PLACEHOLDER_RE match that starts at the front of `s`, 0 when there is none. */
  function MatchLen(s: string): (n: nat)
    ensures n <= |s|
  {
    MatchFrom(s, 0)
  }

  lemma {:induction false} MatchFromSpec(s: string, n: nat)
    ensures MatchFrom(s, n) > 0 ==> IsPlaceholder(s[..MatchFrom(s, n)])
    ensures forall k | n <= k <= |s| && 0 < k && IsPlaceholder(s[..k]) :: 0 < MatchFrom(s, n)
    decreases |s| - n
  {
    if n <= |s| && !IsPlaceholder(s[..n]) { MatchFromSpec(s, n + 1); }
  }

  /** MatchLen finds the regular expression's match whenever there is one, and only then. */
  lemma MatchLenSpec(s: string)
    ensures MatchLen(s) > 0 ==> IsPlaceholder(s[..MatchLen(s)])
    ensures forall k | 0 <= k <= |s| && IsPlaceholder(s[..k]) :: k == MatchLen(s)
  {
    MatchFromSpec(s, 0);
    var n := MatchLen(s);
    forall k | 0 <= k <= |s| && IsPlaceholder(s[..k]) ensures k == n {
      assert s[..k] == s[0..k] && s[..n] == s[0..n];
      MatchChars(s, 0, k);
      MatchUnique(s, 0, k, n);
    }
  }

  // ---- substitution ---------------------------------------------------------------

  type Resolver = map<string, string>

  function Lookup(m: Resolver, p: string): string { if p in m then m[p] else p }

  /** Swap every known placeholder, left to right, never rescanning what was inserted. */
  function Detok(s: string, m: Resolver): string {
    if s == "" then "" else
      var n := MatchLen(s);
      if n > 0 then Lookup(m, s[..n]) + Detok(s[n..], m)
      else s[..1] + Detok(s[1..], m)
  }

  /** No match of the grammar starts in `s` before index `k`. */
  ghost predicate NoMatchBefore(s: string, k: nat) {
    forall i, j | 0 <= i < k && i <= j <= |s| :: !IsPlaceholder(s[i..j])
  }

  lemma NoMatchAtFront(s: string)
    requires s != "" && forall j | 0 <= j <= |s| :: !IsPlaceholder(s[0..j])
    ensures MatchLen(s) == 0
  {
    MatchLenSpec(s);
    assert s[..MatchLen(s)] == s[0..MatchLen(s)];
  }

  lemma {:induction false} SkipPlain(s: string, k: nat, m: Resolver)
    requires k <= |s| && NoMatchBefore(s, k)
    ensures Detok(s, m) == s[..k] + Detok(s[k..], m)
  {
    if k == 0 {
      assert s[..0] == "" && s[0..] == s;
    } else {
      NoMatchAtFront(s);
      NoMatchShift(s, k);
      SkipPlain(s[1..], k - 1, m);
      assert s[1..][k - 1..] == s[k..];
      var head, rest := s[1..][..k - 1], Detok(s[k..], m);
      assert s[..1] + (head + rest) == (s[..1] + head) + rest;
      assert s[..1] + head == s[..k];
    }
  }

  lemma NoMatchShift(s: string, k: nat)
    requires 0 < k <= |s| && NoMatchBefore(s, k)
    ensures NoMatchBefore(s[1..], k - 1)
  {
    forall i, j | 0 <= i < k - 1 && i <= j <= |s[1..]| ensures !IsPlaceholder(s[1..][i..j]) {
      assert s[1..][i..j] == s[i + 1..j + 1];
    }
  }

  /** Text without a match is left alone. */
  lemma PlainIsFixed(s: string, m: Resolver)
    requires NoMatchBefore(s, |s|)
    ensures Detok(s, m) == s
  {
    SkipPlain(s, |s|, m);
    assert s[|s|..] == "" && s[..|s|] == s;
  }

  /** A placeholder at the front is swapped; the rest is treated on its own. */
  lemma DetokFront(p: string, rest: string, m: Resolver)
    requires IsPlaceholder(p)
    ensures Detok(p + rest, m) == Lookup(m, p) + Detok(rest, m)
  {
    assert p[0..|p|] == p;
    MatchChars(p, 0, |p|);
    assert (p + rest)[..|p|] == p && (p + rest)[|p|..] == rest;
    MatchLenSpec(p + rest);
  }

  /** Rewriting `p` would change the text. */
  predicate Active(m: Resolver, p: string) { p in m && m[p] != p }

  /** No match that would be rewritten has the cut `c` strictly inside it. */
  ghost predicate CleanCut(s: string, c: nat, m: Resolver) {
    forall i, j | 0 <= i < c < j <= |s| && IsPlaceholder(s[i..j]) :: !Active(m, s[i..j])
  }

  /** No match starts inside a match, and a proper prefix of one holds no match: the inside of an
      unknown placeholder is plain text. */
  lemma InsideIsPlain(s: string, n: nat, c: nat)
    requires 0 < c < n <= |s| && IsPlaceholder(s[0..n])
    ensures NoMatchBefore(s[..c], c)
    ensures NoMatchBefore(s[c..], n - c)
  {
    MatchChars(s, 0, n);
    forall i, j | 0 <= i < c && i <= j <= c ensures !IsPlaceholder(s[..c][i..j]) {
      SliceOfTake(s, c, i, j);
      if IsPlaceholder(s[i..j]) { MatchChars(s, i, j); }
    }
    forall i, j | 0 <= i < n - c && i <= j <= |s[c..]| ensures !IsPlaceholder(s[c..][i..j]) {
      SliceOfDrop(s, c, i, j);
      if IsPlaceholder(s[c + i..c + j]) { MatchChars(s, c + i, c + j); }
    }
  }

  lemma SliceOfTake(s: string, c: nat, i: nat, j: nat)
    requires i <= j <= c <= |s|
    ensures s[..c][i..j] == s[i..j]
  {
  }

  lemma SliceOfDrop(s: string, c: nat, i: nat, j: nat)
    requires c + j <= |s| && i <= j
    ensures s[c..][i..j] == s[c + i..c + j]
  {
  }

  /** The substitution is a homomorphism at every clean cut. */
  lemma {:induction false} DetokAtCut(s: string, c: nat, m: Resolver)
    requires c <= |s| && CleanCut(s, c, m)
    ensures Detok(s, m) == Detok(s[..c], m) + Detok(s[c..], m)
    decreases |s|
  {
    var n := MatchLen(s);
    if c == 0 || c == |s| {
      CutAtEnd(s, c, m);
    } else if n > c {
      CutInside(s, c, m);
    } else {
      var d := if n == 0 then 1 else n;
      CutShift(s, d, c, m);
      DetokAtCut(s[d..], c - d, m);
      CutLater(s, c, d, m);
    }
  }

  lemma CutLater(s: string, c: nat, d: nat, m: Resolver)
    requires 0 < d <= c <= |s| && d == if MatchLen(s) == 0 then 1 else MatchLen(s)
    requires Detok(s[d..], m) == Detok(s[d..][..c - d], m) + Detok(s[d..][c - d..], m)
    ensures Detok(s, m) == Detok(s[..c], m) + Detok(s[c..], m)
  {
    DropTwice(s, d, c);
    SameFirstStep(s, c, d, m);
  }

  lemma CutAtEnd(s: string, c: nat, m: Resolver)
    requires c == 0 || c == |s|
    ensures Detok(s, m) == Detok(s[..c], m) + Detok(s[c..], m)
  {
    assert s[..0] == "" && s[0..] == s && s[..|s|] == s && s[|s|..] == "";
  }

  lemma DropTwice(s: string, d: nat, c: nat)
    requires d <= c <= |s|
    ensures s[d..][c - d..] == s[c..]
  {
  }

  lemma CutInside(s: string, c: nat, m: Resolver)
    requires 0 < c < MatchLen(s) && CleanCut(s, c, m)
    ensures Detok(s, m) == Detok(s[..c], m) + Detok(s[c..], m)
  {
    MatchLenSpec(s);
    assert s[..MatchLen(s)] == s[0..MatchLen(s)];
    CutInsideUnknown(s, MatchLen(s), c, m);
  }

  lemma CutShift(s: string, d: nat, c: nat, m: Resolver)
    requires d <= c <= |s| && CleanCut(s, c, m)
    ensures CleanCut(s[d..], c - d, m)
  {
    forall i, j | 0 <= i < c - d < j <= |s[d..]| && IsPlaceholder(s[d..][i..j])
      ensures !Active(m, s[d..][i..j])
    {
      assert s[d..][i..j] == s[d + i..d + j];
    }
  }

  lemma CutInsideUnknown(s: string, n: nat, c: nat, m: Resolver)
    requires 0 < c < n <= |s| && n == MatchLen(s) && IsPlaceholder(s[0..n]) && !Active(m, s[0..n])
    ensures Detok(s, m) == Detok(s[..c], m) + Detok(s[c..], m)
  {
    PiecesOfUnknown(s, n, c, m);
    JoinSlices(s, c, n, Detok(s[n..], m));
    assert s[..n] == s[0..n];
  }

  lemma JoinSlices(s: string, c: nat, n: nat, rest: string)
    requires c <= n <= |s|
    ensures s[0..c] + (s[c..n] + rest) == s[0..n] + rest
  {
    assert s[0..c] + s[c..n] == s[0..n];
  }

  lemma PiecesOfUnknown(s: string, n: nat, c: nat, m: Resolver)
    requires 0 < c < n <= |s| && IsPlaceholder(s[0..n])
    ensures Detok(s[..c], m) == s[0..c]
    ensures Detok(s[c..], m) == s[c..n] + Detok(s[n..], m)
  {
    InsideIsPlain(s, n, c);
    PlainIsFixed(s[..c], m);
    PlainPrefix(s, c, n, m);
    assert s[..c] == s[0..c];
  }

  lemma PlainPrefix(s: string, c: nat, n: nat, m: Resolver)
    requires c <= n <= |s| && NoMatchBefore(s[c..], n - c)
    ensures Detok(s[c..], m) == s[c..n] + Detok(s[n..], m)
  {
    SkipPlain(s[c..], n - c, m);
    assert s[c..][n - c..] == s[n..] && s[c..][..n - c] == s[c..n];
  }

  /** A text and a prefix of it that keeps the first match take the same first step. */
  lemma SameFirstStep(s: string, c: nat, d: nat, m: Resolver)
    requires 0 < d <= c <= |s| && d == if MatchLen(s) == 0 then 1 else MatchLen(s)
    ensures exists w :: Detok(s, m) == w + Detok(s[d..], m) && Detok(s[..c], m) == w + Detok(s[d..][..c - d], m)
  {
    var n, k := MatchLen(s), MatchLen(s[..c]);
    MatchLenSpec(s);
    MatchLenSpec(s[..c]);
    assert s[..c][..k] == s[..k];
    if n > 0 { assert s[..c][..n] == s[..n]; }
    assert s[..c][d..] == s[d..][..c - d] && s[..c][..1] == s[..1];
    var w := if n == 0 then s[..1] else Lookup(m, s[..n]);
    assert Detok(s, m) == w + Detok(s[d..], m) && Detok(s[..c], m) == w + Detok(s[d..][..c - d], m);
  }

  // ---- scanning by position, as `finditer` and `sub` do ------------------------------

  /** `"[[" in s` */
  predicate HasOpen(s: string) {
    |s| >= 2 && (s[..2] == "[[" || HasOpen(s[1..]))
  }

  lemma {:induction false} OpenIsFound(s: string, i: nat)
    requires i + 2 <= |s| && s[i] == '[' && s[i + 1] == '['
    ensures HasOpen(s)
  {
    if i > 0 { OpenIsFound(s[1..], i - 1); }
  }

  lemma NoOpenNoMatch(s: string)
    requires !HasOpen(s)
    ensures NoMatchBefore(s, |s|)
  {
    forall i, j | 0 <= i < |s| && i <= j <= |s| ensures !IsPlaceholder(s[i..j]) {
      if IsPlaceholder(s[i..j]) {
        MatchChars(s, i, j);
        OpenIsFound(s, i);
      }
    }
  }

  /** The match that `finditer` finds at index `pos`, 0 when there is none. */
  function MatchAt(text: string, pos: nat): (n: nat)
    requires pos <= |text|
    ensures pos + n <= |text|
  {
    MatchLen(text[pos..])
  }

  function DetokFrom(text: string, pos: nat, m: Resolver): string
    requires pos <= |text|
    decreases |text| - pos
  {
    if pos == |text| then "" else
      var n := MatchAt(text, pos);
      if n > 0 then Lookup(m, text[pos..pos + n]) + DetokFrom(text, pos + n, m)
      else text[pos..pos + 1] + DetokFrom(text, pos + 1, m)
  }

  lemma {:induction false} DetokFromIsDetok(text: string, pos: nat, m: Resolver)
    requires pos <= |text|
    ensures DetokFrom(text, pos, m) == Detok(text[pos..], m)
    decreases |text| - pos
  {
    if pos < |text| {
      var n := MatchAt(text, pos);
      if n > 0 {
        DetokFromIsDetok(text, pos + n, m);
        assert text[pos..][n..] == text[pos + n..] && text[pos..][..n] == text[pos..pos + n];
      } else {
        DetokFromIsDetok(text, pos + 1, m);
        assert text[pos..][1..] == text[pos + 1..] && text[pos..][..1] == text[pos..pos + 1];
      }
    }
  }

  /** `whole` is what is already written, the pending literal text, and the rest. */
  ghost predicate Pending(whole: string, out: string, text: string, last: nat, pos: nat, rest: string) {
    last <= pos <= |text| && whole == out + (text[last..pos] + rest)
  }

  lemma PendingKeep(whole: string, out: string, text: string, last: nat, pos: nat, next: nat, rest: string)
    requires pos <= next <= |text| && Pending(whole, out, text, last, pos, text[pos..next] + rest)
    ensures Pending(whole, out, text, last, next, rest)
  {
    assert text[last..pos] + (text[pos..next] + rest) == (text[last..pos] + text[pos..next]) + rest;
    assert text[last..pos] + text[pos..next] == text[last..next];
  }

  lemma PendingSwap(whole: string, out: string, text: string, last: nat, pos: nat, next: nat,
                    value: string, rest: string, out': string)
    requires pos <= next <= |text| && Pending(whole, out, text, last, pos, value + rest)
    requires out' == out + text[last..pos] + value
    ensures Pending(whole, out', text, next, next, rest)
  {
    assert out + (text[last..pos] + (value + rest)) == (out + text[last..pos] + value) + rest;
    assert text[next..next] + rest == rest;
  }

  lemma SubstituteStep(text: string, pos: nat, next: nat, m: Resolver, out: string, piece: string)
    requires pos < |text| && next == (if MatchAt(text, pos) == 0 then pos + 1 else pos + MatchAt(text, pos))
    requires piece == if MatchAt(text, pos) == 0 then text[pos..next] else Lookup(m, text[pos..next])
    ensures out + DetokFrom(text, pos, m) == (out + piece) + DetokFrom(text, next, m)
  {
    var rest := DetokFrom(text, next, m);
    assert out + (piece + rest) == (out + piece) + rest;
  }

  /** `PLACEHOLDER_RE.sub`: known placeholders are swapped, all else is copied. */
  method Substitute(text: string, m: Resolver) returns (r: string)
    ensures r == DetokFrom(text, 0, m)
  {
    r := "";
    var pos: nat := 0;
    ghost var whole, rest := DetokFrom(text, 0, m), DetokFrom(text, 0, m);
    while pos < |text|
      invariant pos <= |text| && rest == DetokFrom(text, pos, m)
      invariant whole == r + rest
    {
      var n := MatchAt(text, pos);
      var next := if n == 0 then pos + 1 else pos + n;
      var piece := if n == 0 then text[pos..next] else Lookup(m, text[pos..next]);
      SubstituteStep(text, pos, next, m, r, piece);
      rest := DetokFrom(text, next, m);
      r := r + piece;
      pos := next;
    }
  }

  /** `StreamDetokenizer._resolve` on a prepared snapshot. */
  method Resolve(text: string, m: Resolver) returns (r: string)
    ensures r == Detok(text, m)
  {
    if !HasOpen(text) {
      NoOpenNoMatch(text);
      PlainIsFixed(text, m);
      return text;
    }
    r := Substitute(text, m);
    DetokFromIsDetok(text, 0, m);
    assert text[0..] == text;
  }
}
