/** Check digits: Luhn and IBAN. */
module CheckDigits {
  // app/redaction/validators.py: the Luhn algorithm of Annex B of ISO/IEC 7812-1 and the IBAN check of
  // ISO 13616-1 with MOD 97-10 of ISO/IEC 7064

  predicate IsDigit(c: char) { '0' <= c <= '9' }

  predicate IsLetter(c: char) { 'A' <= c <= 'Z' }

  predicate AllDigits(s: string) { forall i | 0 <= i < |s| :: IsDigit(s[i]) }

  /** ASCII white space and the hyphen */
  predicate IsSeparator(c: char) {
    c == ' ' || c == '-' || (9 as char <= c <= 13 as char) || (28 as char <= c <= 31 as char)
  }

  /** `_digits` */
  function Cleaned(s: string): string {
    if s == "" then "" else (if IsSeparator(s[0]) then "" else [s[0]]) + Cleaned(s[1..])
  }

  /** Blanks, line breaks, the separator characters 28 to 31 and hyphens vanish wherever they stand; everything
      else stays, in order. */
  lemma {:induction false} SeparatorsVanish(a: string, c: char, b: string)
    ensures Cleaned(a + ([c] + b))
         == Cleaned(a) + ((if c as int in {9, 10, 11, 12, 13, 28, 29, 30, 31, 32, 45} then "" else [c]) + Cleaned(b))
  {
    if a == "" {
      assert a + ([c] + b) == [c] + b && ([c] + b)[1..] == b;
      assert Cleaned("") + Cleaned([c] + b) == Cleaned([c] + b);
    } else {
      assert (a + ([c] + b))[1..] == a[1..] + ([c] + b);
      SeparatorsVanish(a[1..], c, b);
    }
  }

  // ---- Luhn --------------------------------------------------------------------------

  function Digit(c: char): int { c as int - 48 }

  /** What a digit adds at a place counted from the right. */
  function Contribution(c: char, place: nat): int {
    if place % 2 == 0 then Digit(c) else if Digit(c) * 2 > 9 then Digit(c) * 2 - 9 else Digit(c) * 2
  }

  function Total(s: string): int {
    if s == "" then 0 else Contribution(s[0], |s| - 1) + Total(s[1..])
  }

  predicate LuhnOk(s: string) { |s| >= 2 && AllDigits(s) && Total(s) % 10 == 0 }

  method Luhn(s: string) returns (ok: bool)
    ensures ok == LuhnOk(Cleaned(s))
  {
    var cleaned := Cleaned(s);
    if |cleaned| < 2 || !AllDigits(cleaned) { return false; }
    var total := 0;
    assert cleaned[|cleaned|..] == "";
    for i := 0 to |cleaned|
      invariant total == Total(cleaned[|cleaned| - i..])
    {
      var ch := cleaned[|cleaned| - 1 - i];
      var d := Digit(ch);
      if i % 2 == 1 {
        d := d * 2;
        if d > 9 { d := d - 9; }
      }
      total := total + d;
      assert cleaned[|cleaned| - 1 - i..][1..] == cleaned[|cleaned| - i..];
    }
    assert cleaned[0..] == cleaned;
    ok := total % 10 == 0;
  }

  /** Replacing one digit changes the total by the difference of the contributions. */
  lemma {:induction false} TotalChange(s: string, k: nat, c: char)
    requires k < |s|
    ensures Total(s[k := c]) == Total(s) - Contribution(s[k], |s| - 1 - k) + Contribution(c, |s| - 1 - k)
  {
    if k == 0 {
      assert s[0 := c][1..] == s[1..];
    } else {
      assert s[k := c][1..] == s[1..][k - 1 := c];
      TotalChange(s[1..], k - 1, c);
    }
  }

  /** Every change of a single digit is detected, at any length. */
  lemma LuhnDetectsChange(s: string, k: nat, c: char)
    requires LuhnOk(s) && k < |s| && IsDigit(c) && c != s[k]
    ensures !LuhnOk(s[k := c])
  {
    TotalChange(s, k, c);
    ContributionsDiffer(s[k], c, |s| - 1 - k);
    Shift(Total(s), Contribution(c, |s| - 1 - k) - Contribution(s[k], |s| - 1 - k));
  }

  lemma Shift(total: int, change: int)
    requires total % 10 == 0
    ensures (total + change) % 10 == 0 <==> change % 10 == 0
  {
  }

  lemma ContributionsDiffer(a: char, b: char, place: nat)
    requires IsDigit(a) && IsDigit(b) && a != b
    ensures (Contribution(b, place) - Contribution(a, place)) % 10 != 0
  {
  }

  /** The sum of the digits of a number below 100. */
  function CrossSum(n: int): int { n / 10 + n % 10 }

  /** Of a number without its check digit: from the right, every first digit doubled and its product's digits
      added up, every second digit as it is. */
  function DoubledSum(s: string): int {
    if s == "" then 0
    else if |s| == 1 then CrossSum(2 * Digit(s[0]))
    else DoubledSum(s[..|s| - 2]) + Digit(s[|s| - 2]) + CrossSum(2 * Digit(s[|s| - 1]))
  }

  lemma {:induction false} TotalConcat(a: string, b: string)
    requires |b| % 2 == 0
    ensures Total(a + b) == Total(a) + Total(b)
  {
    if a == "" {
      assert a + b == b;
    } else {
      assert (a + b)[1..] == a[1..] + b;
      TotalConcat(a[1..], b);
      assert (|a + b| - 1) % 2 == (|a| - 1) % 2;
    }
  }

  lemma TotalOfPair(x: char, y: char)
    requires IsDigit(x) && IsDigit(y)
    ensures Total([x, y]) == CrossSum(2 * Digit(x)) + Digit(y)
  {
    assert [x, y][1..] == [y] && [y][1..] == "";
    assert Total([y]) == Digit(y) + Total("");
    assert Total([x, y]) == Contribution(x, 1) + Total([y]);
  }

  lemma {:induction false} TotalIsDoubled(s: string, c: char)
    requires AllDigits(s) && IsDigit(c)
    ensures Total(s + [c]) == DoubledSum(s) + Digit(c)
  {
    var n := |s|;
    if n == 0 {
      assert s + [c] == [c] && [c][1..] == "";
    } else if n == 1 {
      assert s + [c] == [s[0], c];
      TotalOfPair(s[0], c);
    } else {
      var a, x, y := s[..n - 2], s[n - 2], s[n - 1];
      assert s + [c] == (a + [x]) + [y, c];
      TotalConcat(a + [x], [y, c]);
      TotalOfPair(y, c);
      TotalIsDoubled(a, x);
    }
  }

  /** Every number has exactly one check digit: what is missing from the doubled sum to a multiple of ten. */
  lemma LuhnCheckDigit(s: string, c: char)
    requires s != "" && AllDigits(s) && IsDigit(c)
    ensures LuhnOk(s + [c]) <==> Digit(c) == (10 - DoubledSum(s) % 10) % 10
  {
    TotalIsDoubled(s, c);
    MissingToTen(DoubledSum(s), Digit(c));
    assert AllDigits(s + [c]);
  }

  lemma MissingToTen(sum: int, d: int)
    requires 0 <= d <= 9
    ensures (sum + d) % 10 == 0 <==> d == (10 - sum % 10) % 10
  {
    var q, r := sum / 10, sum % 10;
    assert sum + d == 10 * q + (r + d);
    assert (sum + d) % 10 == (r + d) % 10;
  }

  function Swapped(s: string, k: nat): (r: string)
    requires k + 1 < |s|
    ensures |r| == |s|
  {
    s[k := s[k + 1]][k + 1 := s[k]]
  }

  /** Exchanging neighbours goes unnoticed exactly for equal digits and for 0 and 9. */
  lemma LuhnDetectsSwap(s: string, k: nat)
    requires LuhnOk(s) && k + 1 < |s|
    ensures LuhnOk(Swapped(s, k)) <==> s[k] == s[k + 1] || {s[k], s[k + 1]} == {'0', '9'}
  {
    var a, b, p := s[k], s[k + 1], |s| - 1 - k;
    TotalChange(s, k, b);
    TotalChange(s[k := b], k + 1, a);
    var change := Contribution(b, p) + Contribution(a, p - 1) - Contribution(a, p) - Contribution(b, p - 1);
    assert Total(Swapped(s, k)) == Total(s) + change;
    Shift(Total(s), change);
    SwapDifference(a, b, p);
    PairIs(a, b, '0', '9');
    assert AllDigits(Swapped(s, k));
  }

  lemma PairIs(a: char, b: char, x: char, y: char)
    ensures {a, b} == {x, y} <==> (a == x && b == y) || (a == y && b == x)
  {
    if {a, b} == {x, y} {
      assert a in {x, y} && b in {x, y} && x in {a, b} && y in {a, b};
    }
  }

  lemma SwapDifference(a: char, b: char, p: nat)
    requires IsDigit(a) && IsDigit(b) && p > 0
    ensures (Contribution(b, p) + Contribution(a, p - 1) - Contribution(a, p) - Contribution(b, p - 1)) % 10 == 0
       <==> a == b || (a == '0' && b == '9') || (a == '9' && b == '0')
  {
  }

  /** Nine digits that do not start with 0 or 8 */
  predicate SinOk(s: string) { |s| == 9 && s[0] != '0' && s[0] != '8' && LuhnOk(s) }

  /** Nine digits, the first neither 0 nor 8, the last one the check digit of the others. */
  lemma SinIff(s: string)
    ensures SinOk(s) <==>
              && |s| == 9 && AllDigits(s) && Digit(s[0]) !in {0, 8}
              && Digit(s[8]) == (10 - DoubledSum(s[..8]) % 10) % 10
  {
    if |s| == 9 && AllDigits(s) {
      assert s == s[..8] + [s[8]];
      LuhnCheckDigit(s[..8], s[8]);
    }
  }

  method SinCheck(s: string) returns (ok: bool)
    ensures ok == SinOk(Cleaned(s))
  {
    var cleaned := Cleaned(s);
    if |cleaned| != 9 || !AllDigits(cleaned) { return false; }
    if cleaned[0] == '0' || cleaned[0] == '8' { return false; }
    CleanedTwice(s);
    ok := Luhn(cleaned);
  }

  lemma {:induction false} CleanedTwice(s: string)
    ensures Cleaned(Cleaned(s)) == Cleaned(s)
  {
    if s != "" {
      CleanedTwice(s[1..]);
      var t := Cleaned(s);
      if !IsSeparator(s[0]) {
        assert t == [s[0]] + Cleaned(s[1..]) && t[1..] == Cleaned(s[1..]);
        assert Cleaned(t) == [t[0]] + Cleaned(t[1..]);
      } else {
        assert t == Cleaned(s[1..]);
      }
    }
  }

  // ---- IBAN --------------------------------------------------------------------------

  /** `str.upper`, on ASCII */
  function UpperChar(c: char): char { if 'a' <= c <= 'z' then (c as int - 32) as char else c }

  function Upper(s: string): (r: string)
    ensures |r| == |s|
  {
    seq(|s|, i requires 0 <= i < |s| => UpperChar(s[i]))
  }

  const SMALL := "abcdefghijklmnopqrstuvwxyz"
  const CAPITAL := "ABCDEFGHIJKLMNOPQRSTUVWXYZ"

  /** Small letters become the capitals at their place in the alphabet, everything else stays. */
  lemma UpperIs(s: string, i: nat)
    requires i < |s|
    ensures forall k | 0 <= k < 26 :: s[i] == SMALL[k] ==> Upper(s)[i] == CAPITAL[k]
    ensures s[i] !in SMALL ==> Upper(s)[i] == s[i]
  {
    forall k | 0 <= k < 26 ensures SMALL[k] as int == 97 + k && CAPITAL[k] as int == 65 + k { Alphabet(k); }
    if 'a' <= s[i] <= 'z' { assert SMALL[s[i] as int - 97] == s[i]; }
  }

  lemma Alphabet(k: nat)
    requires k < 26
    ensures SMALL[k] as int == 97 + k && CAPITAL[k] as int == 65 + k
  {
  }

  /** Two letters, two digits, one to thirty letters or digits */
  predicate ShapeOk(s: string) {
    && 5 <= |s| <= 34 && IsLetter(s[0]) && IsLetter(s[1]) && IsDigit(s[2]) && IsDigit(s[3])
    && forall i | 4 <= i < |s| :: IsLetter(s[i]) || IsDigit(s[i])
  }

  function Rearranged(s: string): string
    requires |s| >= 4
  {
    s[4..] + s[..4]
  }

  /** What a character becomes: itself, or the two digits of a letter's number. */
  function Converted(c: char): string {
    if IsDigit(c) then [c] else Decimal(c as int - 55)
  }

  /** `str`, on two-digit numbers */
  function Decimal(n: int): string {
    if 10 <= n <= 99 then [(48 + n / 10) as char, (48 + n % 10) as char] else "0"
  }

  function ConvertAll(s: string): string {
    if s == "" then "" else ConvertAll(s[..|s| - 1]) + Converted(s[|s| - 1])
  }

  /** `int`, on digits */
  function IntOf(s: string): int {
    if s == "" then 0 else IntOf(s[..|s| - 1]) * 10 + Digit(s[|s| - 1])
  }

  predicate IbanOk(s: string) { ShapeOk(s) && IntOf(ConvertAll(Rearranged(s))) % 97 == 1 }

  method IbanMod97(s: string) returns (ok: bool)
    ensures ok == IbanOk(Upper(Cleaned(s)))
  {
    var cleaned := Upper(Cleaned(s));
    if !ShapeOk(cleaned) { return false; }
    var rearranged := cleaned[4..] + cleaned[..4];
    var converted := "";
    for i := 0 to |rearranged|
      invariant converted == ConvertAll(rearranged[..i])
    {
      assert rearranged[..i + 1][..i] == rearranged[..i];
      var ch := rearranged[i];
      if IsDigit(ch) {
        converted := converted + [ch];
      } else {
        converted := converted + Decimal(ch as int - 55);
      }
    }
    assert rearranged[..|rearranged|] == rearranged;
    ok := IntOf(converted) % 97 == 1;
  }

  // ---- the converted number as a running value ---------------------------------------

  predicate AllAlnum(s: string) { forall i | 0 <= i < |s| :: IsLetter(s[i]) || IsDigit(s[i]) }

  function Value(c: char): int { if IsDigit(c) then c as int - 48 else c as int - 55 }

  function Width(c: char): int { if IsDigit(c) then 10 else 100 }

  /** Reading `s` on from `acc`. */
  function Num(acc: int, s: string): int
    decreases |s|
  {
    if s == "" then acc else Num(acc * Width(s[0]) + Value(s[0]), s[1..])
  }

  lemma {:induction false} NumConcat(acc: int, a: string, b: string)
    ensures Num(acc, a + b) == Num(Num(acc, a), b)
    decreases |a|
  {
    if a == "" {
      assert a + b == b;
    } else {
      assert (a + b)[1..] == a[1..] + b;
      NumConcat(acc * Width(a[0]) + Value(a[0]), a[1..], b);
    }
  }

  lemma IntOfPair(s: string, x: char, y: char)
    ensures IntOf(s + [x]) == IntOf(s) * 10 + Digit(x)
    ensures IntOf(s + [x, y]) == IntOf(s) * 100 + Digit(x) * 10 + Digit(y)
  {
    assert (s + [x])[..|s|] == s;
    assert (s + [x, y])[..|s| + 1] == s + [x];
  }

  lemma IntOfConverted(s: string, c: char)
    requires IsLetter(c) || IsDigit(c)
    ensures IntOf(s + Converted(c)) == IntOf(s) * Width(c) + Value(c)
  {
    if IsDigit(c) {
      IntOfPair(s, c, c);
    } else {
      var n := c as int - 55;
      IntOfPair(s, (48 + n / 10) as char, (48 + n % 10) as char);
    }
  }

  /** The integer the source computes is the running value. */
  lemma {:induction false} IntOfIsNum(s: string)
    requires AllAlnum(s)
    ensures IntOf(ConvertAll(s)) == Num(0, s)
  {
    if s != "" {
      var n := |s| - 1;
      IntOfIsNum(s[..n]);
      IntOfConverted(ConvertAll(s[..n]), s[n]);
      NumSnoc(s, n);
    }
  }

  lemma NumSnoc(s: string, n: nat)
    requires |s| == n + 1
    ensures Num(0, s) == Num(0, s[..n]) * Width(s[n]) + Value(s[n])
  {
    assert s[..n] + [s[n]] == s;
    NumConcat(0, s[..n], [s[n]]);
    NumOne(Num(0, s[..n]), s[n]);
  }

  // ---- modular reasoning -------------------------------------------------------------

  predicate Multiple(x: int) { x % 97 == 0 }

  lemma MultipleOf(x: int, q: int)
    requires x == 97 * q
    ensures Multiple(x)
  {
  }

  lemma TimesTen(x: int)
    ensures Multiple(10 * x) <==> Multiple(x)
  {
    if Multiple(10 * x) {
      var q := 10 * x / 97;
      assert 10 * x == 97 * q;
      MultipleOf(x, 68 * q - 7 * x);
    }
    if Multiple(x) {
      var q := x / 97;
      assert x == 97 * q;
      MultipleOf(10 * x, 10 * q);
    }
  }

  lemma TimesWidth(c: char, x: int)
    ensures Multiple(x * Width(c)) <==> Multiple(x)
  {
    TimesTen(x);
    TimesTen(10 * x);
    assert 10 * (10 * x) == x * 100 && 10 * x == x * 10;
  }

  /** A common suffix neither hides nor creates a difference. */
  lemma {:induction false} SuffixCancels(a: int, b: int, s: string)
    ensures Multiple(Num(a, s) - Num(b, s)) <==> Multiple(a - b)
    decreases |s|
  {
    if s != "" {
      var c := s[0];
      SuffixCancels(a * Width(c) + Value(c), b * Width(c) + Value(c), s[1..]);
      TimesWidth(c, a - b);
      assert (a * Width(c) + Value(c)) - (b * Width(c) + Value(c)) == (a - b) * Width(c);
    }
  }

  lemma SameRemainder(x: int, y: int)
    ensures x % 97 == y % 97 <==> Multiple(x - y)
  {
    var q, p := x / 97, y / 97;
    assert x == 97 * q + x % 97 && y == 97 * p + y % 97;
    if x % 97 == y % 97 { MultipleOf(x - y, q - p); }
    if Multiple(x - y) {
      var k := (x - y) / 97;
      assert x - y == 97 * k;
      assert x % 97 - y % 97 == 97 * (k - q + p);
    }
  }

  /** Equal modulo 97 */
  predicate Congruent(x: int, y: int) { Multiple(x - y) }

  /** Two texts that differ in one stretch leave the same remainder exactly if the stretches do. */
  lemma Middle(pre: string, x: string, y: string, post: string)
    ensures Congruent(Num(0, pre + x + post), Num(0, pre + y + post))
       <==> Congruent(Num(Num(0, pre), x), Num(Num(0, pre), y))
  {
    NumConcat(0, pre + x, post);
    NumConcat(0, pre, x);
    NumConcat(0, pre + y, post);
    NumConcat(0, pre, y);
    SuffixCancels(Num(Num(0, pre), x), Num(Num(0, pre), y), post);
  }

  lemma NumOne(acc: int, c: char)
    ensures Num(acc, [c]) == acc * Width(c) + Value(c)
  {
    assert [c][1..] == "";
  }

  lemma NumTwo(acc: int, a: char, b: char)
    ensures Num(acc, [a, b]) == (acc * Width(a) + Value(a)) * Width(b) + Value(b)
  {
    assert [a, b][1..] == [b];
    NumOne(acc * Width(a) + Value(a), b);
  }

  /** Of one kind: digit and digit, or letter and letter */
  predicate SameKind(a: char, b: char) { (IsDigit(a) && IsDigit(b)) || (IsLetter(a) && IsLetter(b)) }

  lemma OneDiffers(pre: string, a: char, b: char, post: string)
    requires SameKind(a, b) && a != b
    ensures !Congruent(Num(0, pre + [a] + post), Num(0, pre + [b] + post))
  {
    Middle(pre, [a], [b], post);
    NumOne(Num(0, pre), a);
    NumOne(Num(0, pre), b);
    Nearby(a, b);
  }

  /** The pairs that MOD 97-10 cannot tell from their mirror image. */
  predicate Blind(a: char, b: char) {
    (a == 'B' && b == '1') || (a == 'M' && b == '2') || (a == 'X' && b == '3')
  }

  /** Two neighbours of one kind exchanged. */
  lemma SameKindExchange(acc: int, a: char, b: char)
    requires SameKind(a, b)
    ensures Congruent(Num(acc, [a, b]), Num(acc, [b, a])) <==> a == b
  {
    var x, y := Value(a), Value(b);
    NumTwo(acc, a, b);
    NumTwo(acc, b, a);
    if IsDigit(a) {
      assert Num(acc, [a, b]) - Num(acc, [b, a]) == 9 * (x - y);
      Scaled(9, x - y, 54);
    } else {
      assert Num(acc, [a, b]) - Num(acc, [b, a]) == 99 * (x - y);
      Scaled(99, x - y, 49);
    }
    Nearby(a, b);
  }

  /** A letter and a digit exchanged. */
  lemma MixedExchange(acc: int, a: char, b: char)
    requires IsLetter(a) && IsDigit(b)
    ensures Congruent(Num(acc, [a, b]), Num(acc, [b, a])) <==> Blind(a, b)
    ensures Congruent(Num(acc, [b, a]), Num(acc, [a, b])) <==> Blind(a, b)
  {
    var change := Value(a) - 11 * Value(b);
    NumTwo(acc, a, b);
    NumTwo(acc, b, a);
    assert Num(acc, [a, b]) - Num(acc, [b, a]) == 9 * change;
    Scaled(9, change, 54);
    LetterDigit(a, b);
    Opposite(9 * change);
  }

  lemma Opposite(x: int)
    ensures Multiple(-x) <==> Multiple(x)
  {
  }

  lemma ExchangeCongruent(acc: int, a: char, b: char)
    requires (IsDigit(a) || IsLetter(a)) && (IsDigit(b) || IsLetter(b))
    ensures Congruent(Num(acc, [a, b]), Num(acc, [b, a])) <==> a == b || Blind(a, b) || Blind(b, a)
  {
    if SameKind(a, b) {
      SameKindExchange(acc, a, b);
    } else if IsLetter(a) {
      MixedExchange(acc, a, b);
    } else {
      MixedExchange(acc, b, a);
    }
  }

  lemma TwoDiffer(pre: string, a: char, b: char, post: string)
    requires (IsDigit(a) || IsLetter(a)) && (IsDigit(b) || IsLetter(b))
    ensures Congruent(Num(0, pre + [a, b] + post), Num(0, pre + [b, a] + post))
       <==> a == b || Blind(a, b) || Blind(b, a)
  {
    Middle(pre, [a, b], [b, a], post);
    ExchangeCongruent(Num(0, pre), a, b);
  }

  lemma Nearby(a: char, b: char)
    requires SameKind(a, b)
    ensures Multiple(Value(a) - Value(b)) <==> a == b
  {
  }

  /** 11, 22 and 33 are the letters' numbers that are eleven times a digit modulo 97. */
  lemma LetterDigit(a: char, b: char)
    requires IsLetter(a) && IsDigit(b)
    ensures Multiple(Value(a) - 11 * Value(b)) <==> Blind(a, b)
  {
  }

  /** A factor with an inverse modulo 97 can be dropped. */
  lemma Scaled(f: int, x: int, inverse: int)
    requires (f * inverse) % 97 == 1
    ensures Multiple(f * x) <==> Multiple(x)
  {
    var r := f * inverse / 97;
    assert f * inverse == 97 * r + 1;
    if Multiple(f * x) {
      var q := f * x / 97;
      assert f * x == 97 * q;
      assert (f * inverse) * x == inverse * (f * x) == 97 * (inverse * q);
      assert (97 * r + 1) * x == 97 * (r * x) + x;
      MultipleOf(x, inverse * q - r * x);
    }
    if Multiple(x) {
      var q := x / 97;
      assert f * x == 97 * (f * q);
      MultipleOf(f * x, f * q);
    }
  }

  // ---- what the IBAN check detects ---------------------------------------------------

  lemma IbanNum(s: string)
    requires ShapeOk(s)
    ensures IbanOk(s) <==> Num(0, Rearranged(s)) % 97 == 1
  {
    IntOfIsNum(Rearranged(s));
  }

  /** Where a character stands after the first four moved to the end. */
  function Place(n: nat, k: nat): (p: nat)
    requires 4 <= n && k < n
    ensures p < n
  {
    if k < 4 then n - 4 + k else k - 4
  }

  /** A digit for another digit or a letter for another letter, anywhere, is always detected. */
  lemma IbanDetectsChange(s: string, k: nat, c: char)
    requires IbanOk(s) && k < |s| && SameKind(s[k], c) && c != s[k]
    ensures !IbanOk(s[k := c])
  {
    var t, p, r := s[k := c], Place(|s|, k), Rearranged(s);
    RearrangedChange(s, k, c);
    OneDiffers(r[..p], s[k], c, r[p + 1..]);
    IbanNum(s);
    SameRemainder(Num(0, r), Num(0, Rearranged(t)));
    if ShapeOk(t) { IbanNum(t); }
  }

  lemma RearrangedChange(s: string, k: nat, c: char)
    requires 4 <= |s| && k < |s|
    ensures var p, r := Place(|s|, k), Rearranged(s);
            r == r[..p] + [s[k]] + r[p + 1..] && Rearranged(s[k := c]) == r[..p] + [c] + r[p + 1..]
  {
    var p, r := Place(|s|, k), Rearranged(s);
    assert Rearranged(s[k := c]) == r[p := c];
  }

  /** Exchanging neighbours of the account part goes unnoticed exactly for equal characters and three pairs
      of a letter and a digit; two digits or two letters that differ are always detected. */
  lemma IbanDetectsSwap(s: string, k: nat)
    requires IbanOk(s) && 4 <= k && k + 1 < |s|
    ensures IbanOk(Swapped(s, k)) <==> s[k] == s[k + 1] || Blind(s[k], s[k + 1]) || Blind(s[k + 1], s[k])
  {
    var t, p, a, b := Swapped(s, k), k - 4, s[k], s[k + 1];
    var r := Rearranged(s);
    assert ShapeOk(t);
    assert r[p] == a && r[p + 1] == b;
    assert r == r[..p] + [a, b] + r[p + 2..];
    assert Rearranged(t) == r[..p] + [b, a] + r[p + 2..];
    TwoDiffer(r[..p], a, b, r[p + 2..]);
    IbanNum(s);
    IbanNum(t);
    SameRemainder(Num(0, r), Num(0, Rearranged(t)));
  }

  // ---- the check digits of an IBAN ---------------------------------------------------

  /** The account part and the country with two zeros: what the check digits are computed from. */
  function WithoutCheck(country: string, account: string): int { Num(0, account + country + "00") }

  predicate RightCheck(country: string, x: char, y: char, account: string) {
    (10 * Digit(x) + Digit(y)) % 97 == (98 - WithoutCheck(country, account) % 97) % 97
  }

  lemma NumOfCheck(s: string, x: char, y: char)
    requires IsDigit(x) && IsDigit(y)
    ensures Num(0, s + [x, y]) == Num(0, s + "00") + 10 * Digit(x) + Digit(y)
  {
    NumConcat(0, s, [x, y]);
    NumConcat(0, s, "00");
    assert "00" == ['0', '0'];
    NumTwo(Num(0, s), x, y);
    NumTwo(Num(0, s), '0', '0');
  }

  /** Exactly the check digits that are 98 less the remainder, modulo 97, are accepted. */
  lemma IbanCheckDigits(country: string, x: char, y: char, account: string)
    requires |country| == 2 && ShapeOk(country + [x, y] + account)
    ensures IbanOk(country + [x, y] + account) <==> RightCheck(country, x, y, account)
  {
    var s := country + [x, y] + account;
    assert s[2] == x && s[3] == y;
    IbanNum(s);
    assert Rearranged(s) == (account + country) + [x, y] by {
      assert s[4..] == account && s[..4] == country + [x, y];
    }
    NumOfCheck(account + country, x, y);
    RemainderOne(WithoutCheck(country, account), 10 * Digit(x) + Digit(y));
  }

  lemma RemainderOne(m: int, n: int)
    requires 0 <= n <= 99
    ensures (m + n) % 97 == 1 <==> n % 97 == (98 - m % 97) % 97
  {
    var q, r := m / 97, m % 97;
    assert m + n == 97 * q + (r + n);
    assert (m + n) % 97 == (r + n) % 97;
  }

  /** `s` is a country, two check digits and an account part of one to thirty capitals and digits. */
  predicate IbanParts(s: string, country: string, x: char, y: char, account: string) {
    && s == country + [x, y] + account && |country| == 2 && 1 <= |account| <= 30
    && IsLetter(country[0]) && IsLetter(country[1]) && IsDigit(x) && IsDigit(y) && AllAlnum(account)
  }

  /** Exactly those with the right check digits are accepted. */
  lemma IbanIff(s: string)
    ensures IbanOk(s) <==>
              exists country, x, y, account ::
                IbanParts(s, country, x, y, account) && RightCheck(country, x, y, account)
  {
    if IbanOk(s) {
      var country, account := s[..2], s[4..];
      assert s == country + [s[2], s[3]] + account;
      assert IbanParts(s, country, s[2], s[3], account);
      IbanCheckDigits(country, s[2], s[3], account);
    }
    if country, x, y, account :| IbanParts(s, country, x, y, account) && RightCheck(country, x, y, account) {
      assert ShapeOk(s);
      IbanCheckDigits(country, x, y, account);
    }
  }
}
