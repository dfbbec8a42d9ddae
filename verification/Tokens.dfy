/** The token vault on values. */
module Tokens {
  // One session's records, allocation of placeholders, and what de-tokenizing a tokenized text gives back
  // (app/redaction/vault.py, app/redaction/store.py)

  import opened Placeholders
  import opened Sorting

  // ---- cryptography, idealised -------------------------------------------------------

  /** HMAC under the fingerprint key, the per-session key derivation, and AES-GCM on
      `nonce || ciphertext` blobs. */
  datatype Crypto = Crypto(
    hmac: string -> string,
    dek: string -> string,
    seal: (string, string, string) -> string,
    unseal: (string, string) -> string)

  /** No two messages share a fingerprint, fingerprints are hex, and decryption undoes encryption. */
  ghost predicate Ideal(c: Crypto) {
    && (forall a, b :: c.hmac(a) == c.hmac(b) ==> a == b)
    && (forall a :: IsHex(c.hmac(a)) && |c.hmac(a)| >= 12)
    && (forall k, n, v :: c.unseal(k, c.seal(k, n, v)) == v)
  }

  function Message(sid: string, entityType: string, value: string): string {
    sid + (":" + (entityType + (":" + value)))
  }

  lemma {:induction false} FirstColon(a: string, x: string, b: string, y: string)
    requires ':' !in a && ':' !in b && a + (":" + x) == b + (":" + y)
    ensures a == b && x == y
  {
    var s, t := a + (":" + x), b + (":" + y);
    assert s[|a|] == ':' && t[|b|] == ':';
    assert forall i | 0 <= i < |a| :: s[i] == a[i] && s[i] in a;
    assert forall i | 0 <= i < |b| :: t[i] == b[i] && t[i] in b;
    assert s[..|a|] == a && t[..|b|] == b && s[|a| + 1..] == x && t[|b| + 1..] == y;
  }

  /** The fingerprinted message determines the session, the type and the value. */
  lemma MessageInjective(sid: string, t: string, v: string, sid': string, t': string, v': string)
    requires ':' !in sid && ':' !in sid' && IsType(t) && IsType(t')
    requires Message(sid, t, v) == Message(sid', t', v')
    ensures sid == sid' && t == t' && v == v'
  {
    FirstColon(sid, t + (":" + v), sid', t' + (":" + v'));
    FirstColon(t, v, t', v');
  }

  // ---- records -----------------------------------------------------------------------

  /** One stored token of a session. */
  datatype Record = Record(placeholder: string, entityType: string, ciphertext: string,
                           fingerprint: string, occurrences: nat)

  /** First index of `x`, |xs| when absent. */
  function FirstIndex(xs: seq<string>, x: string): (k: nat)
    ensures k <= |xs|
  {
    if xs == [] || xs[0] == x then 0 else 1 + FirstIndex(xs[1..], x)
  }

  lemma {:induction false} FirstIndexSpec(xs: seq<string>, x: string)
    ensures x in xs <==> FirstIndex(xs, x) < |xs|
    ensures x in xs ==> xs[FirstIndex(xs, x)] == x
    ensures forall i | 0 <= i < FirstIndex(xs, x) :: xs[i] != x
  {
    if xs != [] && xs[0] != x { FirstIndexSpec(xs[1..], x); }
  }

  lemma {:induction false} FirstIndexAppend(xs: seq<string>, y: string, x: string)
    requires y !in xs
    ensures FirstIndex(xs + [y], x)
         == if x == y then |xs| else if FirstIndex(xs, x) < |xs| then FirstIndex(xs, x) else |xs| + 1
  {
    if xs != [] {
      assert (xs + [y])[1..] == xs[1..] + [y];
      FirstIndexAppend(xs[1..], y, x);
    }
  }

  /** Last index of `x`, |xs| when absent: a later entry overwrites an earlier one. */
  function LastIndex(xs: seq<string>, x: string): (k: nat)
    ensures k <= |xs|
  {
    if xs == [] then 0
    else if xs[|xs| - 1] == x then |xs| - 1
    else
      var k := LastIndex(xs[..|xs| - 1], x);
      if k == |xs| - 1 then |xs| else k
  }

  lemma {:induction false} LastIndexSpec(xs: seq<string>, x: string)
    ensures x in xs <==> LastIndex(xs, x) < |xs|
    ensures x in xs ==> xs[LastIndex(xs, x)] == x
    ensures forall i | LastIndex(xs, x) < i < |xs| :: xs[i] != x
  {
    if xs != [] {
      LastIndexSpec(xs[..|xs| - 1], x);
      assert xs == xs[..|xs| - 1] + [xs[|xs| - 1]];
    }
  }

  lemma LastIndexAppend(xs: seq<string>, y: string, x: string)
    ensures LastIndex(xs + [y], x)
         == if x == y then |xs| else if LastIndex(xs, x) < |xs| then LastIndex(xs, x) else |xs| + 1
  {
    assert (xs + [y])[..|xs|] == xs;
  }

  function Fingerprints(rs: seq<Record>): seq<string> { Map((r: Record) => r.fingerprint, rs) }

  function PlaceholdersOf(rs: seq<Record>): seq<string> { Map((r: Record) => r.placeholder, rs) }

  predicate Known(rs: seq<Record>, p: string) { p in PlaceholdersOf(rs) }

  /** The decrypted value behind the record a live lookup of `p` finds. */
  function LiveLookup(c: Crypto, sid: string, rs: seq<Record>, p: string): string {
    var k := LastIndex(PlaceholdersOf(rs), p);
    if k < |rs| then c.unseal(c.dek(sid), rs[k].ciphertext) else p
  }

  /** The snapshot `{placeholder: value}` built by walking the records in order. */
  function ResolutionMap(c: Crypto, sid: string, rs: seq<Record>): Resolver {
    if rs == [] then map[] else
      var last := rs[|rs| - 1];
      ResolutionMap(c, sid, rs[..|rs| - 1])[last.placeholder := c.unseal(c.dek(sid), last.ciphertext)]
  }

  /** The snapshot and live lookups answer alike for every string, collisions included. */
  lemma {:induction false} SnapshotIsLive(c: Crypto, sid: string, rs: seq<Record>, p: string)
    ensures Lookup(ResolutionMap(c, sid, rs), p) == LiveLookup(c, sid, rs, p)
    ensures p in ResolutionMap(c, sid, rs) <==> Known(rs, p)
  {
    if rs != [] {
      var n := |rs| - 1;
      SnapshotIsLive(c, sid, rs[..n], p);
      assert PlaceholdersOf(rs) == PlaceholdersOf(rs[..n]) + [rs[n].placeholder];
      LastIndexAppend(PlaceholdersOf(rs[..n]), rs[n].placeholder, p);
      LastIndexSpec(PlaceholdersOf(rs[..n]), p);
    }
  }

  // ---- allocation --------------------------------------------------------------------

  /** What `os.urandom` delivers while one new value is stored: 8 draws each of 3, 4, 5 and 6
      bytes as hex, and the encryption nonce. */
  datatype Entropy = Entropy(draws: seq<string>, nonce: string)

  /** The draws from number `k` on: two hex digits per byte. */
  predicate LegalDraws(draws: seq<string>, k: nat) {
    if draws == [] then k == 32
    else IsHex(draws[0]) && |draws[0]| == 6 + 2 * (k / 8) && LegalDraws(draws[1..], k + 1)
  }

  predicate LegalEntropy(e: Entropy) { LegalDraws(e.draws, 0) }

  lemma {:induction false} LegalDraw(draws: seq<string>, k: nat, i: nat)
    requires LegalDraws(draws, k) && i < |draws|
    ensures k + |draws| == 32 && IsHex(draws[i]) && |draws[i]| == 6 + 2 * ((k + i) / 8)
  {
    if i > 0 { LegalDraw(draws[1..], k + 1, i - 1); }
    else if |draws| > 1 { LegalDraw(draws[1..], k + 1, 0); }
  }

  lemma {:induction false} LegalCount(draws: seq<string>, k: nat)
    requires LegalDraws(draws, k)
    ensures k + |draws| == 32
  {
    if draws != [] { LegalCount(draws[1..], k + 1); }
  }

  /** The first draw that is not yet in use; after all of them the keyed fallback, unchecked. */
  function Allocate(rs: seq<Record>, entityType: string, fallback: string, draws: seq<string>): string {
    if draws == [] then MakePlaceholder(entityType, fallback)
    else if !Known(rs, MakePlaceholder(entityType, draws[0])) then MakePlaceholder(entityType, draws[0])
    else Allocate(rs, entityType, fallback, draws[1..])
  }

  lemma AllocateStep(rs: seq<Record>, entityType: string, fallback: string, draws: seq<string>, at: nat)
    requires at < |draws|
    ensures Allocate(rs, entityType, fallback, draws[at..])
         == var p := MakePlaceholder(entityType, draws[at]);
            if !Known(rs, p) then p else Allocate(rs, entityType, fallback, draws[at + 1..])
  {
    assert draws[at..][0] == draws[at] && draws[at..][1..] == draws[at + 1..];
  }

  /** The allocated placeholder is new exactly when one of the draws or the fallback is. */
  lemma {:induction false} AllocateFreshIff(rs: seq<Record>, entityType: string, fallback: string, draws: seq<string>)
    ensures !Known(rs, Allocate(rs, entityType, fallback, draws)) <==>
              (exists d | d in draws :: !Known(rs, MakePlaceholder(entityType, d)))
              || !Known(rs, MakePlaceholder(entityType, fallback))
    ensures exists d | d in draws + [fallback] ::
              Allocate(rs, entityType, fallback, draws) == MakePlaceholder(entityType, d)
  {
    if draws != [] {
      assert draws[0] in draws;
      AllocateFreshIff(rs, entityType, fallback, draws[1..]);
      assert forall d | d in draws[1..] :: d in draws;
      assert forall d | d in draws :: d == draws[0] || d in draws[1..];
    } else {
      assert fallback in draws + [fallback];
    }
  }

  /** The first draw that is not in use is taken, and the fallback only if all are. */
  lemma {:induction false} FirstUnusedDraw(rs: seq<Record>, entityType: string, fallback: string, draws: seq<string>)
    returns (i: nat)
    ensures i <= |draws| && forall j | 0 <= j < i :: Known(rs, MakePlaceholder(entityType, draws[j]))
    ensures i < |draws| ==> !Known(rs, MakePlaceholder(entityType, draws[i]))
    ensures Allocate(rs, entityType, fallback, draws)
         == MakePlaceholder(entityType, if i < |draws| then draws[i] else fallback)
  {
    if draws == [] {
      i := 0;
    } else if !Known(rs, MakePlaceholder(entityType, draws[0])) {
      i := 0;
    } else {
      i := FirstUnusedDraw(rs, entityType, fallback, draws[1..]);
      i := i + 1;
    }
  }

  function Fp(c: Crypto, sid: string, entityType: string, value: string): string {
    c.hmac(Message(sid, entityType, value))
  }

  function Fallback(fp: string): string { if |fp| >= 12 then fp[..12] else fp }

  /** One step of `tokenize`: reuse and bump the record of this fingerprint, or store a new one. */
  function TokenizeOne(c: Crypto, sid: string, rs: seq<Record>, entityType: string, value: string,
                       e: Entropy): (seq<Record>, string) {
    var fp := Fp(c, sid, entityType, value);
    var k := FirstIndex(Fingerprints(rs), fp);
    if k < |rs| then
      (rs[k := rs[k].(occurrences := rs[k].occurrences + 1)], rs[k].placeholder)
    else
      var p := Allocate(rs, entityType, Fallback(fp), e.draws);
      (rs + [Record(p, entityType, c.seal(c.dek(sid), e.nonce, value), fp, 1)], p)
  }

  // ---- what every run keeps ----------------------------------------------------------

  function ValueOf(c: Crypto, sid: string, r: Record): string { c.unseal(c.dek(sid), r.ciphertext) }

  ghost predicate RecordOk(c: Crypto, sid: string, r: Record) {
    && IsType(r.entityType) && IsPlaceholder(r.placeholder)
    && r.fingerprint == Fp(c, sid, r.entityType, ValueOf(c, sid, r))
  }

  /** Legal records, pairwise different fingerprints. */
  ghost predicate Keyed(c: Crypto, sid: string, rs: seq<Record>) {
    && ':' !in sid
    && (forall k | 0 <= k < |rs| :: RecordOk(c, sid, rs[k]))
    && (forall i, j | 0 <= i < j < |rs| :: rs[i].fingerprint != rs[j].fingerprint)
  }

  ghost predicate Injective(rs: seq<Record>) {
    forall i, j | 0 <= i < j < |rs| :: rs[i].placeholder != rs[j].placeholder
  }

  /** The session map is a bijection between (type, value) pairs and placeholders. */
  lemma SessionBijection(c: Crypto, sid: string, rs: seq<Record>, i: nat, j: nat)
    requires Ideal(c) && Keyed(c, sid, rs) && Injective(rs) && i < |rs| && j < |rs|
    ensures rs[i].placeholder == rs[j].placeholder <==>
              rs[i].entityType == rs[j].entityType && ValueOf(c, sid, rs[i]) == ValueOf(c, sid, rs[j])
    ensures Lookup(ResolutionMap(c, sid, rs), rs[i].placeholder) == ValueOf(c, sid, rs[i])
  {
    SnapshotIsLive(c, sid, rs, rs[i].placeholder);
    var ps := PlaceholdersOf(rs);
    assert ps[i] in ps;
    LastIndexSpec(ps, ps[i]);
    var k := LastIndex(ps, ps[i]);
    assert ps[k] == rs[k].placeholder && k == i;
    if i != j { assert rs[if i < j then i else j].fingerprint != rs[if i < j then j else i].fingerprint; }
  }

  /** `rs` lives on in `rs'`: the same records in the same order, only counted up. */
  ghost predicate Extends(rs: seq<Record>, rs': seq<Record>) {
    && |rs| <= |rs'|
    && forall k | 0 <= k < |rs| ::
         rs[k].occurrences <= rs'[k].occurrences && rs'[k] == rs[k].(occurrences := rs'[k].occurrences)
  }

  predicate Stored(c: Crypto, sid: string, rs: seq<Record>, p: string, entityType: string, value: string) {
    exists k: nat | k < |rs| ::
      rs[k].placeholder == p && rs[k].entityType == entityType && ValueOf(c, sid, rs[k]) == value
  }

  /** The value is already stored, or one of the draws or the keyed fallback is not in use. */
  predicate FreshStep(c: Crypto, sid: string, rs: seq<Record>, entityType: string, value: string, e: Entropy) {
    var fp := Fp(c, sid, entityType, value);
    || fp in Fingerprints(rs)
    || (exists d | d in e.draws :: !Known(rs, MakePlaceholder(entityType, d)))
    || !Known(rs, MakePlaceholder(entityType, Fallback(fp)))
  }

  lemma AllocateIsPlaceholder(rs: seq<Record>, entityType: string, fp: string, e: Entropy)
    requires IsType(entityType) && IsHex(fp) && |fp| >= 12 && LegalEntropy(e)
    ensures IsPlaceholder(Allocate(rs, entityType, Fallback(fp), e.draws))
  {
    AllocateFreshIff(rs, entityType, Fallback(fp), e.draws);
    var p := Allocate(rs, entityType, Fallback(fp), e.draws);
    var d :| d in e.draws + [Fallback(fp)] && p == MakePlaceholder(entityType, d);
    assert IsHex(d) && 4 <= |d| <= 12 by {
      if d in e.draws {
        var i :| 0 <= i < |e.draws| && e.draws[i] == d;
        LegalDraw(e.draws, 0, i);
      }
    }
    GrammarIsMakePlaceholder(p);
  }

  /** The record found by fingerprint belongs to this very type and value. */
  lemma FoundIsSame(c: Crypto, sid: string, rs: seq<Record>, k: nat, entityType: string, value: string)
    requires Ideal(c) && Keyed(c, sid, rs) && IsType(entityType) && k < |rs|
    requires rs[k].fingerprint == Fp(c, sid, entityType, value)
    ensures rs[k].entityType == entityType && ValueOf(c, sid, rs[k]) == value
  {
    MessageInjective(sid, rs[k].entityType, ValueOf(c, sid, rs[k]), sid, entityType, value);
  }

  /** One step keeps the session keyed, extends it, stores the value under the returned
      placeholder, and keeps placeholders injective exactly when the step is fresh. */
  lemma TokenizeOneSpec(c: Crypto, sid: string, rs: seq<Record>, entityType: string, value: string, e: Entropy)
    requires Ideal(c) && Keyed(c, sid, rs) && IsType(entityType) && LegalEntropy(e)
    ensures var (rs', p) := TokenizeOne(c, sid, rs, entityType, value, e);
            && Keyed(c, sid, rs') && Extends(rs, rs')
            && Stored(c, sid, rs', p, entityType, value)
            && (Injective(rs) ==> (Injective(rs') <==> FreshStep(c, sid, rs, entityType, value, e)))
  {
    if Fp(c, sid, entityType, value) in Fingerprints(rs) {
      ReuseSpec(c, sid, rs, entityType, value, e);
    } else {
      StoreSpec(c, sid, rs, entityType, value, e);
    }
  }

  lemma ReuseSpec(c: Crypto, sid: string, rs: seq<Record>, entityType: string, value: string, e: Entropy)
    requires Ideal(c) && Keyed(c, sid, rs) && IsType(entityType)
    requires Fp(c, sid, entityType, value) in Fingerprints(rs)
    ensures var (rs', p) := TokenizeOne(c, sid, rs, entityType, value, e);
            && Keyed(c, sid, rs') && Extends(rs, rs') && Stored(c, sid, rs', p, entityType, value)
            && (Injective(rs) <==> Injective(rs'))
  {
    var (rs', p) := TokenizeOne(c, sid, rs, entityType, value, e);
    var k := FirstIndex(Fingerprints(rs), Fp(c, sid, entityType, value));
    FirstIndexSpec(Fingerprints(rs), Fp(c, sid, entityType, value));
    FoundIsSame(c, sid, rs, k, entityType, value);
    assert forall i | 0 <= i < |rs| :: rs'[i] == rs[i].(occurrences := rs'[i].occurrences);
    KeyedSameFields(c, sid, rs, rs');
    assert rs'[k].placeholder == p;
  }

  lemma StoreSpec(c: Crypto, sid: string, rs: seq<Record>, entityType: string, value: string, e: Entropy)
    requires Ideal(c) && Keyed(c, sid, rs) && IsType(entityType) && LegalEntropy(e)
    requires Fp(c, sid, entityType, value) !in Fingerprints(rs)
    ensures var (rs', p) := TokenizeOne(c, sid, rs, entityType, value, e);
            && Keyed(c, sid, rs') && Extends(rs, rs') && Stored(c, sid, rs', p, entityType, value)
            && (Injective(rs) ==> (Injective(rs') <==> FreshStep(c, sid, rs, entityType, value, e)))
  {
    var (rs', p) := TokenizeOne(c, sid, rs, entityType, value, e);
    var fp := Fp(c, sid, entityType, value);
    AllocateIsPlaceholder(rs, entityType, fp, e);
    AllocateFreshIff(rs, entityType, Fallback(fp), e.draws);
    FirstIndexSpec(Fingerprints(rs), fp);
    assert rs' == rs + [rs'[|rs|]] && RecordOk(c, sid, rs'[|rs|]) && rs'[|rs|].placeholder == p;
    assert forall i | 0 <= i < |rs| :: Fingerprints(rs)[i] == rs[i].fingerprint && Fingerprints(rs)[i] in Fingerprints(rs);
    if Injective(rs) { AppendInjective(rs, rs'[|rs|]); }
  }

  lemma KeyedSameFields(c: Crypto, sid: string, rs: seq<Record>, rs': seq<Record>)
    requires Keyed(c, sid, rs) && |rs'| == |rs|
    requires forall i | 0 <= i < |rs| :: rs'[i] == rs[i].(occurrences := rs'[i].occurrences)
    ensures Keyed(c, sid, rs') && (Injective(rs) <==> Injective(rs'))
  {
    forall k | 0 <= k < |rs'| ensures RecordOk(c, sid, rs'[k]) { assert RecordOk(c, sid, rs[k]); }
    if Injective(rs') {
      forall i, j | 0 <= i < j < |rs| ensures rs[i].placeholder != rs[j].placeholder {
        assert rs'[i].placeholder != rs'[j].placeholder;
      }
    }
  }

  lemma AppendInjective(rs: seq<Record>, r: Record)
    requires Injective(rs)
    ensures Injective(rs + [r]) <==> !Known(rs, r.placeholder)
  {
    var all := rs + [r];
    if Known(rs, r.placeholder) {
      var k :| 0 <= k < |rs| && PlaceholdersOf(rs)[k] == r.placeholder;
      assert all[k].placeholder == all[|rs|].placeholder;
    } else {
      assert forall k | 0 <= k < |rs| :: PlaceholdersOf(rs)[k] == rs[k].placeholder;
      forall i, j | 0 <= i < j < |all| ensures all[i].placeholder != all[j].placeholder {
        assert PlaceholdersOf(rs)[i] in PlaceholdersOf(rs);
      }
    }
  }

  lemma StoredPersists(c: Crypto, sid: string, rs: seq<Record>, rs': seq<Record>, p: string, t: string, v: string)
    requires Extends(rs, rs') && Stored(c, sid, rs, p, t, v)
    ensures Stored(c, sid, rs', p, t, v)
  {
    var k: nat :| k < |rs| && rs[k].placeholder == p && rs[k].entityType == t && ValueOf(c, sid, rs[k]) == v;
    assert rs'[k].placeholder == p;
  }

  lemma StoredResolves(c: Crypto, sid: string, rs: seq<Record>, p: string, t: string, v: string)
    requires Ideal(c) && Keyed(c, sid, rs) && Injective(rs) && Stored(c, sid, rs, p, t, v)
    ensures IsPlaceholder(p) && p in ResolutionMap(c, sid, rs) && ResolutionMap(c, sid, rs)[p] == v
  {
    var k: nat :| k < |rs| && rs[k].placeholder == p && rs[k].entityType == t && ValueOf(c, sid, rs[k]) == v;
    SessionBijection(c, sid, rs, k, k);
    SnapshotIsLive(c, sid, rs, p);
    assert RecordOk(c, sid, rs[k]) && PlaceholdersOf(rs)[k] == p;
  }

  // ---- when the draws run out --------------------------------------------------------

  function Eight(x: string): seq<string> { [x, x, x, x, x, x, x, x] }

  /** A generator that is stuck on one value per length. */
  function Stuck(a: string, b: string, x: string, d: string): seq<string> {
    Eight(a) + (Eight(b) + (Eight(x) + (Eight(d) + [])))
  }

  lemma {:induction false} LegalRepeat(n: nat, x: string, rest: seq<string>, k: nat)
    requires 1 <= n <= 8 && k % 8 == 8 - n && IsHex(x) && |x| == 6 + 2 * (k / 8)
    requires LegalDraws(rest, k + n)
    ensures LegalDraws(Eight(x)[..n] + rest, k)
  {
    if n == 1 {
      assert Eight(x)[..0] + rest == rest;
    } else {
      assert (k + 1) / 8 == k / 8;
      LegalRepeat(n - 1, x, rest, k + 1);
    }
    var draws := Eight(x)[..n] + rest;
    assert draws[0] == x && draws[1..] == Eight(x)[..n - 1] + rest;
  }

  lemma StuckIsLegal(a: string, b: string, x: string, d: string)
    requires IsHex(a) && IsHex(b) && IsHex(x) && IsHex(d) && |a| == 6 && |b| == 8 && |x| == 10 && |d| == 12
    ensures LegalDraws(Stuck(a, b, x, d), 0)
  {
    assert Eight(a)[..8] == Eight(a) && Eight(b)[..8] == Eight(b) && Eight(x)[..8] == Eight(x) && Eight(d)[..8] == Eight(d);
    LegalRepeat(8, d, [], 24);
    LegalRepeat(8, x, Eight(d) + [], 16);
    LegalRepeat(8, b, Eight(x) + (Eight(d) + []), 8);
    LegalRepeat(8, a, Eight(b) + (Eight(x) + (Eight(d) + [])), 0);
  }

  lemma {:induction false} AllocateSkips(rs: seq<Record>, t: string, fallback: string, x: string, n: nat, rest: seq<string>)
    requires n <= 8
    ensures Allocate(rs, t, fallback, Eight(x)[..n] + rest)
         == if n == 0 || Known(rs, MakePlaceholder(t, x)) then Allocate(rs, t, fallback, rest) else MakePlaceholder(t, x)
  {
    if n == 0 {
      assert Eight(x)[..0] + rest == rest;
    } else {
      AllocateSkips(rs, t, fallback, x, n - 1, rest);
      var draws := Eight(x)[..n] + rest;
      assert draws[0] == x && draws[1..] == Eight(x)[..n - 1] + rest;
    }
  }

  lemma StuckAllocates(rs: seq<Record>, t: string, fallback: string, a: string, b: string, x: string, d: string)
    ensures Allocate(rs, t, fallback, Stuck(a, b, x, d))
         == MakePlaceholder(t, if !Known(rs, MakePlaceholder(t, a)) then a
                               else if !Known(rs, MakePlaceholder(t, b)) then b
                               else if !Known(rs, MakePlaceholder(t, x)) then x
                               else if !Known(rs, MakePlaceholder(t, d)) then d else fallback)
  {
    assert Eight(a)[..8] == Eight(a) && Eight(b)[..8] == Eight(b) && Eight(x)[..8] == Eight(x) && Eight(d)[..8] == Eight(d);
    AllocateSkips(rs, t, fallback, d, 8, []);
    AllocateSkips(rs, t, fallback, x, 8, Eight(d) + []);
    AllocateSkips(rs, t, fallback, b, 8, Eight(x) + (Eight(d) + []));
    AllocateSkips(rs, t, fallback, a, 8, Eight(b) + (Eight(x) + (Eight(d) + [])));
  }

  lemma KnownIfUsed(rs: seq<Record>, t: string, used: seq<string>, h: string)
    requires |used| == |rs| && forall k | 0 <= k < |rs| :: rs[k].placeholder == MakePlaceholder(t, used[k])
    ensures Known(rs, MakePlaceholder(t, h)) <==> h in used
  {
    if h in used {
      var k :| 0 <= k < |rs| && used[k] == h;
      assert PlaceholdersOf(rs)[k] == MakePlaceholder(t, h);
    }
    if Known(rs, MakePlaceholder(t, h)) {
      var k :| 0 <= k < |rs| && PlaceholdersOf(rs)[k] == MakePlaceholder(t, h);
      SameHex(t, used[k], h);
    }
  }

  lemma SameHex(t: string, g: string, h: string)
    requires MakePlaceholder(t, g) == MakePlaceholder(t, h)
    ensures g == h
  {
    var p, q := MakePlaceholder(t, g), MakePlaceholder(t, h);
    assert p[3 + |t|..|p| - 2] == g && q[3 + |t|..|q| - 2] == h;
  }

  /** What is stored for a value of a stuck generator. */
  function StuckRecord(c: Crypto, sid: string, t: string, v: string, e: Entropy, hex: string): Record {
    Record(MakePlaceholder(t, hex), t, c.seal(c.dek(sid), e.nonce, v), Fp(c, sid, t, v), 1)
  }

  function StuckRecords(c: Crypto, sid: string, t: string, vs: seq<string>, e: Entropy, hexes: seq<string>, n: nat)
    : (rs: seq<Record>)
    requires n <= |vs| == |hexes|
    ensures |rs| == n && forall k | 0 <= k < n :: rs[k] == StuckRecord(c, sid, t, vs[k], e, hexes[k])
  {
    seq(n, k requires 0 <= k < n => StuckRecord(c, sid, t, vs[k], e, hexes[k]))
  }

  /** The first of the four texts not in use yet, and then the fallback. */
  function NextHex(a: string, b: string, x: string, d: string, used: seq<string>, fallback: string): string {
    if a !in used then a else if b !in used then b else if x !in used then x else if d !in used then d else fallback
  }

  lemma NextOfFive(a: string, b: string, x: string, d: string, k: nat)
    requires |a| == 6 && |b| == 8 && |x| == 10 && |d| == 12 && k < 5
    ensures NextHex(a, b, x, d, [a, b, x, d, d][..k], d) == [a, b, x, d, d][k]
    ensures k < 4 ==> forall fallback :: NextHex(a, b, x, d, [a, b, x, d, d][..k], fallback) == [a, b, x, d, d][k]
  {
    var hexes := [a, b, x, d, d];
    assert k > 0 ==> hexes[..k][0] == a;
    assert k > 1 ==> hexes[..k][1] == b;
    assert k > 2 ==> hexes[..k][2] == x;
    assert k > 3 ==> hexes[..k][3] == d;
  }

  lemma NewFingerprint(c: Crypto, sid: string, t: string, vs: seq<string>, e: Entropy, hexes: seq<string>, n: nat)
    requires Ideal(c) && ':' !in sid && IsType(t) && n < |vs| == |hexes|
    requires forall i, j | 0 <= i < j < |vs| :: vs[i] != vs[j]
    ensures Fp(c, sid, t, vs[n]) !in Fingerprints(StuckRecords(c, sid, t, vs, e, hexes, n))
  {
    var fp, rs := Fp(c, sid, t, vs[n]), StuckRecords(c, sid, t, vs, e, hexes, n);
    forall k | 0 <= k < n ensures Fingerprints(rs)[k] != fp {
      if Fingerprints(rs)[k] == fp { MessageInjective(sid, t, vs[k], sid, t, vs[n]); }
    }
  }

  lemma StuckAllocatesNext(rs: seq<Record>, t: string, used: seq<string>, fallback: string, a: string, b: string,
                           x: string, d: string)
    requires |used| == |rs| && forall k | 0 <= k < |rs| :: rs[k].placeholder == MakePlaceholder(t, used[k])
    ensures Allocate(rs, t, fallback, Stuck(a, b, x, d)) == MakePlaceholder(t, NextHex(a, b, x, d, used, fallback))
  {
    KnownIfUsed(rs, t, used, a);
    KnownIfUsed(rs, t, used, b);
    KnownIfUsed(rs, t, used, x);
    KnownIfUsed(rs, t, used, d);
    StuckAllocates(rs, t, fallback, a, b, x, d);
  }

  lemma StuckStep(c: Crypto, sid: string, t: string, vs: seq<string>, e: Entropy, a: string, b: string, x: string,
                  d: string, n: nat)
    requires Ideal(c) && ':' !in sid && IsType(t) && |vs| == 5 && forall i, j | 0 <= i < j < 5 :: vs[i] != vs[j]
    requires e.draws == Stuck(a, b, x, d) && d == Fallback(Fp(c, sid, t, vs[4])) && n < 5
    requires |a| == 6 && |b| == 8 && |x| == 10 && |d| == 12
    ensures var hexes := [a, b, x, d, d];
            TokenizeOne(c, sid, StuckRecords(c, sid, t, vs, e, hexes, n), t, vs[n], e)
            == (StuckRecords(c, sid, t, vs, e, hexes, n + 1), MakePlaceholder(t, hexes[n]))
  {
    var hexes := [a, b, x, d, d];
    var rs, fp := StuckRecords(c, sid, t, vs, e, hexes, n), Fp(c, sid, t, vs[n]);
    NewFingerprint(c, sid, t, vs, e, hexes, n);
    FirstIndexSpec(Fingerprints(rs), fp);
    assert Allocate(rs, t, Fallback(fp), e.draws) == MakePlaceholder(t, hexes[n]) by {
      NextOfFive(a, b, x, d, n);
      StuckAllocatesNext(rs, t, hexes[..n], Fallback(fp), a, b, x, d);
    }
    assert StuckRecords(c, sid, t, vs, e, hexes, n + 1) == rs + [StuckRecord(c, sid, t, vs[n], e, hexes[n])];
  }

  lemma StuckSteps(c: Crypto, sid: string, t: string, vs: seq<string>, e: Entropy, a: string, b: string, x: string,
                   d: string) returns (states: seq<seq<Record>>)
    requires Ideal(c) && ':' !in sid && IsType(t) && |vs| == 5 && forall i, j | 0 <= i < j < 5 :: vs[i] != vs[j]
    requires e.draws == Stuck(a, b, x, d) && d == Fallback(Fp(c, sid, t, vs[4]))
    requires |a| == 6 && |b| == 8 && |x| == 10 && |d| == 12
    ensures var hexes := [a, b, x, d, d];
            && |states| == 6 && (forall n | 0 <= n < 6 :: states[n] == StuckRecords(c, sid, t, vs, e, hexes, n))
            && forall n | 0 <= n < 5 ::
                 TokenizeOne(c, sid, states[n], t, vs[n], e) == (states[n + 1], MakePlaceholder(t, hexes[n]))
  {
    var hexes := [a, b, x, d, d];
    states := seq(6, n requires 0 <= n < 6 => StuckRecords(c, sid, t, vs, e, hexes, n));
    forall n | 0 <= n < 5
      ensures TokenizeOne(c, sid, states[n], t, vs[n], e) == (states[n + 1], MakePlaceholder(t, hexes[n]))
    {
      StuckStep(c, sid, t, vs, e, a, b, x, d, n);
    }
  }

  /** Five new values of one type, a generator that is stuck on one value per length, and a last one that
      happens to be the fifth value's fallback: the fallback is taken unchecked, the session is no longer
      injective, and de-tokenizing puts the fifth value where the fourth stood. */
  lemma FallbackCollides(c: Crypto, sid: string, t: string, vs: seq<string>, nonce: string, a: string, b: string, x: string)
    returns (e: Entropy, states: seq<seq<Record>>)
    requires Ideal(c) && ':' !in sid && IsType(t) && |vs| == 5 && forall i, j | 0 <= i < j < 5 :: vs[i] != vs[j]
    requires IsHex(a) && IsHex(b) && IsHex(x) && |a| == 6 && |b| == 8 && |x| == 10
    ensures LegalEntropy(e) && |states| == 6 && states[0] == []
    ensures forall k | 0 <= k < 5 :: TokenizeOne(c, sid, states[k], t, vs[k], e).0 == states[k + 1]
    ensures var p := TokenizeOne(c, sid, states[3], t, vs[3], e).1;
            && p == TokenizeOne(c, sid, states[4], t, vs[4], e).1 && !Injective(states[5])
            && Detok(p, ResolutionMap(c, sid, states[4])) == vs[3]
            && Detok(p, ResolutionMap(c, sid, states[5])) == vs[4] != vs[3]
  {
    var d := Fallback(Fp(c, sid, t, vs[4]));
    e := Entropy(Stuck(a, b, x, d), nonce);
    StuckIsLegal(a, b, x, d);
    states := StuckSteps(c, sid, t, vs, e, a, b, x, d);
    FifthTakesOver(c, sid, t, vs, e, [a, b, x, d, d]);
  }

  lemma FifthTakesOver(c: Crypto, sid: string, t: string, vs: seq<string>, e: Entropy, hexes: seq<string>)
    requires Ideal(c) && IsType(t) && |vs| == |hexes| == 5 && hexes[3] == hexes[4] && IsHex(hexes[4]) && |hexes[4]| == 12
    ensures !Injective(StuckRecords(c, sid, t, vs, e, hexes, 5))
    ensures Detok(MakePlaceholder(t, hexes[4]), ResolutionMap(c, sid, StuckRecords(c, sid, t, vs, e, hexes, 4))) == vs[3]
    ensures Detok(MakePlaceholder(t, hexes[4]), ResolutionMap(c, sid, StuckRecords(c, sid, t, vs, e, hexes, 5))) == vs[4]
  {
    var rs := StuckRecords(c, sid, t, vs, e, hexes, 5);
    assert rs[3].placeholder == rs[4].placeholder;
    GrammarIsMakePlaceholder(MakePlaceholder(t, hexes[4]));
    StuckResolves(c, sid, t, vs, e, hexes, 3);
    StuckResolves(c, sid, t, vs, e, hexes, 4);
  }

  lemma StuckResolves(c: Crypto, sid: string, t: string, vs: seq<string>, e: Entropy, hexes: seq<string>, n: nat)
    requires Ideal(c) && n < |vs| == |hexes| && IsPlaceholder(MakePlaceholder(t, hexes[n]))
    ensures Detok(MakePlaceholder(t, hexes[n]), ResolutionMap(c, sid, StuckRecords(c, sid, t, vs, e, hexes, n + 1))) == vs[n]
  {
    var r := StuckRecord(c, sid, t, vs[n], e, hexes[n]);
    assert StuckRecords(c, sid, t, vs, e, hexes, n + 1) == StuckRecords(c, sid, t, vs, e, hexes, n) + [r];
    LastResolves(c, sid, StuckRecords(c, sid, t, vs, e, hexes, n), r, vs[n]);
  }

  /** The placeholder put last is what resolves. */
  lemma LastResolves(c: Crypto, sid: string, rs: seq<Record>, r: Record, v: string)
    requires ValueOf(c, sid, r) == v && IsPlaceholder(r.placeholder)
    ensures Detok(r.placeholder, ResolutionMap(c, sid, rs + [r])) == v
  {
    var all, p := rs + [r], r.placeholder;
    assert all[..|rs|] == rs && all[|rs|] == r;
    assert p[..|p|] == p && p[|p|..] == "";
    MatchLenSpec(p);
  }

  // ---- counting ----------------------------------------------------------------------

  /** Sum of `occurrences` over the records of one type. */
  function Occurrences(rs: seq<Record>, t: string): nat {
    if rs == [] then 0
    else Occurrences(rs[..|rs| - 1], t)
         + if rs[|rs| - 1].entityType == t then rs[|rs| - 1].occurrences else 0
  }

  lemma {:induction false} BumpCounts(rs: seq<Record>, k: nat, t: string)
    requires k < |rs|
    ensures Occurrences(rs[k := rs[k].(occurrences := rs[k].occurrences + 1)], t)
         == Occurrences(rs, t) + if rs[k].entityType == t then 1 else 0
  {
    var n := |rs| - 1;
    var rs' := rs[k := rs[k].(occurrences := rs[k].occurrences + 1)];
    if k < n {
      BumpCounts(rs[..n], k, t);
      assert rs'[..n] == rs[..n][k := rs[k].(occurrences := rs[k].occurrences + 1)];
    } else {
      assert rs'[..n] == rs[..n];
    }
  }

  /** Each tokenized occurrence is counted once, under its own type. */
  lemma TokenizeOneCounts(c: Crypto, sid: string, rs: seq<Record>, entityType: string, value: string,
                          e: Entropy, t: string)
    requires Ideal(c) && Keyed(c, sid, rs) && IsType(entityType)
    ensures Occurrences(TokenizeOne(c, sid, rs, entityType, value, e).0, t)
         == Occurrences(rs, t) + if entityType == t then 1 else 0
  {
    var fp := Fp(c, sid, entityType, value);
    var k := FirstIndex(Fingerprints(rs), fp);
    var rs' := TokenizeOne(c, sid, rs, entityType, value, e).0;
    FirstIndexSpec(Fingerprints(rs), fp);
    if k < |rs| {
      FoundIsSame(c, sid, rs, k, entityType, value);
      BumpCounts(rs, k, t);
    } else {
      assert rs'[..|rs|] == rs;
    }
  }
}
