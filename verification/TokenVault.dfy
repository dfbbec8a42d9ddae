/** The store and the vault as objects (app/redaction/store.py, app/redaction/vault.py). */
module TokenVault {
  import opened Placeholders
  import opened Splicing
  import opened Entities
  import opened Tokens
  import opened Tokenizing

  /** Two dictionaries over one set of records. The records of a session are kept in the order
      they were put, which is how iterating `_by_fp` yields them, and a reference to a record is its
      position there: both dictionaries refer to the same record. */
  class InMemoryTokenStore {
    var byFp: map<(string, string), nat>
    var byPh: map<(string, string), nat>
    var records: map<string, seq<Record>>

    function View(sid: string): seq<Record>
      reads this`records
    {
      if sid in records then records[sid] else []
    }

    static ghost predicate FpAgrees(sid: string, rs: seq<Record>, byFp: map<(string, string), nat>) {
      forall fp :: if FirstIndex(Fingerprints(rs), fp) < |rs|
                   then (sid, fp) in byFp && byFp[(sid, fp)] == FirstIndex(Fingerprints(rs), fp)
                   else (sid, fp) !in byFp
    }

    static ghost predicate PhAgrees(sid: string, rs: seq<Record>, byPh: map<(string, string), nat>) {
      forall p :: if LastIndex(PlaceholdersOf(rs), p) < |rs|
                  then (sid, p) in byPh && byPh[(sid, p)] == LastIndex(PlaceholdersOf(rs), p)
                  else (sid, p) !in byPh
    }

    /** The fingerprint index and the placeholder index describe the same records. */
    ghost predicate Valid()
      reads this
    {
      forall sid :: FpAgrees(sid, View(sid), byFp) && PhAgrees(sid, View(sid), byPh)
    }

    constructor ()
      ensures Valid() && forall sid :: View(sid) == []
    {
      byFp, byPh, records := map[], map[], map[];
    }

    method GetByFingerprint(sid: string, fp: string) returns (r: Option<nat>)
      requires Valid()
      ensures r == if fp in Fingerprints(View(sid)) then Some(FirstIndex(Fingerprints(View(sid)), fp)) else None
    {
      assert FpAgrees(sid, View(sid), byFp);
      FirstIndexSpec(Fingerprints(View(sid)), fp);
      r := if (sid, fp) in byFp then Some(byFp[(sid, fp)]) else None;
    }

    method GetByPlaceholder(sid: string, p: string) returns (r: Option<nat>)
      requires Valid()
      ensures r == if Known(View(sid), p) then Some(LastIndex(PlaceholdersOf(View(sid)), p)) else None
      ensures r.Some? ==> r.value < |View(sid)|
    {
      assert PhAgrees(sid, View(sid), byPh);
      LastIndexSpec(PlaceholdersOf(View(sid)), p);
      r := if (sid, p) in byPh then Some(byPh[(sid, p)]) else None;
    }

    /** Reached only after a lookup by fingerprint found nothing. */
    method Put(sid: string, record: Record)
      requires Valid() && record.fingerprint !in Fingerprints(View(sid))
      modifies this
      ensures Valid()
      ensures View(sid) == old(View(sid)) + [record]
      ensures forall s | s != sid :: View(s) == old(View(s))
    {
      ghost var fp0, ph0 := byFp, byPh;
      var rs := View(sid);
      byFp := byFp[(sid, record.fingerprint) := |rs|];
      byPh := byPh[(sid, record.placeholder) := |rs|];
      records := records[sid := rs + [record]];
      AppendFp(sid, rs, record, fp0);
      AppendPh(sid, rs, record, ph0);
      forall s | s != sid ensures FpAgrees(s, View(s), byFp) && PhAgrees(s, View(s), byPh) {
        var before := old(View(s));
        assert FpAgrees(s, before, fp0) && PhAgrees(s, before, ph0) && View(s) == before;
      }
    }

    static lemma AppendFp(sid: string, rs: seq<Record>, record: Record, byFp: map<(string, string), nat>)
      requires FpAgrees(sid, rs, byFp) && record.fingerprint !in Fingerprints(rs)
      ensures FpAgrees(sid, rs + [record], byFp[(sid, record.fingerprint) := |rs|])
    {
      var ks := Fingerprints(rs + [record]);
      assert ks == Fingerprints(rs) + [record.fingerprint];
      forall fp ensures FirstIndex(ks, fp)
                     == if fp == record.fingerprint then |rs|
                        else if FirstIndex(Fingerprints(rs), fp) < |rs| then FirstIndex(Fingerprints(rs), fp)
                        else |rs| + 1
      {
        FirstIndexAppend(Fingerprints(rs), record.fingerprint, fp);
      }
    }

    static lemma AppendPh(sid: string, rs: seq<Record>, record: Record, byPh: map<(string, string), nat>)
      requires PhAgrees(sid, rs, byPh)
      ensures PhAgrees(sid, rs + [record], byPh[(sid, record.placeholder) := |rs|])
    {
      var ks := PlaceholdersOf(rs + [record]);
      assert ks == PlaceholdersOf(rs) + [record.placeholder];
      forall p ensures LastIndex(ks, p)
                    == if p == record.placeholder then |rs|
                       else if LastIndex(PlaceholdersOf(rs), p) < |rs| then LastIndex(PlaceholdersOf(rs), p)
                       else |rs| + 1
      {
        LastIndexAppend(PlaceholdersOf(rs), record.placeholder, p);
      }
    }

    /** Counts up the shared record. */
    method BumpOccurrence(sid: string, fp: string)
      requires Valid()
      modifies this`records
      ensures Valid()
      ensures var rs := old(View(sid));
              var k := FirstIndex(Fingerprints(rs), fp);
              View(sid) == if k < |rs| then rs[k := rs[k].(occurrences := rs[k].occurrences + 1)] else rs
      ensures forall s | s != sid :: View(s) == old(View(s))
    {
      FirstIndexSpec(Fingerprints(View(sid)), fp);
      var found := GetByFingerprint(sid, fp);
      if found.Some? {
        var rs, k := View(sid), found.value;
        records := records[sid := rs[k := rs[k].(occurrences := rs[k].occurrences + 1)]];
        assert Fingerprints(View(sid)) == Fingerprints(rs) && PlaceholdersOf(View(sid)) == PlaceholdersOf(rs);
        forall s ensures FpAgrees(s, View(s), byFp) && PhAgrees(s, View(s), byPh) {
          assert FpAgrees(s, old(View(s)), byFp) && PhAgrees(s, old(View(s)), byPh);
        }
      }
    }

    method AllForSession(sid: string) returns (r: seq<Record>)
      ensures r == View(sid)
    {
      r := if sid in records then records[sid] else [];
    }
  }

  class Vault {
    const store: InMemoryTokenStore
    const crypto: Crypto

    constructor (store: InMemoryTokenStore, crypto: Crypto)
      ensures this.store == store && this.crypto == crypto
    {
      this.store, this.crypto := store, crypto;
    }

    /** Eight draws each of 3, 4, 5 and 6 bytes, then the keyed fallback. */
    method AllocatePlaceholder(sid: string, entityType: string, fp: string, e: Entropy) returns (p: string)
      requires store.Valid() && LegalEntropy(e)
      ensures p == Allocate(store.View(sid), entityType, Fallback(fp), e.draws)
    {
      ghost var rs := store.View(sid);
      var nbytes := 3;
      LegalCount(e.draws, 0);
      assert e.draws[0..] == e.draws;
      while nbytes <= 6
        invariant 3 <= nbytes <= 7
        invariant Allocate(rs, entityType, Fallback(fp), e.draws)
               == Allocate(rs, entityType, Fallback(fp), e.draws[8 * (nbytes - 3)..])
      {
        var k := 0;
        while k < 8
          invariant 0 <= k <= 8
          invariant Allocate(rs, entityType, Fallback(fp), e.draws)
                 == Allocate(rs, entityType, Fallback(fp), e.draws[8 * (nbytes - 3) + k..])
        {
          var at := 8 * (nbytes - 3) + k;
          AllocateStep(rs, entityType, Fallback(fp), e.draws, at);
          var placeholder := MakePlaceholder(entityType, e.draws[at]);
          var found := store.GetByPlaceholder(sid, placeholder);
          if found.None? { return placeholder; }
          k := k + 1;
        }
        nbytes := nbytes + 1;
      }
      assert e.draws[32..] == [];
      p := MakePlaceholder(entityType, Fallback(fp));
    }

    /** One span: reuse the record of this value or store a new one. */
    method TokenFor(sid: string, entityType: string, value: string, e: Entropy) returns (p: string)
      requires store.Valid() && LegalEntropy(e)
      modifies store
      ensures store.Valid()
      ensures (store.View(sid), p) == TokenizeOne(crypto, sid, old(store.View(sid)), entityType, value, e)
      ensures forall s | s != sid :: store.View(s) == old(store.View(s))
    {
      var fp := Fp(crypto, sid, entityType, value);
      FirstIndexSpec(Fingerprints(store.View(sid)), fp);
      var existing := store.GetByFingerprint(sid, fp);
      if existing.Some? {
        p := store.View(sid)[existing.value].placeholder;
        store.BumpOccurrence(sid, fp);
      } else {
        p := AllocatePlaceholder(sid, entityType, fp, e);
        var ciphertext := crypto.seal(crypto.dek(sid), e.nonce, value);
        store.Put(sid, Record(p, entityType, ciphertext, fp, 1));
      }
    }

    /** Right to left, each span replaced in the text so far. */
    method Tokenize(sid: string, text: string, spans: seq<EntitySpan>, es: seq<Entropy>) returns (out: string)
      requires store.Valid() && SpansOk(text, spans) && |spans| <= |es| && forall e | e in es :: LegalEntropy(e)
      modifies store
      ensures store.Valid()
      ensures (store.View(sid), out) == Tokenized(crypto, sid, text, old(store.View(sid)), spans, es)
      ensures forall s | s != sid :: store.View(s) == old(store.View(s))
    {
      DescendingSpec(text, spans);
      var ordered := Descending(spans);
      ghost var (final, ps) := Assign(crypto, sid, text, store.View(sid), ordered, es);
      PlacedOrdered(text, spans, ps);
      ghost var up := Reverse(Placed(ordered, ps));
      SplicedNone(text, up);
      out := text;
      var i := 0;
      assert ordered[0..] == ordered && es[0..] == es && ps[0..] == ps;
      while i < |ordered|
        invariant i <= |ordered| == |up| == |ps| && store.Valid()
        invariant Assign(crypto, sid, text, store.View(sid), ordered[i..], es[i..]) == (final, ps[i..])
        invariant forall s | s != sid :: store.View(s) == old(store.View(s))
        invariant SplicedFrom(text, up, |up| - i, out)
      {
        var span := ordered[i];
        AssignStep(crypto, sid, text, store.View(sid), ordered, es, final, ps, i);
        var placeholder := TokenFor(sid, span.entityType, text[span.start..span.end], es[i]);
        assert up[|up| - 1 - i] == Replacement(span.start, span.end, placeholder);
        SpliceRightmost(text, up, |up| - 1 - i, out);
        out := out[..span.start] + placeholder + out[span.end..];
        i := i + 1;
      }
      SplicedAll(text, up, out);
    }

    /** One pass over the matches with live lookups; unknown placeholders stay in place. */
    method Detokenize(sid: string, text: string) returns (r: string)
      requires store.Valid()
      ensures r == Detok(text, ResolutionMap(crypto, sid, store.View(sid)))
    {
      ghost var m := ResolutionMap(crypto, sid, store.View(sid));
      if !HasOpen(text) {
        NoOpenNoMatch(text);
        PlainIsFixed(text, m);
        return text;
      }
      r := DetokenizeMatches(sid, text);
      DetokFromIsDetok(text, 0, m);
      assert text[0..] == text;
    }

    method DetokenizeMatches(sid: string, text: string) returns (r: string)
      requires store.Valid()
      ensures r == DetokFrom(text, 0, ResolutionMap(crypto, sid, store.View(sid)))
    {
      ghost var m := ResolutionMap(crypto, sid, store.View(sid));
      var out: string, last: nat, pos: nat := "", 0, 0;
      ghost var rest := DetokFrom(text, 0, m);
      while pos < |text|
        invariant Pending(DetokFrom(text, 0, m), out, text, last, pos, rest)
        invariant rest == DetokFrom(text, pos, m)
      {
        var n := MatchAt(text, pos);
        var next := if n == 0 then pos + 1 else pos + n;
        var piece := text[pos..next];
        rest := DetokFrom(text, next, m);
        var found: Option<nat> := None;
        if n > 0 {
          found := store.GetByPlaceholder(sid, piece);
          SnapshotIsLive(crypto, sid, store.View(sid), piece);
        }
        if found.Some? {
          var value := crypto.unseal(crypto.dek(sid), store.View(sid)[found.value].ciphertext);
          var out' := out + text[last..pos] + value;
          PendingSwap(DetokFrom(text, 0, m), out, text, last, pos, next, value, rest, out');
          out, last := out', next;
        } else {
          PendingKeep(DetokFrom(text, 0, m), out, text, last, pos, next, rest);
        }
        pos := next;
      }
      r := out + text[last..];
    }

    /** The decrypted snapshot that a prepared stream de-tokenizer works from. */
    method Snapshot(sid: string) returns (m: Resolver)
      requires store.Valid()
      ensures m == ResolutionMap(crypto, sid, store.View(sid))
    {
      var all := store.AllForSession(sid);
      ghost var rs := store.View(sid);
      m := map[];
      var i := 0;
      while i < |all|
        invariant i <= |all| == |rs| && m == ResolutionMap(crypto, sid, rs[..i])
      {
        m := m[all[i].placeholder := crypto.unseal(crypto.dek(sid), all[i].ciphertext)];
        assert rs[..i + 1][..i] == rs[..i];
        i := i + 1;
      }
      assert rs[..|rs|] == rs;
    }
  }
}
