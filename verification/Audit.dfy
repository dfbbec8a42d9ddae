/** The hash-chained audit log (app/audit.py): linking, verification, and what verification detects. */
module Audit {
  import opened Placeholders

  /** The business fields an event hash commits to; never a raw value. */
  datatype Payload = Payload(team: string, apiKey: string, session: string, route: string, provider: string,
                             entityCounts: map<string, nat>, blocked: bool, promptTokens: int,
                             completionTokens: int, latencyMs: int)

  datatype Event = Event(payload: Payload, prevHash: string, eventHash: string)

  /** HMAC under the audit key, and the canonical encoding of a payload. */
  datatype Hashing = Hashing(mac: string -> string, canonical: Payload -> string)

  function Zeros(n: nat): string { if n == 0 then "" else "0" + Zeros(n - 1) }

  lemma {:induction false} ZerosAreHex(n: nat)
    ensures IsHex(Zeros(n))
  {
    if n > 0 { ZerosAreHex(n - 1); }
  }

  /** What the first event of a team links to. */
  const GENESIS: string := Zeros(64)

  lemma {:induction false} ZerosAre(n: nat)
    ensures |Zeros(n)| == n && forall i | 0 <= i < n :: Zeros(n)[i] == '0'
  {
    if n > 0 { ZerosAre(n - 1); }
  }

  /** Sixty-four zeros. */
  lemma GenesisIs()
    ensures |GENESIS| == 64 && forall i | 0 <= i < 64 :: GENESIS[i] == '0'
  {
    var n := 64;
    ZerosAre(n);
  }

  lemma GenesisIsHex()
    ensures IsHex(GENESIS)
  {
    var n := 64;
    ZerosAreHex(n);
  }

  /** No two messages share a hash, hashes are hex and none is the genesis value; payloads have distinct
      encodings, which are JSON objects. */
  ghost predicate Ideal(h: Hashing) {
    && (forall a, b :: h.mac(a) == h.mac(b) ==> a == b)
    && (forall a :: IsHex(h.mac(a)) && h.mac(a) != GENESIS)
    && (forall x, y :: h.canonical(x) == h.canonical(y) ==> x == y)
    && (forall x :: h.canonical(x) != "" && h.canonical(x)[0] == '{')
  }

  /** `compute_event_hash` */
  function EventHash(h: Hashing, prev: string, payload: Payload): string { h.mac(prev + h.canonical(payload)) }

  function LastHash(chain: seq<Event>): string {
    if chain == [] then GENESIS else chain[|chain| - 1].eventHash
  }

  /** The next event of a chain, as `record` builds it. */
  function Link(h: Hashing, prev: string, payload: Payload): Event {
    Event(payload, prev, EventHash(h, prev, payload))
  }

  /** `verify_chain`, from a given previous hash */
  predicate VerifiesFrom(h: Hashing, prev: string, events: seq<Event>)
    decreases |events|
  {
    events == [] || (
      && events[0].prevHash == prev && events[0].eventHash == EventHash(h, prev, events[0].payload)
      && VerifiesFrom(h, events[0].eventHash, events[1..]))
  }

  predicate Verifies(h: Hashing, events: seq<Event>) { VerifiesFrom(h, GENESIS, events) }

  // ---- the hash is injective on what it is applied to --------------------------------

  lemma HashInjective(h: Hashing, p: string, x: Payload, q: string, y: Payload)
    requires Ideal(h) && IsHex(p) && IsHex(q) && EventHash(h, p, x) == EventHash(h, q, y)
    ensures p == q && x == y
  {
    SplitAtBrace(p, h.canonical(x), q, h.canonical(y));
  }

  lemma {:induction false} SplitAtBrace(p: string, x: string, q: string, y: string)
    requires p + x == q + y && x != "" && y != "" && x[0] == '{' && y[0] == '{' && IsHex(p) && IsHex(q)
    ensures p == q && x == y
  {
    assert (p + x)[|p|] == '{' && (q + y)[|q|] == '{';
    assert forall i | 0 <= i < |p| :: (p + x)[i] == p[i] != '{';
    assert forall i | 0 <= i < |q| :: (q + y)[i] == q[i] != '{';
    assert |p| == |q|;
    assert (p + x)[..|p|] == p && (q + y)[..|q|] == q && (p + x)[|p|..] == x && (q + y)[|q|..] == y;
  }

  // ---- chains ------------------------------------------------------------------------

  /** What verification says about each position. */
  predicate LinkedAt(h: Hashing, events: seq<Event>, i: nat)
    requires i < |events|
  {
    events[i] == Link(h, LastHash(events[..i]), events[i].payload)
  }

  lemma {:induction false} VerifiesSnoc(h: Hashing, prev: string, events: seq<Event>, e: Event)
    ensures VerifiesFrom(h, prev, events + [e])
       <==> VerifiesFrom(h, prev, events)
            && e == Link(h, if events == [] then prev else events[|events| - 1].eventHash, e.payload)
    decreases |events|
  {
    if events == [] {
      assert [e][1..] == [] && events + [e] == [e];
    } else {
      assert (events + [e])[1..] == events[1..] + [e];
      VerifiesSnoc(h, events[0].eventHash, events[1..], e);
    }
  }

  /** Recording an event extends the chain to one that verifies. */
  lemma RecordVerifies(h: Hashing, chain: seq<Event>, payload: Payload)
    requires Verifies(h, chain)
    ensures Verifies(h, chain + [Link(h, LastHash(chain), payload)])
  {
    VerifiesSnoc(h, GENESIS, chain, Link(h, LastHash(chain), payload));
  }

  lemma {:induction false} VerifiesIff(h: Hashing, events: seq<Event>)
    ensures Verifies(h, events) <==> forall i | 0 <= i < |events| :: LinkedAt(h, events, i)
  {
    if events != [] {
      var n := |events| - 1;
      var init := events[..n];
      assert events == init + [events[n]];
      VerifiesIff(h, init);
      VerifiesSnoc(h, GENESIS, init, events[n]);
      assert LinkedAt(h, events, n) <==> events[n] == Link(h, LastHash(init), events[n].payload);
      forall i | 0 <= i < n ensures LinkedAt(h, init, i) <==> LinkedAt(h, events, i) {
        assert init[..i] == events[..i];
      }
    }
  }

  lemma PrefixVerifies(h: Hashing, chain: seq<Event>, n: nat)
    requires Verifies(h, chain) && n <= |chain|
    ensures Verifies(h, chain[..n])
  {
    VerifiesIff(h, chain);
    VerifiesIff(h, chain[..n]);
    forall i | 0 <= i < n ensures LinkedAt(h, chain[..n], i) {
      assert chain[..n][..i] == chain[..i] && LinkedAt(h, chain, i);
    }
  }

  lemma LastHashIsHex(h: Hashing, chain: seq<Event>, i: nat)
    requires Ideal(h) && Verifies(h, chain) && i <= |chain|
    ensures IsHex(LastHash(chain[..i]))
    ensures LastHash(chain[..i]) == GENESIS <==> i == 0
  {
    GenesisIsHex();
    VerifiesIff(h, chain);
    if i > 0 {
      assert LinkedAt(h, chain, i - 1);
      assert LastHash(chain[..i]) == chain[i - 1].eventHash;
    }
  }

  lemma LastOfPrefix(chain: seq<Event>, i: nat)
    requires 0 < i <= |chain|
    ensures LastHash(chain[..i]) == chain[i - 1].eventHash
  {
  }

  /** All hashes of a chain that verifies are different. */
  lemma {:induction false} HashesDistinct(h: Hashing, chain: seq<Event>, i: nat, j: nat)
    requires Ideal(h) && Verifies(h, chain) && i < j < |chain|
    ensures chain[i].eventHash != chain[j].eventHash
    decreases i
  {
    LastHashIsHex(h, chain, i);
    LastHashIsHex(h, chain, j);
    SameHashSameLink(h, chain, i, j);
    LastOfPrefix(chain, j);
    if i > 0 {
      LastOfPrefix(chain, i);
      HashesDistinct(h, chain, i - 1, j - 1);
    }
  }

  lemma SameHashSameLink(h: Hashing, chain: seq<Event>, i: nat, j: nat)
    requires Ideal(h) && Verifies(h, chain) && i < |chain| && j < |chain|
    ensures chain[i].eventHash == chain[j].eventHash ==> LastHash(chain[..i]) == LastHash(chain[..j])
  {
    VerifiesIff(h, chain);
    assert LinkedAt(h, chain, i) && LinkedAt(h, chain, j);
    LastHashIsHex(h, chain, i);
    LastHashIsHex(h, chain, j);
    if chain[i].eventHash == chain[j].eventHash {
      HashInjective(h, LastHash(chain[..i]), chain[i].payload, LastHash(chain[..j]), chain[j].payload);
    }
  }

  // ---- tamper evidence ---------------------------------------------------------------

  /** The event's hash was taken from the chain. */
  ghost predicate HashFrom(chain: seq<Event>, e: Event) { exists j | 0 <= j < |chain| :: chain[j].eventHash == e.eventHash }

  /** Where in the chain an event with a chain's hash comes from. */
  lemma Origin(h: Hashing, chain: seq<Event>, prev: string, e: Event) returns (j: nat)
    requires Ideal(h) && Verifies(h, chain) && HashFrom(chain, e) && IsHex(prev) && e == Link(h, prev, e.payload)
    ensures j < |chain| && e == chain[j] && prev == LastHash(chain[..j])
  {
    j :| 0 <= j < |chain| && chain[j].eventHash == e.eventHash;
    VerifiesIff(h, chain);
    assert LinkedAt(h, chain, j);
    LastHashIsHex(h, chain, j);
    HashInjective(h, prev, e.payload, LastHash(chain[..j]), chain[j].payload);
  }

  /** The last hashes of different prefixes differ. */
  lemma PrefixesDiffer(h: Hashing, chain: seq<Event>, i: nat, j: nat)
    requires Ideal(h) && Verifies(h, chain) && i < j <= |chain|
    ensures LastHash(chain[..i]) != LastHash(chain[..j])
  {
    LastHashIsHex(h, chain, i);
    LastHashIsHex(h, chain, j);
    LastOfPrefix(chain, j);
    if i > 0 {
      LastOfPrefix(chain, i);
      HashesDistinct(h, chain, i - 1, j - 1);
    }
  }

  /** The `n`th event of a verifying list whose hashes come from the chain is the chain's `n`th event. */
  lemma NextIsNext(h: Hashing, chain: seq<Event>, n: nat, e: Event)
    requires Ideal(h) && Verifies(h, chain) && n <= |chain| && HashFrom(chain, e)
    requires e == Link(h, LastHash(chain[..n]), e.payload)
    ensures n < |chain| && e == chain[n]
  {
    LastHashIsHex(h, chain, n);
    var j := Origin(h, chain, LastHash(chain[..n]), e);
    if j < n { PrefixesDiffer(h, chain, j, n); }
    if n < j { PrefixesDiffer(h, chain, n, j); }
  }

  lemma LastVerifies(h: Hashing, init: seq<Event>, e: Event, events: seq<Event>)
    requires Verifies(h, events) && events == init + [e]
    ensures Verifies(h, init) && e == Link(h, LastHash(init), e.payload)
  {
    VerifiesSnoc(h, GENESIS, init, e);
  }

  lemma {:induction false} VerifyingIsPrefix(h: Hashing, chain: seq<Event>, events: seq<Event>)
    requires Ideal(h) && Verifies(h, chain) && forall e | e in events :: HashFrom(chain, e)
    requires Verifies(h, events)
    ensures events <= chain
    decreases |events|
  {
    if events != [] {
      var n := |events| - 1;
      var init, e := events[..n], events[n];
      LastVerifies(h, init, e, events);
      VerifyingIsPrefix(h, chain, init);
      assert init == chain[..n] && e in events;
      NextIsNext(h, chain, n, e);
    }
  }

  /** A list of events whose hashes all come from a valid chain verifies exactly if it is a prefix of it:
      every edit, reordering, insertion and deletion but at the end is detected. */
  lemma TamperEvidence(h: Hashing, chain: seq<Event>, events: seq<Event>)
    requires Ideal(h) && Verifies(h, chain) && forall e | e in events :: HashFrom(chain, e)
    ensures Verifies(h, events) <==> events <= chain
  {
    PrefixOf(h, chain, events);
    if Verifies(h, events) { VerifyingIsPrefix(h, chain, events); }
  }

  lemma PrefixOf(h: Hashing, chain: seq<Event>, events: seq<Event>)
    requires Verifies(h, chain)
    ensures events <= chain ==> Verifies(h, events)
  {
    if events <= chain {
      PrefixVerifies(h, chain, |events|);
      assert chain[..|events|] == events;
    }
  }

  /** An altered event with a hash that occurs in the chain. */
  lemma EditDetected(h: Hashing, chain: seq<Event>, i: nat, e: Event)
    requires Ideal(h) && Verifies(h, chain) && i < |chain| && e != chain[i] && HashFrom(chain, e)
    ensures !Verifies(h, chain[i := e])
  {
    var altered := chain[i := e];
    forall x | x in altered ensures HashFrom(chain, x) {
      var k :| 0 <= k < |altered| && altered[k] == x;
      if k != i { assert chain[k] == x; }
    }
    assert altered[i] != chain[i];
    TamperEvidence(h, chain, altered);
  }

  /** Two events exchanged. */
  lemma SwapDetected(h: Hashing, chain: seq<Event>, i: nat, j: nat)
    requires Ideal(h) && Verifies(h, chain) && i < j < |chain|
    ensures !Verifies(h, chain[i := chain[j]][j := chain[i]])
  {
    var altered := chain[i := chain[j]][j := chain[i]];
    forall x | x in altered ensures HashFrom(chain, x) {
      var k :| 0 <= k < |altered| && altered[k] == x;
      assert x == chain[if k == i then j else if k == j then i else k];
    }
    HashesDistinct(h, chain, i, j);
    assert altered[i] != chain[i];
    TamperEvidence(h, chain, altered);
  }

  /** An event removed, unless it is the last one. */
  lemma DeletionDetected(h: Hashing, chain: seq<Event>, i: nat)
    requires Ideal(h) && Verifies(h, chain) && i + 1 < |chain|
    ensures !Verifies(h, chain[..i] + chain[i + 1..])
  {
    var altered := chain[..i] + chain[i + 1..];
    forall x | x in altered ensures HashFrom(chain, x) {
      var k :| 0 <= k < |altered| && altered[k] == x;
      assert x == chain[if k < i then k else k + 1];
    }
    HashesDistinct(h, chain, i, i + 1);
    assert altered[i] == chain[i + 1] != chain[i];
    TamperEvidence(h, chain, altered);
  }

  /** An event inserted anywhere, with a hash that occurs in the chain. */
  lemma InsertionDetected(h: Hashing, chain: seq<Event>, i: nat, e: Event)
    requires Ideal(h) && Verifies(h, chain) && i <= |chain| && HashFrom(chain, e)
    ensures !Verifies(h, chain[..i] + [e] + chain[i..])
  {
    var altered := chain[..i] + [e] + chain[i..];
    forall x | x in altered ensures HashFrom(chain, x) {
      var k :| 0 <= k < |altered| && altered[k] == x;
      if k != i { assert x == chain[if k < i then k else k - 1]; }
    }
    TamperEvidence(h, chain, altered);
  }

  // ---- several teams -----------------------------------------------------------------

  /** Every team's chain verifies and holds that team's events only. */
  ghost predicate ChainsOk(h: Hashing, chains: map<string, seq<Event>>) {
    forall t | t in chains :: Verifies(h, chains[t]) && forall e | e in chains[t] :: e.payload.team == t
  }

  ghost predicate HashFromAny(chains: map<string, seq<Event>>, e: Event) {
    exists u :: u in chains && HashFrom(chains[u], e)
  }

  /** A hash of another team does not fit an event of this one. */
  lemma ForeignHash(h: Hashing, chains: map<string, seq<Event>>, t: string, prev: string, e: Event)
    requires Ideal(h) && ChainsOk(h, chains) && HashFromAny(chains, e) && IsHex(prev)
    requires e.payload.team == t && e.eventHash == EventHash(h, prev, e.payload)
    ensures t in chains && HashFrom(chains[t], e)
  {
    var u :| u in chains && HashFrom(chains[u], e);
    var j :| 0 <= j < |chains[u]| && chains[u][j].eventHash == e.eventHash;
    VerifiesIff(h, chains[u]);
    assert LinkedAt(h, chains[u], j) && chains[u][j] in chains[u];
    LastHashIsHex(h, chains[u], j);
    HashInjective(h, LastHash(chains[u][..j]), chains[u][j].payload, prev, e.payload);
  }

  /** Tamper evidence with the hashes of all teams at hand. */
  lemma TamperEvidenceAcrossTeams(h: Hashing, chains: map<string, seq<Event>>, t: string, events: seq<Event>)
    requires Ideal(h) && ChainsOk(h, chains) && t in chains
    requires forall e | e in events :: e.payload.team == t && HashFromAny(chains, e)
    ensures Verifies(h, events) <==> events <= chains[t]
  {
    if Verifies(h, events) {
      VerifiesIff(h, events);
      forall e | e in events ensures HashFrom(chains[t], e) {
        var i :| 0 <= i < |events| && events[i] == e;
        assert LinkedAt(h, events, i);
        LastHashIsHex(h, events, i);
        ForeignHash(h, chains, t, LastHash(events[..i]), e);
      }
      TamperEvidence(h, chains[t], events);
    }
    PrefixOf(h, chains[t], events);
  }

  // ---- the in-memory sink ------------------------------------------------------------

  class InMemoryAuditSink {
    const hashing: Hashing
    var events: map<string, seq<Event>>

    constructor (hashing: Hashing)
      ensures this.hashing == hashing && events == map[] && Valid()
    {
      this.hashing := hashing;
      events := map[];
    }

    ghost predicate Valid()
      reads this
    {
      ChainsOk(hashing, events)
    }

    function ChainOf(team: string): seq<Event>
      reads this
    {
      if team in events then events[team] else []
    }

    /** Appends to the chain of the payload's team and touches no other. */
    method Record(payload: Payload) returns (e: Event)
      requires Valid()
      modifies this
      ensures Valid() && e == Link(hashing, LastHash(old(ChainOf(payload.team))), payload)
      ensures events == old(events)[payload.team := old(ChainOf(payload.team)) + [e]]
    {
      var chain := ChainOf(payload.team);
      var prev := LastHash(chain);
      e := Event(payload, prev, EventHash(hashing, prev, payload));
      RecordVerifies(hashing, chain, payload);
      events := events[payload.team := chain + [e]];
    }

    /** Recomputes the chain; works on any content. */
    method Verify(team: string) returns (ok: bool)
      ensures ok == Verifies(hashing, ChainOf(team))
    {
      var prev := GENESIS;
      var chain := ChainOf(team);
      assert chain[0..] == chain;
      for i := 0 to |chain|
        invariant Verifies(hashing, chain) == VerifiesFrom(hashing, prev, chain[i..])
      {
        var event := chain[i];
        assert chain[i..][1..] == chain[i + 1..];
        if event.prevHash != prev { return false; }
        var expected := EventHash(hashing, prev, event.payload);
        if event.eventHash != expected { return false; }
        prev := event.eventHash;
      }
      ok := true;
    }
  }
}
