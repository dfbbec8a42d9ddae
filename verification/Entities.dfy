/** Detected spans and the policy decision (app/schemas/entities.py). */
module Entities {

  /** A detected sensitive entity; offsets follow slice semantics. */
  datatype EntitySpan = EntitySpan(start: nat, end: nat, entityType: string, score: real, source: string) {
    function Length(): int { end - start }

    predicate Overlaps(other: EntitySpan) { start < other.end && other.start < end }
  }

  datatype PolicyMode = Tokenize | Mask | HardBlock

  datatype Option<+T> = None | Some(value: T)

  datatype PolicyDecision = PolicyDecision(mode: PolicyMode, blockedTypes: seq<string>,
                                           redactTypes: Option<seq<string>>) {
    /** None redacts everything that was detected. */
    predicate ShouldRedact(entityType: string) {
      redactTypes.None? || entityType in redactTypes.value
    }
  }

  /** How many of the spans carry type `t`. */
  function CountType(spans: seq<EntitySpan>, t: string): nat {
    if spans == [] then 0
    else CountType(spans[..|spans| - 1], t) + if spans[|spans| - 1].entityType == t then 1 else 0
  }

  lemma {:induction false} CountTypeConcat(a: seq<EntitySpan>, b: seq<EntitySpan>, t: string)
    ensures CountType(a + b, t) == CountType(a, t) + CountType(b, t)
  {
    if b == [] {
      assert a + b == a;
    } else {
      assert (a + b)[..|a + b| - 1] == a + b[..|b| - 1];
      CountTypeConcat(a, b[..|b| - 1], t);
    }
  }

  lemma CountTakeOut(a: seq<EntitySpan>, k: nat, t: string)
    requires k < |a|
    ensures CountType(a, t) == CountType(a[..k] + a[k + 1..], t) + if a[k].entityType == t then 1 else 0
    ensures multiset(a) == multiset(a[..k] + a[k + 1..]) + multiset{a[k]}
  {
    assert a == (a[..k] + [a[k]]) + a[k + 1..];
    CountTypeConcat(a[..k] + [a[k]], a[k + 1..], t);
    CountTypeConcat(a[..k], a[k + 1..], t);
    assert (a[..k] + [a[k]])[..k] == a[..k];
  }

  lemma {:induction false} CountTypePermutes(a: seq<EntitySpan>, b: seq<EntitySpan>, t: string)
    requires multiset(a) == multiset(b)
    ensures CountType(a, t) == CountType(b, t)
    decreases |a|
  {
    assert |multiset(a)| == |multiset(b)|;
    if a != [] {
      assert a[0] in multiset(b);
      var k :| 0 <= k < |b| && b[k] == a[0];
      CountTakeOut(a, 0, t);
      CountTakeOut(b, k, t);
      var a', b' := a[..0] + a[1..], b[..k] + b[k + 1..];
      assert multiset(a') == multiset(b') by {
        assert multiset(a') == multiset(a) - multiset{a[0]};
        assert multiset(b') == multiset(b) - multiset{a[0]};
      }
      CountTypePermutes(a', b', t);
    }
  }
}
