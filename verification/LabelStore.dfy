/** The mutable label vault: `LabelVault` (app/desktop/vaultdb.py) over its two tables and its cache. */
module LabelStore {
  import opened Entities
  import opened Labels
  import opened Sorting

  // ---- the order of `entities` -------------------------------------------------------

  /** Python's order on strings. */
  predicate StringLe(a: string, b: string) {
    a == "" || (b != "" && (a[0] < b[0] || (a[0] == b[0] && StringLe(a[1..], b[1..]))))
  }

  /** `i` is the first place where the strings differ, and `a` has the smaller character there. */
  predicate SmallerAt(a: string, b: string, i: nat) { i < |a| && i < |b| && a[..i] == b[..i] && a[i] < b[i] }

  /** The first place where the strings differ decides, and a beginning comes before what it begins. */
  lemma {:induction false} StringLeIff(a: string, b: string)
    ensures StringLe(a, b) <==> a <= b || exists i: nat :: SmallerAt(a, b, i)
  {
    if a != "" && b != "" {
      if a[0] == b[0] {
        StringLeIff(a[1..], b[1..]);
        assert a == [a[0]] + a[1..] && b == [b[0]] + b[1..];
        if i: nat :| SmallerAt(a[1..], b[1..], i) { SmallerShift(a, b, i); }
        if i: nat :| SmallerAt(a, b, i) && i > 0 { SmallerShift(a, b, i - 1); }
      } else {
        FirstDiffers(a, b);
      }
    }
  }

  lemma SmallerShift(a: string, b: string, i: nat)
    requires a != "" && b != "" && a[0] == b[0]
    ensures SmallerAt(a, b, i + 1) <==> SmallerAt(a[1..], b[1..], i)
  {
    if i < |a| - 1 && i < |b| - 1 {
      assert a[..i + 1] == [a[0]] + a[1..][..i] && b[..i + 1] == [b[0]] + b[1..][..i];
      if a[..i + 1] == b[..i + 1] { assert a[1..][..i] == a[..i + 1][1..] && b[1..][..i] == b[..i + 1][1..]; }
    }
  }

  lemma FirstDiffers(a: string, b: string)
    requires a != "" && b != "" && a[0] != b[0]
    ensures (exists i: nat :: SmallerAt(a, b, i)) <==> a[0] < b[0]
  {
    if a[0] < b[0] { assert SmallerAt(a, b, 0); }
    forall i: nat | SmallerAt(a, b, i) ensures i == 0 {
      if i > 0 { SamePrefixSameHead(a, b, i); }
    }
  }

  lemma SamePrefixSameHead(a: string, b: string, i: nat)
    requires 0 < i <= |a| && i <= |b| && a[..i] == b[..i]
    ensures a[0] == b[0]
  {
    assert a[..i][0] == a[0] && b[..i][0] == b[0];
  }

  lemma {:induction false} StringTotal(a: string, b: string)
    ensures StringLe(a, b) || StringLe(b, a)
  {
    if a != "" && b != "" && a[0] == b[0] { StringTotal(a[1..], b[1..]); }
  }

  lemma {:induction false} StringTransitive(a: string, b: string, c: string)
    requires StringLe(a, b) && StringLe(b, c)
    ensures StringLe(a, c)
  {
    if a != "" && a[0] == b[0] == c[0] { StringTransitive(a[1..], b[1..], c[1..]); }
  }

  lemma {:induction false} StringAntisymmetric(a: string, b: string)
    requires StringLe(a, b) && StringLe(b, a)
    ensures a == b
  {
    if a != "" {
      StringAntisymmetric(a[1..], b[1..]);
      assert a == [a[0]] + a[1..] && b == [b[0]] + b[1..];
    }
  }

  /** By category, then by number. */
  predicate KeyLe(a: Key, b: Key) {
    if a.category == b.category then a.n <= b.n else StringLe(a.category, b.category)
  }

  lemma KeyOrder()
    ensures TotalPreorder(KeyLe) && Antisymmetric(KeyLe)
  {
    forall a, b ensures KeyLe(a, b) || KeyLe(b, a) { StringTotal(a.category, b.category); }
    forall a, b, c | KeyLe(a, b) && KeyLe(b, c) ensures KeyLe(a, c) { KeyTransitive(a, b, c); }
    forall a, b | KeyLe(a, b) && KeyLe(b, a) ensures a == b {
      if a.category != b.category { StringAntisymmetric(a.category, b.category); }
    }
  }

  lemma KeyTransitive(a: Key, b: Key, c: Key)
    requires KeyLe(a, b) && KeyLe(b, c)
    ensures KeyLe(a, c)
  {
    if a.category != b.category && b.category != c.category {
      StringTransitive(a.category, b.category, c.category);
      if a.category == c.category { StringAntisymmetric(a.category, b.category); }
    }
  }

  /** The keys in order, each once. */
  ghost predicate Listing(ks: seq<Key>, keys: set<Key>) {
    SortedBy(ks, KeyLe) && multiset(ks) == multiset(keys)
  }

  lemma ListingUnique(ks: seq<Key>, ms: seq<Key>, keys: set<Key>)
    requires Listing(ks, keys) && Listing(ms, keys)
    ensures ks == ms
  {
    KeyOrder();
    SortedUnique(ks, ms, KeyLe);
  }

  lemma ListingMembers(ks: seq<Key>, keys: set<Key>)
    requires multiset(ks) == multiset(keys)
    ensures forall k :: k in ks <==> k in keys
    ensures forall i, j | 0 <= i < j < |ks| :: ks[i] != ks[j]
  {
    forall k ensures k in ks <==> k in keys { assert k in ks <==> k in multiset(ks); }
    forall i, j | 0 <= i < j < |ks| ensures ks[i] != ks[j] {
      assert ks == ks[..j] + ks[j..] && ks[j] in ks[j..];
      assert multiset(ks)[ks[j]] <= 1;
      assert ks[j] !in ks[..j];
    }
  }

  method ListKeys(keys: set<Key>) returns (ks: seq<Key>)
    ensures Listing(ks, keys)
  {
    var left, found := keys, [];
    while left != {}
      invariant left <= keys && multiset(found) == multiset(keys - left)
      decreases left
    {
      var k :| k in left;
      assert keys - (left - {k}) == (keys - left) + {k};
      found, left := found + [k], left - {k};
    }
    assert keys - {} == keys;
    KeyOrder();
    SortSpec(found, KeyLe);
    ks := Sort(found, KeyLe);
  }

  // ---- loading -----------------------------------------------------------------------

  method ReadRows(entity: map<Key, Row>) returns (ents: map<Key, Entity>)
    ensures ents == EntitiesOf(entity, map[])
  {
    ents := map[];
    var left := entity.Keys;
    while left != {}
      invariant left <= entity.Keys
      invariant ents == map k | k in entity.Keys - left :: EntityAt(entity, map[], k)
      decreases left
    {
      var k :| k in left;
      ents := ents[k := Entity(entity[k], map[])];
      left := left - {k};
    }
  }

  lemma EntsWithVariant(entity: map<Key, Row>, variant: map<Fingerprint, VariantRow>, f: Fingerprint, row: VariantRow)
    requires f !in variant
    ensures EntitiesOf(entity, variant[f := row])
         == var ents := EntitiesOf(entity, variant);
            if row.key in ents then ents[row.key := ents[row.key].(variants := ents[row.key].variants[f := row.value])]
            else ents
  {
    var v' := variant[f := row];
    forall m | m in entity
      ensures EntityAt(entity, v', m).variants
           == if m == row.key then EntityAt(entity, variant, m).variants[f := row.value]
              else EntityAt(entity, variant, m).variants
    {
    }
  }

  method ReadVariants(entity: map<Key, Row>, variant: map<Fingerprint, VariantRow>) returns (ents: map<Key, Entity>)
    ensures ents == EntitiesOf(entity, variant)
  {
    ents := ReadRows(entity);
    var left := variant.Keys;
    ghost var done: map<Fingerprint, VariantRow> := map[];
    while left != {}
      invariant left <= variant.Keys && done == map f | f in variant && f !in left :: variant[f]
      invariant ents == EntitiesOf(entity, done)
      decreases left
    {
      var f :| f in left;
      var row := variant[f];
      EntsWithVariant(entity, done, f, row);
      if row.key in ents {
        ents := ents[row.key := ents[row.key].(variants := ents[row.key].variants[f := row.value])];
      }
      left, done := left - {f}, done[f := row];
    }
    assert done == variant;
  }

  /** `idx` holds what the entities `done` own. */
  ghost predicate Indexed(ents: map<Key, Entity>, done: set<Key>, idx: map<Fingerprint, Key>) {
    forall k, f :: (k in done && Owns(ents, k, f)) <==> f in idx && idx[f] == k
  }

  /** Entered under an entity's fingerprint and those of its variants. */
  method IndexEntity(idx: map<Fingerprint, Key>, k: Key, e: Entity) returns (r: map<Fingerprint, Key>)
    ensures r == idx + map f | f in {e.row.fp} + e.variants.Keys :: k
  {
    r := idx[e.row.fp := k];
    var left := e.variants.Keys;
    while left != {}
      invariant left <= e.variants.Keys
      invariant r == idx + map f | f in {e.row.fp} + (e.variants.Keys - left) :: k
      decreases left
    {
      var f :| f in left;
      r, left := r[f := k], left - {f};
    }
  }

  lemma IndexGrows(ents: map<Key, Entity>, done: set<Key>, idx: map<Fingerprint, Key>, k: Key)
    requires Disjoint(ents) && Indexed(ents, done, idx) && k in ents && k !in done
    ensures Indexed(ents, done + {k}, idx + map f | f in {ents[k].row.fp} + ents[k].variants.Keys :: k)
  {
    var r := idx + map f | f in {ents[k].row.fp} + ents[k].variants.Keys :: k;
    forall m, f ensures (m in done + {k} && Owns(ents, m, f)) <==> f in r && r[f] == m {
      assert (m in done && Owns(ents, m, f)) <==> f in idx && idx[f] == m;
      assert Owns(ents, k, f) <==> f in {ents[k].row.fp} + ents[k].variants.Keys;
    }
  }

  method BuildIndex(ents: map<Key, Entity>) returns (idx: map<Fingerprint, Key>)
    requires Disjoint(ents)
    ensures IsIndex(ents, idx)
  {
    idx := map[];
    var left := ents.Keys;
    while left != {}
      invariant left <= ents.Keys && Indexed(ents, ents.Keys - left, idx)
      decreases left
    {
      var k :| k in left;
      IndexGrows(ents, ents.Keys - left, idx, k);
      assert ents.Keys - left + {k} == ents.Keys - (left - {k});
      idx := IndexEntity(idx, k, ents[k]);
      left := left - {k};
    }
  }

  // ---- the vault ---------------------------------------------------------------------

  class LabelVault {
    const rules: Rules
    /** What the project may be asked to resolve. */
    ghost const used: iset<Spelling>
    var entity: map<Key, Row>
    var variant: map<Fingerprint, VariantRow>
    var cache: Option<Cache>

    ghost function State(): Project
      reads this
    {
      Project(entity, variant, cache)
    }

    ghost predicate Valid()
      reads this
    {
      Inv(rules, used, State())
    }

    constructor (rules: Rules, ghost used: iset<Spelling>)
      ensures State() == EMPTY && Valid() && this.rules == rules && this.used == used
    {
      this.rules, this.used := rules, used;
      entity, variant, cache := map[], map[], None;
    }

    method Load()
      requires Valid()
      modifies this`cache
      ensures Valid() && State() == Opened(old(State()))
    {
      if cache.Some? { return; }
      var ents := ReadVariants(entity, variant);
      var idx := BuildIndex(ents);
      IndexOfSpec(ents);
      IndexUnique(ents, idx, IndexOf(ents));
      cache := Some(Cache(ents, idx));
    }

    method SortedEntities() returns (ks: seq<Key>)
      requires Valid()
      modifies this`cache
      ensures Valid() && State() == Opened(old(State())) && Listing(ks, cache.value.ents.Keys)
    {
      Load();
      ks := ListKeys(cache.value.ents.Keys);
    }

    method EntityOf(k: Key) returns (e: Option<Entity>)
      requires Valid()
      modifies this`cache
      ensures Valid() && State() == Opened(old(State()))
      ensures e == if k in Ents(State()) then Some(Ents(State())[k]) else None
    {
      Load();
      e := if k in cache.value.ents then Some(cache.value.ents[k]) else None;
    }

    method ByFingerprint(f: Fingerprint) returns (k: Option<Key>)
      requires Valid()
      modifies this`cache
      ensures Valid() && State() == Opened(old(State()))
      ensures k.Some? ==> Owns(Ents(State()), k.value, f)
      ensures k.None? ==> forall m :: !Owns(Ents(State()), m, f)
    {
      Load();
      k := if f in cache.value.idx then Some(cache.value.idx[f]) else None;
    }

    /** `SELECT COALESCE(MAX(n), 0)` */
    method HighestNumber(category: string) returns (n: nat)
      ensures n == MaxN(entity.Keys, category)
    {
      n := 0;
      var left := entity.Keys;
      while left != {}
        invariant left <= entity.Keys
        invariant forall k | k in entity.Keys - left && k.category == category :: k.n <= n
        invariant n == 0 || Key(category, n) in entity
        decreases left
      {
        var k :| k in left;
        if k.category == category && k.n > n { n := k.n; }
        left := left - {k};
      }
      ghost var m := MaxN(entity.Keys, category);
      assert m != 0 ==> Key(category, m) in entity.Keys - left;
    }

    method AddEntity(category: string, f: Fingerprint, canonical: string, meta: Meta, origin: string) returns (k: Key)
      requires Valid()
      requires forall m :: !Owns(Ents(State()), m, f)
      requires forall n :: Home(rules, used, Key(category, n), Entity(Row(f, canonical, meta, 0, false, origin), map[]))
      modifies this
      ensures Valid() && k == Key(category, MaxN(old(entity.Keys), category) + 1)
      ensures State() == Labels.AddEntity(Opened(old(State())), k, Row(f, canonical, meta, 0, false, origin))
    {
      Load();
      ghost var p := State();
      var n := HighestNumber(category);
      k := Key(category, n + 1);
      var row := Row(f, canonical, meta, 0, false, origin);
      AddEntityInv(rules, used, p, k, row);
      entity := entity[k := row];
      cache := Some(Cache(cache.value.ents[k := Entity(row, map[])], cache.value.idx[f := k]));
    }

    /** Whether `k` may take the fingerprint `f` for a spelling. */
    ghost predicate MayAdd(k: Key, f: Fingerprint, surface: string)
      reads this
    {
      && k in Ents(State()) && Fits(rules, used, k, Ents(State())[k], f, surface)
      && forall m :: Owns(Ents(State()), m, f) ==> m == k
    }

    /** Works on any fingerprint; the invariant is kept if the entity may have it. */
    method AddVariant(k: Key, f: Fingerprint, surface: string)
      requires cache.Some? && k in cache.value.ents
      modifies this
      ensures State() == Labels.AddVariant(old(State()), k, f, surface)
      ensures old(Valid() && MayAdd(k, f, surface)) ==> Valid()
    {
      if Valid() && MayAdd(k, f, surface) { AddVariantInv(rules, used, State(), k, f, surface); }
      var e := cache.value.ents[k];
      if f == e.row.fp || f in e.variants { return; }
      if f !in variant {
        variant := variant[f := VariantRow(k, surface)];
      }
      cache := Some(Cache(cache.value.ents[k := e.(variants := e.variants[f := surface])], cache.value.idx[f := k]));
    }

    /** Works on any entity and value; the invariant is kept if the value's norm is the entity's. */
    method SetCanonical(k: Key, value: string, meta: Meta)
      requires Valid() && cache.Some? && k in cache.value.ents
      modifies this
      ensures State() == SetRow(old(State()), k, old(cache.value.ents[k].row).(value := value, meta := meta))
      ensures old(Home(rules, used, k, cache.value.ents[k].(row := cache.value.ents[k].row.(value := value, meta := meta))))
              ==> Valid()
    {
      ghost var p := State();
      var e := cache.value.ents[k];
      var row := e.row.(value := value, meta := meta);
      if Home(rules, used, k, e.(row := row)) { SetRowInv(rules, used, p, k, row); }
      cache := Some(cache.value.(ents := cache.value.ents[k := e.(row := row)]));
      entity := entity[k := entity[k].(value := value, meta := meta)];
    }

    method SetExcluded(k: Key, excluded: bool)
      requires Valid() && cache.Some? && k in cache.value.ents
      modifies this
      ensures Valid() && State() == SetRow(old(State()), k, old(cache.value.ents[k].row).(excluded := excluded))
    {
      ghost var p := State();
      var e := cache.value.ents[k];
      assert Home(rules, used, k, Ents(p)[k]);
      SameSpellingHome(rules, used, k, e, e.row.(excluded := excluded));
      SetRowInv(rules, used, p, k, e.row.(excluded := excluded));
      cache := Some(cache.value.(ents := cache.value.ents[k := e.(row := e.row.(excluded := excluded))]));
      entity := entity[k := entity[k].(excluded := excluded)];
    }

    /** Works on the table; a loaded cache follows. */
    method Bump(k: Key, count: int)
      requires Valid()
      modifies this
      ensures Valid() && State() == After(rules, old(State()), Call.Bump(k, count))
    {
      ghost var q := After(rules, State(), Call.Bump(k, count));
      BumpInv(rules, used, State(), k, count);
      if k in entity {
        entity := entity[k := entity[k].(occurrences := entity[k].occurrences + count)];
      }
      if cache.Some? && k in cache.value.ents {
        var e := cache.value.ents[k];
        var row := e.row.(occurrences := e.row.occurrences + count);
        cache := Some(cache.value.(ents := cache.value.ents[k := e.(row := row)]));
      }
      assert State() == q;
    }

    method DeleteEntity(k: Key)
      requires Valid()
      modifies this
      ensures Valid() && State() == Delete(old(State()), k)
    {
      DeleteInv(rules, used, State(), k);
      entity := entity - {k};
      variant := map f | f in variant && variant[f].key != k :: variant[f];
      cache := None;
    }

    method Lock()
      requires Valid()
      modifies this`cache
      ensures Valid() && State() == old(State()).(cache := None)
    {
      cache := None;
    }
  }
}
