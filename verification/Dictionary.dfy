/** The surface dictionary of the detector and its version check (`Detector._dictionary`, app/desktop/engine.py),
    and which calls of the anonymizer invalidate it. */
module Dictionary {
  import opened Entities
  import opened Labels
  import opened LabelStore
  import opened Sorting

  /** `str.strip`, `str.casefold` and `str.isdigit`, taken as given. */
  datatype Letters = Letters(strip: string -> string, fold: string -> string, digits: string -> bool)

  /** Which entity a folded surface stands for, and the version it was built at. */
  datatype Dict = Dict(version: nat, view: map<string, Key>)

  predicate Usable(l: Letters, s: string) {
    (|s| >= 3 && !l.digits(s)) || (l.digits(s) && |s| >= 6)
  }

  function Spellings(e: Entity): set<string> { {e.row.value} + set f | f in e.variants :: e.variants[f] }

  function Folds(l: Letters, e: Entity): set<string> {
    set s | s in Spellings(e) && Usable(l, l.strip(s)) :: l.fold(l.strip(s))
  }

  /** The first entity in order keeps a surface. */
  function ViewOf(l: Letters, ents: map<Key, Entity>, ks: seq<Key>): map<string, Key>
    requires forall k | k in ks :: k in ents
  {
    if ks == [] then map[]
    else
      var v, k := ViewOf(l, ents, ks[..|ks| - 1]), ks[|ks| - 1];
      v + map s | s in Folds(l, ents[k]) && s !in v :: k
  }

  function Weight(ents: map<Key, Entity>, ks: seq<Key>): nat
    requires forall k | k in ks :: k in ents
  {
    if ks == [] then 0 else Weight(ents, ks[..|ks| - 1]) + 1 + |ents[ks[|ks| - 1]].variants|
  }

  function Version(ents: map<Key, Entity>, ks: seq<Key>): nat
    requires forall k | k in ks :: k in ents
  {
    Weight(ents, ks) * 7 + |ks|
  }

  lemma {:induction false} ViewMembers(l: Letters, ents: map<Key, Entity>, ks: seq<Key>, s: string)
    requires forall k | k in ks :: k in ents
    ensures s in ViewOf(l, ents, ks) <==> exists k | k in ks :: s in Folds(l, ents[k])
  {
    if ks != [] {
      var init, last := ks[..|ks| - 1], ks[|ks| - 1];
      ViewMembers(l, ents, init, s);
      assert ks == init + [last];
    }
  }

  ghost predicate FirstWith(l: Letters, ents: map<Key, Entity>, ks: seq<Key>, s: string, i: nat)
    requires i < |ks| && forall k | k in ks :: k in ents
  {
    s in Folds(l, ents[ks[i]]) && forall j | 0 <= j < i :: s !in Folds(l, ents[ks[j]])
  }

  lemma {:induction false} ViewFirst(l: Letters, ents: map<Key, Entity>, ks: seq<Key>, s: string) returns (i: nat)
    requires (forall k | k in ks :: k in ents) && s in ViewOf(l, ents, ks)
    ensures i < |ks| && ViewOf(l, ents, ks)[s] == ks[i] && FirstWith(l, ents, ks, s, i)
  {
    var init, last := ks[..|ks| - 1], ks[|ks| - 1];
    if s in ViewOf(l, ents, init) {
      i := ViewFirst(l, ents, init, s);
      assert forall j | 0 <= j <= i :: ks[j] == init[j];
    } else {
      ViewMembers(l, ents, init, s);
      i := |ks| - 1;
      assert forall j | 0 <= j < i :: ks[j] == init[j] && init[j] in init;
    }
  }

  /** A surface stands for the first entity in order that has it. */
  lemma ViewSpec(l: Letters, ents: map<Key, Entity>, ks: seq<Key>, s: string)
    requires forall k | k in ks :: k in ents
    ensures s in ViewOf(l, ents, ks) <==> exists k | k in ks :: s in Folds(l, ents[k])
    ensures s in ViewOf(l, ents, ks) ==>
              exists i: nat | i < |ks| :: ViewOf(l, ents, ks)[s] == ks[i] && FirstWith(l, ents, ks, s, i)
  {
    ViewMembers(l, ents, ks, s);
    if s in ViewOf(l, ents, ks) {
      var i := ViewFirst(l, ents, ks, s);
    }
  }

  // ---- a listing for every set of keys -----------------------------------------------

  ghost function Enumerate(keys: set<Key>): (ks: seq<Key>)
    ensures multiset(ks) == multiset(keys)
  {
    if keys == {} then []
    else
      var k :| k in keys;
      assert keys == (keys - {k}) + {k};
      Enumerate(keys - {k}) + [k]
  }

  ghost function ListingOf(keys: set<Key>): (ks: seq<Key>)
    ensures Listing(ks, keys) && forall k :: k in ks <==> k in keys
  {
    KeyOrder();
    SortSpec(Enumerate(keys), KeyLe);
    ListingMembers(Sort(Enumerate(keys), KeyLe), keys);
    Sort(Enumerate(keys), KeyLe)
  }

  ghost function VersionNow(ents: map<Key, Entity>): nat { Version(ents, ListingOf(ents.Keys)) }

  ghost function ViewNow(l: Letters, ents: map<Key, Entity>): map<string, Key> { ViewOf(l, ents, ListingOf(ents.Keys)) }

  // ---- which values are found --------------------------------------------------------

  predicate IsWritten(e: Entity, v: string) { v == e.row.value || exists f :: f in e.variants && e.variants[f] == v }

  /** The entity is written `v` somewhere, which is found under `s`: at least six characters for a number, at least
      three for anything else. */
  predicate FoundUnder(l: Letters, e: Entity, v: string, s: string) {
    IsWritten(e, v) && l.fold(l.strip(v)) == s && |l.strip(v)| >= if l.digits(l.strip(v)) then 6 else 3
  }

  lemma FoldsAre(l: Letters, e: Entity, s: string)
    ensures s in Folds(l, e) <==> exists v :: FoundUnder(l, e, v, s)
  {
    if s in Folds(l, e) {
      var v :| v in Spellings(e) && Usable(l, l.strip(v)) && l.fold(l.strip(v)) == s;
      assert FoundUnder(l, e, v, s);
    }
    if v :| FoundUnder(l, e, v, s) { assert v in Spellings(e); }
  }

  /** Categories in order, and within a category the numbers. */
  predicate NotBehind(k: Key, m: Key) {
    if k.category == m.category then k.n <= m.n else StringLe(k.category, m.category)
  }

  /** Detection finds exactly the values that are long enough, and of several entities with the same surface the
      first by category and number. */
  lemma ValuesFound(l: Letters, ents: map<Key, Entity>, s: string)
    ensures s in ViewNow(l, ents) <==> exists k, v :: k in ents && FoundUnder(l, ents[k], v, s)
    ensures s in ViewNow(l, ents) ==>
              var k := ViewNow(l, ents)[s];
              && k in ents && (exists v :: FoundUnder(l, ents[k], v, s))
              && forall m, v | m in ents && FoundUnder(l, ents[m], v, s) :: NotBehind(k, m)
  {
    var ks := ListingOf(ents.Keys);
    ViewSpec(l, ents, ks, s);
    forall k | k in ents ensures s in Folds(l, ents[k]) <==> exists v :: FoundUnder(l, ents[k], v, s) {
      FoldsAre(l, ents[k], s);
    }
    if s in ViewNow(l, ents) {
      var i := ViewFirst(l, ents, ks, s);
      forall m, v | m in ents && FoundUnder(l, ents[m], v, s) ensures NotBehind(ks[i], m) {
        FoldsAre(l, ents[m], s);
        var j :| 0 <= j < |ks| && ks[j] == m;
        assert j >= i && KeyLe(ks[i], ks[j]) by { if j == i { KeyOrder(); } }
      }
    }
  }

  // ---- an equal version means an equal dictionary ------------------------------------

  /** Only variants were added. */
  ghost predicate Grown(base: map<Key, Entity>, ents: map<Key, Entity>) {
    base.Keys == ents.Keys && forall k | k in base :: GrownAt(base[k], ents[k])
  }

  predicate GrownAt(a: Entity, b: Entity) {
    a.row.value == b.row.value && forall f | f in a.variants :: f in b.variants && b.variants[f] == a.variants[f]
  }

  lemma GrownTrans(a: map<Key, Entity>, b: map<Key, Entity>, c: map<Key, Entity>)
    requires Grown(a, b) && Grown(b, c)
    ensures Grown(a, c)
  {
    forall k | k in a ensures GrownAt(a[k], c[k]) { assert GrownAt(a[k], b[k]) && GrownAt(b[k], c[k]); }
  }

  lemma SubsetSize<T>(a: set<T>, b: set<T>)
    requires a <= b
    ensures |a| <= |b| && (|a| == |b| ==> a == b)
  {
    assert b == a + (b - a);
  }

  lemma GrownSize(a: Entity, b: Entity)
    requires GrownAt(a, b)
    ensures |a.variants| <= |b.variants|
    ensures |a.variants| == |b.variants| ==> a.variants == b.variants
  {
    SubsetSize(a.variants.Keys, b.variants.Keys);
    assert |a.variants| == |a.variants.Keys| && |b.variants| == |b.variants.Keys|;
  }

  lemma {:induction false} GrownWeight(base: map<Key, Entity>, ents: map<Key, Entity>, ks: seq<Key>)
    requires Grown(base, ents) && forall k | k in ks :: k in ents
    ensures Weight(base, ks) <= Weight(ents, ks)
    ensures Weight(base, ks) == Weight(ents, ks) ==> forall k | k in ks :: base[k].variants == ents[k].variants
  {
    if ks != [] {
      var init, last := ks[..|ks| - 1], ks[|ks| - 1];
      GrownWeight(base, ents, init);
      GrownSize(base[last], ents[last]);
      assert ks == init + [last];
    }
  }

  lemma {:induction false} SameView(l: Letters, a: map<Key, Entity>, b: map<Key, Entity>, ks: seq<Key>)
    requires forall k | k in ks :: k in a && k in b && a[k].row.value == b[k].row.value && a[k].variants == b[k].variants
    ensures ViewOf(l, a, ks) == ViewOf(l, b, ks)
  {
    if ks != [] {
      SameView(l, a, b, ks[..|ks| - 1]);
      assert ks[|ks| - 1] in ks;
    }
  }

  /** Where only variants were added, the version tells whether any was. */
  lemma VersionDecides(l: Letters, base: map<Key, Entity>, ents: map<Key, Entity>)
    requires Grown(base, ents) && VersionNow(base) == VersionNow(ents)
    ensures ViewNow(l, base) == ViewNow(l, ents)
  {
    var ks := ListingOf(ents.Keys);
    GrownWeight(base, ents, ks);
    forall k | k in ks ensures base[k].row.value == ents[k].row.value { assert GrownAt(base[k], ents[k]); }
    SameView(l, base, ents, ks);
  }

  /** The remembered dictionary was built from entities that have only gained variants since. */
  ghost predicate Remembers(l: Letters, dict: Option<Dict>, ents: map<Key, Entity>) {
    dict.Some? ==>
      exists base :: Grown(base, ents) && dict.value == Dict(VersionNow(base), ViewNow(l, base))
  }

  lemma StillRemembers(l: Letters, dict: Option<Dict>, a: map<Key, Entity>, b: map<Key, Entity>)
    requires Remembers(l, dict, a) && Grown(a, b)
    ensures Remembers(l, dict, b)
  {
    if dict.Some? {
      var base :| Grown(base, a) && dict.value == Dict(VersionNow(base), ViewNow(l, base));
      GrownTrans(base, a, b);
    }
  }

  /** A dictionary whose version matches is the current one. */
  lemma MatchIsCurrent(l: Letters, dict: Dict, ents: map<Key, Entity>)
    requires Remembers(l, Some(dict), ents) && dict.version == VersionNow(ents)
    ensures dict.view == ViewNow(l, ents)
  {
    var base :| Grown(base, ents) && dict == Dict(VersionNow(base), ViewNow(l, base));
    VersionDecides(l, base, ents);
  }

  lemma GrownRefl(ents: map<Key, Entity>)
    ensures Grown(ents, ents)
  {
  }

  // ---- runs --------------------------------------------------------------------------

  ghost predicate Known(r: Rules, p: Project, category: string, surface: string) {
    exists k :: Owns(Ents(p), k, NormFp(r, category, surface))
  }

  lemma IndexedIsOwned(ents: map<Key, Entity>, idx: map<Fingerprint, Key>, f: Fingerprint)
    requires IsIndex(ents, idx)
    ensures f in idx ==> exists k :: Owns(ents, k, f)
  {
    if f in idx { assert Owns(ents, idx[f], f); }
  }

  lemma KnownAnswer(r: Rules, used: iset<Spelling>, p: Project, category: string, surface: string, origin: string, k: Key)
    requires Inv(r, used, p) && Owns(Ents(p), k, NormFp(r, category, surface))
    ensures ResolveIn(r, Opened(p), category, surface, origin) == (ResolveKnown(Opened(p), k, category, surface), k)
    ensures k.category == category && Known(r, p, category, surface)
  {
    OpenedInv(r, used, p);
    OwnedCategory(r, used, Ents(p), k, NormFp(r, category, surface));
  }

  /** Which calls drop the dictionary: every resolution that does more than add a spelling, manual additions,
      and the server's handlers for exclusion and deletion. */
  ghost predicate Invalidates(r: Rules, p: Project, call: Call) {
    match call
    case Resolve(category, surface, _) => !Known(r, p, category, surface)
    case Manual(_, _, _) => true
    case SetExcluded(_, _) => true
    case DeleteEntity(_) => true
    case _ => false
  }

  /** `_dictionary`: rebuilt unless the version matches. Detection is the `Read` of a run. */
  ghost function Refreshed(l: Letters, dict: Option<Dict>, ents: map<Key, Entity>): Dict {
    if dict.Some? && dict.value.version == VersionNow(ents) then dict.value
    else Dict(VersionNow(ents), ViewNow(l, ents))
  }

  ghost function DictAfter(l: Letters, r: Rules, p: Project, dict: Option<Dict>, call: Call): Option<Dict> {
    if Invalidates(r, p, call) then None
    else if call.Read? then Some(Refreshed(l, dict, Ents(p)))
    else dict
  }

  ghost predicate DictRun(l: Letters, r: Rules, ps: seq<Project>, ds: seq<Option<Dict>>, calls: seq<Call>) {
    && Run(r, ps, calls) && |ds| == |ps| && ds[0] == None
    && forall i | 0 <= i < |calls| :: ds[i + 1] == DictAfter(l, r, ps[i], ds[i], calls[i])
  }

  lemma AddVariantGrows(p: Project, k: Key, f: Fingerprint, s: string)
    requires CacheCurrent(p) && p.cache.Some? && k in Ents(p) && CacheCurrent(AddVariant(p, k, f, s))
    ensures Grown(Ents(p), Ents(AddVariant(p, k, f, s)))
  {
  }

  lemma KnownGrows(r: Rules, used: iset<Spelling>, p: Project, k: Key, surface: string)
    requires Inv(r, used, p) && p.cache.Some? && NoClashAmong(r, used) && PeopleUnmarked(r)
    requires Owns(Ents(p), k, NormFp(r, k.category, surface)) && Spelling(k.category, surface) in used
    ensures Grown(Ents(p), Ents(ResolveKnown(p, k, k.category, surface)))
  {
    KnownInv(r, used, p, k, surface);
    if IsSurfaceOf(Ents(p)[k], surface) {
      GrownRefl(Ents(p));
    } else {
      AddVariantGrows(p, k, SurfaceFp(k.category, surface), surface);
    }
  }

  lemma QuietCallGrows(r: Rules, used: iset<Spelling>, p: Project, call: Call)
    requires Inv(r, used, p) && NoClashAmong(r, used) && PeopleUnmarked(r) && CallIn(r, used, call) && !Invalidates(r, p, call)
    ensures Grown(Ents(p), Ents(After(r, p, call)))
  {
    OpenedInv(r, used, p);
    match call
    case Resolve(category, surface, origin) =>
      var q, f := Opened(p), NormFp(r, category, surface);
      var k :| Owns(Ents(p), k, f);
      OwnedCategory(r, used, Ents(p), k, f);
      assert f in q.cache.value.idx && q.cache.value.idx[f] == k;
      KnownGrows(r, used, q, k, surface);
    case Bump(k, count) =>
    case Read =>
    case Lock =>
    case _ =>
  }

  lemma {:induction false} RunRemembers(l: Letters, r: Rules, used: iset<Spelling>, ps: seq<Project>, ds: seq<Option<Dict>>, calls: seq<Call>, i: nat)
    requires DictRun(l, r, ps, ds, calls) && CallsIn(r, used, calls) && NoClashAmong(r, used) && PeopleUnmarked(r)
    requires i <= |calls|
    ensures Remembers(l, ds[i], Ents(ps[i]))
  {
    if i > 0 {
      RunRemembers(l, r, used, ps, ds, calls, i - 1);
      RunInv(r, used, ps, calls, i - 1);
      StepRemembers(l, r, used, ps[i - 1], ds[i - 1], calls[i - 1]);
    }
  }

  lemma StepRemembers(l: Letters, r: Rules, used: iset<Spelling>, p: Project, dict: Option<Dict>, call: Call)
    requires Inv(r, used, p) && NoClashAmong(r, used) && PeopleUnmarked(r) && CallIn(r, used, call) && Remembers(l, dict, Ents(p))
    ensures Remembers(l, DictAfter(l, r, p, dict, call), Ents(After(r, p, call)))
  {
    if !Invalidates(r, p, call) {
      QuietCallGrows(r, used, p, call);
      RefreshRemembers(l, dict, Ents(p));
      StillRemembers(l, DictAfter(l, r, p, dict, call), Ents(p), Ents(After(r, p, call)));
    }
  }

  lemma RefreshRemembers(l: Letters, dict: Option<Dict>, ents: map<Key, Entity>)
    requires Remembers(l, dict, ents)
    ensures Remembers(l, Some(Refreshed(l, dict, ents)), ents)
    ensures Refreshed(l, dict, ents) == Dict(VersionNow(ents), ViewNow(l, ents))
  {
    GrownRefl(ents);
    if dict.Some? && dict.value.version == VersionNow(ents) { MatchIsCurrent(l, dict.value, ents); }
  }

  /** In every run, deletions included, detection works with the dictionary of the current entities. */
  lemma NeverStale(l: Letters, r: Rules, used: iset<Spelling>, ps: seq<Project>, ds: seq<Option<Dict>>, calls: seq<Call>, i: nat)
    requires DictRun(l, r, ps, ds, calls) && CallsIn(r, used, calls) && NoClashAmong(r, used) && PeopleUnmarked(r)
    requires i < |calls| && calls[i].Read?
    ensures ds[i + 1] == Some(Dict(VersionNow(Ents(ps[i])), ViewNow(l, Ents(ps[i]))))
  {
    RunRemembers(l, r, used, ps, ds, calls, i);
    RefreshRemembers(l, ds[i], Ents(ps[i]));
  }

  // ---- why deletion has to invalidate ------------------------------------------------

  lemma {:induction false} EvenWeight(ents: map<Key, Entity>, ks: seq<Key>, v: nat)
    requires forall k | k in ks :: k in ents && |ents[k].variants| == v
    ensures Weight(ents, ks) == |ks| * (1 + v)
  {
    if ks != [] { EvenWeight(ents, ks[..|ks| - 1], v); }
  }

  /** `n` entities with `v` variants each have version 8n + 7nv. */
  lemma EvenVersion(ents: map<Key, Entity>, n: nat, v: nat)
    requires |ents.Keys| == n && forall k | k in ents :: |ents[k].variants| == v
    ensures VersionNow(ents) == 8 * n + 7 * (n * v)
  {
    var ks := ListingOf(ents.Keys);
    assert |ks| == |multiset(ks)| == |multiset(ents.Keys)| == n;
    EvenWeight(ents, ks, v);
    assert n * (1 + v) == n + n * v;
  }

  /** Eight values get entities, the dictionary is read, seven entities are deleted, and the remaining one
      gets eight spellings. */
  function CollidingCall(c: string, values: seq<string>, spellings: seq<string>, i: nat): Call
    requires |values| == |spellings| == 8 && i < 24
  {
    if i < 8 then Resolve(c, values[i], "auto")
    else if i == 8 then Read
    else if i < 16 then DeleteEntity(Key(c, i - 7))
    else Resolve(c, spellings[i - 16], "auto")
  }

  ghost predicate CollidingRun(r: Rules, ps: seq<Project>, calls: seq<Call>, c: string, values: seq<string>,
                               spellings: seq<string>)
  {
    && Run(r, ps, calls) && |calls| == 24 && |values| == |spellings| == 8
    && forall i | 0 <= i < 24 :: calls[i] == CollidingCall(c, values, spellings, i)
  }

  /** Eight values that differ, and eight more ways to write the first one. */
  predicate Colliding(r: Rules, c: string, values: seq<string>, spellings: seq<string>) {
    && |values| == |spellings| == 8 && c != PERSON
    && (forall i, j | 0 <= i < j < 8 :: r.norm(c, values[i]) != r.norm(c, values[j]))
    && (forall i | 0 <= i < 8 :: r.norm(c, spellings[i]) == r.norm(c, values[0]) && spellings[i] != values[0])
    && (forall i, j | 0 <= i < j < 8 :: spellings[i] != spellings[j])
  }

  lemma HighestIs(p: Project, c: string, n: nat)
    requires forall k :: k in Ents(p) <==> k.category == c && 1 <= k.n <= n
    ensures MaxN(p.entity.Keys, c) == n
  {
    assert n == 0 || Key(c, n) in Ents(p);
  }

  /** A value nobody owns gets the next number. */
  lemma FreshEnts(r: Rules, used: iset<Spelling>, p: Project, c: string, v: string, n: nat)
    requires Inv(r, used, p) && c != PERSON && !Known(r, p, c, v)
    requires forall k :: k in Ents(p) <==> k.category == c && 1 <= k.n <= n
    ensures Ents(After(r, p, Resolve(c, v, "auto"))) == Ents(p)[Key(c, n + 1) := Entity(FreshRow(r, c, v, "auto"), map[])]
  {
    var q, k := Opened(p), Key(c, n + 1);
    HighestIs(p, c, n);
    assert CacheCurrent(q) && NormFp(r, c, v) !in q.cache.value.idx by {
      OpenedInv(r, used, p);
      IndexedIsOwned(Ents(p), q.cache.value.idx, NormFp(r, c, v));
    }
    FreshIs(r, q, c, v, "auto", k);
    EntsAddEntity(q, k, FreshRow(r, c, v, "auto"));
  }

  /** A spelling not seen before becomes a variant of the value's entity. */
  lemma KnownEnts(r: Rules, used: iset<Spelling>, p: Project, k: Key, w: string)
    requires Inv(r, used, p) && NoClashAmong(r, used) && PeopleUnmarked(r) && Spelling(k.category, w) in used
    requires Owns(Ents(p), k, NormFp(r, k.category, w)) && !IsSurfaceOf(Ents(p)[k], w)
    requires !Has(Ents(p)[k], SurfaceFp(k.category, w))
    ensures var e := Ents(p)[k];
            Ents(After(r, p, Resolve(k.category, w, "auto")))
            == Ents(p)[k := e.(variants := e.variants[SurfaceFp(k.category, w) := w])]
  {
    var f, q := SurfaceFp(k.category, w), Opened(p);
    KnownAnswer(r, used, p, k.category, w, "auto", k);
    OpenedInv(r, used, p);
    forall m | Owns(Ents(p), m, f) ensures m == k { NoSteal(r, used, Ents(p), k, w, m); }
    NotInTable(q, k, f);
    EntsAddVariant(q, k, f, w);
  }

  ghost predicate Built(r: Rules, p: Project, c: string, values: seq<string>, n: nat)
    requires n <= |values|
  {
    && (forall k :: k in Ents(p) <==> k.category == c && 1 <= k.n <= n)
    && forall m: nat | 1 <= m <= n :: Ents(p)[Key(c, m)] == Entity(FreshRow(r, c, values[m - 1], "auto"), map[])
  }

  lemma BuildOne(r: Rules, used: iset<Spelling>, p: Project, c: string, values: seq<string>, n: nat)
    requires n < |values| && Inv(r, used, p) && Built(r, p, c, values, n) && c != PERSON
    requires forall i, j | 0 <= i < j < |values| :: r.norm(c, values[i]) != r.norm(c, values[j])
    ensures Built(r, After(r, p, Resolve(c, values[n], "auto")), c, values, n + 1)
  {
    NotBuilt(r, p, c, values, n);
    FreshEnts(r, used, p, c, values[n], n);
    BuiltMore(r, p, After(r, p, Resolve(c, values[n], "auto")), c, values, n);
  }

  lemma NotBuilt(r: Rules, p: Project, c: string, values: seq<string>, n: nat)
    requires n < |values| && Built(r, p, c, values, n)
    requires forall i, j | 0 <= i < j < |values| :: r.norm(c, values[i]) != r.norm(c, values[j])
    ensures !Known(r, p, c, values[n])
  {
    forall k ensures !Owns(Ents(p), k, NormFp(r, c, values[n])) {
      if k in Ents(p) {
        assert k == Key(c, k.n) && Ents(p)[k] == Entity(FreshRow(r, c, values[k.n - 1], "auto"), map[]);
        assert r.norm(c, values[k.n - 1]) != r.norm(c, values[n]);
      }
    }
  }

  lemma BuiltMore(r: Rules, p: Project, q: Project, c: string, values: seq<string>, n: nat)
    requires n < |values| && Built(r, p, c, values, n)
    requires Ents(q) == Ents(p)[Key(c, n + 1) := Entity(FreshRow(r, c, values[n], "auto"), map[])]
    ensures Built(r, q, c, values, n + 1)
  {
  }

  lemma {:induction false} BuildEight(r: Rules, used: iset<Spelling>, ps: seq<Project>, calls: seq<Call>, c: string,
                                      values: seq<string>, spellings: seq<string>, i: nat)
    requires CollidingRun(r, ps, calls, c, values, spellings) && Colliding(r, c, values, spellings) && i <= 8
    requires CallsIn(r, used, calls) && NoClashAmong(r, used) && PeopleUnmarked(r)
    ensures Built(r, ps[i], c, values, i)
  {
    if i > 0 {
      BuildEight(r, used, ps, calls, c, values, spellings, i - 1);
      RunInv(r, used, ps, calls, i - 1);
      assert calls[i - 1] == CollidingCall(c, values, spellings, i - 1);
      BuildOne(r, used, ps[i - 1], c, values, i - 1);
    }
  }

  /** The first entity as it was, and those numbered from `from` on. */
  ghost predicate Shrunk(r: Rules, p: Project, c: string, first: string, from: nat) {
    && (forall k :: k in Ents(p) <==> k.category == c && (k.n == 1 || from <= k.n <= 8))
    && Ents(p)[Key(c, 1)] == Entity(FreshRow(r, c, first, "auto"), map[])
  }

  lemma {:induction false} DeleteSeven(r: Rules, used: iset<Spelling>, ps: seq<Project>, calls: seq<Call>, c: string,
                                       values: seq<string>, spellings: seq<string>, i: nat)
    requires CollidingRun(r, ps, calls, c, values, spellings) && Colliding(r, c, values, spellings) && 9 <= i <= 16
    requires CallsIn(r, used, calls) && NoClashAmong(r, used) && PeopleUnmarked(r)
    ensures Shrunk(r, ps[i], c, values[0], i - 7)
  {
    RunInv(r, used, ps, calls, i - 1);
    assert calls[i - 1] == CollidingCall(c, values, spellings, i - 1);
    if i == 9 {
      BuildEight(r, used, ps, calls, c, values, spellings, 8);
      OpenedInv(r, used, ps[8]);
    } else {
      DeleteSeven(r, used, ps, calls, c, values, spellings, i - 1);
      DeleteOne(r, used, ps[i - 1], c, values[0], i - 8);
    }
  }

  lemma DeleteOne(r: Rules, used: iset<Spelling>, p: Project, c: string, first: string, n: nat)
    requires Inv(r, used, p) && Shrunk(r, p, c, first, n) && n > 1
    ensures Shrunk(r, After(r, p, DeleteEntity(Key(c, n))), c, first, n + 1)
  {
    DeleteInv(r, used, p, Key(c, n));
  }

  /** One entity with `n` spellings of its own. */
  ghost predicate Spelt(r: Rules, p: Project, c: string, first: string, spellings: seq<string>, n: nat)
    requires n <= |spellings|
  {
    && Ents(p).Keys == {Key(c, 1)} && Ents(p)[Key(c, 1)].row == FreshRow(r, c, first, "auto")
    && |Ents(p)[Key(c, 1)].variants| == n
    && forall f | f in Ents(p)[Key(c, 1)].variants ::
         exists j | 0 <= j < n :: f == SurfaceFp(c, spellings[j]) && Ents(p)[Key(c, 1)].variants[f] == spellings[j]
  }

  lemma SpellOne(r: Rules, used: iset<Spelling>, p: Project, c: string, values: seq<string>, spellings: seq<string>, n: nat)
    requires Colliding(r, c, values, spellings) && n < 8 && Inv(r, used, p) && Spelt(r, p, c, values[0], spellings, n)
    requires NoClashAmong(r, used) && PeopleUnmarked(r) && Spelling(c, spellings[n]) in used
    requires forall i | 0 <= i < 8 :: SurfaceFp(c, spellings[i]) != NormFp(r, c, values[0])
    ensures Spelt(r, After(r, p, Resolve(c, spellings[n], "auto")), c, values[0], spellings, n + 1)
  {
    var k, w := Key(c, 1), spellings[n];
    NotSpelt(r, p, c, values, spellings, n);
    KnownEnts(r, used, p, k, w);
    SpeltMore(r, p, After(r, p, Resolve(c, w, "auto")), c, values[0], spellings, n);
  }

  lemma SpeltMore(r: Rules, p: Project, q: Project, c: string, first: string, spellings: seq<string>, n: nat)
    requires n < |spellings| && Spelt(r, p, c, first, spellings, n)
    requires var k, f := Key(c, 1), SurfaceFp(c, spellings[n]);
             var e := Ents(p)[k];
             f !in e.variants && Ents(q) == Ents(p)[k := e.(variants := e.variants[f := spellings[n]])]
    ensures Spelt(r, q, c, first, spellings, n + 1)
  {
  }

  lemma NotSpelt(r: Rules, p: Project, c: string, values: seq<string>, spellings: seq<string>, n: nat)
    requires Colliding(r, c, values, spellings) && n < 8 && Spelt(r, p, c, values[0], spellings, n)
    requires SurfaceFp(c, spellings[n]) != NormFp(r, c, values[0])
    ensures var k, w := Key(c, 1), spellings[n];
            && Owns(Ents(p), k, NormFp(r, c, w)) && !IsSurfaceOf(Ents(p)[k], w) && !Has(Ents(p)[k], SurfaceFp(c, w))
  {
    var w, e := spellings[n], Ents(p)[Key(c, 1)];
    if SurfaceFp(c, w) in e.variants {
      var j :| 0 <= j < n && SurfaceFp(c, w) == SurfaceFp(c, spellings[j]);
      MarkedCancel(w, spellings[j]);
    }
  }

  lemma {:induction false} SpellEight(r: Rules, used: iset<Spelling>, ps: seq<Project>, calls: seq<Call>, c: string,
                                      values: seq<string>, spellings: seq<string>, i: nat)
    requires CollidingRun(r, ps, calls, c, values, spellings) && Colliding(r, c, values, spellings) && 16 <= i <= 24
    requires CallsIn(r, used, calls) && NoClashAmong(r, used) && PeopleUnmarked(r)
    requires forall i | 0 <= i < 8 :: SurfaceFp(c, spellings[i]) != NormFp(r, c, values[0])
    ensures Spelt(r, ps[i], c, values[0], spellings, i - 16)
  {
    if i == 16 {
      DeleteSeven(r, used, ps, calls, c, values, spellings, 16);
      assert Ents(ps[16]).Keys == {Key(c, 1)};
    } else {
      SpellEight(r, used, ps, calls, c, values, spellings, i - 1);
      RunInv(r, used, ps, calls, i - 1);
      assert calls[i - 1] == CollidingCall(c, values, spellings, i - 1) && CallIn(r, used, calls[i - 1]);
      SpellOne(r, used, ps[i - 1], c, values, spellings, i - 17);
    }
  }

  lemma {:induction false} FirstKeys(c: string, n: nat) returns (keys: set<Key>)
    ensures |keys| == n && forall k :: k in keys <==> k.category == c && 1 <= k.n <= n
  {
    if n == 0 {
      keys := {};
    } else {
      keys := FirstKeys(c, n - 1);
      keys := keys + {Key(c, n)};
    }
  }

  /** In this run the version is the same before the deletions and at the end. A dictionary that was kept
      although entities were deleted would be taken for current, and still find the deleted ones. */
  lemma VersionsCollide(l: Letters, r: Rules, used: iset<Spelling>, ps: seq<Project>, calls: seq<Call>, c: string,
                        values: seq<string>, spellings: seq<string>)
    requires CollidingRun(r, ps, calls, c, values, spellings) && Colliding(r, c, values, spellings)
    requires CallsIn(r, used, calls) && NoClashAmong(r, used) && PeopleUnmarked(r)
    requires forall i | 0 <= i < 8 :: SurfaceFp(c, spellings[i]) != NormFp(r, c, values[0])
    ensures VersionNow(Ents(ps[8])) == VersionNow(Ents(ps[24])) && Ents(ps[24]).Keys == {Key(c, 1)}
    ensures var kept := Dict(VersionNow(Ents(ps[8])), ViewNow(l, Ents(ps[8])));
            && Refreshed(l, Some(kept), Ents(ps[24])) == kept
            && forall i | 1 <= i < 8 && Usable(l, l.strip(values[i])) :: l.fold(l.strip(values[i])) in kept.view
  {
    BuildEight(r, used, ps, calls, c, values, spellings, 8);
    SpellEight(r, used, ps, calls, c, values, spellings, 24);
    BuiltVersion(r, ps[8], c, values, 8);
    SpeltVersion(r, ps[24], c, values[0], spellings, 8);
    forall i | 1 <= i < 8 && Usable(l, l.strip(values[i]))
      ensures l.fold(l.strip(values[i])) in ViewNow(l, Ents(ps[8]))
    {
      BuiltView(l, r, ps[8], c, values, 8, i);
    }
  }

  lemma BuiltVersion(r: Rules, p: Project, c: string, values: seq<string>, n: nat)
    requires n <= |values| && Built(r, p, c, values, n)
    ensures VersionNow(Ents(p)) == 8 * n
  {
    var keys := FirstKeys(c, n);
    assert Ents(p).Keys == keys;
    forall k | k in Ents(p) ensures |Ents(p)[k].variants| == 0 { assert k == Key(c, k.n); }
    EvenVersion(Ents(p), n, 0);
  }

  lemma SpeltVersion(r: Rules, p: Project, c: string, first: string, spellings: seq<string>, n: nat)
    requires n <= |spellings| && Spelt(r, p, c, first, spellings, n)
    ensures VersionNow(Ents(p)) == 8 + 7 * n
  {
    EvenVersion(Ents(p), 1, n);
  }

  lemma BuiltView(l: Letters, r: Rules, p: Project, c: string, values: seq<string>, n: nat, i: nat)
    requires n <= |values| && Built(r, p, c, values, n) && i < n && Usable(l, l.strip(values[i]))
    ensures l.fold(l.strip(values[i])) in ViewNow(l, Ents(p))
  {
    var ents := Ents(p);
    var ks := ListingOf(ents.Keys);
    assert Key(c, i + 1) in ks && values[i] in Spellings(ents[Key(c, i + 1)]);
    ViewSpec(l, ents, ks, l.fold(l.strip(values[i])));
  }
}
