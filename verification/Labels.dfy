/** The project label vault on values. */
module Labels {
  // Entity resolution (`_resolve` in app/desktop/engine.py) over the entity and variant tables, the entity cache
  // and the fingerprint index (app/desktop/vaultdb.py)

  import opened Entities

  const PERSON := "PERSON"

  // ---- tables and cache --------------------------------------------------------------

  /** What a person mention was split into; a key of the source's dictionary may be missing or empty. */
  datatype Meta = Meta(s: Option<string>, g: Option<string>, p: Option<string>, gs: Option<string>, w: int)

  const NO_META := Meta(None, None, None, None, 0)

  datatype Key = Key(category: string, n: nat)

  /** The keyed hash of a category and a text within the project, idealised: equal only on equal input. */
  datatype Fingerprint = Fp(category: string, text: string)

  datatype Row = Row(fp: Fingerprint, value: string, meta: Meta, occurrences: int, excluded: bool, origin: string)

  datatype VariantRow = VariantRow(key: Key, value: string)

  datatype Entity = Entity(row: Row, variants: map<Fingerprint, string>)

  /** The index refers to cached entities by their key. */
  datatype Cache = Cache(ents: map<Key, Entity>, idx: map<Fingerprint, Key>)

  /** One project: the two tables and, while loaded, the cache over them. */
  datatype Project = Project(entity: map<Key, Row>, variant: map<Fingerprint, VariantRow>, cache: Option<Cache>)

  /** A value as it is asked for or stored under a category. */
  datatype Spelling = Spelling(category: string, text: string)

  /** The language-dependent helpers, taken as given. */
  datatype Rules = Rules(norm: (string, string) -> string, parse: string -> Meta, score: string -> real,
                         strip: string -> string)

  const EMPTY := Project(map[], map[], None)

  function EntityAt(entity: map<Key, Row>, variant: map<Fingerprint, VariantRow>, k: Key): Entity
    requires k in entity
  {
    Entity(entity[k], map f | f in variant && variant[f].key == k :: variant[f].value)
  }

  /** What `_load` reads from the tables. */
  function EntitiesOf(entity: map<Key, Row>, variant: map<Fingerprint, VariantRow>): map<Key, Entity> {
    map k | k in entity :: EntityAt(entity, variant, k)
  }

  function Ents(p: Project): map<Key, Entity> { EntitiesOf(p.entity, p.variant) }

  predicate Has(e: Entity, f: Fingerprint) { e.row.fp == f || f in e.variants }

  predicate Owns(ents: map<Key, Entity>, k: Key, f: Fingerprint) { k in ents && Has(ents[k], f) }

  ghost predicate Disjoint(ents: map<Key, Entity>) {
    forall k, m, f :: Owns(ents, k, f) && Owns(ents, m, f) ==> k == m
  }

  function FingerprintsOf(ents: map<Key, Entity>): set<Fingerprint> {
    (set k | k in ents :: ents[k].row.fp) + (set k, f | k in ents && f in ents[k].variants :: f)
  }

  ghost function OwnerOf(ents: map<Key, Entity>, f: Fingerprint): (k: Key)
    requires f in FingerprintsOf(ents)
    ensures Owns(ents, k, f)
  {
    assert exists k :: Owns(ents, k, f) by {
      if m :| m in ents && ents[m].row.fp == f {
        assert Owns(ents, m, f);
      } else {
        var m :| m in ents && f in ents[m].variants;
        assert Owns(ents, m, f);
      }
    }
    var k :| Owns(ents, k, f); k
  }

  ghost function IndexOf(ents: map<Key, Entity>): map<Fingerprint, Key> {
    map f | f in FingerprintsOf(ents) :: OwnerOf(ents, f)
  }

  /** `idx` is the ownership relation. */
  ghost predicate IsIndex(ents: map<Key, Entity>, idx: map<Fingerprint, Key>) {
    forall k, f :: Owns(ents, k, f) <==> f in idx && idx[f] == k
  }

  lemma IndexOfSpec(ents: map<Key, Entity>)
    requires Disjoint(ents)
    ensures IsIndex(ents, IndexOf(ents))
  {
    forall k, f ensures Owns(ents, k, f) <==> f in IndexOf(ents) && IndexOf(ents)[f] == k {
      if Owns(ents, k, f) { assert f in FingerprintsOf(ents); }
    }
  }

  lemma IndexUnique(ents: map<Key, Entity>, a: map<Fingerprint, Key>, b: map<Fingerprint, Key>)
    requires IsIndex(ents, a) && IsIndex(ents, b)
    ensures a == b
  {
    forall f ensures f in a <==> f in b {
      if f in a { assert Owns(ents, a[f], f); }
      if f in b { assert Owns(ents, b[f], f); }
    }
    forall f | f in a ensures a[f] == b[f] { assert Owns(ents, a[f], f); }
  }

  /** `_load` */
  ghost function Opened(p: Project): (q: Project)
    ensures q.cache.Some?
  {
    if p.cache.Some? then p else p.(cache := Some(Cache(Ents(p), IndexOf(Ents(p)))))
  }

  // ---- the write operations ----------------------------------------------------------

  /** `add_entity`; the caller supplies the number after the highest one in the table. */
  function AddEntity(p: Project, k: Key, row: Row): Project
    requires p.cache.Some?
  {
    var c := p.cache.value;
    Project(p.entity[k := row], p.variant, Some(Cache(c.ents[k := Entity(row, map[])], c.idx[row.fp := k])))
  }

  /** `add_variant`: the table ignores a fingerprint it already has, the cache does not. */
  function AddVariant(p: Project, k: Key, f: Fingerprint, surface: string): Project
    requires p.cache.Some? && k in p.cache.value.ents
  {
    var c := p.cache.value;
    var e := c.ents[k];
    if Has(e, f) then p
    else
      Project(p.entity, if f in p.variant then p.variant else p.variant[f := VariantRow(k, surface)],
              Some(Cache(c.ents[k := e.(variants := e.variants[f := surface])], c.idx[f := k])))
  }

  /** `set_canonical`, `set_excluded` and `bump`: one row replaced in the table and, if loaded, the cache. */
  function SetRow(p: Project, k: Key, row: Row): Project {
    Project(if k in p.entity then p.entity[k := row] else p.entity, p.variant,
            match p.cache
            case None => None
            case Some(c) =>
              Some(if k in c.ents then Cache(c.ents[k := c.ents[k].(row := row)], c.idx) else c))
  }

  /** `delete_entity` */
  function Delete(p: Project, k: Key): Project {
    Project(p.entity - {k}, map f | f in p.variant && p.variant[f].key != k :: p.variant[f], None)
  }

  ghost function MaxN(keys: set<Key>, category: string): (n: nat)
    ensures forall k | k in keys && k.category == category :: k.n <= n
    ensures n == 0 || Key(category, n) in keys
  {
    if keys == {} then 0
    else
      var k :| k in keys;
      var m := MaxN(keys - {k}, category);
      if k.category == category && k.n > m then k.n else m
  }

  // ---- resolution --------------------------------------------------------------------

  function NormFp(r: Rules, category: string, surface: string): Fingerprint {
    Fp(category, r.norm(category, surface))
  }

  function SurfaceFp(category: string, surface: string): Fingerprint { Fp(category, "surface:" + surface) }

  predicate Truthy(o: Option<string>) { o.Some? && o.value != "" }

  predicate Agree(a: Option<string>, b: Option<string>) { Truthy(a) && Truthy(b) ==> a == b }

  /** `_compatible` */
  predicate Compatible(a: Meta, b: Meta) {
    Truthy(a.s) && a.s == b.s && Agree(a.g, b.g) && Agree(a.p, b.p) && Agree(a.gs, b.gs)
  }

  function Either(a: Option<string>, b: Option<string>): Option<string> { if Truthy(a) then a else b }

  function Merged(a: Meta, b: Meta): Meta {
    Meta(Either(a.s, b.s), Either(a.g, b.g), Either(a.p, b.p), Either(a.gs, b.gs), a.w)
  }

  function Candidates(ents: map<Key, Entity>, meta: Meta): set<Key> {
    set k | k in ents && k.category == PERSON && Compatible(meta, ents[k].row.meta)
  }

  predicate IsSurfaceOf(e: Entity, surface: string) {
    surface == e.row.value || exists f | f in e.variants :: e.variants[f] == surface
  }

  /** The fingerprint is known: the entity may gain a spelling. */
  function ResolveKnown(p: Project, k: Key, category: string, surface: string): Project
    requires p.cache.Some? && k in p.cache.value.ents
  {
    if IsSurfaceOf(p.cache.value.ents[k], surface) then p
    else AddVariant(p, k, SurfaceFp(category, surface), surface)
  }

  /** A person mention joins the one compatible person; the better spelling becomes canonical. */
  function ResolveAlias(r: Rules, p: Project, k: Key, surface: string): Project
    requires p.cache.Some? && k in p.cache.value.ents
  {
    var q := AddVariant(p, k, NormFp(r, PERSON, surface), surface);
    var row := q.cache.value.ents[k].row;
    if r.score(surface) > r.score(row.value) then
      var q' := SetRow(q, k, row.(value := surface, meta := Merged(r.parse(surface), row.meta)));
      AddVariant(q', k, SurfaceFp(PERSON, row.value), row.value)
    else q
  }

  function FreshRow(r: Rules, category: string, surface: string, origin: string): Row {
    Row(NormFp(r, category, surface), surface, if category == PERSON then r.parse(surface) else NO_META,
        0, false, origin)
  }

  predicate Links(r: Rules, p: Project, category: string, surface: string)
    requires p.cache.Some?
  {
    && category == PERSON && Truthy(r.parse(surface).s)
    && |Candidates(p.cache.value.ents, r.parse(surface))| == 1
  }

  /** `Anonymizer._resolve` on a loaded project: the project afterwards and the entity found. */
  ghost function ResolveIn(r: Rules, p: Project, category: string, surface: string, origin: string): (Project, Key)
    requires p.cache.Some?
  {
    var c, f := p.cache.value, NormFp(r, category, surface);
    if f in c.idx && c.idx[f] in c.ents then
      (ResolveKnown(p, c.idx[f], category, surface), c.idx[f])
    else if Links(r, p, category, surface) then
      var cs := Candidates(c.ents, r.parse(surface));
      assert cs != {};
      var k :| k in cs;
      (ResolveAlias(r, p, k, surface), k)
    else
      var k := Key(category, MaxN(p.entity.Keys, category) + 1);
      (AddEntity(p, k, FreshRow(r, category, surface, origin)), k)
  }

  // ---- calls and runs ----------------------------------------------------------------

  datatype Call =
    | Resolve(category: string, surface: string, origin: string)
    | Manual(category: string, value: string, excluded: bool)
    | Read
    | SetExcluded(key: Key, excluded: bool)
    | Bump(key: Key, count: int)
    | DeleteEntity(key: Key)
    | Lock

  /** `add_manual` after its resolution */
  function Exclude(p: Project, k: Key, excluded: bool): Project
    requires p.cache.Some?
  {
    var c := p.cache.value;
    if k in c.ents && c.ents[k].row.excluded != excluded then
      SetRow(p, k, c.ents[k].row.(excluded := excluded))
    else p
  }

  ghost function After(r: Rules, p: Project, call: Call): Project {
    match call
    case Resolve(category, surface, origin) => ResolveIn(r, Opened(p), category, surface, origin).0
    case Manual(category, value, excluded) =>
      var (q, k) := ResolveIn(r, Opened(p), category, r.strip(value), "manual");
      if q.cache.Some? then Exclude(q, k, excluded) else q
    case Read => Opened(p)
    case SetExcluded(k, excluded) => Exclude(Opened(p), k, excluded)
    case Bump(k, count) =>
      if k in p.entity then SetRow(p, k, p.entity[k].(occurrences := p.entity[k].occurrences + count)) else p
    case DeleteEntity(k) => Delete(p, k)
    case Lock => p.(cache := None)
  }

  predicate Asks(call: Call) { call.Resolve? || call.Manual? }

  function Surface(r: Rules, call: Call): string
    requires Asks(call)
  {
    if call.Resolve? then call.surface else r.strip(call.value)
  }

  /** The entity a resolving call returns. */
  ghost function Answer(r: Rules, p: Project, call: Call): Key
    requires Asks(call)
  {
    ResolveIn(r, Opened(p), call.category, Surface(r, call), if call.Resolve? then call.origin else "manual").1
  }

  ghost predicate Steps(r: Rules, ps: seq<Project>, calls: seq<Call>) {
    |ps| == |calls| + 1 && forall i | 0 <= i < |calls| :: ps[i + 1] == After(r, ps[i], calls[i])
  }

  ghost predicate Run(r: Rules, ps: seq<Project>, calls: seq<Call>) { Steps(r, ps, calls) && ps[0] == EMPTY }

  predicate DeletionFree(calls: seq<Call>) { forall c | c in calls :: !c.DeleteEntity? }

  /** The calls ask for spellings in `used` only. */
  predicate CallsIn(r: Rules, used: iset<Spelling>, calls: seq<Call>) { forall c | c in calls :: CallIn(r, used, c) }

  predicate CallIn(r: Rules, used: iset<Spelling>, call: Call) {
    Asks(call) ==> Spelling(call.category, Surface(r, call)) in used
  }

  /** Two calls of one category agree exactly as the norms of their surfaces do. For people only one
      direction: linking aliases is the point. */
  ghost predicate Consistent(r: Rules, p: Project, a: Call, q: Project, b: Call)
    requires Asks(a) && Asks(b) && a.category == b.category
  {
    var c, x, y := a.category, Surface(r, a), Surface(r, b);
    && (r.norm(c, x) == r.norm(c, y) ==> Answer(r, p, a) == Answer(r, q, b))
    && (c != PERSON && Answer(r, p, a) == Answer(r, q, b) ==> r.norm(c, x) == r.norm(c, y))
  }

  ghost predicate StableRun(r: Rules, ps: seq<Project>, calls: seq<Call>)
    requires |ps| == |calls| + 1
  {
    forall i, j | 0 <= i < j < |calls| && Asks(calls[i]) && Asks(calls[j]) && calls[i].category == calls[j].category ::
      Consistent(r, ps[i], calls[i], ps[j], calls[j])
  }

  /** Whatever is asked among `used`, in whatever order, labels are stable while nothing is deleted. */
  ghost predicate AlwaysStable(r: Rules, used: iset<Spelling>) {
    forall ps, calls | Run(r, ps, calls) && DeletionFree(calls) && CallsIn(r, used, calls) :: StableRun(r, ps, calls)
  }

  // ---- what the helpers must satisfy -------------------------------------------------

  predicate Marked(t: string) { "surface:" <= t }

  /** No person's normal form looks like a spelling's fingerprint text (it has letters and blanks only). */
  ghost predicate PeopleUnmarked(r: Rules) { forall v :: !Marked(r.norm(PERSON, v)) }

  /** `z` normalises to the text under which the spelling `y` of another value `x` is indexed. */
  predicate Clash(r: Rules, c: string, x: string, y: string, z: string) {
    && r.norm(c, z) == "surface:" + y && r.norm(c, x) == r.norm(c, y)
    && x != y && r.norm(c, z) != r.norm(c, y)
  }

  /** No three of the spellings in use clash. */
  ghost predicate NoClashAmong(r: Rules, used: iset<Spelling>) {
    forall c, x, y, z | Spelling(c, x) in used && Spelling(c, y) in used && Spelling(c, z) in used && c != PERSON ::
      !Clash(r, c, x, y, z)
  }

  // ---- the invariant -----------------------------------------------------------------

  predicate VariantHome(r: Rules, used: iset<Spelling>, k: Key, e: Entity, f: Fingerprint)
    requires f in e.variants
  {
    var v := e.variants[f];
    && f.category == k.category && Has(e, NormFp(r, k.category, v)) && Spelling(k.category, v) in used
    && (f == SurfaceFp(k.category, v) || f == NormFp(r, k.category, v))
    && (k.category != PERSON ==>
          f == SurfaceFp(k.category, v) && NormFp(r, k.category, v) == e.row.fp && v != e.row.value)
  }

  /** The norms of all its spellings belong to the entity, and nothing else does. */
  predicate Home(r: Rules, used: iset<Spelling>, k: Key, e: Entity) {
    && e.row.fp.category == k.category && e.row.fp !in e.variants && Spelling(k.category, e.row.value) in used
    && Has(e, NormFp(r, k.category, e.row.value))
    && (forall f | f in e.variants :: VariantHome(r, used, k, e, f))
    && (if k.category == PERSON then !Marked(e.row.fp.text) else e.row.fp == NormFp(r, k.category, e.row.value))
  }

  ghost predicate Homes(r: Rules, used: iset<Spelling>, ents: map<Key, Entity>) {
    Disjoint(ents) && forall k | k in ents :: Home(r, used, k, ents[k])
  }

  predicate NoOrphans(p: Project) { forall f | f in p.variant :: p.variant[f].key in p.entity }

  /** The cache is what loading the tables would build. */
  ghost predicate CacheCurrent(p: Project) {
    p.cache.Some? ==> p.cache.value.ents == Ents(p) && IsIndex(Ents(p), p.cache.value.idx)
  }

  ghost predicate Inv(r: Rules, used: iset<Spelling>, p: Project) {
    NoOrphans(p) && CacheCurrent(p) && Homes(r, used, Ents(p))
  }

  /** Every fingerprint stays with its owner. */
  ghost predicate Keeps(p: Project, q: Project) {
    forall k, f :: Owns(Ents(p), k, f) ==> Owns(Ents(q), k, f)
  }

  lemma OpenedInv(r: Rules, used: iset<Spelling>, p: Project)
    requires Inv(r, used, p)
    ensures Inv(r, used, Opened(p)) && Ents(Opened(p)) == Ents(p)
  {
    IndexOfSpec(Ents(p));
  }

  /** An index changed at one entity by one fingerprint nobody else has. */
  lemma ExtendIndex(ents: map<Key, Entity>, idx: map<Fingerprint, Key>, k: Key, e: Entity, f: Fingerprint)
    requires IsIndex(ents, idx)
    requires forall m :: Owns(ents, m, f) ==> m == k
    requires forall g :: Has(e, g) <==> g == f || Owns(ents, k, g)
    ensures IsIndex(ents[k := e], idx[f := k]) && Disjoint(ents[k := e])
  {
    var ents', idx' := ents[k := e], idx[f := k];
    forall m, g ensures Owns(ents', m, g) <==> g in idx' && idx'[g] == m {
      assert Owns(ents, m, g) <==> g in idx && idx[g] == m;
    }
  }

  lemma EntsAddVariant(p: Project, k: Key, f: Fingerprint, s: string)
    requires k in p.entity && f !in p.variant
    ensures EntitiesOf(p.entity, p.variant[f := VariantRow(k, s)])
         == Ents(p)[k := Ents(p)[k].(variants := Ents(p)[k].variants[f := s])]
  {
    var v' := p.variant[f := VariantRow(k, s)];
    forall m | m in p.entity
      ensures EntityAt(p.entity, v', m).variants
           == if m == k then EntityAt(p.entity, p.variant, m).variants[f := s] else EntityAt(p.entity, p.variant, m).variants
    {
    }
  }

  lemma NotInTable(p: Project, k: Key, f: Fingerprint)
    requires NoOrphans(p) && !Owns(Ents(p), k, f) && forall m :: Owns(Ents(p), m, f) ==> m == k
    ensures f !in p.variant
  {
    if f in p.variant { assert Owns(Ents(p), p.variant[f].key, f); }
  }

  /** What may be added to an entity. */
  predicate Fits(r: Rules, used: iset<Spelling>, k: Key, e: Entity, f: Fingerprint, s: string) {
    && f.category == k.category && Spelling(k.category, s) in used
    && (f == NormFp(r, k.category, s) || (f == SurfaceFp(k.category, s) && Has(e, NormFp(r, k.category, s))))
    && (k.category != PERSON ==>
          f == SurfaceFp(k.category, s) && NormFp(r, k.category, s) == e.row.fp && s != e.row.value)
  }

  lemma VariantFits(r: Rules, used: iset<Spelling>, k: Key, e: Entity, f: Fingerprint, s: string)
    requires Home(r, used, k, e) && Fits(r, used, k, e, f, s) && !Has(e, f)
    ensures Home(r, used, k, e.(variants := e.variants[f := s]))
  {
    var e' := e.(variants := e.variants[f := s]);
    forall g | g in e'.variants ensures VariantHome(r, used, k, e', g) {
      if g != f { assert VariantHome(r, used, k, e, g); }
    }
  }

  lemma AddVariantInv(r: Rules, used: iset<Spelling>, p: Project, k: Key, f: Fingerprint, s: string)
    requires Inv(r, used, p) && p.cache.Some? && k in Ents(p) && Fits(r, used, k, Ents(p)[k], f, s)
    requires forall m :: Owns(Ents(p), m, f) ==> m == k
    ensures var q := AddVariant(p, k, f, s);
            Inv(r, used, q) && q.cache.Some? && Keeps(p, q) && Owns(Ents(q), k, f) && Ents(q).Keys == Ents(p).Keys
            && Ents(q)[k].row == Ents(p)[k].row
  {
    var ents := Ents(p);
    var e := ents[k];
    if !Has(e, f) {
      NotInTable(p, k, f);
      EntsAddVariant(p, k, f, s);
      VariantFits(r, used, k, e, f, s);
      ExtendIndex(ents, p.cache.value.idx, k, e.(variants := e.variants[f := s]), f);
    }
  }

  lemma EntsAddEntity(p: Project, k: Key, row: Row)
    requires NoOrphans(p) && k !in p.entity
    ensures EntitiesOf(p.entity[k := row], p.variant) == Ents(p)[k := Entity(row, map[])]
  {
    assert forall f | f in p.variant :: p.variant[f].key != k;
  }

  lemma AddEntityInv(r: Rules, used: iset<Spelling>, p: Project, k: Key, row: Row)
    requires Inv(r, used, p) && p.cache.Some? && k !in p.entity && Home(r, used, k, Entity(row, map[]))
    requires forall m :: !Owns(Ents(p), m, row.fp)
    ensures var q := AddEntity(p, k, row);
            Inv(r, used, q) && q.cache.Some? && Keeps(p, q) && Owns(Ents(q), k, row.fp)
  {
    EntsAddEntity(p, k, row);
    ExtendIndex(Ents(p), p.cache.value.idx, k, Entity(row, map[]), row.fp);
  }

  /** Replacing a row but not its fingerprint changes no ownership. */
  lemma SetRowInv(r: Rules, used: iset<Spelling>, p: Project, k: Key, row: Row)
    requires Inv(r, used, p) && k in p.entity && row.fp == p.entity[k].fp
    requires Home(r, used, k, Ents(p)[k].(row := row))
    ensures var q := SetRow(p, k, row);
            Inv(r, used, q) && (q.cache.Some? <==> p.cache.Some?) && Keeps(p, q) && Keeps(q, p)
            && Ents(q) == Ents(p)[k := Ents(p)[k].(row := row)]
  {
    var q := SetRow(p, k, row);
    assert Ents(q) == Ents(p)[k := Ents(p)[k].(row := row)];
    assert forall m, f :: Owns(Ents(p), m, f) <==> Owns(Ents(q), m, f);
  }

  // ---- a spelling's fingerprint is never someone else's ------------------------------

  lemma MarkedCancel(a: string, b: string)
    requires "surface:" + a == "surface:" + b
    ensures a == b
  {
    assert ("surface:" + a)[8..] == a && ("surface:" + b)[8..] == b;
  }

  /** Outside PERSON the norm of a value can only be the owner's own fingerprint. */
  lemma NormIsRowFp(r: Rules, used: iset<Spelling>, ents: map<Key, Entity>, k: Key, y: string)
    requires Homes(r, used, ents) && NoClashAmong(r, used) && k.category != PERSON && Spelling(k.category, y) in used
    requires Owns(ents, k, NormFp(r, k.category, y))
    ensures ents[k].row.fp == NormFp(r, k.category, y)
  {
    var e, f := ents[k], NormFp(r, k.category, y);
    if e.row.fp != f {
      assert VariantHome(r, used, k, e, f);
      assert Home(r, used, k, e) && Clash(r, k.category, e.row.value, e.variants[f], y);
    }
  }

  lemma NoSteal(r: Rules, used: iset<Spelling>, ents: map<Key, Entity>, k: Key, y: string, m: Key)
    requires Homes(r, used, ents) && NoClashAmong(r, used) && PeopleUnmarked(r) && Spelling(k.category, y) in used
    requires Owns(ents, k, NormFp(r, k.category, y))
    requires k.category == PERSON || y != ents[k].row.value
    requires Owns(ents, m, SurfaceFp(k.category, y))
    ensures m == k
  {
    var f, c, e := SurfaceFp(k.category, y), k.category, ents[m];
    assert Home(r, used, m, e) && m.category == c;
    if f in e.variants {
      assert VariantHome(r, used, m, e, f);
      var v := e.variants[f];
      assert Marked(f.text) && !Marked(r.norm(PERSON, v));
      assert f == SurfaceFp(c, v);
      MarkedCancel(v, y);
      assert Owns(ents, m, NormFp(r, c, y));
    } else {
      NormIsRowFp(r, used, ents, k, y);
      assert Home(r, used, k, ents[k]);
      if ents[m].row.fp != ents[k].row.fp {
        assert Clash(r, c, ents[k].row.value, y, e.row.value);
      } else {
        assert Owns(ents, k, f);
      }
    }
  }

  // ---- resolution keeps the invariant ------------------------------------------------

  lemma KnownInv(r: Rules, used: iset<Spelling>, p: Project, k: Key, surface: string)
    requires Inv(r, used, p) && p.cache.Some? && NoClashAmong(r, used) && PeopleUnmarked(r)
    requires Owns(Ents(p), k, NormFp(r, k.category, surface)) && Spelling(k.category, surface) in used
    ensures var q := ResolveKnown(p, k, k.category, surface); Inv(r, used, q) && q.cache.Some? && Keeps(p, q)
  {
    var e, f := Ents(p)[k], SurfaceFp(k.category, surface);
    if !IsSurfaceOf(e, surface) {
      forall m | Owns(Ents(p), m, f) ensures m == k { NoSteal(r, used, Ents(p), k, surface, m); }
      if k.category != PERSON { NormIsRowFp(r, used, Ents(p), k, surface); }
      AddVariantInv(r, used, p, k, f, surface);
    }
  }

  lemma AliasInv(r: Rules, used: iset<Spelling>, p: Project, k: Key, surface: string)
    requires Inv(r, used, p) && p.cache.Some? && NoClashAmong(r, used) && PeopleUnmarked(r)
    requires k in Ents(p) && k.category == PERSON && Spelling(PERSON, surface) in used
    requires forall m :: !Owns(Ents(p), m, NormFp(r, PERSON, surface))
    ensures var q := ResolveAlias(r, p, k, surface);
            Inv(r, used, q) && q.cache.Some? && Keeps(p, q) && Owns(Ents(q), k, NormFp(r, PERSON, surface))
  {
    var f := NormFp(r, PERSON, surface);
    AddVariantInv(r, used, p, k, f, surface);
    var q := AddVariant(p, k, f, surface);
    var row := Ents(q)[k].row;
    if r.score(surface) > r.score(row.value) {
      CanonicalInv(r, used, q, k, row.(value := surface, meta := Merged(r.parse(surface), row.meta)));
    }
  }

  /** A new canonical spelling; the old one stays as a variant. */
  lemma CanonicalInv(r: Rules, used: iset<Spelling>, p: Project, k: Key, row: Row)
    requires Inv(r, used, p) && p.cache.Some? && NoClashAmong(r, used) && PeopleUnmarked(r)
    requires k in Ents(p) && k.category == PERSON && Spelling(PERSON, row.value) in used
    requires row.fp == Ents(p)[k].row.fp && Has(Ents(p)[k], NormFp(r, PERSON, row.value))
    ensures var old' := Ents(p)[k].row.value;
            var q := AddVariant(SetRow(p, k, row), k, SurfaceFp(PERSON, old'), old');
            Inv(r, used, q) && q.cache.Some? && Keeps(p, q)
  {
    var old' := Ents(p)[k].row.value;
    assert Home(r, used, k, Ents(p)[k]);
    CanonicalHome(r, used, k, Ents(p)[k], row);
    SetRowInv(r, used, p, k, row);
    var q := SetRow(p, k, row);
    forall m | Owns(Ents(q), m, SurfaceFp(PERSON, old')) ensures m == k {
      NoSteal(r, used, Ents(q), k, old', m);
    }
    AddVariantInv(r, used, q, k, SurfaceFp(PERSON, old'), old');
  }

  lemma CanonicalHome(r: Rules, used: iset<Spelling>, k: Key, e: Entity, row: Row)
    requires Home(r, used, k, e) && k.category == PERSON && row.fp == e.row.fp && Has(e, NormFp(r, PERSON, row.value))
    requires Spelling(PERSON, row.value) in used
    ensures Home(r, used, k, e.(row := row))
  {
    forall f | f in e.variants ensures VariantHome(r, used, k, e.(row := row), f) {
      assert VariantHome(r, used, k, e, f);
    }
  }

  lemma FreshInv(r: Rules, used: iset<Spelling>, p: Project, category: string, surface: string, origin: string)
    requires Inv(r, used, p) && p.cache.Some? && PeopleUnmarked(r) && Spelling(category, surface) in used
    requires forall m :: !Owns(Ents(p), m, NormFp(r, category, surface))
    ensures var k := Key(category, MaxN(p.entity.Keys, category) + 1);
            var q := AddEntity(p, k, FreshRow(r, category, surface, origin));
            && Inv(r, used, q) && q.cache.Some? && Keeps(p, q) && Owns(Ents(q), k, NormFp(r, category, surface))
  {
    var k := Key(category, MaxN(p.entity.Keys, category) + 1);
    AddEntityInv(r, used, p, k, FreshRow(r, category, surface, origin));
  }

  /** The invariant is kept, every owner too, and the answer owns the norm. */
  ghost predicate ResolvedWell(r: Rules, used: iset<Spelling>, p: Project, category: string, surface: string, q: Project, k: Key) {
    && Inv(r, used, q) && q.cache.Some? && Keeps(p, q)
    && k.category == category && Owns(Ents(q), k, NormFp(r, category, surface))
  }

  lemma KnownResolve(r: Rules, used: iset<Spelling>, p: Project, category: string, surface: string, origin: string)
    requires Inv(r, used, p) && p.cache.Some? && NoClashAmong(r, used) && PeopleUnmarked(r)
    requires NormFp(r, category, surface) in p.cache.value.idx && Spelling(category, surface) in used
    ensures var (q, k) := ResolveIn(r, p, category, surface, origin); ResolvedWell(r, used, p, category, surface, q, k)
  {
    var f := NormFp(r, category, surface);
    var k := p.cache.value.idx[f];
    assert Owns(Ents(p), k, f);
    OwnedCategory(r, used, Ents(p), k, f);
    KnownInv(r, used, p, k, surface);
  }

  lemma LinkedResolve(r: Rules, used: iset<Spelling>, p: Project, surface: string, origin: string)
    requires Inv(r, used, p) && p.cache.Some? && NoClashAmong(r, used) && PeopleUnmarked(r) && Links(r, p, PERSON, surface)
    requires NormFp(r, PERSON, surface) !in p.cache.value.idx && Spelling(PERSON, surface) in used
    ensures var (q, k) := ResolveIn(r, p, PERSON, surface, origin); ResolvedWell(r, used, p, PERSON, surface, q, k)
  {
    var k := ResolveIn(r, p, PERSON, surface, origin).1;
    assert k in Candidates(p.cache.value.ents, r.parse(surface)) by {
      assert Candidates(p.cache.value.ents, r.parse(surface)) != {};
    }
    assert forall m :: !Owns(Ents(p), m, NormFp(r, PERSON, surface));
    AliasInv(r, used, p, k, surface);
  }

  lemma FreshResolve(r: Rules, used: iset<Spelling>, p: Project, category: string, surface: string, origin: string)
    requires Inv(r, used, p) && p.cache.Some? && PeopleUnmarked(r) && !Links(r, p, category, surface)
    requires NormFp(r, category, surface) !in p.cache.value.idx && Spelling(category, surface) in used
    ensures var (q, k) := ResolveIn(r, p, category, surface, origin); ResolvedWell(r, used, p, category, surface, q, k)
  {
    var k := Key(category, MaxN(p.entity.Keys, category) + 1);
    FreshIs(r, p, category, surface, origin, k);
    FreshInv(r, used, p, category, surface, origin);
  }

  lemma FreshIs(r: Rules, p: Project, category: string, surface: string, origin: string, k: Key)
    requires p.cache.Some? && CacheCurrent(p) && !Links(r, p, category, surface)
    requires NormFp(r, category, surface) !in p.cache.value.idx
    requires k == Key(category, MaxN(p.entity.Keys, category) + 1)
    ensures ResolveIn(r, p, category, surface, origin) == (AddEntity(p, k, FreshRow(r, category, surface, origin)), k)
    ensures forall m :: !Owns(Ents(p), m, NormFp(r, category, surface))
  {
  }

  /** Resolution keeps the invariant and every owner, and answers with the owner of the norm. */
  lemma ResolveInv(r: Rules, used: iset<Spelling>, p: Project, category: string, surface: string, origin: string)
    requires Inv(r, used, p) && p.cache.Some? && NoClashAmong(r, used) && PeopleUnmarked(r)
    requires Spelling(category, surface) in used
    ensures var (q, k) := ResolveIn(r, p, category, surface, origin); ResolvedWell(r, used, p, category, surface, q, k)
  {
    if NormFp(r, category, surface) in p.cache.value.idx {
      KnownResolve(r, used, p, category, surface, origin);
    } else if Links(r, p, category, surface) {
      LinkedResolve(r, used, p, surface, origin);
    } else {
      FreshResolve(r, used, p, category, surface, origin);
    }
  }

  lemma OwnedCategory(r: Rules, used: iset<Spelling>, ents: map<Key, Entity>, k: Key, f: Fingerprint)
    requires Homes(r, used, ents) && Owns(ents, k, f)
    ensures f.category == k.category
  {
    if f in ents[k].variants { assert VariantHome(r, used, k, ents[k], f); }
  }

  // ---- every run ---------------------------------------------------------------------

  lemma SameSpellingHome(r: Rules, used: iset<Spelling>, k: Key, e: Entity, row: Row)
    requires Home(r, used, k, e) && row.fp == e.row.fp && row.value == e.row.value
    ensures Home(r, used, k, e.(row := row))
  {
    forall f | f in e.variants ensures VariantHome(r, used, k, e.(row := row), f) {
      assert VariantHome(r, used, k, e, f);
    }
  }

  lemma ExcludeInv(r: Rules, used: iset<Spelling>, p: Project, k: Key, excluded: bool)
    requires Inv(r, used, p) && p.cache.Some?
    ensures var q := Exclude(p, k, excluded); Inv(r, used, q) && Keeps(p, q)
  {
    if k in Ents(p) {
      var row := Ents(p)[k].row.(excluded := excluded);
      SameSpellingHome(r, used, k, Ents(p)[k], row);
      SetRowInv(r, used, p, k, row);
    }
  }

  lemma DeleteInv(r: Rules, used: iset<Spelling>, p: Project, k: Key)
    requires Inv(r, used, p)
    ensures Inv(r, used, Delete(p, k)) && Ents(Delete(p, k)) == Ents(p) - {k}
  {
    var q := Delete(p, k);
    forall m | m in q.entity ensures EntityAt(q.entity, q.variant, m) == EntityAt(p.entity, p.variant, m) {
    }
    assert Ents(q) == Ents(p) - {k};
    forall m, n, f | Owns(Ents(q), m, f) && Owns(Ents(q), n, f) ensures m == n {
      assert Owns(Ents(p), m, f) && Owns(Ents(p), n, f);
    }
  }

  /** No call breaks the invariant, and only a deletion takes a fingerprint from its owner. */
  lemma AfterInv(r: Rules, used: iset<Spelling>, p: Project, call: Call)
    requires Inv(r, used, p) && NoClashAmong(r, used) && PeopleUnmarked(r) && CallIn(r, used, call)
    ensures Inv(r, used, After(r, p, call))
    ensures !call.DeleteEntity? ==> Keeps(p, After(r, p, call))
    ensures Asks(call) ==> Owns(Ents(After(r, p, call)), Answer(r, p, call), NormFp(r, call.category, Surface(r, call)))
  {
    OpenedInv(r, used, p);
    match call
    case Resolve(category, surface, origin) => ResolveInv(r, used, Opened(p), category, surface, origin);
    case Manual(category, value, excluded) => ManualInv(r, used, p, category, value, excluded);
    case Read =>
    case SetExcluded(k, excluded) => ExcludeInv(r, used, Opened(p), k, excluded);
    case Bump(k, count) => BumpInv(r, used, p, k, count);
    case DeleteEntity(k) => DeleteInv(r, used, p, k);
    case Lock =>
  }

  lemma ManualInv(r: Rules, used: iset<Spelling>, p: Project, category: string, value: string, excluded: bool)
    requires Inv(r, used, p) && NoClashAmong(r, used) && PeopleUnmarked(r) && Spelling(category, r.strip(value)) in used
    ensures var call := Manual(category, value, excluded);
            && Inv(r, used, After(r, p, call)) && Keeps(p, After(r, p, call))
            && Owns(Ents(After(r, p, call)), Answer(r, p, call), NormFp(r, category, r.strip(value)))
  {
    OpenedInv(r, used, p);
    var (q, k) := ResolveIn(r, Opened(p), category, r.strip(value), "manual");
    ResolveInv(r, used, Opened(p), category, r.strip(value), "manual");
    ExcludeInv(r, used, q, k, excluded);
  }

  lemma BumpInv(r: Rules, used: iset<Spelling>, p: Project, k: Key, count: int)
    requires Inv(r, used, p)
    ensures var q := After(r, p, Bump(k, count)); Inv(r, used, q) && Keeps(p, q)
  {
    if k in p.entity {
      var row := p.entity[k].(occurrences := p.entity[k].occurrences + count);
      assert Home(r, used, k, Ents(p)[k]);
      SameSpellingHome(r, used, k, Ents(p)[k], row);
      SetRowInv(r, used, p, k, row);
    }
  }

  lemma KeepsTrans(a: Project, b: Project, c: Project)
    requires Keeps(a, b) && Keeps(b, c)
    ensures Keeps(a, c)
  {
  }

  /** From a sound state every call leads to a sound state. */
  lemma {:induction false} StepsInv(r: Rules, used: iset<Spelling>, ps: seq<Project>, calls: seq<Call>, i: nat)
    requires Steps(r, ps, calls) && Inv(r, used, ps[0]) && CallsIn(r, used, calls) && i <= |calls|
    requires NoClashAmong(r, used) && PeopleUnmarked(r)
    ensures Inv(r, used, ps[i])
  {
    if i > 0 {
      StepsInv(r, used, ps, calls, i - 1);
      assert CallIn(r, used, calls[i - 1]);
      AfterInv(r, used, ps[i - 1], calls[i - 1]);
    }
  }

  lemma {:induction false} StepsKeep(r: Rules, used: iset<Spelling>, ps: seq<Project>, calls: seq<Call>, i: nat, j: nat)
    requires Steps(r, ps, calls) && Inv(r, used, ps[0]) && CallsIn(r, used, calls) && DeletionFree(calls)
    requires NoClashAmong(r, used) && PeopleUnmarked(r) && i <= j <= |calls|
    ensures Keeps(ps[i], ps[j]) && Ents(ps[i]).Keys <= Ents(ps[j]).Keys
    decreases j
  {
    if i < j {
      StepsKeep(r, used, ps, calls, i, j - 1);
      StepsInv(r, used, ps, calls, j - 1);
      assert CallIn(r, used, calls[j - 1]);
      AfterInv(r, used, ps[j - 1], calls[j - 1]);
      KeepsTrans(ps[i], ps[j - 1], ps[j]);
    }
    KeptEntities(ps[i], ps[j]);
  }

  /** Who keeps its fingerprints keeps its entity. */
  lemma KeptEntities(p: Project, q: Project)
    requires Keeps(p, q)
    ensures Ents(p).Keys <= Ents(q).Keys
  {
    forall k | k in Ents(p) ensures k in Ents(q) { assert Owns(Ents(p), k, Ents(p)[k].row.fp); }
  }

  /** In every reachable state each fingerprint has one owner, all norms of an entity's spellings belong to
      it, and the cache is what loading the tables would build: deletions and locking included. */
  lemma RunInv(r: Rules, used: iset<Spelling>, ps: seq<Project>, calls: seq<Call>, i: nat)
    requires Run(r, ps, calls) && CallsIn(r, used, calls) && NoClashAmong(r, used) && PeopleUnmarked(r) && i <= |calls|
    ensures Inv(r, used, ps[i])
  {
    StepsInv(r, used, ps, calls, i);
  }

  lemma RunKeeps(r: Rules, used: iset<Spelling>, ps: seq<Project>, calls: seq<Call>, i: nat, j: nat)
    requires Run(r, ps, calls) && CallsIn(r, used, calls) && NoClashAmong(r, used) && PeopleUnmarked(r)
    requires DeletionFree(calls) && i <= j <= |calls|
    ensures Keeps(ps[i], ps[j])
  {
    StepsKeep(r, used, ps, calls, i, j);
  }

  /** Without clashes among the spellings in use, a value keeps its label for as long as nothing is deleted,
      and outside PERSON different values never share one. */
  lemma Stable(r: Rules, used: iset<Spelling>, ps: seq<Project>, calls: seq<Call>)
    requires Run(r, ps, calls) && CallsIn(r, used, calls) && NoClashAmong(r, used) && PeopleUnmarked(r)
    requires DeletionFree(calls)
    ensures StableRun(r, ps, calls)
  {
    forall i, j | 0 <= i < j < |calls| && Asks(calls[i]) && Asks(calls[j]) && calls[i].category == calls[j].category
      ensures Consistent(r, ps[i], calls[i], ps[j], calls[j])
    {
      RunInv(r, used, ps, calls, i);
      RunInv(r, used, ps, calls, j);
      RunInv(r, used, ps, calls, j + 1);
      AfterInv(r, used, ps[i], calls[i]);
      AfterInv(r, used, ps[j], calls[j]);
      RunKeeps(r, used, ps, calls, i + 1, j + 1);
      SameOwner(r, used, Ents(ps[j + 1]), calls[i].category, Surface(r, calls[i]), Answer(r, ps[i], calls[i]),
                Surface(r, calls[j]), Answer(r, ps[j], calls[j]));
    }
  }

  lemma SameOwner(r: Rules, used: iset<Spelling>, ents: map<Key, Entity>, c: string, x: string, k: Key, y: string, m: Key)
    requires Homes(r, used, ents) && NoClashAmong(r, used) && Spelling(c, x) in used && Spelling(c, y) in used
    requires Owns(ents, k, NormFp(r, c, x)) && Owns(ents, m, NormFp(r, c, y))
    ensures r.norm(c, x) == r.norm(c, y) ==> k == m
    ensures c != PERSON && k == m ==> r.norm(c, x) == r.norm(c, y)
  {
    OwnedCategory(r, used, ents, k, NormFp(r, c, x));
    OwnedCategory(r, used, ents, m, NormFp(r, c, y));
    if c != PERSON {
      NormIsRowFp(r, used, ents, k, x);
      NormIsRowFp(r, used, ents, m, y);
    }
  }

  function ClashCalls(c: string, x: string, y: string, z: string): seq<Call> {
    [Resolve(c, z, "auto"), Resolve(c, x, "auto"), Resolve(c, y, "auto"), Resolve(c, z, "auto")]
  }

  /** Two values with different norms get two entities. */
  lemma TwoEntities(r: Rules, c: string, x: string, z: string)
    requires c != PERSON && r.norm(c, x) != r.norm(c, z)
    ensures var p := After(r, EMPTY, Resolve(c, z, "auto"));
            var q, k := After(r, p, Resolve(c, x, "auto")), Answer(r, p, Resolve(c, x, "auto"));
            && q.cache.Some? && NormFp(r, c, x) in q.cache.value.idx && q.cache.value.idx[NormFp(r, c, x)] == k
            && k in q.cache.value.ents && q.cache.value.ents[k] == Entity(FreshRow(r, c, x, "auto"), map[])
            && k != Answer(r, EMPTY, Resolve(c, z, "auto"))
  {
    var p := After(r, EMPTY, Resolve(c, z, "auto"));
    var k := Answer(r, EMPTY, Resolve(c, z, "auto"));
    assert p.entity == map[k := FreshRow(r, c, z, "auto")];
    assert p.cache.value.idx == map[NormFp(r, c, z) := k];
    assert NormFp(r, c, x) !in p.cache.value.idx;
  }

  /** The spelling `y` of `x` takes the index entry of `z`. */
  lemma SpellingSteals(r: Rules, p: Project, c: string, x: string, y: string, z: string, k: Key)
    requires Clash(r, c, x, y, z) && p.cache.Some? && k in p.cache.value.ents
    requires NormFp(r, c, x) in p.cache.value.idx && p.cache.value.idx[NormFp(r, c, x)] == k
    requires p.cache.value.ents[k] == Entity(FreshRow(r, c, x, "auto"), map[])
    ensures var q := After(r, p, Resolve(c, y, "auto"));
            Answer(r, q, Resolve(c, z, "auto")) == k
  {
    var q := After(r, p, Resolve(c, y, "auto"));
    assert q == AddVariant(p, k, SurfaceFp(c, y), y);
    assert NormFp(r, c, z) == SurfaceFp(c, y);
  }

  /** A clash breaks stability. */
  lemma ClashSteals(r: Rules, c: string, x: string, y: string, z: string)
    requires c != PERSON && Clash(r, c, x, y, z)
    ensures exists ps :: Run(r, ps, ClashCalls(c, x, y, z)) && !StableRun(r, ps, ClashCalls(c, x, y, z))
  {
    var calls := ClashCalls(c, x, y, z);
    var p1 := After(r, EMPTY, calls[0]);
    var p2 := After(r, p1, calls[1]);
    var p3 := After(r, p2, calls[2]);
    TwoEntities(r, c, x, z);
    SpellingSteals(r, p2, c, x, y, z, Answer(r, p1, calls[1]));
    var ps := [EMPTY, p1, p2, p3, After(r, p3, calls[3])];
    FourSteps(r, ps, calls);
    assert !Consistent(r, ps[0], calls[0], ps[3], calls[3]);
  }

  lemma FourSteps(r: Rules, ps: seq<Project>, calls: seq<Call>)
    requires |ps| == 5 && |calls| == 4 && ps[0] == EMPTY
    requires ps[1] == After(r, ps[0], calls[0]) && ps[2] == After(r, ps[1], calls[1])
    requires ps[3] == After(r, ps[2], calls[2]) && ps[4] == After(r, ps[3], calls[3])
    ensures Run(r, ps, calls)
  {
  }

  /** Exactly when labels are stable: no norm of a spelling in use looks like the index text of another
      value's spelling in use. */
  lemma StableIff(r: Rules, used: iset<Spelling>)
    requires PeopleUnmarked(r)
    ensures AlwaysStable(r, used) <==> NoClashAmong(r, used)
  {
    if NoClashAmong(r, used) {
      forall ps, calls | Run(r, ps, calls) && DeletionFree(calls) && CallsIn(r, used, calls)
        ensures StableRun(r, ps, calls)
      {
        Stable(r, used, ps, calls);
      }
    } else {
      var c, x, y, z :| Spelling(c, x) in used && Spelling(c, y) in used && Spelling(c, z) in used && c != PERSON
                        && Clash(r, c, x, y, z);
      ClashSteals(r, c, x, y, z);
      var calls := ClashCalls(c, x, y, z);
      var ps :| Run(r, ps, calls) && !StableRun(r, ps, calls);
      assert DeletionFree(calls) && CallsIn(r, used, calls);
    }
  }

  /** Only the e-mail norm keeps colons: the others keep letters and digits, or blank punctuation out. */
  ghost predicate OnlyEmailsMarked(r: Rules) { forall c, v :: c != "EMAIL" ==> !Marked(r.norm(c, v)) }

  /** No e-mail in use looks like a marked text once it is case-folded. */
  ghost predicate EmailsUnmarked(r: Rules, used: iset<Spelling>) {
    forall v | Spelling("EMAIL", v) in used :: !Marked(r.norm("EMAIL", v))
  }

  /** Labels are stable wherever no e-mail asked for begins with the mark. */
  lemma UnmarkedIsStable(r: Rules, used: iset<Spelling>)
    requires OnlyEmailsMarked(r) && EmailsUnmarked(r, used)
    ensures NoClashAmong(r, used) && PeopleUnmarked(r) && AlwaysStable(r, used)
  {
    forall c, x, y, z | Spelling(c, x) in used && Spelling(c, y) in used && Spelling(c, z) in used && c != PERSON
      ensures !Clash(r, c, x, y, z)
    {
      assert !Marked(r.norm(c, z));
    }
    StableIff(r, used);
  }

  /** E-mail addresses are only case-folded, so a value typed in by hand can clash. */
  lemma EmailsCanClash(r: Rules, used: iset<Spelling>)
    requires r.norm("EMAIL", "Ann@b.c") == "ann@b.c" && r.norm("EMAIL", "ann@b.c") == "ann@b.c"
    requires r.norm("EMAIL", "surface:ann@b.c") == "surface:ann@b.c"
    requires iset{Spelling("EMAIL", "Ann@b.c"), Spelling("EMAIL", "ann@b.c"), Spelling("EMAIL", "surface:ann@b.c")} <= used
    ensures !NoClashAmong(r, used)
    ensures PeopleUnmarked(r) ==> !AlwaysStable(r, used)
  {
    assert Clash(r, "EMAIL", "Ann@b.c", "ann@b.c", "surface:ann@b.c");
    if PeopleUnmarked(r) { StableIff(r, used); }
  }
}
