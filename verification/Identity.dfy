/** Whose label a mention gets. */
module Identity {
  // `_resolve`, `_compatible` and the merge of what is known about a person (app/desktop/engine.py), said on the
  // fields of the entities

  import opened Entities
  import opened Labels
  import opened Dictionary

  // ---- when a mention can stand for a person -----------------------------------------

  predicate Present(o: Option<string>) { o.Some? && |o.value| > 0 }

  predicate Contradicts(a: Option<string>, b: Option<string>) { Present(a) && Present(b) && a.value != b.value }

  /** Both have a surname, the same one, and nothing known of both contradicts: given name, patronymic, given stem. */
  predicate CouldBe(a: Meta, b: Meta) {
    && Present(a.s) && Present(b.s) && a.s.value == b.s.value
    && !Contradicts(a.g, b.g) && !Contradicts(a.p, b.p) && !Contradicts(a.gs, b.gs)
  }

  predicate FitsPerson(ents: map<Key, Entity>, meta: Meta, k: Key) {
    k in ents && k.category == "PERSON" && CouldBe(meta, ents[k].row.meta)
  }

  /** The only person the mention can stand for. */
  ghost predicate OnlyFit(ents: map<Key, Entity>, meta: Meta, k: Key) {
    FitsPerson(ents, meta, k) && forall m | FitsPerson(ents, meta, m) :: m == k
  }

  // ---- what a resolution does --------------------------------------------------------

  /** Each part from the new spelling where it has one, and from what was known where it has none. */
  predicate FilledFrom(part: Option<string>, new': Option<string>, known: Option<string>) {
    part == if Present(new') then new' else known
  }

  predicate MetaFilled(meta: Meta, new': Meta, known: Meta) {
    && FilledFrom(meta.s, new'.s, known.s) && FilledFrom(meta.g, new'.g, known.g)
    && FilledFrom(meta.p, new'.p, known.p) && FilledFrom(meta.gs, new'.gs, known.gs) && meta.w == new'.w
  }

  /** The person keeps its identity and all spellings, gains this one, and is called by the better of its former
      name and this one. */
  ghost predicate Joined(r: Rules, was: Entity, now: Entity, surface: string) {
    && now.row.fp == was.row.fp && now.row.occurrences == was.row.occurrences
    && now.row.excluded == was.row.excluded && now.row.origin == was.row.origin
    && IsWritten(now, surface) && (forall s | IsWritten(was, s) :: IsWritten(now, s))
    && (if r.score(surface) > r.score(was.row.value)
        then now.row.value == surface && MetaFilled(now.row.meta, r.parse(surface), was.row.meta)
        else now.row == was.row)
  }

  /** The entity stays as it is and gains this spelling, unless its own fingerprint is the spelling's. */
  ghost predicate Kept(was: Entity, now: Entity, surface: string, f: Fingerprint) {
    && now.row == was.row && (forall s | IsWritten(was, s) :: IsWritten(now, s))
    && (f != was.row.fp ==> IsWritten(now, surface))
  }

  /** A new entity under the next number, called by the mention, not excluded and not counted yet. */
  predicate IsNew(r: Rules, ents: map<Key, Entity>, k: Key, e: Entity, surface: string, origin: string) {
    && k !in ents && k.n >= 1 && (forall m | m in ents && m.category == k.category :: m.n < k.n)
    && (k.n > 1 ==> Key(k.category, k.n - 1) in ents)
    && e.row.value == surface && e.row.origin == origin && !e.row.excluded && e.row.occurrences == 0
    && e.variants == map[] && (k.category == "PERSON" ==> e.row.meta == r.parse(surface))
  }

  /** A value that somebody owns is answered with its owner, a person that only one entity can be with that one,
      and everything else with a new entity. Nobody else changes. */
  ghost predicate Identified(r: Rules, ents: map<Key, Entity>, after: map<Key, Entity>, category: string,
                             surface: string, origin: string, k: Key)
  {
    var f := NormFp(r, category, surface);
    && k.category == category && after.Keys == ents.Keys + {k} && (forall m | m in ents && m != k :: after[m] == ents[m])
    && if exists m :: Owns(ents, m, f) then Owns(ents, k, f) && Kept(ents[k], after[k], surface, SurfaceFp(category, surface))
       else if category == "PERSON" && exists m :: OnlyFit(ents, r.parse(surface), m) then
         OnlyFit(ents, r.parse(surface), k) && Joined(r, ents[k], after[k], surface)
       else IsNew(r, ents, k, after[k], surface, origin)
  }

  // ---- the resolution does that ------------------------------------------------------

  lemma CouldBeIsCompatible(a: Meta, b: Meta)
    ensures CouldBe(a, b) <==> Compatible(a, b)
  {
  }

  lemma OnlyFitIsLink(r: Rules, p: Project, surface: string)
    requires p.cache.Some? && p.cache.value.ents == Ents(p)
    ensures Links(r, p, PERSON, surface) <==> exists m :: OnlyFit(Ents(p), r.parse(surface), m)
    ensures forall m :: OnlyFit(Ents(p), r.parse(surface), m) ==> Candidates(Ents(p), r.parse(surface)) == {m}
  {
    var meta, ents := r.parse(surface), Ents(p);
    forall m ensures m in Candidates(ents, meta) <==> FitsPerson(ents, meta, m) {
      if m in ents { CouldBeIsCompatible(meta, ents[m].row.meta); }
    }
    forall m | OnlyFit(ents, meta, m) ensures Candidates(ents, meta) == {m} && Links(r, p, PERSON, surface) {
      assert m in Candidates(ents, meta);
    }
    if Links(r, p, PERSON, surface) {
      var m := TheOne(Candidates(ents, meta));
      assert OnlyFit(ents, meta, m);
    }
  }

  lemma TheOne<T>(s: set<T>) returns (x: T)
    requires |s| == 1
    ensures s == {x}
  {
    x :| x in s;
    assert |s - {x}| == 0;
  }

  /** What an added spelling changes. */
  lemma AddVariantEnts(p: Project, k: Key, f: Fingerprint, s: string)
    requires NoOrphans(p) && CacheCurrent(p) && p.cache.Some? && k in Ents(p)
    requires forall m :: Owns(Ents(p), m, f) ==> m == k
    ensures var e := Ents(p)[k];
            Ents(AddVariant(p, k, f, s)) == if Has(e, f) then Ents(p) else Ents(p)[k := e.(variants := e.variants[f := s])]
  {
    if !Has(Ents(p)[k], f) {
      NotInTable(p, k, f);
      EntsAddVariant(p, k, f, s);
    }
  }

  lemma KnownIdentified(r: Rules, used: iset<Spelling>, p: Project, k: Key, surface: string, origin: string)
    requires Inv(r, used, p) && p.cache.Some? && NoClashAmong(r, used) && PeopleUnmarked(r)
    requires Owns(Ents(p), k, NormFp(r, k.category, surface)) && Spelling(k.category, surface) in used
    ensures Identified(r, Ents(p), Ents(ResolveKnown(p, k, k.category, surface)), k.category, surface, origin, k)
  {
    var e, f := Ents(p)[k], SurfaceFp(k.category, surface);
    if !IsSurfaceOf(e, surface) {
      if f in e.variants { VariantIsSpelling(r, used, k, e, surface); } else { SpellingsStay(e, f, surface); }
      forall m | Owns(Ents(p), m, f) ensures m == k { NoSteal(r, used, Ents(p), k, surface, m); }
      AddVariantEnts(p, k, f, surface);
    }
  }

  /** The fingerprint of a spelling is taken by that spelling only. */
  lemma VariantIsSpelling(r: Rules, used: iset<Spelling>, k: Key, e: Entity, surface: string)
    requires Home(r, used, k, e) && PeopleUnmarked(r) && SurfaceFp(k.category, surface) in e.variants
    ensures e.variants[SurfaceFp(k.category, surface)] == surface
  {
    var f := SurfaceFp(k.category, surface);
    assert VariantHome(r, used, k, e, f);
    assert Marked(f.text) && !Marked(r.norm(PERSON, e.variants[f]));
    MarkedCancel(e.variants[f], surface);
  }

  /** With another spelling added all earlier ones stay. */
  lemma SpellingsStay(e: Entity, f: Fingerprint, s: string)
    requires f !in e.variants
    ensures var now := e.(variants := e.variants[f := s]);
            IsWritten(now, s) && forall t | IsWritten(e, t) :: IsWritten(now, t)
  {
    var now := e.(variants := e.variants[f := s]);
    assert now.variants[f] == s;
    forall t | IsWritten(e, t) ensures IsWritten(now, t) {
      if e.row.value != t {
        var g :| g in e.variants && e.variants[g] == t;
        assert g in now.variants && now.variants[g] == t;
      }
    }
  }

  /** A better name for a person: the former one stays as a spelling. */
  lemma Promoted(r: Rules, used: iset<Spelling>, p: Project, k: Key, row: Row)
    requires Inv(r, used, p) && p.cache.Some? && NoClashAmong(r, used) && PeopleUnmarked(r)
    requires k in Ents(p) && k.category == PERSON && Spelling(PERSON, row.value) in used
    requires row.fp == Ents(p)[k].row.fp && Has(Ents(p)[k], NormFp(r, PERSON, row.value))
    ensures var e, was := Ents(p)[k], Ents(p)[k].row.value;
            var f := SurfaceFp(PERSON, was);
            var q := AddVariant(SetRow(p, k, row), k, f, was);
            Ents(q) == Ents(p)[k := if Has(e, f) then e.(row := row) else Entity(row, e.variants[f := was])]
  {
    var e, was := Ents(p)[k], Ents(p)[k].row.value;
    CanonicalInv(r, used, p, k, row);
    assert Home(r, used, k, e);
    CanonicalHome(r, used, k, e, row);
    SetRowInv(r, used, p, k, row);
    var q := SetRow(p, k, row);
    forall m | Owns(Ents(q), m, SurfaceFp(PERSON, was)) ensures m == k { NoSteal(r, used, Ents(q), k, was, m); }
    AddVariantEnts(q, k, SurfaceFp(PERSON, was), was);
  }

  /** The person gains the spelling. */
  lemma AliasWritten(r: Rules, used: iset<Spelling>, p: Project, k: Key, surface: string)
    requires Inv(r, used, p) && p.cache.Some? && NoClashAmong(r, used) && PeopleUnmarked(r)
    requires k in Ents(p) && k.category == PERSON && Spelling(PERSON, surface) in used
    requires forall m :: !Owns(Ents(p), m, NormFp(r, PERSON, surface))
    ensures var f, e := NormFp(r, PERSON, surface), Ents(p)[k];
            var q, now := AddVariant(p, k, f, surface), e.(variants := e.variants[f := surface]);
            && Inv(r, used, q) && q.cache.Some? && Ents(q) == Ents(p)[k := now] && Owns(Ents(q), k, f)
            && IsWritten(now, surface) && forall s | IsWritten(e, s) :: IsWritten(now, s)
  {
    var e, f := Ents(p)[k], NormFp(r, PERSON, surface);
    AddVariantInv(r, used, p, k, f, surface);
    AddVariantEnts(p, k, f, surface);
    assert !Owns(Ents(p), k, f);
    SpellingsStay(e, f, surface);
  }

  lemma AliasJoined(r: Rules, used: iset<Spelling>, p: Project, k: Key, surface: string)
    requires Inv(r, used, p) && p.cache.Some? && NoClashAmong(r, used) && PeopleUnmarked(r)
    requires k in Ents(p) && k.category == PERSON && Spelling(PERSON, surface) in used
    requires forall m :: !Owns(Ents(p), m, NormFp(r, PERSON, surface))
    ensures var ents, after := Ents(p), Ents(ResolveAlias(r, p, k, surface));
            after.Keys == ents.Keys && (forall m | m in ents && m != k :: after[m] == ents[m])
            && Joined(r, ents[k], after[k], surface)
  {
    var e, f := Ents(p)[k], NormFp(r, PERSON, surface);
    AliasWritten(r, used, p, k, surface);
    var q := AddVariant(p, k, f, surface);
    if r.score(surface) > r.score(e.row.value) {
      var row := e.row.(value := surface, meta := Merged(r.parse(surface), e.row.meta));
      Promoted(r, used, q, k, row);
      PromotedJoins(r, used, k, e, Ents(q)[k], row, surface);
    }
  }

  lemma PromotedJoins(r: Rules, used: iset<Spelling>, k: Key, was: Entity, e: Entity, row: Row, surface: string)
    requires Home(r, used, k, e) && k.category == PERSON && PeopleUnmarked(r) && e.row == was.row
    requires (forall s | IsWritten(was, s) :: IsWritten(e, s)) && r.score(surface) > r.score(was.row.value)
    requires row == was.row.(value := surface, meta := Merged(r.parse(surface), was.row.meta))
    ensures var f := SurfaceFp(PERSON, was.row.value);
            Joined(r, was, if Has(e, f) then e.(row := row) else Entity(row, e.variants[f := was.row.value]), surface)
  {
    var f := SurfaceFp(PERSON, was.row.value);
    var now := if Has(e, f) then e.(row := row) else Entity(row, e.variants[f := was.row.value]);
    assert Marked(f.text);
    if f in e.variants { VariantIsSpelling(r, used, k, e, was.row.value); }
    assert f in now.variants && now.variants[f] == was.row.value;
    forall s | IsWritten(was, s) ensures IsWritten(now, s) {
      if s != was.row.value {
        var g :| g in e.variants && e.variants[g] == s;
        assert g in now.variants && now.variants[g] == s;
      }
    }
  }

  lemma FreshIdentified(r: Rules, used: iset<Spelling>, p: Project, category: string, surface: string, origin: string)
    requires Inv(r, used, p) && p.cache.Some? && forall m :: !Owns(Ents(p), m, NormFp(r, category, surface))
    requires category == PERSON ==> forall m :: !OnlyFit(Ents(p), r.parse(surface), m)
    ensures var k := Key(category, MaxN(p.entity.Keys, category) + 1);
            Identified(r, Ents(p), Ents(AddEntity(p, k, FreshRow(r, category, surface, origin))), category, surface, origin, k)
  {
    var k := Key(category, MaxN(p.entity.Keys, category) + 1);
    EntsAddEntity(p, k, FreshRow(r, category, surface, origin));
  }

  lemma LinkedIdentified(r: Rules, used: iset<Spelling>, p: Project, surface: string, origin: string)
    requires Inv(r, used, p) && p.cache.Some? && NoClashAmong(r, used) && PeopleUnmarked(r)
    requires NormFp(r, PERSON, surface) !in p.cache.value.idx && Spelling(PERSON, surface) in used
    requires Links(r, p, PERSON, surface) && forall m :: !Owns(Ents(p), m, NormFp(r, PERSON, surface))
    ensures var (q, k) := ResolveIn(r, p, PERSON, surface, origin);
            Identified(r, Ents(p), Ents(q), PERSON, surface, origin, k)
  {
    OnlyFitIsLink(r, p, surface);
    var k :| OnlyFit(Ents(p), r.parse(surface), k);
    var m := ResolveIn(r, p, PERSON, surface, origin).1;
    assert m in Candidates(p.cache.value.ents, r.parse(surface));
    AliasJoined(r, used, p, k, surface);
  }

  /** Resolution answers as the source decides, and changes only the entity it answers with. */
  lemma ResolveIdentifies(r: Rules, used: iset<Spelling>, p: Project, category: string, surface: string, origin: string)
    requires Inv(r, used, p) && NoClashAmong(r, used) && PeopleUnmarked(r) && Spelling(category, surface) in used
    ensures var call := Call.Resolve(category, surface, origin);
            Identified(r, Ents(p), Ents(After(r, p, call)), category, surface, origin, Answer(r, p, call))
  {
    OpenedInv(r, used, p);
    var q, f := Opened(p), NormFp(r, category, surface);
    IndexedIsOwned(Ents(p), q.cache.value.idx, f);
    if k :| Owns(Ents(p), k, f) {
      KnownAnswer(r, used, p, category, surface, origin, k);
      KnownIdentified(r, used, q, k, surface, origin);
    } else {
      assert f !in q.cache.value.idx;
      OnlyFitIsLink(r, q, surface);
      if Links(r, q, category, surface) {
        LinkedIdentified(r, used, q, surface, origin);
      } else {
        FreshIs(r, q, category, surface, origin, Key(category, MaxN(q.entity.Keys, category) + 1));
        FreshIdentified(r, used, q, category, surface, origin);
      }
    }
  }
}
