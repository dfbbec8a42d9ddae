/** Resolving mentions against the mutable vault: `Anonymizer._resolve`, `add_manual` and the detector's
    dictionary (app/desktop/engine.py). */
module LabelEngine {
  import opened Entities
  import opened Labels
  import opened LabelStore
  import opened Dictionary
  import opened Identity

  ghost predicate RulesOk(r: Rules, used: iset<Spelling>) { NoClashAmong(r, used) && PeopleUnmarked(r) }

  class Detector {
    const letters: Letters
    var dict: Option<Dict>

    constructor (letters: Letters)
      ensures dict == None && this.letters == letters
    {
      this.letters := letters;
      dict := None;
    }

    method Invalidate()
      modifies this
      ensures dict == None
    {
      dict := None;
    }

    /** The surface dictionary, rebuilt unless the version matches. */
    method Surfaces(vault: LabelVault) returns (view: map<string, Key>)
      requires vault.Valid()
      modifies this, vault`cache
      ensures vault.Valid() && vault.State() == Opened(old(vault.State()))
      ensures dict == Some(Refreshed(letters, old(dict), Ents(vault.State()))) && view == dict.value.view
    {
      var ks := vault.SortedEntities();
      var ents := vault.cache.value.ents;
      ListedInOrder(ks, ents);
      var version := CountVersion(ents, ks);
      if dict.Some? && dict.value.version == version {
        return dict.value.view;
      }
      view := BuildView(letters, ents, ks);
      dict := Some(Dict(version, view));
    }
  }

  lemma ListedInOrder(ks: seq<Key>, ents: map<Key, Entity>)
    requires Listing(ks, ents.Keys)
    ensures ks == ListingOf(ents.Keys) && forall k | k in ks :: k in ents
  {
    ListingMembers(ks, ents.Keys);
    ListingUnique(ks, ListingOf(ents.Keys), ents.Keys);
  }

  method CountVersion(ents: map<Key, Entity>, ks: seq<Key>) returns (version: nat)
    requires forall k | k in ks :: k in ents
    ensures version == Version(ents, ks)
  {
    var sum := 0;
    for i := 0 to |ks|
      invariant sum == Weight(ents, ks[..i])
    {
      assert ks[..i + 1][..i] == ks[..i];
      sum := sum + 1 + |ents[ks[i]].variants|;
    }
    assert ks[..|ks|] == ks;
    version := sum * 7 + |ks|;
  }

  method BuildView(l: Letters, ents: map<Key, Entity>, ks: seq<Key>) returns (view: map<string, Key>)
    requires forall k | k in ks :: k in ents
    ensures view == ViewOf(l, ents, ks)
  {
    view := map[];
    for i := 0 to |ks|
      invariant view == ViewOf(l, ents, ks[..i])
    {
      assert ks[..i + 1][..i] == ks[..i];
      view := AddSurfaces(l, view, ks[i], ents[ks[i]]);
    }
    assert ks[..|ks|] == ks;
  }

  function Extend(view: map<string, Key>, surfaces: set<string>, k: Key): map<string, Key> {
    view + map s | s in surfaces && s !in view :: k
  }

  lemma ExtendOne(view: map<string, Key>, surfaces: set<string>, s: string, k: Key)
    ensures Extend(view, surfaces + {s}, k)
         == if s in Extend(view, surfaces, k) then Extend(view, surfaces, k) else Extend(view, surfaces, k)[s := k]
  {
  }

  /** `setdefault` for every usable spelling of one entity */
  method AddSurfaces(l: Letters, view: map<string, Key>, k: Key, e: Entity) returns (r: map<string, Key>)
    ensures r == Extend(view, Folds(l, e), k)
  {
    r := view;
    var left := Spellings(e);
    ghost var done: set<string> := {};
    while left != {}
      invariant done + left == Spellings(e) && done !! left && r == Extend(view, FoldsOf(l, done), k)
      decreases left
    {
      var raw :| raw in left;
      var s := l.strip(raw);
      FoldsGrow(l, done, raw);
      ExtendOne(view, FoldsOf(l, done), l.fold(s), k);
      if Usable(l, s) && l.fold(s) !in r {
        r := r[l.fold(s) := k];
      }
      left, done := left - {raw}, done + {raw};
    }
    assert done == Spellings(e);
  }

  function FoldsOf(l: Letters, spellings: set<string>): set<string> {
    set s | s in spellings && Usable(l, l.strip(s)) :: l.fold(l.strip(s))
  }

  lemma FoldsGrow(l: Letters, spellings: set<string>, raw: string)
    ensures FoldsOf(l, spellings + {raw})
         == if Usable(l, l.strip(raw)) then FoldsOf(l, spellings) + {l.fold(l.strip(raw))} else FoldsOf(l, spellings)
  {
  }

  /** The people a mention may stand for. */
  method CompatiblePeople(ents: map<Key, Entity>, ks: seq<Key>, meta: Meta) returns (cands: seq<Key>)
    requires Listing(ks, ents.Keys)
    ensures multiset(cands) == multiset(Candidates(ents, meta))
  {
    ListingMembers(ks, ents.Keys);
    cands := [];
    ghost var found: set<Key> := {};
    for i := 0 to |ks|
      invariant multiset(cands) == multiset(found)
      invariant forall k :: k in found <==> k in ks[..i] && k in Candidates(ents, meta)
    {
      var k := ks[i];
      if k.category == PERSON && Compatible(meta, ents[k].row.meta) {
        assert k !in ks[..i];
        cands, found := cands + [k], found + {k};
      }
    }
    assert found == Candidates(ents, meta);
  }

  class Anonymizer {
    const vault: LabelVault
    const detector: Detector

    ghost predicate Valid()
      reads vault, detector
    {
      && vault.Valid() && RulesOk(vault.rules, vault.used)
      && Remembers(detector.letters, detector.dict, Ents(vault.State()))
    }

    constructor (vault: LabelVault, detector: Detector)
      requires vault.Valid() && RulesOk(vault.rules, vault.used) && detector.dict == None
      ensures Valid() && this.vault == vault && this.detector == detector
    {
      this.vault, this.detector := vault, detector;
    }

    /** Detection reads the current dictionary. */
    method Surfaces() returns (view: map<string, Key>)
      requires Valid()
      modifies detector, vault`cache
      ensures Valid() && vault.State() == Opened(old(vault.State()))
      ensures view == ViewNow(detector.letters, Ents(vault.State()))
    {
      RefreshRemembers(detector.letters, detector.dict, Ents(vault.State()));
      view := detector.Surfaces(vault);
    }

    method Resolve(category: string, surface: string, origin: string) returns (k: Key)
      requires Valid() && Spelling(category, surface) in vault.used
      modifies vault, detector
      ensures Valid() && vault.State() == After(vault.rules, old(vault.State()), Call.Resolve(category, surface, origin))
      ensures k == Answer(vault.rules, old(vault.State()), Call.Resolve(category, surface, origin))
      ensures Identified(vault.rules, old(Ents(vault.State())), Ents(vault.State()), category, surface, origin, k)
      ensures detector.dict == if old(Known(vault.rules, vault.State(), category, surface)) then old(detector.dict) else None
    {
      ghost var p, r, call := vault.State(), vault.rules, Call.Resolve(category, surface, origin);
      StepRemembers(detector.letters, r, vault.used, p, detector.dict, call);
      ResolveIdentifies(r, vault.used, p, category, surface, origin);
      var f := NormFp(vault.rules, category, surface);
      var found := vault.ByFingerprint(f);
      if found.Some? {
        k := found.value;
        KnownAnswer(r, vault.used, p, category, surface, origin, k);
        AddSpelling(category, surface, k);
      } else {
        k := ResolveUnknown(category, surface, origin);
      }
    }

    /** No entity owns the norm: link a person to the only compatible one, or number a new entity. */
    method ResolveUnknown(category: string, surface: string, origin: string) returns (k: Key)
      requires vault.Valid() && RulesOk(vault.rules, vault.used) && vault.cache.Some?
      requires Spelling(category, surface) in vault.used
      requires forall m :: !Owns(Ents(vault.State()), m, NormFp(vault.rules, category, surface))
      modifies vault, detector
      ensures vault.Valid() && detector.dict == None
      ensures (vault.State(), k) == ResolveIn(vault.rules, old(vault.State()), category, surface, origin)
    {
      ghost var p := vault.State();
      var meta := if category == PERSON then vault.rules.parse(surface) else NO_META;
      if category == PERSON {
        var cand := OnlyCompatible(meta);
        if cand.Some? {
          k := cand.value;
          LinkedAnswer(vault.rules, vault.used, p, surface, origin, k);
          LinkAlias(surface, k);
          detector.Invalidate();
          return;
        }
      }
      FreshAnswer(vault.rules, vault.used, p, category, surface, origin);
      k := vault.AddEntity(category, NormFp(vault.rules, category, surface), surface, meta, origin);
      detector.Invalidate();
    }

    /** The compatible person, if there is exactly one. */
    method OnlyCompatible(meta: Meta) returns (cand: Option<Key>)
      requires vault.Valid() && vault.cache.Some?
      modifies vault`cache
      ensures vault.State() == old(vault.State())
      ensures cand.Some? <==> Truthy(meta.s) && |Candidates(vault.cache.value.ents, meta)| == 1
      ensures cand.Some? ==> Candidates(vault.cache.value.ents, meta) == {cand.value}
    {
      cand := None;
      if Truthy(meta.s) {
        var ks := vault.SortedEntities();
        var cands := CompatiblePeople(vault.cache.value.ents, ks, meta);
        ghost var cs := Candidates(vault.cache.value.ents, meta);
        assert |multiset(cands)| == |multiset(cs)|;
        if |cands| == 1 {
          cand := Some(cands[0]);
          assert cands == [cands[0]];
          forall k | k in cs ensures k == cands[0] { assert k in multiset(cs); }
          assert cands[0] in multiset(cs);
        }
      }
    }

    /** A known value in a spelling not seen before. */
    method AddSpelling(category: string, surface: string, k: Key)
      requires vault.Valid() && RulesOk(vault.rules, vault.used) && vault.cache.Some? && k.category == category
      requires Spelling(category, surface) in vault.used
      requires Owns(Ents(vault.State()), k, NormFp(vault.rules, category, surface))
      modifies vault
      ensures vault.Valid() && vault.State() == ResolveKnown(old(vault.State()), k, category, surface)
    {
      var e := vault.cache.value.ents[k];
      if !IsSurfaceOf(e, surface) {
        var f := SurfaceFp(category, surface);
        SpellingFits(vault.rules, vault.used, Ents(vault.State()), k, surface);
        vault.AddVariant(k, f, surface);
      }
    }

    /** The mention joins person `k`; the better spelling becomes canonical. */
    method LinkAlias(surface: string, k: Key)
      requires vault.Valid() && RulesOk(vault.rules, vault.used) && vault.cache.Some?
      requires k in vault.cache.value.ents && k.category == PERSON && Spelling(PERSON, surface) in vault.used
      requires forall m :: !Owns(Ents(vault.State()), m, NormFp(vault.rules, PERSON, surface))
      modifies vault
      ensures vault.Valid() && vault.State() == ResolveAlias(vault.rules, old(vault.State()), k, surface)
    {
      var f := NormFp(vault.rules, PERSON, surface);
      AddVariantInv(vault.rules, vault.used, vault.State(), k, f, surface);
      vault.AddVariant(k, f, surface);
      var e := vault.cache.value.ents[k];
      if vault.rules.score(surface) > vault.rules.score(e.row.value) {
        assert Owns(Ents(vault.State()), k, f);
        Promote(surface, k, Merged(vault.rules.parse(surface), e.row.meta));
      }
    }

    method Promote(surface: string, k: Key, merged: Meta)
      requires vault.Valid() && RulesOk(vault.rules, vault.used) && vault.cache.Some? && k.category == PERSON
      requires Spelling(PERSON, surface) in vault.used
      requires Owns(Ents(vault.State()), k, NormFp(vault.rules, PERSON, surface))
      modifies vault
      ensures vault.Valid()
      ensures var row := old(Ents(vault.State())[k].row);
              vault.State() == Labels.AddVariant(SetRow(old(vault.State()), k, row.(value := surface, meta := merged)), k,
                                                 SurfaceFp(PERSON, row.value), row.value)
    {
      var was := vault.cache.value.ents[k].row.value;
      ghost var p := vault.State();
      assert Home(vault.rules, vault.used, k, Ents(p)[k]);
      assert Owns(Ents(p), k, NormFp(vault.rules, PERSON, was));
      CanonicalHome(vault.rules, vault.used, k, Ents(p)[k], Ents(p)[k].row.(value := surface, meta := merged));
      vault.SetCanonical(k, surface, merged);
      ghost var q := vault.State();
      SetRowInv(vault.rules, vault.used, p, k, Ents(p)[k].row.(value := surface, meta := merged));
      forall m | Owns(Ents(q), m, SurfaceFp(PERSON, was)) ensures m == k {
        NoSteal(vault.rules, vault.used, Ents(q), k, was, m);
      }
      vault.AddVariant(k, SurfaceFp(PERSON, was), was);
    }

    method AddManual(category: string, value: string, excluded: bool) returns (k: Key)
      requires Valid() && Spelling(category, vault.rules.strip(value)) in vault.used
      modifies vault, detector
      ensures Valid() && vault.State() == After(vault.rules, old(vault.State()), Manual(category, value, excluded))
      ensures k == Answer(vault.rules, old(vault.State()), Manual(category, value, excluded)) && detector.dict == None
      ensures k in Ents(vault.State()) && Ents(vault.State())[k].row.excluded == excluded
    {
      ManualSteps(vault.rules, vault.used, vault.State(), category, value, excluded);
      k := Resolve(category, vault.rules.strip(value), "manual");
      SetExclusion(k, excluded);
      detector.Invalidate();
    }

    method SetExclusion(k: Key, excluded: bool)
      requires vault.Valid() && vault.cache.Some? && k in vault.cache.value.ents
      modifies vault
      ensures vault.Valid() && vault.State() == Exclude(old(vault.State()), k, excluded)
    {
      if excluded != vault.cache.value.ents[k].row.excluded {
        vault.SetExcluded(k, excluded);
      }
    }

    /** The server's handler for deletion. */
    method DeleteEntity(k: Key)
      requires Valid()
      modifies vault, detector
      ensures Valid() && vault.State() == Delete(old(vault.State()), k) && detector.dict == None
    {
      vault.DeleteEntity(k);
      detector.Invalidate();
    }
  }

  lemma SpellingFits(r: Rules, used: iset<Spelling>, ents: map<Key, Entity>, k: Key, surface: string)
    requires Homes(r, used, ents) && RulesOk(r, used) && Owns(ents, k, NormFp(r, k.category, surface))
    requires surface != ents[k].row.value && Spelling(k.category, surface) in used
    ensures Fits(r, used, k, ents[k], SurfaceFp(k.category, surface), surface)
    ensures forall m :: Owns(ents, m, SurfaceFp(k.category, surface)) ==> m == k
  {
    forall m | Owns(ents, m, SurfaceFp(k.category, surface)) ensures m == k { NoSteal(r, used, ents, k, surface, m); }
    if k.category != PERSON { NormIsRowFp(r, used, ents, k, surface); }
  }

  lemma LinkedAnswer(r: Rules, used: iset<Spelling>, p: Project, surface: string, origin: string, k: Key)
    requires p.cache.Some? && Truthy(r.parse(surface).s)
    requires Candidates(p.cache.value.ents, r.parse(surface)) == {k}
    requires Inv(r, used, p) && forall m :: !Owns(Ents(p), m, NormFp(r, PERSON, surface))
    ensures k in p.cache.value.ents && k.category == PERSON
    ensures ResolveIn(r, p, PERSON, surface, origin) == (ResolveAlias(r, p, k, surface), k)
  {
    var c, f := p.cache.value, NormFp(r, PERSON, surface);
    assert k in Candidates(c.ents, r.parse(surface));
    IndexedIsOwned(Ents(p), c.idx, f);
  }

  lemma FreshAnswer(r: Rules, used: iset<Spelling>, p: Project, category: string, surface: string, origin: string)
    requires RulesOk(r, used) && p.cache.Some? && !Links(r, p, category, surface) && Spelling(category, surface) in used
    requires Inv(r, used, p) && forall m :: !Owns(Ents(p), m, NormFp(r, category, surface))
    ensures var k, row := Key(category, MaxN(p.entity.Keys, category) + 1), FreshRow(r, category, surface, origin);
            && ResolveIn(r, p, category, surface, origin) == (AddEntity(p, k, row), k)
            && forall n :: Home(r, used, Key(category, n), Entity(row, map[]))
  {
    var c, f := p.cache.value, NormFp(r, category, surface);
    IndexedIsOwned(Ents(p), c.idx, f);
  }

  /** A manual addition is a resolution and then an exclusion. */
  lemma ManualSteps(r: Rules, used: iset<Spelling>, p: Project, category: string, value: string, excluded: bool)
    requires Inv(r, used, p) && RulesOk(r, used) && Spelling(category, r.strip(value)) in used
    ensures var call := Call.Resolve(category, r.strip(value), "manual");
            var q, k := After(r, p, call), Answer(r, p, call);
            && q.cache.Some? && k in q.cache.value.ents
            && k == Answer(r, p, Manual(category, value, excluded))
            && After(r, p, Manual(category, value, excluded)) == Exclude(q, k, excluded)
  {
    OpenedInv(r, used, p);
    ResolveInv(r, used, Opened(p), category, r.strip(value), "manual");
  }
}
