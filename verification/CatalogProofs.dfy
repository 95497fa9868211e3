/** What resolving and relating keep: table constraints, the Steam identity rule, and title coherence. */
module CatalogProofs {
  import opened Options
  import opened Titles
  import opened Catalog

  /** The table constraints, the Steam identity rule, and that every mapping fits its game. */
  ghost predicate Sound(score: Score, c: Catalog) {
    Consistent(c) && SteamUnique(c) && Coherent(score, c)
  }

  /** A mapping that does not fit its game is an old one that did not fit before. */
  ghost predicate FitsKept(score: Score, c: Catalog, c': Catalog) {
    forall m :: m in c'.mappings ==> MappingFits(score, c', m) || (m in c.mappings && !MappingFits(score, c, m))
  }

  /** Numeric Steam mappings that share a game did so before. */
  ghost predicate NoNewRivals(c: Catalog, c': Catalog) {
    forall m, n :: m in c'.mappings && n in c'.mappings && m != n && SteamRivals(c'.mappings[m], c'.mappings[n]) ==>
      m in c.mappings && n in c.mappings && SteamRivals(c.mappings[m], c.mappings[n])
  }

  /** The tables stay consistent and no violation of the other two rules is added, whatever violations there were. */
  ghost predicate NoWorse(score: Score, c: Catalog, c': Catalog) {
    Consistent(c') && FitsKept(score, c, c') && NoNewRivals(c, c')
  }

  lemma NoWorseThenNoWorse(score: Score, a: Catalog, b: Catalog, c: Catalog)
    requires NoWorse(score, a, b) && NoWorse(score, b, c)
    ensures NoWorse(score, a, c)
  {
    FitsStayKept(score, a, b, c);
    RivalsStayOld(a, b, c);
  }

  lemma FitsStayKept(score: Score, a: Catalog, b: Catalog, c: Catalog)
    requires FitsKept(score, a, b) && FitsKept(score, b, c)
    ensures FitsKept(score, a, c)
  {
    forall m | m in c.mappings && !MappingFits(score, c, m) ensures m in a.mappings && !MappingFits(score, a, m) {
      assert m in b.mappings && !MappingFits(score, b, m);
    }
  }

  lemma RivalsStayOld(a: Catalog, b: Catalog, c: Catalog)
    requires NoNewRivals(a, b) && NoNewRivals(b, c)
    ensures NoNewRivals(a, c)
  {
    forall m, n | m in c.mappings && n in c.mappings && m != n && SteamRivals(c.mappings[m], c.mappings[n])
      ensures m in a.mappings && n in a.mappings && SteamRivals(a.mappings[m], a.mappings[n])
    {
      assert m in b.mappings && n in b.mappings && SteamRivals(b.mappings[m], b.mappings[n]);
    }
  }

  lemma NoWorseKeepsSound(score: Score, c: Catalog, c': Catalog)
    requires Sound(score, c) && NoWorse(score, c, c')
    ensures Sound(score, c')
  {
    forall m | m in c'.mappings ensures MappingFits(score, c', m) {
      assert m in c.mappings ==> MappingFits(score, c, m);
    }
  }

  /** Games keep their titles and mappings of other keys stay as they are. */
  ghost predicate Grows(c: Catalog, c': Catalog, platform: Platform, extId: string) {
    && (forall g :: g in c.games ==> g in c'.games && c'.games[g].title == c.games[g].title)
    && (forall m :: m in c.mappings ==> m in c'.mappings)
    && (forall m :: m in c.mappings && !HasKey(c.mappings[m], platform, extId) ==> c'.mappings[m] == c.mappings[m])
  }

  predicate HasKey(m: Mapping, platform: Platform, extId: string) {
    m.platform == platform && m.extId == extId
  }

  /** The game found is compatible, not the excluded one, and free of other numeric Steam mappings. */
  lemma FoundIsSuitable(score: Score, c: Catalog, platform: Platform, imp: Import, exclude: Option<nat>, g: nat)
    requires Consistent(c) && MayFind(score, c, platform, imp, exclude, g)
    requires exclude.Some? ==> exclude.value in c.games
    ensures Consistent(Found(c, imp, g)) && g in Found(c, imp, g).games && exclude != Some(g)
    ensures Compatible(score, Found(c, imp, g).games[g].title, imp.title)
    ensures forall other :: other in c.games ==> Found(c, imp, g).games[other] == c.games[other]
    ensures NumericSteam(platform, imp.extId) ==>
      forall m :: m in c.mappings && IsNumericSteam(c.mappings[m]) && c.mappings[m].game == g ==>
        c.mappings[m].extId == imp.extId
  {
    if g != c.nextGame {
      assert Allowed(c, platform, imp, exclude, g);
      forall m | m in c.mappings && IsNumericSteam(c.mappings[m]) && c.mappings[m].game == g
        && NumericSteam(platform, imp.extId)
        ensures c.mappings[m].extId == imp.extId
      {
        assert c.mappings[m].extId != imp.extId ==> g in SteamConflicts(c, imp);
      }
    }
  }

  /** The same mappings to games of the same titles. */
  ghost predicate SameMappings(c: Catalog, c': Catalog) {
    && c'.mappings == c.mappings
    && forall g :: g in c.games ==> g in c'.games && c'.games[g].title == c.games[g].title
  }

  lemma SameMappingsNoWorse(score: Score, c: Catalog, c': Catalog)
    requires Consistent(c) && Consistent(c') && SameMappings(c, c')
    ensures NoWorse(score, c, c')
  {
  }

  lemma MergedKeeps(score: Score, c: Catalog, g: nat, imp: Import)
    requires Consistent(c) && g in c.games
    ensures SameMappings(c, Merged(c, g, imp)) && NoWorse(score, c, Merged(c, g, imp))
  {
    SameMappingsNoWorse(score, c, Merged(c, g, imp));
  }

  lemma FlushedKeeps(score: Score, c: Catalog)
    requires Consistent(c)
    ensures SameMappings(c, Flushed(c)) && NoWorse(score, c, Flushed(c))
  {
    SameMappingsNoWorse(score, c, Flushed(c));
  }

  /**
    * The key's mapping may go to the game: titles are compatible, and any numeric Steam mapping it has is the key's
    * own.
    */
  ghost predicate Suits(score: Score, c: Catalog, platform: Platform, extId: string, title: Title, g: nat) {
    g in c.games && Compatible(score, c.games[g].title, title) && SteamFree(c, platform, extId, g)
  }

  ghost predicate SteamFree(c: Catalog, platform: Platform, extId: string, g: nat) {
    NumericSteam(platform, extId) ==>
      forall m :: m in c.mappings && IsNumericSteam(c.mappings[m]) && c.mappings[m].game == g ==>
        HasKey(c.mappings[m], platform, extId)
  }

  lemma FoundKeeps(score: Score, c: Catalog, platform: Platform, imp: Import, exclude: Option<nat>, g: nat)
    requires Consistent(c) && MayFind(score, c, platform, imp, exclude, g)
    requires exclude.Some? ==> exclude.value in c.games
    ensures SameMappings(c, Found(c, imp, g)) && NoWorse(score, c, Found(c, imp, g))
    ensures Suits(score, Found(c, imp, g), platform, imp.extId, imp.title, g)
  {
    FoundIsSuitable(score, c, platform, imp, exclude, g);
    SameMappingsNoWorse(score, c, Found(c, imp, g));
  }

  lemma OnlyMapping(c: Catalog, platform: Platform, extId: string, m: nat)
    requires UniqueKeys(c) && m in MappingIds(c, platform, extId)
    ensures MappingIds(c, platform, extId) == {m}
  {
    forall n | n in MappingIds(c, platform, extId) ensures n == m {
      assert SameKey(c.mappings[n], c.mappings[m]);
    }
  }

  /* ---------- A new mapping ---------- */

  lemma WithMappingKeeps(c: Catalog, m: Mapping)
    requires Consistent(c) && MappingIds(c, m.platform, m.extId) == {}
    requires m.game in c.games && SteamFree(c, m.platform, m.extId, m.game)
    ensures Consistent(WithMapping(c, m)) && NoNewRivals(c, WithMapping(c, m))
    ensures MappingIds(WithMapping(c, m), m.platform, m.extId) == {c.nextMapping}
  {
    var c' := WithMapping(c, m);
    forall n | n in c.mappings ensures !SameKey(c.mappings[n], m) && !SteamRivals(c.mappings[n], m) {
      assert n !in MappingIds(c, m.platform, m.extId);
    }
    assert c.nextMapping in MappingIds(c', m.platform, m.extId);
    OnlyMapping(c', m.platform, m.extId, c.nextMapping);
  }

  /** A new mapping to a suitable game, flushed. */
  lemma AddMapping(score: Score, c: Catalog, m: Mapping, c': Catalog)
    requires Consistent(c) && MappingIds(c, m.platform, m.extId) == {}
    requires Suits(score, c, m.platform, m.extId, m.title, m.game) && c' == Flushed(WithMapping(c, m))
    ensures NoWorse(score, c, c') && Grows(c, c', m.platform, m.extId)
    ensures MappingIds(c', m.platform, m.extId) == {c.nextMapping} && c'.mappings[c.nextMapping] == m
    ensures Alone(c', c.nextMapping)
  {
    WithMappingKeeps(c, m);
    FlushedKeeps(score, WithMapping(c, m));
    NewMappingFits(score, c, m, c');
    NewMappingAlone(c, m, c');
  }

  lemma NewMappingAlone(c: Catalog, m: Mapping, c': Catalog)
    requires Consistent(c) && MappingIds(c, m.platform, m.extId) == {} && SteamFree(c, m.platform, m.extId, m.game)
    requires c' == Flushed(WithMapping(c, m))
    ensures Alone(c', c.nextMapping)
  {
    forall n | n in c'.mappings && n != c.nextMapping ensures !SteamRivals(c'.mappings[n], c'.mappings[c.nextMapping]) {
      assert n !in MappingIds(c, m.platform, m.extId);
    }
  }

  lemma NewMappingFits(score: Score, c: Catalog, m: Mapping, c': Catalog)
    requires Consistent(c) && m.game in c.games && Compatible(score, c.games[m.game].title, m.title)
    requires c' == Flushed(WithMapping(c, m))
    ensures FitsKept(score, c, c')
  {
    forall n | n in c'.mappings && n != c.nextMapping
      ensures n in c.mappings && MappingFits(score, c', n) == MappingFits(score, c, n)
    {
    }
  }

  /** The mapping shares its game with no other numeric Steam mapping. */
  ghost predicate Alone(c: Catalog, m: nat) {
    m in c.mappings && forall n :: n in c.mappings && n != m ==> !SteamRivals(c.mappings[n], c.mappings[m])
  }

  /** Then nothing has to be repaired. */
  lemma AloneStays(score: Score, c: Catalog, platform: Platform, imp: Import, m: nat)
    requires Alone(c, m) && m in MappingIds(c, platform, imp.extId) && c.mappings[m].game in c.games
    requires Compatible(score, c.games[c.mappings[m].game].title, imp.title)
    ensures !MustMove(score, c, platform, imp, m)
  {
    forall n | n in c.mappings && n < m && IsNumericSteam(c.mappings[n]) && NumericSteam(platform, imp.extId)
      ensures c.mappings[n].game != c.mappings[m].game
    {
      assert !SteamRivals(c.mappings[n], c.mappings[m]);
    }
  }

  /* ---------- A mapping that moves ---------- */

  lemma RehomedKeeps(score: Score, c: Catalog, platform: Platform, imp: Import, m: nat, g: nat, c': Catalog)
    requires Consistent(c) && m in MappingIds(c, platform, imp.extId) && c' == Rehomed(c, m, g, imp)
    requires Suits(score, c, platform, imp.extId, imp.title, g)
    ensures NoWorse(score, c, c') && Alone(c', m)
  {
    forall n | n in c'.mappings && n != m ensures MappingFits(score, c', n) == MappingFits(score, c, n) { }
    forall n | n in c.mappings && n != m
      ensures !SameKey(c.mappings[n], c.mappings[m]) && !SteamRivals(c.mappings[n], c'.mappings[m])
    {
    }
  }

  /** A mapping whose game no longer fits moves to one that does. */
  lemma MoveMapping(score: Score, c: Catalog, platform: Platform, imp: Import, m: nat, g: nat, c': Catalog)
    requires Consistent(c) && m in MappingIds(c, platform, imp.extId) && g in Found(c, imp, g).games
    requires MayFind(score, c, platform, imp, Some(c.mappings[m].game), g)
    requires c' == Merged(Flushed(Rehomed(Found(c, imp, g), m, g, imp)), g, imp)
    ensures NoWorse(score, c, c') && Alone(c', m)
    ensures m in MappingIds(c', platform, imp.extId) && g in c'.games && Compatible(score, c'.games[g].title, imp.title)
    ensures c'.mappings[m] == c.mappings[m].(game := g, title := imp.title) && g != c.mappings[m].game
  {
    var home := Some(c.mappings[m].game);
    FoundKeeps(score, c, platform, imp, home, g);
    FoundIsSuitable(score, c, platform, imp, home, g);
    var found := Found(c, imp, g);
    var moved := Rehomed(found, m, g, imp);
    assert m in MappingIds(found, platform, imp.extId);
    RehomedKeeps(score, found, platform, imp, m, g, moved);
    FlushedKeeps(score, moved);
    MergedKeeps(score, Flushed(moved), g, imp);
    NoWorseThenNoWorse(score, c, found, moved);
    NoWorseThenNoWorse(score, c, moved, Flushed(moved));
    NoWorseThenNoWorse(score, c, Flushed(moved), c');
  }

  lemma MovedGrows(c: Catalog, platform: Platform, imp: Import, m: nat, g: nat, c': Catalog)
    requires Consistent(c) && m in MappingIds(c, platform, imp.extId) && g in Found(c, imp, g).games
    requires c' == Merged(Flushed(Rehomed(Found(c, imp, g), m, g, imp)), g, imp)
    ensures Grows(c, c', platform, imp.extId)
  {
  }

  /* ---------- Resolving ---------- */

  /** The key's one mapping is at the game, and a further resolution would leave it there. */
  ghost predicate Settles(score: Score, c: Catalog, platform: Platform, imp: Import, g: nat, m: nat) {
    && MappingIds(c, platform, imp.extId) == {m} && m in c.mappings && c.mappings[m].game == g
    && g in c.games && Compatible(score, c.games[g].title, imp.title)
    && !MustMove(score, c, platform, imp, m)
  }

  lemma ResolveNewKey(score: Score, c: Catalog, platform: Platform, imp: Import, g: nat, c': Catalog)
    requires Consistent(c) && MappingIds(c, platform, imp.extId) == {}
    requires MayFind(score, c, platform, imp, None, g) && g in Found(c, imp, g).games
    requires c' == Mapped(c, platform, imp, g)
    ensures NoWorse(score, c, c') && Grows(c, c', platform, imp.extId)
    ensures Settles(score, c', platform, imp, g, c.nextMapping)
  {
    var merged := Merged(Found(c, imp, g), g, imp);
    ReadyForMapping(score, c, platform, imp, g, merged);
    AddMapping(score, merged, Mapping(g, platform, imp.extId, imp.title), c');
    NoWorseThenNoWorse(score, c, merged, c');
    AloneStays(score, c', platform, imp, c.nextMapping);
  }

  /** The game found, before its mapping is added. */
  lemma ReadyForMapping(score: Score, c: Catalog, platform: Platform, imp: Import, g: nat, merged: Catalog)
    requires Consistent(c) && MappingIds(c, platform, imp.extId) == {}
    requires MayFind(score, c, platform, imp, None, g) && g in Found(c, imp, g).games
    requires merged == Merged(Found(c, imp, g), g, imp)
    ensures NoWorse(score, c, merged) && SameMappings(c, merged) && merged.nextMapping == c.nextMapping
    ensures Suits(score, merged, platform, imp.extId, imp.title, g) && MappingIds(merged, platform, imp.extId) == {}
  {
    FoundKeeps(score, c, platform, imp, None, g);
    MergedKeeps(score, Found(c, imp, g), g, imp);
    NoWorseThenNoWorse(score, c, Found(c, imp, g), merged);
    assert MappingIds(merged, platform, imp.extId) == MappingIds(c, platform, imp.extId);
  }

  lemma ResolveKnownKey(score: Score, c: Catalog, platform: Platform, imp: Import, m: nat, g: nat, c': Catalog)
    requires Consistent(c) && m in MappingIds(c, platform, imp.extId)
    requires MayKeep(score, c, platform, imp, m, g)
    requires if MustMove(score, c, platform, imp, m) then g in Found(c, imp, g).games else g in c.games
    requires c' == Kept(score, c, platform, imp, m, g)
    ensures NoWorse(score, c, c') && Grows(c, c', platform, imp.extId)
    ensures Settles(score, c', platform, imp, g, m)
    ensures MustMove(score, c, platform, imp, m) ==> g != c.mappings[m].game && c'.mappings[m].title == imp.title
  {
    if MustMove(score, c, platform, imp, m) {
      MoveMapping(score, c, platform, imp, m, g, c');
      MovedGrows(c, platform, imp, m, g, c');
      AloneStays(score, c', platform, imp, m);
    } else {
      MergedKeeps(score, c, g, imp);
    }
    OnlyMapping(c', platform, imp.extId, m);
  }

  /**
    * In every consistent catalog, whatever mappings collide or do not fit: resolving finds a compatible game, leaves
    * every other mapping alone and adds no violation, and afterwards the key's mapping is settled at that game.
    */
  lemma ResolveIsRight(score: Score, c: Catalog, platform: Platform, imp: Import, g: nat, c': Catalog) returns (m: nat)
    requires Consistent(c) && Resolves(score, c, platform, imp, g, c')
    ensures NoWorse(score, c, c') && Grows(c, c', platform, imp.extId)
    ensures Settles(score, c', platform, imp, g, m)
    ensures MappingIds(c, platform, imp.extId) <= {m}
    ensures m in c.mappings ==> m in MappingIds(c, platform, imp.extId)
  {
    if MappingIds(c, platform, imp.extId) == {} {
      m := c.nextMapping;
      ResolveNewKey(score, c, platform, imp, g, c');
    } else {
      m :| m in MappingIds(c, platform, imp.extId);
      ResolveKnownKey(score, c, platform, imp, m, g, c');
      OnlyMapping(c, platform, imp.extId, m);
    }
  }

  /**
    * A mapping stays exactly when its game fits and it is the game's first numeric Steam mapping. Otherwise it is
    * repaired: it gets another game, which fits and has no other numeric Steam mapping, and takes the import's title.
    */
  lemma ResolveRepairs(score: Score, c: Catalog, platform: Platform, imp: Import, g: nat, c': Catalog, m: nat)
    requires Consistent(c) && Resolves(score, c, platform, imp, g, c') && m in MappingIds(c, platform, imp.extId)
    ensures m in c'.mappings && c'.mappings[m].game == g
    ensures g == c.mappings[m].game <==> !MustMove(score, c, platform, imp, m)
    ensures MustMove(score, c, platform, imp, m) ==> Alone(c', m) && c'.mappings[m].title == imp.title
  {
    assert MayKeep(score, c, platform, imp, m, g) && c' == Kept(score, c, platform, imp, m, g);
    ResolveKnownKey(score, c, platform, imp, m, g, c');
    if MustMove(score, c, platform, imp, m) { MoveMapping(score, c, platform, imp, m, g, c'); }
  }

  /** A catalog without violations stays so. */
  lemma ResolveKeepsSound(score: Score, c: Catalog, platform: Platform, imp: Import, g: nat, c': Catalog)
    requires Sound(score, c) && Resolves(score, c, platform, imp, g, c')
    ensures Sound(score, c')
  {
    var m := ResolveIsRight(score, c, platform, imp, g, c');
    NoWorseKeepsSound(score, c, c');
  }

  /** Resolving the same import again returns the same game and changes nothing, in every consistent catalog. */
  lemma ResolveAgainChangesNothing(score: Score, c: Catalog, platform: Platform, imp: Import,
      g: nat, c': Catalog, g': nat, c'': Catalog)
    requires Consistent(c) && Resolves(score, c, platform, imp, g, c')
    requires Consistent(c') && Resolves(score, c', platform, imp, g', c'')
    ensures g' == g && c'' == c'
  {
    var m := ResolveIsRight(score, c, platform, imp, g, c');
    assert m in MappingIds(c', platform, imp.extId);
    assert MayKeep(score, c', platform, imp, m, g') && c'' == Kept(score, c', platform, imp, m, g');
    MergedInto(score, c, platform, imp, g, c');
  }

  /** After a resolution the game already has the import's availability. */
  lemma MergedInto(score: Score, c: Catalog, platform: Platform, imp: Import, g: nat, c': Catalog)
    requires Consistent(c) && Resolves(score, c, platform, imp, g, c') && g in c'.games
    ensures Merged(c', g, imp) == c'
  {
    assert imp.isFree.Some? ==> c'.games[g].isFree == imp.isFree.value by {
      if MappingIds(c, platform, imp.extId) != {} {
        var m :| m in MappingIds(c, platform, imp.extId);
        assert c' == Kept(score, c, platform, imp, m, g);
      }
    }
    MergedTwice(c', g, imp);
  }

  lemma MergedTwice(c: Catalog, g: nat, imp: Import)
    requires g in c.games && (imp.isFree.Some? ==> c.games[g].isFree == imp.isFree.value)
    ensures Merged(c, g, imp) == c
  {
    if imp.isFree.Some? { assert c.games[g := c.games[g]] == c.games; }
  }
}
