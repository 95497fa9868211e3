/** Which games imports share: when resolving uses a game there is, which one, and when it adds a game. */
module GameReuse {
  import opened Options
  import opened Titles
  import opened Catalog
  import opened CatalogProofs

  predicate SteamApp(m: Mapping) {
    m.platform == "steam" && AllDigits(m.extId)
  }

  /** A numeric Steam mapping with another id than the import's keeps a game from an import with a numeric Steam id. */
  ghost predicate Taken(c: Catalog, platform: Platform, imp: Import, g: nat) {
    && platform == "steam" && AllDigits(imp.extId)
    && exists m :: m in c.mappings && c.mappings[m].game == g && SteamApp(c.mappings[m])
                   && c.mappings[m].extId != imp.extId
  }

  /** A game the search may return: queries see it, it is not the one the mapping leaves, and it is not taken. */
  ghost predicate Eligible(c: Catalog, platform: Platform, imp: Import, leaves: Option<nat>, g: nat) {
    g in c.stored && leaves != Some(g) && !Taken(c, platform, imp, g)
  }

  ghost predicate Fitting(score: Score, c: Catalog, platform: Platform, imp: Import, leaves: Option<nat>, g: nat) {
    Eligible(c, platform, imp, leaves, g) && Compatible(score, c.stored[g].title, imp.title)
  }

  ghost predicate Namesake(c: Catalog, platform: Platform, imp: Import, leaves: Option<nat>, g: nat) {
    Eligible(c, platform, imp, leaves, g) && c.stored[g].title == imp.title
  }

  /** The mapping's game has an older numeric Steam mapping, or does not fit the import's title. */
  ghost predicate Misplaced(score: Score, c: Catalog, platform: Platform, imp: Import, m: nat)
    requires m in c.mappings && c.mappings[m].game in c.games
  {
    || (&& platform == "steam" && AllDigits(imp.extId)
        && exists n :: n in c.mappings && n < m && c.mappings[n].game == c.mappings[m].game && SteamApp(c.mappings[n]))
    || !Compatible(score, c.games[c.mappings[m].game].title, imp.title)
  }

  /** The import looks for a game: its key is new, or its mapping leaves a game. */
  ghost predicate Searches(score: Score, c: Catalog, platform: Platform, imp: Import, leaves: Option<nat>)
    requires Consistent(c)
  {
    match leaves
    case None => forall m :: m in c.mappings ==> !HasKey(c.mappings[m], platform, imp.extId)
    case Some(home) =>
      exists m :: m in c.mappings && HasKey(c.mappings[m], platform, imp.extId) && c.mappings[m].game == home
        && Misplaced(score, c, platform, imp, m)
  }

  lemma EligibleIsAllowed(c: Catalog, platform: Platform, imp: Import, leaves: Option<nat>, g: nat)
    ensures Eligible(c, platform, imp, leaves, g) <==> Allowed(c, platform, imp, leaves, g)
  {
  }

  /** The score of no other fitting game is higher. */
  ghost predicate Closest(score: Score, c: Catalog, platform: Platform, imp: Import, leaves: Option<nat>, g: nat) {
    && Fitting(score, c, platform, imp, leaves, g)
    && forall h :: Fitting(score, c, platform, imp, leaves, h) ==>
         score(c.stored[h].title, imp.title) <= score(c.stored[g].title, imp.title)
  }

  lemma SearchFinds(score: Score, c: Catalog, platform: Platform, imp: Import, leaves: Option<nat>, g: nat)
    requires Consistent(c) && MayFind(score, c, platform, imp, leaves, g)
    ensures (exists h :: Namesake(c, platform, imp, leaves, h)) ==> Namesake(c, platform, imp, leaves, g)
    ensures (exists h :: Fitting(score, c, platform, imp, leaves, h)) ==>
      Fitting(score, c, platform, imp, leaves, g)
      && (Namesake(c, platform, imp, leaves, g) || Closest(score, c, platform, imp, leaves, g))
    ensures (forall h :: !Fitting(score, c, platform, imp, leaves, h)) ==> g == c.nextGame
  {
    hide SequenceTokens, Words, Taken;
    forall h ensures Namesake(c, platform, imp, leaves, h) <==> h in ExactMatches(c, platform, imp, leaves) {
      EligibleIsAllowed(c, platform, imp, leaves, h);
    }
    forall h ensures Fitting(score, c, platform, imp, leaves, h) <==> h in Candidates(score, c, platform, imp, leaves) {
      EligibleIsAllowed(c, platform, imp, leaves, h);
    }
  }

  /** One game more, with the import's title. */
  ghost predicate AddsGame(c: Catalog, imp: Import, g: nat, c': Catalog) {
    c'.games.Keys == c.games.Keys + {g} && c'.games[g] == Game(imp.title, imp.isFree == Some(true))
  }

  /** The key's mapping is at the game under the import's title, and no other mapping has changed. */
  ghost predicate Places(c: Catalog, platform: Platform, imp: Import, g: nat, c': Catalog) {
    && c.mappings.Keys <= c'.mappings.Keys
    && (forall m :: m in c'.mappings ==>
          if HasKey(c'.mappings[m], platform, imp.extId)
          then c'.mappings[m].game == g && c'.mappings[m].title == imp.title
          else m in c.mappings && c'.mappings[m] == c.mappings[m])
  }

  lemma MisplacedMoves(score: Score, c: Catalog, platform: Platform, imp: Import, m: nat, g: nat, c': Catalog)
    requires Consistent(c) && Resolves(score, c, platform, imp, g, c') && m in c.mappings
    requires HasKey(c.mappings[m], platform, imp.extId) && Misplaced(score, c, platform, imp, m)
    ensures MayFind(score, c, platform, imp, Some(c.mappings[m].game), g) && g in Found(c, imp, g).games
    ensures c' == Merged(Flushed(Rehomed(Found(c, imp, g), m, g, imp)), g, imp)
  {
    hide Compatible;
    assert m in MappingIds(c, platform, imp.extId);
    assert MayKeep(score, c, platform, imp, m, g) && c' == Kept(score, c, platform, imp, m, g);
  }

  lemma NewKeyIsMapped(score: Score, c: Catalog, platform: Platform, imp: Import, g: nat, c': Catalog)
    requires Consistent(c) && Resolves(score, c, platform, imp, g, c') && Searches(score, c, platform, imp, None)
    ensures MayFind(score, c, platform, imp, None, g) && g in Found(c, imp, g).games
    ensures c' == Mapped(c, platform, imp, g)
  {
    hide Compatible;
    assert MappingIds(c, platform, imp.extId) == {};
  }

  /** A game found is one there was; one added is the only new one. The others are as before. */
  ghost predicate Games(c: Catalog, imp: Import, g: nat, c': Catalog) {
    && (g != c.nextGame ==> c'.games.Keys == c.games.Keys) && (g == c.nextGame ==> AddsGame(c, imp, g, c'))
    && forall h :: h in c.games && h != g ==> c'.games[h] == c.games[h]
  }

  lemma MovedGames(c: Catalog, imp: Import, m: nat, g: nat, c': Catalog)
    requires Consistent(c) && m in c.mappings && g in Found(c, imp, g).games
    requires c' == Merged(Flushed(Rehomed(Found(c, imp, g), m, g, imp)), g, imp)
    ensures Games(c, imp, g, c')
  {
  }

  lemma MappedGames(c: Catalog, platform: Platform, imp: Import, g: nat, c': Catalog)
    requires Consistent(c) && g in Found(c, imp, g).games && c' == Mapped(c, platform, imp, g)
    ensures Games(c, imp, g, c')
  {
  }

  /** What resolving does to the games when it searches. */
  lemma SearchedGames(score: Score, c: Catalog, platform: Platform, imp: Import, leaves: Option<nat>, g: nat,
      c': Catalog)
    requires Consistent(c) && Resolves(score, c, platform, imp, g, c') && Searches(score, c, platform, imp, leaves)
    ensures MayFind(score, c, platform, imp, leaves, g) && Games(c, imp, g, c')
  {
    hide Compatible, MayFind, Resolves, Games, Mapped, Merged, Found;
    if leaves.None? {
      NewKeyIsMapped(score, c, platform, imp, g, c');
      MappedGames(c, platform, imp, g, c');
    } else {
      var m :| m in c.mappings && HasKey(c.mappings[m], platform, imp.extId) && c.mappings[m].game == leaves.value
        && Misplaced(score, c, platform, imp, m);
      MisplacedMoves(score, c, platform, imp, m, g, c');
      MovedGames(c, imp, m, g, c');
    }
  }

  lemma SearchedMapping(score: Score, c: Catalog, platform: Platform, imp: Import, leaves: Option<nat>, g: nat,
      c': Catalog)
    requires Consistent(c) && Resolves(score, c, platform, imp, g, c') && Searches(score, c, platform, imp, leaves)
    ensures Places(c, platform, imp, g, c')
  {
    hide Compatible, MayFind, Resolves;
    if leaves.None? {
      NewKeyIsMapped(score, c, platform, imp, g, c');
    } else {
      var m :| m in c.mappings && HasKey(c.mappings[m], platform, imp.extId) && c.mappings[m].game == leaves.value
        && Misplaced(score, c, platform, imp, m);
      MisplacedMoves(score, c, platform, imp, m, g, c');
      MovedPlaces(c, platform, imp, m, g, c');
    }
  }

  lemma MovedPlaces(c: Catalog, platform: Platform, imp: Import, m: nat, g: nat, c': Catalog)
    requires UniqueKeys(c) && m in c.mappings && HasKey(c.mappings[m], platform, imp.extId)
    requires c'.mappings == c.mappings[m := c.mappings[m].(game := g, title := imp.title)]
    ensures Places(c, platform, imp, g, c')
  {
    forall n | n in c.mappings && HasKey(c.mappings[n], platform, imp.extId) ensures n == m {
      assert SameKey(c.mappings[n], c.mappings[m]);
    }
  }

  /**
    * An import that searches gets a game of its title if an eligible one exists, else the one of the highest score
    * among those compatible. A game is added exactly when there is none of either kind.
    */
  lemma ResolveReuses(score: Score, c: Catalog, platform: Platform, imp: Import, leaves: Option<nat>, g: nat,
      c': Catalog)
    requires Consistent(c) && Resolves(score, c, platform, imp, g, c') && Searches(score, c, platform, imp, leaves)
    ensures (exists h :: Namesake(c, platform, imp, leaves, h)) ==> Namesake(c, platform, imp, leaves, g)
    ensures (exists h :: Fitting(score, c, platform, imp, leaves, h)) ==>
      Namesake(c, platform, imp, leaves, g) || Closest(score, c, platform, imp, leaves, g)
    ensures (exists h :: Fitting(score, c, platform, imp, leaves, h)) <==> c'.games.Keys == c.games.Keys
    ensures (forall h :: !Fitting(score, c, platform, imp, leaves, h)) <==> g !in c.games
    ensures g !in c.games ==> AddsGame(c, imp, g, c')
    ensures forall h :: h in c.games && h != g ==> c'.games[h] == c.games[h]
    ensures Places(c, platform, imp, g, c')
  {
    hide Taken, MayFind, Resolves, Searches, Compatible, Places;
    SearchedGames(score, c, platform, imp, leaves, g, c');
    SearchFinds(score, c, platform, imp, leaves, g);
    SearchedMapping(score, c, platform, imp, leaves, g, c');
  }

  /** An import that does not search stays with its mapping's game, and no mapping changes. */
  lemma ResolveStays(score: Score, c: Catalog, platform: Platform, imp: Import, m: nat, g: nat, c': Catalog)
    requires Consistent(c) && Resolves(score, c, platform, imp, g, c') && m in c.mappings
    requires HasKey(c.mappings[m], platform, imp.extId) && !Misplaced(score, c, platform, imp, m)
    ensures g == c.mappings[m].game && c'.games.Keys == c.games.Keys && c'.mappings == c.mappings
    ensures forall h :: h in c.games && h != g ==> c'.games[h] == c.games[h]
  {
    hide Compatible;
    assert m in MappingIds(c, platform, imp.extId);
    assert MayKeep(score, c, platform, imp, m, g) && c' == Kept(score, c, platform, imp, m, g);
  }
}
