/**
  * The migration that splits games sharing several numeric Steam ids, before the database enforces one for each game.
  */
module SteamMigration {
  import opened Titles
  import opened Catalog
  import opened CatalogProofs
  import opened Orders

  /** The games that violate the rule. */
  function Shared(c: Catalog): set<nat> {
    set m | m in c.mappings && |SteamMappings(c, c.mappings[m].game)| > 1 :: c.mappings[m].game
  }

  predicate Named(c: Catalog, title: Title, m: nat) {
    m in c.mappings && c.mappings[m].title == title
  }

  /** The query's order on one game's mappings: the game's own title first, then the older mapping. */
  predicate Precedes(c: Catalog, title: Title, m: nat, n: nat) {
    if Named(c, title, m) == Named(c, title, n) then m < n else Named(c, title, m)
  }

  /** Another mapping of the same game is preferred to `m`. */
  predicate Outranked(c: Catalog, m: nat)
    requires m in c.mappings && c.mappings[m].game in c.games
  {
    exists n :: n in SteamMappings(c, c.mappings[m].game) && Precedes(c, c.games[c.mappings[m].game].title, n, m)
  }

  /** Whether the migration gives `m` a game of its own. */
  predicate MovesAway(c: Catalog, m: nat)
    requires m in c.mappings && c.mappings[m].game in c.games
  {
    IsNumericSteam(c.mappings[m]) && Outranked(c, m)
  }

  /** No two numeric Steam mappings share a game outside `pending`. */
  ghost predicate SteamUniqueOutside(c: Catalog, pending: set<nat>) {
    forall m, n :: m in c.mappings && n in c.mappings && SteamRivals(c.mappings[m], c.mappings[n]) ==>
      m == n || c.mappings[m].game in pending
  }

  /** `d` is `c` with some of its mappings moved to new games named after them. */
  ghost predicate Split(c: Catalog, d: Catalog, moved: set<nat>) {
    && c.nextGame <= d.nextGame && c.nextMapping == d.nextMapping
    && c.mappings.Keys == d.mappings.Keys
    && (forall g :: g in c.games ==> g in d.games && d.games[g] == c.games[g])
    && (forall m :: m in c.mappings ==>
         if m in moved then MovedTo(c, d, m) else d.mappings[m] == c.mappings[m])
  }

  /** `m` kept its key and title and has a new game of that title. */
  predicate MovedTo(c: Catalog, d: Catalog, m: nat)
    requires m in c.mappings && m in d.mappings
  {
    && d.mappings[m] == c.mappings[m].(game := d.mappings[m].game)
    && d.mappings[m].game >= c.nextGame && d.mappings[m].game in d.games
    && d.games[d.mappings[m].game] == Game(c.mappings[m].title, false)
  }

  method MoveToNewGame(c: Catalog, m: nat) returns (d: Catalog)
    requires Consistent(c) && c.stored == c.games && m in c.mappings
    ensures Consistent(d) && d.stored == d.games && Split(c, d, {m})
    ensures d.mappings[m].game == c.nextGame < d.nextGame
  {
    var g := c.nextGame;
    d := Flushed(WithGame(c, c.mappings[m].title));
    d := d.(mappings := d.mappings[m := d.mappings[m].(game := g)]);
    forall a, b | a in d.mappings && b in d.mappings && SameKey(d.mappings[a], d.mappings[b]) ensures a == b {
      assert SameKey(c.mappings[a], c.mappings[b]);
    }
  }

  lemma SplitTwice(c: Catalog, d: Catalog, e: Catalog, first: set<nat>, second: set<nat>)
    requires Split(c, d, first) && Split(d, e, second) && first !! second
    ensures Split(c, e, first + second)
  {
    forall m | m in c.mappings
      ensures if m in first + second then MovedTo(c, e, m) else e.mappings[m] == c.mappings[m]
    {
      if m in first {
        assert MovedTo(c, d, m);
        assert e.mappings[m] == d.mappings[m];
      } else if m in second {
        assert MovedTo(d, e, m) && d.mappings[m] == c.mappings[m];
      }
    }
  }

  /** Moving a mapping to a game of its own takes it from its old game and makes no new rivals. */
  lemma MoveKeepsUnique(c: Catalog, d: Catalog, m: nat, pending: set<nat>)
    requires Consistent(c) && m in c.mappings && Split(c, d, {m}) && d.mappings[m].game == c.nextGame
    requires SteamUniqueOutside(c, pending)
    ensures SteamUniqueOutside(d, pending)
    ensures forall g: nat :: g < c.nextGame ==> SteamMappings(d, g) == SteamMappings(c, g) - {m}
  {
    forall a, b | a in d.mappings && b in d.mappings && SteamRivals(d.mappings[a], d.mappings[b])
      ensures a == b || d.mappings[a].game in pending
    {
      if a != m && b != m {
        assert SteamRivals(c.mappings[a], c.mappings[b]);
      }
    }
  }

  lemma FirstExists(c: Catalog, title: Title, ids: set<nat>) returns (m: nat)
    requires ids != {}
    ensures m in ids && forall n :: n in ids && n != m ==> Precedes(c, title, m, n)
  {
    var le := (a: nat, b: nat) => !Precedes(c, title, b, a);
    m := LeastExists(ids, le);
    forall n | n in ids && n != m ensures Precedes(c, title, m, n) { assert le(m, n); }
  }

  /** The first of the mappings in the query's order. */
  method First(c: Catalog, title: Title, ids: set<nat>) returns (m: nat)
    requires ids != {}
    ensures m in ids && forall n :: n in ids && n != m ==> Precedes(c, title, m, n)
  {
    ghost var least := FirstExists(c, title, ids);
    m :| m in ids && forall n :: n in ids && n != m ==> Precedes(c, title, m, n);
  }

  /** All numeric Steam mappings of `g` but the first move to games of their own. */
  method SplitGame(c: Catalog, g: nat, ghost pending: set<nat>) returns (d: Catalog, kept: nat)
    requires Consistent(c) && c.stored == c.games && g in c.games && SteamMappings(c, g) != {}
    requires SteamUniqueOutside(c, pending + {g})
    ensures Consistent(d) && d.stored == d.games
    ensures kept in SteamMappings(c, g)
    ensures forall n :: n in SteamMappings(c, g) && n != kept ==> Precedes(c, c.games[g].title, kept, n)
    ensures Split(c, d, SteamMappings(c, g) - {kept})
    ensures SteamUniqueOutside(d, pending)
  {
    var title := c.games[g].title;
    var ids := SteamMappings(c, g);
    kept := First(c, title, ids);
    var rest := ids - {kept};
    d := c;
    assert ids - {kept} - rest == {} && SteamMappings(d, g) == rest + {kept};
    while rest != {}
      invariant rest <= ids - {kept}
      invariant Consistent(d) && d.stored == d.games
      invariant Split(c, d, ids - {kept} - rest)
      invariant SteamMappings(d, g) == rest + {kept}
      invariant SteamUniqueOutside(d, pending + {g})
      decreases rest
    {
      var m := First(c, title, rest);
      var next := MoveToNewGame(d, m);
      StepKeeps(c, d, next, g, kept, rest, m, ids, pending);
      d := next;
      rest := rest - {m};
    }
    assert ids - {kept} - {} == ids - {kept} && {} + {kept} == {kept};
    LastOneIsUnique(d, g, kept, pending);
  }

  lemma StepKeeps(c: Catalog, d: Catalog, e: Catalog, g: nat, kept: nat, rest: set<nat>, m: nat,
      ids: set<nat>, pending: set<nat>)
    requires Consistent(d) && g < c.nextGame <= d.nextGame && kept in ids && m in rest && rest <= ids - {kept}
    requires SteamMappings(d, g) == rest + {kept} && SteamUniqueOutside(d, pending + {g})
    requires m in d.mappings && Split(c, d, ids - {kept} - rest) && Split(d, e, {m}) && e.mappings[m].game == d.nextGame
    ensures Split(c, e, ids - {kept} - (rest - {m}))
    ensures SteamMappings(e, g) == rest - {m} + {kept} && SteamUniqueOutside(e, pending + {g})
  {
    var moved := ids - {kept} - rest;
    assert m in SteamMappings(d, g);
    SplitTwice(c, d, e, moved, {m});
    MoveKeepsUnique(d, e, m, pending + {g});
    assert moved + {m} == ids - {kept} - (rest - {m});
  }

  lemma LastOneIsUnique(d: Catalog, g: nat, kept: nat, pending: set<nat>)
    requires SteamMappings(d, g) == {kept} && SteamUniqueOutside(d, pending + {g})
    ensures SteamUniqueOutside(d, pending)
  {
    forall m, n | m in d.mappings && n in d.mappings && SteamRivals(d.mappings[m], d.mappings[n]) && m != n
      ensures d.mappings[m].game in pending
    {
      assert d.mappings[m].game in pending + {g};
      assert m in SteamMappings(d, d.mappings[m].game) && n in SteamMappings(d, d.mappings[m].game);
    }
  }

  /** Whether the games that share Steam ids are exactly those outside `pending` that the migration is done with. */
  function Done(c: Catalog, pending: set<nat>): set<nat>
    requires Consistent(c)
  {
    set m | m in c.mappings && MovesAway(c, m) && c.mappings[m].game !in pending
  }

  /**
    * The migration: every mapping keeps its key and title, games keep their rows, a mapping moves exactly when its
    * game has a preferred one, and afterwards the index can be created.
    */
  method SplitCollidingMappings(c: Catalog) returns (d: Catalog)
    requires Consistent(c) && c.stored == c.games
    ensures Consistent(d) && d.stored == d.games && SteamUnique(d)
    ensures Split(c, d, set m | m in c.mappings && MovesAway(c, m))
  {
    var pending := Shared(c);
    d := c;
    NothingDone(c);
    while pending != {}
      invariant pending <= Shared(c)
      invariant Consistent(d) && d.stored == d.games
      invariant Split(c, d, Done(c, pending))
      invariant SteamUniqueOutside(d, pending)
      decreases pending
    {
      var g :| g in pending;
      StillShared(c, d, pending, g);
      var next, kept := SplitGame(d, g, pending - {g});
      GameDone(c, d, next, pending, g, kept);
      d := next;
      pending := pending - {g};
    }
    AllDone(c, d);
  }

  lemma NothingDone(c: Catalog)
    requires Consistent(c)
    ensures SteamUniqueOutside(c, Shared(c)) && Split(c, c, Done(c, Shared(c)))
  {
    SharedIsAll(c);
    OnlySharedMove(c);
    assert Done(c, Shared(c)) == {};
  }

  lemma AllDone(c: Catalog, d: Catalog)
    requires Consistent(c) && Split(c, d, Done(c, {})) && SteamUniqueOutside(d, {})
    ensures Split(c, d, set m | m in c.mappings && MovesAway(c, m)) && SteamUnique(d)
  {
    assert Done(c, {}) == set m | m in c.mappings && MovesAway(c, m);
  }

  lemma GameDone(c: Catalog, d: Catalog, e: Catalog, pending: set<nat>, g: nat, kept: nat)
    requires Consistent(c) && g in pending && pending <= Shared(c) && Split(c, d, Done(c, pending))
    requires g in d.games && SteamMappings(d, g) == SteamMappings(c, g) && kept in SteamMappings(d, g)
    requires forall n :: n in SteamMappings(d, g) && n != kept ==> Precedes(d, d.games[g].title, kept, n)
    requires Split(d, e, SteamMappings(d, g) - {kept})
    ensures Split(c, e, Done(c, pending - {g}))
  {
    SameOrder(c, d, pending, g);
    MovedFrom(c, pending, g, kept);
    SplitTwice(c, d, e, Done(c, pending), SteamMappings(c, g) - {kept});
  }

  lemma SameOrder(c: Catalog, d: Catalog, pending: set<nat>, g: nat)
    requires Consistent(c) && g in pending && pending <= Shared(c) && Split(c, d, Done(c, pending))
    ensures g in c.games && g in d.games && d.games[g] == c.games[g]
    ensures forall m, n :: Precedes(d, d.games[g].title, m, n) == Precedes(c, c.games[g].title, m, n)
  {
    forall m: nat ensures Named(d, d.games[g].title, m) == Named(c, c.games[g].title, m) {
      if m in Done(c, pending) { assert MovedTo(c, d, m); }
    }
  }

  lemma SharedIsAll(c: Catalog)
    ensures SteamUniqueOutside(c, Shared(c))
  {
    forall m, n | m in c.mappings && n in c.mappings && SteamRivals(c.mappings[m], c.mappings[n]) && m != n
      ensures c.mappings[m].game in Shared(c)
    {
      TwoElements(SteamMappings(c, c.mappings[m].game), m, n);
    }
  }

  lemma TwoElements(ids: set<nat>, m: nat, n: nat)
    requires m in ids && n in ids && m != n
    ensures |ids| > 1
  {
    assert {m, n} <= ids;
    assert |ids - {m, n}| == |ids| - |{m, n}|;
  }

  lemma OnlySharedMove(c: Catalog)
    requires Consistent(c)
    ensures forall m :: m in c.mappings && MovesAway(c, m) ==> c.mappings[m].game in Shared(c)
  {
    forall m | m in c.mappings && MovesAway(c, m) ensures c.mappings[m].game in Shared(c) {
      var n :| n in SteamMappings(c, c.mappings[m].game) && Precedes(c, c.games[c.mappings[m].game].title, n, m);
      TwoElements(SteamMappings(c, c.mappings[m].game), m, n);
    }
  }

  lemma StillShared(c: Catalog, d: Catalog, pending: set<nat>, g: nat)
    requires Consistent(c) && g in pending && pending <= Shared(c) && Split(c, d, Done(c, pending))
    ensures g in c.games && g in d.games && SteamMappings(d, g) == SteamMappings(c, g) != {}
    ensures pending - {g} + {g} == pending
  {
    var shared :| shared in c.mappings && c.mappings[shared].game == g && |SteamMappings(c, g)| > 1;
    forall m | m in c.mappings ensures m in SteamMappings(d, g) <==> m in SteamMappings(c, g) {
      if m in Done(c, pending) { assert MovedTo(c, d, m); }
    }
    assert SteamMappings(d, g) == SteamMappings(c, g);
    assert pending - {g} + {g} == pending;
  }

  lemma MovedFrom(c: Catalog, pending: set<nat>, g: nat, kept: nat)
    requires Consistent(c) && g in pending && g in c.games && kept in SteamMappings(c, g)
    requires forall n :: n in SteamMappings(c, g) && n != kept ==> Precedes(c, c.games[g].title, kept, n)
    ensures Done(c, pending - {g}) == Done(c, pending) + (SteamMappings(c, g) - {kept})
    ensures Done(c, pending) !! SteamMappings(c, g) - {kept}
  {
    forall n | n in SteamMappings(c, g) ensures MovesAway(c, n) <==> n != kept {
      if n != kept {
        assert Precedes(c, c.games[g].title, kept, n);
      }
    }
  }

  /** Moved mappings fit their new games by title and the others as before; without misfits the result is sound. */
  lemma MigrationFits(score: Score, c: Catalog, d: Catalog, moved: set<nat>)
    requires Consistent(c) && Consistent(d) && Split(c, d, moved)
    ensures forall m :: m in d.mappings ==> (MappingFits(score, d, m) <==> m in moved || MappingFits(score, c, m))
    ensures SteamUnique(d) && (forall m :: m in c.mappings && !MappingFits(score, c, m) ==> m in moved) ==>
      Sound(score, d)
  {
    forall m | m in d.mappings ensures MappingFits(score, d, m) <==> m in moved || MappingFits(score, c, m) {
      if m in moved { assert MovedTo(c, d, m); }
    }
  }

  /** A numeric Steam mapping of the game. */
  predicate SteamAppOf(c: Catalog, g: nat, m: nat) {
    && m in c.mappings && c.mappings[m].game == g && c.mappings[m].platform == "steam"
    && AllDigits(c.mappings[m].extId)
  }

  /**
    * Which of a game's numeric Steam mappings stays: the oldest of those with the game's own title, or the oldest of
    * all when none has it.
    */
  lemma StaysIff(c: Catalog, g: nat, m: nat)
    requires Consistent(c) && g in c.games && SteamAppOf(c, g, m)
    ensures !MovesAway(c, m) <==>
      if c.mappings[m].title == c.games[g].title then
        forall n :: SteamAppOf(c, g, n) && c.mappings[n].title == c.games[g].title ==> m <= n
      else
        forall n :: SteamAppOf(c, g, n) ==> c.mappings[n].title != c.games[g].title && m <= n
  {
    forall n: nat ensures n in SteamMappings(c, g) <==> SteamAppOf(c, g, n) { }
    forall n: nat | SteamAppOf(c, g, n)
      ensures Precedes(c, c.games[g].title, n, m) <==>
        if (c.mappings[n].title == c.games[g].title) == (c.mappings[m].title == c.games[g].title) then n < m
        else c.mappings[n].title == c.games[g].title
    {
    }
  }
}
