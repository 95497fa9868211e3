/** Whether free games keep their rows: what the session knows of their availability, and what queries already see. */
module FreeGames {
  import opened Options
  import opened Titles
  import opened Catalog
  import opened CatalogProofs
  import opened Library
  import opened Imports
  import opened LibraryRuns
  import opened LibrarySession

  /* ---------- Availability over the loop ---------- */

  /** The report says whether the game is free. */
  predicate Tells(imported: ImportedGame, chosen: nat, g: nat) {
    chosen == g && imported.info.isFree.Some?
  }

  /** What the first `k` reports make of a game's availability. */
  function FlagAfter(initial: bool, games: seq<ImportedGame>, chosen: seq<nat>, g: nat, k: nat): bool
    requires k <= |chosen| <= |games|
  {
    if k == 0 then initial
    else if Tells(games[k - 1], chosen[k - 1], g) then games[k - 1].info.isFree.value
    else FlagAfter(initial, games, chosen, g, k - 1)
  }

  /**
    * How many of the first `k` reports the database has taken over: a new mapping is flushed after its report,
    * a moved one before it, and a mapping that stays flushes nothing.
    */
  function Flushes(score: Score, account: Account, games: seq<ImportedGame>, catalogs: seq<Catalog>, k: nat): (n: nat)
    requires k <= |games| && k <= |catalogs|
    ensures n <= k
  {
    if k == 0 then 0
    else
      var c, imp, platform := catalogs[k - 1], games[k - 1].info, MappingPlatform(account, games[k - 1]);
      if MappingIds(c, platform, imp.extId) == {} then k
      else if ResolveFlushes(score, c, platform, imp) then k - 1
      else Flushes(score, account, games, catalogs, k - 1)
  }

  /** What one resolution does to a flag: in the session, and in the database. */
  lemma FlagStep(score: Score, c: Catalog, platform: Platform, imp: Import, g: nat, c': Catalog, h: nat)
    requires Consistent(c) && Resolves(score, c, platform, imp, g, c') && h in c.games
    ensures h in c'.games && h in c'.stored
    ensures c'.games[h].isFree == if h == g && imp.isFree.Some? then imp.isFree.value else c.games[h].isFree
    ensures c'.stored[h].isFree
         == if MappingIds(c, platform, imp.extId) == {} then c'.games[h].isFree
            else if ResolveFlushes(score, c, platform, imp) then c.games[h].isFree
            else c.stored[h].isFree
  {
    if MappingIds(c, platform, imp.extId) != {} {
      var m :| m in MappingIds(c, platform, imp.extId);
      OnlyMapping(c, platform, imp.extId, m);
      KnownFlag(score, c, platform, imp, m, g, c', h);
    }
  }

  lemma KnownFlag(score: Score, c: Catalog, platform: Platform, imp: Import, m: nat, g: nat, c': Catalog, h: nat)
    requires Consistent(c) && MappingIds(c, platform, imp.extId) == {m} && m in c.mappings && h in c.games
    requires MayKeep(score, c, platform, imp, m, g)
    requires if MustMove(score, c, platform, imp, m) then g in Found(c, imp, g).games else g in c.games
    requires c' == Kept(score, c, platform, imp, m, g)
    ensures h in c'.games && h in c'.stored
    ensures c'.games[h].isFree == if h == g && imp.isFree.Some? then imp.isFree.value else c.games[h].isFree
    ensures ResolveFlushes(score, c, platform, imp) == MustMove(score, c, platform, imp, m)
    ensures c'.stored[h].isFree == if MustMove(score, c, platform, imp, m) then c.games[h].isFree
      else c.stored[h].isFree
  {
    assert m in MappingIds(c, platform, imp.extId);
  }

  /**
    * At any point of the loop the session holds what all reports say, the database what those before the last flush
    * say.
    */
  lemma {:induction false} FlagsInLoop(score: Score, account: Account, games: seq<ImportedGame>, chosen: seq<nat>,
      catalogs: seq<Catalog>, g: nat, k: nat)
    requires Trace(score, account, games, chosen, catalogs) && k <= |chosen|
    requires catalogs[0].games == catalogs[0].stored && g in catalogs[0].games
    ensures g in catalogs[k].games && g in catalogs[k].stored
    ensures var initial := catalogs[0].games[g].isFree;
      && catalogs[k].games[g].isFree == FlagAfter(initial, games, chosen, g, k)
      && catalogs[k].stored[g].isFree
         == FlagAfter(initial, games, chosen, g, Flushes(score, account, games, catalogs, k))
  {
    if k > 0 {
      var j := k - 1;
      FlagsInLoop(score, account, games, chosen, catalogs, g, j);
      assert Traces(score, account, games[j], chosen[j], catalogs[j], catalogs[j + 1]);
      FlagStep(score, catalogs[j], MappingPlatform(account, games[j]), games[j].info, chosen[j], catalogs[k], g);
    }
  }

  /* ---------- Which rows go ---------- */

  /** The row would be deleted if its game is not free. */
  predicate Unclaimed(start: Library, a: nat, platforms: set<Platform>, keys: set<Key>, r: nat)
    requires r in start.rows
  {
    var row := start.rows[r];
    && row.account == Some(a) && row.key.platform in platforms && row.key.game !in ImportedOn(keys, row.key.platform)
    && row.key !in start.confirmed
  }

  /** A finished synchronization, with the catalogs of its loop. */
  ghost predicate Finishes(score: Score, start: Library, a: nat, platforms: set<Platform>, games: seq<ImportedGame>,
      now: int, chosen: seq<nat>, action: Action, end: Library, catalogs: seq<Catalog>)
  {
    && a in start.accounts && Valid(start) && Clean(start)
    && Synced(score, start, a, platforms, games, now, chosen, action, end)
    && Trace(score, start.accounts[a], games, chosen, catalogs)
    && catalogs[0] == start.catalog && catalogs[|chosen|] == action.loop.catalog
  }

  /**
    * Exactly which rows a synchronization deletes: the unclaimed ones of games that were not free before it,
    * after the reports up to the last flush. Any later report is not looked at.
    */
  lemma DeletedIff(score: Score, start: Library, a: nat, platforms: set<Platform>, games: seq<ImportedGame>, now: int,
      chosen: seq<nat>, action: Action, end: Library, catalogs: seq<Catalog>, r: nat)
    requires Finishes(score, start, a, platforms, games, now, chosen, action, end, catalogs) && r in start.rows
    ensures var g := start.rows[r].key.game;
      g in start.catalog.games
      && (r !in end.rows <==>
            && Unclaimed(start, a, platforms, action.keys, r)
            && !FlagAfter(start.catalog.games[g].isFree, games, chosen, g,
                 Flushes(score, start.accounts[a], games, catalogs, |games|)))
      && g in end.catalog.games
      && end.catalog.games[g].isFree == FlagAfter(start.catalog.games[g].isFree, games, chosen, g, |games|)
  {
    var g := start.rows[r].key.game;
    FlagsInLoop(score, start.accounts[a], games, chosen, catalogs, g, |games|);
    assert r !in end.rows <==> Absent(start, a, platforms, action.keys, action.loop.catalog.stored, r);
  }

  /** Report `i` makes the game free, and no later one says anything about it. */
  ghost predicate MakesFree(games: seq<ImportedGame>, chosen: seq<nat>, g: nat, i: nat)
    requires i < |chosen| <= |games|
  {
    && Tells(games[i], chosen[i], g) && games[i].info.isFree.value
    && forall j :: i < j < |chosen| ==> !Tells(games[j], chosen[j], g)
  }

  lemma {:induction false} LastReport(initial: bool, games: seq<ImportedGame>, chosen: seq<nat>, g: nat, from: nat,
      k: nat)
    requires from <= k <= |chosen| <= |games|
    requires forall j :: k <= j < |chosen| ==> !Tells(games[j], chosen[j], g)
    ensures !FlagAfter(initial, games, chosen, g, from) ==>
      (FlagAfter(initial, games, chosen, g, k) <==> exists i: nat :: from <= i < k && MakesFree(games, chosen, g, i))
  {
    if k > from {
      if Tells(games[k - 1], chosen[k - 1], g) {
        assert MakesFree(games, chosen, g, k - 1) == games[k - 1].info.isFree.value;
        assert forall i: nat :: from <= i < k - 1 ==> !MakesFree(games, chosen, g, i);
      } else {
        LastReport(initial, games, chosen, g, from, k - 1);
      }
    }
  }

  /**
    * A row of a game that ends up free is deleted exactly when the row is unclaimed, the game was not free up to the
    * loop's last flush, and the last report about it, which says that it is free, came after that flush.
    */
  lemma FreeRowDeletedIff(score: Score, start: Library, a: nat, platforms: set<Platform>, games: seq<ImportedGame>,
      now: int, chosen: seq<nat>, action: Action, end: Library, catalogs: seq<Catalog>, r: nat)
    requires Finishes(score, start, a, platforms, games, now, chosen, action, end, catalogs) && r in start.rows
    ensures var g, flushed := start.rows[r].key.game, Flushes(score, start.accounts[a], games, catalogs, |games|);
      g in start.catalog.games && g in end.catalog.games
      && ((r !in end.rows && end.catalog.games[g].isFree) <==>
            && Unclaimed(start, a, platforms, action.keys, r)
            && !FlagAfter(start.catalog.games[g].isFree, games, chosen, g, flushed)
            && exists i: nat :: flushed <= i < |games| && MakesFree(games, chosen, g, i))
  {
    var g := start.rows[r].key.game;
    DeletedIff(score, start, a, platforms, games, now, chosen, action, end, catalogs, r);
    LastReport(start.catalog.games[g].isFree, games, chosen, g,
      Flushes(score, start.accounts[a], games, catalogs, |games|), |games|);
  }

  /* ---------- Batches of known keys ---------- */

  /** Before the call: every key of the batch is mapped, to a game that fits and without collision. */
  ghost predicate AllKnown(score: Score, c: Catalog, account: Account, games: seq<ImportedGame>)
    requires Consistent(c)
  {
    forall i :: 0 <= i < |games| ==> Known(score, c, MappingPlatform(account, games[i]), games[i].info)
  }

  ghost predicate Known(score: Score, c: Catalog, platform: Platform, imp: Import)
    requires Consistent(c)
  {
    exists m :: m in MappingIds(c, platform, imp.extId) && !MustMove(score, c, platform, imp, m)
  }

  /** The game a known key is mapped to. */
  ghost predicate MappedTo(c: Catalog, account: Account, imported: ImportedGame, g: nat) {
    exists m :: m in MappingIds(c, MappingPlatform(account, imported), imported.info.extId) && c.mappings[m].game == g
  }

  lemma StayingKey(score: Score, start: Catalog, c: Catalog, platform: Platform, imp: Import, m: nat, g: nat,
      c': Catalog)
    requires Consistent(start) && Consistent(c) && SameMappings(start, c)
    requires m in MappingIds(start, platform, imp.extId) && !MustMove(score, start, platform, imp, m)
    requires Resolves(score, c, platform, imp, g, c')
    ensures SameMappings(start, c') && g == start.mappings[m].game
    ensures MappingIds(c, platform, imp.extId) != {} && !ResolveFlushes(score, c, platform, imp)
  {
    assert m in MappingIds(c, platform, imp.extId);
    assert !MustMove(score, c, platform, imp, m);
    assert MayKeep(score, c, platform, imp, m, g) && c' == Kept(score, c, platform, imp, m, g);
  }

  /** Such a batch never flushes, and its games are known beforehand. */
  lemma {:induction false} KnownNeverFlush(score: Score, account: Account, games: seq<ImportedGame>, chosen: seq<nat>,
      catalogs: seq<Catalog>, k: nat)
    requires Trace(score, account, games, chosen, catalogs) && k <= |chosen|
    requires Consistent(catalogs[0]) && AllKnown(score, catalogs[0], account, games)
    ensures SameMappings(catalogs[0], catalogs[k]) && Flushes(score, account, games, catalogs, k) == 0
  {
    if k > 0 {
      var j := k - 1;
      KnownNeverFlush(score, account, games, chosen, catalogs, j);
      assert Traces(score, account, games[j], chosen[j], catalogs[j], catalogs[j + 1]);
      assert Known(score, catalogs[0], MappingPlatform(account, games[j]), games[j].info);
      KnownStays(score, catalogs[0], account, games[j], catalogs[j], chosen[j], catalogs[k]);
    }
  }

  lemma KnownChosen(score: Score, account: Account, games: seq<ImportedGame>, chosen: seq<nat>, catalogs: seq<Catalog>,
      i: nat)
    requires Trace(score, account, games, chosen, catalogs) && i < |chosen|
    requires Consistent(catalogs[0]) && AllKnown(score, catalogs[0], account, games)
    ensures MappedTo(catalogs[0], account, games[i], chosen[i])
  {
    KnownNeverFlush(score, account, games, chosen, catalogs, i);
    assert Traces(score, account, games[i], chosen[i], catalogs[i], catalogs[i + 1]);
    assert Known(score, catalogs[0], MappingPlatform(account, games[i]), games[i].info);
    KnownStays(score, catalogs[0], account, games[i], catalogs[i], chosen[i], catalogs[i + 1]);
  }

  lemma KnownStays(score: Score, start: Catalog, account: Account, imported: ImportedGame, c: Catalog, g: nat,
      c': Catalog)
    requires Consistent(start) && SameMappings(start, c) && Traces(score, account, imported, g, c, c')
    requires Known(score, start, MappingPlatform(account, imported), imported.info)
    ensures SameMappings(start, c') && MappedTo(start, account, imported, g)
    ensures MappingIds(c, MappingPlatform(account, imported), imported.info.extId) != {}
    ensures !ResolveFlushes(score, c, MappingPlatform(account, imported), imported.info)
  {
    var platform, imp := MappingPlatform(account, imported), imported.info;
    var m :| m in MappingIds(start, platform, imp.extId) && !MustMove(score, start, platform, imp, m);
    StayingKey(score, start, c, platform, imp, m, g, c');
  }

  /**
    * So with known keys no report of the batch protects a row: what counts is whether the game was free before the
    * call.
    */
  lemma KnownBatchDeletedIff(score: Score, start: Library, a: nat, platforms: set<Platform>, games: seq<ImportedGame>,
      now: int, chosen: seq<nat>, action: Action, end: Library, catalogs: seq<Catalog>, r: nat)
    requires Finishes(score, start, a, platforms, games, now, chosen, action, end, catalogs) && r in start.rows
    requires AllKnown(score, start.catalog, start.accounts[a], games)
    ensures start.rows[r].key.game in start.catalog.games
    ensures r !in end.rows <==>
      Unclaimed(start, a, platforms, action.keys, r) && !start.catalog.games[start.rows[r].key.game].isFree
    ensures forall i :: 0 <= i < |games| ==> MappedTo(start.catalog, start.accounts[a], games[i], chosen[i])
  {
    KnownNeverFlush(score, start.accounts[a], games, chosen, catalogs, |games|);
    forall i | 0 <= i < |games| ensures MappedTo(start.catalog, start.accounts[a], games[i], chosen[i]) {
      KnownChosen(score, start.accounts[a], games, chosen, catalogs, i);
    }
    DeletedIff(score, start, a, platforms, games, now, chosen, action, end, catalogs, r);
  }

  /* ---------- The providers there are ---------- */

  /** Before the call: availability is reported only together with an ownership on every platform that is reconciled. */
  predicate ReportsAtHome(account: Account, platforms: set<Platform>, games: seq<ImportedGame>) {
    forall i :: 0 <= i < |games| && games[i].info.isFree.Some? ==> platforms <= {OwnershipPlatform(account, games[i])}
  }

  /** Then no row of a game that ends up free is deleted. */
  lemma FreeGamesAreKept(score: Score, start: Library, a: nat, platforms: set<Platform>, games: seq<ImportedGame>,
      now: int, chosen: seq<nat>, action: Action, end: Library, catalogs: seq<Catalog>, r: nat)
    requires Finishes(score, start, a, platforms, games, now, chosen, action, end, catalogs)
    requires ReportsAtHome(start.accounts[a], platforms, games) && r in start.rows && r !in end.rows
    ensures start.rows[r].key.game in end.catalog.games && !end.catalog.games[start.rows[r].key.game].isFree
  {
    hide Matched, NoWorse, Trace, Traced, Exact, Valid;
    var g, account := start.rows[r].key.game, start.accounts[a];
    FreeRowDeletedIff(score, start, a, platforms, games, now, chosen, action, end, catalogs, r);
    DeletedIff(score, start, a, platforms, games, now, chosen, action, end, catalogs, r);
    forall i: nat | i < |games| && games[i].info.isFree.Some? ensures chosen[i] != g {
      assert Key(account.participant, chosen[i], OwnershipPlatform(account, games[i])) in action.keys;
      assert start.rows[r].key.platform == OwnershipPlatform(account, games[i]);
      assert chosen[i] in ImportedOn(action.keys, OwnershipPlatform(account, games[i]));
    }
  }

  /**
    * The batches that the providers deliver: Steam alone reports availability, and every ownership it reports is a
    * Steam ownership of the account.
    */
  predicate Delivered(account: Account, provider: Provider, games: seq<ImportedGame>) {
    || (forall i :: 0 <= i < |games| ==> games[i].info.isFree.None?)
    || (account.platform == STEAM && provider.ownershipPlatforms == {}
        && forall i :: 0 <= i < |games| ==> games[i].ownershipPlatform.None?)
  }

  /** So no provider loses the row of a free game. */
  lemma ProvidersKeepFreeGames(score: Score, start: Library, a: nat, provider: Provider, authoritative: bool,
      games: seq<ImportedGame>, now: int, chosen: seq<nat>, action: Action, end: Library, catalogs: seq<Catalog>,
        r: nat)
    requires a in start.accounts && Delivered(start.accounts[a], provider, games)
    requires Finishes(score, start, a, AuthoritativePlatforms(provider, start.accounts[a], authoritative), games, now,
      chosen, action, end, catalogs)
    requires r in start.rows && r !in end.rows
    ensures start.rows[r].key.game in end.catalog.games && !end.catalog.games[start.rows[r].key.game].isFree
  {
    var platforms := AuthoritativePlatforms(provider, start.accounts[a], authoritative);
    FreeGamesAreKept(score, start, a, platforms, games, now, chosen, action, end, catalogs, r);
  }

  /* ---------- A batch that no provider delivers ---------- */

  const OWNED := Ownership(Key(0, 0, "humble"), Some(0), 0, None, None, Some(0), false, 0)
  const KEY := Ownership(Key(0, 0, "humble_key"), Some(0), 0, None, None, Some(0), false, 1)
  const PAID := Game(["foo"], false)
  const FREE := Game(["foo"], true)
  const MAPPINGS := map[0 := Mapping(0, "humble", "x", ["foo"])]
  const ACCOUNTS := map[0 := Account(0, "humble", "me", None, None)]
  const REPORT := ImportedGame(Import("x", ["foo"], Some(true)), None, Some("humble_key"), 0, None, "")

  const BEFORE := Library(Catalog(map[0 := PAID], map[0 := PAID], MAPPINGS, 1, 1),
    map[0 := OWNED], map[0 := OWNED], 1, ACCOUNTS, 1, {}, [])
  const MERGED := BEFORE.(catalog := BEFORE.catalog.(games := map[0 := FREE]))
  const LOOP := MERGED.(rows := map[0 := OWNED, 1 := KEY], nextRow := 2)

  function Never(): Score { (a, b) => 0 }

  /**
    * If a report on one platform said that a game is free while another platform is reconciled, the row there would go:
    * the condition on where availability is reported is needed.
    */
  lemma FlagCanLag()
    ensures Settled(BEFORE)
    ensures ImportsOne(Never(), BEFORE, 0, REPORT, Authoritative, false, 1, 0, LOOP)
    ensures LOOP.catalog.games[0].isFree && Deleted(LOOP, 0, {"humble"}, {KEY.key}) == {0}
  {
    BeforeIsSettled();
    LagResolves();
    LagUpserts();
    LagDeletes();
  }

  lemma BeforeIsSettled()
    ensures Settled(BEFORE)
  {
    assert Consistent(BEFORE.catalog);
    assert Tables(BEFORE);
  }

  lemma LagDeletes()
    ensures Deleted(LOOP, 0, {"humble"}, {KEY.key}) == {0}
  {
    assert ImportedOn({KEY.key}, "humble") == {};
  }

  lemma LagResolves()
    ensures ResolvesTo(Never(), BEFORE, "humble", REPORT.info, 0, MERGED)
  {
    var c := BEFORE.catalog;
    assert MappingIds(c, "humble", "x") == {0};
    assert !NumericSteam("humble", "x");
    assert !MustMove(Never(), c, "humble", REPORT.info, 0);
    assert Kept(Never(), c, "humble", REPORT.info, 0, 0) == MERGED.catalog;
    assert 0 in MappingIds(c, "humble", "x");
  }

  lemma LagUpserts()
    ensures Upserts(MERGED, UpsertFor(0, ACCOUNTS[0], 0, REPORT, Authoritative, false, 1), LOOP)
  {
    var u := UpsertFor(0, ACCOUNTS[0], 0, REPORT, Authoritative, false, 1);
    assert RowsAt(MERGED.rows, u.key) == {};
    assert FirstOf(MERGED.stored, Siblings(MERGED.stored, u.key), 0);
    assert MayBeSeen(MERGED.stored, u, Some(0), false);
    assert Touched(NewRow(u, Some(0), false), u) == KEY;
    assert Creates(MERGED, u, LOOP);
  }
}
