/** Import loops and reconciliation: which rows a batch touches, and which ones an authoritative batch deletes. */
module Imports {
  import opened Options
  import opened Titles
  import opened Catalog
  import opened CatalogProofs
  import opened Library
  import opened OwnershipRuns

  /** Everything that holds whenever a session has no work in progress, and inside one. */
  ghost predicate Valid(l: Library) {
    Consistent(l.catalog) && Tables(l)
  }

  /** Nothing is pending. */
  predicate Clean(l: Library) {
    l.stored == l.rows && l.catalog.stored == l.catalog.games
  }

  /* ---------- Resolving inside a session ---------- */

  /** Resolving flushes unless the mapping exists and stays where it is. */
  predicate ResolveFlushes(score: Score, c: Catalog, platform: Platform, imp: Import) {
    forall m :: m in MappingIds(c, platform, imp.extId) && c.mappings[m].game in c.games ==>
      MustMove(score, c, platform, imp, m)
  }

  ghost predicate ResolvesTo(score: Score, l: Library, platform: Platform, imp: Import, g: nat, l': Library)
    requires Consistent(l.catalog)
  {
    && Resolves(score, l.catalog, platform, imp, g, l'.catalog)
    && l' == l.(catalog := l'.catalog, stored := if ResolveFlushes(score, l.catalog, platform, imp) then l.rows
      else l.stored)
  }

  /** Titles and games of the catalog persist. */
  ghost predicate KeepsTitles(c: Catalog, c': Catalog) {
    forall g :: g in c.games ==> g in c'.games && c'.games[g].title == c.games[g].title
  }

  lemma ResolveKeepsValid(score: Score, l: Library, platform: Platform, imp: Import, g: nat, l': Library)
    requires Valid(l) && ResolvesTo(score, l, platform, imp, g, l')
    ensures Valid(l') && KeepsTitles(l.catalog, l'.catalog) && NoWorse(score, l.catalog, l'.catalog)
    ensures g in l'.catalog.games && Compatible(score, l'.catalog.games[g].title, imp.title)
  {
    var m := ResolveIsRight(score, l.catalog, platform, imp, g, l'.catalog);
    SameRows(l, l');
  }

  lemma SameRows(l: Library, l': Library)
    requires Tables(l) && KeepsTitles(l.catalog, l'.catalog) && l'.stored in {l.rows, l.stored}
    requires l' == l.(catalog := l'.catalog, stored := l'.stored)
    ensures Tables(l')
  {
  }

  /* ---------- A batch ---------- */

  function MappingPlatform(account: Account, imported: ImportedGame): Platform {
    if imported.mappingPlatform.Some? then imported.mappingPlatform.value else account.platform
  }

  /** Rows stay, keep their keys, and outside `keys` are as they were, in the session and in the database. */
  ghost predicate Untouched(start: Library, l: Library, keys: set<Key>) {
    && (forall r :: r in start.rows ==> r in l.rows && l.rows[r].key == start.rows[r].key)
    && (forall r :: r in start.rows && start.rows[r].key !in keys ==>
          l.rows[r] == start.rows[r] && r in l.stored && l.stored[r] == start.rows[r])
    && (forall r :: r in l.rows && r !in start.rows ==> l.rows[r].key in keys)
  }

  /** Only rows that had no account may have none. */
  ghost predicate Linked(start: Library, l: Library) {
    forall r :: r in l.rows && l.rows[r].account.None? ==> r in start.rows && start.rows[r].account.None?
  }

  ghost predicate Covers(l: Library, keys: set<Key>) {
    forall key :: key in keys ==> RowsAt(l.rows, key) != {}
  }

  /** What the import loop has done so far: `l` grew from `start` by upserts at `keys`, and only there. */
  ghost predicate Imported(start: Library, l: Library, keys: set<Key>) {
    && l.confirmed == start.confirmed && l.runs == start.runs
    && Untouched(start, l, keys) && Linked(start, l) && Covers(l, keys)
  }

  lemma ResolveStaysImported(score: Score, start: Library, l: Library, keys: set<Key>,
      platform: Platform, imp: Import, g: nat, l': Library)
    requires Consistent(l.catalog) && Imported(start, l, keys) && ResolvesTo(score, l, platform, imp, g, l')
    ensures Imported(start, l', keys)
  {
  }

  lemma UpsertStaysImported(start: Library, l: Library, keys: set<Key>, u: Upsert, l': Library)
    requires Tables(l) && Refers(l, u) && Imported(start, l, keys) && Upserts(l, u, l') && Views(l)
    ensures Tables(l') && Imported(start, l', keys + {u.key})
  {
    var r := UpsertKeepsTables(l, u, l');
    assert r in RowsAt(l'.rows, u.key);
    RowStaysUntouched(start, l, keys, u.key, r, l');
    RowStaysLinked(start, l, u, r, l');
    RowCovers(l, keys, u.key, r, l');
    assert l'.runs == l.runs;
  }

  lemma RowStaysUntouched(start: Library, l: Library, keys: set<Key>, key: Key, r: nat, l': Library)
    requires Untouched(start, l, keys) && l'.stored == l.stored
    requires r in l'.rows && l'.rows[r].key == key && (r in l.rows ==> l.rows[r].key == key)
    requires l'.rows.Keys == l.rows.Keys + {r} && forall s :: s in l.rows && s != r ==> l'.rows[s] == l.rows[s]
    requires r in start.rows ==> r in l.rows
    ensures Untouched(start, l', keys + {key})
  {
  }

  lemma RowStaysLinked(start: Library, l: Library, u: Upsert, r: nat, l': Library)
    requires Linked(start, l) && r in l'.rows
    requires l'.rows.Keys == l.rows.Keys + {r} && forall s :: s in l.rows && s != r ==> l'.rows[s] == l.rows[s]
    requires r in l.rows ==> l'.rows[r] == Touched(Relinked(l.rows[r], u), u)
    requires r !in l.rows ==> exists seen, baseline :: l'.rows[r] == Touched(NewRow(u, seen, baseline), u)
    ensures Linked(start, l')
  {
    assert l'.rows[r].account.Some?;
  }

  lemma RowCovers(l: Library, keys: set<Key>, key: Key, r: nat, l': Library)
    requires Covers(l, keys) && r in RowsAt(l'.rows, key) && (r in l.rows ==> l.rows[r].key == key)
    requires l'.rows.Keys == l.rows.Keys + {r} && forall s :: s in l.rows && s != r ==> l'.rows[s] == l.rows[s]
    ensures Covers(l', keys + {key})
  {
    forall other | other in keys && other != key ensures RowsAt(l'.rows, other) != {} {
      var s :| s in RowsAt(l.rows, other);
      assert s in RowsAt(l'.rows, other);
    }
  }

  /* ---------- One imported game ---------- */

  /** Resolving one reported game and upserting its ownership. */
  ghost predicate ImportsOne(score: Score, l: Library, a: nat, imported: ImportedGame, priority: Priority,
      baseline: bool, now: int, g: nat, l': Library)
    requires Consistent(l.catalog) && a in l.accounts
  {
    var account := l.accounts[a];
    var u := UpsertFor(a, account, g, imported, priority, baseline, now);
    exists resolved ::
      ResolvesTo(score, l, MappingPlatform(account, imported), imported.info, g, resolved)
      && Refers(resolved, u) && Upserts(resolved, u, l')
  }

  lemma ImportKeeps(score: Score, start: Library, l: Library, keys: set<Key>, a: nat, imported: ImportedGame,
      priority: Priority, baseline: bool, now: int, g: nat, l': Library)
    requires Valid(l) && Imported(start, l, keys) && a in l.accounts
    requires ImportsOne(score, l, a, imported, priority, baseline, now, g, l')
    ensures Valid(l') && KeepsTitles(l.catalog, l'.catalog) && NoWorse(score, l.catalog, l'.catalog)
    ensures l'.accounts == l.accounts
    ensures g in l'.catalog.games && Compatible(score, l'.catalog.games[g].title, imported.info.title)
    ensures Imported(start, l', keys + {Key(l.accounts[a].participant, g, OwnershipPlatform(l.accounts[a], imported))})
    ensures Resolves(score, l.catalog, MappingPlatform(l.accounts[a], imported), imported.info, g, l'.catalog)
  {
    var account := l.accounts[a];
    var platform := MappingPlatform(account, imported);
    var u := UpsertFor(a, account, g, imported, priority, baseline, now);
    var resolved :| ResolvesTo(score, l, platform, imported.info, g, resolved) && Refers(resolved, u)
      && Upserts(resolved, u, l');
    ResolveKeepsValid(score, l, platform, imported.info, g, resolved);
    ResolveStaysImported(score, start, l, keys, platform, imported.info, g, resolved);
    var r := UpsertKeepsTables(resolved, u, l');
    UpsertStaysImported(start, resolved, keys, u, l');
  }

  /* ---------- The catalogs of a batch ---------- */

  /** The catalogs before, between and after the imports of a batch, and the games chosen. */
  ghost predicate Trace(score: Score, account: Account, games: seq<ImportedGame>, chosen: seq<nat>,
      catalogs: seq<Catalog>) {
    |chosen| <= |games| && |catalogs| == |chosen| + 1
    && forall k :: 0 <= k < |chosen| ==> Traces(score, account, games[k], chosen[k], catalogs[k], catalogs[k + 1])
  }

  ghost predicate Traces(score: Score, account: Account, imported: ImportedGame, g: nat, c: Catalog, c': Catalog) {
    Consistent(c) && Resolves(score, c, MappingPlatform(account, imported), imported.info, g, c')
  }

  ghost predicate Traced(score: Score, account: Account, games: seq<ImportedGame>, chosen: seq<nat>, first: Catalog,
      last: Catalog) {
    exists catalogs :: Trace(score, account, games, chosen, catalogs) && catalogs[0] == first
      && catalogs[|chosen|] == last
  }

  lemma TraceGrows(score: Score, account: Account, games: seq<ImportedGame>, chosen: seq<nat>, first: Catalog,
      c: Catalog, g: nat, c': Catalog)
    requires Traced(score, account, games, chosen, first, c) && |chosen| < |games|
    requires Traces(score, account, games[|chosen|], g, c, c')
    ensures Traced(score, account, games, chosen + [g], first, c')
  {
    var catalogs :| Trace(score, account, games, chosen, catalogs) && catalogs[0] == first && catalogs[|chosen|] == c;
    var longer, more := catalogs + [c'], chosen + [g];
    forall k | 0 <= k < |more| ensures Traces(score, account, games[k], more[k], longer[k], longer[k + 1]) {
      if k < |chosen| {
        assert longer[k] == catalogs[k] && longer[k + 1] == catalogs[k + 1] && more[k] == chosen[k];
      }
    }
    assert Trace(score, account, games, more, longer) && longer[0] == first && longer[|more|] == c';
  }

  /* ---------- Reconciliation ---------- */

  /** The games of the batch on a platform. */
  function ImportedOn(keys: set<Key>, platform: Platform): set<nat> {
    set key | key in keys && key.platform == platform :: key.game
  }

  /** The query: the account's flushed rows on the platform whose game is not marked free and not imported. */
  predicate Missing(l: Library, a: nat, platform: Platform, games: set<nat>, r: nat) {
    && r in l.stored && l.stored[r].account == Some(a) && l.stored[r].key.platform == platform
    && l.stored[r].key.game in l.catalog.stored && !l.catalog.stored[l.stored[r].key.game].isFree
    && l.stored[r].key.game !in games
  }

  /** The rows that reconciliation deletes on all the platforms. */
  function Deleted(l: Library, a: nat, platforms: set<Platform>, keys: set<Key>): set<nat> {
    set r | r in l.stored && l.stored[r].key.platform in platforms
      && Missing(l, a, l.stored[r].key.platform, ImportedOn(keys, l.stored[r].key.platform), r)
      && l.stored[r].key !in l.confirmed
  }

  function Finished(l: Library, a: nat, deleted: set<nat>, now: int, run: SyncRun): Library
    requires a in l.accounts
  {
    FlushAll(l.(rows := l.rows - deleted,
      accounts := l.accounts[a := l.accounts[a].(lastSync := Some(now), lastError := None)],
      runs := l.runs + [run]))
  }

  function Failed(l: Library, a: nat, message: string): Library
    requires a in l.accounts
  {
    l.(accounts := l.accounts[a := l.accounts[a].(lastError := Some(message))],
      runs := l.runs + [SyncRun(a, false, message, 0)])
  }

  /** The row is deleted: the account's, on an authoritative platform, not imported, not confirmed, not marked free. */
  predicate Absent(start: Library, a: nat, platforms: set<Platform>, keys: set<Key>, stored: map<nat, Game>, r: nat)
    requires r in start.rows
  {
    var row := start.rows[r];
    && row.account == Some(a) && row.key.platform in platforms && row.key.game !in ImportedOn(keys, row.key.platform)
    && row.key !in start.confirmed && row.key.game in stored && !stored[row.key.game].isFree
  }

  /**
    * What a finished sync promises; `stored` are the games as the database had them after the last flush of the loop.
    */
  ghost predicate Exact(start: Library, a: nat, platforms: set<Platform>, keys: set<Key>, stored: map<nat, Game>,
      end: Library) {
    && Covers(end, keys)
    && (forall r :: r in start.rows ==> (r !in end.rows <==> Absent(start, a, platforms, keys, stored, r)))
    && (forall r :: r in start.rows && r in end.rows && start.rows[r].key !in keys ==> end.rows[r] == start.rows[r])
    && (forall r :: r in end.rows && r !in start.rows ==> end.rows[r].key in keys)
  }

  lemma SyncIsExact(start: Library, l: Library, a: nat, platforms: set<Platform>, keys: set<Key>,
      now: int, run: SyncRun, end: Library)
    requires Valid(l) && Imported(start, l, keys) && a in l.accounts
    requires end == Finished(l, a, Deleted(l, a, platforms, keys), now, run)
    ensures Exact(start, a, platforms, keys, l.catalog.stored, end)
    ensures Valid(end) && Clean(end) && end.confirmed == start.confirmed
  {
    var deleted := Deleted(l, a, platforms, keys);
    forall r | r in start.rows ensures r in deleted <==> Absent(start, a, platforms, keys, l.catalog.stored, r) {
      DeletedIffAbsent(start, l, a, platforms, keys, r);
    }
    forall r | r in deleted ensures r in start.rows { NotImported(start, l, keys, r); }
    assert Untouched(start, l, keys);
    StillCovered(start, l, a, platforms, keys, end);
    FinishedValid(l, a, deleted, now, run);
  }

  lemma StillCovered(start: Library, l: Library, a: nat, platforms: set<Platform>, keys: set<Key>, end: Library)
    requires Views(l) && Untouched(start, l, keys) && Covers(l, keys)
    requires end.rows == l.rows - Deleted(l, a, platforms, keys)
    ensures Covers(end, keys)
  {
    forall key | key in keys ensures RowsAt(end.rows, key) != {} {
      var r :| r in RowsAt(l.rows, key);
      assert key.game in ImportedOn(keys, key.platform) && (r in l.stored ==> l.stored[r].key == key);
      assert r in RowsAt(end.rows, key);
    }
  }

  lemma DeletedIffAbsent(start: Library, l: Library, a: nat, platforms: set<Platform>, keys: set<Key>, r: nat)
    requires Views(l) && Untouched(start, l, keys) && l.confirmed == start.confirmed && r in start.rows
    ensures r in Deleted(l, a, platforms, keys) <==> Absent(start, a, platforms, keys, l.catalog.stored, r)
  {
    if start.rows[r].key in keys {
      assert start.rows[r].key.game in ImportedOn(keys, start.rows[r].key.platform);
    }
  }

  lemma NotImported(start: Library, l: Library, keys: set<Key>, r: nat)
    requires Views(l) && Untouched(start, l, keys) && r in l.stored
    requires l.stored[r].key.game !in ImportedOn(keys, l.stored[r].key.platform)
    ensures r in start.rows
  {
    assert l.rows[r].key == l.stored[r].key;
    assert l.rows[r].key !in keys;
  }

  lemma FinishedValid(l: Library, a: nat, deleted: set<nat>, now: int, run: SyncRun)
    requires Valid(l) && a in l.accounts
    ensures Valid(Finished(l, a, deleted, now, run)) && Clean(Finished(l, a, deleted, now, run))
  {
  }

  lemma FailedValid(l: Library, a: nat, message: string)
    requires Valid(l) && Clean(l) && a in l.accounts
    ensures Valid(Failed(l, a, message)) && Clean(Failed(l, a, message))
  {
  }
}
