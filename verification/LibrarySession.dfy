/** The database session: resolving games, upserting ownerships, reconciling, and the requests built from them. */
module LibrarySession {
  import opened Options
  import opened Orders
  import opened Titles
  import opened Catalog
  import opened CatalogProofs
  import opened GalaxyImport
  import opened GalaxyRuns
  import opened Library
  import opened OwnershipRuns
  import opened Imports
  import opened ImportRuns
  import opened LibraryRuns

  /** What a provider answers: an error, or games and whether they are its complete library. */
  datatype Delivery = Raised(message: string) | Batch(games: seq<ImportedGame>, authoritative: bool)

  /** The platforms a provider's complete snapshot speaks for. */
  datatype Provider = Provider(ownershipPlatforms: set<Platform>, authoritativeLibrary: bool)

  function AuthoritativePlatforms(provider: Provider, account: Account, authoritative: bool): set<Platform> {
    if !authoritative then {}
    else provider.ownershipPlatforms + (if provider.authoritativeLibrary then {account.platform} else {})
  }

  /** The keys of the first `n` games of a batch. */
  function Keys(account: Account, games: seq<ImportedGame>, chosen: seq<nat>): set<Key>
    requires |chosen| <= |games|
  {
    set i | 0 <= i < |chosen| :: Key(account.participant, chosen[i], OwnershipPlatform(account, games[i]))
  }

  class Session {
    const score: Score
    /** The tables as the session sees them. */
    var db: Library
    /** The database's contents, which a rollback returns to. */
    var committed: Library

    constructor (score: Score, library: Library)
      ensures this.score == score && db == library && committed == library
    {
      this.score := score;
      db := library;
      committed := library;
    }

    method Flush()
      modifies this
      ensures db == FlushAll(old(db)) && committed == old(committed)
    {
      db := db.(stored := db.rows, catalog := db.catalog.(stored := db.catalog.games));
    }

    method Commit()
      modifies this
      ensures db == committed == FlushAll(old(db))
    {
      Flush();
      committed := db;
    }

    /** The candidate with the highest similarity. */
    method BestCandidate(candidates: set<nat>, imp: Import) returns (best: nat)
      requires candidates != {} && candidates <= db.catalog.stored.Keys
      ensures Best(score, db.catalog, imp, candidates, best)
    {
      best :| best in candidates;
      var rest := candidates - {best};
      while rest != {}
        invariant rest <= candidates && best in candidates
        invariant forall g :: g in candidates && g !in rest ==>
          score(db.catalog.stored[g].title, imp.title) <= score(db.catalog.stored[best].title, imp.title)
        decreases rest
      {
        var g :| g in rest;
        if score(db.catalog.stored[g].title, imp.title) > score(db.catalog.stored[best].title, imp.title) { best := g; }
        rest := rest - {g};
      }
    }

    method FindOrCreateGame(platform: Platform, imp: Import, exclude: Option<nat>) returns (g: nat)
      requires Consistent(db.catalog)
      modifies this
      ensures committed == old(committed)
      ensures MayFind(score, old(db).catalog, platform, imp, exclude, g)
      ensures db == old(db).(catalog := Found(old(db).catalog, imp, g),
        stored := if g == old(db).catalog.nextGame then old(db).rows else old(db).stored)
    {
      var exact := ExactMatches(db.catalog, platform, imp, exclude);
      if exact != {} {
        g :| g in exact;
        return;
      }
      var candidates := Candidates(score, db.catalog, platform, imp, exclude);
      if candidates != {} {
        g := BestCandidate(candidates, imp);
        return;
      }
      g := db.catalog.nextGame;
      db := db.(catalog := WithGame(db.catalog, imp.title));
      Flush();
    }

    /** Whether the game has an older numeric Steam mapping than the import's own, `m`. */
    method SteamIdCollision(platform: Platform, imp: Import, m: nat) returns (collides: bool)
      requires m in MappingIds(db.catalog, platform, imp.extId)
      ensures collides == Collides(db.catalog, platform, imp, m)
    {
      if !NumericSteam(platform, imp.extId) { return false; }
      var ids := SteamMappings(db.catalog, db.catalog.mappings[m].game);
      assert m in ids;
      ghost var least := LeastExists(ids, (a: nat, b: nat) => a <= b);
      var primary :| primary in ids && forall n :: n in ids ==> primary <= n;
      collides := m != primary;
      CollidesIff(db.catalog, platform, imp, m, primary);
    }

    method ResolveGame(platform: Platform, imp: Import) returns (g: nat)
      requires Consistent(db.catalog)
      modifies this
      ensures committed == old(committed)
      ensures ResolvesTo(score, old(db), platform, imp, g, db)
    {
      ghost var before := db;
      var mappings := MappingIds(db.catalog, platform, imp.extId);
      if mappings != {} {
        var m :| m in mappings;
        OnlyMapping(db.catalog, platform, imp.extId, m);
        g := KeepOrMove(platform, imp, m);
      } else {
        g := FindOrCreateGame(platform, imp, None);
        FoundIsSuitable(score, before.catalog, platform, imp, None, g);
        var merged := Merged(db.catalog, g, imp);
        db := db.(catalog := WithMapping(merged, Mapping(g, platform, imp.extId, imp.title)));
        Flush();
      }
    }

    /** The mapping gets another game, never the one it has. */
    method MoveMapping(platform: Platform, imp: Import, m: nat) returns (g: nat)
      requires Consistent(db.catalog) && m in db.catalog.mappings
      modifies this
      ensures committed == old(committed)
      ensures MayFind(score, old(db).catalog, platform, imp, Some(old(db).catalog.mappings[m].game), g)
      ensures g in Found(old(db).catalog, imp, g).games
      ensures db == old(db).(catalog := Flushed(Rehomed(Found(old(db).catalog, imp, g), m, g, imp)),
        stored := old(db).rows)
    {
      var home := db.catalog.mappings[m].game;
      g := FindOrCreateGame(platform, imp, Some(home));
      FoundIsSuitable(score, old(db).catalog, platform, imp, Some(home), g);
      db := db.(catalog := Rehomed(db.catalog, m, g, imp));
      Flush();
    }

    /** The mapping exists: it moves to another game when it collides or its game no longer fits. */
    method KeepOrMove(platform: Platform, imp: Import, m: nat) returns (g: nat)
      requires Consistent(db.catalog) && MappingIds(db.catalog, platform, imp.extId) == {m} && m in db.catalog.mappings
      modifies this
      ensures committed == old(committed)
      ensures ResolvesTo(score, old(db), platform, imp, g, db)
    {
      assert m in MappingIds(db.catalog, platform, imp.extId);
      g := db.catalog.mappings[m].game;
      var collides := SteamIdCollision(platform, imp, m);
      if collides || !Compatible(score, db.catalog.games[g].title, imp.title) {
        g := MoveMapping(platform, imp, m);
      }
      db := db.(catalog := Merged(db.catalog, g, imp));
      MayKeepResolves(score, old(db), platform, imp, m, g, db);
    }

    /** Looks among the pending rows only. */
    method PendingOwnership(key: Key) returns (found: Option<nat>)
      ensures found.None? ==> RowsAt(db.rows, key) <= db.stored.Keys
      ensures found.Some? ==> found.value in RowsAt(db.rows, key)
    {
      var pending := db.rows.Keys - db.stored.Keys;
      while pending != {}
        invariant pending <= db.rows.Keys - db.stored.Keys
        invariant forall r :: r in db.rows.Keys - db.stored.Keys - pending ==> db.rows[r].key != key
        decreases pending
      {
        var r :| r in pending;
        if db.rows[r].key == key { return Some(r); }
        pending := pending - {r};
      }
      found := None;
    }

    method FirstSeen(u: Upsert) returns (firstSeen: Option<int>, baseline: bool)
      ensures MayBeSeen(db.stored, u, firstSeen, baseline)
    {
      var siblings := Siblings(db.stored, u.key);
      if siblings == {} { return Some(u.now), u.baseline; }
      ghost var least := FirstExists(db.stored, siblings);
      var r :| r in siblings && forall s :: s in siblings ==>
        SeenBefore(db.stored[r].firstSeen, db.stored[s].firstSeen);
      firstSeen, baseline := db.stored[r].firstSeen, db.stored[r].baseline;
      assert FirstOf(db.stored, siblings, r);
    }

    /** The pending rows first, then the flushed ones. */
    method FindOwnership(key: Key) returns (found: Option<nat>)
      requires Tables(db)
      ensures found.None? <==> RowsAt(db.rows, key) == {}
      ensures found.Some? ==> RowsAt(db.rows, key) == {found.value} && found.value in db.rows
    {
      found := PendingOwnership(key);
      if found.None? {
        var stored := RowsAt(db.stored, key);
        if stored != {} {
          var r :| r in stored;
          found := Some(r);
        }
      }
      LookupFindsRow(db, key, found);
    }

    /** A key without a row gets a new one. */
    method UpsertOwnership(u: Upsert)
      requires Tables(db) && Refers(db, u)
      modifies this
      ensures committed == old(committed)
      ensures Upserts(old(db), u, db)
    {
      var found := FindOwnership(u.key);
      if found.None? {
        var firstSeen, baseline := FirstSeen(u);
        var row := Update(NewRow(u, firstSeen, baseline), u);
        db := db.(rows := db.rows[db.nextRow := row], nextRow := db.nextRow + 1);
        assert Creates(old(db), u, db);
      } else {
        var row := db.rows[found.value];
        if row.account.None? || u.relink { row := row.(account := Some(u.account)); }
        row := Update(row, u);
        db := db.(rows := db.rows[found.value := row]);
      }
    }

    method ImportGame(a: nat, imported: ImportedGame, priority: Priority, baseline: bool, now: int) returns (g: nat)
      requires Valid(db) && a in db.accounts
      modifies this
      ensures committed == old(committed)
      ensures ImportsOne(score, old(db), a, imported, priority, baseline, now, g, db)
    {
      var account := db.accounts[a];
      var platform := MappingPlatform(account, imported);
      g := ResolveGame(platform, imported.info);
      ResolveKeepsValid(score, old(db), platform, imported.info, g, db);
      ghost var resolved := db;
      var u := UpsertFor(a, account, g, imported, priority, baseline, now);
      UpsertOwnership(u);
      assert ResolvesTo(score, old(db), platform, imported.info, g, resolved) && Upserts(resolved, u, db);
    }

    /** The import loop over the first `count` games of a batch. */
    method ImportGames(a: nat, games: seq<ImportedGame>, count: nat, baseline: bool, now: int)
        returns (keys: set<Key>, ghost chosen: seq<nat>)
      requires Valid(db) && Clean(db) && a in db.accounts && count <= |games|
      modifies this
      ensures committed == old(committed) && Valid(db) && db.accounts == old(db).accounts
      ensures |chosen| == count && keys == Keys(old(db).accounts[a], games, chosen)
      ensures Imported(old(db), db, keys) && Matched(score, db.catalog, games, chosen)
      ensures NoWorse(score, old(db).catalog, db.catalog)
      ensures Traced(score, old(db).accounts[a], games, chosen, old(db).catalog, db.catalog)
      ensures ImportRun(score, old(db),
        BatchReports(a, old(db).accounts[a], games, chosen, Authoritative, baseline, now), db)
    {
      ghost var start := db;
      var account := db.accounts[a];
      keys, chosen := {}, [];
      assert Trace(score, account, games, [], [start.catalog]);
      for i := 0 to count
        invariant committed == old(committed) && Valid(db) && db.accounts == start.accounts
        invariant NoWorse(score, start.catalog, db.catalog)
        invariant |chosen| == i && keys == Keys(account, games, chosen)
        invariant Imported(start, db, keys) && Matched(score, db.catalog, games, chosen)
        invariant Traced(score, account, games, chosen, start.catalog, db.catalog)
        invariant ImportRun(score, start, BatchReports(a, account, games, chosen, Authoritative, baseline, now), db)
      {
        ghost var before := db;
        var g := ImportGame(a, games[i], Authoritative, baseline, now);
        ImportKeeps(score, start, before, keys, a, games[i], Authoritative, baseline, now, g, db);
        NoWorseThenNoWorse(score, start.catalog, before.catalog, db.catalog);
        TraceGrows(score, account, games, chosen, start.catalog, before.catalog, g, db.catalog);
        BatchRunGrows(score, start, a, account, games, chosen, Authoritative, baseline, now, before, g, db);
        BatchGrows(score, before.catalog, db.catalog, account, games, chosen, g);
        keys := keys + {Key(account.participant, g, OwnershipPlatform(account, games[i]))};
        chosen := chosen + [g];
      }
    }

    /** Deletes what the query on one platform finds and nobody confirmed. */
    method Reconcile(a: nat, platform: Platform, games: set<nat>)
      modifies this
      ensures committed == old(committed)
      ensures db == old(db).(rows := old(db).rows - Reconciled(old(db), a, platform, games))
    {
      var result := set r | r in db.stored && Missing(db, a, platform, games, r);
      var deleted: set<nat> := {};
      ghost var all := result;
      while result != {}
        invariant result <= all && committed == old(committed)
        invariant deleted == set r | r in all - result && old(db).stored[r].key !in old(db).confirmed
        invariant db == old(db).(rows := old(db).rows - deleted)
        decreases result
      {
        var r :| r in result;
        if db.stored[r].key !in db.confirmed {
          deleted := deleted + {r};
          db := db.(rows := db.rows - {r});
        }
        result := result - {r};
      }
      assert deleted == Reconciled(old(db), a, platform, games);
    }

    method ReconcileAll(a: nat, platforms: set<Platform>, keys: set<Key>)
      modifies this
      ensures committed == old(committed)
      ensures db == old(db).(rows := old(db).rows - Deleted(old(db), a, platforms, keys))
    {
      var rest := platforms;
      assert Deleted(db, a, platforms - rest, keys) == {};
      while rest != {}
        invariant rest <= platforms && committed == old(committed)
        invariant db == old(db).(rows := old(db).rows - Deleted(old(db), a, platforms - rest, keys))
        decreases rest
      {
        var platform :| platform in rest;
        Reconcile(a, platform, ImportedOn(keys, platform));
        OnePlatformMore(old(db), a, platforms - rest, platform, keys, db.rows);
        rest := rest - {platform};
        assert platforms - rest == platforms - (rest + {platform}) + {platform};
      }
      assert platforms - {} == platforms;
    }

    method Rollback()
      modifies this
      ensures db == committed == old(committed)
    {
      db := committed;
    }

    /** A failure is recorded on the account and as a run; everything else is rolled back. */
    method Fail(a: nat, message: string) returns (run: SyncRun)
      requires Valid(committed) && Clean(committed) && a in committed.accounts
      modifies this
      ensures run == SyncRun(a, false, message, 0)
      ensures db == committed == Failed(old(committed), a, message) && Valid(db) && Clean(db)
    {
      FailedValid(committed, a, message);
      Rollback();
      run := SyncRun(a, false, message, 0);
      db := db.(accounts := db.accounts[a := db.accounts[a].(lastError := Some(message))], runs := db.runs + [run]);
      Commit();
    }

    /**
      * Synchronizes one account. `fault` is an exception raised after that many imports, or later;
      * an account that does not exist is the caller's error.
      */
    method SyncAccount(a: nat, provider: Provider, delivery: Delivery, fault: Option<(nat, string)>, now: int)
        returns (run: Option<SyncRun>, ghost chosen: seq<nat>, ghost action: Action)
      requires Valid(db) && Clean(db) && committed == db
      modifies this
      ensures committed == db && Valid(db) && Clean(db)
      ensures a !in old(db).accounts ==> run.None? && db == old(db)
      ensures a in old(db).accounts ==> Does(old(db), action, db) && run.Some? && db.runs == old(db).runs + [run.value]
      ensures a in old(db).accounts && Failure(delivery, fault).Some? ==>
        action == SyncFailed(a, Failure(delivery, fault).value) && run == Some(SyncRun(a, false, action.message, 0))
      ensures a in old(db).accounts && Failure(delivery, fault).None? ==>
        && Synced(score, old(db), a, AuthoritativePlatforms(provider, old(db).accounts[a], delivery.authoritative),
             delivery.games, now, chosen, action, db)
        && run == Some(SyncRun(a, true, "sync completed", |delivery.games|))
    {
      if a !in db.accounts { return None, [], SyncFailed(a, ""); }
      match delivery
      case Raised(message) =>
        var failed := Fail(a, message);
        run, chosen, action := Some(failed), [], SyncFailed(a, message);
      case Batch(games, authoritative) =>
        var platforms := AuthoritativePlatforms(provider, db.accounts[a], authoritative);
        if fault.Some? {
          var count := if fault.value.0 < |games| then fault.value.0 else |games|;
          var keys;
          keys, chosen := ImportGames(a, games, count, db.accounts[a].lastSync.None?, now);
          var failed := Fail(a, fault.value.1);
          run, action := Some(failed), SyncFailed(a, fault.value.1);
        } else {
          var finished;
          finished, chosen, action := SyncBatch(a, platforms, games, now);
          run := Some(finished);
        }
    }

    /** The whole batch is imported, reconciled and committed. */
    method SyncBatch(a: nat, platforms: set<Platform>, games: seq<ImportedGame>, now: int)
        returns (run: SyncRun, ghost chosen: seq<nat>, ghost action: Action)
      requires Valid(db) && Clean(db) && committed == db && a in db.accounts
      modifies this
      ensures committed == db && Valid(db) && Clean(db)
      ensures Does(old(db), action, db) && db.runs == old(db).runs + [run]
      ensures Synced(score, old(db), a, platforms, games, now, chosen, action, db)
      ensures run == SyncRun(a, true, "sync completed", |games|)
    {
      var account := db.accounts[a];
      var keys;
      keys, chosen := ImportGames(a, games, |games|, account.lastSync.None?, now);
      ghost var loop := db;
      run := FinishSync(a, platforms, keys, |games|, now);
      action := Sync(a, platforms, keys, loop, now, run);
      SyncIsExact(old(db), loop, a, platforms, keys, now, run, db);
      FlushedKeeps(score, loop.catalog);
      NoWorseThenNoWorse(score, old(db).catalog, loop.catalog, Flushed(loop.catalog));
    }

    /** Reconciles every platform the batch speaks for, records the run and commits. */
    method FinishSync(a: nat, platforms: set<Platform>, keys: set<Key>, count: nat, now: int) returns (run: SyncRun)
      requires a in db.accounts
      modifies this
      ensures run == SyncRun(a, true, "sync completed", count)
      ensures db == committed == Finished(old(db), a, Deleted(old(db), a, platforms, keys), now, run)
    {
      ReconcileAll(a, platforms, keys);
      run := SyncRun(a, true, "sync completed", count);
      db := db.(accounts := db.accounts[a := db.accounts[a].(lastSync := Some(now), lastError := None)],
        runs := db.runs + [run]);
      Commit();
    }

    /** Confirms by hand that a participant owns a game; `isGame` is the game row's own flag. */
    method CreateManualOwnership(key: Key, participantExists: bool, isGame: bool, now: int) returns (created: bool)
      requires Valid(db) && Clean(db) && committed == db
      modifies this
      ensures committed == db
      ensures created <==> participantExists && key.game in old(db).catalog.games && isGame
      ensures if created then Does(old(db), CreateManual(key, now), db) else db == old(db)
    {
      if !participantExists { return false; }
      if key.game !in db.catalog.games || !isGame { return false; }
      created := true;
      db := db.(confirmed := db.confirmed + {key});
      if RowsAt(db.stored, key) == {} {
        var firstSeen, baseline := FirstSeen(Upsert(key, 0, false, false, 0, None, "", false, now));
        var account := AccountFor(key);
        var row := Ownership(key, account, 0, None, None, firstSeen, baseline, now);
        db := db.(rows := db.rows[db.nextRow := row], nextRow := db.nextRow + 1);
        Commit();
        assert db == Confirmed(old(db), key, account, firstSeen, baseline, now);
      } else {
        Commit();
      }
    }

    /** The first of the participant's accounts, preferring those that are not Playnite stand-ins. */
    method AccountFor(key: Key) returns (account: Option<nat>)
      ensures MayHold(db, key, account)
    {
      var accounts := AccountsFor(db, key.participant, key.platform);
      if accounts == {} { return None; }
      var direct := set a | a in accounts && !FromPlaynite(db.accounts[a]);
      if direct != {} {
        var a :| a in direct;
        return Some(a);
      }
      var a :| a in accounts;
      forall b | b in accounts ensures FromPlaynite(db.accounts[b]) { assert b !in direct; }
      account := Some(a);
    }

    method DeleteManualOwnership(key: Key) returns (deleted: bool)
      requires Valid(db) && Clean(db) && committed == db
      modifies this
      ensures committed == db
      ensures deleted <==> key in old(db).confirmed
      ensures if deleted then Does(old(db), DeleteManual(key), db) else db == old(db)
    {
      if key !in db.confirmed { return false; }
      deleted := true;
      var rows := RowsAt(db.stored, key);
      db := db.(confirmed := db.confirmed - {key});
      if rows != {} {
        var r :| r in rows;
        assert rows == {r};
        if db.rows[r].account.None? { db := db.(rows := db.rows - {r}); }
      }
      GoneRows(old(db), key, db.rows);
      Commit();
    }

    method DeleteAccount(a: nat) returns (deleted: bool)
      requires Valid(db) && Clean(db) && committed == db
      modifies this
      ensures committed == db
      ensures deleted <==> a in old(db).accounts
      ensures if deleted then Does(old(db), Action.DeleteAccount(a), db) else db == old(db)
    {
      if a !in db.accounts { return false; }
      deleted := true;
      var detached := map r | r in db.rows ::
        if db.rows[r].account == Some(a) && db.rows[r].key in db.confirmed then db.rows[r].(account := None)
          else db.rows[r];
      var cascaded := map r | r in detached && detached[r].account != Some(a) :: detached[r];
      db := db.(rows := cascaded, accounts := db.accounts - {a},
        runs := Filter(db.runs, (run: SyncRun) => run.account != a));
      SameWithoutAccount(old(db), a, cascaded);
      Commit();
    }

    /**
      * The participant's oldest account on the platform, or a new stand-in; `digits` is the participant's number as
      * text.
      */
    method AccountForImport(participant: nat, digits: string, platform: Platform, now: int) returns (a: nat)
      requires Valid(db)
      modifies this
      ensures committed == old(committed) && Valid(db) && Unaltered(old(db), db)
      ensures Uses(old(db), participant, platform, a, db.accounts)
      ensures a in old(db).accounts <==> AccountsFor(old(db), participant, platform) != {}
      ensures db.accounts[a].lastSync == Some(now) && db.accounts[a].lastError.None?
      ensures a !in old(db).accounts ==> db.accounts[a].accountId == "gog-galaxy:" + digits + ":" + platform
    {
      var existing := AccountsFor(db, participant, platform);
      if existing != {} {
        ghost var least := LeastExists(existing, (x: nat, y: nat) => x <= y);
        a :| a in existing && forall b :: b in existing ==> a <= b;
        db := db.(accounts := db.accounts[a := db.accounts[a].(lastSync := Some(now), lastError := None)]);
      } else {
        a := db.nextAccount;
        var id := "gog-galaxy:" + digits + ":" + platform;
        db := db.(accounts := db.accounts[a := Account(participant, platform, id, Some(now), None)],
          nextAccount := a + 1);
        assert id[..|"gog-galaxy:"|] == "gog-galaxy:";
        Flush();
      }
    }

    method AddGalaxyRelatedMappings(g: nat, title: Title, related: seq<Release>)
      modifies this
      ensures committed == old(committed)
      ensures db == old(db).(catalog := WithRelated(old(db).catalog, g, title, related),
        stored := if related == [] then old(db).stored else old(db).rows)
    {
      if related == [] { return; }
      var catalog := AddRelatedMappings(db.catalog, g, title, related);
      db := db.(catalog := catalog);
      Flush();
    }

    /** One entry of a GOG Galaxy database: its account, game, ownership and related mappings. */
    method ImportGalaxyEntry(participant: nat, digits: string, entry: GalaxyEntry, now: int, ghost start: Library,
        ghost keys: set<Key>, ghost reports: seq<Report>)
        returns (g: nat, ghost e: Report)
      requires GalaxyState(score, start, participant, keys, reports, db) && NoRepeats(entry.related)
      modifies this
      ensures committed == old(committed)
      ensures GalaxyState(score, start, participant, keys + {e.key}, reports + [e], db)
      ensures GalaxyReport(start, participant, entry, now, g, e)
    {
      var a := AccountForImport(participant, digits, entry.platform, now);
      AccountStep(score, start, participant, keys, reports, old(db), entry.platform, a, db);
      var imported := ImportedGame(entry.info, None, None, entry.playtime, None, "");
      ghost var before := db;
      g := ImportGame(a, imported, Fallback, true, now);
      e := ImportStep(score, start, participant, keys, reports, before, a, imported, now, g, db);
      ghost var resolved := db;
      AddGalaxyRelatedMappings(g, entry.info.title, entry.related);
      RelatedStep(score, start, participant, keys + {e.key}, reports + [e], resolved, g, entry.info.title,
        entry.related, db);
    }

    /** A whole GOG Galaxy import: rows are added or updated at the entries' keys, nothing is deleted. */
    method ImportGalaxyEntries(participant: nat, digits: string, entries: seq<GalaxyEntry>, now: int)
        returns (ghost chosen: seq<nat>, ghost action: Action, ghost reports: seq<Report>)
      requires Valid(db) && Clean(db) && committed == db && Distinct(entries)
      modifies this
      ensures committed == db && Does(old(db), action, db)
      ensures |chosen| == |entries| && action.LauncherImport? && action.keys == GalaxyKeys(participant, entries, chosen)
      ensures NoWorse(score, old(db).catalog, db.catalog)
      ensures ImportRun(score, old(db), reports, db)
      ensures GalaxyReports(old(db), participant, entries, now, chosen, reports)
    {
      ghost var start := db;
      ghost var keys: set<Key> := {};
      chosen, reports := [], [];
      for i := 0 to |entries|
        invariant committed == old(committed) && GalaxyState(score, start, participant, keys, reports, db)
        invariant |chosen| == i && keys == GalaxyKeys(participant, entries, chosen)
        invariant GalaxyReports(start, participant, entries, now, chosen, reports)
      {
        var g;
        ghost var e;
        g, e := ImportGalaxyEntry(participant, digits, entries[i], now, start, keys, reports);
        GalaxyKeysGrow(participant, entries, chosen, g);
        keys := keys + {e.key};
        GalaxyReportsGrow(start, participant, entries, now, chosen, reports, g, e);
        chosen, reports := chosen + [g], reports + [e];
      }
      action := LauncherImport(keys, db);
      FlushedKeeps(score, db.catalog);
      NoWorseThenNoWorse(score, start.catalog, db.catalog, Flushed(db.catalog));
      RunThenQuiet(score, start, reports, db, FlushAll(db));
      Commit();
    }
  }

  lemma SameWithoutAccount(l: Library, a: nat, cascaded: map<nat, Ownership>)
    requires var detached := map r | r in l.rows ::
        if l.rows[r].account == Some(a) && l.rows[r].key in l.confirmed then l.rows[r].(account := None) else l.rows[r];
      cascaded == map r | r in detached && detached[r].account != Some(a) :: detached[r]
    ensures cascaded == WithoutAccount(l, a).rows
  {
  }

  lemma GoneRows(l: Library, key: Key, rows: map<nat, Ownership>)
    requires Tables(l) && Clean(l)
    requires if RowsAt(l.rows, key) == {} then rows == l.rows
      else exists r :: RowsAt(l.rows, key) == {r} && rows == if l.rows[r].account.None? then l.rows - {r} else l.rows
    ensures rows == WithoutManual(l, key).rows
  {
    var gone := set r | r in l.rows && l.rows[r].key == key && l.rows[r].account.None?;
    assert gone <= RowsAt(l.rows, key);
  }

  /** The error a sync ends with, if any. */
  function Failure(delivery: Delivery, fault: Option<(nat, string)>): Option<string> {
    match delivery
    case Raised(message) => Some(message)
    case Batch(_, _) => if fault.Some? then Some(fault.value.1) else None
  }

  /**
    * A finished sync: every reported game has a row, exactly the absent rows are gone, and the account is up to date.
    */
  ghost predicate Synced(score: Score, start: Library, a: nat, platforms: set<Platform>, games: seq<ImportedGame>,
      now: int, chosen: seq<nat>, action: Action, end: Library)
    requires a in start.accounts
  {
    && action.Sync? && action.account == a && action.platforms == platforms
    && |chosen| == |games| && action.keys == Keys(start.accounts[a], games, chosen)
    && Matched(score, end.catalog, games, chosen)
    && Exact(start, a, platforms, action.keys, action.loop.catalog.stored, end)
    && NoWorse(score, start.catalog, end.catalog)
    && Traced(score, start.accounts[a], games, chosen, start.catalog, action.loop.catalog)
    && ImportRun(score, start,
         BatchReports(a, start.accounts[a], games, chosen, Authoritative, start.accounts[a].lastSync.None?, now),
         action.loop)
    && end.catalog.games == action.loop.catalog.games
    && end.accounts == start.accounts[a := start.accounts[a].(lastSync := Some(now), lastError := None)]
  }

  function ReportedKey(account: Account, games: seq<ImportedGame>, chosen: seq<nat>, i: nat): Key
    requires i < |games| == |chosen|
  {
    Key(account.participant, chosen[i], OwnershipPlatform(account, games[i]))
  }

  /** The game is the last one of its key in the batch with a playtime. */
  ghost predicate LastReported(account: Account, games: seq<ImportedGame>, chosen: seq<nat>, i: int)
    requires |chosen| == |games|
  {
    && 0 <= i < |games| && games[i].playtime > 0
    && var key := ReportedKey(account, games, chosen, i);
       forall j :: i < j < |games| && ReportedKey(account, games, chosen, j) == key ==> games[j].playtime <= 0
  }

  /** After a sync every game that was reported as played has the playtime last reported for it. */
  lemma SyncedPlaytimes(score: Score, start: Library, a: nat, platforms: set<Platform>, games: seq<ImportedGame>,
      now: int, chosen: seq<nat>, action: Action, end: Library, i: nat)
    requires a in start.accounts && Does(start, action, end)
    requires Synced(score, start, a, platforms, games, now, chosen, action, end)
    requires LastReported(start.accounts[a], games, chosen, i)
    ensures RowsAt(end.rows, ReportedKey(start.accounts[a], games, chosen, i)) != {}
    ensures forall r :: r in RowsAt(end.rows, ReportedKey(start.accounts[a], games, chosen, i)) ==>
      end.rows[r].playtime == games[i].playtime
  {
    hide ImportRun, Imported, Valid, Traced, Matched, NoWorse, Absent, Missing;
    var account, loop := start.accounts[a], action.loop;
    var reports := BatchReports(a, account, games, chosen, Authoritative, account.lastSync.None?, now);
    var key := ReportedKey(account, games, chosen, i);
    RunPlaytimes(score, start, reports, loop, key);
    assert key in action.keys && Overwrites(reports, key, i);
    forall r | r in RowsAt(end.rows, key) ensures r in RowsAt(loop.rows, key) && end.rows[r] == loop.rows[r] { }
  }

  /**
    * After a sync every row keeps when it was first seen, and a new one was first seen when the participant's first row
    * of the game was, or else now; what the account's first sync discovers is part of the baseline.
    */
  lemma SyncedDiscoveries(score: Score, start: Library, a: nat, platforms: set<Platform>, games: seq<ImportedGame>,
      now: int, chosen: seq<nat>, action: Action, end: Library, r: nat)
    requires a in start.accounts && Clean(start) && Does(start, action, end) && r in end.rows
    requires Synced(score, start, a, platforms, games, now, chosen, action, end)
    ensures if r in start.rows then SameDiscovery(end.rows[r], start.rows[r])
      else Discovered(start.rows, end.rows[r].key, now, start.accounts[a].lastSync.None?, end.rows[r])
  {
    hide ImportRun, Imported, Valid, Traced, Matched, NoWorse, Exact, Discovered;
    var account, loop, baseline := start.accounts[a], action.loop, start.accounts[a].lastSync.None?;
    var reports := BatchReports(a, account, games, chosen, Authoritative, baseline, now);
    RunDiscovers(score, start, reports, loop, now, baseline);
    assert r in loop.rows && end.rows[r] == loop.rows[r];
  }

  /**
    * Which rows a finished sync deletes: only an authoritative batch deletes any, and only the account's unconfirmed
    * rows on platforms the provider speaks for whose game was not reported there and was not free in the database.
    */
  lemma SyncDeletes(score: Score, start: Library, a: nat, provider: Provider, authoritative: bool,
      games: seq<ImportedGame>, now: int, chosen: seq<nat>, action: Action, end: Library, r: nat)
    requires a in start.accounts && r in start.rows
    requires Synced(score, start, a, AuthoritativePlatforms(provider, start.accounts[a], authoritative), games, now,
      chosen, action, end)
    ensures var row, account, free := start.rows[r], start.accounts[a], action.loop.catalog.stored;
      r !in end.rows <==>
        && authoritative && row.account == Some(a) && row.key !in start.confirmed
        && (row.key.platform in provider.ownershipPlatforms
            || (provider.authoritativeLibrary && row.key.platform == account.platform))
        && (forall i :: 0 <= i < |games| && chosen[i] == row.key.game ==>
              row.key.platform != (if games[i].ownershipPlatform.Some? then games[i].ownershipPlatform.value
                                   else account.platform))
        && row.key.game in free && !free[row.key.game].isFree
  {
    hide ImportRun, Traced, Matched, NoWorse;
    var row, account := start.rows[r], start.accounts[a];
    var reported := ImportedOn(action.keys, row.key.platform);
    if i :| 0 <= i < |games| && chosen[i] == row.key.game && OwnershipPlatform(account, games[i]) == row.key.platform {
      assert Key(account.participant, chosen[i], row.key.platform) in action.keys;
    }
    assert row.key.game in reported <==>
      exists i :: 0 <= i < |games| && chosen[i] == row.key.game
                  && OwnershipPlatform(account, games[i]) == row.key.platform;
  }

  /** Each game of the batch so far went to a game of a compatible title. */
  ghost predicate Matched(score: Score, c: Catalog, games: seq<ImportedGame>, chosen: seq<nat>) {
    |chosen| <= |games|
    && forall i :: 0 <= i < |chosen| ==>
      chosen[i] in c.games && Compatible(score, c.games[chosen[i]].title, games[i].info.title)
  }

  lemma BatchGrows(score: Score, c: Catalog, c': Catalog, account: Account, games: seq<ImportedGame>,
      chosen: seq<nat>, g: nat)
    requires |chosen| < |games| && Matched(score, c, games, chosen) && KeepsTitles(c, c')
    requires g in c'.games && Compatible(score, c'.games[g].title, games[|chosen|].info.title)
    ensures Matched(score, c', games, chosen + [g])
    ensures Keys(account, games, chosen + [g])
         == Keys(account, games, chosen) + {Key(account.participant, g, OwnershipPlatform(account, games[|chosen|]))}
  {
    var more := chosen + [g];
    forall i | 0 <= i < |chosen| ensures more[i] == chosen[i] { }
    forall key | key in Keys(account, games, chosen) ensures key in Keys(account, games, more) {
      var i :| 0 <= i < |chosen| && key == Key(account.participant, chosen[i], OwnershipPlatform(account, games[i]));
      assert more[i] == chosen[i];
    }
    assert more[|chosen|] == g;
  }

  function Reconciled(l: Library, a: nat, platform: Platform, games: set<nat>): set<nat> {
    set r | r in l.stored && Missing(l, a, platform, games, r) && l.stored[r].key !in l.confirmed
  }

  lemma OnePlatformMore(l: Library, a: nat, done: set<Platform>, platform: Platform, keys: set<Key>,
      rows: map<nat, Ownership>)
    requires var before := l.(rows := l.rows - Deleted(l, a, done, keys));
      rows == before.rows - Reconciled(before, a, platform, ImportedOn(keys, platform))
    ensures rows == l.rows - Deleted(l, a, done + {platform}, keys)
  {
  }

  method Update(before: Ownership, u: Upsert) returns (row: Ownership)
    ensures row == Touched(before, u)
  {
    row := before;
    var current := row.playtime;
    if (u.strong || current <= 0) && (u.playtime > 0 || current <= 0) { row := row.(playtime := u.playtime); }
    if u.since.Some? && u.source != "" {
      if row.source.None? || row.ownedSince.None? || u.since.value < row.ownedSince.value {
        row := row.(ownedSince := u.since, source := Some(u.source));
      }
    }
    row := row.(lastSeen := u.now);
  }

  lemma FirstExists(stored: map<nat, Ownership>, siblings: set<nat>) returns (r: nat)
    requires siblings != {} && siblings <= stored.Keys
    ensures r in siblings && forall s :: s in siblings ==> SeenBefore(stored[r].firstSeen, stored[s].firstSeen)
  {
    var le := (a: nat, b: nat) =>
      SeenBefore(if a in stored then stored[a].firstSeen else None, if b in stored then stored[b].firstSeen else None);
    r := LeastExists(siblings, le);
    forall s | s in siblings ensures SeenBefore(stored[r].firstSeen, stored[s].firstSeen) { assert le(r, s); }
  }

  /** The two lookups together miss no row. */
  lemma LookupFindsRow(l: Library, key: Key, found: Option<nat>)
    requires Tables(l)
    requires found.None? ==> RowsAt(l.rows, key) <= l.stored.Keys && RowsAt(l.stored, key) == {}
    requires found.Some? ==> found.value in RowsAt(l.rows, key) + RowsAt(l.stored, key)
    ensures found.None? <==> RowsAt(l.rows, key) == {}
    ensures found.Some? ==> RowsAt(l.rows, key) == {found.value}
  {
    forall r | r in RowsAt(l.rows, key) && r in l.stored ensures r in RowsAt(l.stored, key) { }
    if found.None? {
      forall r | r in l.rows ensures r !in RowsAt(l.rows, key) { assert r !in RowsAt(l.stored, key); }
    }
  }

  lemma CollidesIff(c: Catalog, platform: Platform, imp: Import, m: nat, primary: nat)
    requires m in MappingIds(c, platform, imp.extId) && NumericSteam(platform, imp.extId)
    requires primary in SteamMappings(c, c.mappings[m].game)
    requires forall n :: n in SteamMappings(c, c.mappings[m].game) ==> primary <= n
    ensures Collides(c, platform, imp, m) <==> m != primary
  {
    assert m in SteamMappings(c, c.mappings[m].game);
    forall n | n in c.mappings && IsNumericSteam(c.mappings[n]) && c.mappings[n].game == c.mappings[m].game
      ensures n in SteamMappings(c, c.mappings[m].game)
    {
    }
  }

  lemma MayKeepResolves(score: Score, l: Library, platform: Platform, imp: Import, m: nat, g: nat, l': Library)
    requires Consistent(l.catalog) && MappingIds(l.catalog, platform, imp.extId) == {m} && m in l.catalog.mappings
    requires MayKeep(score, l.catalog, platform, imp, m, g)
    requires if MustMove(score, l.catalog, platform, imp, m) then g in Found(l.catalog, imp, g).games
      else g in l.catalog.games
    requires l' == l.(catalog := Kept(score, l.catalog, platform, imp, m, g),
      stored := if MustMove(score, l.catalog, platform, imp, m) then l.rows else l.stored)
    ensures ResolvesTo(score, l, platform, imp, g, l')
  {
    assert m in MappingIds(l.catalog, platform, imp.extId);
  }
}
