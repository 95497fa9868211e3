/** The import of a GOG Galaxy database, entry by entry: the accounts it fills and what it reports to them. */
module GalaxyRuns {
  import opened Options
  import opened Titles
  import opened Catalog
  import opened CatalogProofs
  import opened GalaxyImport
  import opened Library
  import opened Imports
  import opened ImportRuns
  import opened LibraryRuns

  /** Each entry's releases are listed once. */
  ghost predicate Distinct(entries: seq<GalaxyEntry>) {
    forall i {:trigger entries[i]} :: 0 <= i < |entries| ==> NoRepeats(entries[i].related)
  }

  function GalaxyKeys(participant: nat, entries: seq<GalaxyEntry>, chosen: seq<nat>): set<Key>
    requires |chosen| <= |entries|
  {
    set i | 0 <= i < |chosen| :: Key(participant, chosen[i], entries[i].platform)
  }

  lemma GalaxyKeysGrow(participant: nat, entries: seq<GalaxyEntry>, chosen: seq<nat>, g: nat)
    requires |chosen| < |entries|
    ensures GalaxyKeys(participant, entries, chosen + [g])
         == GalaxyKeys(participant, entries, chosen) + {Key(participant, g, entries[|chosen|].platform)}
  {
    var more := chosen + [g];
    forall key | key in GalaxyKeys(participant, entries, chosen) ensures key in GalaxyKeys(participant, entries, more) {
      var i :| 0 <= i < |chosen| && key == Key(participant, chosen[i], entries[i].platform);
      assert more[i] == chosen[i];
    }
    assert more[|chosen|] == g;
  }

  /** A title in a GOG Galaxy database, with its releases on other platforms. */
  datatype GalaxyEntry = GalaxyEntry(platform: Platform, info: Import, playtime: int, related: seq<Release>)

  /** Everything but accounts is as it was, except that pending rows may have been flushed. */
  ghost predicate Unaltered(l: Library, l': Library) {
    && l'.rows == l.rows && l'.stored in {l.stored, l.rows} && l'.confirmed == l.confirmed && l'.runs == l.runs
    && l'.catalog in {l.catalog, Flushed(l.catalog)}
  }

  lemma UnalteredStaysImported(score: Score, start: Library, l: Library, keys: set<Key>, l': Library)
    requires Imported(start, l, keys) && Unaltered(l, l') && NoWorse(score, start.catalog, l.catalog)
    ensures Imported(start, l', keys) && NoWorse(score, start.catalog, l'.catalog)
  {
    FlushedKeeps(score, l.catalog);
    NoWorseThenNoWorse(score, start.catalog, l.catalog, Flushed(l.catalog));
  }

  lemma RelatedStaysImported(score: Score, start: Library, l: Library, keys: set<Key>, g: nat, title: Title,
      related: seq<Release>, l': Library)
    requires Valid(l) && Imported(start, l, keys) && NoRepeats(related)
    requires g in l.catalog.games && Compatible(score, l.catalog.games[g].title, title)
    requires l' == l.(catalog := WithRelated(l.catalog, g, title, related), stored := if related == [] then l.stored
      else l.rows)
    ensures Valid(l') && Imported(start, l', keys) && NoWorse(score, l.catalog, l'.catalog)
  {
    RelatedIsRight(score, l.catalog, g, title, related, l'.catalog);
    SameRows(l, l');
    UnalteredRows(start, l, keys, l');
  }

  lemma UnalteredRows(start: Library, l: Library, keys: set<Key>, l': Library)
    requires Imported(start, l, keys)
    requires l'.rows == l.rows && l'.stored in {l.stored, l.rows} && l'.confirmed == l.confirmed && l'.runs == l.runs
    ensures Imported(start, l', keys)
  {
  }

  /** Accounts keep owner, platform and id; those added stand for GOG Galaxy where the participant had no account. */
  ghost predicate StandIns(start: Library, participant: nat, accounts: map<nat, Account>) {
    && (forall a :: a in start.accounts ==>
          && a in accounts && accounts[a].accountId == start.accounts[a].accountId
          && accounts[a].participant == start.accounts[a].participant
          && accounts[a].platform == start.accounts[a].platform)
    && (forall a :: a in accounts && a !in start.accounts ==>
          && accounts[a].participant == participant && StartsWith(accounts[a].accountId, "gog-galaxy:")
          && AccountsFor(start, participant, accounts[a].platform) == {})
  }

  /** One of the participant's accounts on the platform is used, the oldest one, or a new one stands in. */
  ghost predicate Uses(l: Library, participant: nat, platform: Platform, a: nat, accounts: map<nat, Account>) {
    && a in accounts && Holds(accounts[a], participant, platform) && accounts == l.accounts[a := accounts[a]]
    && (if a in l.accounts
        then Holds(l.accounts[a], participant, platform) && accounts[a].accountId == l.accounts[a].accountId
        else AccountsFor(l, participant, platform) == {} && StartsWith(accounts[a].accountId, "gog-galaxy:"))
    && forall b :: b in AccountsFor(l, participant, platform) ==> a <= b
  }

  lemma StandInsGrow(start: Library, participant: nat, l: Library, platform: Platform, a: nat,
      accounts: map<nat, Account>)
    requires StandIns(start, participant, l.accounts) && Uses(l, participant, platform, a, accounts)
    ensures StandIns(start, participant, accounts)
  {
    if a !in l.accounts {
      forall b | b in start.accounts && Holds(start.accounts[b], participant, platform)
        ensures b in AccountsFor(l, participant, platform)
      {
      }
    }
  }

  lemma AccountIsRight(start: Library, participant: nat, l: Library, platform: Platform, a: nat,
      accounts: map<nat, Account>)
    requires StandIns(start, participant, l.accounts) && Uses(l, participant, platform, a, accounts)
    ensures GalaxyAccount(start, participant, platform, a, accounts[a].accountId)
  {
    forall b | b in start.accounts && Holds(start.accounts[b], participant, platform)
      ensures a <= b && a in start.accounts
    {
      assert b in AccountsFor(l, participant, platform) && b in AccountsFor(start, participant, platform);
    }
  }

  /** The participant's oldest account on the platform, or one that stands for GOG Galaxy if there was none. */
  ghost predicate GalaxyAccount(start: Library, participant: nat, platform: Platform, a: nat, accountId: string) {
    if exists b :: b in start.accounts && Holds(start.accounts[b], participant, platform) then
      && a in start.accounts && Holds(start.accounts[a], participant, platform)
      && accountId == start.accounts[a].accountId
      && forall b :: b in start.accounts && Holds(start.accounts[b], participant, platform) ==> a <= b
    else a !in start.accounts && StartsWith(accountId, "gog-galaxy:")
  }

  predicate Holds(account: Account, participant: nat, platform: Platform) {
    account.participant == participant && account.platform == platform
  }

  /** What an entry reports: its playtime, as a fallback, to that account. */
  ghost predicate GalaxyReport(start: Library, participant: nat, entry: GalaxyEntry, now: int, g: nat, e: Report) {
    && e.key == Key(participant, g, entry.platform) && e.now == now && e.priority.Fallback? && e.baseline
    && e.imported == ImportedGame(entry.info, None, None, entry.playtime, None, "")
    && GalaxyAccount(start, participant, entry.platform, e.account, e.accountId)
  }

  ghost predicate GalaxyReports(start: Library, participant: nat, entries: seq<GalaxyEntry>, now: int, chosen: seq<nat>,
      reports: seq<Report>) {
    |reports| == |chosen| <= |entries|
    && forall i :: 0 <= i < |reports| ==> GalaxyReport(start, participant, entries[i], now, chosen[i], reports[i])
  }

  lemma GalaxyReportsGrow(start: Library, participant: nat, entries: seq<GalaxyEntry>, now: int, chosen: seq<nat>,
      reports: seq<Report>, g: nat, e: Report)
    requires GalaxyReports(start, participant, entries, now, chosen, reports) && |chosen| < |entries|
    requires GalaxyReport(start, participant, entries[|chosen|], now, g, e)
    ensures GalaxyReports(start, participant, entries, now, chosen + [g], reports + [e])
  {
    hide GalaxyReport;
  }

  /* ---------- The steps of an entry ---------- */

  /** What holds between two entries, and between the steps of one. */
  ghost predicate GalaxyState(score: Score, start: Library, participant: nat, keys: set<Key>, reports: seq<Report>,
      l: Library) {
    && Valid(l) && Imported(start, l, keys) && NoWorse(score, start.catalog, l.catalog)
    && ImportRun(score, start, reports, l) && StandIns(start, participant, l.accounts)
  }

  lemma AccountStep(score: Score, start: Library, participant: nat, keys: set<Key>, reports: seq<Report>, l: Library,
      platform: Platform, a: nat, l': Library)
    requires GalaxyState(score, start, participant, keys, reports, l) && Valid(l') && Unaltered(l, l')
    requires Uses(l, participant, platform, a, l'.accounts)
    ensures GalaxyState(score, start, participant, keys, reports, l')
    ensures GalaxyAccount(start, participant, platform, a, l'.accounts[a].accountId)
  {
    hide Valid, Imported, NoWorse, ImportRun, StandIns, Uses, GalaxyAccount;
    UnalteredStaysImported(score, start, l, keys, l');
    StandInsGrow(start, participant, l, platform, a, l'.accounts);
    AccountIsRight(start, participant, l, platform, a, l'.accounts);
    RunThenQuiet(score, start, reports, l, l');
  }

  lemma ImportStep(score: Score, start: Library, participant: nat, keys: set<Key>, reports: seq<Report>, l: Library,
      a: nat, imported: ImportedGame, now: int, g: nat, l': Library) returns (e: Report)
    requires GalaxyState(score, start, participant, keys, reports, l) && a in l.accounts
    requires l.accounts[a].participant == participant && imported.ownershipPlatform.None?
    requires ImportsOne(score, l, a, imported, Fallback, true, now, g, l')
    ensures e == Report(Key(participant, g, l.accounts[a].platform), a, l.accounts[a].accountId, imported, Fallback,
                        true, now)
    ensures GalaxyState(score, start, participant, keys + {e.key}, reports + [e], l')
    ensures g in l'.catalog.games && Compatible(score, l'.catalog.games[g].title, imported.info.title)
  {
    hide Imported, NoWorse, ImportRun, StandIns, ImportsOne, Tables, Consistent;
    e := Report(Key(participant, g, l.accounts[a].platform), a, l.accounts[a].accountId, imported, Fallback, true, now);
    ImportKeeps(score, start, l, keys, a, imported, Fallback, true, now, g, l');
    NoWorseThenNoWorse(score, start.catalog, l.catalog, l'.catalog);
    RunGrows(score, start, reports, l, e, l', l');
  }

  lemma RelatedStep(score: Score, start: Library, participant: nat, keys: set<Key>, reports: seq<Report>, l: Library,
      g: nat, title: Title, related: seq<Release>, l': Library)
    requires GalaxyState(score, start, participant, keys, reports, l) && NoRepeats(related)
    requires g in l.catalog.games && Compatible(score, l.catalog.games[g].title, title)
    requires l' == l.(catalog := WithRelated(l.catalog, g, title, related), stored := if related == [] then l.stored
      else l.rows)
    ensures GalaxyState(score, start, participant, keys, reports, l')
  {
    hide Valid, Imported, NoWorse, ImportRun, StandIns, WithRelated;
    RelatedStaysImported(score, start, l, keys, g, title, related, l');
    NoWorseThenNoWorse(score, start.catalog, l.catalog, l'.catalog);
    RunThenQuiet(score, start, reports, l, l');
  }

  /* ---------- What an import makes of playtimes ---------- */

  predicate StandsForLauncher(account: Account) {
    StartsWith(account.accountId, "playnite:") || StartsWith(account.accountId, "gog-galaxy:")
  }

  /** The participant's oldest account on the platform is one that the participant synchronizes. */
  ghost predicate Synchronized(start: Library, participant: nat, platform: Platform) {
    exists b :: b in start.accounts && Holds(start.accounts[b], participant, platform)
      && !StandsForLauncher(start.accounts[b])
      && forall c :: c in start.accounts && Holds(start.accounts[c], participant, platform) ==> b <= c
  }

  /** The entry is the last one of its game and platform with a playtime. */
  ghost predicate LastPlayed(entries: seq<GalaxyEntry>, chosen: seq<nat>, i: int)
    requires |chosen| == |entries|
  {
    && 0 <= i < |entries| && entries[i].playtime > 0
    && forall j :: i < j < |entries| && chosen[j] == chosen[i] && entries[j].platform == entries[i].platform ==>
         entries[j].playtime <= 0
  }

  lemma OverwritesIff(start: Library, participant: nat, entry: GalaxyEntry, now: int, g: nat, e: Report)
    requires GalaxyReport(start, participant, entry, now, g, e)
    ensures MayOverwrite(e) <==> !Synchronized(start, participant, entry.platform)
  {
  }

  /**
    * A GOG Galaxy import leaves the positive playtimes of synchronized accounts alone. Elsewhere the last positive one
    * in the database counts.
    */
  lemma GalaxyPlaytimes(score: Score, start: Library, participant: nat, entries: seq<GalaxyEntry>, now: int,
      chosen: seq<nat>, reports: seq<Report>, end: Library, r: nat)
    requires ImportRun(score, start, reports, end) && r in end.rows
    requires GalaxyReports(start, participant, entries, now, chosen, reports) && |chosen| == |entries|
    ensures r in start.rows && Synchronized(start, participant, start.rows[r].key.platform) ==>
      (start.rows[r].playtime > 0 ==> end.rows[r].playtime == start.rows[r].playtime)
    ensures forall i :: LastPlayed(entries, chosen, i) && !Synchronized(start, participant, entries[i].platform) ==>
      (end.rows[r].key == Key(participant, chosen[i], entries[i].platform) ==>
        end.rows[r].playtime == entries[i].playtime)
  {
    hide ImportRun, Synchronized, GalaxyAccount, MayOverwrite;
    var key := end.rows[r].key;
    RunPlaytimes(score, start, reports, end, key);
    forall i | 0 <= i < |entries|
      ensures MayOverwrite(reports[i]) <==> !Synchronized(start, participant, entries[i].platform)
    {
      OverwritesIff(start, participant, entries[i], now, chosen[i], reports[i]);
    }
    assert r in RowsAt(end.rows, key);
  }
}
