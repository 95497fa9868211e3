/** What runs of imports make of the rows, by the priority of each import and the kind of its account. */
module ImportRuns {
  import opened Options
  import opened Titles
  import opened Catalog
  import opened CatalogProofs
  import opened Library
  import opened OwnershipRuns
  import opened Imports

  /** One game reported for an account, and the key it was resolved to. */
  datatype Report = Report(
    key: Key, account: nat, accountId: string, imported: ImportedGame, priority: Priority, baseline: bool, now: int)

  ghost predicate Reports(score: Score, l: Library, e: Report, l': Library) {
    && Valid(l) && e.account in l.accounts
    && l.accounts[e.account].accountId == e.accountId && l.accounts[e.account].participant == e.key.participant
    && e.key.platform == (if e.imported.ownershipPlatform.Some? then e.imported.ownershipPlatform.value
                          else l.accounts[e.account].platform)
    && ImportsOne(score, l, e.account, e.imported, e.priority, e.baseline, e.now, e.key.game, l')
  }

  /** What happens between two imports: flushes, accounts and mappings, but nothing to the session's rows. */
  ghost predicate Quiet(l: Library, l': Library) {
    l'.rows == l.rows && l'.stored in {l.stored, l.rows}
  }

  ghost predicate ImportRun(score: Score, l: Library, reports: seq<Report>, l': Library)
    decreases |reports|
  {
    if reports == [] then Quiet(l, l')
    else
      var earlier, e := reports[..|reports| - 1], reports[|reports| - 1];
      exists before, after ::
        ImportRun(score, l, earlier, before) && Reports(score, before, e, after) && Quiet(after, l')
  }

  lemma RunGrows(score: Score, l: Library, reports: seq<Report>, before: Library, e: Report, after: Library,
      l': Library)
    requires ImportRun(score, l, reports, before) && Reports(score, before, e, after) && Quiet(after, l')
    ensures ImportRun(score, l, reports + [e], l')
  {
    hide Reports;
    var more := reports + [e];
    assert more[..|more| - 1] == reports && more[|more| - 1] == e;
  }

  lemma RunThenQuiet(score: Score, l: Library, reports: seq<Report>, between: Library, l': Library)
    requires ImportRun(score, l, reports, between) && Quiet(between, l')
    ensures ImportRun(score, l, reports, l')
  {
    hide Reports;
    if reports != [] {
      var earlier, e := reports[..|reports| - 1], reports[|reports| - 1];
      var before, after :|
        ImportRun(score, l, earlier, before) && Reports(score, before, e, after) && Quiet(after, between);
      assert Quiet(after, l');
    }
  }

  /* ---------- One import ---------- */

  predicate StartsWith(text: string, prefix: string) {
    |prefix| <= |text| && text[..|prefix|] == prefix
  }

  /** A direct synchronization overwrites playtimes, and so does what fills an account that stands for a launcher. */
  predicate MayOverwrite(e: Report) {
    e.priority.Authoritative? || StartsWith(e.accountId, "playnite:") || StartsWith(e.accountId, "gog-galaxy:")
  }

  /** A sourced date replaces one that is missing, has no source or is later. */
  function OwnedSince(was: Option<Ownership>, since: Option<int>, source: string): (Option<int>, Option<string>) {
    var known := if was.Some? then was.value.ownedSince else None;
    var origin := if was.Some? then was.value.source else None;
    if since.Some? && source != "" && !(known.Some? && origin.Some? && known.value <= since.value)
    then (since, Some(source)) else (known, origin)
  }

  /** The row before an import, if any, and after it. */
  ghost predicate Updates(was: Option<Ownership>, e: Report, row: Ownership) {
    var before := if was.Some? then was.value.playtime else 0;
    && row.key == e.key && row.lastSeen == e.now
    && (MayOverwrite(e) && e.imported.playtime > 0 ==> row.playtime == e.imported.playtime)
    && (before > 0 && !(MayOverwrite(e) && e.imported.playtime > 0) ==> row.playtime == before)
    && (before <= 0 ==> row.playtime == e.imported.playtime)
    && (if was.Some? && was.value.account.Some? && e.imported.ownershipPlatform.None?
        then row.account == was.value.account else row.account == Some(e.account))
    && (was.Some? ==> row.firstSeen == was.value.firstSeen && row.baseline == was.value.baseline)
    && (row.ownedSince, row.source) == OwnedSince(was, e.imported.ownedSince, e.imported.source)
  }

  /** A new row was first seen when the first flushed row of the same participant and game was, or now. */
  ghost predicate Discovered(stored: map<nat, Ownership>, key: Key, now: int, baseline: bool, row: Ownership) {
    if exists s :: s in stored && SameGame(stored[s].key, key) then exists s :: FoundBy(stored, key, s, row)
    else row.firstSeen == Some(now) && row.baseline == baseline
  }

  /** The row of the same participant and game that was seen first, missing times last. */
  ghost predicate FoundBy(stored: map<nat, Ownership>, key: Key, s: nat, row: Ownership) {
    && s in stored && SameGame(stored[s].key, key)
    && row.firstSeen == stored[s].firstSeen && row.baseline == stored[s].baseline
    && forall t :: t in stored && SameGame(stored[t].key, key) && stored[t].firstSeen.Some? ==>
         row.firstSeen.Some? && row.firstSeen.value <= stored[t].firstSeen.value
  }

  predicate SameGame(a: Key, b: Key) {
    a.participant == b.participant && a.game == b.game
  }

  lemma UpdatedRow(was: Option<Ownership>, base: Ownership, e: Report, account: Account, u: Upsert)
    requires account.accountId == e.accountId
    requires u == UpsertFor(e.account, account, e.key.game, e.imported, e.priority, e.baseline, e.now)
    requires base.key == e.key && (was.None? ==> base.playtime == 0 && base.account == Some(e.account))
    requires base == if was.Some? then was.value else base.(ownedSince := None, source := None)
    ensures Updates(was, e, Touched(Relinked(base, u), u))
  {
  }

  lemma SeenFirst(stored: map<nat, Ownership>, u: Upsert, row: Ownership)
    requires MayBeSeen(stored, u, row.firstSeen, row.baseline)
    ensures Discovered(stored, u.key, u.now, u.baseline, row)
  {
    var siblings := Siblings(stored, u.key);
    if s :| s in stored && SameGame(stored[s].key, u.key) {
      assert s in siblings;
      var r :| FirstOf(stored, siblings, r) && row.firstSeen == stored[r].firstSeen
        && row.baseline == stored[r].baseline;
      forall t | t in stored && SameGame(stored[t].key, u.key) && stored[t].firstSeen.Some?
        ensures row.firstSeen.Some? && row.firstSeen.value <= stored[t].firstSeen.value
      {
        assert t in siblings;
      }
      assert FoundBy(stored, u.key, r, row);
    }
  }

  lemma CreatedRow(l: Library, u: Upsert, l': Library)
    requires Creates(l, u, l')
    ensures l.nextRow in l'.rows && Discovered(l.stored, u.key, u.now, u.baseline, l'.rows[l.nextRow])
  {
    hide Discovered, MayBeSeen;
    var seen, baseline :| MayBeSeen(l.stored, u, seen, baseline)
      && l' == l.(rows := l.rows[l.nextRow := Touched(NewRow(u, seen, baseline), u)], nextRow := l.nextRow + 1);
    SeenFirst(l.stored, u, l'.rows[l.nextRow]);
  }

  /** What the upsert of a report does. */
  lemma UpsertedRow(l: Library, e: Report, account: Account, u: Upsert, l': Library) returns (r: nat)
    requires Tables(l) && Refers(l, u) && Upserts(l, u, l') && account.accountId == e.accountId && u.key == e.key
    requires u == UpsertFor(e.account, account, e.key.game, e.imported, e.priority, e.baseline, e.now)
    ensures Tables(l') && r in l'.rows && l'.rows.Keys == l.rows.Keys + {r} && l'.stored == l.stored
    ensures r in l.rows ==> Updates(Some(l.rows[r]), e, l'.rows[r])
    ensures r !in l.rows ==> Updates(None, e, l'.rows[r]) && Discovered(l'.stored, e.key, e.now, e.baseline, l'.rows[r])
    ensures RowsAt(l.rows, e.key) == if r in l.rows then {r} else {}
    ensures RowsAt(l'.rows, e.key) == {r}
    ensures forall s :: s in l.rows && s != r ==> l'.rows[s] == l.rows[s]
  {
    hide Updates, Discovered, Touched, Relinked, MayBeSeen, UpsertFor, Tables;
    r := UpsertKeepsTables(l, u, l');
    OldRows(l, e.key, r, l');
    if r in l.rows {
      assert UpsertFor(e.account, account, e.key.game, e.imported, e.priority, e.baseline, e.now).key == e.key;
      UpdatedRow(Some(l.rows[r]), l.rows[r], e, account, u);
    } else {
      var seen, baseline :| l'.rows[r] == Touched(NewRow(u, seen, baseline), u);
      NewRowIsNew(e, account, u, seen, baseline);
      assert r == l.nextRow;
      CreatedRow(l, u, l');
    }
  }

  lemma NewRowIsNew(e: Report, account: Account, u: Upsert, seen: Option<int>, baseline: bool)
    requires account.accountId == e.accountId && u.key == e.key
    requires u == UpsertFor(e.account, account, e.key.game, e.imported, e.priority, e.baseline, e.now)
    ensures Updates(None, e, Touched(NewRow(u, seen, baseline), u))
    ensures u.now == e.now && u.baseline == e.baseline
  {
    UpdatedRow(None, NewRow(u, seen, baseline), e, account, u);
  }

  lemma OldRows(l: Library, key: Key, r: nat, l': Library)
    requires RowsAt(l'.rows, key) == {r} && l'.rows.Keys == l.rows.Keys + {r}
    requires forall s :: s in l.rows && s != r ==> l'.rows[s] == l.rows[s]
    requires r in l.rows ==> l.rows[r].key == key
    ensures RowsAt(l.rows, key) == if r in l.rows then {r} else {}
  {
    forall s | s in RowsAt(l.rows, key) ensures s == r { assert s != r ==> s in RowsAt(l'.rows, key); }
  }

  /** The key's row after an import, and where the others are. */
  lemma ImportedRow(score: Score, l: Library, e: Report, l': Library) returns (r: nat)
    requires Reports(score, l, e, l')
    ensures r in l'.rows && l'.rows.Keys == l.rows.Keys + {r}
    ensures r in l.rows ==> Updates(Some(l.rows[r]), e, l'.rows[r])
    ensures r !in l.rows ==> Updates(None, e, l'.rows[r]) && Discovered(l'.stored, e.key, e.now, e.baseline, l'.rows[r])
    ensures RowsAt(l.rows, e.key) == if r in l.rows then {r} else {}
    ensures RowsAt(l'.rows, e.key) == {r}
    ensures forall s :: s in l.rows && s != r ==> l'.rows[s] == l.rows[s]
    ensures l'.stored in {l.stored, l.rows}
  {
    hide Resolves, Updates, Discovered, Touched, Relinked, MayBeSeen, Tables, Consistent, Upserts;
    var account := l.accounts[e.account];
    var platform := MappingPlatform(account, e.imported);
    var u := UpsertFor(e.account, account, e.key.game, e.imported, e.priority, e.baseline, e.now);
    var resolved :| ResolvesTo(score, l, platform, e.imported.info, e.key.game, resolved) && Refers(resolved, u)
      && Upserts(resolved, u, l');
    ResolveKeepsValid(score, l, platform, e.imported.info, e.key.game, resolved);
    r := UpsertedRow(resolved, e, account, u, l');
  }

  /** The reported id is mapped to the row's game, on the platform the report names or the account's. */
  lemma ImportedMapping(score: Score, l: Library, e: Report, l': Library) returns (m: nat)
    requires Reports(score, l, e, l')
    ensures m in l'.catalog.mappings && l'.catalog.mappings[m].game == e.key.game
    ensures l'.catalog.mappings[m].extId == e.imported.info.extId
    ensures l'.catalog.mappings[m].platform
         == if e.imported.mappingPlatform.Some? then e.imported.mappingPlatform.value
            else l.accounts[e.account].platform
  {
    hide Resolves, Upserts, MustMove;
    var account := l.accounts[e.account];
    var platform := MappingPlatform(account, e.imported);
    var u := UpsertFor(e.account, account, e.key.game, e.imported, e.priority, e.baseline, e.now);
    var resolved :| ResolvesTo(score, l, platform, e.imported.info, e.key.game, resolved) && Refers(resolved, u)
      && Upserts(resolved, u, l');
    m := ResolveIsRight(score, l.catalog, platform, e.imported.info, e.key.game, resolved.catalog);
    ResolveKeepsValid(score, l, platform, e.imported.info, e.key.game, resolved);
    var r := UpsertKeepsTables(resolved, u, l');
    assert m in MappingIds(resolved.catalog, platform, e.imported.info.extId);
  }

  /* ---------- Runs ---------- */

  /** A report for the key that tells a playtime and may overwrite one. */
  predicate Overwrites(reports: seq<Report>, key: Key, i: int) {
    && 0 <= i < |reports| && reports[i].key == key
    && reports[i].imported.playtime > 0 && MayOverwrite(reports[i])
  }

  predicate Tells(reports: seq<Report>, key: Key, i: int) {
    0 <= i < |reports| && reports[i].key == key && reports[i].imported.playtime > 0
  }

  /** The last overwriting report decides, else the playtime there was, else the first positive one told. */
  ghost predicate Outcome(initial: int, reports: seq<Report>, key: Key, playtime: int) {
    && (forall i :: Overwrites(reports, key, i) && (forall j :: i < j ==> !Overwrites(reports, key, j)) ==>
          playtime == reports[i].imported.playtime)
    && ((forall i :: !Overwrites(reports, key, i)) ==>
          && (initial > 0 ==> playtime == initial)
          && (initial <= 0 ==>
                && (forall i :: Tells(reports, key, i) && (forall j :: j < i ==> !Tells(reports, key, j)) ==>
                      playtime == reports[i].imported.playtime)
                && ((forall i :: !Tells(reports, key, i)) ==> playtime <= 0)))
  }

  lemma LastOverwrite(reports: seq<Report>, key: Key) returns (i: int)
    ensures i == -1 || Overwrites(reports, key, i)
    ensures forall j :: i < j ==> !Overwrites(reports, key, j)
  {
    hide MayOverwrite;
    i := |reports| - 1;
    while i >= 0 && !Overwrites(reports, key, i)
      invariant -1 <= i < |reports| && forall j :: i < j ==> !Overwrites(reports, key, j)
    {
      i := i - 1;
    }
  }

  lemma FirstTold(reports: seq<Report>, key: Key) returns (i: int)
    ensures i == |reports| || Tells(reports, key, i)
    ensures forall j :: j < i ==> !Tells(reports, key, j)
  {
    i := 0;
    while i < |reports| && !Tells(reports, key, i)
      invariant 0 <= i <= |reports| && forall j :: j < i ==> !Tells(reports, key, j)
    {
      i := i + 1;
    }
  }

  /** A playtime is positive exactly when there was one or some report told one. */
  lemma OutcomePositive(initial: int, reports: seq<Report>, key: Key, playtime: int)
    requires Outcome(initial, reports, key, playtime)
    ensures playtime > 0 <==> initial > 0 || exists i :: Tells(reports, key, i)
  {
    hide MayOverwrite;
    var last := LastOverwrite(reports, key);
    var first := FirstTold(reports, key);
    assert last >= 0 ==> Tells(reports, key, last);
  }

  lemma OutcomeStep(initial: int, earlier: seq<Report>, e: Report, key: Key, prior: int, playtime: int)
    requires Outcome(initial, earlier, key, prior)
    requires if e.key != key then playtime == prior
      else
        && (MayOverwrite(e) && e.imported.playtime > 0 ==> playtime == e.imported.playtime)
        && (prior > 0 && !(MayOverwrite(e) && e.imported.playtime > 0) ==> playtime == prior)
        && (prior <= 0 ==> playtime == e.imported.playtime)
    ensures Outcome(initial, earlier + [e], key, playtime)
  {
    hide MayOverwrite;
    var more, n := earlier + [e], |earlier|;
    assert Overwrites(more, key, n) <==> e.key == key && e.imported.playtime > 0 && MayOverwrite(e);
    assert forall i :: i != n ==> (Overwrites(more, key, i) <==> Overwrites(earlier, key, i));
    assert forall i :: i != n ==> (Tells(more, key, i) <==> Tells(earlier, key, i));
    assert Tells(more, key, n) <==> e.key == key && e.imported.playtime > 0;
    OutcomePositive(initial, earlier, key, prior);
  }

  function PlaytimeOf(rows: map<nat, Ownership>, r: nat): int {
    if r in rows then rows[r].playtime else 0
  }

  /** The rows of a key after a run: the one there was, or a new one if anything was reported. */
  ghost predicate Tracks(start: map<nat, Ownership>, reports: seq<Report>, key: Key, rows: map<nat, Ownership>) {
    && start.Keys <= rows.Keys && RowsAt(start, key) <= RowsAt(rows, key)
    && (RowsAt(rows, key) == {} <==>
          RowsAt(start, key) == {} && forall i :: 0 <= i < |reports| ==> reports[i].key != key)
    && forall r :: r in RowsAt(rows, key) ==>
         && (r in RowsAt(start, key) <==> RowsAt(start, key) != {}) && (r in start ==> start[r].key == key)
         && Outcome(PlaytimeOf(start, r), reports, key, rows[r].playtime)
  }

  lemma TracksStep(score: Score, start: map<nat, Ownership>, earlier: seq<Report>, key: Key, l: Library, e: Report,
      l': Library)
    requires Tracks(start, earlier, key, l.rows) && Reports(score, l, e, l')
    ensures Tracks(start, earlier + [e], key, l'.rows)
  {
    hide Reports, Discovered, OwnedSince, Outcome;
    var r := ImportedRow(score, l, e, l');
    var more := earlier + [e];
    assert more[|earlier|] == e && forall i :: 0 <= i < |earlier| ==> more[i] == earlier[i];
    assert RowsAt(l'.rows, key) == if e.key == key then {r} else RowsAt(l.rows, key) by {
      assert r in RowsAt(l'.rows, e.key);
    }
    forall s | s in RowsAt(l'.rows, key)
      ensures Outcome(PlaytimeOf(start, s), more, key, l'.rows[s].playtime)
    {
      var prior := if s in l.rows then l.rows[s].playtime else 0;
      if s !in l.rows { NothingYet(earlier, key); }
      OutcomeStep(PlaytimeOf(start, s), earlier, e, key, prior, l'.rows[s].playtime);
    }
  }

  lemma NothingYet(reports: seq<Report>, key: Key)
    requires forall i :: 0 <= i < |reports| ==> reports[i].key != key
    ensures Outcome(0, reports, key, 0)
  {
  }

  /**
    * Any run of imports: a playtime is the last positive one that a direct synchronization, or anything on an account
    * that stands for a launcher, reported for the key; else the positive one there was; else the first positive one.
    */
  lemma {:induction false} RunPlaytimes(score: Score, l: Library, reports: seq<Report>, l': Library, key: Key)
    requires ImportRun(score, l, reports, l')
    ensures Tracks(l.rows, reports, key, l'.rows)
    decreases |reports|
  {
    hide Reports, Outcome;
    if reports == [] {
      forall r | r in RowsAt(l.rows, key) ensures Outcome(PlaytimeOf(l.rows, r), [], key, l.rows[r].playtime) {
        NothingTold(PlaytimeOf(l.rows, r), key);
      }
    } else {
      var earlier, e := reports[..|reports| - 1], reports[|reports| - 1];
      var before, after :|
        ImportRun(score, l, earlier, before) && Reports(score, before, e, after) && Quiet(after, l');
      RunPlaytimes(score, l, earlier, before, key);
      TracksStep(score, l.rows, earlier, key, before, e, after);
      assert reports == earlier + [e];
    }
  }

  lemma NothingTold(playtime: int, key: Key)
    ensures Outcome(playtime, [], key, playtime)
  {
  }

  /* ---------- Discoveries ---------- */

  /** Two versions of a row agree on its key and on when it was first seen. */
  predicate SameDiscovery(a: Ownership, b: Ownership) {
    a.key == b.key && a.firstSeen == b.firstSeen && a.baseline == b.baseline
  }

  /** No import changes when a row was first seen, and each new one was discovered from the rows there were. */
  ghost predicate Discoveries(start: map<nat, Ownership>, l: Library, now: int, baseline: bool) {
    && (forall r :: r in start ==> r in l.stored && r in l.rows && SameDiscovery(l.rows[r], start[r]))
    && (forall r :: r in l.stored ==> r in l.rows && SameDiscovery(l.stored[r], l.rows[r]))
    && (forall r :: r in l.rows && r !in start ==> Discovered(start, l.rows[r].key, now, baseline, l.rows[r]))
  }

  lemma SameSibling(start: map<nat, Ownership>, sibling: Ownership, key: Key, now: int, baseline: bool, row: Ownership)
    requires Discovered(start, sibling.key, now, baseline, sibling) && SameGame(sibling.key, key)
    requires row.firstSeen == sibling.firstSeen && row.baseline == sibling.baseline
    ensures Discovered(start, key, now, baseline, row)
  {
    if s :| FoundBy(start, sibling.key, s, sibling) { assert FoundBy(start, key, s, row); }
  }

  lemma DiscoveredFromStart(start: map<nat, Ownership>, l: Library, stored: map<nat, Ownership>, key: Key, now: int,
      baseline: bool, row: Ownership)
    requires Discoveries(start, l, now, baseline) && stored in {l.stored, l.rows}
    requires Discovered(stored, key, now, baseline, row)
    ensures Discovered(start, key, now, baseline, row)
  {
    forall r | r in start ensures r in stored && SameDiscovery(stored[r], start[r]) { }
    if s :| s in stored && SameGame(stored[s].key, key) {
      var first :| FoundBy(stored, key, first, row);
      if first in start {
        assert FoundBy(start, key, first, row);
      } else {
        SameSibling(start, l.rows[first], key, now, baseline, row);
      }
    }
  }

  lemma DiscoveryStep(score: Score, start: map<nat, Ownership>, l: Library, e: Report, l': Library)
    requires Discoveries(start, l, e.now, e.baseline) && Reports(score, l, e, l')
    ensures Discoveries(start, l', e.now, e.baseline)
  {
    hide Reports, OwnedSince, Discovered;
    var r := ImportedRow(score, l, e, l');
    if r !in l.rows { DiscoveredFromStart(start, l, l'.stored, e.key, e.now, e.baseline, l'.rows[r]); }
    SameRowsDiscover(start, l, e, r, l');
  }

  lemma SameRowsDiscover(start: map<nat, Ownership>, l: Library, e: Report, r: nat, l': Library)
    requires Discoveries(start, l, e.now, e.baseline) && l'.stored in {l.stored, l.rows}
    requires r in l'.rows && l'.rows.Keys == l.rows.Keys + {r}
    requires forall s :: s in l.rows && s != r ==> l'.rows[s] == l.rows[s]
    requires r in l.rows ==> SameDiscovery(l'.rows[r], l.rows[r])
    requires r !in l.rows ==> Discovered(start, l'.rows[r].key, e.now, e.baseline, l'.rows[r])
    ensures Discoveries(start, l', e.now, e.baseline)
  {
    hide Discovered;
    forall s | s in l'.rows && s !in start
      ensures Discovered(start, l'.rows[s].key, e.now, e.baseline, l'.rows[s])
    {
      if s in l.rows { SameSibling(start, l.rows[s], l'.rows[s].key, e.now, e.baseline, l'.rows[s]); }
    }
  }

  /**
    * Over any run: rows keep the time at which they were first seen, and a new row was first seen when the first row of
    * its participant and game before the run was, on whatever platform, or else now.
    */
  lemma {:induction false} RunDiscovers(score: Score, l: Library, reports: seq<Report>, l': Library, now: int,
      baseline: bool)
    requires Clean(l) && ImportRun(score, l, reports, l')
    requires forall i :: 0 <= i < |reports| ==> reports[i].now == now && reports[i].baseline == baseline
    ensures Discoveries(l.rows, l', now, baseline)
    decreases |reports|
  {
    hide Reports, Discovered;
    if reports != [] {
      var earlier, e := reports[..|reports| - 1], reports[|reports| - 1];
      var before, after :|
        ImportRun(score, l, earlier, before) && Reports(score, before, e, after) && Quiet(after, l');
      RunDiscovers(score, l, earlier, before, now, baseline);
      DiscoveryStep(score, l.rows, before, e, after);
    }
  }

  /* ---------- Batches ---------- */

  /** The reports of the first games of a batch. */
  function BatchReports(a: nat, account: Account, games: seq<ImportedGame>, chosen: seq<nat>, priority: Priority,
      baseline: bool, now: int): (reports: seq<Report>)
    requires |chosen| <= |games|
    ensures |reports| == |chosen|
  {
    seq(|chosen|, i requires 0 <= i < |chosen| =>
      Report(Key(account.participant, chosen[i], OwnershipPlatform(account, games[i])), a, account.accountId, games[i],
        priority, baseline, now))
  }

  lemma BatchRunGrows(score: Score, l: Library, a: nat, account: Account, games: seq<ImportedGame>, chosen: seq<nat>,
      priority: Priority, baseline: bool, now: int, before: Library, g: nat, after: Library)
    requires |chosen| < |games| && Valid(before) && a in before.accounts && account == before.accounts[a]
    requires ImportRun(score, l, BatchReports(a, account, games, chosen, priority, baseline, now), before)
    requires ImportsOne(score, before, a, games[|chosen|], priority, baseline, now, g, after)
    ensures ImportRun(score, l, BatchReports(a, account, games, chosen + [g], priority, baseline, now), after)
  {
    hide ImportRun, ImportsOne, Valid;
    var i := |chosen|;
    var key := Key(account.participant, g, OwnershipPlatform(account, games[i]));
    var e := Report(key, a, account.accountId, games[i], priority, baseline, now);
    var earlier := BatchReports(a, account, games, chosen, priority, baseline, now);
    RunGrows(score, l, earlier, before, e, after, after);
    assert BatchReports(a, account, games, chosen + [g], priority, baseline, now) == earlier + [e];
  }
}
