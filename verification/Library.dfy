/** Ownership rows, manual confirmations and accounts, and what one ownership upsert does to them. */
module Library {
  import opened Options
  import opened Catalog

  /** Who owns what where; the database allows one ownership and one confirmation for each key. */
  datatype Key = Key(participant: nat, game: nat, platform: Platform)

  datatype Ownership = Ownership(
    key: Key, account: Option<nat>, playtime: int, ownedSince: Option<int>, source: Option<string>,
    firstSeen: Option<int>, baseline: bool, lastSeen: int)

  datatype Account = Account(
    participant: nat, platform: Platform, accountId: string, lastSync: Option<int>, lastError: Option<string>)

  datatype SyncRun = SyncRun(account: nat, success: bool, message: string, imported: nat)

  /**
    * `rows` are the ownerships as the session holds them, `stored` as queries see them until the next flush:
    * the session does not flush before a query.
    */
  datatype Library = Library(
    catalog: Catalog, rows: map<nat, Ownership>, stored: map<nat, Ownership>, nextRow: nat,
    accounts: map<nat, Account>, nextAccount: nat, confirmed: set<Key>, runs: seq<SyncRun>)

  /** What a provider reports about one owned game. */
  datatype ImportedGame = ImportedGame(
    info: Import, mappingPlatform: Option<Platform>, ownershipPlatform: Option<Platform>,
    playtime: int, ownedSince: Option<int>, source: string)

  datatype Priority = Authoritative | Fallback

  function FlushAll(l: Library): Library {
    l.(stored := l.rows, catalog := Flushed(l.catalog))
  }

  /* ---------- Table constraints ---------- */

  ghost predicate UniqueRows(rows: map<nat, Ownership>) {
    forall r, s :: r in rows && s in rows && rows[r].key == rows[s].key ==> r == s
  }

  /** Flushed rows are rows of the session, with the same key. */
  ghost predicate Views(l: Library) {
    forall r :: r in l.stored ==> r in l.rows && l.stored[r].key == l.rows[r].key
  }

  /** Rows refer to games and accounts that exist. */
  ghost predicate References(l: Library) {
    forall r :: r in l.rows ==>
      && r < l.nextRow && l.rows[r].key.game in l.catalog.games
      && (l.rows[r].account.Some? ==> l.rows[r].account.value in l.accounts)
  }

  ghost predicate AccountIds(l: Library) {
    forall a :: a in l.accounts ==> a < l.nextAccount
  }

  ghost predicate Tables(l: Library) {
    UniqueRows(l.rows) && Views(l) && References(l) && AccountIds(l)
  }

  function RowsAt(rows: map<nat, Ownership>, key: Key): set<nat> {
    set r | r in rows && rows[r].key == key
  }

  /* ---------- One upsert ---------- */

  datatype Upsert = Upsert(
    key: Key, account: nat, relink: bool, strong: bool, playtime: int, since: Option<int>, source: string,
    baseline: bool, now: int)

  /** Accounts that only stand for a launcher's own records. */
  predicate FallbackOwned(accountId: string) {
    "playnite:" <= accountId || "gog-galaxy:" <= accountId
  }

  function OwnershipPlatform(account: Account, imported: ImportedGame): Platform {
    if imported.ownershipPlatform.Some? then imported.ownershipPlatform.value else account.platform
  }

  function UpsertFor(a: nat, account: Account, g: nat, imported: ImportedGame, priority: Priority, baseline: bool,
      now: int)
      : Upsert
  {
    Upsert(Key(account.participant, g, OwnershipPlatform(account, imported)), a, imported.ownershipPlatform.Some?,
      priority == Authoritative || FallbackOwned(account.accountId), imported.playtime, imported.ownedSince,
      imported.source, baseline, now)
  }

  function Playtime(current: int, reported: int, strong: bool): int {
    if (strong || current <= 0) && (reported > 0 || current <= 0) then reported else current
  }

  predicate Sourced(u: Upsert) {
    u.since.Some? && u.source != ""
  }

  predicate TakesDate(row: Ownership, u: Upsert) {
    Sourced(u) && (row.source.None? || row.ownedSince.None? || u.since.value < row.ownedSince.value)
  }

  function Touched(row: Ownership, u: Upsert): Ownership {
    var played := row.(playtime := Playtime(row.playtime, u.playtime, u.strong), lastSeen := u.now);
    if TakesDate(row, u) then played.(ownedSince := u.since, source := Some(u.source)) else played
  }

  function Relinked(row: Ownership, u: Upsert): Ownership {
    if row.account.None? || u.relink then row.(account := Some(u.account)) else row
  }

  function NewRow(u: Upsert, firstSeen: Option<int>, baseline: bool): Ownership {
    Ownership(u.key, Some(u.account), 0, None, None, firstSeen, baseline, u.now)
  }

  /** The flushed rows of the same participant and game, on any platform. */
  function Siblings(stored: map<nat, Ownership>, key: Key): set<nat> {
    set r | r in stored && stored[r].key.participant == key.participant && stored[r].key.game == key.game
  }

  /** Ascending, missing values last. */
  predicate SeenBefore(a: Option<int>, b: Option<int>) {
    b.None? || (a.Some? && a.value <= b.value)
  }

  ghost predicate FirstOf(stored: map<nat, Ownership>, siblings: set<nat>, r: nat) {
    r in siblings && r in stored
    && forall s :: s in siblings && s in stored ==> SeenBefore(stored[r].firstSeen, stored[s].firstSeen)
  }

  /** A new row is first seen when its first flushed sibling was, or now. */
  ghost predicate MayBeSeen(stored: map<nat, Ownership>, u: Upsert, firstSeen: Option<int>, baseline: bool) {
    if Siblings(stored, u.key) == {} then firstSeen == Some(u.now) && baseline == u.baseline
    else exists r ::
      FirstOf(stored, Siblings(stored, u.key), r) && firstSeen == stored[r].firstSeen && baseline == stored[r].baseline
  }

  ghost predicate Creates(l: Library, u: Upsert, l': Library) {
    exists firstSeen, baseline :: MayBeSeen(l.stored, u, firstSeen, baseline)
      && l' == l.(rows := l.rows[l.nextRow := Touched(NewRow(u, firstSeen, baseline), u)], nextRow := l.nextRow + 1)
  }

  /** `l'` is the library after the upsert: the key's row is updated, or created if no view has one. */
  ghost predicate Upserts(l: Library, u: Upsert, l': Library) {
    if RowsAt(l.rows, u.key) == {} then Creates(l, u, l')
    else forall r :: r in RowsAt(l.rows, u.key) ==> l' == l.(rows := l.rows[r := Touched(Relinked(l.rows[r], u), u)])
  }

  /* ---------- Manual confirmations ---------- */

  /** Every confirmation has an ownership, and every ownership without an account has a confirmation. */
  ghost predicate ManualAgrees(l: Library) {
    && (forall key :: key in l.confirmed ==> RowsAt(l.rows, key) != {})
    && (forall r :: r in l.rows && l.rows[r].account.None? ==> l.rows[r].key in l.confirmed)
  }
}
