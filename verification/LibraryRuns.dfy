/**
  * Every run of syncs, imports, manual confirmations and account deletions keeps confirmations and ownerships in
  * step.
  */
module LibraryRuns {
  import opened Options
  import opened Orders
  import opened Catalog
  import opened Library
  import opened Imports

  /* ---------- Manual operations ---------- */

  /** The participant's accounts on the platform. */
  function AccountsFor(l: Library, participant: nat, platform: Platform): set<nat> {
    set a | a in l.accounts && l.accounts[a].participant == participant && l.accounts[a].platform == platform
  }

  predicate FromPlaynite(account: Account) {
    "playnite:" <= account.accountId
  }

  /** The account of a confirmed ownership: one of the participant's, if possible not a Playnite stand-in. */
  predicate MayHold(l: Library, key: Key, account: Option<nat>) {
    if AccountsFor(l, key.participant, key.platform) == {} then account.None?
    else
      && account.Some? && account.value in AccountsFor(l, key.participant, key.platform)
      && (FromPlaynite(l.accounts[account.value]) ==>
            forall a :: a in AccountsFor(l, key.participant, key.platform) ==> FromPlaynite(l.accounts[a]))
  }

  function Confirmed(l: Library, key: Key, account: Option<nat>, firstSeen: Option<int>, baseline: bool,
      now: int): Library {
    var row := Ownership(key, account, 0, None, None, firstSeen, baseline, now);
    FlushAll(l.(confirmed := l.confirmed + {key}, rows := l.rows[l.nextRow := row], nextRow := l.nextRow + 1))
  }

  ghost predicate MayConfirm(l: Library, key: Key, now: int, l': Library) {
    exists account, firstSeen, baseline ::
      && MayHold(l, key, account)
      && MayBeSeen(l.stored, Upsert(key, 0, false, false, 0, None, "", false, now), firstSeen, baseline)
      && l' == Confirmed(l, key, account, firstSeen, baseline, now)
  }

  /** Confirming an ownership by hand: a row is added unless there is one. */
  ghost predicate CreatesManual(l: Library, key: Key, now: int, l': Library) {
    if RowsAt(l.rows, key) == {} then MayConfirm(l, key, now, l') else l' == l.(confirmed := l.confirmed + {key})
  }

  /** The confirmation goes, and with it the row that only the confirmation vouches for. */
  function WithoutManual(l: Library, key: Key): Library {
    var gone := set r | r in l.rows && l.rows[r].key == key && l.rows[r].account.None?;
    FlushAll(l.(confirmed := l.confirmed - {key}, rows := l.rows - gone))
  }

  /** The account goes; its confirmed rows stay without an account, the others go with it. */
  function WithoutAccount(l: Library, a: nat): Library {
    var rows := map r | r in l.rows && (l.rows[r].account != Some(a) || l.rows[r].key in l.confirmed) ::
      if l.rows[r].account == Some(a) then l.rows[r].(account := None) else l.rows[r];
    FlushAll(l.(rows := rows, accounts := l.accounts - {a}, runs := Filter(l.runs, (run: SyncRun) => run.account != a)))
  }

  /* ---------- Runs ---------- */

  datatype Action =
    | Sync(account: nat, platforms: set<Platform>, keys: set<Key>, loop: Library, now: int, run: SyncRun)
    | SyncFailed(account: nat, message: string)
    | LauncherImport(keys: set<Key>, loop: Library)
    | AddAccount(added: Account)
    | CreateManual(key: Key, now: int)
    | DeleteManual(key: Key)
    | DeleteAccount(account: nat)

  ghost predicate Does(l: Library, action: Action, l': Library) {
    match action
    case Sync(a, platforms, keys, loop, now, run) =>
      && a in l.accounts && loop.accounts == l.accounts && Valid(loop) && Imported(l, loop, keys)
      && l' == Finished(loop, a, Deleted(loop, a, platforms, keys), now, run)
    case SyncFailed(a, message) => a in l.accounts && l' == Failed(l, a, message)
    case LauncherImport(keys, loop) => Valid(loop) && Imported(l, loop, keys) && l' == FlushAll(loop)
    case AddAccount(added) => l' == l.(accounts := l.accounts[l.nextAccount := added], nextAccount := l.nextAccount + 1)
    case CreateManual(key, now) => key.game in l.catalog.games && CreatesManual(l, key, now, l')
    case DeleteManual(key) => key in l.confirmed && l' == WithoutManual(l, key)
    case DeleteAccount(a) => a in l.accounts && l' == WithoutAccount(l, a)
  }

  /** What holds between requests. */
  ghost predicate Settled(l: Library) {
    Valid(l) && Clean(l) && ManualAgrees(l)
  }

  ghost predicate Acts(l: Library, actions: seq<Action>, after: seq<Library>)
    requires |after| == |actions|
    decreases |actions|
  {
    actions == [] || (Does(l, actions[0], after[0]) && Acts(after[0], actions[1..], after[1..]))
  }

  /** Every confirmation has an ownership and every account-less ownership a confirmation, after any run of requests. */
  lemma {:induction false} RunKeepsSettled(l: Library, actions: seq<Action>, after: seq<Library>)
    requires Settled(l) && |after| == |actions| && Acts(l, actions, after)
    ensures forall i :: 0 <= i < |after| ==> Settled(after[i])
    decreases |actions|
  {
    if actions != [] {
      ActionKeepsSettled(l, actions[0], after[0]);
      RunKeepsSettled(after[0], actions[1..], after[1..]);
    }
  }

  lemma ActionKeepsSettled(l: Library, action: Action, l': Library)
    requires Settled(l) && Does(l, action, l')
    ensures Settled(l')
  {
    match action
    case Sync(a, platforms, keys, loop, now, run) =>
      SyncKeepsSettled(l, loop, a, platforms, keys, now, run);
    case SyncFailed(a, message) =>
      FailKeepsSettled(l, a, message);
    case LauncherImport(keys, loop) =>
      ImportKeepsSettled(l, loop, keys);
    case AddAccount(added) =>
      AddAccountKeepsSettled(l, added);
    case CreateManual(key, now) =>
      CreateKeepsSettled(l, key, now, l');
    case DeleteManual(key) =>
      DeleteKeepsSettled(l, key);
    case DeleteAccount(a) =>
      DeleteAccountKeepsSettled(l, a);
  }

  lemma SyncKeepsSettled(l: Library, loop: Library, a: nat, platforms: set<Platform>, keys: set<Key>, now: int,
      run: SyncRun)
    requires Settled(l) && a in loop.accounts && Valid(loop) && Imported(l, loop, keys)
    ensures Settled(Finished(loop, a, Deleted(loop, a, platforms, keys), now, run))
  {
    var end := Finished(loop, a, Deleted(loop, a, platforms, keys), now, run);
    FinishedValid(loop, a, Deleted(loop, a, platforms, keys), now, run);
    SyncKeepsManual(l, loop, a, platforms, keys, end);
  }

  lemma FailKeepsSettled(l: Library, a: nat, message: string)
    requires Settled(l) && a in l.accounts
    ensures Settled(Failed(l, a, message))
  {
    FailedValid(l, a, message);
  }

  lemma ImportKeepsSettled(l: Library, loop: Library, keys: set<Key>)
    requires Settled(l) && Valid(loop) && Imported(l, loop, keys)
    ensures Settled(FlushAll(loop))
  {
    ImportKeepsManual(l, loop, keys);
  }

  lemma AddAccountKeepsSettled(l: Library, added: Account)
    requires Settled(l)
    ensures Settled(l.(accounts := l.accounts[l.nextAccount := added], nextAccount := l.nextAccount + 1))
  {
  }

  lemma ImportKeepsManual(start: Library, l: Library, keys: set<Key>)
    requires ManualAgrees(start) && Imported(start, l, keys)
    ensures ManualAgrees(l)
  {
    forall key | key in l.confirmed ensures RowsAt(l.rows, key) != {} {
      var r :| r in RowsAt(start.rows, key);
      assert r in RowsAt(l.rows, key);
    }
    forall r | r in l.rows && l.rows[r].account.None? ensures l.rows[r].key in l.confirmed {
      assert r in start.rows && start.rows[r].account.None?;
    }
  }

  lemma SyncKeepsManual(start: Library, l: Library, a: nat, platforms: set<Platform>, keys: set<Key>, end: Library)
    requires ManualAgrees(start) && Imported(start, l, keys) && Views(l) && a in l.accounts
    requires end.rows == l.rows - Deleted(l, a, platforms, keys) && end.confirmed == l.confirmed
    ensures ManualAgrees(end)
  {
    ImportKeepsManual(start, l, keys);
    forall key | key in end.confirmed ensures RowsAt(end.rows, key) != {} {
      var r :| r in RowsAt(l.rows, key);
      assert r in l.stored ==> l.stored[r].key == key;
      assert r in RowsAt(end.rows, key);
    }
  }

  lemma CreateKeepsSettled(l: Library, key: Key, now: int, l': Library)
    requires Settled(l) && key.game in l.catalog.games && CreatesManual(l, key, now, l')
    ensures Settled(l')
  {
    if RowsAt(l.rows, key) == {} {
      var account, firstSeen, baseline :| MayHold(l, key, account)
        && l' == Confirmed(l, key, account, firstSeen, baseline, now);
      NewRowKeepsTables(l, key, account, firstSeen, baseline, now);
      NewRowAgrees(l, key, l.nextRow, l'.rows[l.nextRow], l');
    }
  }

  lemma NewRowKeepsTables(l: Library, key: Key, account: Option<nat>, firstSeen: Option<int>, baseline: bool, now: int)
    requires Tables(l) && RowsAt(l.rows, key) == {} && key.game in l.catalog.games && MayHold(l, key, account)
    ensures Tables(Confirmed(l, key, account, firstSeen, baseline, now))
  {
    forall r | r in l.rows ensures l.rows[r].key != key { assert r !in RowsAt(l.rows, key); }
  }

  lemma NewRowAgrees(l: Library, key: Key, r: nat, row: Ownership, l': Library)
    requires ManualAgrees(l) && r !in l.rows && row.key == key
    requires l'.rows == l.rows[r := row] && l'.confirmed == l.confirmed + {key}
    ensures ManualAgrees(l')
  {
    assert r in RowsAt(l'.rows, key);
    forall other | other in l.confirmed ensures RowsAt(l'.rows, other) != {} {
      var s :| s in RowsAt(l.rows, other);
      assert s in RowsAt(l'.rows, other);
    }
  }

  lemma DeleteKeepsSettled(l: Library, key: Key)
    requires Settled(l) && key in l.confirmed
    ensures Settled(WithoutManual(l, key))
  {
    var l' := WithoutManual(l, key);
    forall other | other in l'.confirmed ensures RowsAt(l'.rows, other) != {} {
      var r :| r in RowsAt(l.rows, other);
      assert r in RowsAt(l'.rows, other);
    }
  }

  lemma DeleteAccountKeepsSettled(l: Library, a: nat)
    requires Settled(l) && a in l.accounts
    ensures Settled(WithoutAccount(l, a))
  {
    WithoutAccountAgrees(l, a, WithoutAccount(l, a).rows);
    WithoutAccountValid(l, a);
  }

  lemma WithoutAccountValid(l: Library, a: nat)
    requires Valid(l) && a in l.accounts
    ensures Valid(WithoutAccount(l, a))
  {
  }

  lemma WithoutAccountAgrees(l: Library, a: nat, rows: map<nat, Ownership>)
    requires ManualAgrees(l) && rows == WithoutAccount(l, a).rows
    ensures forall key :: key in l.confirmed ==> RowsAt(rows, key) != {}
    ensures forall r :: r in rows && rows[r].account.None? ==> rows[r].key in l.confirmed
  {
    forall key | key in l.confirmed ensures RowsAt(rows, key) != {} {
      var r :| r in RowsAt(l.rows, key);
      assert r in RowsAt(rows, key);
    }
  }
}
