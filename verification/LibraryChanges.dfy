/** What single requests change, row by row, and what they leave alone. */
module LibraryChanges {
  import opened Options
  import opened Orders
  import opened Catalog
  import opened Library
  import opened Imports
  import opened ImportRuns
  import opened LibraryRuns

  /** The tables a request does not touch. */
  predicate SameCatalog(l: Library, l': Library) {
    l'.catalog == l.catalog && l'.nextAccount == l.nextAccount
  }

  /** A failed sync leaves a failed run and the account's error, and nothing else. */
  lemma FailureChanges(l: Library, a: nat, message: string, l': Library)
    requires Does(l, SyncFailed(a, message), l')
    ensures a in l.accounts && l'.accounts.Keys == l.accounts.Keys
    ensures forall b :: b in l.accounts && b != a ==> l'.accounts[b] == l.accounts[b]
    ensures var account, failed := l.accounts[a], l'.accounts[a];
      && failed.lastError == Some(message) && failed.lastSync == account.lastSync
      && failed.accountId == account.accountId && failed.participant == account.participant
      && failed.platform == account.platform
    ensures l'.runs == l.runs + [SyncRun(a, false, message, 0)]
    ensures l'.rows == l.rows && l'.stored == l.stored && l'.confirmed == l.confirmed && SameCatalog(l, l')
  {
  }

  /**
    * Deleting an account: the other accounts stay, its rows go unless they are confirmed, and those lose the account;
    * the runs of other accounts stay, in order.
    */
  lemma AccountDeletionChanges(l: Library, a: nat, l': Library) returns (kept: seq<nat>)
    requires Clean(l) && Does(l, DeleteAccount(a), l')
    ensures l'.accounts == map b | b in l.accounts && b != a :: l.accounts[b]
    ensures forall r :: r in l'.rows <==> r in l.rows && (l.rows[r].account == Some(a) ==> l.rows[r].key in l.confirmed)
    ensures forall r :: r in l'.rows && l.rows[r].account != Some(a) ==> l'.rows[r] == l.rows[r]
    ensures forall r :: r in l'.rows && l.rows[r].account == Some(a) ==> l'.rows[r] == l.rows[r].(account := None)
    ensures Picks(l'.runs, l.runs, kept) && forall i, j :: 0 <= i < j < |kept| ==> kept[i] < kept[j]
    ensures forall run :: run in l'.runs <==> run in l.runs && run.account != a
    ensures l'.confirmed == l.confirmed && SameCatalog(l, l')
  {
    var others := (run: SyncRun) => run.account != a;
    kept := FilterPicks(l.runs, others);
    forall run ensures run in Filter(l.runs, others) <==> run in l.runs && run.account != a {
      FilterIn(l.runs, others, run);
    }
  }

  predicate HasAccount(l: Library, key: Key, a: nat) {
    a in l.accounts && l.accounts[a].participant == key.participant && l.accounts[a].platform == key.platform
  }

  /** None exactly without an account on the platform; a Playnite stand-in only if there is nothing else. */
  ghost predicate HeldBy(l: Library, key: Key, account: Option<nat>) {
    && (account.None? <==> forall a :: !HasAccount(l, key, a))
    && (account.Some? ==>
          && HasAccount(l, key, account.value)
          && (StartsWith(l.accounts[account.value].accountId, "playnite:") ==>
                forall a :: HasAccount(l, key, a) ==> StartsWith(l.accounts[a].accountId, "playnite:")))
  }

  /** Confirming by hand: with a row at the key no row changes, without one there is an unplayed one. */
  lemma ConfirmationChanges(l: Library, key: Key, now: int, l': Library) returns (r: nat)
    requires Settled(l) && Does(l, CreateManual(key, now), l')
    ensures l'.confirmed == l.confirmed + {key} && l'.accounts == l.accounts && l'.runs == l.runs && SameCatalog(l, l')
    ensures r in l'.rows && l'.rows[r].key == key && l'.rows.Keys == l.rows.Keys + {r}
    ensures forall s :: s in l.rows ==> l'.rows[s] == l.rows[s]
    ensures r in l.rows <==> exists s :: s in l.rows && l.rows[s].key == key
    ensures r !in l.rows ==>
      && HeldBy(l, key, l'.rows[r].account) && Discovered(l.rows, key, now, false, l'.rows[r])
      && l'.rows[r].playtime == 0 && l'.rows[r].ownedSince.None? && l'.rows[r].source.None?
      && l'.rows[r].lastSeen == now
  {
    hide Consistent, ManualAgrees, Discovered, MayConfirm;
    if RowsAt(l.rows, key) == {} {
      r := l.nextRow;
      NewConfirmation(l, key, now, l');
    } else {
      r :| r in RowsAt(l.rows, key);
    }
  }

  lemma NewConfirmation(l: Library, key: Key, now: int, l': Library)
    requires Tables(l) && Clean(l) && MayConfirm(l, key, now, l')
    ensures l.nextRow in l'.rows && l'.rows == l.rows[l.nextRow := l'.rows[l.nextRow]] && l.nextRow !in l.rows
    ensures var row := l'.rows[l.nextRow];
      && row.key == key && HeldBy(l, key, row.account) && Discovered(l.rows, key, now, false, row)
      && row.playtime == 0 && row.ownedSince.None? && row.source.None? && row.lastSeen == now
    ensures l'.confirmed == l.confirmed + {key} && l'.accounts == l.accounts && l'.runs == l.runs && SameCatalog(l, l')
  {
    hide Discovered, MayBeSeen, MayHold;
    var u := Upsert(key, 0, false, false, 0, None, "", false, now);
    var account, firstSeen, baseline :| MayHold(l, key, account) && MayBeSeen(l.stored, u, firstSeen, baseline)
      && l' == Confirmed(l, key, account, firstSeen, baseline, now);
    SeenFirst(l.stored, u, l'.rows[l.nextRow]);
    HolderIsRight(l, key, account);
  }

  lemma HolderIsRight(l: Library, key: Key, account: Option<nat>)
    requires MayHold(l, key, account)
    ensures HeldBy(l, key, account)
  {
    forall a: nat ensures a in AccountsFor(l, key.participant, key.platform) <==> HasAccount(l, key, a) { }
  }

  /** Withdrawing a confirmation: its row goes exactly if no account vouches for it, and no other row changes. */
  lemma WithdrawalChanges(l: Library, key: Key, l': Library)
    requires Clean(l) && Does(l, DeleteManual(key), l')
    ensures l'.confirmed == l.confirmed - {key} && l'.accounts == l.accounts && l'.runs == l.runs && SameCatalog(l, l')
    ensures forall r :: r in l'.rows <==> r in l.rows && !(l.rows[r].key == key && l.rows[r].account.None?)
    ensures forall r :: r in l'.rows ==> l'.rows[r] == l.rows[r]
  {
  }
}
