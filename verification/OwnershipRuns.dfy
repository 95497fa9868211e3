/** What any sequence of ownership upserts and flushes leads to. */
module OwnershipRuns {
  import opened Options
  import opened Library

  datatype Step = Put(u: Upsert) | Flush

  ghost predicate Next(l: Library, step: Step, l': Library) {
    match step
    case Put(u) => Refers(l, u) && Upserts(l, u, l')
    case Flush => l' == FlushAll(l)
  }

  /** The upsert is for a game and an account that exist. */
  predicate Refers(l: Library, u: Upsert) {
    u.key.game in l.catalog.games && u.account in l.accounts
  }

  ghost predicate Run(l: Library, steps: seq<Step>, after: seq<Library>)
    requires |after| == |steps|
    decreases |steps|
  {
    steps == [] || (Next(l, steps[0], after[0]) && Run(after[0], steps[1..], after[1..]))
  }

  function Last(l: Library, after: seq<Library>): Library {
    if after == [] then l else after[|after| - 1]
  }

  /* ---------- One step ---------- */

  /** An upsert leaves exactly one row at its key and does not touch the others. */
  lemma UpsertKeepsTables(l: Library, u: Upsert, l': Library) returns (r: nat)
    requires Tables(l) && Refers(l, u) && Upserts(l, u, l')
    ensures Tables(l') && l'.stored == l.stored && l'.catalog == l.catalog && l'.accounts == l.accounts
    ensures l'.confirmed == l.confirmed
    ensures RowsAt(l'.rows, u.key) == {r} && l'.rows.Keys == l.rows.Keys + {r}
    ensures r in l.rows ==> l.rows[r].key == u.key && l'.rows[r] == Touched(Relinked(l.rows[r], u), u)
    ensures r !in l.rows ==> exists seen, baseline :: l'.rows[r] == Touched(NewRow(u, seen, baseline), u)
    ensures forall s :: s in l.rows && s != r ==> l'.rows[s] == l.rows[s]
    ensures r !in l.rows ==> RowsAt(l.rows, u.key) == {}
  {
    if RowsAt(l.rows, u.key) == {} {
      r := l.nextRow;
    } else {
      r :| r in RowsAt(l.rows, u.key);
    }
    OnlyRow(l, u, l', r);
    UpsertRefers(l, u, r, l');
  }

  lemma UpsertRefers(l: Library, u: Upsert, r: nat, l': Library)
    requires Tables(l) && Refers(l, u) && r in l'.rows && r < l'.nextRow && l.nextRow <= l'.nextRow
    requires l' == l.(rows := l.rows[r := l'.rows[r]], nextRow := l'.nextRow)
    requires l'.rows[r].key == u.key && (r in l.rows ==> l.rows[r].key == u.key)
    requires l'.rows[r].account == Some(u.account) || (r in l.rows && l'.rows[r].account == l.rows[r].account)
    ensures Views(l') && References(l')
  {
  }

  lemma OnlyRow(l: Library, u: Upsert, l': Library, r: nat)
    requires Tables(l) && r in l'.rows && l'.rows[r].key == u.key
    requires forall s :: s in l'.rows && s != r ==> s in l.rows && l'.rows[s] == l.rows[s]
    requires if r in l.rows then l.rows[r].key == u.key else RowsAt(l.rows, u.key) == {}
    ensures UniqueRows(l'.rows) && RowsAt(l'.rows, u.key) == {r}
  {
    forall s | s in l'.rows && s != r ensures l'.rows[s].key != u.key {
      assert s !in RowsAt(l.rows, u.key) || r in l.rows;
    }
  }

  lemma NextKeepsTables(l: Library, step: Step, l': Library)
    requires Tables(l) && Next(l, step, l')
    ensures Tables(l')
  {
    if step.Put? { var r := UpsertKeepsTables(l, step.u, l'); }
  }

  /* ---------- A row over a whole run ---------- */

  function EventsFor(steps: seq<Step>, key: Key): seq<Upsert> {
    if steps == [] then []
    else if steps[0].Put? && steps[0].u.key == key then [steps[0].u] + EventsFor(steps[1..], key)
    else EventsFor(steps[1..], key)
  }

  function Fold(row: Ownership, events: seq<Upsert>): Ownership
    decreases |events|
  {
    if events == [] then row else Fold(Touched(Relinked(row, events[0]), events[0]), events[1..])
  }

  /** The row at a key before a run; without one, the run's first upsert of the key makes it. */
  ghost predicate StartsAt(l: Library, key: Key, events: seq<Upsert>, row: Ownership) {
    if RowsAt(l.rows, key) != {} then exists r :: r in RowsAt(l.rows, key) && row == l.rows[r]
    else events != [] && exists seen, baseline :: row == NewRow(events[0], seen, baseline)
  }

  /** The run's one row at the key, if there is any, is the fold of the key's upserts over its first version. */
  ghost predicate EndsAt(l: Library, key: Key, events: seq<Upsert>, l': Library) {
    if RowsAt(l.rows, key) == {} && events == [] then RowsAt(l'.rows, key) == {}
    else
      exists r, row ::
        RowsAt(l'.rows, key) == {r} && StartsAt(l, key, events, row) && l'.rows[r] == Fold(row, events)
  }

  /** Whatever is imported and flushed in whatever order, each key has at most one row, pending or not. */
  lemma {:induction false} RunKeepsTables(l: Library, steps: seq<Step>, after: seq<Library>)
    requires Tables(l) && |after| == |steps| && Run(l, steps, after)
    ensures Tables(Last(l, after))
    decreases |steps|
  {
    if steps != [] {
      NextKeepsTables(l, steps[0], after[0]);
      RunKeepsTables(after[0], steps[1..], after[1..]);
    }
  }

  lemma {:induction false} RunFolds(l: Library, steps: seq<Step>, after: seq<Library>, key: Key)
    requires Tables(l) && |after| == |steps| && Run(l, steps, after)
    ensures EndsAt(l, key, EventsFor(steps, key), Last(l, after))
    decreases |steps|
  {
    var events := EventsFor(steps, key);
    if steps == [] {
      if RowsAt(l.rows, key) != {} {
        var r :| r in RowsAt(l.rows, key);
        assert RowsAt(l.rows, key) == {r};
        assert StartsAt(l, key, [], l.rows[r]) && l.rows[r] == Fold(l.rows[r], []);
      }
    } else {
      var next := after[0];
      var rest := EventsFor(steps[1..], key);
      NextKeepsTables(l, steps[0], next);
      RunFolds(next, steps[1..], after[1..], key);
      if steps[0].Put? && steps[0].u.key == key {
        FoldFirst(l, steps[0].u, next, rest, Last(l, after));
        assert events == [steps[0].u] + rest;
      } else {
        FoldOther(l, steps[0], next, key, rest, Last(l, after));
      }
    }
  }

  lemma FoldFirst(l: Library, u: Upsert, next: Library, rest: seq<Upsert>, l': Library)
    requires Tables(l) && Refers(l, u) && Upserts(l, u, next) && EndsAt(next, u.key, rest, l')
    ensures EndsAt(l, u.key, [u] + rest, l')
  {
    var events := [u] + rest;
    assert events[1..] == rest;
    var s := UpsertKeepsTables(l, u, next);
    var r, row :| RowsAt(l'.rows, u.key) == {r} && StartsAt(next, u.key, rest, row) && l'.rows[r] == Fold(row, rest);
    assert row == next.rows[s];
    if s in l.rows {
      assert s in RowsAt(l.rows, u.key);
      assert StartsAt(l, u.key, events, l.rows[s]) && l'.rows[r] == Fold(l.rows[s], events);
    } else {
      var seen, baseline :| next.rows[s] == Touched(NewRow(u, seen, baseline), u);
      var first := NewRow(events[0], seen, baseline);
      assert events[0] == u && Relinked(first, u) == first;
      assert StartsAt(l, u.key, events, first) && l'.rows[r] == Fold(first, events);
    }
  }

  lemma FoldOther(l: Library, step: Step, next: Library, key: Key, rest: seq<Upsert>, l': Library)
    requires Tables(l) && Next(l, step, next) && EndsAt(next, key, rest, l')
    requires step.Put? ==> step.u.key != key
    ensures EndsAt(l, key, rest, l')
  {
    SameAt(l, step, next, key);
    if !(RowsAt(l.rows, key) == {} && rest == []) {
      var r, row :| RowsAt(l'.rows, key) == {r} && StartsAt(next, key, rest, row) && l'.rows[r] == Fold(row, rest);
      assert StartsAt(l, key, rest, row);
    }
  }

  lemma SameAt(l: Library, step: Step, next: Library, key: Key)
    requires Tables(l) && Next(l, step, next)
    requires step.Put? ==> step.u.key != key
    ensures RowsAt(next.rows, key) == RowsAt(l.rows, key)
    ensures forall r :: r in RowsAt(l.rows, key) ==> next.rows[r] == l.rows[r]
  {
    if step.Put? {
      var s := UpsertKeepsTables(l, step.u, next);
      assert next.rows[s].key == step.u.key by { assert s in RowsAt(next.rows, step.u.key); }
    }
  }

  /* ---------- Closed forms ---------- */

  /** The last positive playtime from a source that may overwrite. */
  function LastStrong(events: seq<Upsert>): Option<int> {
    if events == [] then None
    else if LastStrong(events[1..]).Some? then LastStrong(events[1..])
    else if events[0].strong && events[0].playtime > 0 then Some(events[0].playtime)
    else None
  }

  function FirstPositive(events: seq<Upsert>): Option<int> {
    if events == [] then None
    else if events[0].playtime > 0 then Some(events[0].playtime)
    else FirstPositive(events[1..])
  }

  function PlaytimeAfter(initial: int, events: seq<Upsert>): int {
    if LastStrong(events).Some? then LastStrong(events).value
    else if initial > 0 then initial
    else if FirstPositive(events).Some? then FirstPositive(events).value
    else if events != [] then events[|events| - 1].playtime
    else initial
  }

  /** All dates a run has a source for. */
  function Dates(row: Ownership, events: seq<Upsert>): set<int> {
    (if row.source.Some? && row.ownedSince.Some? then {row.ownedSince.value} else {})
    + set i | 0 <= i < |events| && Sourced(events[i]) :: events[i].since.value
  }

  ghost predicate Earliest(row: Ownership, dates: set<int>) {
    row.source.Some? && row.ownedSince.Some? && row.ownedSince.value in dates
    && forall date :: date in dates ==> row.ownedSince.value <= date
  }

  lemma {:induction false} PlaytimeFolds(row: Ownership, events: seq<Upsert>)
    ensures Fold(row, events).playtime == PlaytimeAfter(row.playtime, events)
    ensures row.playtime > 0 ==> Fold(row, events).playtime > 0
    decreases |events|
  {
    if events != [] {
      PlaytimeFolds(Touched(Relinked(row, events[0]), events[0]), events[1..]);
      LastStrongPositive(events);
    }
  }

  lemma {:induction false} LastStrongPositive(events: seq<Upsert>)
    ensures LastStrong(events).Some? ==> LastStrong(events).value > 0
  {
    if events != [] { LastStrongPositive(events[1..]); }
  }

  lemma {:induction false} DatesFold(row: Ownership, events: seq<Upsert>)
    ensures Dates(row, events) != {} ==> Earliest(Fold(row, events), Dates(row, events))
    ensures Dates(row, events) == {} ==>
      Fold(row, events).ownedSince == row.ownedSince && Fold(row, events).source == row.source
    decreases |events|
  {
    if events != [] {
      var u := events[0];
      var next := Touched(Relinked(row, u), u);
      DatesFold(next, events[1..]);
      DatesStep(row, events, next);
    }
  }

  lemma DatesStep(row: Ownership, events: seq<Upsert>, next: Ownership)
    requires events != [] && next == Touched(Relinked(row, events[0]), events[0])
    ensures Dates(next, events[1..]) <= Dates(row, events)
    ensures forall date :: date in Dates(row, events) ==>
      date in Dates(next, events[1..]) || exists earlier :: earlier in Dates(next, events[1..]) && earlier <= date
    ensures Dates(row, events) == {} ==> next.ownedSince == row.ownedSince && next.source == row.source
  {
    var rest := events[1..];
    forall date | date in Dates(next, rest) ensures date in Dates(row, events) {
      if i :| 0 <= i < |rest| && Sourced(rest[i]) && rest[i].since.value == date {
        assert events[i + 1] == rest[i];
      }
    }
    forall date | date in Dates(row, events)
      ensures date in Dates(next, rest) || exists earlier :: earlier in Dates(next, rest) && earlier <= date
    {
      if i :| 1 <= i < |events| && Sourced(events[i]) && events[i].since.value == date {
        assert rest[i - 1] == events[i];
      } else {
        assert next.ownedSince.Some? && next.ownedSince.value <= date;
        assert next.ownedSince.value in Dates(next, rest);
      }
    }
    assert Sourced(events[0]) ==> events[0].since.value in Dates(row, events);
  }

  /**
    * The outcome of any run of upserts and flushes at one key: the earliest sourced date, and the last positive
    * playtime of a source that may overwrite, else the playtime there was, else the first positive one reported.
    */
  lemma RunOutcome(l: Library, steps: seq<Step>, after: seq<Library>, key: Key, r: nat, row: Ownership)
    requires Tables(l) && |after| == |steps| && Run(l, steps, after)
    requires r in RowsAt(Last(l, after).rows, key) && row == Last(l, after).rows[r]
    ensures RowsAt(Last(l, after).rows, key) == {r}
    ensures exists first ::
      && StartsAt(l, key, EventsFor(steps, key), first)
      && row.playtime == PlaytimeAfter(first.playtime, EventsFor(steps, key))
      && (first.playtime > 0 ==> row.playtime > 0)
      && (Dates(first, EventsFor(steps, key)) != {} ==> Earliest(row, Dates(first, EventsFor(steps, key))))
      && row.firstSeen == first.firstSeen && row.baseline == first.baseline
  {
    var events := EventsFor(steps, key);
    RunFolds(l, steps, after, key);
    var s, first :| RowsAt(Last(l, after).rows, key) == {s} && StartsAt(l, key, events, first)
      && Last(l, after).rows[s] == Fold(first, events);
    PlaytimeFolds(first, events);
    DatesFold(first, events);
    FirstSeenFolds(first, events);
  }

  lemma {:induction false} FirstSeenFolds(row: Ownership, events: seq<Upsert>)
    ensures Fold(row, events).firstSeen == row.firstSeen && Fold(row, events).baseline == row.baseline
    decreases |events|
  {
    if events != [] { FirstSeenFolds(Touched(Relinked(row, events[0]), events[0]), events[1..]); }
  }
}
