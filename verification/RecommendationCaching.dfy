/** The cache object, its retry loop, and the session hooks that invalidate it. */
module RecommendationCaching {
  import opened Options
  import opened LruCache
  import opened LruProofs

  /** One round of `get`: the clock and the computed value, and what other threads do while the value is computed. */
  datatype Turn<K, V> = Turn(now: Time, meanwhile: seq<Action<K, V>>, value: V, later: Time)

  datatype Result<V> = Result(value: V, revision: nat, hit: bool)

  class RecommendationCache<K(==), V> {
    const ttl: Time
    const maxEntries: nat
    var revision: nat
    var databaseRevision: Option<int>
    var slots: seq<Slot<K, V>>

    function State(): Cache<K, V>
      reads this
    {
      Cache(revision, databaseRevision, slots)
    }

    constructor (ttl: Time, maxEntries: nat)
      ensures State() == LruCache.Fresh() && this.ttl == ttl && this.maxEntries == maxEntries
    {
      this.ttl, this.maxEntries := ttl, maxEntries;
      revision, databaseRevision, slots := 0, None, [];
    }

    method Invalidate()
      modifies this
      ensures State() == Invalidated(old(State()))
    {
      revision := revision + 1;
      slots := [];
    }

    method ObserveDatabaseRevision(observed: int)
      modifies this
      ensures State() == Observed(old(State()), observed)
    {
      if databaseRevision == None {
        databaseRevision := Some(observed);
        return;
      }
      if databaseRevision != Some(observed) {
        databaseRevision := Some(observed);
        revision := revision + 1;
        slots := [];
      }
    }

    /** The first locked section of `get`. */
    method Lookup(key: K, now: Time) returns (answer: Answer<V>)
      modifies this
      ensures answer == Answered(old(State()), key, now)
      ensures State() == LookedUp(old(State()), key, now)
    {
      var i := IndexOf(slots, key);
      if i < |slots| && slots[i].entry.revision == revision && slots[i].entry.deadline > now {
        answer := Hit(slots[i].entry.value, revision);
        slots := slots[..i] + slots[i + 1..] + [slots[i]];
      } else {
        answer := Miss(revision);
      }
    }

    /** The second locked section of `get`. */
    method Publish(key: K, computedAt: nat, now: Time, value: V) returns (published: bool)
      modifies this
      ensures published <==> computedAt == old(State()).revision
      ensures State() == Stored(old(State()), key, Entry(computedAt, now + ttl, value), maxEntries)
    {
      if computedAt != revision {
        return false;
      }
      var slot := Slot(key, Entry(computedAt, now + ttl, value));
      var i := IndexOf(slots, key);
      slots := if i == |slots| then slots + [slot] else slots[..i] + slots[i + 1..] + [slot];
      ghost var put := slots;
      assert put == Put(old(slots), slot);
      while |slots| > maxEntries
        invariant revision == old(revision) && databaseRevision == old(databaseRevision)
        invariant |slots| <= |put| && slots == put[|put| - |slots|..]
        invariant |slots| >= maxEntries || slots == put
      {
        slots := slots[1..];
      }
      assert slots == Trim(put, maxEntries);
      return true;
    }

    /** Other threads' locked sections, in the order the lock admits them. */
    method Interfere(actions: seq<Action<K, V>>)
      modifies this
      ensures State() == Run(old(State()), actions, maxEntries)
    {
      var rest := actions;
      while rest != []
        invariant Run(State(), rest, maxEntries) == Run(old(State()), actions, maxEntries)
        decreases |rest|
      {
        match rest[0] {
          case Invalidate => Invalidate();
          case Observe(observed) => ObserveDatabaseRevision(observed);
          case Look(key, now) => var _ := Lookup(key, now);
          case Store(key, entry) => var _ := Publish(key, entry.revision, entry.deadline - ttl, entry.value);
        }
        rest := rest[1..];
      }
    }

    /** The retry loop, against any interference; `None` while it is still retrying after the given rounds. */
    method Get(key: K, turns: seq<Turn<K, V>>) returns (result: Option<Result<V>>)
      modifies this
      ensures (State(), result) == GetRun(old(State()), key, turns, ttl, maxEntries)
    {
      var rest := turns;
      while rest != []
        invariant GetRun(State(), key, rest, ttl, maxEntries) == GetRun(old(State()), key, turns, ttl, maxEntries)
        decreases |rest|
      {
        var turn := rest[0];
        var answer := Lookup(key, turn.now);
        if answer.Hit? {
          return Some(Result(answer.value, answer.revision, true));
        }
        Interfere(turn.meanwhile);
        var published := Publish(key, answer.revision, turn.later, turn.value);
        if published {
          return Some(Result(turn.value, answer.revision, false));
        }
        rest := rest[1..];
      }
      return None;
    }
  }

  function GetRun<K(==), V>(c: Cache<K, V>, key: K, turns: seq<Turn<K, V>>, ttl: Time, max: nat)
      : (Cache<K, V>, Option<Result<V>>)
    decreases |turns|
  {
    if turns == [] then (c, None)
    else
      var turn := turns[0];
      match Answered(c, key, turn.now)
      case Hit(value, revision) => (LookedUp(c, key, turn.now), Some(Result(value, revision, true)))
      case Miss(revision) =>
        var disturbed := Run(c, turn.meanwhile, max);
        if disturbed.revision == revision then
          (Stored(disturbed, key, Entry(revision, turn.later + ttl, turn.value), max),
           Some(Result(turn.value, revision, false)))
        else GetRun(disturbed, key, turns[1..], ttl, max)
  }

  /** The cache when round `i` begins, if no earlier round returned. */
  function Before<K(==), V>(c: Cache<K, V>, turns: seq<Turn<K, V>>, i: nat, max: nat): Cache<K, V>
    requires i <= |turns|
    decreases i
  {
    if i == 0 then c else Before(Run(c, turns[0].meanwhile, max), turns[1..], i - 1, max)
  }

  /** Round `i` misses and is overtaken by a change of revision. */
  ghost predicate Overtaken<K, V>(c: Cache<K, V>, key: K, turns: seq<Turn<K, V>>, i: nat, max: nat)
    requires i < |turns|
  {
    && Answered(Before(c, turns, i, max), key, turns[i].now).Miss?
    && Run(Before(c, turns, i, max), turns[i].meanwhile, max).revision != Before(c, turns, i, max).revision
  }

  /** `get` returns from the first round that hits or is not overtaken, and a computed value is that round's own. */
  lemma {:induction false} GetReturnsUndisturbedRound<K(!new), V>(c: Cache<K, V>, key: K, turns: seq<Turn<K, V>>,
      ttl: Time, max: nat) returns (i: nat)
    requires GetRun(c, key, turns, ttl, max).1.Some?
    ensures i < |turns| && forall j :: 0 <= j < i ==> Overtaken(c, key, turns, j, max)
    ensures var start, result := Before(c, turns, i, max), GetRun(c, key, turns, ttl, max).1.value;
      && result.revision == start.revision
      && (result.hit ==> Answered(start, key, turns[i].now) == Hit(result.value, result.revision))
      && (!result.hit ==>
            && Answered(start, key, turns[i].now).Miss? && result.value == turns[i].value
            && Run(start, turns[i].meanwhile, max).revision == start.revision)
    decreases |turns|
  {
    var turn := turns[0];
    var disturbed := Run(c, turn.meanwhile, max);
    if Answered(c, key, turn.now).Hit? || disturbed.revision == c.revision {
      i := 0;
    } else {
      var k := GetReturnsUndisturbedRound(disturbed, key, turns[1..], ttl, max);
      i := k + 1;
      forall j | 0 <= j < i ensures Overtaken(c, key, turns, j, max) {
        if j > 0 { assert Overtaken(disturbed, key, turns[1..], j - 1, max); }
      }
    }
  }

  /** The locked sections that a `get` and the threads beside it pass through, in order. */
  function Sections<K(==), V>(c: Cache<K, V>, key: K, turns: seq<Turn<K, V>>, ttl: Time, max: nat): seq<Action<K, V>>
    decreases |turns|
  {
    if turns == [] then []
    else
      var turn := turns[0];
      var disturbed := Run(c, turn.meanwhile, max);
      if Answered(c, key, turn.now).Hit? then [Look(key, turn.now)]
      else
        [Look(key, turn.now)] + turn.meanwhile + [Store(key, Entry(c.revision, turn.later + ttl, turn.value))]
        + if disturbed.revision == c.revision then [] else Sections(disturbed, key, turns[1..], ttl, max)
  }

  lemma {:induction false} RunAppend<K(!new), V>(c: Cache<K, V>, a: seq<Action<K, V>>, b: seq<Action<K, V>>, max: nat)
    ensures Run(c, a + b, max) == Run(Run(c, a, max), b, max)
    decreases |a|
  {
    if a == [] {
      assert a + b == b;
    } else {
      assert (a + b)[1..] == a[1..] + b;
      RunAppend(Next(c, a[0], max), a[1..], b, max);
    }
  }

  /** A round that computes: its lookup, the interference, and its store. */
  lemma RoundIsARun<K(!new), V>(c: Cache<K, V>, look: Action<K, V>, meanwhile: seq<Action<K, V>>, store: Action<K, V>,
      rest: seq<Action<K, V>>, max: nat)
    requires Next(c, look, max) == c
    ensures Run(c, [look] + meanwhile + [store] + rest, max) == Run(Next(Run(c, meanwhile, max), store, max), rest, max)
  {
    hide Next;
    var all := [look] + meanwhile + [store] + rest;
    assert all[1..] == meanwhile + ([store] + rest);
    RunAppend(c, meanwhile, [store] + rest, max);
    assert ([store] + rest)[1..] == rest;
  }

  /** `get` leaves what its locked sections and the interference leave, so the recency view also covers it. */
  lemma {:induction false} GetIsARun<K(!new), V>(c: Cache<K, V>, log: seq<Use<K, V>>, key: K, turns: seq<Turn<K, V>>,
      ttl: Time, max: nat)
    requires Represents(c, log, max)
    ensures GetRun(c, key, turns, ttl, max).0 == Run(c, Sections(c, key, turns, ttl, max), max)
    ensures Represents(GetRun(c, key, turns, ttl, max).0, RunLog(c, log, Sections(c, key, turns, ttl, max), max), max)
    decreases |turns|
  {
    hide Represents, IndexOf, Put, Trim, RunLog;
    RunKeepsView(c, log, Sections(c, key, turns, ttl, max), max);
    if turns != [] {
      var turn := turns[0];
      var look, store := Look(key, turn.now), Store(key, Entry(c.revision, turn.later + ttl, turn.value));
      if Answered(c, key, turn.now).Miss? {
        var disturbed := Run(c, turn.meanwhile, max);
        var overtaken := disturbed.revision != c.revision;
        var rest := if overtaken then Sections(disturbed, key, turns[1..], ttl, max) else [];
        RoundIsARun(c, look, turn.meanwhile, store, rest, max);
        assert Sections(c, key, turns, ttl, max) == [look] + turn.meanwhile + [store] + rest;
        if overtaken {
          RunKeepsView(c, log, turn.meanwhile, max);
          GetIsARun(disturbed, RunLog(c, log, turn.meanwhile, max), key, turns[1..], ttl, max);
        }
      }
    }
  }

  /**
    * Whoever asks next: a computed value is answered to every lookup below the deadline set by its round, under the
    * returned revision; a value found is still found at the same clock reading.
    */
  lemma {:induction false} GetLeavesValue<K(!new), V>(c: Cache<K, V>, log: seq<Use<K, V>>, key: K,
      turns: seq<Turn<K, V>>, ttl: Time, max: nat) returns (i: nat)
    requires Represents(c, log, max) && max > 0 && GetRun(c, key, turns, ttl, max).1.Some?
    ensures i < |turns| && forall j :: 0 <= j < i ==> Overtaken(c, key, turns, j, max)
    ensures var (end, result) := GetRun(c, key, turns, ttl, max);
      && (!result.value.hit ==>
            && result.value.value == turns[i].value
            && forall now :: now < turns[i].later + ttl ==>
                 Answered(end, key, now) == Hit(turns[i].value, result.value.revision))
      && (result.value.hit ==>
            forall now :: now <= turns[i].now ==>
              Answered(end, key, now) == Hit(result.value.value, result.value.revision))
    decreases |turns|
  {
    hide Represents, Put, Trim, IndexOf;
    var turn := turns[0];
    var disturbed := Run(c, turn.meanwhile, max);
    RunKeepsView(c, log, turn.meanwhile, max);
    var later := RunLog(c, log, turn.meanwhile, max);
    if Answered(c, key, turn.now).Hit? {
      i := 0;
      LookKeepsValue(c, log, key, turn.now, max);
    } else if disturbed.revision == c.revision {
      i := 0;
      StoredIsFound(disturbed, later, key, Entry(c.revision, turn.later + ttl, turn.value), max);
    } else {
      var k := GetLeavesValue(disturbed, later, key, turns[1..], ttl, max);
      i := k + 1;
      forall j | 0 <= j < i ensures Overtaken(c, key, turns, j, max) {
        if j > 0 { assert Overtaken(disturbed, key, turns[1..], j - 1, max); }
      }
    }
  }

  lemma LookKeepsValue<K(!new), V>(c: Cache<K, V>, log: seq<Use<K, V>>, key: K, now: Time, max: nat)
    requires Represents(c, log, max) && Answered(c, key, now).Hit?
    ensures forall earlier :: earlier <= now ==> Answered(LookedUp(c, key, now), key, earlier) == Answered(c, key, now)
  {
    hide Trim, LastUse, Evicted;
    var slot := c.slots[IndexOf(c.slots, key)];
    var end := LookedUp(c, key, now);
    PutOrdered(c.slots, log, Touched(key), slot);
    LastIsFound(end.slots, log + [Touched(key)], slot);
  }

  /** Whether an action clears the cache. */
  predicate Clears<K(==), V>(c: Cache<K, V>, action: Action<K, V>) {
    action.Invalidate? || (action.Observe? && c.databaseRevision.Some?
      && c.databaseRevision.value != action.databaseRevision)
  }

  predicate SomeClear<K(==), V>(c: Cache<K, V>, actions: seq<Action<K, V>>, max: nat)
    decreases |actions|
  {
    actions != [] && (Clears(c, actions[0]) || SomeClear(Next(c, actions[0], max), actions[1..], max))
  }

  /** The revision moves exactly when some action clears the cache, so a round is overtaken by nothing else. */
  lemma {:induction false} RevisionMovesIffCleared<K(!new), V>(c: Cache<K, V>, actions: seq<Action<K, V>>, max: nat)
    ensures Run(c, actions, max).revision >= c.revision
    ensures Run(c, actions, max).revision == c.revision <==> !SomeClear(c, actions, max)
    decreases |actions|
  {
    if actions != [] {
      RevisionMovesIffCleared(Next(c, actions[0], max), actions[1..], max);
    }
  }

  /**
    * The first observation keeps what is cached, so a value stored before any observation is still returned after it.
    * Every caller in the application synchronizes before its first `get`, so none depends on this case.
    */
  lemma FirstObservationKeepsEntries<K(!new), V>(c: Cache<K, V>, log: seq<Use<K, V>>, observed: int, key: K,
      entry: Entry<V>, now: Time, max: nat)
    requires Represents(c, log, max) && c.databaseRevision.None? && max > 0
    requires entry.revision == c.revision && entry.deadline > now
    ensures var stored := Stored(c, key, entry, max);
      && Observed(stored, observed) == stored.(databaseRevision := Some(observed))
      && Answered(Observed(stored, observed), key, now) == Hit(entry.value, c.revision)
  {
    StoredIsFound(c, log, key, entry, max);
  }

  lemma StoredIsFound<K(!new), V>(c: Cache<K, V>, log: seq<Use<K, V>>, key: K, entry: Entry<V>, max: nat)
    requires Represents(c, log, max) && max > 0 && entry.revision == c.revision
    ensures var stored := Stored(c, key, entry, max);
      && stored.revision == c.revision && stored.databaseRevision == c.databaseRevision
      && IndexOf(stored.slots, key) < |stored.slots| && stored.slots[IndexOf(stored.slots, key)].entry == entry
  {
    hide Trim, Put, LastUse, Held, Evicted;
    var stored := Stored(c, key, entry, max);
    StepKeepsView(c, log, Store(key, entry), max);
    LastIsStored(c.slots, Slot(key, entry), max);
    LastIsFound(stored.slots, NextLog(c, log, Store(key, entry)), Slot(key, entry));
  }

  lemma LastIsStored<K, V>(slots: seq<Slot<K, V>>, slot: Slot<K, V>, max: nat)
    requires max > 0
    ensures var stored := Trim(Put(slots, slot), max); stored != [] && stored[|stored| - 1] == slot
  {
  }

  lemma LastIsFound<K(!new), V>(slots: seq<Slot<K, V>>, log: seq<Use<K, V>>, slot: Slot<K, V>)
    requires slots != [] && slots[|slots| - 1] == slot && Ordered(slots, log)
    ensures IndexOf(slots, slot.key) == |slots| - 1
  {
    forall i | 0 <= i < |slots| - 1 ensures slots[i].key != slot.key {
      assert LastUse(log, slots[i].key) < LastUse(log, slots[|slots| - 1].key);
    }
  }

  /* ---------- Session hooks ---------- */

  datatype Model =
    | Account | Game | ManualOwnership | Ownership | Participant | PlatformGameMapping
    | SyncRun | UsageEvent | AnalyticsConfiguration | RecommendationCacheRevision

  predicate Relevant(m: Model) {
    m.Account? || m.Game? || m.ManualOwnership? || m.Ownership? || m.Participant? || m.PlatformGameMapping?
  }

  datatype SessionEvent = Flushed(touched: set<Model>) | Committed | RolledBack

  predicate TouchesRelevant(e: SessionEvent) {
    e.Flushed? && exists m :: m in e.touched && Relevant(m)
  }

  /** The commit at `i` ends a transaction one of whose flushes touched a relevant model. */
  ghost predicate RelevantCommit(events: seq<SessionEvent>, i: nat) {
    && i < |events| && events[i].Committed?
    && exists f :: 0 <= f < i && FlushOf(events, f, i)
  }

  ghost predicate FlushOf(events: seq<SessionEvent>, f: nat, i: nat)
    requires f < i <= |events|
  {
    TouchesRelevant(events[f]) && forall k :: f < k < i ==> events[k].Flushed?
  }

  /** How many of the first `n` events are such commits. */
  ghost function RelevantCommits(events: seq<SessionEvent>, n: nat): nat
    requires n <= |events|
  {
    if n == 0 then 0 else RelevantCommits(events, n - 1) + if RelevantCommit(events, n - 1) then 1 else 0
  }

  /** The open transaction has flushed a relevant model. */
  ghost predicate Pending(events: seq<SessionEvent>) {
    exists f :: 0 <= f < |events| && FlushOf(events, f, |events|)
  }

  /** What a hook does to its session's mark and to the shared revision. */
  function Hooked(dirty: bool, shared: nat, e: SessionEvent): (bool, nat) {
    match e
    case Flushed(_) => (dirty || TouchesRelevant(e), shared)
    case Committed => (false, if dirty then shared + 1 else shared)
    case RolledBack => (false, shared)
  }

  /** The row that all processes share; absent until the first bump of an empty table. */
  class RevisionRow {
    var revision: Option<nat>

    function Value(): nat
      reads this
    {
      if revision.Some? then revision.value else 0
    }

    constructor (revision: Option<nat>)
      ensures this.revision == revision
    {
      this.revision := revision;
    }

    method Bump()
      modifies this
      ensures revision == Some(old(Value()) + 1)
    {
      revision := if revision.Some? then Some(revision.value + 1) else Some(1);
    }
  }

  /**
    * One database session. Its process's cache and the shared row also move under other sessions and observations,
    * so a session keeps count only of the bumps it makes itself.
    */
  class SessionHooks<K(==), V> {
    const cache: RecommendationCache<K, V>
    const row: RevisionRow
    var dirty: bool
    ghost var events: seq<SessionEvent>
    ghost var bumps: nat

    ghost predicate Valid()
      reads this
    {
      (dirty <==> Pending(events)) && bumps == RelevantCommits(events, |events|)
    }

    constructor (cache: RecommendationCache<K, V>, row: RevisionRow)
      ensures Valid() && events == [] && bumps == 0 && this.cache == cache && this.row == row
    {
      this.cache, this.row, this.dirty, this.events, this.bumps := cache, row, false, [], 0;
    }

    method AfterFlush(touched: set<Model>)
      requires Valid()
      modifies this
      ensures Valid() && events == old(events) + [Flushed(touched)] && bumps == old(bumps)
      ensures (dirty, row.Value()) == Hooked(old(dirty), old(row.Value()), Flushed(touched))
    {
      ghost var before := events;
      if exists m :: m in touched && Relevant(m) {
        dirty := true;
      }
      events := events + [Flushed(touched)];
      FlushExtends(before, Flushed(touched));
    }

    /** A relevant commit clears the cache and bumps the row, whatever state other sessions left them in. */
    method AfterCommit()
      requires Valid()
      modifies this, cache, row
      ensures Valid() && events == old(events) + [Committed]
      ensures (dirty, row.Value()) == Hooked(old(dirty), old(row.Value()), Committed)
      ensures RelevantCommit(events, |events| - 1) ==>
        && cache.State() == Invalidated(old(cache.State()))
        && row.Value() == old(row.Value()) + 1 && bumps == old(bumps) + 1
      ensures !RelevantCommit(events, |events| - 1) ==> unchanged(cache) && unchanged(row) && bumps == old(bumps)
    {
      ghost var before := events;
      var wasDirty := dirty;
      dirty := false;
      events := events + [Committed];
      EndsTransaction(before, Committed);
      if wasDirty {
        cache.Invalidate();
        row.Bump();
        bumps := bumps + 1;
      }
    }

    method AfterRollback()
      requires Valid()
      modifies this
      ensures Valid() && events == old(events) + [RolledBack] && bumps == old(bumps)
      ensures (dirty, row.Value()) == Hooked(old(dirty), old(row.Value()), RolledBack)
    {
      ghost var before := events;
      dirty := false;
      events := events + [RolledBack];
      EndsTransaction(before, RolledBack);
    }
  }

  /* ---------- Many sessions ---------- */

  /** The marks of all sessions and the shared revision. */
  datatype Marks = Marks(dirty: set<nat>, shared: nat)

  function Handled(marks: Marks, session: nat, e: SessionEvent): Marks {
    var (dirty, shared) := Hooked(session in marks.dirty, marks.shared, e);
    Marks(if dirty then marks.dirty + {session} else marks.dirty - {session}, shared)
  }

  /** The events of all sessions, of all processes, in the order in which their hooks run. */
  type Log = seq<(nat, SessionEvent)>

  function HandledAll(initial: nat, log: Log): Marks
    decreases |log|
  {
    if log == [] then Marks({}, initial)
    else
      var last := log[|log| - 1];
      Handled(HandledAll(initial, log[..|log| - 1]), last.0, last.1)
  }

  function EventsOf(log: Log, session: nat): seq<SessionEvent>
    decreases |log|
  {
    if log == [] then []
    else
      var before, last := EventsOf(log[..|log| - 1], session), log[|log| - 1];
      if last.0 == session then before + [last.1] else before
  }

  /** The relevant commits of the first `n` sessions. */
  ghost function CommitsOfAll(log: Log, n: nat): nat {
    if n == 0 then 0 else CommitsOfAll(log, n - 1) + CommitsOf(log, n - 1)
  }

  ghost function CommitsOf(log: Log, session: nat): nat {
    RelevantCommits(EventsOf(log, session), |EventsOf(log, session)|)
  }

  /** One event adds its session's commit, if it is a relevant one, and nothing for the others. */
  lemma {:induction false} OneEventMore(log: Log, n: nat)
    requires log != []
    ensures var last := log[|log| - 1];
      CommitsOfAll(log, n)
      == CommitsOfAll(log[..|log| - 1], n)
         + if last.0 < n && last.1.Committed? && Pending(EventsOf(log[..|log| - 1], last.0)) then 1 else 0
  {
    if n > 0 {
      OneEventMore(log, n - 1);
      var before, last := log[..|log| - 1], log[|log| - 1];
      if last.0 == n - 1 { OwnEvent(EventsOf(before, last.0), last.1); }
    }
  }

  lemma OwnEvent(before: seq<SessionEvent>, e: SessionEvent)
    ensures RelevantCommits(before + [e], |before| + 1)
         == RelevantCommits(before, |before|) + if e.Committed? && Pending(before) then 1 else 0
    ensures forall shared :: Pending(before + [e]) == Hooked(Pending(before), shared, e).0
  {
    if e.Flushed? { FlushExtends(before, e); } else { EndsTransaction(before, e); }
  }

  /**
    * However the sessions of all processes interleave: a session is marked exactly while its open transaction has
    * flushed a relevant model, and the shared revision counts exactly the relevant commits of all of them.
    */
  lemma {:induction false} SharedCountsAllSessions(initial: nat, log: Log, n: nat)
    requires forall i :: 0 <= i < |log| ==> log[i].0 < n
    ensures forall session :: session in HandledAll(initial, log).dirty <==> Pending(EventsOf(log, session))
    ensures HandledAll(initial, log).shared == initial + CommitsOfAll(log, n)
    decreases |log|
  {
    if log == [] {
      NoCommits(n);
    } else {
      var before, last := log[..|log| - 1], log[|log| - 1];
      SharedCountsAllSessions(initial, before, n);
      OneEventMore(log, n);
      OwnEvent(EventsOf(before, last.0), last.1);
    }
  }

  lemma {:induction false} NoCommits(n: nat)
    ensures CommitsOfAll([], n) == 0
  {
    if n > 0 { NoCommits(n - 1); }
  }

  lemma FlushOfLonger(before: seq<SessionEvent>, e: SessionEvent, f: nat, i: nat)
    requires f < i <= |before|
    ensures FlushOf(before + [e], f, i) <==> FlushOf(before, f, i)
  {
    var events := before + [e];
    assert forall k :: 0 <= k < |before| ==> before[k] == events[k];
  }

  lemma {:induction false} CommitsOfLonger(before: seq<SessionEvent>, e: SessionEvent, n: nat)
    requires n <= |before|
    ensures RelevantCommits(before + [e], n) == RelevantCommits(before, n)
  {
    if n > 0 {
      var events, i := before + [e], n - 1;
      CommitsOfLonger(before, e, i);
      forall f | 0 <= f < i ensures FlushOf(events, f, i) <==> FlushOf(before, f, i) {
        FlushOfLonger(before, e, f, i);
      }
    }
  }

  lemma FlushExtends(before: seq<SessionEvent>, e: SessionEvent)
    requires e.Flushed?
    ensures var events := before + [e];
      && RelevantCommits(events, |events|) == RelevantCommits(before, |before|)
      && (Pending(events) <==> TouchesRelevant(e) || Pending(before))
  {
    var events := before + [e];
    CommitsOfLonger(before, e, |before|);
    forall f | 0 <= f < |before| ensures FlushOf(events, f, |events|) <==> FlushOf(before, f, |before|) {
      FlushOfLonger(before, e, f, |before|);
      assert events[|before|].Flushed?;
    }
    assert FlushOf(events, |before|, |events|) <==> TouchesRelevant(e);
  }

  lemma EndsTransaction(before: seq<SessionEvent>, e: SessionEvent)
    requires !e.Flushed?
    ensures var events := before + [e];
      && !Pending(events) && (RelevantCommit(events, |before|) <==> e.Committed? && Pending(before))
      && RelevantCommits(events, |events|)
           == RelevantCommits(before, |before|) + if RelevantCommit(events, |before|) then 1 else 0
  {
    var events := before + [e];
    CommitsOfLonger(before, e, |before|);
    forall f | 0 <= f < |before|
      ensures FlushOf(events, f, |before|) <==> FlushOf(before, f, |before|)
      ensures !FlushOf(events, f, |events|)
    {
      FlushOfLonger(before, e, f, |before|);
      assert events[|before|] == e;
    }
  }
}
