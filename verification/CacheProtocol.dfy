/**
 * Processes and threads that share the recommendation data and its revision row, each process with a cache of its
 * own. A data version counts the committed changes to relevant models; every computed value remembers the versions
 * its queries saw.
 */
module CacheProtocol {
  import opened Options
  import opened LruCache

  type Key = string

  /** A recommendation list: the data version when its computation began, and the version each query read. */
  datatype Value = Value(since: nat, seen: seq<nat>)

  datatype Phase =
    | Idle
    // A request: read the shared revision, observe it, look up, compute, publish.
    | Read(v: nat)
    | Ready(v: nat)
    | Looking(v: nat, key: Key, known: set<nat>)
    | Computing(v: nat, key: Key, known: set<nat>, revision: nat, value: Value)
    | Returned(v: nat, known: set<nat>, value: Value)
    // A transaction: flush, commit, then the hook clears the local cache and bumps the shared revision.
    | Writing(dirty: bool)
    | Committed(change: nat)
    | Cleared(change: nat)

  /**
    * `known` are the changes whose commit hook has cleared this process's cache; `epoch` is the data version at the
    * last clearing.
    */
  datatype Process = Process(cache: Cache<Key, Value>, epoch: nat, known: set<nat>)

  datatype Thread = Thread(process: nat, phase: Phase)

  /**
    * `published[r]` is the data version when shared revision `r` was written; `bumps` says which revision a change
    * wrote.
    */
  datatype World = World(
    data: nat, published: seq<nat>, bumps: map<nat, nat>, processes: map<nat, Process>, threads: map<nat, Thread>)

  datatype Step =
    | ReadRevision
    | ObserveRevision
    | BeginGet(key: Key)
    | LookUp(now: Time)
    | Query
    | Publish(deadline: Time)
    | AnotherGet
    | Finish
    | Open
    | Flush(relevant: bool)
    | Commit
    | Rollback
    | ClearLocal
    | Bump

  ghost predicate Initial(w: World) {
    && w.data == 0 && w.published == [0] && w.bumps == map[]
    && (forall p :: p in w.processes ==> w.processes[p] == Process(Fresh(), 0, {}))
    && (forall t :: t in w.threads ==> w.threads[t].phase == Idle && w.threads[t].process in w.processes)
  }

  predicate Enabled(w: World, t: nat, step: Step) {
    && t in w.threads && w.threads[t].process in w.processes && |w.published| > 0
    && match (step, w.threads[t].phase)
       case (ReadRevision, Idle) => true
       case (ObserveRevision, Read(_)) => true
       case (BeginGet(_), Ready(_)) => true
       case (LookUp(_), Looking(_, _, _)) => true
       case (Query, Computing(_, _, _, _, _)) => true
       case (Publish(_), Computing(_, _, _, _, _)) => true
       case (AnotherGet, Returned(_, _, _)) => true
       case (Finish, Returned(_, _, _)) => true
       case (Open, Idle) => true
       case (Flush(_), Writing(_)) => true
       case (Commit, Writing(_)) => true
       case (Rollback, Writing(_)) => true
       case (ClearLocal, Committed(_)) => true
       case (Bump, Cleared(_)) => true
       case _ => false
  }

  function MoveTo(w: World, t: nat, phase: Phase): World
    requires t in w.threads
  {
    w.(threads := w.threads[t := w.threads[t].(phase := phase)])
  }

  function WithProcess(w: World, p: nat, process: Process): World {
    w.(processes := w.processes[p := process])
  }

  /** An observation starts a new epoch when it clears the cache, or when it is the first. */
  function ObservedBy(process: Process, v: nat, data: nat): Process {
    if process.cache.databaseRevision == Some(v) then process
    else process.(cache := Observed(process.cache, v), epoch := data)
  }

  function Perform(w: World, t: nat, step: Step, max: nat): World
    requires Enabled(w, t, step)
  {
    var p := w.threads[t].process;
    var process := w.processes[p];
    match (step, w.threads[t].phase)
    case (ReadRevision, Idle) => MoveTo(w, t, Read(|w.published| - 1))
    case (ObserveRevision, Read(v)) =>
      MoveTo(WithProcess(w, p, ObservedBy(process, v, w.data)), t, Ready(v))
    case (BeginGet(key), Ready(v)) => MoveTo(w, t, Looking(v, key, process.known))
    case (LookUp(now), Looking(v, key, known)) =>
      var moved := WithProcess(w, p, process.(cache := LookedUp(process.cache, key, now)));
      (match Answered(process.cache, key, now)
       case Hit(value, _) => MoveTo(moved, t, Returned(v, known, value))
       case Miss(revision) => MoveTo(moved, t, Computing(v, key, known, revision, Value(w.data, []))))
    case (Query, Computing(v, key, known, revision, value)) =>
      MoveTo(w, t, Computing(v, key, known, revision, value.(seen := value.seen + [w.data])))
    case (Publish(deadline), Computing(v, key, known, revision, value)) =>
      if revision != process.cache.revision then MoveTo(w, t, Looking(v, key, known))
      else
        MoveTo(WithProcess(w, p, process.(cache := Stored(process.cache, key, Entry(revision, deadline, value), max))),
          t, Returned(v, known, value))
    case (AnotherGet, Returned(v, _, _)) => MoveTo(w, t, Ready(v))
    case (Finish, Returned(_, _, _)) => MoveTo(w, t, Idle)
    case (Open, Idle) => MoveTo(w, t, Writing(false))
    case (Flush(relevant), Writing(dirty)) => MoveTo(w, t, Writing(dirty || relevant))
    case (Commit, Writing(dirty)) =>
      if dirty then MoveTo(w.(data := w.data + 1), t, Committed(w.data + 1)) else MoveTo(w, t, Idle)
    case (Rollback, Writing(_)) => MoveTo(w, t, Idle)
    case (ClearLocal, Committed(change)) =>
      MoveTo(WithProcess(w, p, Process(Invalidated(process.cache), w.data, process.known + {change})), t,
        Cleared(change))
    case (Bump, Cleared(change)) =>
      MoveTo(w.(published := w.published + [w.data], bumps := w.bumps[change := |w.published|]), t, Idle)
  }

  /* ---------- The invariant ---------- */

  ghost predicate ReadsSince(value: Value) {
    forall r :: r in value.seen ==> value.since <= r
  }

  ghost predicate Below(known: set<nat>, n: nat) {
    forall c :: c in known ==> c <= n
  }

  ghost predicate HistoryOk(w: World) {
    && |w.published| > 0
    && (forall i, j :: 0 <= i <= j < |w.published| ==> w.published[i] <= w.published[j])
    && w.published[|w.published| - 1] <= w.data
    && (forall c :: c in w.bumps ==> w.bumps[c] < |w.published| && c <= w.published[w.bumps[c]])
  }

  ghost predicate SlotOk(process: Process, slot: Slot<Key, Value>) {
    && slot.entry.revision == process.cache.revision
    && process.epoch <= slot.entry.value.since && ReadsSince(slot.entry.value)
  }

  ghost predicate ProcessOk(w: World, process: Process) {
    && process.epoch <= w.data && Below(process.known, process.epoch)
    && (match process.cache.databaseRevision
        case None => process.cache.slots == []
        case Some(d) => 0 <= d < |w.published| && w.published[d] <= process.epoch)
    && (forall slot :: slot in process.cache.slots ==> SlotOk(process, slot))
  }

  /** The revision this thread observed was written before the process's epoch. */
  ghost predicate Synchronized(w: World, process: Process, v: nat) {
    process.cache.databaseRevision.Some? && v < |w.published| && w.published[v] <= process.epoch
  }

  /** Everything the value was read from includes what revision `v` announced and what was known locally. */
  ghost predicate IsFresh(w: World, v: nat, known: set<nat>, value: Value) {
    v < |w.published| && w.published[v] <= value.since && Below(known, value.since) && ReadsSince(value)
  }

  ghost predicate ThreadOk(w: World, process: Process, phase: Phase) {
    match phase
    case Idle => true
    case Read(v) => v < |w.published|
    case Ready(v) => Synchronized(w, process, v)
    case Looking(v, _, known) => Synchronized(w, process, v) && Below(known, process.epoch)
    case Computing(v, _, known, revision, value) =>
      && Synchronized(w, process, v) && Below(known, process.epoch)
      && value.since <= w.data && ReadsSince(value) && revision <= process.cache.revision
      && (revision == process.cache.revision ==> process.epoch <= value.since)
    case Returned(v, known, value) => Synchronized(w, process, v) && IsFresh(w, v, known, value)
    case Writing(_) => true
    case Committed(change) => change <= w.data
    case Cleared(change) => change <= w.data
  }

  ghost predicate Inv(w: World) {
    && HistoryOk(w)
    && (forall p :: p in w.processes ==> ProcessOk(w, w.processes[p]))
    && (forall t :: t in w.threads ==>
          w.threads[t].process in w.processes && ThreadOk(w, w.processes[w.threads[t].process], w.threads[t].phase))
  }

  /** The world only grows: data and history advance. */
  ghost predicate Later(w: World, w': World) {
    w.data <= w'.data && w.published <= w'.published
  }

  /** A process only moves on: a new epoch comes with a new revision, unless nothing had been observed before. */
  ghost predicate MovesOn(process: Process, process': Process) {
    && process.epoch <= process'.epoch && process.cache.revision <= process'.cache.revision
    && (process.cache.databaseRevision.Some? ==>
          && process'.cache.databaseRevision.Some?
          && (process'.cache.revision == process.cache.revision ==> process'.epoch == process.epoch))
  }

  lemma ThreadSurvives(w: World, w': World, process: Process, process': Process, phase: Phase)
    requires ThreadOk(w, process, phase) && Later(w, w') && MovesOn(process, process')
    ensures ThreadOk(w', process', phase)
  {
  }

  lemma ProcessSurvives(w: World, w': World, process: Process)
    requires ProcessOk(w, process) && Later(w, w')
    ensures ProcessOk(w', process)
  {
  }

  /** One step changes one thread and at most its process; both stay right, so the invariant holds again. */
  lemma Reassemble(w: World, w': World, t: nat, p: nat)
    requires Inv(w) && HistoryOk(w') && Later(w, w')
    requires t in w.threads && w.threads[t].process == p
    requires w'.processes.Keys == w.processes.Keys && w'.threads.Keys == w.threads.Keys
    requires forall q :: q in w.processes && q != p ==> w'.processes[q] == w.processes[q]
    requires forall u :: u in w.threads && u != t ==> w'.threads[u] == w.threads[u]
    requires w'.threads[t].process == p
    requires ProcessOk(w', w'.processes[p]) && MovesOn(w.processes[p], w'.processes[p])
    requires ThreadOk(w', w'.processes[p], w'.threads[t].phase)
    ensures Inv(w')
  {
    forall q | q in w'.processes ensures ProcessOk(w', w'.processes[q]) {
      if q != p { ProcessSurvives(w, w', w.processes[q]); }
    }
    forall u | u in w'.threads
      ensures w'.threads[u].process in w'.processes
      ensures ThreadOk(w', w'.processes[w'.threads[u].process], w'.threads[u].phase)
    {
      if u != t {
        var q := w.threads[u].process;
        ThreadSurvives(w, w', w.processes[q], w'.processes[q], w.threads[u].phase);
      }
    }
  }

  lemma ObservedOk(w: World, process: Process, v: nat)
    requires HistoryOk(w) && ProcessOk(w, process) && v < |w.published|
    ensures ProcessOk(w, ObservedBy(process, v, w.data)) && MovesOn(process, ObservedBy(process, v, w.data))
    ensures Synchronized(w, ObservedBy(process, v, w.data), v)
  {
    assert w.published[v] <= w.published[|w.published| - 1];
  }

  lemma LookedUpOk(w: World, process: Process, key: Key, now: Time)
    requires ProcessOk(w, process)
    ensures ProcessOk(w, process.(cache := LookedUp(process.cache, key, now)))
    ensures Answered(process.cache, key, now).Hit? ==>
      var value := Answered(process.cache, key, now).value;
      process.epoch <= value.since && ReadsSince(value)
  {
    var slots, i := process.cache.slots, IndexOf(process.cache.slots, key);
    if i < |slots| {
      assert slots[i] in slots;
      forall slot | slot in Put(slots, slots[i]) ensures slot in slots {
      }
    }
  }

  lemma StoredOk(w: World, process: Process, slot: Slot<Key, Value>, max: nat)
    requires ProcessOk(w, process) && SlotOk(process, slot) && process.cache.databaseRevision.Some?
    ensures ProcessOk(w, process.(cache := Stored(process.cache, slot.key, slot.entry, max)))
  {
    var slots := process.cache.slots;
    forall s | s in Trim(Put(slots, slot), max) ensures s == slot || s in slots {
    }
  }

  lemma BumpOk(w: World, change: nat)
    requires HistoryOk(w) && change <= w.data
    ensures HistoryOk(w.(published := w.published + [w.data], bumps := w.bumps[change := |w.published|]))
  {
    forall i | 0 <= i < |w.published| ensures w.published[i] <= w.data {
      assert w.published[i] <= w.published[|w.published| - 1];
    }
  }

  predicate ChangesProcess(step: Step) {
    step.ObserveRevision? || step.LookUp? || step.Publish? || step.ClearLocal?
  }

  predicate ChangesHistory(step: Step) {
    step.Commit? || step.Bump?
  }

  /** The same for a step that leaves data and history alone. */
  lemma SetBoth(w: World, t: nat, process': Process, phase': Phase)
    requires Inv(w) && t in w.threads
    requires var process := w.processes[w.threads[t].process];
             ProcessOk(w, process') && MovesOn(process, process') && ThreadOk(w, process', phase')
    ensures Inv(MoveTo(WithProcess(w, w.threads[t].process, process'), t, phase'))
  {
    var w' := MoveTo(WithProcess(w, w.threads[t].process, process'), t, phase');
    ProcessSurvives(w, w', process');
    ThreadSurvives(w, w', process', process', phase');
    Reassemble(w, w', t, w.threads[t].process);
  }

  /** The same for a step that moves the thread only. */
  lemma SetPhase(w: World, t: nat, phase': Phase)
    requires Inv(w) && t in w.threads && ThreadOk(w, w.processes[w.threads[t].process], phase')
    ensures Inv(MoveTo(w, t, phase'))
  {
    var w', p := MoveTo(w, t, phase'), w.threads[t].process;
    ProcessSurvives(w, w', w.processes[p]);
    Reassemble(w, w', t, p);
  }

  /** A step that leaves process and history alone takes the thread to a phase that fits them. */
  lemma NextPhaseOk(w: World, t: nat, step: Step, max: nat)
    requires Inv(w) && Enabled(w, t, step) && !ChangesProcess(step) && !ChangesHistory(step)
    ensures var w' := Perform(w, t, step, max);
      t in w'.threads && w' == MoveTo(w, t, w'.threads[t].phase)
      && ThreadOk(w, w.processes[w.threads[t].process], w'.threads[t].phase)
  {
    assert ThreadOk(w, w.processes[w.threads[t].process], w.threads[t].phase);
  }

  lemma ThreadStepKeepsInv(w: World, t: nat, step: Step, max: nat)
    requires Inv(w) && Enabled(w, t, step) && !ChangesProcess(step) && !ChangesHistory(step)
    ensures Inv(Perform(w, t, step, max))
  {
    NextPhaseOk(w, t, step, max);
    SetPhase(w, t, Perform(w, t, step, max).threads[t].phase);
  }

  lemma CommitKeepsInv(w: World, t: nat, max: nat)
    requires Inv(w) && Enabled(w, t, Commit)
    ensures Inv(Perform(w, t, Commit, max))
  {
    hide ProcessOk;
    var w', p := Perform(w, t, Commit, max), w.threads[t].process;
    ProcessSurvives(w, w', w.processes[p]);
    Reassemble(w, w', t, p);
  }

  lemma BumpKeepsInv(w: World, t: nat, max: nat)
    requires Inv(w) && Enabled(w, t, Bump)
    ensures Inv(Perform(w, t, Bump, max))
  {
    var w', p := Perform(w, t, Bump, max), w.threads[t].process;
    assert ThreadOk(w, w.processes[p], w.threads[t].phase);
    BumpOk(w, w.threads[t].phase.change);
    ProcessSurvives(w, w', w.processes[p]);
    Reassemble(w, w', t, p);
  }

  lemma ObserveKeepsInv(w: World, t: nat, max: nat)
    requires Inv(w) && Enabled(w, t, ObserveRevision)
    ensures Inv(Perform(w, t, ObserveRevision, max))
  {
    var process, v := w.processes[w.threads[t].process], w.threads[t].phase.v;
    assert ThreadOk(w, process, Read(v));
    ObservedOk(w, process, v);
    SetBoth(w, t, ObservedBy(process, v, w.data), Ready(v));
  }

  lemma LookUpKeepsInv(w: World, t: nat, now: Time, max: nat)
    requires Inv(w) && Enabled(w, t, LookUp(now))
    ensures Inv(Perform(w, t, LookUp(now), max))
  {
    var process, phase := w.processes[w.threads[t].process], w.threads[t].phase;
    var process' := process.(cache := LookedUp(process.cache, phase.key, now));
    assert ThreadOk(w, process, phase);
    LookedUpOk(w, process, phase.key, now);
    match Answered(process.cache, phase.key, now) {
      case Hit(value, _) =>
        SetBoth(w, t, process', Returned(phase.v, phase.known, value));
      case Miss(revision) =>
        SetBoth(w, t, process', Computing(phase.v, phase.key, phase.known, revision, Value(w.data, [])));
    }
  }

  lemma PublishKeepsInv(w: World, t: nat, deadline: Time, max: nat)
    requires Inv(w) && Enabled(w, t, Publish(deadline))
    ensures Inv(Perform(w, t, Publish(deadline), max))
  {
    var process, phase := w.processes[w.threads[t].process], w.threads[t].phase;
    var slot := Slot(phase.key, Entry(phase.revision, deadline, phase.value));
    assert ThreadOk(w, process, phase);
    if phase.revision == process.cache.revision {
      StoredOk(w, process, slot, max);
      SetBoth(w, t, process.(cache := Stored(process.cache, slot.key, slot.entry, max)),
        Returned(phase.v, phase.known, phase.value));
    } else {
      var w', p := Perform(w, t, Publish(deadline), max), w.threads[t].process;
      ProcessSurvives(w, w', process);
      Reassemble(w, w', t, p);
    }
  }

  lemma ClearKeepsInv(w: World, t: nat, max: nat)
    requires Inv(w) && Enabled(w, t, ClearLocal)
    ensures Inv(Perform(w, t, ClearLocal, max))
  {
    var process, change := w.processes[w.threads[t].process], w.threads[t].phase.change;
    assert ThreadOk(w, process, Committed(change)) && ProcessOk(w, process);
    SetBoth(w, t, Process(Invalidated(process.cache), w.data, process.known + {change}), Cleared(change));
  }

  lemma StepKeepsInv(w: World, t: nat, step: Step, max: nat)
    requires Inv(w) && Enabled(w, t, step)
    ensures Inv(Perform(w, t, step, max))
  {
    hide Inv, Perform;
    match step
    case ObserveRevision => ObserveKeepsInv(w, t, max);
    case LookUp(now) => LookUpKeepsInv(w, t, now, max);
    case Publish(deadline) => PublishKeepsInv(w, t, deadline, max);
    case ClearLocal => ClearKeepsInv(w, t, max);
    case Commit => CommitKeepsInv(w, t, max);
    case Bump => BumpKeepsInv(w, t, max);
    case _ => ThreadStepKeepsInv(w, t, step, max);
  }

  /* ---------- Runs ---------- */

  datatype Move = Move(thread: nat, step: Step)

  /** An interleaving: every move is enabled when its turn comes. */
  ghost predicate CanRun(w: World, moves: seq<Move>, max: nat)
    decreases |moves|
  {
    moves != [] ==>
      && Enabled(w, moves[0].thread, moves[0].step)
      && CanRun(Perform(w, moves[0].thread, moves[0].step, max), moves[1..], max)
  }

  ghost function Run(w: World, moves: seq<Move>, max: nat): World
    requires CanRun(w, moves, max)
    decreases |moves|
  {
    if moves == [] then w else Run(Perform(w, moves[0].thread, moves[0].step, max), moves[1..], max)
  }

  lemma InitialOk(w: World)
    requires Initial(w)
    ensures Inv(w)
  {
  }

  lemma {:induction false} RunKeepsInv(w: World, moves: seq<Move>, max: nat)
    requires Inv(w) && CanRun(w, moves, max)
    ensures Inv(Run(w, moves, max))
    decreases |moves|
  {
    if moves != [] {
      StepKeepsInv(w, moves[0].thread, moves[0].step, max);
      RunKeepsInv(Perform(w, moves[0].thread, moves[0].step, max), moves[1..], max);
    }
  }

  /**
   * Freshness under every interleaving: whatever a get returns, every query behind it saw every change that the
   * request's own synchronization announced, and every change whose commit hook had cleared this process's cache
   * when the get began.
   */
  lemma EveryReturnIsFresh(w: World, moves: seq<Move>, max: nat, t: nat, change: nat)
    requires Initial(w) && CanRun(w, moves, max)
    requires var now := Run(w, moves, max);
      && t in now.threads && now.threads[t].phase.Returned?
      && (change in now.threads[t].phase.known
          || (change in now.bumps && now.bumps[change] <= now.threads[t].phase.v))
    ensures forall r :: r in Run(w, moves, max).threads[t].phase.value.seen ==> change <= r
  {
    InitialOk(w);
    RunKeepsInv(w, moves, max);
    var now := Run(w, moves, max);
    var phase := now.threads[t].phase;
    assert ThreadOk(now, now.processes[now.threads[t].process], phase);
    if change !in phase.known {
      assert now.published[now.bumps[change]] <= now.published[phase.v];
    }
  }

  /** A computation that began before a change known in its process is never published: its revision is outdated. */
  lemma OldComputationIsDiscarded(w: World, moves: seq<Move>, max: nat, t: nat, change: nat, deadline: Time)
    requires Initial(w) && CanRun(w, moves, max)
    requires var now := Run(w, moves, max);
      && t in now.threads && now.threads[t].phase.Computing? && Enabled(now, t, Publish(deadline))
      && change in now.processes[now.threads[t].process].known && now.threads[t].phase.value.since < change
    ensures var now := Run(w, moves, max);
      && Perform(now, t, Publish(deadline), max).processes == now.processes
      && Perform(now, t, Publish(deadline), max).threads[t].phase.Looking?
  {
    InitialOk(w);
    RunKeepsInv(w, moves, max);
    var now := Run(w, moves, max);
    assert ThreadOk(now, now.processes[now.threads[t].process], now.threads[t].phase);
    assert ProcessOk(now, now.processes[now.threads[t].process]);
  }
}
