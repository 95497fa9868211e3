/** Who holds the metadata lock and the Steam lock: jobs as programs over program counters, in any interleaving. */
module MetadataLocks {
  import opened Options

  datatype Kind =
    | MetadataSync(includeSteam: bool)
    | LauncherImport(needsMetadata: bool)
    | SteamSync

  datatype Pc =
    | Start
    // a metadata synchronization: a request creates its run, which takes the lock, and hands it over
    // to a background job, which gives the lock back
    | Creating | HandingOver | Queued | Working | AskingSteam | InSteam | Prepared
    | Enriching | Failing | Closing | Releasing
    // a Playnite or GOG Galaxy import: the lock is taken, and waited for, only after the import itself
    | Importing | Waiting | Holding | EnrichingImport | Summarizing
    | FailingHeld | Finally | FailingFree | ClosingImport
    // a Steam synchronization: the same hand-over with the Steam lock
    | CreatingSteam | HandingOverSteam | QueuedSteam | WorkingSteam | ClosingSteam | ReleasingSteam
    | Done | Refused | Leaked | LeakedSteam

  datatype Job = Job(kind: Kind, pc: Pc)

  /** What happens in a step: it works, it raises, or the job finds nothing to do. */
  datatype Outcome = Works | Raises | Quits

  /** A lock is free or taken; who took it is recorded for the proofs only. */
  datatype State = State(metadata: Option<nat>, steam: Option<nat>, jobs: seq<Job>)

  datatype Use = Keep | Take | Give

  datatype Move = Move(pc: Pc, metadata: Use, steam: Use)

  function Go(pc: Pc): Option<Move> {
    Some(Move(pc, Keep, Keep))
  }

  /** One step of a job's program, or nothing while it waits for the lock. Only one place waits: all others just try. */
  function Step(kind: Kind, pc: Pc, outcome: Outcome, metadataFree: bool, steamFree: bool): Option<Move> {
    match pc
    case Start =>
      (match kind
       case MetadataSync(_) => if metadataFree then Some(Move(Creating, Take, Keep)) else Go(Refused)
       case LauncherImport(_) => Go(if outcome.Raises? then Done else Importing)
       case SteamSync => if steamFree then Some(Move(CreatingSteam, Keep, Take)) else Go(Refused))
    case Creating => if outcome.Raises? then Some(Move(Refused, Give, Keep)) else Go(HandingOver)
    // the request fails after the run was created, and its background job never starts
    case HandingOver => Go(if outcome.Raises? then Leaked else Queued)
    // the job cannot open its session
    case Queued => Go(if outcome.Raises? then Leaked else Working)
    case Working =>
      Go(if outcome.Raises? then Failing else if outcome.Quits? then Closing
         else if kind.MetadataSync? && kind.includeSteam then AskingSteam else Prepared)
    case AskingSteam => if steamFree then Some(Move(InSteam, Keep, Take)) else Go(Failing)
    case InSteam => Some(Move(if outcome.Raises? then Failing else Prepared, Keep, Give))
    case Prepared => Go(if outcome.Raises? then Failing else Enriching)
    case Enriching => Go(if outcome.Raises? then Failing else Closing)
    case Failing => Go(Closing)
    case Closing => Go(if outcome.Raises? then Leaked else Releasing)
    case Releasing => Some(Move(Done, Give, Keep))
    case Importing =>
      Go(if outcome.Raises? then FailingFree
         else if kind.LauncherImport? && kind.needsMetadata && !outcome.Quits? then Waiting else ClosingImport)
    case Waiting => if metadataFree then Some(Move(Holding, Take, Keep)) else None
    case Holding => Go(if outcome.Raises? then FailingHeld else EnrichingImport)
    // a failed enrichment is reported in the summary; only a failing rollback raises
    case EnrichingImport => Go(if outcome.Raises? then FailingHeld else Summarizing)
    case Summarizing => Go(if outcome.Raises? then FailingHeld else Finally)
    case FailingHeld => Go(Finally)
    case Finally => Some(Move(ClosingImport, Give, Keep))
    case FailingFree => Go(ClosingImport)
    case ClosingImport => Go(Done)
    case CreatingSteam => if outcome.Raises? then Some(Move(Refused, Keep, Give)) else Go(HandingOverSteam)
    case HandingOverSteam => Go(if outcome.Raises? then LeakedSteam else QueuedSteam)
    case QueuedSteam => Go(if outcome.Raises? then LeakedSteam else WorkingSteam)
    case WorkingSteam => Go(ClosingSteam)
    case ClosingSteam => Go(if outcome.Raises? then LeakedSteam else ReleasingSteam)
    case ReleasingSteam => Some(Move(Done, Keep, Give))
    case Done => None
    case Refused => None
    case Leaked => None
    case LeakedSteam => None
  }

  function Used(owner: Option<nat>, use: Use, j: nat): Option<nat> {
    match use
    case Keep => owner
    case Take => Some(j)
    case Give => None
  }

  function MoveOf(s: State, j: nat, outcome: Outcome): Option<Move>
    requires j < |s.jobs|
  {
    Step(s.jobs[j].kind, s.jobs[j].pc, outcome, s.metadata.None?, s.steam.None?)
  }

  function Next(s: State, j: nat, outcome: Outcome): Option<State> {
    if j >= |s.jobs| || MoveOf(s, j, outcome).None? then None
    else
      var move := MoveOf(s, j, outcome).value;
      Some(State(Used(s.metadata, move.metadata, j), Used(s.steam, move.steam, j),
        s.jobs[j := s.jobs[j].(pc := move.pc)]))
  }

  /** The state after a schedule, if every step of it can be taken. */
  function Run(s: State, schedule: seq<(nat, Outcome)>): Option<State>
    decreases |schedule|
  {
    if schedule == [] then Some(s)
    else if Next(s, schedule[0].0, schedule[0].1).None? then None
    else Run(Next(s, schedule[0].0, schedule[0].1).value, schedule[1..])
  }

  function Begin(kinds: seq<Kind>): State {
    State(None, None, seq(|kinds|, i requires 0 <= i < |kinds| => Job(kinds[i], Start)))
  }

  /* ---------- Who holds what ---------- */

  predicate HoldsMetadata(pc: Pc) {
    pc in {Creating, HandingOver, Queued, Working, AskingSteam, InSteam, Prepared, Enriching, Failing, Closing,
           Releasing, Leaked, Holding, EnrichingImport, Summarizing, FailingHeld, Finally}
  }

  predicate HoldsSteam(pc: Pc) {
    pc in {InSteam, CreatingSteam, HandingOverSteam, QueuedSteam, WorkingSteam, ClosingSteam, ReleasingSteam,
      LeakedSteam}
  }

  predicate InMetadata(pc: Pc) {
    pc == Enriching || pc == EnrichingImport
  }

  predicate InStore(pc: Pc) {
    pc == InSteam || pc == WorkingSteam
  }

  predicate Finished(pc: Pc) {
    pc in {Done, Refused, Leaked, LeakedSteam}
  }

  /** The program counter says who holds a lock, and nobody else does. */
  ghost predicate Owned(s: State) {
    && (s.metadata.Some? ==> s.metadata.value < |s.jobs|) && (s.steam.Some? ==> s.steam.value < |s.jobs|)
    && forall j {:trigger s.jobs[j]} :: 0 <= j < |s.jobs| ==>
         && (HoldsMetadata(s.jobs[j].pc) <==> s.metadata == Some(j))
         && (HoldsSteam(s.jobs[j].pc) <==> s.steam == Some(j))
  }

  /** How many more steps a job can take at most. */
  function Rank(pc: Pc): nat {
    match pc
    case Start => 13
    case Creating => 12 case HandingOver => 11 case Queued => 10 case Working => 9
    case AskingSteam => 8 case InSteam => 7 case Prepared => 6 case Enriching => 5
    case Failing => 4 case Closing => 3 case Releasing => 2
    case Importing => 11 case Waiting => 10 case Holding => 9 case EnrichingImport => 8 case Summarizing => 7
    case FailingHeld => 6 case Finally => 5 case FailingFree => 4 case ClosingImport => 3
    case CreatingSteam => 12 case HandingOverSteam => 11 case QueuedSteam => 10
    case WorkingSteam => 9 case ClosingSteam => 8 case ReleasingSteam => 7
    case Done => 0 case Refused => 0 case Leaked => 0 case LeakedSteam => 0
  }

  lemma StepUsesMetadata(kind: Kind, pc: Pc, outcome: Outcome, metadataFree: bool, steamFree: bool, move: Move)
    requires Step(kind, pc, outcome, metadataFree, steamFree) == Some(move)
    ensures move.metadata == Take ==> metadataFree && !HoldsMetadata(pc)
    ensures move.metadata == Give ==> HoldsMetadata(pc)
    ensures HoldsMetadata(move.pc) <==> move.metadata == Take || (move.metadata == Keep && HoldsMetadata(pc))
  {
  }

  lemma StepUsesSteam(kind: Kind, pc: Pc, outcome: Outcome, metadataFree: bool, steamFree: bool, move: Move)
    requires Step(kind, pc, outcome, metadataFree, steamFree) == Some(move)
    ensures move.steam == Take ==> steamFree && !HoldsSteam(pc)
    ensures move.steam == Give ==> HoldsSteam(pc)
    ensures HoldsSteam(move.pc) <==> move.steam == Take || (move.steam == Keep && HoldsSteam(pc))
  {
  }

  lemma StepProgresses(kind: Kind, pc: Pc, outcome: Outcome, metadataFree: bool, steamFree: bool, move: Move)
    requires Step(kind, pc, outcome, metadataFree, steamFree) == Some(move)
    ensures Rank(move.pc) < Rank(pc)
  {
  }

  /** A step takes only a free lock, gives back only a lock the job holds, and brings the job closer to its end. */
  lemma StepIsFair(kind: Kind, pc: Pc, outcome: Outcome, metadataFree: bool, steamFree: bool, move: Move)
    requires Step(kind, pc, outcome, metadataFree, steamFree) == Some(move)
    ensures move.metadata == Take ==> metadataFree && !HoldsMetadata(pc)
    ensures move.steam == Take ==> steamFree && !HoldsSteam(pc)
    ensures move.metadata == Give ==> HoldsMetadata(pc)
    ensures move.steam == Give ==> HoldsSteam(pc)
    ensures HoldsMetadata(move.pc) <==> move.metadata == Take || (move.metadata == Keep && HoldsMetadata(pc))
    ensures HoldsSteam(move.pc) <==> move.steam == Take || (move.steam == Keep && HoldsSteam(pc))
    ensures Rank(move.pc) < Rank(pc)
  {
    StepUsesMetadata(kind, pc, outcome, metadataFree, steamFree, move);
    StepUsesSteam(kind, pc, outcome, metadataFree, steamFree, move);
    StepProgresses(kind, pc, outcome, metadataFree, steamFree, move);
  }

  lemma NextKeepsOwned(s: State, j: nat, outcome: Outcome, s': State)
    requires Owned(s) && Next(s, j, outcome) == Some(s')
    ensures Owned(s') && |s'.jobs| == |s.jobs|
  {
    var move := MoveOf(s, j, outcome).value;
    StepIsFair(s.jobs[j].kind, s.jobs[j].pc, outcome, s.metadata.None?, s.steam.None?, move);
    assert s.jobs[j].pc == s.jobs[j].pc;
    forall i {:trigger s'.jobs[i]} | 0 <= i < |s'.jobs|
      ensures HoldsMetadata(s'.jobs[i].pc) <==> s'.metadata == Some(i)
      ensures HoldsSteam(s'.jobs[i].pc) <==> s'.steam == Some(i)
    {
      assert HoldsMetadata(s.jobs[i].pc) <==> s.metadata == Some(i);
      assert HoldsSteam(s.jobs[i].pc) <==> s.steam == Some(i);
    }
  }

  lemma {:induction false} RunKeepsOwned(s: State, schedule: seq<(nat, Outcome)>)
    requires Owned(s) && Run(s, schedule).Some?
    ensures Owned(Run(s, schedule).value) && |Run(s, schedule).value.jobs| == |s.jobs|
    decreases |schedule|
  {
    if schedule != [] {
      var s' := Next(s, schedule[0].0, schedule[0].1).value;
      NextKeepsOwned(s, schedule[0].0, schedule[0].1, s');
      RunKeepsOwned(s', schedule[1..]);
    }
  }

  lemma BeginIsOwned(kinds: seq<Kind>)
    ensures Owned(Begin(kinds))
  {
    forall j {:trigger Begin(kinds).jobs[j]} | 0 <= j < |kinds| ensures Begin(kinds).jobs[j].pc == Start { }
  }

  /* ---------- Safety ---------- */

  /** Never are two jobs enriching at once, nor are two synchronizing with the Steam store. */
  lemma MutualExclusion(kinds: seq<Kind>, schedule: seq<(nat, Outcome)>, i: nat, j: nat)
    requires Run(Begin(kinds), schedule).Some? && i < |kinds| && j < |kinds|
    requires |Run(Begin(kinds), schedule).value.jobs| == |kinds|
    requires var jobs := Run(Begin(kinds), schedule).value.jobs;
      (InMetadata(jobs[i].pc) && InMetadata(jobs[j].pc)) || (InStore(jobs[i].pc) && InStore(jobs[j].pc))
    ensures i == j
  {
    BeginIsOwned(kinds);
    RunKeepsOwned(Begin(kinds), schedule);
    var jobs := Run(Begin(kinds), schedule).value.jobs;
    assert jobs[i] == jobs[i] && jobs[j] == jobs[j];
  }

  /* ---------- One lock at a time ---------- */

  datatype Lock = MetadataLock | SteamLock

  function Owner(s: State, lock: Lock): Option<nat> {
    if lock.MetadataLock? then s.metadata else s.steam
  }

  function UseOf(move: Move, lock: Lock): Use {
    if lock.MetadataLock? then move.metadata else move.steam
  }

  predicate Holds(pc: Pc, lock: Lock) {
    if lock.MetadataLock? then HoldsMetadata(pc) else HoldsSteam(pc)
  }

  lemma StepUses(s: State, i: nat, outcome: Outcome, move: Move, lock: Lock)
    requires i < |s.jobs| && MoveOf(s, i, outcome) == Some(move)
    ensures UseOf(move, lock) == Take ==> Owner(s, lock).None? && !Holds(s.jobs[i].pc, lock)
    ensures UseOf(move, lock) == Give ==> Holds(s.jobs[i].pc, lock)
    ensures Holds(move.pc, lock) <==>
      UseOf(move, lock) == Take || (UseOf(move, lock) == Keep && Holds(s.jobs[i].pc, lock))
  {
    StepIsFair(s.jobs[i].kind, s.jobs[i].pc, outcome, s.metadata.None?, s.steam.None?, move);
  }

  lemma OwnerHolds(s: State, lock: Lock, j: nat)
    requires Owned(s) && j < |s.jobs|
    ensures Holds(s.jobs[j].pc, lock) <==> Owner(s, lock) == Some(j)
    ensures Owner(s, lock).Some? ==> Owner(s, lock).value < |s.jobs|
  {
    assert HoldsMetadata(s.jobs[j].pc) <==> s.metadata == Some(j);
  }

  /** How often a schedule makes a job take or give back a lock. */
  function Uses(s: State, schedule: seq<(nat, Outcome)>, j: nat, lock: Lock, use: Use): nat
    requires Run(s, schedule).Some?
    decreases |schedule|
  {
    if schedule == [] then 0
    else
      var (i, outcome) := schedule[0];
      Uses(Next(s, i, outcome).value, schedule[1..], j, lock, use)
      + if i == j && UseOf(MoveOf(s, i, outcome).value, lock) == use then 1 else 0
  }

  /** A job takes each lock at most once, and every lock it took it has given back once, or still holds. */
  lemma {:induction false} EveryTakingIsGivenBack(s: State, schedule: seq<(nat, Outcome)>, j: nat, lock: Lock)
    requires Owned(s) && Run(s, schedule).Some? && j < |s.jobs|
    requires |Run(s, schedule).value.jobs| == |s.jobs|
    ensures Uses(s, schedule, j, lock, Take) + (if Holds(s.jobs[j].pc, lock) then 1 else 0)
         == Uses(s, schedule, j, lock, Give) + (if Holds(Run(s, schedule).value.jobs[j].pc, lock) then 1 else 0)
    ensures Uses(s, schedule, j, lock, Take) <= (if MayTake(s.jobs[j].pc, lock) then 1 else 0)
    decreases |schedule|
  {
    if schedule != [] {
      var (i, outcome) := schedule[0];
      var s' := Next(s, i, outcome).value;
      NextKeepsOwned(s, i, outcome, s');
      RunKeepsOwned(s', schedule[1..]);
      EveryTakingIsGivenBack(s', schedule[1..], j, lock);
      var move := MoveOf(s, i, outcome).value;
      StepUses(s, i, outcome, move, lock);
      TakesOnce(s.jobs[i].kind, s.jobs[i].pc, outcome, s.metadata.None?, s.steam.None?, move, lock);
    }
  }

  /** The places before a job's one attempt to take the lock. */
  predicate MayTake(pc: Pc, lock: Lock) {
    if lock.MetadataLock? then pc in {Start, Importing, Waiting}
    else pc in {Start, Creating, HandingOver, Queued, Working, AskingSteam}
  }

  lemma TakesOnce(kind: Kind, pc: Pc, outcome: Outcome, metadataFree: bool, steamFree: bool, move: Move, lock: Lock)
    requires Step(kind, pc, outcome, metadataFree, steamFree) == Some(move)
    ensures UseOf(move, lock) == Take ==> MayTake(pc, lock) && !MayTake(move.pc, lock)
    ensures MayTake(move.pc, lock) ==> MayTake(pc, lock)
  {
  }

  /* ---------- Progress ---------- */

  predicate CanStep(s: State, j: nat) {
    j < |s.jobs| && MoveOf(s, j, Works).Some?
  }

  /** Only a waiting job can be stuck, and only while the lock is taken. */
  lemma OnlyWaitingBlocks(s: State, j: nat)
    requires j < |s.jobs|
    ensures CanStep(s, j) <==> !Finished(s.jobs[j].pc) && (s.jobs[j].pc == Waiting ==> s.metadata.None?)
    ensures forall outcome :: Next(s, j, outcome).Some? <==> CanStep(s, j)
  {
  }

  /** Where a job ends that still holds the lock. */
  function LostAt(lock: Lock): Pc {
    if lock.MetadataLock? then Leaked else LeakedSteam
  }

  /** The lock is held by a job that has ended. */
  ghost predicate HasLeak(s: State, lock: Lock) {
    && Owner(s, lock).Some? && Owner(s, lock).value < |s.jobs|
    && s.jobs[Owner(s, lock).value].pc == LostAt(lock)
  }

  /** The job has ended, or waits for a lock that nobody will give back. */
  ghost predicate AtRest(s: State, j: nat) {
    j < |s.jobs| && (Finished(s.jobs[j].pc) || (s.jobs[j].pc == Waiting && HasLeak(s, MetadataLock)))
  }

  /** Nothing can go on exactly when all jobs have ended or wait for a lost lock: there is no other deadlock. */
  lemma StuckIff(s: State)
    requires Owned(s)
    ensures (forall j: nat :: j < |s.jobs| ==> !CanStep(s, j)) <==> (forall j: nat :: j < |s.jobs| ==> AtRest(s, j))
  {
    if s.metadata.Some? && !HasLeak(s, MetadataLock) {
      var i := s.metadata.value;
      assert HoldsMetadata(s.jobs[i].pc);
      assert CanStep(s, i) && !AtRest(s, i);
    } else {
      forall j: nat | j < |s.jobs| ensures CanStep(s, j) <==> !AtRest(s, j) {
        OnlyWaitingBlocks(s, j);
      }
    }
  }

  function TotalRank(jobs: seq<Job>): nat {
    if jobs == [] then 0 else Rank(jobs[0].pc) + TotalRank(jobs[1..])
  }

  lemma {:induction false} RankDrops(jobs: seq<Job>, j: nat, job: Job)
    requires j < |jobs|
    ensures TotalRank(jobs[j := job]) + Rank(jobs[j].pc) == TotalRank(jobs) + Rank(job.pc)
  {
    if j == 0 {
      assert jobs[0 := job][1..] == jobs[1..];
    } else {
      RankDrops(jobs[1..], j - 1, job);
      assert jobs[j := job][1..] == jobs[1..][j - 1 := job];
    }
  }

  lemma {:induction false} RanksAtStart(kinds: seq<Kind>)
    ensures TotalRank(Begin(kinds).jobs) == 13 * |kinds|
  {
    if kinds != [] {
      RanksAtStart(kinds[1..]);
      assert Begin(kinds).jobs[1..] == Begin(kinds[1..]).jobs;
    }
  }

  /** No run goes on for ever: it has at most thirteen steps for each job. */
  lemma RunsEnd(kinds: seq<Kind>, schedule: seq<(nat, Outcome)>)
    requires Run(Begin(kinds), schedule).Some?
    ensures |schedule| <= 13 * |kinds|
  {
    RanksAtStart(kinds);
    RunsAreBounded(Begin(kinds), schedule);
  }

  lemma {:induction false} RunsAreBounded(s: State, schedule: seq<(nat, Outcome)>)
    requires Run(s, schedule).Some?
    ensures |schedule| + TotalRank(Run(s, schedule).value.jobs) <= TotalRank(s.jobs)
    decreases |schedule|
  {
    if schedule != [] {
      var (j, outcome) := schedule[0];
      var s' := Next(s, j, outcome).value;
      var move := MoveOf(s, j, outcome).value;
      StepIsFair(s.jobs[j].kind, s.jobs[j].pc, outcome, s.metadata.None?, s.steam.None?, move);
      RankDrops(s.jobs, j, s'.jobs[j]);
      RunsAreBounded(s', schedule[1..]);
    }
  }

  /* ---------- Leaks ---------- */

  /** The steps that lose a lock: the hand-over fails, or the background job cannot open or close its session. */
  predicate Loses(pc: Pc, outcome: Outcome, lock: Lock) {
    outcome.Raises?
    && if lock.MetadataLock? then pc in {HandingOver, Queued, Closing}
       else pc in {HandingOverSteam, QueuedSteam, ClosingSteam}
  }

  ghost predicate LosesLock(s: State, schedule: seq<(nat, Outcome)>, lock: Lock)
    requires Run(s, schedule).Some?
    decreases |schedule|
  {
    schedule != [] && (
      var (j, outcome) := schedule[0];
      Loses(s.jobs[j].pc, outcome, lock) || LosesLock(Next(s, j, outcome).value, schedule[1..], lock))
  }

  /** A lost lock stays lost; otherwise it is lost exactly by one of these steps. */
  lemma {:induction false} LeakIff(s: State, schedule: seq<(nat, Outcome)>, lock: Lock)
    requires Owned(s) && Run(s, schedule).Some?
    ensures HasLeak(Run(s, schedule).value, lock) <==> HasLeak(s, lock) || LosesLock(s, schedule, lock)
    decreases |schedule|
  {
    if schedule != [] {
      var (j, outcome) := schedule[0];
      var s' := Next(s, j, outcome).value;
      NextKeepsOwned(s, j, outcome, s');
      LeakIff(s', schedule[1..], lock);
      LeakStep(s, j, outcome, s', lock);
    }
  }

  lemma LeakStep(s: State, j: nat, outcome: Outcome, s': State, lock: Lock)
    requires Owned(s) && Next(s, j, outcome) == Some(s') && Owned(s')
    ensures HasLeak(s', lock) <==> HasLeak(s, lock) || Loses(s.jobs[j].pc, outcome, lock)
  {
    var move := MoveOf(s, j, outcome).value;
    StepUses(s, j, outcome, move, lock);
    LostOnlyBy(s.jobs[j].kind, s.jobs[j].pc, outcome, s.metadata.None?, s.steam.None?, move, lock);
    OwnerHolds(s, lock, j);
    OwnerHolds(s', lock, j);
    assert s'.jobs[j].pc == move.pc && Owner(s', lock) == Used(Owner(s, lock), UseOf(move, lock), j);
  }

  lemma LostOnlyBy(kind: Kind, pc: Pc, outcome: Outcome, metadataFree: bool, steamFree: bool, move: Move, lock: Lock)
    requires Step(kind, pc, outcome, metadataFree, steamFree) == Some(move)
    ensures move.pc == LostAt(lock) <==> Loses(pc, outcome, lock)
    ensures pc != LostAt(lock) && Holds(LostAt(lock), lock)
  {
  }

  /**
    * When all jobs have ended, each lock is free, unless one of its hand-overs failed or one of its jobs could not open
    * or close its session.
    */
  lemma LockIsFreeAtTheEnd(kinds: seq<Kind>, schedule: seq<(nat, Outcome)>, lock: Lock)
    requires Run(Begin(kinds), schedule).Some?
    requires forall j {:trigger Run(Begin(kinds), schedule).value.jobs[j]} ::
      0 <= j < |Run(Begin(kinds), schedule).value.jobs| ==> Finished(Run(Begin(kinds), schedule).value.jobs[j].pc)
    ensures Owner(Run(Begin(kinds), schedule).value, lock).Some? <==> LosesLock(Begin(kinds), schedule, lock)
  {
    BeginIsOwned(kinds);
    RunKeepsOwned(Begin(kinds), schedule);
    LeakIff(Begin(kinds), schedule, lock);
    var end := Run(Begin(kinds), schedule).value;
    if Owner(end, lock).Some? {
      var j := Owner(end, lock).value;
      assert j < |end.jobs|;
      OwnerHolds(end, lock, j);
      assert Finished(end.jobs[j].pc);
    }
  }

  /** One lost lock stops every import that waits for it, whatever happens. */
  lemma {:induction false} LeakBlocksForEver(s: State, schedule: seq<(nat, Outcome)>, j: nat)
    requires Owned(s) && HasLeak(s, MetadataLock) && Run(s, schedule).Some? && j < |s.jobs| && s.jobs[j].pc == Waiting
    ensures |Run(s, schedule).value.jobs| == |s.jobs| && Run(s, schedule).value.jobs[j].pc == Waiting
    decreases |schedule|
  {
    if schedule != [] {
      var (i, outcome) := schedule[0];
      var s' := Next(s, i, outcome).value;
      NextKeepsOwned(s, i, outcome, s');
      LeakStep(s, i, outcome, s', MetadataLock);
      OnlyWaitingBlocks(s, j);
      LeakBlocksForEver(s', schedule[1..], j);
    }
  }

  /** It does happen: one request whose hand-over fails, and an import that then waits for ever. */
  lemma LeakingRun()
    ensures Run(Begin([MetadataSync(false), LauncherImport(true)]),
              [(0, Works), (0, Works), (0, Raises), (1, Works), (1, Works)])
         == Some(State(Some(0), None, [Job(MetadataSync(false), Leaked), Job(LauncherImport(true), Waiting)]))
  {
    var a, b := MetadataSync(false), LauncherImport(true);
    var s0 := Begin([a, b]);
    assert s0 == State(None, None, [Job(a, Start), Job(b, Start)]);
    var s1 := State(Some(0), None, [Job(a, Creating), Job(b, Start)]);
    var s2 := State(Some(0), None, [Job(a, HandingOver), Job(b, Start)]);
    var s3 := State(Some(0), None, [Job(a, Leaked), Job(b, Start)]);
    var s4 := State(Some(0), None, [Job(a, Leaked), Job(b, Importing)]);
    var s5 := State(Some(0), None, [Job(a, Leaked), Job(b, Waiting)]);
    assert s0.jobs[0 := s1.jobs[0]] == s1.jobs;
    assert s1.jobs[0 := s2.jobs[0]] == s2.jobs;
    assert s2.jobs[0 := s3.jobs[0]] == s3.jobs;
    assert s3.jobs[1 := s4.jobs[1]] == s4.jobs;
    assert s4.jobs[1 := s5.jobs[1]] == s5.jobs;
    RunFrom(s4, (1, Works), [], s5);
    RunFrom(s3, (1, Works), [(1, Works)], s4);
    RunFrom(s2, (0, Raises), [(1, Works), (1, Works)], s3);
    RunFrom(s1, (0, Works), [(0, Raises), (1, Works), (1, Works)], s2);
    RunFrom(s0, (0, Works), [(0, Works), (0, Raises), (1, Works), (1, Works)], s1);
  }

  lemma RunFrom(s: State, step: (nat, Outcome), rest: seq<(nat, Outcome)>, s': State)
    requires Next(s, step.0, step.1) == Some(s')
    ensures Run(s, [step] + rest) == Run(s', rest)
  {
    assert ([step] + rest)[1..] == rest;
  }
}
