/** What survives any sequence of provider and store merges, and what a repair would still find. */
module MetadataProofs {
  import opened Options
  import opened Genres
  import opened Metadata

  datatype Step = Provider(o: Offer) | StorePage(o: Offer, appId: string, verdict: Verdict)

  function Next(t: Text, row: Row, step: Step): Row {
    match step
    case Provider(o) => Merged(t, row, o)
    case StorePage(o, appId, verdict) => MergedStore(t, row, o, appId, verdict)
  }

  function Run(t: Text, row: Row, steps: seq<Step>): Row
    decreases |steps|
  {
    if steps == [] then row else Run(t, Next(t, row, steps[0]), steps[1..])
  }

  /** The fields that give way to an attributed source. */
  predicate Protected(f: Field) {
    f in FEATURES || f in {MultiplayerKnown, MinPlayers, MaxPlayers, PlayersKnown}
  }

  /* ---------- One merge, column by column ---------- */

  lemma GetAfterPut(values: map<Field, Value>, g: Field, v: Value, f: Field)
    ensures Get(values[g := v], f) == if f == g then v else Get(values, f)
  {
  }

  lemma GetAfterSet(values: map<Field, Value>, attributed: set<Field>, g: Field, v: Value, f: Field)
    ensures Get(SetUnless(values, attributed, g, v), f) == if f == g && g !in attributed then v else Get(values, f)
    ensures f in SetUnless(values, attributed, g, v) <==> f in values || (f == g && g !in attributed)
  {
  }

  predicate IsText(f: Field) {
    f.Description? || f.CoverUrl? || f.ReleaseDate? || f.GenreList?
  }

  /** What the merge puts in a text column. */
  function TextValue(t: Text, values: map<Field, Value>, o: Offer, f: Field): Value
    requires IsText(f)
  {
    match f
    case Description => OrElse(Get(values, Description), Words(o.description))
    case CoverUrl => OrElse(Get(values, CoverUrl), o.cover)
    case ReleaseDate => OrElse(Get(values, ReleaseDate), o.released)
    case GenreList => Names(Sanitized(t, GenresOf(values) + o.genres))
  }

  lemma TextsAt(t: Text, values: map<Field, Value>, o: Offer, f: Field)
    ensures Get(WithTexts(t, values, o), f)
         == if IsText(f) then TextValue(t, values, o, f)
            else if f.IsFree? && o.isFree.Some? then Flag(o.isFree.value)
            else Get(values, f)
    ensures f in WithTexts(t, values, o) <==> f in values || IsText(f) || (f.IsFree? && o.isFree.Some?)
  {
    var described := values[Description := OrElse(Get(values, Description), Words(o.description))];
    var covered := described[CoverUrl := OrElse(Get(values, CoverUrl), o.cover)];
    var dated := covered[ReleaseDate := OrElse(Get(values, ReleaseDate), o.released)];
    var listed := dated[GenreList := Names(Sanitized(t, GenresOf(values) + o.genres))];
    GetAfterPut(values, Description, OrElse(Get(values, Description), Words(o.description)), f);
    GetAfterPut(described, CoverUrl, OrElse(Get(values, CoverUrl), o.cover), f);
    GetAfterPut(covered, ReleaseDate, OrElse(Get(values, ReleaseDate), o.released), f);
    GetAfterPut(dated, GenreList, Names(Sanitized(t, GenresOf(values) + o.genres)), f);
  }

  predicate IsCount(f: Field) {
    f.MinPlayers? || f.MaxPlayers? || f.PlayersKnown?
  }

  function CountValue(o: Offer, f: Field): Value {
    if f.MinPlayers? then Number(MinCount(o)) else if f.MaxPlayers? then Number(MaxCount(o)) else Flag(true)
  }

  predicate Counted(o: Offer, f: Field) {
    (f.MultiplayerKnown? && o.featuresKnown) || (IsCount(f) && o.playersKnown)
  }

  lemma CountsAt(values: map<Field, Value>, o: Offer, attributed: set<Field>, f: Field)
    ensures Get(WithCounts(values, o, attributed), f)
         == if Counted(o, f) && f !in attributed then CountValue(o, f) else Get(values, f)
    ensures f in WithCounts(values, o, attributed) <==> f in values || (Counted(o, f) && f !in attributed)
  {
    var known := if o.featuresKnown then SetUnless(values, attributed, MultiplayerKnown, Flag(true)) else values;
    GetAfterSet(values, attributed, MultiplayerKnown, Flag(true), f);
    if o.playersKnown {
      var min := SetUnless(known, attributed, MinPlayers, Number(MinCount(o)));
      var max := SetUnless(min, attributed, MaxPlayers, Number(MaxCount(o)));
      GetAfterSet(known, attributed, MinPlayers, Number(MinCount(o)), f);
      GetAfterSet(min, attributed, MaxPlayers, Number(MaxCount(o)), f);
      GetAfterSet(max, attributed, PlayersKnown, Flag(true), f);
    }
  }

  function FlagValue(values: map<Field, Value>, o: Offer, f: Field): Value {
    Flag((!o.featuresKnown && Truthy(Get(values, f))) || f in o.features)
  }

  lemma FlagsAt(before: map<Field, Value>, values: map<Field, Value>, o: Offer, fields: set<Field>, f: Field)
    ensures Get(before + FlagUpdates(values, o, fields), f) == if f in fields then FlagValue(values, o, f)
      else Get(before, f)
    ensures f in before + FlagUpdates(values, o, fields) <==> f in before || f in fields
  {
  }

  /** The value of a column after a merge, and whether the merge writes it at all. */
  function MergedValue(t: Text, row: Row, o: Offer, f: Field): Value {
    if IsText(f) then TextValue(t, row.values, o, f)
    else if f.IsFree? && o.isFree.Some? then Flag(o.isFree.value)
    else if f in row.sources then Get(row.values, f)
    else if f in FEATURES then FlagValue(row.values, o, f)
    else if Counted(o, f) then CountValue(o, f)
    else Get(row.values, f)
  }

  predicate Written(row: Row, o: Offer, f: Field) {
    || IsText(f) || (f.IsFree? && o.isFree.Some?)
    || (f !in row.sources && (f in FEATURES || Counted(o, f)))
  }

  lemma FeatureIsFlag(f: Field, o: Offer)
    ensures f in FEATURES ==> !IsText(f) && !f.IsFree? && !Counted(o, f)
  {
  }

  lemma MergedAt(t: Text, row: Row, o: Offer, f: Field)
    ensures Get(Merged(t, row, o).values, f) == MergedValue(t, row, o, f)
    ensures f in Merged(t, row, o).values <==> f in row.values || Written(row, o, f)
    ensures !Written(row, o, f) ==> MergedValue(t, row, o, f) == Get(row.values, f)
  {
    var attributed := row.sources.Keys;
    var texts := WithTexts(t, row.values, o);
    var flags := texts + FlagUpdates(row.values, o, FEATURES - attributed);
    TextsAt(t, row.values, o, f);
    FlagsAt(texts, row.values, o, FEATURES - attributed, f);
    CountsAt(flags, o, attributed, f);
    FeatureIsFlag(f, o);
  }

  /* ---------- Attributed fields ---------- */

  lemma ProtectedIsNoText(f: Field)
    requires Protected(f)
    ensures !IsText(f) && !f.IsFree? && !f.IsGame? && !f.NonGameReason?
  {
  }

  lemma MergeKeepsAttributed(t: Text, row: Row, o: Offer, f: Field)
    requires Protected(f) && f in row.sources
    ensures Get(Merged(t, row, o).values, f) == Get(row.values, f)
  {
    ProtectedIsNoText(f);
    MergedAt(t, row, o, f);
  }

  lemma MarkedAt(row: Row, appId: string, verdict: Verdict, f: Field)
    requires !f.IsFree? && !f.IsGame? && !f.NonGameReason?
    ensures Get(Marked(row, appId, verdict).values, f) == Get(row.values, f)
    ensures f in Marked(row, appId, verdict).sources <==> f in row.sources
  {
  }

  /** A store page leaves the protected columns and their attributions to the merge. */
  lemma StoreMarks(t: Text, row: Row, o: Offer, appId: string, verdict: Verdict, f: Field)
    requires Protected(f)
    ensures Get(MergedStore(t, row, o, appId, verdict).values, f) == Get(Merged(t, row, o).values, f)
    ensures f in MergedStore(t, row, o, appId, verdict).sources <==> f in row.sources
  {
    ProtectedIsNoText(f);
    MarkedAt(Merged(t, row, o), appId, verdict, f);
  }

  /** Whatever libraries and store pages report later, an attributed feature or player count stays as it is. */
  lemma {:induction false} AttributedStays(t: Text, row: Row, steps: seq<Step>, f: Field)
    requires Protected(f) && f in row.sources
    ensures Get(Run(t, row, steps).values, f) == Get(row.values, f) && f in Run(t, row, steps).sources
    decreases |steps|
  {
    if steps != [] {
      StepKeepsAttributed(t, row, steps[0], f);
      AttributedStays(t, Next(t, row, steps[0]), steps[1..], f);
    }
  }

  lemma StepKeepsAttributed(t: Text, row: Row, step: Step, f: Field)
    requires Protected(f) && f in row.sources
    ensures Get(Next(t, row, step).values, f) == Get(row.values, f) && f in Next(t, row, step).sources
  {
    MergeKeepsAttributed(t, row, step.o, f);
    if step.StorePage? { StoreMarks(t, row, step.o, step.appId, step.verdict, f); }
  }

  /** So a metadata record's features and player counts outlive every later import. */
  lemma AppliedSurvives(t: Text, row: Row, r: Record, steps: seq<Step>, f: Field)
    requires WellFormed(r) && Protected(f) && f in r.known
    ensures Get(Run(t, Applied(t, row, r), steps).values, f) == Get(r.values, f)
  {
    var applied := Applied(t, row, r);
    assert f in applied.sources && Get(applied.values, f) == Get(r.values, f);
    AttributedStays(t, applied, steps, f);
  }

  /* ---------- Fields nobody has authority over ---------- */

  /** A flag is on if some report has it and no complete report came after, or if it was on and none came at all. */
  ghost predicate On(initial: bool, steps: seq<Step>, f: Field) {
    (initial && NoneFrom(steps, 0)) || exists i :: 0 <= i < |steps| && Reports(steps, i, f)
  }

  predicate Reports(steps: seq<Step>, i: nat, f: Field)
    requires i < |steps|
  {
    f in steps[i].o.features && NoneFrom(steps, i + 1)
  }

  /** No report from the one at `i` on claims to be complete. */
  predicate NoneFrom(steps: seq<Step>, i: nat) {
    forall j :: i <= j < |steps| ==> !steps[j].o.featuresKnown
  }

  lemma FlagAfterStep(t: Text, row: Row, step: Step, f: Field)
    requires f in FEATURES && f !in row.sources
    ensures Truthy(Get(Next(t, row, step).values, f)) <==>
      (!step.o.featuresKnown && Truthy(Get(row.values, f))) || f in step.o.features
    ensures f !in Next(t, row, step).sources
  {
    FeatureIsFlag(f, step.o);
    MergedAt(t, row, step.o, f);
    if step.StorePage? { StoreMarks(t, row, step.o, step.appId, step.verdict, f); }
  }

  lemma {:induction false} UnattributedFlag(t: Text, row: Row, steps: seq<Step>, f: Field)
    requires f in FEATURES && f !in row.sources
    ensures Truthy(Get(Run(t, row, steps).values, f)) <==> On(Truthy(Get(row.values, f)), steps, f)
    decreases |steps|
  {
    if steps != [] {
      var next := Next(t, row, steps[0]);
      FlagAfterStep(t, row, steps[0], f);
      UnattributedFlag(t, next, steps[1..], f);
      OnStep(Truthy(Get(row.values, f)), steps, f);
    }
  }

  lemma OnStep(initial: bool, steps: seq<Step>, f: Field)
    requires steps != []
    ensures On(initial, steps, f) <==>
      On((!steps[0].o.featuresKnown && initial) || f in steps[0].o.features, steps[1..], f)
  {
    hide NoneFrom;
    var rest := steps[1..];
    forall i: nat | i < |rest| ensures Reports(rest, i, f) == Reports(steps, i + 1, f) {
      NoneShifts(steps, i + 1);
    }
    NoneShifts(steps, 0);
    assert Reports(steps, 0, f) == (f in steps[0].o.features && NoneFrom(rest, 0));
    assert NoneFrom(steps, 0) == (!steps[0].o.featuresKnown && NoneFrom(rest, 0)) by { NoneHere(steps); }
    if exists i :: 1 <= i < |steps| && Reports(steps, i, f) {
      var i :| 1 <= i < |steps| && Reports(steps, i, f);
      assert Reports(rest, i - 1, f);
    }
  }

  lemma NoneShifts(steps: seq<Step>, i: nat)
    requires steps != []
    ensures NoneFrom(steps[1..], i) == NoneFrom(steps, i + 1)
  {
    assert forall j :: i <= j < |steps[1..]| ==> steps[1..][j] == steps[j + 1];
    assert forall j :: i + 1 <= j < |steps| ==> steps[j] == steps[1..][j - 1];
  }

  lemma NoneHere(steps: seq<Step>)
    requires steps != []
    ensures NoneFrom(steps, 0) == (!steps[0].o.featuresKnown && NoneFrom(steps, 1))
    ensures NoneFrom(steps[1..], 0) == NoneFrom(steps, 1)
  {
    NoneShifts(steps, 0);
  }

  /**
    * A record that knows the player modes switches a mode off that it does not report. The mode stays off whatever is
    * imported later if another source had authority over it; otherwise later reports decide as if it had been off.
    */
  lemma UnreportedModes(t: Text, row: Row, r: Record, steps: seq<Step>, f: Field)
    requires WellFormed(r) && Truthy(Get(r.values, MultiplayerKnown)) && f in UNSUPPORTED && f !in r.known
    ensures Truthy(Get(Run(t, Applied(t, row, r), steps).values, f)) <==> f !in row.sources && On(false, steps, f)
  {
    var applied := Applied(t, row, r);
    assert f in ResetFlags(r) && !Truthy(Get(applied.values, f));
    if f in row.sources {
      AttributedStays(t, applied, steps, f);
    } else {
      UnattributedFlag(t, applied, steps, f);
    }
  }

  /** A record that knows the player modes but not `shared_screen`, and a Steam report that has it. */
  const MODES_RECORD :=
    SetField(Record(map[], {}, map[], Some("igdb"), Some("1")), MultiplayerKnown, Flag(true), "igdb")
  const SCREEN_REPORT := Offer("", Missing, Missing, [], None, {Multiplayer, SharedScreen}, true, None, None, false)

  /** Whatever the game was before: the record switches the mode off, and the next report switches it on again. */
  lemma ModeReturns(t: Text, row: Row)
    requires SharedScreen !in row.sources
    ensures WellFormed(MODES_RECORD) && SharedScreen !in MODES_RECORD.known
    ensures !Truthy(Get(Applied(t, row, MODES_RECORD).values, SharedScreen))
    ensures Truthy(Get(Run(t, Applied(t, row, MODES_RECORD), [Provider(SCREEN_REPORT)]).values, SharedScreen))
  {
    UnreportedModes(t, row, MODES_RECORD, [], SharedScreen);
    var steps := [Provider(SCREEN_REPORT)];
    UnreportedModes(t, row, MODES_RECORD, steps, SharedScreen);
    assert Reports(steps, 0, SharedScreen);
  }

  /** The last report that counts players. */
  function LastCounts(steps: seq<Step>): Option<Offer>
    decreases |steps|
  {
    if steps == [] then None
    else if steps[|steps| - 1].o.playersKnown then Some(steps[|steps| - 1].o)
    else LastCounts(steps[..|steps| - 1])
  }

  lemma {:induction false} RunSplits(t: Text, row: Row, steps: seq<Step>)
    requires steps != []
    ensures Run(t, row, steps) == Next(t, Run(t, row, steps[..|steps| - 1]), steps[|steps| - 1])
    decreases |steps|
  {
    if |steps| > 1 {
      RunSplits(t, Next(t, row, steps[0]), steps[1..]);
      assert steps[1..][..|steps| - 2] == steps[..|steps| - 1][1..];
    }
  }

  /** The reported bounds, raised so that at least one player plays and the bounds are in order. */
  predicate InOrder(o: Offer, min: int, max: int) {
    && 1 <= min <= max && (o.minPlayers.Some? && o.minPlayers.value >= 1 ==> min == o.minPlayers.value)
    && (o.minPlayers.None? || o.minPlayers.value < 1 ==> min == 1)
    && (o.maxPlayers.Some? && o.maxPlayers.value >= min ==> max == o.maxPlayers.value)
    && (o.maxPlayers.None? || o.maxPlayers.value < min ==> max == min)
  }

  /** Without an authority, the last report that counts players decides, and its bounds are in order. */
  lemma {:induction false} UnattributedCounts(t: Text, row: Row, steps: seq<Step>)
    requires MinPlayers !in row.sources && MaxPlayers !in row.sources
    ensures var end := Run(t, row, steps);
      if LastCounts(steps).None? then
        Get(end.values, MinPlayers) == Get(row.values, MinPlayers)
          && Get(end.values, MaxPlayers) == Get(row.values, MaxPlayers)
      else
        && Get(end.values, MinPlayers) == Number(MinCount(LastCounts(steps).value))
        && Get(end.values, MaxPlayers) == Number(MaxCount(LastCounts(steps).value))
        && InOrder(LastCounts(steps).value, MinCount(LastCounts(steps).value), MaxCount(LastCounts(steps).value))
    ensures MinPlayers !in Run(t, row, steps).sources && MaxPlayers !in Run(t, row, steps).sources
    decreases |steps|
  {
    if steps != [] {
      var last := |steps| - 1;
      var before := Run(t, row, steps[..last]);
      UnattributedCounts(t, row, steps[..last]);
      RunSplits(t, row, steps);
      CountsAfterStep(t, before, steps[last]);
    }
  }

  lemma CountsAfterStep(t: Text, row: Row, step: Step)
    requires MinPlayers !in row.sources && MaxPlayers !in row.sources
    ensures var next := Next(t, row, step);
      && MinPlayers !in next.sources && MaxPlayers !in next.sources
      && Get(next.values, MinPlayers) ==
        (if step.o.playersKnown then Number(MinCount(step.o)) else Get(row.values, MinPlayers))
      && Get(next.values, MaxPlayers) ==
        (if step.o.playersKnown then Number(MaxCount(step.o)) else Get(row.values, MaxPlayers))
  {
    MergedAt(t, row, step.o, MinPlayers);
    MergedAt(t, row, step.o, MaxPlayers);
    if step.StorePage? {
      StoreMarks(t, row, step.o, step.appId, step.verdict, MinPlayers);
      StoreMarks(t, row, step.o, step.appId, step.verdict, MaxPlayers);
    }
  }

  /* ---------- Idempotence and repair ---------- */

  /** Merging the same report again changes nothing. */
  lemma MergeTwice(t: Text, row: Row, o: Offer)
    ensures Merged(t, Merged(t, row, o), o) == Merged(t, row, o)
  {
    var once := Merged(t, row, o);
    var twice := Merged(t, once, o);
    forall f ensures f in twice.values <==> f in once.values {
      MergedAt(t, row, o, f);
      MergedAt(t, once, o, f);
    }
    forall f | f in once.values ensures twice.values[f] == once.values[f] { MergeAgainAt(t, row, o, f); }
    assert twice.values == once.values;
  }

  lemma MergeAgainAt(t: Text, row: Row, o: Offer, f: Field)
    ensures Get(Merged(t, Merged(t, row, o), o).values, f) == Get(Merged(t, row, o).values, f)
  {
    var once := Merged(t, row, o);
    MergedAt(t, row, o, f);
    MergedAt(t, once, o, f);
    if f.GenreList? { SanitizeAgain(t, GenresOf(row.values), o.genres); }
  }

  /** The first question of the repair check: are the genres as sanitizing would leave them? */
  predicate GenresNeedRepair(t: Text, row: Row) {
    Sanitized(t, GenresOf(row.values)) != GenresOf(row.values)
  }

  /** After any merge or record that touched them, genres never need repair again. */
  lemma {:induction false} GenresStayRepaired(t: Text, row: Row, steps: seq<Step>)
    ensures steps != [] || !GenresNeedRepair(t, row) ==> !GenresNeedRepair(t, Run(t, row, steps))
    decreases |steps|
  {
    if steps != [] {
      StepRepairs(t, row, steps[0]);
      GenresStayRepaired(t, Next(t, row, steps[0]), steps[1..]);
    }
  }

  lemma StepRepairs(t: Text, row: Row, step: Step)
    ensures !GenresNeedRepair(t, Next(t, row, step))
  {
    MergedAt(t, row, step.o, GenreList);
    SanitizeTwice(t, GenresOf(row.values) + step.o.genres);
    if step.StorePage? { MarkedAt(Merged(t, row, step.o), step.appId, step.verdict, GenreList); }
  }

  lemma AppliedGenresAreRepaired(t: Text, row: Row, r: Record)
    requires GenreList in r.known
    ensures !GenresNeedRepair(t, Applied(t, row, r))
  {
    SanitizeTwice(t, GenresOf(r.values));
  }
}
