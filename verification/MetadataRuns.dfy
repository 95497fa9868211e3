/** What sequences of library imports and store pages make of texts, genres, availability and the verdict on a game. */
module MetadataRuns {
  import opened Options
  import opened Genres
  import opened Metadata
  import opened MetadataProofs

  lemma RunNone(t: Text, row: Row)
    ensures Run(t, row, []) == row
  {
  }

  /* ---------- Texts: the first one stays ---------- */

  predicate Blank(v: Value) {
    v in {Missing, Flag(false), Number(0), Words(""), Names([])}
  }

  lemma BlankIff(v: Value)
    ensures Blank(v) <==> !Truthy(v)
  {
  }

  /** The first of the values there are, or the default. */
  ghost predicate First(told: seq<Option<Value>>, default: Value, result: Value) {
    && ((forall i :: 0 <= i < |told| ==> told[i].None?) ==> result == default)
    && forall i :: 0 <= i < |told| && told[i].Some? && (forall j :: 0 <= j < i ==> told[j].None?) ==>
         result == told[i].value
  }

  ghost predicate Last(told: seq<Option<Value>>, default: Value, result: Value) {
    && ((forall i :: 0 <= i < |told| ==> told[i].None?) ==> result == default)
    && forall i :: 0 <= i < |told| && told[i].Some? && (forall j :: i < j < |told| ==> told[j].None?) ==>
         result == told[i].value
  }

  lemma {:induction false} FirstUnfolds(told: seq<Option<Value>>, default: Value, result: Value)
    requires told != []
    ensures First(told, default, result) <==>
      if told[0].Some? then result == told[0].value else First(told[1..], default, result)
  {
    var rest := told[1..];
    assert forall i {:trigger told[i]} :: 0 < i < |told| ==> told[i] == rest[i - 1];
    assert forall i {:trigger rest[i]} :: 0 <= i < |rest| ==> rest[i] == told[i + 1];
  }

  lemma LastStep(told: seq<Option<Value>>, last: Option<Value>, default: Value, result: Value)
    requires Last(told, default, result)
    ensures Last(told + [last], default, if last.Some? then last.value else result)
  {
    var all := told + [last];
    assert all[|told|] == last && forall i :: 0 <= i < |told| ==> all[i] == told[i];
  }

  /** What the reports have to offer for a text column. */
  function Offered(steps: seq<Step>, f: Field): (told: seq<Option<Value>>)
    ensures |told| == |steps| && forall i :: 0 <= i < |steps| ==> told[i] == OfferedBy(steps[i].o, f)
  {
    seq(|steps|, i requires 0 <= i < |steps| => OfferedBy(steps[i].o, f))
  }

  function OfferedBy(o: Offer, f: Field): Option<Value> {
    var v := if f.Description? then Words(o.description) else if f.CoverUrl? then o.cover else o.released;
    if Blank(v) then None else Some(v)
  }

  lemma TextAfterStep(t: Text, row: Row, step: Step, f: Field)
    requires f in {Description, CoverUrl, ReleaseDate}
    ensures var before, after := Get(row.values, f), Get(Next(t, row, step).values, f);
      && (!Blank(before) ==> after == before)
      && (Blank(before) ==> if OfferedBy(step.o, f).Some? then after == OfferedBy(step.o, f).value else Blank(after))
  {
    MergedAt(t, row, step.o, f);
    BlankIff(Get(row.values, f));
    if step.StorePage? { MarkedAt(Merged(t, row, step.o), step.appId, step.verdict, f); }
  }

  /** A text that is there stays; otherwise the first report that has one fills it in. */
  lemma {:induction false} FirstTextWins(t: Text, row: Row, steps: seq<Step>, f: Field)
    requires f in {Description, CoverUrl, ReleaseDate}
    ensures var before, after := Get(row.values, f), Get(Run(t, row, steps).values, f);
      && (!Blank(before) ==> after == before)
      && (Blank(before) ==> exists default :: Blank(default) && First(Offered(steps, f), default, after))
    decreases |steps|
  {
    hide Next, Blank, First, OfferedBy;
    var before, after := Get(row.values, f), Get(Run(t, row, steps).values, f);
    if steps == [] {
      NothingTold(Offered(steps, f), before);
    } else {
      var next := Next(t, row, steps[0]);
      TextAfterStep(t, row, steps[0], f);
      FirstTextWins(t, next, steps[1..], f);
      if Blank(before) {
        assert Offered(steps, f)[1..] == Offered(steps[1..], f);
        forall default ensures First(Offered(steps, f), default, after) <==>
          if Offered(steps, f)[0].Some? then after == Offered(steps, f)[0].value
          else First(Offered(steps[1..], f), default, after)
        {
          FirstUnfolds(Offered(steps, f), default, after);
        }
        OfferedIsNotBlank(steps[0].o, f);
        assert OfferedBy(steps[0].o, f).Some? ==> First(Offered(steps, f), before, after);
      }
    }
  }

  lemma OfferedIsNotBlank(o: Offer, f: Field)
    ensures OfferedBy(o, f).Some? ==> !Blank(OfferedBy(o, f).value)
  {
  }

  /* ---------- Availability: the last report that tells ---------- */

  function ToldFree(steps: seq<Step>): (told: seq<Option<Value>>)
    ensures |told| == |steps| && forall i :: 0 <= i < |steps| ==> told[i] == FreeBy(steps[i].o)
  {
    seq(|steps|, i requires 0 <= i < |steps| => FreeBy(steps[i].o))
  }

  function FreeBy(o: Offer): Option<Value> {
    if o.isFree.Some? then Some(Flag(o.isFree.value)) else None
  }

  lemma FreeAfterStep(t: Text, row: Row, step: Step)
    ensures Get(Next(t, row, step).values, IsFree)
         == if FreeBy(step.o).Some? then FreeBy(step.o).value else Get(row.values, IsFree)
  {
    hide Merged;
    MergedAt(t, row, step.o, IsFree);
  }

  lemma NothingTold(told: seq<Option<Value>>, before: Value)
    requires told == []
    ensures First(told, before, before) && Last(told, before, before)
  {
  }

  /** Availability is what the last report that tells it says. */
  lemma {:induction false} LastAvailabilityWins(t: Text, row: Row, steps: seq<Step>)
    ensures Last(ToldFree(steps), Get(row.values, IsFree), Get(Run(t, row, steps).values, IsFree))
    decreases |steps|
  {
    hide Run, Next, Last, FreeBy;
    if steps == [] {
      RunNone(t, row);
      NothingTold(ToldFree(steps), Get(row.values, IsFree));
    } else {
      var earlier, step := steps[..|steps| - 1], steps[|steps| - 1];
      var mid := Run(t, row, earlier);
      LastAvailabilityWins(t, row, earlier);
      RunSplits(t, row, steps);
      FreeAfterStep(t, mid, step);
      LastStep(ToldFree(earlier), FreeBy(step.o), Get(row.values, IsFree), Get(mid.values, IsFree));
      assert ToldFree(steps) == ToldFree(earlier) + [FreeBy(step.o)];
    }
  }

  /* ---------- Genres: nothing is lost ---------- */

  /** Some value names the genre of that folded name. */
  ghost predicate Listed(t: Text, values: seq<string>, name: seq<int>) {
    exists k :: 0 <= k < |values| && t.plausible(Strip(t, values[k])) && t.fold(Strip(t, values[k])) == name
  }

  lemma ListedInBoth(t: Text, a: seq<string>, b: seq<string>, name: seq<int>)
    ensures Listed(t, a + b, name) <==> Listed(t, a, name) || Listed(t, b, name)
  {
    hide Strip;
    assert forall k :: 0 <= k < |a| ==> (a + b)[k] == a[k];
    forall k | 0 <= k < |b| ensures (a + b)[|a| + k] == b[k] { }
  }

  lemma SanitizedLists(t: Text, values: seq<string>, name: seq<int>)
    ensures Listed(t, Sanitized(t, values), name) <==> Listed(t, values, name)
  {
    hide Sanitized, Strip;
    var clean := Sanitized(t, values);
    SanitizedIffClean(t, values);
    if k :| 0 <= k < |values| && t.plausible(Strip(t, values[k])) && t.fold(Strip(t, values[k])) == name {
      SpellingIsKept(t, values, k);
    }
    if k :| 0 <= k < |clean| && t.plausible(Strip(t, clean[k])) && t.fold(Strip(t, clean[k])) == name {
      SanitizedHas(t, values, clean[k]);
      var i :| 0 <= i < |values| && FirstSpelling(t, values, i) && Strip(t, values[i]) == clean[k];
    }
  }

  /** A plausible value is kept in its first spelling. */
  lemma SpellingIsKept(t: Text, values: seq<string>, k: nat)
    requires k < |values| && t.plausible(Strip(t, values[k]))
    ensures Listed(t, Sanitized(t, values), t.fold(Strip(t, values[k])))
  {
    hide Sanitized, Strip;
    var name := t.fold(Strip(t, values[k]));
    var i := 0;
    while !(t.plausible(Strip(t, values[i])) && t.fold(Strip(t, values[i])) == name)
      invariant 0 <= i <= k
      invariant forall j :: 0 <= j < i ==> !(t.plausible(Strip(t, values[j])) && t.fold(Strip(t, values[j])) == name)
      decreases k - i
    {
      i := i + 1;
    }
    assert FirstSpelling(t, values, i);
    SanitizedHas(t, values, Strip(t, values[i]));
    SanitizedIffClean(t, values);
  }

  /** Over any run a genre is listed exactly when it was or some report named it. */
  lemma {:induction false} GenresAccumulate(t: Text, row: Row, steps: seq<Step>, name: seq<int>)
    ensures Listed(t, GenresOf(Run(t, row, steps).values), name) <==>
      Listed(t, GenresOf(row.values), name) || exists i :: 0 <= i < |steps| && Listed(t, steps[i].o.genres, name)
    decreases |steps|
  {
    hide Run, Listed, Merged, Sanitized;
    if steps == [] {
      RunNone(t, row);
    } else {
      var n := |steps| - 1;
      var earlier, step := steps[..n], steps[n];
      var mid := Run(t, row, earlier);
      GenresAccumulate(t, row, earlier, name);
      RunSplits(t, row, steps);
      MergedAt(t, mid, step.o, GenreList);
      if step.StorePage? { MarkedAt(Merged(t, mid, step.o), step.appId, step.verdict, GenreList); }
      SanitizedLists(t, GenresOf(mid.values) + step.o.genres, name);
      ListedInBoth(t, GenresOf(mid.values), step.o.genres, name);
      assert forall i :: 0 <= i < n ==> steps[i] == earlier[i];
    }
  }

  /* ---------- The verdict: is it a game? ---------- */

  /** Another source than classification and the store has said whether this is a game, or none has. */
  predicate OthersDecide(sources: map<Field, string>) {
    IsGame !in sources || (sources[IsGame] != "classification" && sources[IsGame] != "steam_store")
  }

  predicate IsPage(steps: seq<Step>, i: int) {
    0 <= i < |steps| && steps[i].StorePage?
  }

  predicate Rejects(steps: seq<Step>, i: int) {
    IsPage(steps, i) && steps[i].verdict.NoGame?
  }

  /** What a run makes of the verdict, its reason and its source. */
  ghost predicate Judged(before: Row, steps: seq<Step>, after: Row) {
    && ((forall i :: !Rejects(steps, i)) && (OthersDecide(before.sources) || forall i :: !IsPage(steps, i)) ==>
          && Get(after.values, IsGame) == Get(before.values, IsGame)
          && Get(after.values, NonGameReason) == Get(before.values, NonGameReason)
          && (OthersDecide(after.sources) <==> OthersDecide(before.sources)))
    && forall i :: IsPage(steps, i) && (forall j :: i < j ==> !IsPage(steps, j)) ==>
         && (steps[i].verdict.NoGame? ==>
               && Get(after.values, IsGame) == Flag(false)
               && Get(after.values, NonGameReason) == Words(steps[i].verdict.reason)
               && !OthersDecide(after.sources))
         && (steps[i].verdict.Undecided? && (!OthersDecide(before.sources) || exists j :: Rejects(steps, j)) ==>
               && Get(after.values, IsGame) == Flag(true) && Get(after.values, NonGameReason) == Missing
               && !OthersDecide(after.sources))
  }

  /** One step, column by column. */
  ghost predicate JudgedOnce(before: Row, step: Step, after: Row) {
    if step.StorePage? && step.verdict.NoGame? then
      && Get(after.values, IsGame) == Flag(false) && Get(after.values, NonGameReason) == Words(step.verdict.reason)
      && !OthersDecide(after.sources)
    else if step.StorePage? && !OthersDecide(before.sources) then
      && Get(after.values, IsGame) == Flag(true) && Get(after.values, NonGameReason) == Missing
      && !OthersDecide(after.sources)
    else
      && Get(after.values, IsGame) == Get(before.values, IsGame)
      && Get(after.values, NonGameReason) == Get(before.values, NonGameReason)
      && (OthersDecide(after.sources) <==> OthersDecide(before.sources))
  }

  lemma StepJudges(t: Text, row: Row, step: Step)
    ensures JudgedOnce(row, step, Next(t, row, step))
  {
    hide Merged;
    MergedAt(t, row, step.o, IsGame);
    MergedAt(t, row, step.o, NonGameReason);
    assert Merged(t, row, step.o).sources == row.sources by { MergeKeepsSources(t, row, step.o); }
  }

  lemma MergeKeepsSources(t: Text, row: Row, o: Offer)
    ensures Merged(t, row, o).sources == row.sources && Merged(t, row, o).source == row.source
    ensures Merged(t, row, o).externalId == row.externalId
  {
  }

  lemma JudgedStep(before: Row, earlier: seq<Step>, step: Step, mid: Row, after: Row)
    requires Judged(before, earlier, mid) && JudgedOnce(mid, step, after)
    ensures Judged(before, earlier + [step], after)
  {
    hide OthersDecide, Get;
    var steps, n := earlier + [step], |earlier|;
    assert forall i :: i != n ==> (IsPage(steps, i) <==> IsPage(earlier, i));
    assert forall i :: i != n ==> (Rejects(steps, i) <==> Rejects(earlier, i));
    assert IsPage(steps, n) <==> step.StorePage?;
    assert Rejects(steps, n) <==> step.StorePage? && step.verdict.NoGame?;
    LastPage(earlier);
  }

  lemma LastPage(steps: seq<Step>)
    ensures (forall i :: !IsPage(steps, i)) || exists i :: IsPage(steps, i) && forall j :: i < j ==> !IsPage(steps, j)
  {
    var i := |steps| - 1;
    while i >= 0 && !IsPage(steps, i)
      invariant -1 <= i < |steps| && forall j :: i < j ==> !IsPage(steps, j)
    {
      i := i - 1;
    }
  }

  lemma NothingJudged(row: Row)
    ensures Judged(row, [], row)
  {
  }

  /**
    * The last store page decides: it turns the row into no game, or back into a game if a store page or the
    * classification had turned it. Where another source decides, pages without a verdict change nothing.
    */
  lemma {:induction false} LastVerdictWins(t: Text, row: Row, steps: seq<Step>)
    ensures Judged(row, steps, Run(t, row, steps))
    decreases |steps|
  {
    hide Run, Next, Judged, JudgedOnce;
    if steps == [] {
      RunNone(t, row);
      NothingJudged(row);
    } else {
      var earlier, step := steps[..|steps| - 1], steps[|steps| - 1];
      var mid := Run(t, row, earlier);
      LastVerdictWins(t, row, earlier);
      RunSplits(t, row, steps);
      StepJudges(t, mid, step);
      JudgedStep(row, earlier, step, mid, Next(t, mid, step));
      assert steps == earlier + [step];
    }
  }

  /* ---------- Where the metadata come from ---------- */

  predicate NoSource(row: Row) {
    row.source.None? || row.source.value == ""
  }

  /** The row's source stays; without one the first store page becomes it. Availability is attributed to any page. */
  ghost predicate Named(before: Row, steps: seq<Step>, after: Row) {
    && (!NoSource(before) || (forall i :: !IsPage(steps, i)) ==>
          after.source == before.source && after.externalId == before.externalId)
    && (NoSource(before) ==>
          forall i :: IsPage(steps, i) && (forall j :: j < i ==> !IsPage(steps, j)) ==>
            after.source == Some("steam_store") && after.externalId == Some(steps[i].appId))
    && ((exists i :: IsPage(steps, i)) ==> IsFree in after.sources && after.sources[IsFree] == "steam_store")
  }

  lemma SourceAfterStep(t: Text, row: Row, step: Step)
    ensures var next := Next(t, row, step);
      if step.StorePage? then
        && IsFree in next.sources && next.sources[IsFree] == "steam_store"
        && next.source == (if NoSource(row) then Some("steam_store") else row.source)
        && next.externalId == (if NoSource(row) then Some(step.appId) else row.externalId)
      else next.sources == row.sources && next.source == row.source && next.externalId == row.externalId
  {
    hide Merged;
    MergeKeepsSources(t, row, step.o);
  }

  lemma NamedStep(t: Text, before: Row, earlier: seq<Step>, step: Step, mid: Row)
    requires Named(before, earlier, mid)
    ensures Named(before, earlier + [step], Next(t, mid, step))
  {
    hide Next;
    SourceAfterStep(t, mid, step);
    var steps, n := earlier + [step], |earlier|;
    assert forall i :: i != n ==> (IsPage(steps, i) <==> IsPage(earlier, i));
    assert IsPage(steps, n) <==> step.StorePage?;
    FirstPage(earlier);
  }

  lemma FirstPage(steps: seq<Step>)
    ensures (forall i :: !IsPage(steps, i)) || exists i :: IsPage(steps, i) && forall j :: j < i ==> !IsPage(steps, j)
  {
    var i := 0;
    while i < |steps| && !IsPage(steps, i)
      invariant 0 <= i <= |steps| && forall j :: j < i ==> !IsPage(steps, j)
    {
      i := i + 1;
    }
  }

  lemma NothingNamed(row: Row)
    ensures Named(row, [], row)
  {
  }

  lemma {:induction false} FirstPageNames(t: Text, row: Row, steps: seq<Step>)
    ensures Named(row, steps, Run(t, row, steps))
    decreases |steps|
  {
    hide Run, Next, Named;
    if steps == [] {
      RunNone(t, row);
      NothingNamed(row);
    } else {
      var earlier, step := steps[..|steps| - 1], steps[|steps| - 1];
      FirstPageNames(t, row, earlier);
      RunSplits(t, row, steps);
      NamedStep(t, row, earlier, step, Run(t, row, earlier));
      assert steps == earlier + [step];
    }
  }

  /* ---------- Applying a record ---------- */

  /** A record's known columns are taken over, modes it might have reported are reset, and nothing else changes. */
  lemma AppliedColumns(t: Text, row: Row, r: Record, f: Field)
    ensures var after := Applied(t, row, r);
      && (f in r.known && !f.GenreList? ==> Get(after.values, f) == Get(r.values, f))
      && (f !in r.known && (f.Hotseat? || f.SharedScreen?) && !Blank(Get(r.values, MultiplayerKnown)) ==>
            Get(after.values, f) == Flag(false))
      && (f !in r.known && (!(f.Hotseat? || f.SharedScreen?) || Blank(Get(r.values, MultiplayerKnown))) ==>
            Get(after.values, f) == Get(row.values, f))
      && (f in r.sources ==> f in after.sources && after.sources[f] == r.sources[f])
      && (f !in r.sources ==> (f in after.sources <==> f in row.sources))
      && (f !in r.sources && f in row.sources ==> after.sources[f] == row.sources[f])
      && after.source == r.primary && after.externalId == r.externalId
  {
    hide Sanitized;
    BlankIff(Get(r.values, MultiplayerKnown));
  }

  lemma AppliedGenres(t: Text, row: Row, r: Record, name: seq<int>)
    requires GenreList in r.known
    ensures Listed(t, GenresOf(Applied(t, row, r).values), name) <==> Listed(t, GenresOf(r.values), name)
  {
    hide Listed, Sanitized;
    SanitizedLists(t, GenresOf(r.values), name);
  }
}
