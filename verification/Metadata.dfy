/** Game metadata from several sources: merging records, applying them, and what provider imports may still change. */
module Metadata {
  import opened Options
  import opened Genres

  datatype Field =
    | Description | CoverUrl | ReleaseDate | GenreList | IsFree | IsGame | NonGameReason
    | Singleplayer | Multiplayer | Lan | LocalCoop | OnlineCoop | Hotseat | SplitScreen | SharedScreen
    | CampaignCoop | DropIn | Versus
    | MinPlayers | MaxPlayers | OfflineMax | OnlineMax | OfflineCoopMax | OnlineCoopMax
    | MultiplayerKnown | PlayersKnown

  datatype Value = Missing | Flag(flag: bool) | Number(number: int) | Words(words: string) | Names(names: seq<string>)

  predicate Truthy(v: Value) {
    match v
    case Missing => false
    case Flag(flag) => flag
    case Number(number) => number != 0
    case Words(words) => words != ""
    case Names(names) => names != []
  }

  function Get(values: map<Field, Value>, f: Field): Value {
    if f in values then values[f] else Missing
  }

  function OrElse(v: Value, other: Value): Value {
    if Truthy(v) then v else other
  }

  /** A game's columns, and for each of them the source that has authority over it. */
  datatype Row = Row(values: map<Field, Value>, sources: map<Field, string>, source: Option<string>,
      externalId: Option<string>)

  function GenresOf(values: map<Field, Value>): seq<string> {
    if Get(values, GenreList).Names? then Get(values, GenreList).names else []
  }

  /* ---------- Records of metadata providers ---------- */

  datatype Record = Record(
    values: map<Field, Value>, known: set<Field>, sources: map<Field, string>, primary: Option<string>,
      externalId: Option<string>)

  /** How records are built: a field is set together with its source. */
  function SetField(r: Record, f: Field, v: Value, source: string): Record {
    r.(values := r.values[f := v], known := r.known + {f}, sources := r.sources[f := source])
  }

  ghost predicate WellFormed(r: Record) {
    r.values.Keys == r.known == r.sources.Keys
  }

  const DEFAULT_SOURCE := "igdb"

  function Lookup<V>(entries: map<Field, V>, f: Field, default: V): V {
    if f in entries then entries[f] else default
  }

  /** The fallback's entries, overridden by the primary's for its known fields. */
  function Overlay<V>(primary: map<Field, V>, known: set<Field>, default: V, fallback: map<Field, V>): map<Field, V> {
    map f | f in fallback.Keys + known :: if f in known then Lookup(primary, f, default) else fallback[f]
  }

  function Overlaid(primary: Record, fallback: Record): Record {
    Record(Overlay(primary.values, primary.known, Missing, fallback.values), fallback.known + primary.known,
      Overlay(primary.sources, primary.known, DEFAULT_SOURCE, fallback.sources), primary.primary, primary.externalId)
  }

  function MergedRecords(primary: Option<Record>, fallback: Option<Record>): Option<Record> {
    if primary.None? then fallback else if fallback.None? then primary
      else Some(Overlaid(primary.value, fallback.value))
  }

  method MergeRecords(primary: Option<Record>, fallback: Option<Record>) returns (merged: Option<Record>)
    ensures merged == MergedRecords(primary, fallback)
  {
    if primary.None? { return fallback; }
    if fallback.None? { return primary; }
    var p, r := primary.value, fallback.value;
    var result := r.(primary := p.primary, externalId := p.externalId);
    var rest := p.known;
    ghost var done := {};
    OverlaidNothing(p, r);
    while rest != {}
      invariant done + rest == p.known && result == Overlaid(p.(known := done), r)
      decreases rest
    {
      var f :| f in rest;
      OverlaidMore(p, r, done, f);
      result := SetField(result, f, Lookup(p.values, f, Missing), Lookup(p.sources, f, DEFAULT_SOURCE));
      rest, done := rest - {f}, done + {f};
    }
    assert done == p.known;
    merged := Some(result);
  }

  lemma OverlaidNothing(p: Record, r: Record)
    ensures Overlaid(p.(known := {}), r) == r.(primary := p.primary, externalId := p.externalId)
  {
    OverlayNothing(p.values, Missing, r.values);
    OverlayNothing(p.sources, DEFAULT_SOURCE, r.sources);
  }

  lemma OverlaidMore(p: Record, r: Record, done: set<Field>, f: Field)
    ensures Overlaid(p.(known := done + {f}), r)
         == SetField(Overlaid(p.(known := done), r), f, Lookup(p.values, f, Missing),
           Lookup(p.sources, f, DEFAULT_SOURCE))
  {
    OverlayMore(p.values, done, Missing, r.values, f);
    OverlayMore(p.sources, done, DEFAULT_SOURCE, r.sources, f);
  }

  lemma OverlayNothing<V>(primary: map<Field, V>, default: V, fallback: map<Field, V>)
    ensures Overlay(primary, {}, default, fallback) == fallback
  {
  }

  lemma OverlayMore<V>(primary: map<Field, V>, known: set<Field>, default: V, fallback: map<Field, V>, f: Field)
    ensures Overlay(primary, known + {f}, default, fallback)
         == Overlay(primary, known, default, fallback)[f := Lookup(primary, f, default)]
  {
  }

  lemma OverlayIsUnion<V>(primary: map<Field, V>, default: V, fallback: map<Field, V>)
    ensures Overlay(primary, primary.Keys, default, fallback) == fallback + primary
  {
  }

  ghost predicate WellFormedIfAny(r: Option<Record>) {
    r.Some? ==> WellFormed(r.value)
  }

  /**
    * On well-formed records merging is a union in which the first wins, and it does not matter how records are
    * grouped.
    */
  lemma MergeIsAUnion(a: Record, b: Record)
    requires WellFormed(a) && WellFormed(b)
    ensures WellFormed(Overlaid(a, b))
    ensures Overlaid(a, b) ==
      Record(b.values + a.values, a.known + b.known, b.sources + a.sources, a.primary, a.externalId)
    ensures Overlaid(a, a) == a
  {
    OverlayIsUnion(a.values, Missing, b.values);
    OverlayIsUnion(a.sources, DEFAULT_SOURCE, b.sources);
    OverlayIsUnion(a.values, Missing, a.values);
    OverlayIsUnion(a.sources, DEFAULT_SOURCE, a.sources);
    assert a.values + a.values == a.values && a.sources + a.sources == a.sources;
  }

  lemma MergeIsAssociative(a: Option<Record>, b: Option<Record>, c: Option<Record>)
    requires WellFormedIfAny(a) && WellFormedIfAny(b) && WellFormedIfAny(c)
    ensures MergedRecords(MergedRecords(a, b), c) == MergedRecords(a, MergedRecords(b, c))
    ensures WellFormedIfAny(MergedRecords(a, b))
    ensures MergedRecords(a, None) == a && MergedRecords(None, b) == b
    ensures a.Some? && b.Some? ==>
      MergedRecords(a, b) == Some(Record(b.value.values + a.value.values, b.value.known + a.value.known,
        b.value.sources + a.value.sources, a.value.primary, a.value.externalId))
  {
    if a.Some? && b.Some? {
      MergeIsAUnion(a.value, b.value);
      if c.Some? { OverlayIsAssociative(a.value, b.value, c.value); }
    }
  }

  lemma OverlayIsAssociative(a: Record, b: Record, c: Record)
    requires WellFormed(a) && WellFormed(b) && WellFormed(c)
    ensures Overlaid(Overlaid(a, b), c) == Overlaid(a, Overlaid(b, c))
  {
    MergeIsAUnion(a, b);
    MergeIsAUnion(b, c);
    MergeIsAUnion(Overlaid(a, b), c);
    MergeIsAUnion(a, Overlaid(b, c));
    UnionIsAssociative(c.values, b.values, a.values);
    UnionIsAssociative(c.sources, b.sources, a.sources);
  }

  lemma UnionIsAssociative<V>(a: map<Field, V>, b: map<Field, V>, c: map<Field, V>)
    ensures a + (b + c) == a + b + c
  {
  }

  /* ---------- Applying a record ---------- */

  /** Flags that no provider of player modes reports. */
  const UNSUPPORTED: set<Field> := {Hotseat, SharedScreen}

  function ResetFlags(r: Record): map<Field, Value> {
    map f | f in UNSUPPORTED && Truthy(Get(r.values, MultiplayerKnown)) && f !in r.known :: Flag(false)
  }

  function WrittenField(t: Text, r: Record, f: Field): Value {
    if f == GenreList then Names(Sanitized(t, GenresOf(r.values))) else Get(r.values, f)
  }

  function WrittenFields(t: Text, r: Record, fields: set<Field>): map<Field, Value> {
    map f | f in fields :: WrittenField(t, r, f)
  }

  /** The record's fields are written and attributed to its sources. */
  function Applied(t: Text, row: Row, r: Record): Row {
    Row(row.values + ResetFlags(r) + WrittenFields(t, r, r.known), row.sources + r.sources, r.primary, r.externalId)
  }

  /* ---------- Merging what a store reports ---------- */

  /** What a library import or a store page says about a game. */
  datatype Offer = Offer(
    description: string, cover: Value, released: Value, genres: seq<string>, isFree: Option<bool>,
    features: set<Field>, featuresKnown: bool, minPlayers: Option<int>, maxPlayers: Option<int>, playersKnown: bool)

  const FEATURES: set<Field> := {Singleplayer, Multiplayer, Lan, LocalCoop, OnlineCoop, Hotseat, SplitScreen,
    SharedScreen}

  function PlayerCount(count: Option<int>, default: int): int {
    if count.None? then default else if count.value < 1 then 1 else count.value
  }

  function MinCount(o: Offer): int {
    PlayerCount(o.minPlayers, 1)
  }

  function MaxCount(o: Offer): int {
    var max := PlayerCount(o.maxPlayers, MinCount(o));
    if max < MinCount(o) then MinCount(o) else max
  }

  /** Empty texts are filled in, genres are joined, and reported availability is taken over. */
  function WithTexts(t: Text, values: map<Field, Value>, o: Offer): map<Field, Value> {
    var described := values[Description := OrElse(Get(values, Description), Words(o.description))];
    var covered := described[CoverUrl := OrElse(Get(values, CoverUrl), o.cover)];
    var dated := covered[ReleaseDate := OrElse(Get(values, ReleaseDate), o.released)];
    var listed := dated[GenreList := Names(Sanitized(t, GenresOf(values) + o.genres))];
    if o.isFree.Some? then listed[IsFree := Flag(o.isFree.value)] else listed
  }

  /** The player-mode flags: a report that claims to be complete replaces them, any other can only add some. */
  function FlagUpdates(values: map<Field, Value>, o: Offer, fields: set<Field>): map<Field, Value> {
    map f | f in fields :: Flag((!o.featuresKnown && Truthy(Get(values, f))) || f in o.features)
  }

  function SetUnless(values: map<Field, Value>, attributed: set<Field>, f: Field, v: Value): map<Field, Value> {
    if f in attributed then values else values[f := v]
  }

  function WithCounts(values: map<Field, Value>, o: Offer, attributed: set<Field>): map<Field, Value> {
    var known := if o.featuresKnown then SetUnless(values, attributed, MultiplayerKnown, Flag(true)) else values;
    if !o.playersKnown then known
    else
      var min := SetUnless(known, attributed, MinPlayers, Number(MinCount(o)));
      var max := SetUnless(min, attributed, MaxPlayers, Number(MaxCount(o)));
      SetUnless(max, attributed, PlayersKnown, Flag(true))
  }

  /** Features and player counts give way to an attributed source; the other columns do not look at it. */
  function Merged(t: Text, row: Row, o: Offer): Row {
    var attributed := row.sources.Keys;
    var values := WithTexts(t, row.values, o) + FlagUpdates(row.values, o, FEATURES - attributed);
    row.(values := WithCounts(values, o, attributed))
  }

  datatype Verdict = NoGame(reason: string) | Undecided

  const STORE := "steam_store"
  const CLASSIFICATION := "classification"

  /** A store page is the source of availability and, if it decides it, of being a game. */
  function Marked(row: Row, appId: string, verdict: Verdict): Row {
    var sources := row.sources[IsFree := STORE];
    var marked :=
      if verdict.NoGame? then
        row.(values := row.values[IsGame := Flag(false)][NonGameReason := Words(verdict.reason)],
          sources := sources[IsGame := STORE][NonGameReason := STORE])
      else if IsGame in sources && sources[IsGame] in {CLASSIFICATION, STORE} then
        row.(values := row.values[IsGame := Flag(true)][NonGameReason := Missing],
          sources := sources[IsGame := STORE] - {NonGameReason})
      else row.(sources := sources);
    if marked.source.None? || marked.source.value == "" then marked.(source := Some(STORE), externalId := Some(appId))
      else marked
  }

  function MergedStore(t: Text, row: Row, o: Offer, appId: string, verdict: Verdict): Row {
    Marked(Merged(t, row, o), appId, verdict)
  }

  class Game {
    var values: map<Field, Value>
    var sources: map<Field, string>
    var source: Option<string>
    var externalId: Option<string>

    function View(): Row
      reads this
    {
      Row(values, sources, source, externalId)
    }

    method MergeProvider(t: Text, o: Offer)
      modifies this
      ensures View() == Merged(t, old(View()), o)
    {
      MergeTexts(t, o);
      MergeFlags(o);
      MergeKnown(o);
      SameFlags(t, old(values), o, FEATURES - sources.Keys);
    }

    method MergeTexts(t: Text, o: Offer)
      modifies this`values
      ensures values == WithTexts(t, old(values), o)
    {
      var before := values;
      var genres := SanitizeGenres(t, GenresOf(before) + o.genres);
      values := values[Description := OrElse(Get(before, Description), Words(o.description))];
      values := values[CoverUrl := OrElse(Get(before, CoverUrl), o.cover)];
      values := values[ReleaseDate := OrElse(Get(before, ReleaseDate), o.released)];
      values := values[GenreList := Names(genres)];
      if o.isFree.Some? { values := values[IsFree := Flag(o.isFree.value)]; }
    }

    method MergeFlags(o: Offer)
      modifies this`values
      ensures values == old(values) + FlagUpdates(old(values), o, FEATURES - sources.Keys)
    {
      var rest := FEATURES - sources.Keys;
      ghost var done, fields := {}, rest;
      NoFlag(values, o);
      while rest != {}
        invariant done + rest == fields && done !! rest && values == old(values) + FlagUpdates(old(values), o, done)
        decreases rest
      {
        var f :| f in rest;
        OneFlagMore(old(values), o, done, f);
        var flag := if o.featuresKnown then f in o.features else Truthy(Get(values, f)) || f in o.features;
        values := values[f := Flag(flag)];
        rest, done := rest - {f}, done + {f};
      }
      assert done == fields;
    }

    method MergeKnown(o: Offer)
      modifies this`values
      ensures values == WithCounts(old(values), o, sources.Keys)
    {
      if o.featuresKnown && MultiplayerKnown !in sources { values := values[MultiplayerKnown := Flag(true)]; }
      if o.playersKnown {
        if MinPlayers !in sources { values := values[MinPlayers := Number(MinCount(o))]; }
        if MaxPlayers !in sources { values := values[MaxPlayers := Number(MaxCount(o))]; }
        if PlayersKnown !in sources { values := values[PlayersKnown := Flag(true)]; }
      }
    }

    method ApplyStorePage(t: Text, o: Offer, appId: string, verdict: Verdict)
      modifies this
      ensures View() == MergedStore(t, old(View()), o, appId, verdict)
    {
      MergeProvider(t, o);
      sources := sources[IsFree := STORE];
      if verdict.NoGame? {
        values := values[IsGame := Flag(false)][NonGameReason := Words(verdict.reason)];
        sources := sources[IsGame := STORE][NonGameReason := STORE];
      } else if IsGame in sources && sources[IsGame] in {CLASSIFICATION, STORE} {
        values := values[IsGame := Flag(true)][NonGameReason := Missing];
        sources := sources[IsGame := STORE] - {NonGameReason};
      }
      if source.None? || source.value == "" {
        source, externalId := Some(STORE), Some(appId);
      }
    }

    method ApplyRecord(t: Text, r: Record)
      modifies this
      ensures View() == Applied(t, old(View()), r)
    {
      if Truthy(Get(r.values, MultiplayerKnown)) {
        if Hotseat !in r.known { values := values[Hotseat := Flag(false)]; }
        if SharedScreen !in r.known { values := values[SharedScreen := Flag(false)]; }
      }
      assert values == old(values) + ResetFlags(r);
      WriteFields(t, r);
      sources := sources + r.sources;
      source, externalId := r.primary, r.externalId;
    }

    method WriteFields(t: Text, r: Record)
      modifies this`values
      ensures values == old(values) + WrittenFields(t, r, r.known)
    {
      var rest := r.known;
      ghost var done := {};
      NoField(t, values, r);
      while rest != {}
        invariant done + rest == r.known && values == old(values) + WrittenFields(t, r, done)
        decreases rest
      {
        var f :| f in rest;
        var value := Get(r.values, f);
        if f == GenreList {
          var genres := SanitizeGenres(t, GenresOf(r.values));
          value := Names(genres);
        }
        OneFieldMore(t, old(values), r, done, f);
        values := values[f := value];
        rest, done := rest - {f}, done + {f};
      }
      assert done == r.known;
    }
  }

  lemma NoField(t: Text, values: map<Field, Value>, r: Record)
    ensures values + WrittenFields(t, r, {}) == values
  {
  }

  lemma NoFlag(values: map<Field, Value>, o: Offer)
    ensures values + FlagUpdates(values, o, {}) == values
  {
  }

  lemma OneFieldMore(t: Text, values: map<Field, Value>, r: Record, done: set<Field>, f: Field)
    ensures values + WrittenFields(t, r, done + {f}) == (values + WrittenFields(t, r, done))[f := WrittenField(t, r, f)]
  {
  }

  lemma OneFlagMore(values: map<Field, Value>, o: Offer, done: set<Field>, f: Field)
    requires f !in done
    ensures var current := values + FlagUpdates(values, o, done);
      values + FlagUpdates(values, o, done + {f})
      == current[f := Flag(if o.featuresKnown then f in o.features else Truthy(Get(current, f)) || f in o.features)]
  {
  }

  /** Merging the texts first does not change the flags. */
  lemma SameFlags(t: Text, values: map<Field, Value>, o: Offer, fields: set<Field>)
    requires fields <= FEATURES
    ensures FlagUpdates(WithTexts(t, values, o), o, fields) == FlagUpdates(values, o, fields)
  {
    forall f | f in fields
      ensures Get(WithTexts(t, values, o), f) == Get(values, f) { TextsKeepFeature(t, values, o, f); }
  }

  lemma TextsKeepFeature(t: Text, values: map<Field, Value>, o: Offer, f: Field)
    requires f in FEATURES
    ensures Get(WithTexts(t, values, o), f) == Get(values, f)
  {
  }
}
