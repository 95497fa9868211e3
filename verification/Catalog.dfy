/** Games and platform mappings: how an import is resolved to a game, and which mappings are added on the way. */
module Catalog {
  import opened Options
  import opened Titles

  type Platform = string

  const STEAM: Platform := "steam"

  datatype Game = Game(title: Title, isFree: bool)

  datatype Mapping = Mapping(game: nat, platform: Platform, extId: string, title: Title)

  /** `games` are the rows as the session holds them, `stored` as queries see them until the next flush. */
  datatype Catalog = Catalog(
    games: map<nat, Game>, stored: map<nat, Game>, mappings: map<nat, Mapping>, nextGame: nat, nextMapping: nat)

  datatype Import = Import(extId: string, title: Title, isFree: Option<bool>)

  predicate NumericSteam(platform: Platform, extId: string) {
    platform == STEAM && AllDigits(extId)
  }

  predicate IsNumericSteam(m: Mapping) {
    NumericSteam(m.platform, m.extId)
  }

  /* ---------- Table constraints and invariants ---------- */

  ghost predicate Consistent(c: Catalog) {
    && c.games.Keys == c.stored.Keys
    && (forall g :: g in c.games ==> g < c.nextGame && c.stored[g].title == c.games[g].title)
    && (forall m :: m in c.mappings ==> m < c.nextMapping && c.mappings[m].game in c.games)
    && UniqueKeys(c)
  }

  /** One mapping for each platform and external id. */
  ghost predicate UniqueKeys(c: Catalog) {
    forall m, n :: m in c.mappings && n in c.mappings && SameKey(c.mappings[m], c.mappings[n]) ==> m == n
  }

  predicate SameKey(a: Mapping, b: Mapping) {
    a.platform == b.platform && a.extId == b.extId
  }

  /** At most one numeric Steam mapping for each game. */
  ghost predicate SteamUnique(c: Catalog) {
    forall m, n :: m in c.mappings && n in c.mappings && SteamRivals(c.mappings[m], c.mappings[n]) ==> m == n
  }

  predicate SteamRivals(a: Mapping, b: Mapping) {
    IsNumericSteam(a) && IsNumericSteam(b) && a.game == b.game
  }

  /** Every mapping's title is compatible with its game's title. */
  ghost predicate Coherent(score: Score, c: Catalog) {
    forall m :: m in c.mappings ==> MappingFits(score, c, m)
  }

  ghost predicate MappingFits(score: Score, c: Catalog, m: nat)
    requires m in c.mappings
  {
    c.mappings[m].game in c.games && Compatible(score, c.games[c.mappings[m].game].title, c.mappings[m].title)
  }

  /* ---------- Row operations ---------- */

  function Flushed(c: Catalog): Catalog {
    c.(stored := c.games)
  }

  function WithGame(c: Catalog, title: Title): Catalog {
    c.(games := c.games[c.nextGame := Game(title, false)], nextGame := c.nextGame + 1)
  }

  function WithMapping(c: Catalog, m: Mapping): Catalog {
    c.(mappings := c.mappings[c.nextMapping := m], nextMapping := c.nextMapping + 1)
  }

  /** The part of the metadata merge that later queries depend on. */
  function Merged(c: Catalog, g: nat, imp: Import): Catalog
    requires g in c.games
  {
    if imp.isFree.Some? then c.(games := c.games[g := c.games[g].(isFree := imp.isFree.value)]) else c
  }

  /* ---------- Finding or creating a game ---------- */

  /** Games that already have another numeric Steam mapping. */
  function SteamConflicts(c: Catalog, imp: Import): set<nat> {
    set m | m in c.mappings && c.mappings[m].extId != imp.extId && IsNumericSteam(c.mappings[m]) :: c.mappings[m].game
  }

  predicate Allowed(c: Catalog, platform: Platform, imp: Import, exclude: Option<nat>, g: nat) {
    && g in c.stored
    && (NumericSteam(platform, imp.extId) ==> g !in SteamConflicts(c, imp))
    && exclude != Some(g)
  }

  function ExactMatches(c: Catalog, platform: Platform, imp: Import, exclude: Option<nat>): set<nat> {
    set g | g in c.stored && Allowed(c, platform, imp, exclude, g) && c.stored[g].title == imp.title
  }

  function Candidates(score: Score, c: Catalog, platform: Platform, imp: Import, exclude: Option<nat>): set<nat> {
    set g | g in c.stored && Allowed(c, platform, imp, exclude, g) && Compatible(score, c.stored[g].title, imp.title)
  }

  ghost predicate Best(score: Score, c: Catalog, imp: Import, candidates: set<nat>, g: nat)
    requires candidates <= c.stored.Keys
  {
    g in candidates
    && forall other :: other in candidates ==>
      score(c.stored[other].title, imp.title) <= score(c.stored[g].title, imp.title)
  }

  /** The games the search may return: an exact match if there is one, else a best candidate, else a new game. */
  ghost predicate MayFind(score: Score, c: Catalog, platform: Platform, imp: Import, exclude: Option<nat>, g: nat) {
    if ExactMatches(c, platform, imp, exclude) != {} then g in ExactMatches(c, platform, imp, exclude)
    else if Candidates(score, c, platform, imp, exclude) != {} then
      Best(score, c, imp, Candidates(score, c, platform, imp, exclude), g)
    else g == c.nextGame
  }

  /** The catalog after the search: a new game is flushed at once. */
  function Found(c: Catalog, imp: Import, g: nat): (c': Catalog)
    ensures g == c.nextGame || g in c.stored.Keys * c.games.Keys ==> g in c'.games
  {
    if g == c.nextGame then Flushed(WithGame(c, imp.title)) else c
  }

  /* ---------- Resolving an import ---------- */

  function MappingIds(c: Catalog, platform: Platform, extId: string): set<nat> {
    set m | m in c.mappings && c.mappings[m].platform == platform && c.mappings[m].extId == extId
  }

  /** Another numeric Steam mapping of the same game is older, so this one is not the game's primary. */
  predicate Collides(c: Catalog, platform: Platform, imp: Import, m: nat)
    requires m in c.mappings
  {
    && NumericSteam(platform, imp.extId)
    && exists n :: n in c.mappings && n < m && IsNumericSteam(c.mappings[n]) && c.mappings[n].game == c.mappings[m].game
  }

  predicate MustMove(score: Score, c: Catalog, platform: Platform, imp: Import, m: nat)
    requires m in c.mappings && c.mappings[m].game in c.games
  {
    Collides(c, platform, imp, m) || !Compatible(score, c.games[c.mappings[m].game].title, imp.title)
  }

  /** The mapping `m` exists: it stays with its game, or moves to another one. */
  ghost predicate MayKeep(score: Score, c: Catalog, platform: Platform, imp: Import, m: nat, g: nat)
    requires m in c.mappings && c.mappings[m].game in c.games
  {
    if MustMove(score, c, platform, imp, m) then MayFind(score, c, platform, imp, Some(c.mappings[m].game), g)
    else g == c.mappings[m].game
  }

  function Rehomed(c: Catalog, m: nat, g: nat, imp: Import): Catalog
    requires m in c.mappings
  {
    c.(mappings := c.mappings[m := c.mappings[m].(game := g, title := imp.title)])
  }

  function Kept(score: Score, c: Catalog, platform: Platform, imp: Import, m: nat, g: nat): Catalog
    requires m in c.mappings && c.mappings[m].game in c.games
    requires if MustMove(score, c, platform, imp, m) then g in Found(c, imp, g).games else g in c.games
  {
    if MustMove(score, c, platform, imp, m) then Merged(Flushed(Rehomed(Found(c, imp, g), m, g, imp)), g, imp)
    else Merged(c, g, imp)
  }

  function Mapped(c: Catalog, platform: Platform, imp: Import, g: nat): Catalog
    requires g in Found(c, imp, g).games
  {
    Flushed(WithMapping(Merged(Found(c, imp, g), g, imp), Mapping(g, platform, imp.extId, imp.title)))
  }

  /** `c'` is the catalog after resolving the import to `g`. */
  ghost predicate Resolves(score: Score, c: Catalog, platform: Platform, imp: Import, g: nat, c': Catalog)
    requires Consistent(c)
  {
    if MappingIds(c, platform, imp.extId) == {} then
      MayFind(score, c, platform, imp, None, g) && c' == Mapped(c, platform, imp, g)
    else
      forall m :: m in MappingIds(c, platform, imp.extId) ==>
        MayKeep(score, c, platform, imp, m, g) && c' == Kept(score, c, platform, imp, m, g)
  }

  /* ---------- Mappings related by GOG Galaxy ---------- */

  type Release = (Platform, string)

  function SteamMappings(c: Catalog, g: nat): set<nat> {
    set m | m in c.mappings && IsNumericSteam(c.mappings[m]) && c.mappings[m].game == g
  }

  function NumericSteamIds(c: Catalog, g: nat): set<string> {
    set m | m in c.mappings && c.mappings[m].game == g && IsNumericSteam(c.mappings[m]) :: c.mappings[m].extId
  }

  function RelatedNumericIds(related: seq<Release>): set<string> {
    set i | 0 <= i < |related| && NumericSteam(related[i].0, related[i].1) :: related[i].1
  }

  /** Whether a related release gets a mapping, given the numeric Steam ids the game has by now. */
  predicate Adds(c: Catalog, release: Release, steamIds: set<string>, ambiguous: bool) {
    && (NumericSteam(release.0, release.1) ==> !ambiguous && (steamIds == {} || release.1 in steamIds))
    && MappingIds(c, release.0, release.1) == {}
  }

  /** The pending mappings of the related releases; queries in the loop see none of them. */
  function Related(c: Catalog, g: nat, title: Title, related: seq<Release>, steamIds: set<string>, ambiguous: bool)
      : seq<Mapping>
    decreases |related|
  {
    if related == [] then []
    else
      var release := related[0];
      if !Adds(c, release, steamIds, ambiguous) then Related(c, g, title, related[1..], steamIds, ambiguous)
      else
        [Mapping(g, release.0, release.1, title)]
        + Related(c, g, title, related[1..],
            if NumericSteam(release.0, release.1) then steamIds + {release.1} else steamIds, ambiguous)
  }

  predicate IsAmbiguous(c: Catalog, g: nat, related: seq<Release>) {
    |RelatedNumericIds(related)| > 1 && NumericSteamIds(c, g) == {}
  }

  function NewRelated(c: Catalog, g: nat, title: Title, related: seq<Release>): seq<Mapping> {
    Related(c, g, title, related, NumericSteamIds(c, g), IsAmbiguous(c, g, related))
  }

  function WithMappings(c: Catalog, added: seq<Mapping>): Catalog
    decreases |added|
  {
    if added == [] then c else WithMappings(WithMapping(c, added[0]), added[1..])
  }

  /** The catalog after the related releases of `g` are mapped and flushed. */
  function WithRelated(c: Catalog, g: nat, title: Title, related: seq<Release>): Catalog {
    if related == [] then c else Flushed(WithMappings(c, NewRelated(c, g, title, related)))
  }

  predicate NoRepeats(related: seq<Release>) {
    related != [] ==> related[0] !in related[1..] && NoRepeats(related[1..])
  }
}
