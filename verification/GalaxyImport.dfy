/** GOG Galaxy imports: the releases of one game on several platforms, and the mappings they add. */
module GalaxyImport {
  import opened Options
  import opened Titles
  import opened Catalog
  import opened CatalogProofs

  const LOCAL: Platform := "local"

  /** The parsed releases, without local ones, each once and in order. */
  function Deduplicated(parsed: seq<Option<Release>>): seq<Release> {
    if parsed == [] then []
    else
      var earlier := Deduplicated(parsed[..|parsed| - 1]);
      var last := parsed[|parsed| - 1];
      if last.None? || last.value.0 == LOCAL || last.value in earlier then earlier else earlier + [last.value]
  }

  /** A release key that cannot be parsed is `None`. */
  method ReleaseMappings(parsed: seq<Option<Release>>) returns (mappings: seq<Release>)
    ensures NoRepeats(mappings)
    ensures forall release :: release in mappings <==> Some(release) in parsed && release.0 != LOCAL
    ensures mappings == Deduplicated(parsed)
  {
    mappings := [];
    var seen: set<Release> := {};
    for i := 0 to |parsed|
      invariant NoRepeats(mappings)
      invariant forall release :: release in seen <==> release in mappings
      invariant forall release :: release in mappings <==> Some(release) in parsed[..i] && release.0 != LOCAL
      invariant mappings == Deduplicated(parsed[..i])
    {
      var next := parsed[..i + 1];
      assert next == parsed[..i] + [parsed[i]] && next[..i] == parsed[..i];
      if parsed[i].None? || parsed[i].value.0 == LOCAL { continue; }
      var key := parsed[i].value;
      if key in seen { continue; }
      NoRepeatsAppend(mappings, key);
      mappings := mappings + [key];
      seen := seen + {key};
    }
    assert parsed[..|parsed|] == parsed;
  }

  /** They come in the order in which the releases first occur. */
  lemma {:induction false} DeduplicatedInOrder(parsed: seq<Option<Release>>) returns (from: seq<nat>)
    ensures |from| == |Deduplicated(parsed)|
    ensures forall k :: 0 <= k < |from| ==> from[k] < |parsed| && parsed[from[k]] == Some(Deduplicated(parsed)[k])
    ensures forall k, i :: 0 <= k < |from| && 0 <= i < from[k] ==> parsed[i] != Some(Deduplicated(parsed)[k])
    ensures forall k, l :: 0 <= k < l < |from| ==> from[k] < from[l]
    decreases |parsed|
  {
    from := [];
    if parsed != [] {
      var last := |parsed| - 1;
      from := DeduplicatedInOrder(parsed[..last]);
      if parsed[last].Some? && parsed[last].value.0 != LOCAL && parsed[last].value !in Deduplicated(parsed[..last]) {
        FirstOccurrence(parsed[..last], parsed[last].value);
        from := from + [last];
      }
    }
  }

  lemma {:induction false} FirstOccurrence(parsed: seq<Option<Release>>, release: Release)
    ensures release in Deduplicated(parsed) <==> Some(release) in parsed && release.0 != LOCAL
    decreases |parsed|
  {
    if parsed != [] {
      FirstOccurrence(parsed[..|parsed| - 1], release);
      assert parsed == parsed[..|parsed| - 1] + [parsed[|parsed| - 1]];
    }
  }

  lemma {:induction false} NoRepeatsAppend(related: seq<Release>, release: Release)
    requires NoRepeats(related) && release !in related
    ensures NoRepeats(related + [release])
  {
    if related == [] {
    } else {
      NoRepeatsAppend(related[1..], release);
      assert (related + [release])[1..] == related[1..] + [release];
    }
  }

  /** The loop over the related releases; queries inside it see only flushed mappings. */
  method AddRelatedMappings(c: Catalog, g: nat, title: Title, related: seq<Release>) returns (c': Catalog)
    ensures c' == WithRelated(c, g, title, related)
  {
    if related == [] { return c; }
    var steamIds := NumericSteamIds(c, g);
    var ambiguous := |RelatedNumericIds(related)| > 1 && steamIds == {};
    var added: seq<Mapping> := [];
    assert related[0..] == related;
    for i := 0 to |related|
      invariant added + Related(c, g, title, related[i..], steamIds, ambiguous) == NewRelated(c, g, title, related)
    {
      var release := related[i];
      RelatedFrom(c, g, title, related, i, steamIds, ambiguous, added);
      if NumericSteam(release.0, release.1) {
        if ambiguous { continue; }
        if steamIds != {} && release.1 !in steamIds { continue; }
      }
      if MappingIds(c, release.0, release.1) != {} { continue; }
      added := added + [Mapping(g, release.0, release.1, title)];
      if NumericSteam(release.0, release.1) { steamIds := steamIds + {release.1}; }
    }
    assert related[|related|..] == [];
    assert added == NewRelated(c, g, title, related);
    c' := Insert(c, added);
    c' := Flushed(c');
  }

  /** What one iteration of the loop adds. */
  lemma RelatedFrom(c: Catalog, g: nat, title: Title, related: seq<Release>, i: nat,
      steamIds: set<string>, ambiguous: bool, added: seq<Mapping>)
    requires i < |related|
    ensures var release := related[i];
      var next := if NumericSteam(release.0, release.1) then steamIds + {release.1} else steamIds;
      added + Related(c, g, title, related[i..], steamIds, ambiguous)
      == if Adds(c, release, steamIds, ambiguous) then
           added + [Mapping(g, release.0, release.1, title)] + Related(c, g, title, related[i + 1..], next, ambiguous)
         else
           added + Related(c, g, title, related[i + 1..], steamIds, ambiguous)
  {
    assert related[i..][1..] == related[i + 1..];
  }

  /** The inserts that the final flush makes. */
  method Insert(c: Catalog, added: seq<Mapping>) returns (c': Catalog)
    ensures c' == WithMappings(c, added)
  {
    c' := c;
    assert added[0..] == added;
    for i := 0 to |added|
      invariant WithMappings(c', added[i..]) == WithMappings(c, added)
    {
      c' := WithMapping(c', added[i]);
      assert added[i..][1..] == added[i + 1..];
    }
    assert added[|added|..] == [];
  }

  /* ---------- What related mappings keep ---------- */

  /** `d` has all of `c`'s rows, and any further mapping is `title`'s to `g`. */
  ghost predicate Extends(c: Catalog, d: Catalog, g: nat, title: Title) {
    && d.games == c.games && d.stored == c.stored && d.nextGame == c.nextGame && c.nextMapping <= d.nextMapping
    && (forall m :: m in c.mappings ==> m in d.mappings && d.mappings[m] == c.mappings[m])
    && (forall m :: m in d.mappings && m !in c.mappings ==> d.mappings[m].game == g && d.mappings[m].title == title)
  }

  /** The releases still to come have the same mappings in `d` as in `c`. */
  ghost predicate SameFor(c: Catalog, d: Catalog, related: seq<Release>) {
    forall i {:trigger related[i]} :: 0 <= i < |related| ==>
      MappingIds(d, related[i].0, related[i].1) == MappingIds(c, related[i].0, related[i].1)
  }

  /** The catalog while the loop runs: `d` already has the mappings added so far. */
  ghost predicate Relating(c: Catalog, d: Catalog, g: nat, title: Title, related: seq<Release>, steamIds: set<string>) {
    && Consistent(d) && NoNewRivals(c, d) && Extends(c, d, g, title) && SameFor(c, d, related) && NoRepeats(related)
    && g in d.games && NumericSteamIds(d, g) == steamIds
  }

  /** The ids the loop leaves the game with. */
  function SteamIdsAfter(c: Catalog, related: seq<Release>, steamIds: set<string>, ambiguous: bool): set<string>
    decreases |related|
  {
    if related == [] then steamIds
    else SteamIdsAfter(c, related[1..], IdsWith(c, related[0], steamIds, ambiguous), ambiguous)
  }

  function IdsWith(c: Catalog, release: Release, steamIds: set<string>, ambiguous: bool): set<string> {
    if Adds(c, release, steamIds, ambiguous) && NumericSteam(release.0, release.1) then steamIds + {release.1}
      else steamIds
  }

  lemma RelatingStep(c: Catalog, d: Catalog, g: nat, title: Title, related: seq<Release>, steamIds: set<string>,
      ambiguous: bool, m: Mapping)
    requires Relating(c, d, g, title, related, steamIds) && related != []
    requires Adds(c, related[0], steamIds, ambiguous) && m == Mapping(g, related[0].0, related[0].1, title)
    ensures Relating(c, WithMapping(d, m), g, title, related[1..], IdsWith(c, related[0], steamIds, ambiguous))
  {
    assert MappingIds(d, m.platform, m.extId) == {};
    AddedIsFree(c, d, g, m, steamIds, ambiguous);
    WithMappingKeeps(d, m);
    RivalsStayOld(c, d, WithMapping(d, m));
    SameAfter(c, d, m, related);
    SteamIdsGrow(d, m, g);
  }

  /** A numeric Steam id is added only to a game that has none. */
  lemma AddedIsFree(c: Catalog, d: Catalog, g: nat, m: Mapping, steamIds: set<string>, ambiguous: bool)
    requires MappingIds(d, m.platform, m.extId) == {} && Adds(c, (m.platform, m.extId), steamIds, ambiguous)
    requires NumericSteamIds(d, g) == steamIds
    ensures SteamFree(d, m.platform, m.extId, g)
  {
    forall n | n in d.mappings ensures !HasKey(d.mappings[n], m.platform, m.extId) {
      assert n !in MappingIds(d, m.platform, m.extId);
    }
    forall n | n in d.mappings && IsNumericSteam(d.mappings[n]) && d.mappings[n].game == g
      ensures d.mappings[n].extId in steamIds
    {
    }
  }

  lemma SteamIdsGrow(d: Catalog, m: Mapping, g: nat)
    requires d.nextMapping !in d.mappings && m.game == g
    ensures NumericSteamIds(WithMapping(d, m), g)
         == if IsNumericSteam(m) then NumericSteamIds(d, g) + {m.extId} else NumericSteamIds(d, g)
  {
    var d' := WithMapping(d, m);
    assert d'.mappings[d.nextMapping] == m;
    forall id ensures id in NumericSteamIds(d', g) <==>
      id in NumericSteamIds(d, g) || (IsNumericSteam(m) && id == m.extId) {
      if id in NumericSteamIds(d, g) {
        var n :| n in d.mappings && d.mappings[n].game == g && IsNumericSteam(d.mappings[n])
          && d.mappings[n].extId == id;
        assert d'.mappings[n] == d.mappings[n];
      }
    }
  }

  lemma SameAfter(c: Catalog, d: Catalog, m: Mapping, related: seq<Release>)
    requires SameFor(c, d, related) && NoRepeats(related) && related != [] && related[0] == (m.platform, m.extId)
    requires d.nextMapping !in d.mappings
    ensures SameFor(c, WithMapping(d, m), related[1..])
  {
    var d' := WithMapping(d, m);
    var rest := related[1..];
    forall i | 0 <= i < |rest| ensures MappingIds(d', rest[i].0, rest[i].1) == MappingIds(c, rest[i].0, rest[i].1) {
      assert rest[i] == related[i + 1] && rest[i] in rest;
      assert MappingIds(d', rest[i].0, rest[i].1) == MappingIds(d, rest[i].0, rest[i].1);
    }
  }

  lemma SameForRest(c: Catalog, d: Catalog, related: seq<Release>)
    requires SameFor(c, d, related) && related != []
    ensures SameFor(c, d, related[1..])
  {
    var rest := related[1..];
    forall i | 0 <= i < |rest| ensures MappingIds(d, rest[i].0, rest[i].1) == MappingIds(c, rest[i].0, rest[i].1) {
      assert rest[i] == related[i + 1];
    }
  }

  lemma {:induction false} RelatingRun(c: Catalog, d: Catalog, g: nat, title: Title, related: seq<Release>,
      steamIds: set<string>, ambiguous: bool)
    requires Relating(c, d, g, title, related, steamIds)
    ensures Relating(c, WithMappings(d, Related(c, g, title, related, steamIds, ambiguous)), g, title, [],
              SteamIdsAfter(c, related, steamIds, ambiguous))
    decreases |related|
  {
    if related != [] {
      var rest := related[1..];
      if Adds(c, related[0], steamIds, ambiguous) {
        var m := Mapping(g, related[0].0, related[0].1, title);
        var next := IdsWith(c, related[0], steamIds, ambiguous);
        RelatingStep(c, d, g, title, related, steamIds, ambiguous, m);
        RelatingRun(c, WithMapping(d, m), g, title, rest, next, ambiguous);
        assert ([m] + Related(c, g, title, rest, next, ambiguous))[1..] == Related(c, g, title, rest, next, ambiguous);
      } else {
        SameForRest(c, d, related);
        RelatingRun(c, d, g, title, rest, steamIds, ambiguous);
      }
    }
  }

  lemma RelatedRun(c: Catalog, g: nat, title: Title, related: seq<Release>)
    requires Consistent(c) && g in c.games && NoRepeats(related) && related != []
    ensures Relating(c, WithMappings(c, NewRelated(c, g, title, related)), g, title, [],
              SteamIdsAfter(c, related, NumericSteamIds(c, g), IsAmbiguous(c, g, related)))
  {
    RelatingRun(c, c, g, title, related, NumericSteamIds(c, g), IsAmbiguous(c, g, related));
  }

  /** Games and existing mappings are the same; further mappings are `title`'s to `g`. */
  ghost predicate OnlyAdds(c: Catalog, c': Catalog, g: nat, title: Title) {
    && c'.games == c.games && c'.nextGame == c.nextGame
    && (forall m :: m in c.mappings ==> m in c'.mappings && c'.mappings[m] == c.mappings[m])
    && (forall m :: m in c'.mappings && m !in c.mappings ==> c'.mappings[m].game == g && c'.mappings[m].title == title)
  }

  lemma FlushedAdds(c: Catalog, d: Catalog, g: nat, title: Title, steamIds: set<string>)
    requires Relating(c, d, g, title, [], steamIds)
    ensures Consistent(Flushed(d)) && NoNewRivals(c, Flushed(d)) && OnlyAdds(c, Flushed(d), g, title)
  {
  }

  /**
    * In every consistent catalog: related mappings touch no existing mapping, all point to the game under the entry's
    * title, and never give two numeric Steam mappings to one game; if the title fits the game, no violation is added.
    */
  lemma RelatedIsRight(score: Score, c: Catalog, g: nat, title: Title, related: seq<Release>, c': Catalog)
    requires Consistent(c) && g in c.games && NoRepeats(related) && c' == WithRelated(c, g, title, related)
    ensures Consistent(c') && NoNewRivals(c, c') && OnlyAdds(c, c', g, title)
    ensures Compatible(score, c.games[g].title, title) ==> NoWorse(score, c, c')
  {
    if related != [] {
      var ids := SteamIdsAfter(c, related, NumericSteamIds(c, g), IsAmbiguous(c, g, related));
      RelatedRun(c, g, title, related);
      FlushedAdds(c, WithMappings(c, NewRelated(c, g, title, related)), g, title, ids);
    }
    if Compatible(score, c.games[g].title, title) { RelatedFits(score, c, g, title, c'); }
  }

  lemma RelatedFits(score: Score, c: Catalog, g: nat, title: Title, c': Catalog)
    requires g in c.games && Compatible(score, c.games[g].title, title) && OnlyAdds(c, c', g, title)
    ensures FitsKept(score, c, c')
  {
    forall m | m in c'.mappings && m in c.mappings ensures MappingFits(score, c', m) == MappingFits(score, c, m) { }
  }

  /** Related mappings keep a catalog without violations so. */
  lemma RelatedKeepsSound(score: Score, c: Catalog, g: nat, title: Title, related: seq<Release>)
    requires Sound(score, c) && g in c.games && Compatible(score, c.games[g].title, title) && NoRepeats(related)
    ensures Sound(score, WithRelated(c, g, title, related))
  {
    RelatedIsRight(score, c, g, title, related, WithRelated(c, g, title, related));
    NoWorseKeepsSound(score, c, WithRelated(c, g, title, related));
  }

  /* ---------- Which releases get a mapping ---------- */

  predicate IsMapped(c: Catalog, release: Release) {
    exists m :: m in c.mappings && HasKey(c.mappings[m], release.0, release.1)
  }

  lemma {:induction false} WithMappingsHas(c: Catalog, added: seq<Mapping>, release: Release)
    requires Fresh(c)
    ensures IsMapped(WithMappings(c, added), release) <==>
      IsMapped(c, release) || Gives(added, release)
    decreases |added|
  {
    if added != [] {
      var next := WithMapping(c, added[0]);
      WithMappingsHas(next, added[1..], release);
      assert IsMapped(next, release) <==> IsMapped(c, release) || HasKey(added[0], release.0, release.1) by {
        assert next.mappings[c.nextMapping] == added[0];
        if m :| m in c.mappings && HasKey(c.mappings[m], release.0, release.1) {
          assert next.mappings[m] == c.mappings[m];
        }
      }
      GivesFirst(added[0], added[1..], release);
      assert added == [added[0]] + added[1..];
    }
  }

  predicate Gives(added: seq<Mapping>, release: Release) {
    exists k :: 0 <= k < |added| && HasKey(added[k], release.0, release.1)
  }

  lemma GivesFirst(first: Mapping, rest: seq<Mapping>, release: Release)
    ensures Gives([first] + rest, release) <==> HasKey(first, release.0, release.1) || Gives(rest, release)
  {
    var all := [first] + rest;
    assert all[0] == first && forall k :: 0 <= k < |rest| ==> all[k + 1] == rest[k];
    if k :| 0 < k < |all| && HasKey(all[k], release.0, release.1) { assert rest[k - 1] == all[k]; }
    if k :| 0 <= k < |rest| && HasKey(rest[k], release.0, release.1) { assert all[k + 1] == rest[k]; }
  }

  ghost predicate Fresh(c: Catalog) {
    forall m :: m in c.mappings ==> m < c.nextMapping
  }

  /** What the loop adds: no release but those given, and every one that is no numeric Steam id and not mapped yet. */
  lemma {:induction false} RelatedHas(c: Catalog, g: nat, title: Title, related: seq<Release>, steamIds: set<string>,
      ambiguous: bool, release: Release)
    ensures var added := Related(c, g, title, related, steamIds, ambiguous);
      && (Gives(added, release) ==> release in related && !IsMapped(c, release))
      && (release in related && !IsMapped(c, release) && !(release.0 == "steam" && AllDigits(release.1)) ==>
            Gives(added, release))
    decreases |related|
  {
    if related != [] {
      var first, rest := related[0], related[1..];
      var next := IdsWith(c, first, steamIds, ambiguous);
      RelatedHas(c, g, title, rest, next, ambiguous, release);
      MappedIff(c, first);
      assert related == [first] + rest;
      var later := Related(c, g, title, rest, next, ambiguous);
      var added := Related(c, g, title, related, steamIds, ambiguous);
      if Adds(c, first, steamIds, ambiguous) {
        GivesFirst(Mapping(g, first.0, first.1, title), later, release);
      }
    }
  }

  lemma MappedIff(c: Catalog, release: Release)
    ensures IsMapped(c, release) <==> MappingIds(c, release.0, release.1) != {}
  {
    if m :| m in MappingIds(c, release.0, release.1) { assert HasKey(c.mappings[m], release.0, release.1); }
    if m :| m in c.mappings && HasKey(c.mappings[m], release.0, release.1) {
      assert m in MappingIds(c, release.0, release.1);
    }
  }

  /**
    * Afterwards every related release that is no numeric Steam id is mapped, and nothing is mapped that was not before
    * and is not related.
    */
  lemma RelatedAreMapped(c: Catalog, g: nat, title: Title, related: seq<Release>, release: Release)
    requires Consistent(c)
    ensures release in related && !(release.0 == "steam" && AllDigits(release.1)) ==>
      IsMapped(WithRelated(c, g, title, related), release)
    ensures IsMapped(c, release) ==> IsMapped(WithRelated(c, g, title, related), release)
    ensures IsMapped(WithRelated(c, g, title, related), release) ==> IsMapped(c, release) || release in related
  {
    if related != [] {
      WithMappingsHas(c, NewRelated(c, g, title, related), release);
      RelatedHas(c, g, title, related, NumericSteamIds(c, g), IsAmbiguous(c, g, related), release);
    }
  }

  /* ---------- Which Steam id a game ends up with ---------- */

  /** The game keeps its Steam id; without one it takes the only related id, if nobody has it yet. */
  lemma RelatedSteamId(c: Catalog, g: nat, title: Title, related: seq<Release>)
    requires Consistent(c) && g in c.games && NoRepeats(related)
    ensures NumericSteamIds(WithRelated(c, g, title, related), g)
         == if NumericSteamIds(c, g) != {} then NumericSteamIds(c, g)
            else if |RelatedNumericIds(related)| == 1 then set id | id in RelatedNumericIds(related)
              && MappingIds(c, STEAM, id) == {}
            else {}
  {
    var steamIds := NumericSteamIds(c, g);
    if related != [] {
      RelatedRun(c, g, title, related);
      var ids := RelatedNumericIds(related);
      if steamIds == {} && |ids| == 1 {
        var id :| id in ids;
        OneId(ids, id);
        TakesOnlyId(c, related, id);
      } else {
        StaysOwner(c, related, steamIds, IsAmbiguous(c, g, related));
      }
    }
  }

  lemma OneId(ids: set<string>, id: string)
    requires |ids| == 1 && id in ids
    ensures ids == {id}
  {
    assert |ids - {id}| == 0;
  }

  /** A game that has an id gets no other, and an ambiguous game gets none. */
  lemma {:induction false} StaysOwner(c: Catalog, related: seq<Release>, steamIds: set<string>, ambiguous: bool)
    requires steamIds != {} || ambiguous || RelatedNumericIds(related) == {}
    ensures SteamIdsAfter(c, related, steamIds, ambiguous) == steamIds
    decreases |related|
  {
    if related != [] {
      var release := related[0];
      assert NumericSteam(release.0, release.1) ==> release.1 in RelatedNumericIds(related);
      assert IdsWith(c, release, steamIds, ambiguous) == steamIds;
      RelatedTail(related);
      StaysOwner(c, related[1..], steamIds, ambiguous);
    }
  }

  lemma RelatedTail(related: seq<Release>)
    requires related != []
    ensures RelatedNumericIds(related)
         == RelatedNumericIds(related[1..]) + (if NumericSteam(related[0].0, related[0].1) then {related[0].1} else {})
  {
    var rest := related[1..];
    forall id | id in RelatedNumericIds(rest) ensures id in RelatedNumericIds(related) {
      var i :| 0 <= i < |rest| && NumericSteam(rest[i].0, rest[i].1) && rest[i].1 == id;
      assert related[i + 1] == rest[i];
    }
    forall id | id in RelatedNumericIds(related)
      ensures id in RelatedNumericIds(rest) || (NumericSteam(related[0].0, related[0].1) && id == related[0].1)
    {
      var i :| 0 <= i < |related| && NumericSteam(related[i].0, related[i].1) && related[i].1 == id;
      if i > 0 { assert rest[i - 1] == related[i]; }
    }
  }

  lemma {:induction false} TakesOnlyId(c: Catalog, related: seq<Release>, id: string)
    requires RelatedNumericIds(related) == {id}
    ensures SteamIdsAfter(c, related, {}, false) == if MappingIds(c, STEAM, id) == {} then {id} else {}
    decreases |related|
  {
    assert related != [] by { assert id in RelatedNumericIds(related); }
    var release := related[0];
    var rest := related[1..];
    RelatedTail(related);
    if NumericSteam(release.0, release.1) {
      assert release.1 == id;
      if MappingIds(c, STEAM, id) == {} {
        assert {} + {release.1} == {id};
        StaysOwner(c, rest, {id}, false);
      } else if RelatedNumericIds(rest) == {} {
        StaysOwner(c, rest, {}, false);
      } else {
        assert RelatedNumericIds(rest) == {id};
        TakesOnlyId(c, rest, id);
      }
    } else {
      TakesOnlyId(c, rest, id);
    }
  }

  /* ---------- Runs of imports ---------- */

  /** One imported title: resolved to a game, then, for a GOG Galaxy entry, related to its other releases. */
  datatype Entry = Entry(platform: Platform, imported: Import, related: seq<Release>)

  ghost predicate Imports(score: Score, c: Catalog, entry: Entry, g: nat, c': Catalog)
    requires Consistent(c)
  {
    exists d ::
      Resolves(score, c, entry.platform, entry.imported, g, d)
        && c' == WithRelated(d, g, entry.imported.title, entry.related)
  }

  /** In every consistent catalog an import finds a compatible game and adds no violation. */
  lemma ImportIsRight(score: Score, c: Catalog, entry: Entry, g: nat, c': Catalog)
    requires Consistent(c) && Imports(score, c, entry, g, c') && NoRepeats(entry.related)
    ensures NoWorse(score, c, c') && Grows(c, c', entry.platform, entry.imported.extId)
    ensures g in c'.games && Compatible(score, c'.games[g].title, entry.imported.title)
  {
    var title := entry.imported.title;
    var d :| Resolves(score, c, entry.platform, entry.imported, g, d) && c' == WithRelated(d, g, title, entry.related);
    var m := ResolveIsRight(score, c, entry.platform, entry.imported, g, d);
    RelatedIsRight(score, d, g, title, entry.related, c');
    NoWorseThenNoWorse(score, c, d, c');
  }

  /** A sequence of imports, with the game chosen and the catalog after each. */
  ghost predicate Run(score: Score, c: Catalog, entries: seq<Entry>, chosen: seq<nat>, after: seq<Catalog>)
    requires |chosen| == |after| == |entries|
    decreases |entries|
  {
    entries == [] || (
      && Consistent(c) && NoRepeats(entries[0].related) && Imports(score, c, entries[0], chosen[0], after[0])
      && Run(score, after[0], entries[1..], chosen[1..], after[1..]))
  }

  /**
    * Whatever is imported in whatever order into whatever catalog: no game gets a second numeric Steam mapping that
    * it did not have, no mapping ceases to fit, and every import goes to a game with the sequence numbers of its title.
    */
  lemma {:induction false} RunIsRight(score: Score, c: Catalog, entries: seq<Entry>, chosen: seq<nat>,
      after: seq<Catalog>)
    requires Consistent(c) && |chosen| == |after| == |entries| && Run(score, c, entries, chosen, after)
    ensures forall i :: 0 <= i < |entries| ==> NoWorse(score, c, after[i]) && Numbered(after[i], chosen[i], entries[i])
    decreases |entries|
  {
    if entries != [] {
      ImportIsRight(score, c, entries[0], chosen[0], after[0]);
      CompatibleTitlesHaveEqualNumbers(score, after[0].games[chosen[0]].title, entries[0].imported.title);
      RunIsRight(score, after[0], entries[1..], chosen[1..], after[1..]);
      forall i | 1 <= i < |entries| ensures NoWorse(score, c, after[i]) && Numbered(after[i], chosen[i], entries[i]) {
        assert after[1..][i - 1] == after[i] && chosen[1..][i - 1] == chosen[i] && entries[1..][i - 1] == entries[i];
        NoWorseThenNoWorse(score, c, after[0], after[i]);
      }
    }
  }

  /** The entry went to a game whose title has the same sequence numbers. */
  ghost predicate Numbered(c: Catalog, g: nat, entry: Entry) {
    g in c.games && SequenceTokens(c.games[g].title) == SequenceTokens(entry.imported.title)
  }

  /**
    * So from a catalog without violations the Steam rule always holds, and mappings and games never differ in
    * numbers.
    */
  lemma RunKeepsSound(score: Score, c: Catalog, entries: seq<Entry>, chosen: seq<nat>, after: seq<Catalog>)
    requires Sound(score, c) && |chosen| == |after| == |entries| && Run(score, c, entries, chosen, after)
    ensures forall i :: 0 <= i < |entries| ==> Sound(score, after[i]) && SameNumbers(after[i])
  {
    RunIsRight(score, c, entries, chosen, after);
    forall i | 0 <= i < |entries| ensures Sound(score, after[i]) && SameNumbers(after[i]) {
      NoWorseKeepsSound(score, c, after[i]);
      SoundMappingsAgree(score, after[i]);
    }
  }

  /** Every mapping's title has the sequence numbers of its game's title. */
  ghost predicate SameNumbers(c: Catalog) {
    forall m :: m in c.mappings ==>
      c.mappings[m].game in c.games
        && SequenceTokens(c.games[c.mappings[m].game].title) == SequenceTokens(c.mappings[m].title)
  }

  lemma SoundMappingsAgree(score: Score, c: Catalog)
    requires Sound(score, c)
    ensures SameNumbers(c)
  {
    forall m | m in c.mappings
      ensures SequenceTokens(c.games[c.mappings[m].game].title) == SequenceTokens(c.mappings[m].title)
    {
      assert MappingFits(score, c, m);
    }
  }
}
