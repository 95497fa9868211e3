/** Genre names: stripped, plausible, one spelling for each folded name, sorted by it. */
module Genres {
  import opened Orders

  /** What Python's text functions decide: white space, case folding, and whether a name looks like a genre. */
  datatype Text = Text(space: char -> bool, fold: string -> seq<int>, plausible: string -> bool)

  function StripLeft(t: Text, s: string): string {
    if s != "" && t.space(s[0]) then StripLeft(t, s[1..]) else s
  }

  function StripRight(t: Text, s: string): string {
    if s != "" && t.space(s[|s| - 1]) then StripRight(t, s[..|s| - 1]) else s
  }

  function Strip(t: Text, s: string): string {
    StripRight(t, StripLeft(t, s))
  }

  predicate Names(t: Text, s: string) {
    t.plausible(Strip(t, s))
  }

  predicate HasFold(t: Text, genres: seq<string>, genre: string) {
    exists i :: 0 <= i < |genres| && t.fold(genres[i]) == t.fold(genre)
  }

  /** The plausible names in order, each folded name in its first spelling. */
  function Distinct(t: Text, values: seq<string>): seq<string>
    decreases |values|
  {
    if values == [] then []
    else
      var before := Distinct(t, values[..|values| - 1]);
      var genre := Strip(t, values[|values| - 1]);
      if !t.plausible(genre) || HasFold(t, before, genre) then before else before + [genre]
  }

  function FoldLe(t: Text): (string, string) -> bool {
    (a, b) => LexLe(t.fold(a), t.fold(b))
  }

  function Sanitized(t: Text, values: seq<string>): seq<string> {
    StableSort(Distinct(t, values), FoldLe(t))
  }

  method SanitizeGenres(t: Text, values: seq<string>) returns (genres: seq<string>)
    ensures genres == Sanitized(t, values)
  {
    var kept: seq<string> := [];
    for i := 0 to |values|
      invariant kept == Distinct(t, values[..i])
    {
      var genre := Strip(t, values[i]);
      assert values[..i + 1][..i] == values[..i];
      if !t.plausible(genre) { continue; }
      if !HasFold(t, kept, genre) { kept := kept + [genre]; }
    }
    assert values[..|values|] == values;
    genres := StableSort(kept, FoldLe(t));
  }

  /* ---------- What a clean list is ---------- */

  ghost predicate OneSpelling(t: Text, genres: seq<string>) {
    forall i, j :: 0 <= i < j < |genres| ==> t.fold(genres[i]) != t.fold(genres[j])
  }

  ghost predicate AllNames(t: Text, genres: seq<string>) {
    forall i :: 0 <= i < |genres| ==> Strip(t, genres[i]) == genres[i] && t.plausible(genres[i])
  }

  ghost predicate Clean(t: Text, genres: seq<string>) {
    AllNames(t, genres) && OneSpelling(t, genres) && Sorted(genres, FoldLe(t))
  }

  lemma {:induction false} StripRightTwice(t: Text, s: string)
    ensures StripRight(t, StripRight(t, s)) == StripRight(t, s)
    ensures StripRight(t, s) <= s
  {
    if s != "" && t.space(s[|s| - 1]) { StripRightTwice(t, s[..|s| - 1]); }
  }

  lemma {:induction false} StripLeftStarts(t: Text, s: string)
    ensures StripLeft(t, s) == "" || !t.space(StripLeft(t, s)[0])
  {
    if s != "" && t.space(s[0]) { StripLeftStarts(t, s[1..]); }
  }

  lemma StripTwice(t: Text, s: string)
    ensures Strip(t, Strip(t, s)) == Strip(t, s)
  {
    StripLeftStarts(t, s);
    StripRightTwice(t, StripLeft(t, s));
  }

  /** Stripping takes all white space off both ends and nothing else. */
  lemma StripSplits(t: Text, s: string) returns (left: string, right: string)
    ensures s == left + Strip(t, s) + right && AllSpace(t, left) && AllSpace(t, right)
    ensures var core := Strip(t, s); core != "" ==> !t.space(core[0]) && !t.space(core[|core| - 1])
  {
    left := LeftSplits(t, s);
    right := RightSplits(t, StripLeft(t, s));
    StripLeftStarts(t, s);
  }

  predicate AllSpace(t: Text, s: string) {
    forall i :: 0 <= i < |s| ==> t.space(s[i])
  }

  lemma {:induction false} LeftSplits(t: Text, s: string) returns (left: string)
    ensures s == left + StripLeft(t, s) && AllSpace(t, left)
  {
    left := "";
    if s != "" && t.space(s[0]) {
      var rest := LeftSplits(t, s[1..]);
      left := [s[0]] + rest;
    }
  }

  lemma {:induction false} RightSplits(t: Text, s: string) returns (right: string)
    ensures s == StripRight(t, s) + right && AllSpace(t, right)
    ensures var core := StripRight(t, s); core != "" ==> core[0] == s[0] && !t.space(core[|core| - 1])
  {
    right := "";
    if s != "" && t.space(s[|s| - 1]) {
      var rest := RightSplits(t, s[..|s| - 1]);
      right := rest + [s[|s| - 1]];
    }
  }

  lemma FoldLeIsTotal(t: Text)
    ensures TotalPreorder(FoldLe(t))
  {
    var le := FoldLe(t);
    forall a, b ensures le(a, b) || le(b, a) { LexTotal(t.fold(a), t.fold(b)); }
    forall a, b, c | le(a, b) && le(b, c) ensures le(a, c) { LexTransitive(t.fold(a), t.fold(b), t.fold(c)); }
  }

  lemma {:induction false} DistinctIsDistinct(t: Text, values: seq<string>)
    ensures AllNames(t, Distinct(t, values)) && OneSpelling(t, Distinct(t, values))
    decreases |values|
  {
    if values != [] {
      var last := |values| - 1;
      DistinctIsDistinct(t, values[..last]);
      StripTwice(t, values[last]);
    }
  }

  lemma {:induction false} CleanIsKept(t: Text, genres: seq<string>)
    requires AllNames(t, genres) && OneSpelling(t, genres)
    ensures Distinct(t, genres) == genres
    decreases |genres|
  {
    if genres != [] {
      var last := |genres| - 1;
      CleanIsKept(t, genres[..last]);
      assert genres == genres[..last] + [genres[last]];
    }
  }

  /** Sorting by folded names moves genres but keeps each of them. */
  lemma SortKeepsDistinct(t: Text, genres: seq<string>, result: seq<string>)
    requires AllNames(t, genres) && OneSpelling(t, genres) && result == StableSort(genres, FoldLe(t))
    ensures Clean(t, result) && forall genre :: genre in result <==> genre in genres
  {
    FoldLeIsTotal(t);
    StableSortSorts(genres, FoldLe(t));
    forall genre ensures genre in result <==> genre in genres {
      assert genre in multiset(result) <==> genre in multiset(genres);
    }
    forall i | 0 <= i < |result| ensures Strip(t, result[i]) == result[i] && t.plausible(result[i]) {
      assert result[i] in genres;
    }
    forall i, j | 0 <= i < j < |result| ensures t.fold(result[i]) != t.fold(result[j]) {
      SameFoldOnce(t, genres, result, i, j);
    }
  }

  lemma SameFoldOnce(t: Text, genres: seq<string>, result: seq<string>, i: nat, j: nat)
    requires OneSpelling(t, genres) && multiset(result) == multiset(genres) && i < j < |result|
    ensures t.fold(result[i]) != t.fold(result[j])
  {
    if t.fold(result[i]) == t.fold(result[j]) {
      assert result[i] in multiset(genres) && result[j] in multiset(genres);
      var k :| 0 <= k < |genres| && genres[k] == result[i];
      var l :| 0 <= l < |genres| && genres[l] == result[j];
      assert k == l;
      Twice(result, i, j);
      Once(t, genres, k);
    }
  }

  lemma Twice(s: seq<string>, i: nat, j: nat)
    requires i < j < |s| && s[i] == s[j]
    ensures multiset(s)[s[i]] >= 2
  {
    assert s == s[..j] + s[j..] && s[..j][i] == s[i] && s[j..][0] == s[i];
    assert s[i] in multiset(s[..j]) && s[i] in multiset(s[j..]);
  }

  lemma Once(t: Text, genres: seq<string>, k: nat)
    requires OneSpelling(t, genres) && k < |genres|
    ensures multiset(genres)[genres[k]] == 1
  {
    assert genres == genres[..k] + [genres[k]] + genres[k + 1..];
    assert genres[k] !in genres[..k] && genres[k] !in genres[k + 1..];
  }

  /** A list is left alone by sanitizing exactly when it is clean, and sanitizing makes it so. */
  lemma SanitizedIffClean(t: Text, values: seq<string>)
    ensures Clean(t, Sanitized(t, values))
    ensures Sanitized(t, values) == values <==> Clean(t, values)
  {
    DistinctIsDistinct(t, values);
    SortKeepsDistinct(t, Distinct(t, values), Sanitized(t, values));
    if Clean(t, values) {
      CleanIsKept(t, values);
      SortedIsFixed(values, FoldLe(t));
    }
  }

  /** Sanitized genres stand in ascending order of their folded names. */
  lemma SanitizedAscends(t: Text, values: seq<string>, i: nat, j: nat)
    requires i < j < |Sanitized(t, values)|
    ensures Greater(t.fold(Sanitized(t, values)[j]), t.fold(Sanitized(t, values)[i]))
  {
    hide Sanitized;
    var genres := Sanitized(t, values);
    SanitizedIffClean(t, values);
    assert FoldLe(t)(genres[i], genres[j]);
    GreaterIff(t.fold(genres[j]), t.fold(genres[i]));
  }

  /** So sanitized genres never need to be repaired again. */
  lemma SanitizeTwice(t: Text, values: seq<string>)
    ensures Sanitized(t, Sanitized(t, values)) == Sanitized(t, values)
  {
    SanitizedIffClean(t, values);
    SanitizedIffClean(t, Sanitized(t, values));
  }

  /* ---------- Which genres survive ---------- */

  /** The value is the first plausible one of its folded name. */
  predicate FirstSpelling(t: Text, values: seq<string>, i: nat)
    requires i < |values|
  {
    Names(t, values[i])
    && forall j :: 0 <= j < i && Names(t, values[j]) ==> t.fold(Strip(t, values[j])) != t.fold(Strip(t, values[i]))
  }

  lemma {:induction false} DistinctFolds(t: Text, values: seq<string>, genre: string)
    ensures HasFold(t, Distinct(t, values), genre) <==>
      exists i :: 0 <= i < |values| && Names(t, values[i]) && t.fold(Strip(t, values[i])) == t.fold(genre)
    decreases |values|
  {
    hide Strip;
    if values != [] {
      var last := |values| - 1;
      var before := Distinct(t, values[..last]);
      var added := Strip(t, values[last]);
      DistinctFolds(t, values[..last], genre);
      DistinctFolds(t, values[..last], added);
      AppendFold(t, before, added, genre);
      assert forall i :: 0 <= i < last ==> values[..last][i] == values[i];
    }
  }

  lemma AppendFold(t: Text, before: seq<string>, added: string, genre: string)
    ensures HasFold(t, before + [added], genre) <==> HasFold(t, before, genre) || t.fold(added) == t.fold(genre)
  {
    var all := before + [added];
    if HasFold(t, before, genre) {
      var i :| 0 <= i < |before| && t.fold(before[i]) == t.fold(genre);
      assert all[i] == before[i];
    }
    if t.fold(added) == t.fold(genre) { assert all[|before|] == added; }
  }

  lemma {:induction false} DistinctHas(t: Text, values: seq<string>, genre: string)
    ensures genre in Distinct(t, values) <==>
      exists i :: 0 <= i < |values| && FirstSpelling(t, values, i) && Strip(t, values[i]) == genre
    decreases |values|
  {
    if values != [] {
      var last := |values| - 1;
      var shorter := values[..last];
      DistinctHas(t, shorter, genre);
      forall i: nat | i < last ensures FirstSpelling(t, shorter, i) == FirstSpelling(t, values, i) {
        SpellingInPrefix(t, values, i, last);
      }
      LastSpelling(t, values, last);
    }
  }

  lemma SpellingInPrefix(t: Text, values: seq<string>, i: nat, n: nat)
    requires i < n <= |values|
    ensures FirstSpelling(t, values[..n], i) == FirstSpelling(t, values, i)
  {
    assert values[..n][i] == values[i];
    assert forall j :: 0 <= j < i ==> values[..n][j] == values[j];
  }

  lemma LastSpelling(t: Text, values: seq<string>, last: nat)
    requires last < |values|
    ensures FirstSpelling(t, values, last) <==>
      Names(t, values[last]) && !HasFold(t, Distinct(t, values[..last]), Strip(t, values[last]))
  {
    DistinctFolds(t, values[..last], Strip(t, values[last]));
    assert forall j :: 0 <= j < last ==> values[..last][j] == values[j];
  }

  /** Exactly the first spellings of the plausible names survive. */
  lemma SanitizedHas(t: Text, values: seq<string>, genre: string)
    ensures genre in Sanitized(t, values) <==>
      exists i :: 0 <= i < |values| && FirstSpelling(t, values, i) && Strip(t, values[i]) == genre
  {
    DistinctIsDistinct(t, values);
    SortKeepsDistinct(t, Distinct(t, values), Sanitized(t, values));
    DistinctHas(t, values, genre);
  }

  /** Adding values that sanitizing has already seen changes nothing. */
  lemma SanitizeAgain(t: Text, first: seq<string>, second: seq<string>)
    ensures Sanitized(t, Sanitized(t, first + second) + second) == Sanitized(t, first + second)
  {
    var all := first + second;
    var clean := Sanitized(t, all);
    SanitizedIffClean(t, all);
    forall k | 0 <= k < |second| && Names(t, second[k]) ensures HasFold(t, clean, Strip(t, second[k])) {
      var genre := Strip(t, second[k]);
      assert all[|first| + k] == second[k];
      DistinctFolds(t, all, genre);
      DistinctIsDistinct(t, all);
      SortKeepsDistinct(t, Distinct(t, all), clean);
      var i :| 0 <= i < |Distinct(t, all)| && t.fold(Distinct(t, all)[i]) == t.fold(genre);
      assert Distinct(t, all)[i] in clean;
    }
    KnownAddNothing(t, clean, second);
    SortedIsFixed(clean, FoldLe(t));
  }

  lemma {:induction false} KnownAddNothing(t: Text, clean: seq<string>, more: seq<string>)
    requires Clean(t, clean)
    requires forall k :: 0 <= k < |more| && Names(t, more[k]) ==> HasFold(t, clean, Strip(t, more[k]))
    ensures Distinct(t, clean + more) == clean
    decreases |more|
  {
    if more == [] {
      assert clean + more == clean;
      CleanIsKept(t, clean);
    } else {
      var last := |more| - 1;
      assert (clean + more)[..|clean + more| - 1] == clean + more[..last];
      KnownAddNothing(t, clean, more[..last]);
    }
  }
}
