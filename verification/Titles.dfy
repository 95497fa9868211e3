/** Normalized titles, the numbers in them, and when two titles may name the same game. */
module Titles {

  /** A normalized title as its words. */
  type Title = seq<string>

  predicate IsDigit(c: char) {
    '0' <= c <= '9'
  }

  predicate AllDigits(s: string) {
    s != "" && forall i :: 0 <= i < |s| ==> IsDigit(s[i])
  }

  function Number(s: string): nat
    requires forall i :: 0 <= i < |s| ==> IsDigit(s[i])
  {
    if s == "" then 0
    else
      assert IsDigit(s[|s| - 1]);
      10 * Number(s[..|s| - 1]) + (s[|s| - 1] as int - '0' as int)
  }

  const ROMAN_NUMERALS: map<string, nat> :=
    map["i" := 1, "ii" := 2, "iii" := 3, "iv" := 4, "v" := 5, "vi" := 6, "vii" := 7, "viii" := 8, "ix" := 9, "x" := 10]

  /** The number a word stands for, if any. */
  function SequenceToken(word: string): seq<nat> {
    if AllDigits(word) then [Number(word)]
    else if word in ROMAN_NUMERALS then [ROMAN_NUMERALS[word]]
    else []
  }

  function SequenceTokens(title: Title): seq<nat> {
    if title == [] then [] else SequenceTokens(title[..|title| - 1]) + SequenceToken(title[|title| - 1])
  }

  method CollectSequenceTokens(title: Title) returns (values: seq<nat>)
    ensures values == SequenceTokens(title)
  {
    values := [];
    for i := 0 to |title|
      invariant values == SequenceTokens(title[..i])
    {
      var token := title[i];
      if AllDigits(token) {
        values := values + [Number(token)];
      } else if token in ROMAN_NUMERALS {
        values := values + [ROMAN_NUMERALS[token]];
      }
      assert title[..i + 1][..i] == title[..i];
    }
    assert title[..|title|] == title;
  }

  function Words(title: Title): set<string> {
    set i | 0 <= i < |title| :: title[i]
  }

  /** The larger of the two similarity scores, as a percentage. */
  type Score = (Title, Title) -> int

  const THRESHOLD := 92

  /** Whether an imported title may be matched to an existing game's title. */
  predicate Compatible(score: Score, existing: Title, imported: Title) {
    || existing == imported
    || (&& SequenceTokens(existing) == SequenceTokens(imported)
        && !(Words(existing) < Words(imported)) && !(Words(imported) < Words(existing))
        && score(existing, imported) >= THRESHOLD)
  }

  lemma CompatibleTitlesHaveEqualNumbers(score: Score, existing: Title, imported: Title)
    requires Compatible(score, existing, imported)
    ensures SequenceTokens(existing) == SequenceTokens(imported)
  {
  }

  /* ---------- What compatibility rules out ---------- */

  /** Decimal text without leading zeros is determined by its number. */
  lemma {:induction false} NumberIsInjective(a: string, b: string)
    requires AllDigits(a) && AllDigits(b) && Number(a) == Number(b) && a[0] != '0' && b[0] != '0'
    ensures a == b
    decreases |a|
  {
    var init, other := a[..|a| - 1], b[..|b| - 1];
    assert IsDigit(a[|a| - 1]) && IsDigit(b[|b| - 1]);
    assert a == init + [a[|a| - 1]] && b == other + [b[|b| - 1]];
    LastDigit(a, b);
    if init != "" { NumberIsPositive(init); }
    if other != "" { NumberIsPositive(other); }
    if init != "" && other != "" { NumberIsInjective(init, other); }
  }

  lemma LastDigit(a: string, b: string)
    requires AllDigits(a) && AllDigits(b) && Number(a) == Number(b)
    ensures a[|a| - 1] == b[|b| - 1] && Number(a[..|a| - 1]) == Number(b[..|b| - 1])
  {
    assert IsDigit(a[|a| - 1]) && IsDigit(b[|b| - 1]);
    var c, d := a[|a| - 1] as int - '0' as int, b[|b| - 1] as int - '0' as int;
    assert 10 * Number(a[..|a| - 1]) + c == 10 * Number(b[..|b| - 1]) + d;
  }

  lemma {:induction false} NumberIsPositive(s: string)
    requires AllDigits(s) && s[0] != '0'
    ensures Number(s) > 0
  {
    assert IsDigit(s[|s| - 1]);
    if |s| > 1 { NumberIsPositive(s[..|s| - 1]); }
  }

  lemma {:induction false} TokensAppend(a: Title, b: Title)
    ensures SequenceTokens(a + b) == SequenceTokens(a) + SequenceTokens(b)
    decreases |b|
  {
    if b == [] {
      assert a + b == a;
    } else {
      var last := |b| - 1;
      assert (a + b)[..|a + b| - 1] == a + b[..last];
      TokensAppend(a, b[..last]);
    }
  }

  lemma TokensAround(base: Title, word: string, tail: Title)
    ensures SequenceTokens(base + [word] + tail) == SequenceTokens(base) + SequenceToken(word) + SequenceTokens(tail)
  {
    TokensAppend(base + [word], tail);
    TokensAppend(base, [word]);
    assert [word][..0] == [];
  }

  lemma NumberTells(base: seq<nat>, a: nat, b: nat, tail: seq<nat>)
    requires a != b
    ensures base + [a] + tail != base + [b] + tail && base + [a] + tail != base + tail
  {
    assert (base + [a] + tail)[|base|] == a && (base + [b] + tail)[|base|] == b;
    assert |base + [a] + tail| == |base + tail| + 1;
  }

  /**
    * Parts of a series are never matched: the same title with another number, or without one, is another game,
    * whatever the scores say. A roman numeral up to ten counts as its number.
    */
  lemma SequelsAreNotMatched(score: Score, base: Title, a: string, b: string, tail: Title)
    requires AllDigits(a) && AllDigits(b) && a[0] != '0' && b[0] != '0' && a != b
    ensures !Compatible(score, base + [a] + tail, base + [b] + tail)
    ensures !Compatible(score, base + tail, base + [a] + tail) && !Compatible(score, base + [a] + tail, base + tail)
    ensures forall k :: 0 <= k < |NUMERALS| && k + 1 != Number(a) ==>
      && !Compatible(score, base + [NUMERALS[k]] + tail, base + [a] + tail)
      && !Compatible(score, base + [a] + tail, base + [NUMERALS[k]] + tail)
  {
    hide Words, SequenceTokens, Number;
    var before, after := SequenceTokens(base), SequenceTokens(tail);
    TokensAround(base, a, tail);
    TokensAround(base, b, tail);
    TokensAppend(base, tail);
    if Number(a) == Number(b) { NumberIsInjective(a, b); }
    NumberTells(before, Number(a), Number(b), after);
    forall k | 0 <= k < |NUMERALS| && k + 1 != Number(a)
      ensures SequenceTokens(base + [NUMERALS[k]] + tail) != SequenceTokens(base + [a] + tail)
    {
      TokensAround(base, NUMERALS[k], tail);
      NumeralCounts(k);
      NumberTells(before, Number(a), k + 1, after);
    }
  }

  const NUMERALS: seq<string> := ["i", "ii", "iii", "iv", "v", "vi", "vii", "viii", "ix", "x"]

  lemma NumeralCounts(k: nat)
    requires k < |NUMERALS|
    ensures SequenceToken(NUMERALS[k]) == [k + 1]
  {
    var numeral := NUMERALS[k];
    assert !IsDigit(numeral[0]);
    assert |numeral| == [1, 2, 3, 2, 1, 2, 3, 4, 2, 1][k];
    assert numeral[0] == "iiiivvvvix"[k] && numeral[|numeral| - 1] == "iiivviiixx"[k];
    assert numeral in ROMAN_NUMERALS && ROMAN_NUMERALS[numeral] == k + 1;
  }

  /**
    * Different titles with the same numbers match exactly when each has a word the other lacks, or both have the same
    * words, and the score reaches the threshold; a title that only adds words to another is another game.
    */
  lemma MatchedIff(score: Score, a: Title, b: Title)
    requires a != b && SequenceTokens(a) == SequenceTokens(b)
    ensures Compatible(score, a, b) <==>
      score(a, b) >= 92 && ((exists i :: 0 <= i < |a| && a[i] !in b) <==> (exists j :: 0 <= j < |b| && b[j] !in a))
  {
    assert forall w :: w in Words(a) <==> w in a;
    assert forall w :: w in Words(b) <==> w in b;
    assert (exists i :: 0 <= i < |a| && a[i] !in b) <==> !(Words(a) <= Words(b)) by {
      if i :| 0 <= i < |a| && a[i] !in b { assert a[i] in Words(a); }
    }
    assert (exists j :: 0 <= j < |b| && b[j] !in a) <==> !(Words(b) <= Words(a)) by {
      if j :| 0 <= j < |b| && b[j] !in a { assert b[j] in Words(b); }
    }
  }
}
