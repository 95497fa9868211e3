/** Total preorders and the stable sort behind Python's `sorted`. */
module Orders {

  /** `le` is a total preorder: ties are allowed, which is what makes stability visible. */
  ghost predicate TotalPreorder<T(!new)>(le: (T, T) -> bool) {
    && (forall a, b :: le(a, b) || le(b, a))
    && (forall a, b, c :: le(a, b) && le(b, c) ==> le(a, c))
  }

  ghost predicate Sorted<T>(s: seq<T>, le: (T, T) -> bool) {
    forall i, j :: 0 <= i < j < |s| ==> le(s[i], s[j])
  }

  function Filter<T>(s: seq<T>, keep: T -> bool): seq<T> {
    if s == [] then []
    else if keep(s[0]) then [s[0]] + Filter(s[1..], keep)
    else Filter(s[1..], keep)
  }

  lemma ConcatAssociates<T>(a: seq<T>, b: seq<T>, c: seq<T>)
    ensures a + (b + c) == a + b + c
  {
  }

  function Insert<T>(x: T, s: seq<T>, le: (T, T) -> bool): seq<T> {
    if s == [] then [x]
    else if le(x, s[0]) then [x] + s
    else [s[0]] + Insert(x, s[1..], le)
  }

  /** Equal elements keep their input order: `x` goes before every later element it ties with. */
  function StableSort<T>(s: seq<T>, le: (T, T) -> bool): seq<T> {
    if s == [] then [] else Insert(s[0], StableSort(s[1..], le), le)
  }

  lemma Front<T>(s: seq<T>)
    requires s != []
    ensures multiset(s) == multiset{s[0]} + multiset(s[1..])
  {
    assert s == [s[0]] + s[1..];
  }

  lemma {:induction false} InsertElements<T>(x: T, s: seq<T>, le: (T, T) -> bool)
    ensures multiset(Insert(x, s, le)) == multiset{x} + multiset(s)
  {
    var inserted := Insert(x, s, le);
    Front(inserted);
    if s == [] || le(x, s[0]) {
      assert inserted[1..] == s;
    } else {
      var rest := Insert(x, s[1..], le);
      assert inserted[1..] == rest;
      InsertElements(x, s[1..], le);
      Front(s);
    }
  }

  lemma SortedFront<T>(x: T, s: seq<T>, le: (T, T) -> bool)
    requires Sorted(s, le) && forall i :: 0 <= i < |s| ==> le(x, s[i])
    ensures Sorted([x] + s, le)
  {
  }

  lemma {:induction false} InsertKeeps<T(!new)>(x: T, s: seq<T>, le: (T, T) -> bool)
    requires TotalPreorder(le) && Sorted(s, le)
    ensures Sorted(Insert(x, s, le), le)
    ensures multiset(Insert(x, s, le)) == multiset{x} + multiset(s)
  {
    InsertElements(x, s, le);
    if s != [] && !le(x, s[0]) {
      var rest := Insert(x, s[1..], le);
      InsertKeeps(x, s[1..], le);
      forall i | 0 <= i < |rest| ensures le(s[0], rest[i]) {
        assert rest[i] in multiset(rest);
      }
      SortedFront(s[0], rest, le);
    }
  }

  lemma {:induction false} StableSortSorts<T(!new)>(s: seq<T>, le: (T, T) -> bool)
    requires TotalPreorder(le)
    ensures Sorted(StableSort(s, le), le)
    ensures multiset(StableSort(s, le)) == multiset(s)
    ensures |StableSort(s, le)| == |s|
  {
    if s != [] {
      StableSortSorts(s[1..], le);
      InsertKeeps(s[0], StableSort(s[1..], le), le);
      assert s == [s[0]] + s[1..];
      assert |multiset(StableSort(s, le))| == |multiset(s)|;
    }
  }

  lemma {:induction false} SortedIsFixed<T(!new)>(s: seq<T>, le: (T, T) -> bool)
    requires Sorted(s, le)
    ensures StableSort(s, le) == s
  {
    if s != [] {
      SortedIsFixed(s[1..], le);
      if |s| > 1 {
        assert le(s[0], s[1]);
        assert s == [s[0]] + s[1..];
      }
    }
  }

  /** `t` is `s` with `x` at `p`. */
  ghost predicate At<T>(x: T, s: seq<T>, p: nat, t: seq<T>) {
    p <= |s| && |t| == |s| + 1
    && forall k {:trigger t[k]} :: 0 <= k < |t| ==> t[k] == if k == p then x else s[Skip(k, p)]
  }

  /** Where an element was before one was put in at `p`. */
  function Skip(k: nat, p: nat): nat
    requires k != p
  {
    if k < p then k else k - 1
  }

  lemma AtFront<T>(x: T, s: seq<T>)
    ensures At(x, s, 0, [x] + s)
  {
  }

  lemma AtLater<T>(x: T, first: T, s: seq<T>, p: nat, t: seq<T>)
    requires At(x, s, p, t)
    ensures At(x, [first] + s, p + 1, [first] + t)
  {
    var all, longer := [first] + t, [first] + s;
    forall k | 0 <= k < |all| ensures all[k] == if k == p + 1 then x else longer[Skip(k, p + 1)] {
      if k > 0 { assert all[k] == t[k - 1]; }
    }
  }

  /** Inserting puts the new element behind smaller ones only, so before those it ties with. */
  lemma {:induction false} InsertPlace<T>(x: T, s: seq<T>, le: (T, T) -> bool) returns (p: nat)
    ensures At(x, s, p, Insert(x, s, le))
    ensures forall i :: 0 <= i < p ==> !le(x, s[i])
  {
    hide At;
    if s == [] || le(x, s[0]) {
      p := 0;
      AtFront(x, s);
      assert [x] + s == Insert(x, s, le);
    } else {
      var q := InsertPlace(x, s[1..], le);
      p := q + 1;
      AtLater(x, s[0], s[1..], q, Insert(x, s[1..], le));
      assert [s[0]] + s[1..] == s;
      PlaceBelow(x, s[1..], q, Insert(x, s[1..], le));
    }
  }

  lemma PlaceBelow<T>(x: T, s: seq<T>, p: nat, t: seq<T>)
    requires At(x, s, p, t)
    ensures p <= |s|
  {
  }

  /** `from` tells for each element of `t` which element of `s` it is, none twice. */
  ghost predicate Picks<T>(t: seq<T>, s: seq<T>, from: seq<nat>) {
    && |from| == |t|
    && (forall k :: 0 <= k < |t| ==> from[k] < |s| && t[k] == s[from[k]])
    && (forall i, j :: 0 <= i < j < |t| ==> from[i] != from[j])
  }

  /** Elements of `s` that tie are picked in the order of their positions. */
  ghost predicate Steady<T>(s: seq<T>, le: (T, T) -> bool, from: seq<nat>)
    requires forall k :: 0 <= k < |from| ==> from[k] < |s|
  {
    forall i, j :: 0 <= i < j < |from| && le(s[from[i]], s[from[j]]) && le(s[from[j]], s[from[i]]) ==> from[i] < from[j]
  }

  /** Where the picked elements are when one more stands in front. */
  function Shifted(from: seq<nat>): (shifted: seq<nat>)
    ensures |shifted| == |from| && forall k :: 0 <= k < |from| ==> shifted[k] == from[k] + 1
  {
    seq(|from|, k requires 0 <= k < |from| => from[k] + 1)
  }

  lemma PicksOneMore<T>(t: seq<T>, s: seq<T>, rest: seq<nat>, p: nat, more: seq<T>, from: seq<nat>)
    requires s != [] && Picks(t, s[1..], rest) && At(s[0], t, p, more) && At(0, Shifted(rest), p, from)
    ensures Picks(more, s, from)
  {
    forall k | 0 <= k < |more| ensures from[k] < |s| && more[k] == s[from[k]] {
      if k != p {
        var i := Skip(k, p);
        assert from[k] == Shifted(rest)[i] && t[i] == s[1..][rest[i]];
      }
    }
    forall i, j | 0 <= i < j < |more| ensures from[i] != from[j] {
      if i != p && j != p {
        assert rest[Skip(i, p)] != rest[Skip(j, p)];
      }
    }
  }

  lemma SteadyOneMore<T>(t: seq<T>, s: seq<T>, le: (T, T) -> bool, rest: seq<nat>, p: nat, from: seq<nat>)
    requires s != [] && Picks(t, s[1..], rest) && Steady(s[1..], le, rest) && At(0, Shifted(rest), p, from)
    requires forall i :: 0 <= i < p ==> !le(s[0], t[i])
    ensures forall k :: 0 <= k < |from| ==> from[k] < |s|
    ensures Steady(s, le, from)
  {
    forall k | 0 <= k < |from| && k != p ensures from[k] == rest[Skip(k, p)] + 1 && s[from[k]] == t[Skip(k, p)] { }
    forall i, j | 0 <= i < j < |from| && le(s[from[i]], s[from[j]]) && le(s[from[j]], s[from[i]])
      ensures from[i] < from[j]
    {
      if i != p && j != p {
        var a, b := Skip(i, p), Skip(j, p);
        assert s[from[i]] == s[1..][rest[a]] && s[from[j]] == s[1..][rest[b]];
      }
    }
  }

  lemma SameLength<T>(t: seq<T>, s: seq<T>, from: seq<nat>)
    requires Picks(t, s, from)
    ensures |from| == |t|
  {
  }

  lemma PutIn(rest: seq<nat>, p: nat) returns (from: seq<nat>)
    requires p <= |rest|
    ensures At(0, Shifted(rest), p, from)
  {
    from := Shifted(rest)[..p] + [0] + Shifted(rest)[p..];
  }

  /** Stability: the sorted elements are those of the input, and those that tie keep their order. */
  lemma {:induction false} StableSortPicks<T(!new)>(s: seq<T>, le: (T, T) -> bool) returns (from: seq<nat>)
    ensures Picks(StableSort(s, le), s, from) && Steady(s, le, from)
  {
    if s == [] {
      from := [];
    } else {
      hide Insert, Picks, Steady, At;
      var sorted := StableSort(s[1..], le);
      var rest := StableSortPicks(s[1..], le);
      var p := InsertPlace(s[0], sorted, le);
      PlaceBelow(s[0], sorted, p, StableSort(s, le));
      assert |rest| == |sorted| by { SameLength(sorted, s[1..], rest); }
      from := PutIn(rest, p);
      PicksOneMore(sorted, s, rest, p, StableSort(s, le), from);
      SteadyOneMore(sorted, s, le, rest, p, from);
    }
  }

  /** Filtering keeps the order. */
  lemma {:induction false} FilterPicks<T>(s: seq<T>, keep: T -> bool) returns (from: seq<nat>)
    ensures Picks(Filter(s, keep), s, from) && forall i, j :: 0 <= i < j < |from| ==> from[i] < from[j]
  {
    if s == [] {
      from := [];
    } else {
      var rest := FilterPicks(s[1..], keep);
      var kept := Filter(s[1..], keep);
      forall k | 0 <= k < |kept| ensures kept[k] == s[Shifted(rest)[k]] { }
      if keep(s[0]) {
        from := [0] + Shifted(rest);
        assert At(s[0], kept, 0, Filter(s, keep)) && At(0, Shifted(rest), 0, from);
        PicksOneMore(kept, s, rest, 0, Filter(s, keep), from);
      } else {
        from := Shifted(rest);
      }
    }
  }

  lemma {:induction false} FilterAppend<T>(a: seq<T>, b: seq<T>, keep: T -> bool)
    ensures Filter(a + b, keep) == Filter(a, keep) + Filter(b, keep)
  {
    if a == [] {
      assert a + b == b;
    } else {
      assert (a + b)[1..] == a[1..] + b;
      FilterAppend(a[1..], b, keep);
    }
  }

  lemma {:induction false} FilterIn<T>(s: seq<T>, keep: T -> bool, x: T)
    ensures x in Filter(s, keep) <==> x in s && keep(x)
  {
    if s != [] { FilterIn(s[1..], keep, x); }
  }

  /** Inserting first and filtering afterwards is the same as the other way round. */
  lemma {:induction false} FilterInsert<T(!new)>(x: T, s: seq<T>, le: (T, T) -> bool, keep: T -> bool)
    requires TotalPreorder(le) && Sorted(s, le)
    ensures Filter(Insert(x, s, le), keep)
         == if keep(x) then Insert(x, Filter(s, keep), le) else Filter(s, keep)
  {
    if s == [] {
    } else if le(x, s[0]) {
      assert ([x] + s)[1..] == s;
      if keep(x) && Filter(s, keep) != [] {
        var f := Filter(s, keep)[0];
        FilterIn(s, keep, f);
        var i :| 0 <= i < |s| && s[i] == f;
        assert le(x, f) by { if i > 0 { assert le(s[0], s[i]); } }
      }
    } else {
      FilterInsert(x, s[1..], le, keep);
      var rest := Insert(x, s[1..], le);
      assert ([s[0]] + rest)[1..] == rest;
      if keep(s[0]) {
        assert ([s[0]] + Filter(s[1..], keep))[1..] == Filter(s[1..], keep);
      } else if keep(x) && Filter(s[1..], keep) != [] {
      }
    }
  }

  /** Filtering and stable sorting commute, so a stricter filter selects a subsequence of the sorted result. */
  lemma {:induction false} FilterCommutesWithStableSort<T(!new)>(s: seq<T>, le: (T, T) -> bool, keep: T -> bool)
    requires TotalPreorder(le)
    ensures Filter(StableSort(s, le), keep) == StableSort(Filter(s, keep), le)
  {
    if s != [] {
      FilterCommutesWithStableSort(s[1..], le, keep);
      StableSortSorts(s[1..], le);
      FilterInsert(s[0], StableSort(s[1..], le), le, keep);
      if keep(s[0]) {
        assert ([s[0]] + Filter(s[1..], keep))[1..] == Filter(s[1..], keep);
      }
    }
  }

  /** Two sorted sequences with the same elements agree when ties mean equality. */
  lemma {:induction false} SortedUnique<T(!new)>(a: seq<T>, b: seq<T>, le: (T, T) -> bool)
    requires Sorted(a, le) && Sorted(b, le) && multiset(a) == multiset(b)
    requires forall x :: le(x, x)
    requires forall x, y :: x in a && y in a && le(x, y) && le(y, x) ==> x == y
    ensures a == b
  {
    if a == [] {
      assert |multiset(b)| == 0;
    } else {
      assert b != [] by { assert a[0] in multiset(b); }
      SortedHeads(a, b, le);
      SortedHeads(b, a, le);
      assert a[0] == b[0];
      MultisetTail(a);
      MultisetTail(b);
      SortedUnique(a[1..], b[1..], le);
      assert a == [a[0]] + a[1..] && b == [b[0]] + b[1..];
    }
  }

  lemma MultisetTail<T>(s: seq<T>)
    requires s != []
    ensures multiset(s[1..]) == multiset(s) - multiset{s[0]}
  {
    Front(s);
  }

  lemma SortedHeads<T(!new)>(a: seq<T>, b: seq<T>, le: (T, T) -> bool)
    requires Sorted(a, le) && multiset(a) == multiset(b) && a != [] && b != []
    requires forall x :: le(x, x)
    ensures b[0] in a && le(a[0], b[0])
  {
    assert b[0] in multiset(b);
    assert b[0] in multiset(a);
    var j :| 0 <= j < |a| && a[j] == b[0];
    if j > 0 { assert le(a[0], a[j]); }
  }

  /** Every nonempty finite set has a least element, so Python's `min` and `max` with a key are defined. */
  lemma {:induction false} LeastExists<T(!new)>(s: set<T>, le: (T, T) -> bool) returns (m: T)
    requires TotalPreorder(le) && s != {}
    ensures m in s && forall x :: x in s ==> le(m, x)
  {
    var x :| x in s;
    if s == {x} {
      m := x;
    } else {
      var n := LeastExists(s - {x}, le);
      m := if le(x, n) then x else n;
      assert forall y :: y in s ==> y == x || y in s - {x};
    }
  }

  /** Lexicographic order: Python's comparison of strings and of byte strings. */
  predicate LexLe(a: seq<int>, b: seq<int>) {
    a == [] || (b != [] && (a[0] < b[0] || (a[0] == b[0] && LexLe(a[1..], b[1..]))))
  }

  lemma {:induction false} LexTotal(a: seq<int>, b: seq<int>)
    ensures LexLe(a, b) || LexLe(b, a)
    ensures LexLe(a, b) && LexLe(b, a) ==> a == b
  {
    if a != [] && b != [] {
      LexTotal(a[1..], b[1..]);
      assert a == [a[0]] + a[1..] && b == [b[0]] + b[1..];
    }
  }

  lemma {:induction false} LexTransitive(a: seq<int>, b: seq<int>, c: seq<int>)
    requires LexLe(a, b) && LexLe(b, c)
    ensures LexLe(a, c)
  {
    if a != [] && b != [] && c != [] && a[0] == b[0] == c[0] {
      LexTransitive(a[1..], b[1..], c[1..]);
    }
  }

  /** The text is greater: it goes on where the other ends, or has the greater character where they first differ. */
  ghost predicate Greater(a: seq<int>, b: seq<int>) {
    exists k :: 0 <= k < |a| && k <= |b| && a[..k] == b[..k] && (k == |b| || a[k] > b[k])
  }

  /** Equal first characters do not decide. */
  lemma GreaterRest(a: seq<int>, b: seq<int>)
    requires a != [] && b != [] && a[0] == b[0]
    ensures Greater(a, b) <==> Greater(a[1..], b[1..])
  {
    var x, y := a[1..], b[1..];
    forall k: nat | k <= |x| && k <= |y| ensures a[..k + 1] == b[..k + 1] <==> x[..k] == y[..k] {
      assert a[..k + 1] == [a[0]] + x[..k] && b[..k + 1] == [b[0]] + y[..k];
      assert a[..k + 1][1..] == x[..k] && b[..k + 1][1..] == y[..k];
    }
    if k :| 0 <= k < |x| && k <= |y| && x[..k] == y[..k] && (k == |y| || x[k] > y[k]) {
      var next := k + 1;
      assert a[..next] == b[..next] && a[next] == x[k] && (k < |y| ==> b[next] == y[k]);
    }
    if k :| 0 <= k < |a| && k <= |b| && a[..k] == b[..k] && (k == |b| || a[k] > b[k]) {
      var before := k - 1;
      assert a[..before + 1] == b[..before + 1] && x[before] == a[k] && (k < |b| ==> y[before] == b[k]);
    }
  }

  lemma GreaterFirst(a: seq<int>, b: seq<int>)
    requires a != [] && b != [] && a[0] != b[0]
    ensures Greater(a, b) <==> a[0] > b[0]
  {
    if a[0] > b[0] { assert a[..0] == b[..0]; }
    forall k | 0 < k <= |a| && k <= |b| ensures a[..k] != b[..k] {
      assert a[..k][0] == a[0] && b[..k][0] == b[0];
    }
  }

  lemma {:induction false} GreaterIff(a: seq<int>, b: seq<int>)
    ensures Greater(a, b) <==> LexLe(b, a) && a != b
  {
    if a != [] && b != [] {
      hide Greater;
      assert a == [a[0]] + a[1..] && b == [b[0]] + b[1..];
      GreaterIff(a[1..], b[1..]);
      if a[0] == b[0] { GreaterRest(a, b); } else { GreaterFirst(a, b); }
    } else {
      assert a[..0] == b[..0];
    }
  }
}
