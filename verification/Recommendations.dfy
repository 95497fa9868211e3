/** Which games suit a group: who owns them, how much of the group that is, and in which order they are listed. */
module Recommendations {
  import opened Options
  import opened Orders

  type Platform = string

  datatype Owned = Owned(participant: nat, platform: Platform, playtime: int)

  datatype Account = Account(platform: Platform, synced: bool, failed: bool)

  datatype Person = Person(id: nat, accounts: seq<Account>)

  /** A game with the group's ownerships of it; `folded` is the case-folded title. */
  datatype Game = Game(
    isFree: bool, onlineCoop: bool, localCoop: bool, maxPlayers: int, folded: seq<int>, mapped: set<Platform>,
      owned: seq<Owned>)

  datatype Mode = Common | Coop | Lan | Popular | GroupSize | New

  datatype Recommendation = Recommendation(
    game: Game, owners: nat, available: nat, known: nat, selected: nat, coverage: real,
    total: int, average: real, median: real, playtimes: map<nat, int>)

  /** The numbers that are rounded or depend on settings. */
  datatype Figures = Figures(percent: real -> real, median: multiset<int> -> real, optional: set<Platform>)

  /* ---------- Who owns the game, and whose library is unknown ---------- */

  function Owners(game: Game): set<nat> {
    set i | 0 <= i < |game.owned| :: game.owned[i].participant
  }

  function Platforms(game: Game): set<Platform> {
    game.mapped + set i | 0 <= i < |game.owned| :: game.owned[i].platform
  }

  /**
    * Accounts that say something about a library: platforms declared optional count only once they were synchronized.
    */
  predicate Counts(figures: Figures, account: Account) {
    account.platform !in figures.optional || account.synced
  }

  predicate Unsettled(account: Account) {
    account.failed || !account.synced
  }

  predicate LibraryUnknown(figures: Figures, person: Person, platforms: set<Platform>) {
    var accounts := Filter(person.accounts, (account: Account) => Counts(figures, account));
    accounts == [] || exists i :: 0 <= i < |accounts| && accounts[i].platform in platforms && Unsettled(accounts[i])
  }

  function Unknown(figures: Figures, people: seq<Person>, game: Game): set<nat> {
    set i | 0 <= i < |people| && people[i].id !in Owners(game)
      && LibraryUnknown(figures, people[i], Platforms(game)) :: people[i].id
  }

  /* ---------- One recommendation ---------- */

  /** Playtime of one participant over all platforms. */
  function PlayedBy(owned: seq<Owned>, participant: nat): int
    decreases |owned|
  {
    if owned == [] then 0
    else
      PlayedBy(owned[..|owned| - 1], participant)
      + if owned[|owned| - 1].participant == participant then owned[|owned| - 1].playtime else 0
  }

  function Total(owned: seq<Owned>): int
    decreases |owned|
  {
    if owned == [] then 0 else Total(owned[..|owned| - 1]) + owned[|owned| - 1].playtime
  }

  function PlayedByAll(owners: set<nat>, owned: seq<Owned>): map<nat, int> {
    map participant | participant in owners :: PlayedBy(owned, participant)
  }

  function Playtimes(game: Game): map<nat, int> {
    PlayedByAll(Owners(game), game.owned)
  }

  function Values(m: map<nat, int>): (values: multiset<int>)
    decreases |m|
  {
    if m == map[] then multiset{} else var k := Smallest(m.Keys); multiset{m[k]} + Values(m - {k})
  }

  function Smallest(s: set<nat>): (m: nat)
    requires s != {}
    ensures m in s && forall n :: n in s ==> m <= n
  {
    LeastNat(s);
    var m :| m in s && forall n :: n in s ==> m <= n;
    m
  }

  lemma LeastNat(s: set<nat>)
    requires s != {}
    ensures exists m :: m in s && forall n :: n in s ==> m <= n
  {
    var le := (a: nat, b: nat) => a <= b;
    var m := LeastExists(s, le);
    forall n | n in s ensures m <= n { assert le(m, n); }
  }

  /** The group, the rows of its members, and whether free games count as everyone's. */
  datatype Group = Group(ids: set<nat>, people: seq<Person>, freeAsOwned: bool)

  predicate FreeFor(group: Group, game: Game) {
    game.isFree && group.freeAsOwned
  }

  function UnknownIn(figures: Figures, group: Group, game: Game): set<nat> {
    if FreeFor(group, game) then {} else Unknown(figures, group.people, game)
  }

  function Coverage(available: nat, known: nat, free: bool): real {
    if known != 0 then available as real / known as real else if free then 1.0 else 0.0
  }

  /** The query returns games that somebody in the group owns, with the group's ownerships only. */
  ghost predicate Valid(group: Group, game: Game) {
    && game.owned != [] && Owners(game) <= group.ids
    && forall i :: 0 <= i < |group.people| ==> group.people[i].id in group.ids
  }

  lemma UnknownIsDisjoint(figures: Figures, group: Group, game: Game)
    requires Valid(group, game)
    ensures UnknownIn(figures, group, game) <= group.ids - Owners(game)
    ensures |UnknownIn(figures, group, game)| <= |group.ids| - |Owners(game)|
  {
    var unknown := UnknownIn(figures, group, game);
    Fewer(unknown, group.ids - Owners(game));
    assert |group.ids - Owners(game)| == |group.ids| - |Owners(game)|;
  }

  lemma Fewer(a: set<nat>, b: set<nat>)
    requires a <= b
    ensures |a| <= |b|
  {
    assert b == a + (b - a);
    assert |a + (b - a)| == |a| + |b - a|;
  }

  function Built(figures: Figures, group: Group, game: Game): Recommendation
    requires Valid(group, game)
  {
    UnknownIsDisjoint(figures, group, game);
    var owners := |Owners(game)|;
    var known := |group.ids| - |UnknownIn(figures, group, game)|;
    var available := if FreeFor(group, game) then |group.ids| else owners;
    var total := Total(game.owned);
    Recommendation(game, owners, available, known, |group.ids|, Coverage(available, known, FreeFor(group, game)), total,
      if owners != 0 then total as real / owners as real else 0.0,
      figures.median(Values(Playtimes(game))), Playtimes(game))
  }

  /** What the numbers of a recommended game mean. */
  lemma CoverageIsAFraction(figures: Figures, group: Group, game: Game)
    requires Valid(group, game)
    ensures var r := Built(figures, group, game);
      && 1 <= r.owners <= r.known <= r.selected && r.owners <= r.available <= r.known
      && 0.0 < r.coverage <= 1.0
      && (r.coverage == 1.0 <==> r.available == r.known)
      && r.coverage * r.known as real == r.available as real
      && (FreeFor(group, game) ==> r.coverage == 1.0 && r.available == r.selected)
      && r.average * r.owners as real == r.total as real
  {
    var r := Built(figures, group, game);
    UnknownIsDisjoint(figures, group, game);
    assert game.owned[0].participant in Owners(game);
    Fewer(Owners(game), group.ids);
    Fewer({game.owned[0].participant}, Owners(game));
    Quotient(r.available, r.known);
    Quotient(1, r.owners);
  }

  lemma Quotient(a: nat, b: nat)
    requires 1 <= a <= b
    ensures var q := a as real / b as real;
      0.0 < q <= 1.0 && (q == 1.0 <==> a == b) && q * b as real == a as real
  {
  }

  /* ---------- Playtime is conserved ---------- */

  function Sum(m: map<nat, int>): int
    decreases |m|
  {
    if m == map[] then 0 else var k := Smallest(m.Keys); m[k] + Sum(m - {k})
  }

  lemma {:induction false} SumWithout(m: map<nat, int>, k: nat)
    requires k in m
    ensures Sum(m) == m[k] + Sum(m - {k})
    decreases |m|
  {
    var first := Smallest(m.Keys);
    if k != first {
      var a, b := m - {first}, m - {k};
      SumWithout(a, k);
      SumWithout(b, first);
      assert a - {k} == b - {first};
    }
  }

  lemma SumAfterPut(m: map<nat, int>, k: nat, v: int)
    ensures Sum(m[k := v]) == Sum(m) + v - if k in m then m[k] else 0
  {
    SumWithout(m[k := v], k);
    if k in m {
      SumWithout(m, k);
      assert m[k := v] - {k} == m - {k};
    } else {
      assert m[k := v] - {k} == m;
    }
  }

  /** One more ownership adds its playtime to its owner's and to the total. */
  lemma OneOwnedMore(owners: set<nat>, owned: seq<Owned>, i: nat)
    requires i < |owned| && owned[i].participant in owners
    ensures Total(owned[..i + 1]) == Total(owned[..i]) + owned[i].playtime
    ensures var before := PlayedByAll(owners, owned[..i]);
      PlayedByAll(owners, owned[..i + 1])
      == before[owned[i].participant := before[owned[i].participant] + owned[i].playtime]
  {
    assert owned[..i + 1][..i] == owned[..i];
  }

  /** The loops that start every owner at zero and add up the ownerships. */
  method CollectPlaytimes(game: Game) returns (playtimes: map<nat, int>, total: int)
    ensures playtimes == Playtimes(game) && total == Total(game.owned)
    ensures Sum(playtimes) == total
  {
    var owners := Owners(game);
    playtimes := map participant | participant in owners :: 0;
    total := 0;
    ZeroSum(playtimes);
    for i := 0 to |game.owned|
      invariant playtimes == PlayedByAll(owners, game.owned[..i])
      invariant total == Total(game.owned[..i]) && Sum(playtimes) == total
    {
      var own := game.owned[i];
      OneOwnedMore(owners, game.owned, i);
      var played := playtimes[own.participant] + own.playtime;
      SumAfterPut(playtimes, own.participant, played);
      playtimes := playtimes[own.participant := played];
      total := total + own.playtime;
    }
    assert game.owned[..|game.owned|] == game.owned;
  }

  lemma {:induction false} ZeroSum(m: map<nat, int>)
    requires forall k :: k in m ==> m[k] == 0
    ensures Sum(m) == 0
    decreases |m|
  {
    if m != map[] { ZeroSum(m - {Smallest(m.Keys)}); }
  }

  /** Totals are sums: one ownership's playtime, and additive. */
  lemma {:induction false} TotalIsAdditive(a: seq<Owned>, b: seq<Owned>, own: Owned)
    ensures Total([own]) == own.playtime && Total(a + b) == Total(a) + Total(b)
    decreases |b|
  {
    assert [own][..0] == [];
    if b == [] {
      assert a + b == a;
    } else {
      var last := |b| - 1;
      assert (a + b)[..|a + b| - 1] == a + b[..last];
      TotalIsAdditive(a, b[..last], own);
    }
  }

  function OwnedBy(participant: nat): Owned -> bool {
    (own: Owned) => own.participant == participant
  }

  lemma {:induction false} PlayedByIsOwn(owned: seq<Owned>, participant: nat)
    ensures PlayedBy(owned, participant) == Total(Filter(owned, OwnedBy(participant)))
    decreases |owned|
  {
    hide Total;
    if owned == [] {
      TotalOfNone();
    } else {
      var init, last, own := owned[..|owned| - 1], owned[|owned| - 1], OwnedBy(participant);
      PlayedByIsOwn(init, participant);
      assert owned == init + [last];
      FilterAppend(init, [last], own);
      assert Filter([last], own) == if last.participant == participant then [last] else [];
      TotalIsAdditive(Filter(init, own), Filter([last], own), last);
      TotalOfNone();
    }
  }

  lemma TotalOfNone()
    ensures Total([]) == 0
  {
  }

  function KeysWith(m: map<nat, int>, value: int): set<nat> {
    set k | k in m && m[k] == value
  }

  /** Every value is there as often as there are keys with it. */
  lemma {:induction false} ValuesCount(m: map<nat, int>, value: int)
    ensures Values(m)[value] == |KeysWith(m, value)|
    decreases |m|
  {
    var keys := KeysWith(m, value);
    if m == map[] {
      assert keys == {};
    } else {
      var first := Smallest(m.Keys);
      var rest := m - {first};
      ValuesCount(rest, value);
      var fewer := KeysWith(rest, value);
      assert Values(m)[value] == Values(rest)[value] + if m[first] == value then 1 else 0;
      assert fewer == keys - {first};
      assert keys == if m[first] == value then fewer + {first} else fewer;
    }
  }

  /** The account tells something about the game's library that is not certain. */
  ghost predicate Doubtful(figures: Figures, game: Game, account: Account) {
    && (account.platform in figures.optional ==> account.synced) && (account.failed || !account.synced)
    && (account.platform in game.mapped
        || exists i :: 0 <= i < |game.owned| && game.owned[i].platform == account.platform)
  }

  /** Nobody knows whether the person owns the game: no account counts, or one on a platform of the game is doubtful. */
  ghost predicate Uncertain(figures: Figures, game: Game, person: Person) {
    || (forall i :: 0 <= i < |person.accounts| ==>
          person.accounts[i].platform in figures.optional && !person.accounts[i].synced)
    || (exists i :: 0 <= i < |person.accounts| && Doubtful(figures, game, person.accounts[i]))
  }

  lemma UncertainIff(figures: Figures, game: Game, person: Person)
    ensures LibraryUnknown(figures, person, Platforms(game)) <==> Uncertain(figures, game, person)
  {
    hide Platforms;
    var counts := (account: Account) => Counts(figures, account);
    var accounts := Filter(person.accounts, counts);
    forall account: Account
      ensures account in accounts <==> account in person.accounts && Counts(figures, account)
      ensures Doubtful(figures, game, account) <==>
        Counts(figures, account) && account.platform in Platforms(game) && Unsettled(account)
    {
      FilterIn(person.accounts, counts, account);
      PlatformIff(game, account.platform);
    }
    assert accounts == [] <==> forall i :: 0 <= i < |person.accounts| ==> !Counts(figures, person.accounts[i]) by {
      if accounts != [] { assert accounts[0] in person.accounts; }
      forall i | 0 <= i < |person.accounts| && Counts(figures, person.accounts[i]) ensures accounts != [] {
        assert person.accounts[i] in accounts;
      }
    }
    if j :| 0 <= j < |accounts| && accounts[j].platform in Platforms(game) && Unsettled(accounts[j]) {
      assert accounts[j] in accounts;
      var i :| 0 <= i < |person.accounts| && person.accounts[i] == accounts[j];
      assert Doubtful(figures, game, person.accounts[i]);
    }
    if i :| 0 <= i < |person.accounts| && Doubtful(figures, game, person.accounts[i]) {
      assert person.accounts[i] in accounts;
    }
  }

  lemma PlatformIff(game: Game, platform: Platform)
    ensures platform in Platforms(game) <==>
      platform in game.mapped || exists i :: 0 <= i < |game.owned| && game.owned[i].platform == platform
  {
  }

  ghost predicate Owns(game: Game, participant: nat) {
    exists i :: 0 <= i < |game.owned| && game.owned[i].participant == participant
  }

  /** Who is counted in a recommendation, and with what playtime. */
  lemma BuiltIsRight(figures: Figures, group: Group, game: Game) returns (owners: set<nat>, unknown: set<nat>)
    requires Valid(group, game)
    ensures forall p :: p in owners <==> Owns(game, p)
    ensures forall p :: p in unknown <==>
      && !(game.isFree && group.freeAsOwned) && !Owns(game, p)
      && exists i :: 0 <= i < |group.people| && group.people[i].id == p && Uncertain(figures, game, group.people[i])
    ensures var r := Built(figures, group, game);
      && r.owners == |owners| && r.known == |group.ids| - |unknown| && r.selected == |group.ids|
      && r.available == (if game.isFree && group.freeAsOwned then |group.ids| else |owners|)
      && r.playtimes.Keys == owners && r.total == Total(game.owned)
      && r.median == figures.median(Values(r.playtimes))
      && (forall p :: p in owners ==>
            r.playtimes[p] == Total(Filter(game.owned, OwnedBy(p))))
  {
    hide Uncertain, LibraryUnknown, Platforms, Total, PlayedBy, Coverage, Values;
    owners, unknown := Owners(game), UnknownIn(figures, group, game);
    UnknownIsDisjoint(figures, group, game);
    forall i | 0 <= i < |group.people|
      ensures LibraryUnknown(figures, group.people[i], Platforms(game)) <==> Uncertain(figures, game, group.people[i])
    {
      UncertainIff(figures, game, group.people[i]);
    }
    forall p ensures PlayedBy(game.owned, p) == Total(Filter(game.owned, OwnedBy(p))) {
      PlayedByIsOwn(game.owned, p);
    }
  }

  /* ---------- The list ---------- */

  predicate FullyOwned(r: Recommendation) {
    r.owners == r.selected
  }

  predicate FreeForAll(r: Recommendation) {
    r.game.isFree && !FullyOwned(r) && r.available == r.selected
  }

  function AvailabilityGroup(r: Recommendation): int {
    if FullyOwned(r) then 3 else if FreeForAll(r) then 2 else 1
  }

  function Digit(b: bool): real {
    if b then 1.0 else 0.0
  }

  /** What the list is sorted by, before the title. */
  function Rank(figures: Figures, mode: Mode, r: Recommendation): seq<real> {
    var owners, total, players := r.owners as real, r.total as real, r.game.maxPlayers as real;
    match mode
    case Common => [AvailabilityGroup(r) as real, owners, figures.percent(r.coverage), r.median, total, players]
    case Coop => [Digit(r.game.onlineCoop), Digit(r.game.localCoop), owners, players, total]
    case Lan => [owners, players, total]
    case GroupSize => [owners, total, players]
    case New => [-r.median, -r.average, owners, figures.percent(r.coverage), players]
    case Popular => [owners, r.median, total]
  }

  /** Comparing two tuples of the same length, the title last. */
  predicate TupleLe(a: seq<real>, x: seq<int>, b: seq<real>, y: seq<int>) {
    if a == [] || b == [] then |a| < |b| || (a == b && LexLe(x, y))
    else a[0] < b[0] || (a[0] == b[0] && TupleLe(a[1..], x, b[1..], y))
  }

  /** Descending, so that equal keys keep the order of the query. */
  function Before(figures: Figures, mode: Mode): (Recommendation, Recommendation) -> bool {
    (r: Recommendation, s: Recommendation) => TupleLe(Rank(figures, mode, s), s.game.folded, Rank(figures, mode, r),
      r.game.folded)
  }

  ghost predicate ValidAll(group: Group, games: seq<Game>) {
    forall i :: 0 <= i < |games| ==> Valid(group, games[i])
  }

  function BuiltAll(figures: Figures, group: Group, games: seq<Game>): seq<Recommendation>
    requires ValidAll(group, games)
  {
    seq(|games|, i requires 0 <= i < |games| => Built(figures, group, games[i]))
  }

  function Covers(minimum: real): Recommendation -> bool {
    (r: Recommendation) => r.coverage >= minimum
  }

  function Recommended(figures: Figures, group: Group, games: seq<Game>, mode: Mode, minimum: real): seq<Recommendation>
    requires ValidAll(group, games)
  {
    StableSort(Filter(BuiltAll(figures, group, games), Covers(minimum)), Before(figures, mode))
  }

  /** One game of the query, unless too few own it. */
  method BuildIfCovered(figures: Figures, group: Group, game: Game, required: real) returns (r: Option<Recommendation>)
    requires Valid(group, game)
    ensures r == if Built(figures, group, game).coverage >= required then Some(Built(figures, group, game)) else None
  {
    var free := FreeFor(group, game);
    var unknown := if free then {} else Unknown(figures, group.people, game);
    UnknownIsDisjoint(figures, group, game);
    var known := |group.ids| - |unknown|;
    var owners := |Owners(game)|;
    var available := if free then |group.ids| else owners;
    var coverage := if known != 0 then available as real / known as real else if free then 1.0 else 0.0;
    if coverage < required { return None; }
    var playtimes, total := CollectPlaytimes(game);
    var average := if owners != 0 then total as real / owners as real else 0.0;
    r := Some(Recommendation(game, owners, available, known, |group.ids|, coverage, total, average,
      figures.median(Values(playtimes)), playtimes));
  }

  /** The loop over the games of the query; without a minimum, all must own the game or any number may. */
  method Recommend(figures: Figures, group: Group, games: seq<Game>, mode: Mode, minimum: Option<real>,
      requireAll: bool)
      returns (result: seq<Recommendation>)
    requires ValidAll(group, games)
    ensures result == Recommended(figures, group, games, mode,
      if minimum.Some? then minimum.value else if requireAll then 1.0 else 0.0)
  {
    var required := if minimum.Some? then minimum.value else if requireAll then 1.0 else 0.0;
    ghost var all := BuiltAll(figures, group, games);
    result := [];
    for i := 0 to |games|
      invariant result == Filter(all[..i], Covers(required))
    {
      OneGameMore(all, i, required);
      var r := BuildIfCovered(figures, group, games[i], required);
      if r.Some? { result := result + [r.value]; }
    }
    assert all[..|games|] == all;
    result := StableSort(result, Before(figures, mode));
  }

  lemma OneGameMore(all: seq<Recommendation>, i: nat, minimum: real)
    requires i < |all|
    ensures Filter(all[..i + 1], Covers(minimum))
         == if all[i].coverage >= minimum then Filter(all[..i], Covers(minimum)) + [all[i]]
           else Filter(all[..i], Covers(minimum))
  {
    assert all[..i + 1] == all[..i] + [all[i]];
    FilterAppend(all[..i], [all[i]], Covers(minimum));
  }

  /* ---------- Order ---------- */

  lemma {:induction false} TupleTotal(a: seq<real>, x: seq<int>, b: seq<real>, y: seq<int>)
    ensures TupleLe(a, x, b, y) || TupleLe(b, y, a, x)
  {
    if a == [] || b == [] {
      LexTotal(x, y);
    } else {
      TupleTotal(a[1..], x, b[1..], y);
    }
  }

  lemma {:induction false} TupleTransitive(a: seq<real>, x: seq<int>, b: seq<real>, y: seq<int>, c: seq<real>,
      z: seq<int>)
    requires TupleLe(a, x, b, y) && TupleLe(b, y, c, z)
    ensures TupleLe(a, x, c, z)
  {
    if a == [] || b == [] || c == [] {
      if a == b == c { LexTransitive(x, y, z); }
    } else if a[0] == b[0] == c[0] {
      TupleTransitive(a[1..], x, b[1..], y, c[1..], z);
    }
  }

  lemma BeforeIsTotal(figures: Figures, mode: Mode)
    ensures TotalPreorder(Before(figures, mode))
  {
    var le := Before(figures, mode);
    forall r: Recommendation, s: Recommendation ensures le(r, s) || le(s, r) {
      TupleTotal(Rank(figures, mode, s), s.game.folded, Rank(figures, mode, r), r.game.folded);
    }
    forall r: Recommendation, s: Recommendation, u: Recommendation | le(r, s) && le(s, u) ensures le(r, u) {
      TupleTransitive(Rank(figures, mode, u), u.game.folded, Rank(figures, mode, s), s.game.folded,
        Rank(figures, mode, r), r.game.folded);
    }
  }

  /** Raising the minimum selects from the list and does not reorder it. */
  lemma HigherMinimumSelects(figures: Figures, group: Group, games: seq<Game>, mode: Mode, low: real, high: real)
    requires ValidAll(group, games) && low <= high
    ensures Recommended(figures, group, games, mode, high) ==
      Filter(Recommended(figures, group, games, mode, low), Covers(high))
  {
    var all := BuiltAll(figures, group, games);
    BeforeIsTotal(figures, mode);
    FilterCommutesWithStableSort(Filter(all, Covers(low)), Before(figures, mode), Covers(high));
    FilterTwice(all, low, high);
  }

  lemma {:induction false} FilterTwice(all: seq<Recommendation>, low: real, high: real)
    requires low <= high
    ensures Filter(Filter(all, Covers(low)), Covers(high)) == Filter(all, Covers(high))
  {
    if all != [] {
      FilterTwice(all[1..], low, high);
      if all[0].coverage >= low {
        assert ([all[0]] + Filter(all[1..], Covers(low)))[1..] == Filter(all[1..], Covers(low));
      }
    }
  }

  /** The list holds exactly the games that are covered well enough, each as often as the query returned it. */
  lemma NothingIsLost(figures: Figures, group: Group, games: seq<Game>, mode: Mode, minimum: real)
    requires ValidAll(group, games)
    ensures multiset(Recommended(figures, group, games, mode, minimum))
         == multiset(Filter(BuiltAll(figures, group, games), Covers(minimum)))
    ensures forall r :: r in Recommended(figures, group, games, mode, minimum) <==>
      r.coverage >= minimum && exists i :: 0 <= i < |games| && r == Built(figures, group, games[i])
  {
    var kept := Filter(BuiltAll(figures, group, games), Covers(minimum));
    BeforeIsTotal(figures, mode);
    StableSortSorts(kept, Before(figures, mode));
    var result := StableSort(kept, Before(figures, mode));
    forall r: Recommendation
      ensures r in result <==>
        r.coverage >= minimum && exists i :: 0 <= i < |games| && r == Built(figures, group, games[i])
    {
      assert r in multiset(result) <==> r in multiset(kept);
      KeptIff(figures, group, games, minimum, r);
    }
  }

  lemma KeptIff(figures: Figures, group: Group, games: seq<Game>, minimum: real, r: Recommendation)
    requires ValidAll(group, games)
    ensures r in Filter(BuiltAll(figures, group, games), Covers(minimum)) <==>
      r.coverage >= minimum && exists i :: 0 <= i < |games| && r == Built(figures, group, games[i])
  {
    var all := BuiltAll(figures, group, games);
    FilterIn(all, Covers(minimum), r);
    forall i | 0 <= i < |games| ensures all[i] == Built(figures, group, games[i]) && all[i] in all { }
  }

  /** One key of a lexicographic comparison, larger first, and what decides when it ties. */
  predicate Then(a: real, b: real, rest: bool) {
    a > b || (a == b && rest)
  }

  predicate ThenFlag(a: bool, b: bool, rest: bool) {
    (a && !b) || (a == b && rest)
  }

  ghost predicate ThenTitle(r: Recommendation, s: Recommendation, rest: bool) {
    Greater(r.game.folded, s.game.folded) || (r.game.folded == s.game.folded && rest)
  }

  /** Owned by everyone, free for everyone, or neither. */
  function Standing(r: Recommendation): real {
    if r.owners == r.selected then 3.0 else if r.game.isFree && r.available == r.selected then 2.0 else 1.0
  }

  /** `r` is listed before `s`; when all keys tie, `tie` decides. */
  ghost predicate Sooner(figures: Figures, mode: Mode, r: Recommendation, s: Recommendation, tie: bool) {
    var title := ThenTitle(r, s, tie);
    var players, others := r.game.maxPlayers as real, s.game.maxPlayers as real;
    var owned, fewer := r.owners as real, s.owners as real;
    var played, less := r.total as real, s.total as real;
    match mode
    case Common =>
      Then(Standing(r), Standing(s), Then(owned, fewer, Then(figures.percent(r.coverage), figures.percent(s.coverage),
        Then(r.median, s.median, Then(played, less, Then(players, others, title))))))
    case Coop =>
      ThenFlag(r.game.onlineCoop, s.game.onlineCoop, ThenFlag(r.game.localCoop, s.game.localCoop,
        Then(owned, fewer, Then(players, others, Then(played, less, title)))))
    case Lan => Then(owned, fewer, Then(players, others, Then(played, less, title)))
    case GroupSize => Then(owned, fewer, Then(played, less, Then(players, others, title)))
    case New =>
      Then(s.median, r.median, Then(s.average, r.average, Then(owned, fewer,
        Then(figures.percent(r.coverage), figures.percent(s.coverage), Then(players, others, title)))))
    case Popular => Then(owned, fewer, Then(r.median, s.median, Then(played, less, title)))
  }

  /** The keys compared one after the other. */
  predicate KeysSooner(a: seq<real>, b: seq<real>, rest: bool)
    requires |a| == |b|
  {
    if a == [] then rest else Then(a[0], b[0], KeysSooner(a[1..], b[1..], rest))
  }

  lemma {:induction false} TupleSooner(a: seq<real>, x: seq<int>, b: seq<real>, y: seq<int>, rest: bool)
    requires |a| == |b| && TupleLe(b, y, a, x)
    requires a == b && x == y ==> rest
    ensures KeysSooner(a, b, Greater(x, y) || (x == y && rest))
    decreases |a|
  {
    hide Greater;
    if a == [] {
      GreaterIff(x, y);
    } else if a[0] == b[0] {
      assert a == [a[0]] + a[1..] && b == [b[0]] + b[1..];
      TupleSooner(a[1..], x, b[1..], y, rest);
    }
  }

  lemma KeyAt(a: seq<real>, b: seq<real>, k: nat, next: nat, rest: bool)
    requires k < |a| == |b| && next == k + 1
    ensures KeysSooner(a[k..], b[k..], rest) == Then(a[k], b[k], KeysSooner(a[next..], b[next..], rest))
  {
    assert a[k..][1..] == a[next..] && b[k..][1..] == b[next..];
  }

  lemma KeysThree(a: seq<real>, b: seq<real>, rest: bool)
    requires |a| == |b| >= 3
    ensures KeysSooner(a, b, rest)
         == Then(a[0], b[0], Then(a[1], b[1], Then(a[2], b[2], KeysSooner(a[3..], b[3..], rest))))
  {
    hide Then, KeysSooner;
    assert a[0..] == a && b[0..] == b;
    KeyAt(a, b, 0, 1, rest);
    KeyAt(a, b, 1, 2, rest);
    KeyAt(a, b, 2, 3, rest);
  }

  lemma KeysAfterThree(a: seq<real>, b: seq<real>, rest: bool)
    requires 3 <= |a| == |b| <= 6 && |a| != 4
    ensures |a| == 3 ==> KeysSooner(a[3..], b[3..], rest) == rest
    ensures |a| == 5 ==> KeysSooner(a[3..], b[3..], rest) == Then(a[3], b[3], Then(a[4], b[4], rest))
    ensures |a| == 6 ==>
      KeysSooner(a[3..], b[3..], rest) == Then(a[3], b[3], Then(a[4], b[4], Then(a[5], b[5], rest)))
  {
    hide Then;
    if |a| > 3 {
      KeyAt(a, b, 3, 4, rest);
      KeyAt(a, b, 4, 5, rest);
      if |a| > 5 { KeyAt(a, b, 5, 6, rest); }
    }
  }

  lemma RankSooner(figures: Figures, mode: Mode, r: Recommendation, s: Recommendation, tie: bool)
    requires KeysSooner(Rank(figures, mode, r), Rank(figures, mode, s), ThenTitle(r, s, tie))
    ensures Sooner(figures, mode, r, s, tie)
  {
    hide ThenTitle, KeysSooner;
    var a, b, title := Rank(figures, mode, r), Rank(figures, mode, s), ThenTitle(r, s, tie);
    KeysThree(a, b, title);
    KeysAfterThree(a, b, title);
  }

  lemma TiesPrecedeBothWays(figures: Figures, mode: Mode, r: Recommendation, s: Recommendation)
    requires Rank(figures, mode, r) == Rank(figures, mode, s) && r.game.folded == s.game.folded
    ensures Before(figures, mode)(r, s) && Before(figures, mode)(s, r)
  {
    hide Rank, TupleLe;
    TupleTotal(Rank(figures, mode, r), r.game.folded, Rank(figures, mode, s), s.game.folded);
  }

  lemma BeforeIsSooner(figures: Figures, mode: Mode, r: Recommendation, s: Recommendation, tie: bool)
    requires Before(figures, mode)(r, s) && (Before(figures, mode)(s, r) ==> tie)
    ensures Sooner(figures, mode, r, s, tie)
  {
    hide Sooner, TupleLe, KeysSooner;
    var a, b := Rank(figures, mode, r), Rank(figures, mode, s);
    if a == b && r.game.folded == s.game.folded { TiesPrecedeBothWays(figures, mode, r, s); }
    TupleSooner(a, r.game.folded, b, s.game.folded, tie);
    RankSooner(figures, mode, r, s, tie);
  }

  /**
    * In every mode: each listed recommendation is that of one game of the query, and of any two the one with the
    * greater keys comes first, then the one with the greater title, then the one the query returned first.
    */
  lemma ListIsOrdered(figures: Figures, group: Group, games: seq<Game>, mode: Mode, minimum: real)
      returns (from: seq<nat>)
    requires ValidAll(group, games)
    ensures var list := Recommended(figures, group, games, mode, minimum);
      && |from| == |list|
      && (forall k :: 0 <= k < |list| ==> from[k] < |games| && list[k] == Built(figures, group, games[from[k]]))
      && (forall i, j :: 0 <= i < j < |list| ==>
            from[i] != from[j] && Sooner(figures, mode, list[i], list[j], from[i] < from[j]))
  {
    hide Sooner, Built, Before, Filter, StableSort;
    var all, le := BuiltAll(figures, group, games), Before(figures, mode);
    var kept := Filter(all, Covers(minimum));
    var place := FilterPicks(all, Covers(minimum));
    var order := StableSortPicks(kept, le);
    BeforeIsTotal(figures, mode);
    StableSortSorts(kept, le);
    from := seq(|order|, k requires 0 <= k < |order| => place[order[k]]);
    var list := StableSort(kept, le);
    forall i, j | 0 <= i < j < |list|
      ensures from[i] != from[j] && Sooner(figures, mode, list[i], list[j], from[i] < from[j])
    {
      assert le(list[i], list[j]);
      assert order[i] < order[j] ==> place[order[i]] < place[order[j]];
      assert order[j] < order[i] ==> place[order[j]] < place[order[i]];
      BeforeIsSooner(figures, mode, list[i], list[j], from[i] < from[j]);
    }
  }
}
