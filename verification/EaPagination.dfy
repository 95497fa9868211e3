/** The EA library: pages fetched by cursor, and when the snapshot is complete enough to delete ownerships. */
module EaPagination {
  import opened Options
  import opened Titles
  import opened Library
  import opened Imports
  import opened LibraryRuns
  import opened LibrarySession

  /** An entry without a title or an id is unresolved. */
  datatype Item = Unresolved | Resolved(game: ImportedGame)

  /** A page may lack its item list, its total, or the cursor of a next page. */
  datatype Response = Unavailable(message: string) | Page(items: Option<seq<Item>>, total: Option<int>,
      next: Option<string>)

  type Server = string -> Response

  /** The older interface that is asked afterwards. */
  datatype Origin = OriginUnavailable | OriginGames(games: seq<ImportedGame>)

  const START: string := "0"

  /* ---------- Walks over the pages ---------- */

  predicate Readable(server: Server, cursor: string) {
    server(cursor).Page? && server(cursor).items.Some?
  }

  function After(server: Server, walk: seq<string>): Option<string>
    requires walk != [] ==> Readable(server, walk[|walk| - 1])
  {
    if walk == [] then Some(START) else server(walk[|walk| - 1]).next
  }

  /** Readable pages, each at the cursor the one before names, none visited twice. */
  predicate Walk(server: Server, walk: seq<string>)
    decreases |walk|
  {
    walk == [] || (
      var last := |walk| - 1;
      Walk(server, walk[..last]) && Readable(server, walk[last]) && walk[last] !in walk[..last]
      && After(server, walk[..last]) == Some(walk[last]))
  }

  /** A walk that reached a page without a next one. */
  predicate Complete(server: Server, walk: seq<string>) {
    walk != [] && Walk(server, walk) && After(server, walk).None?
  }

  /** All entries of the pages, in order. */
  function Items(server: Server, walk: seq<string>): seq<Item>
    requires Walk(server, walk)
    decreases |walk|
  {
    if walk == [] then []
    else Items(server, walk[..|walk| - 1]) + server(walk[|walk| - 1]).items.value
  }

  /** The total that was declared last. */
  function Declared(server: Server, walk: seq<string>): Option<int>
    requires Walk(server, walk)
    decreases |walk|
  {
    if walk == [] then None
    else if server(walk[|walk| - 1]).total.Some? then server(walk[|walk| - 1]).total
    else Declared(server, walk[..|walk| - 1])
  }

  /* ---------- The games by id ---------- */

  /** Assigning to a dictionary: an id keeps its place and gets the new game. */
  function Assign(games: seq<ImportedGame>, game: ImportedGame): seq<ImportedGame> {
    if games == [] then [game]
    else if games[0].info.extId == game.info.extId then [game] + games[1..]
    else [games[0]] + Assign(games[1..], game)
  }

  predicate HasId(games: seq<ImportedGame>, id: string) {
    exists i :: 0 <= i < |games| && games[i].info.extId == id
  }

  function Collected(items: seq<Item>): seq<ImportedGame>
    decreases |items|
  {
    if items == [] then []
    else
      var before := Collected(items[..|items| - 1]);
      match items[|items| - 1]
      case Unresolved => before
      case Resolved(game) => Assign(before, game)
  }

  function CountUnresolved(items: seq<Item>): nat
    decreases |items|
  {
    if items == [] then 0
    else CountUnresolved(items[..|items| - 1]) + if items[|items| - 1].Unresolved? then 1 else 0
  }

  /** Origin adds the games whose ids are still missing. */
  function WithOrigin(games: seq<ImportedGame>, more: seq<ImportedGame>): seq<ImportedGame>
    decreases |more|
  {
    if more == [] then games
    else WithOrigin(if HasId(games, more[0].info.extId) then games else games + [more[0]], more[1..])
  }

  function FromOrigin(origin: Origin): seq<ImportedGame> {
    match origin
    case OriginUnavailable => []
    case OriginGames(games) => games
  }

  /* ---------- What the snapshot is ---------- */

  predicate AllResolved(items: seq<Item>) {
    forall i :: 0 <= i < |items| ==> items[i].Resolved?
  }

  /** The whole library was read and understood, and Origin knows nothing more. */
  ghost predicate WholeLibrary(server: Server, walk: seq<string>, origin: Origin) {
    && Complete(server, walk)
    && (Declared(server, walk).Some? ==> |Items(server, walk)| >= Declared(server, walk).value)
    && AllResolved(Items(server, walk))
    && (forall i {:trigger FromOrigin(origin)[i]} :: 0 <= i < |FromOrigin(origin)| ==>
          HasId(Collected(Items(server, walk)), FromOrigin(origin)[i].info.extId))
  }

  /** The cursor at which the walk cannot go on. */
  ghost predicate Stuck(server: Server, walk: seq<string>, cursor: string) {
    Walk(server, walk) && After(server, walk) == Some(cursor) && (cursor in walk || !Readable(server, cursor))
  }

  /* ---------- Walks are determined by the server ---------- */

  lemma {:induction false} WalkPrefix(server: Server, walk: seq<string>, n: nat)
    requires Walk(server, walk) && n <= |walk|
    ensures Walk(server, walk[..n])
    ensures n < |walk| ==>
      Readable(server, walk[n]) && After(server, walk[..n]) == Some(walk[n]) && walk[n] !in walk[..n]
    decreases |walk|
  {
    if n == |walk| {
      assert walk[..n] == walk;
    } else if n < |walk| - 1 {
      var shorter := walk[..|walk| - 1];
      WalkPrefix(server, shorter, n);
      assert shorter[..n] == walk[..n] && shorter[n] == walk[n];
    }
  }

  /** Two walks agree as far as both go. */
  lemma {:induction false} WalksAgree(server: Server, a: seq<string>, b: seq<string>, n: nat)
    requires Walk(server, a) && Walk(server, b) && n <= |a| && n <= |b|
    ensures a[..n] == b[..n]
  {
    if n > 0 {
      var k := n - 1;
      WalksAgree(server, a, b, k);
      WalkPrefix(server, a, k);
      WalkPrefix(server, b, k);
      assert a[..n] == a[..k] + [a[k]] && b[..n] == b[..k] + [b[k]];
    }
  }

  /** There is at most one complete walk. */
  lemma CompleteIsUnique(server: Server, a: seq<string>, b: seq<string>)
    requires Complete(server, a) && Walk(server, b) && |a| <= |b|
    ensures a == b
  {
    var n := |a|;
    WalksAgree(server, a, b, n);
    assert a[..n] == a;
    WalkPrefix(server, b, n);
    assert n == |b| ==> b[..n] == b;
  }

  lemma StuckNeverCompletes(server: Server, walk: seq<string>, cursor: string, other: seq<string>)
    requires Stuck(server, walk, cursor)
    ensures !Complete(server, other)
  {
    if Complete(server, other) {
      var n := |walk|;
      if |other| <= n {
        CompleteIsUnique(server, other, walk);
      } else {
        WalksAgree(server, walk, other, n);
        assert walk[..n] == walk;
        WalkPrefix(server, other, n);
      }
    }
  }

  /* ---------- Every readable entry is kept ---------- */

  lemma HasIdFirst(game: ImportedGame, games: seq<ImportedGame>, id: string)
    ensures HasId([game] + games, id) <==> game.info.extId == id || HasId(games, id)
  {
    var all := [game] + games;
    assert all[0] == game && forall i :: 0 <= i < |games| ==> all[i + 1] == games[i];
    if i :| 0 < i < |all| && all[i].info.extId == id { assert all[i] == games[i - 1]; }
    if i :| 0 <= i < |games| && games[i].info.extId == id { assert all[i + 1] == games[i]; }
  }

  lemma {:induction false} AssignHas(games: seq<ImportedGame>, game: ImportedGame, id: string)
    ensures HasId(Assign(games, game), id) <==> HasId(games, id) || id == game.info.extId
  {
    if games == [] {
      assert Assign(games, game)[0] == game;
    } else {
      hide HasId;
      var first, rest := games[0], games[1..];
      assert games == [first] + rest;
      HasIdFirst(first, rest, id);
      HasIdFirst(game, rest, id);
      HasIdFirst(first, Assign(rest, game), id);
      if first.info.extId != game.info.extId { AssignHas(rest, game, id); }
    }
  }

  lemma {:induction false} CollectedHas(items: seq<Item>, i: nat)
    requires i < |items| && items[i].Resolved?
    ensures HasId(Collected(items), items[i].game.info.extId)
    decreases |items|
  {
    var last := |items| - 1;
    var before := Collected(items[..last]);
    if i < last { CollectedHas(items[..last], i); }
    if items[last].Resolved? { AssignHas(before, items[last].game, items[i].game.info.extId); }
  }

  lemma {:induction false} OriginKeeps(games: seq<ImportedGame>, more: seq<ImportedGame>)
    ensures |games| <= |WithOrigin(games, more)| && WithOrigin(games, more)[..|games|] == games
    decreases |more|
  {
    if more != [] {
      var next := if HasId(games, more[0].info.extId) then games else games + [more[0]];
      OriginKeeps(next, more[1..]);
      assert next[..|games|] == games;
      assert WithOrigin(games, more)[..|next|][..|games|] == WithOrigin(games, more)[..|games|];
    }
  }

  lemma {:induction false} AllResolvedIff(items: seq<Item>)
    ensures CountUnresolved(items) == 0 <==> AllResolved(items)
    decreases |items|
  {
    if items != [] {
      var last := |items| - 1;
      AllResolvedIff(items[..last]);
      assert items == items[..last] + [items[last]];
    }
  }

  lemma OneItemMore(earlier: seq<Item>, items: seq<Item>, i: nat)
    requires i < |items|
    ensures Collected(earlier + items[..i + 1])
         == if items[i].Resolved? then Assign(Collected(earlier + items[..i]), items[i].game)
           else Collected(earlier + items[..i])
    ensures CountUnresolved(earlier + items[..i + 1])
         == CountUnresolved(earlier + items[..i]) + if items[i].Unresolved? then 1 else 0
  {
    var longer := earlier + items[..i + 1];
    assert longer[..|longer| - 1] == earlier + items[..i];
  }

  lemma OnePageMore(server: Server, walk: seq<string>, cursor: string)
    requires Walk(server, walk) && After(server, walk) == Some(cursor) && cursor !in walk && Readable(server, cursor)
    ensures Walk(server, walk + [cursor]) && After(server, walk + [cursor]) == server(cursor).next
    ensures Items(server, walk + [cursor]) == Items(server, walk) + server(cursor).items.value
    ensures Declared(server, walk + [cursor]) == if server(cursor).total.Some? then server(cursor).total
      else Declared(server, walk)
  {
    assert (walk + [cursor])[..|walk|] == walk;
  }

  lemma {:induction false} OriginAddsNothingIff(games: seq<ImportedGame>, more: seq<ImportedGame>)
    ensures WithOrigin(games, more) == games <==>
      forall i {:trigger more[i]} :: 0 <= i < |more| ==> HasId(games, more[i].info.extId)
    decreases |more|
  {
    if more != [] {
      var rest := more[1..];
      var next := if HasId(games, more[0].info.extId) then games else games + [more[0]];
      OriginKeeps(next, rest);
      OriginAddsNothingIff(next, rest);
      assert forall i {:trigger more[i]} :: 0 < i < |more| ==> more[i] == rest[i - 1];
      assert forall i {:trigger rest[i]} :: 0 <= i < |rest| ==> rest[i] == more[i + 1];
    }
  }

  /* ---------- The provider ---------- */

  /**
    * The provider gives up: nothing was read before an unreadable page, or nothing at all although not declared
    * empty.
    */
  ghost predicate Refused(server: Server, walk: seq<string>, origin: Origin)
    requires Walk(server, walk)
  {
    Collected(Items(server, walk)) == []
      && (UnreadableAfter(server, walk) || (FromOrigin(origin) == [] && Declared(server, walk) != Some(0)))
  }

  predicate UnreadableAfter(server: Server, walk: seq<string>)
    requires Walk(server, walk)
  {
    After(server, walk).Some? && After(server, walk).value !in walk && !Readable(server, After(server, walk).value)
  }

  /** The walk goes as far as the server lets it. */
  ghost predicate Furthest(server: Server, walk: seq<string>) {
    Walk(server, walk) && (After(server, walk).Some? ==> Stuck(server, walk, After(server, walk).value))
  }

  /** The server names only finitely many cursors. */
  ghost predicate Closed(server: Server, cursors: set<string>) {
    START in cursors
    && forall c :: c in cursors && Readable(server, c) && server(c).next.Some? ==> server(c).next.value in cursors
  }

  method AddItems(before: seq<ImportedGame>, items: seq<Item>, ghost earlier: seq<Item>)
      returns (games: seq<ImportedGame>, unresolved: nat)
    requires before == Collected(earlier)
    ensures games == Collected(earlier + items)
    ensures unresolved + CountUnresolved(earlier) == CountUnresolved(earlier + items)
  {
    games, unresolved := before, 0;
    assert earlier + items[..0] == earlier;
    for i := 0 to |items|
      invariant games == Collected(earlier + items[..i])
      invariant unresolved + CountUnresolved(earlier) == CountUnresolved(earlier + items[..i])
    {
      OneItemMore(earlier, items, i);
      if items[i].Unresolved? {
        unresolved := unresolved + 1;
      } else {
        games := Assign(games, items[i].game);
      }
    }
    assert earlier + items[..|items|] == earlier + items;
  }

  /** What the loop over the pages has established. */
  datatype Progress = Progress(games: seq<ImportedGame>, received: nat, declared: Option<int>, unresolved: nat)

  ghost predicate Describes(server: Server, walk: seq<string>, p: Progress) {
    && Walk(server, walk) && p.games == Collected(Items(server, walk)) && p.received == |Items(server, walk)|
    && p.declared == Declared(server, walk) && p.unresolved == CountUnresolved(Items(server, walk))
  }

  method ReadPages(server: Server, ghost cursors: set<string>)
      returns (p: Progress, complete: bool, raised: bool, ghost walk: seq<string>)
    requires Closed(server, cursors)
    ensures Describes(server, walk, p) && Furthest(server, walk)
    ensures complete <==> Complete(server, walk)
    ensures raised <==> p.games == [] && UnreadableAfter(server, walk)
  {
    var offset := START;
    var seen: set<string> := {};
    p, complete, raised, walk := Progress([], 0, None, 0), true, false, [];
    while true
      invariant Describes(server, walk, p) && After(server, walk) == Some(offset)
      invariant forall c :: c in seen <==> c in walk
      invariant seen <= cursors && offset in cursors && complete && !raised
      decreases cursors - seen
    {
      if offset in seen {
        complete := false;
        break;
      }
      seen := seen + {offset};
      var response := server(offset);
      if response.Unavailable? || response.items.None? {
        if p.games == [] { raised := true; }
        complete := false;
        break;
      }
      OnePageMore(server, walk, offset);
      p := ReadPage(server, walk, offset, p);
      walk := walk + [offset];
      if response.next.None? { break; }
      offset := response.next.value;
    }
  }

  method ReadPage(server: Server, ghost walk: seq<string>, offset: string, before: Progress) returns (p: Progress)
    requires Describes(server, walk, before) && After(server, walk) == Some(offset) && offset !in walk
    requires Readable(server, offset)
    ensures Describes(server, walk + [offset], p)
  {
    OnePageMore(server, walk, offset);
    var response := server(offset);
    var games, unresolved := AddItems(before.games, response.items.value, Items(server, walk));
    p := Progress(games, before.received + |response.items.value|,
      if response.total.Some? then response.total else before.declared, before.unresolved + unresolved);
  }

  method AddOrigin(before: seq<ImportedGame>, more: seq<ImportedGame>) returns (games: seq<ImportedGame>, added: nat)
    ensures games == WithOrigin(before, more) && |games| == |before| + added
  {
    games, added := before, 0;
    assert more[0..] == more;
    for i := 0 to |more|
      invariant WithOrigin(games, more[i..]) == WithOrigin(before, more)
      invariant |games| == |before| + added
    {
      assert more[i..][1..] == more[i + 1..];
      if HasId(games, more[i].info.extId) { continue; }
      games := games + [more[i]];
      added := added + 1;
    }
    assert more[|more|..] == [];
  }

  /** The furthest walk is the only one that can be complete. */
  lemma FurthestDecides(server: Server, walk: seq<string>, origin: Origin, other: seq<string>)
    requires Furthest(server, walk) && WholeLibrary(server, other, origin)
    ensures other == walk
  {
    if After(server, walk).Some? {
      StuckNeverCompletes(server, walk, After(server, walk).value, other);
    } else if |walk| <= |other| {
      CompleteIsUnique(server, walk, other);
    } else {
      CompleteIsUnique(server, other, walk);
    }
  }

  lemma FurthestDecidesAll(server: Server, walk: seq<string>, origin: Origin)
    requires Furthest(server, walk)
    ensures (exists other :: WholeLibrary(server, other, origin)) <==> WholeLibrary(server, walk, origin)
  {
    forall other | WholeLibrary(server, other, origin)
      ensures other == walk { FurthestDecides(server, walk, origin, other); }
  }

  /**
    * The answer to a walk that went as far as possible: an error, or the games and whether they are the whole
    * library.
    */
  ghost predicate Answers(server: Server, walk: seq<string>, origin: Origin, delivery: Delivery)
    requires Walk(server, walk)
  {
    match delivery
    case Raised(_) => Refused(server, walk, origin)
    case Batch(games, _) =>
      !Refused(server, walk, origin) && games == WithOrigin(Collected(Items(server, walk)), FromOrigin(origin))
  }

  /**
    * The provider's answer, from the furthest walk over the pages; authoritative exactly if some walk reads the whole
    * library.
    */
  method FetchLibrary(server: Server, origin: Origin, ghost cursors: set<string>) returns (delivery: Delivery)
    requires Closed(server, cursors)
    ensures exists walk :: Furthest(server, walk) && Answers(server, walk, origin, delivery)
    ensures delivery.Batch? ==> (delivery.authoritative <==> exists walk :: WholeLibrary(server, walk, origin))
  {
    var p, complete, raised;
    ghost var walk;
    p, complete, raised, walk := ReadPages(server, cursors);
    FurthestDecidesAll(server, walk, origin);
    if raised { return Raised("page unavailable"); }
    if p.declared.Some? && p.received < p.declared.value { complete := false; }
    var more := FromOrigin(origin);
    var games, added := AddOrigin(p.games, more);
    OriginKeeps(p.games, more);
    OriginAddsNothingIff(p.games, more);
    assert p.games == [] && more != [] ==> !HasId(p.games, more[0].info.extId);
    if games == [] && p.declared != Some(0) { return Raised("no library"); }
    if added != 0 { complete := false; }
    AllResolvedIff(Items(server, walk));
    delivery := Batch(games, complete && p.unresolved == 0);
  }

  /**
    * Every entry of every page read so far is in the snapshot, and with a whole library that is every entry there is.
    */
  lemma SnapshotHasAll(server: Server, walk: seq<string>, origin: Origin)
    requires Walk(server, walk)
    ensures forall i :: 0 <= i < |Items(server, walk)| && Items(server, walk)[i].Resolved? ==>
      HasId(WithOrigin(Collected(Items(server, walk)), FromOrigin(origin)), Items(server, walk)[i].game.info.extId)
  {
    var items := Items(server, walk);
    var games := Collected(items);
    var all := WithOrigin(games, FromOrigin(origin));
    OriginKeeps(games, FromOrigin(origin));
    forall i | 0 <= i < |items| && items[i].Resolved? ensures HasId(all, items[i].game.info.extId) {
      CollectedHas(items, i);
      var k :| 0 <= k < |games| && games[k].info.extId == items[i].game.info.extId;
      assert all[k] == games[k];
    }
  }

  /* ---------- Which games the snapshot holds ---------- */

  ghost predicate UniqueIds(games: seq<ImportedGame>) {
    forall i, j :: 0 <= i < j < |games| ==> games[i].info.extId != games[j].info.extId
  }

  /** The entry is the last one that tells a game of its id. */
  ghost predicate LastEntry(items: seq<Item>, k: nat, x: ImportedGame) {
    && k < |items| && items[k] == Resolved(x)
    && forall l :: k < l < |items| && items[l].Resolved? ==> items[l].game.info.extId != x.info.extId
  }

  /** Origin's first game of its id, and no page has that id. */
  ghost predicate OnlyOrigin(items: seq<Item>, more: seq<ImportedGame>, i: nat, x: ImportedGame) {
    && i < |more| && more[i] == x
    && (forall j :: 0 <= j < i ==> more[j].info.extId != x.info.extId)
    && forall k :: 0 <= k < |items| && items[k].Resolved? ==> items[k].game.info.extId != x.info.extId
  }

  lemma {:induction false} AssignIs(games: seq<ImportedGame>, game: ImportedGame, x: ImportedGame)
    requires UniqueIds(games)
    ensures UniqueIds(Assign(games, game))
    ensures x in Assign(games, game) <==> x == game || (x in games && x.info.extId != game.info.extId)
  {
    if games != [] && games[0].info.extId != game.info.extId {
      var rest := Assign(games[1..], game);
      AssignIs(games[1..], game, x);
      forall j | 0 <= j < |rest| ensures rest[j].info.extId != games[0].info.extId {
        AssignHas(games[1..], game, rest[j].info.extId);
      }
      assert games == [games[0]] + games[1..];
    } else if games != [] {
      assert games == [games[0]] + games[1..];
    }
  }

  lemma {:induction false} CollectedIs(items: seq<Item>, x: ImportedGame)
    ensures UniqueIds(Collected(items))
    ensures x in Collected(items) <==> exists k: nat :: LastEntry(items, k, x)
    decreases |items|
  {
    if items != [] {
      hide Assign, UniqueIds;
      var last := |items| - 1;
      var earlier := items[..last];
      CollectedIs(earlier, x);
      LastEntryStep(items, last, earlier, x);
      if items[last].Resolved? { AssignIs(Collected(earlier), items[last].game, x); }
    }
  }

  lemma LastEntryStep(items: seq<Item>, last: nat, earlier: seq<Item>, x: ImportedGame)
    requires |items| == last + 1 && earlier == items[..last]
    ensures (exists k: nat :: LastEntry(items, k, x)) <==>
      || items[last] == Resolved(x)
      || ((items[last].Resolved? ==> items[last].game.info.extId != x.info.extId)
          && exists k: nat :: LastEntry(earlier, k, x))
  {
    assert forall l {:trigger items[l]} :: 0 <= l < last ==> items[l] == earlier[l];
    if items[last] == Resolved(x) { assert LastEntry(items, last, x); }
    forall k: nat | k < last
      ensures LastEntry(items, k, x) <==>
        LastEntry(earlier, k, x) && (items[last].Resolved? ==> items[last].game.info.extId != x.info.extId)
    {
      assert forall l :: k < l < last ==> items[l] == earlier[l];
    }
  }

  /** Origin's first game of the id, which the games do not have. */
  ghost predicate Adds(games: seq<ImportedGame>, more: seq<ImportedGame>, i: nat, x: ImportedGame) {
    && i < |more| && more[i] == x && !HasId(games, x.info.extId)
    && forall j :: 0 <= j < i ==> more[j].info.extId != x.info.extId
  }

  lemma {:induction false} OriginIs(games: seq<ImportedGame>, more: seq<ImportedGame>, x: ImportedGame)
    requires UniqueIds(games)
    ensures UniqueIds(WithOrigin(games, more))
    ensures x in WithOrigin(games, more) <==> x in games || exists i: nat :: Adds(games, more, i, x)
    decreases |more|
  {
    if more != [] {
      var first, rest := more[0], more[1..];
      var next := if HasId(games, first.info.extId) then games else games + [first];
      AddsStep(games, more, first, rest, next, x);
      OriginIs(next, rest, x);
    }
  }

  lemma NextIs(games: seq<ImportedGame>, first: ImportedGame, next: seq<ImportedGame>, x: ImportedGame)
    requires UniqueIds(games) && next == if HasId(games, first.info.extId) then games else games + [first]
    ensures UniqueIds(next)
    ensures HasId(next, x.info.extId) <==> HasId(games, x.info.extId) || x.info.extId == first.info.extId
    ensures x in next <==> x in games || (x == first && !HasId(games, first.info.extId))
  {
    if next != games { assert next[|games|] == first; }
    if i :| 0 <= i < |games| && games[i].info.extId == x.info.extId { assert next[i] == games[i]; }
  }

  lemma AddsStep(games: seq<ImportedGame>, more: seq<ImportedGame>, first: ImportedGame, rest: seq<ImportedGame>,
      next: seq<ImportedGame>, x: ImportedGame)
    requires UniqueIds(games) && more == [first] + rest
    requires next == if HasId(games, first.info.extId) then games else games + [first]
    ensures UniqueIds(next)
    ensures x in games || (exists i: nat :: Adds(games, more, i, x)) <==>
      x in next || exists i: nat :: Adds(next, rest, i, x)
  {
    hide UniqueIds, HasId;
    NextIs(games, first, next, x);
    assert more[0] == first;
    assert forall j {:trigger rest[j]} :: 0 <= j < |rest| ==> rest[j] == more[j + 1];
    assert forall j {:trigger more[j]} :: 0 < j < |more| ==> more[j] == rest[j - 1];
    if x == first && x !in games && next != games { assert Adds(games, more, 0, x); }
    if i: nat :| Adds(games, more, i, x) {
      if i > 0 { assert Adds(next, rest, i - 1, x); }
    }
    if i: nat :| Adds(next, rest, i, x) {
      assert Adds(games, more, i + 1, x);
    }
  }

  /**
    * The snapshot, game by game: each id once, with the game of the last entry that tells it, and from Origin the first
    * game of every id that no page has.
    */
  lemma SnapshotIs(server: Server, walk: seq<string>, origin: Origin, x: ImportedGame)
    requires Walk(server, walk)
    ensures var items := Items(server, walk);
      var games := WithOrigin(Collected(items), FromOrigin(origin));
      && UniqueIds(games)
      && (x in games <==>
            (exists k: nat :: LastEntry(items, k, x))
            || exists i: nat :: OnlyOrigin(items, FromOrigin(origin), i, x))
  {
    hide UniqueIds, Collected, WithOrigin, Items;
    var items, more := Items(server, walk), FromOrigin(origin);
    CollectedIs(items, x);
    OriginIs(Collected(items), more, x);
    CollectedIds(items, x.info.extId);
    forall i: nat ensures Adds(Collected(items), more, i, x) <==> OnlyOrigin(items, more, i, x) { }
  }

  lemma {:induction false} CollectedIds(items: seq<Item>, id: string)
    ensures HasId(Collected(items), id) <==>
      exists k :: 0 <= k < |items| && items[k].Resolved? && items[k].game.info.extId == id
    decreases |items|
  {
    if items != [] {
      hide Assign, HasId;
      var last := |items| - 1;
      var earlier := items[..last];
      CollectedIds(earlier, id);
      if items[last].Resolved? { AssignHas(Collected(earlier), items[last].game, id); }
      assert forall k :: 0 <= k < last ==> items[k] == earlier[k];
    } else {
      assert !HasId([], id);
    }
  }

  /** The entries are those of the pages, page after page. */
  lemma {:induction false} PageInItems(server: Server, walk: seq<string>, p: nat)
    requires Walk(server, walk) && p < |walk|
    ensures Walk(server, walk[..p]) && Walk(server, walk[..p + 1]) && Readable(server, walk[p])
    ensures Items(server, []) == []
    ensures var from, to := |Items(server, walk[..p])|, |Items(server, walk[..p + 1])|;
      from <= to <= |Items(server, walk)| && Items(server, walk)[from..to] == server(walk[p]).items.value
    decreases |walk|
  {
    var last := |walk| - 1;
    WalkPrefix(server, walk, p);
    WalkPrefix(server, walk, p + 1);
    if p == last {
      assert walk[..p + 1] == walk;
    } else {
      var shorter := walk[..last];
      PageInItems(server, shorter, p);
      assert shorter[..p] == walk[..p] && shorter[..p + 1] == walk[..p + 1];
    }
  }

  /** The total the page at the cursor tells, if any. */
  function TotalAt(server: Server, cursor: string): Option<int> {
    match server(cursor)
    case Unavailable(_) => None
    case Page(_, total, _) => total
  }

  /** The last total told, if any is. */
  ghost predicate LastTold(totals: seq<Option<int>>, declared: Option<int>) {
    && ((forall p :: 0 <= p < |totals| ==> totals[p].None?) ==> declared.None?)
    && forall p :: 0 <= p < |totals| && totals[p].Some? && (forall q :: p < q < |totals| ==> totals[q].None?) ==>
         declared == totals[p]
  }

  function Totals(server: Server, walk: seq<string>): (totals: seq<Option<int>>)
    ensures |totals| == |walk| && forall p :: 0 <= p < |walk| ==> totals[p] == TotalAt(server, walk[p])
  {
    seq(|walk|, p requires 0 <= p < |walk| => TotalAt(server, walk[p]))
  }

  /** The declared total is the one the last page told that told any. */
  lemma {:induction false} DeclaredIs(server: Server, walk: seq<string>)
    requires Walk(server, walk)
    ensures LastTold(Totals(server, walk), Declared(server, walk))
    decreases |walk|
  {
    if walk != [] {
      hide Walk, Readable, Declared, Totals, TotalAt, LastTold;
      var shorter, last := walk[..|walk| - 1], TotalAt(server, walk[|walk| - 1]);
      DeclaredStep(server, shorter, walk);
      DeclaredIs(server, shorter);
      LastToldStep(Totals(server, shorter), Declared(server, shorter), last);
      assert Totals(server, walk) == Totals(server, shorter) + [last];
    }
  }

  lemma LastToldStep(totals: seq<Option<int>>, declared: Option<int>, last: Option<int>)
    requires LastTold(totals, declared)
    ensures LastTold(totals + [last], if last.Some? then last else declared)
  {
    var all := totals + [last];
    assert all[|totals|] == last && forall p :: 0 <= p < |totals| ==> all[p] == totals[p];
  }

  lemma DeclaredStep(server: Server, shorter: seq<string>, walk: seq<string>)
    requires Walk(server, walk) && walk != [] && shorter == walk[..|walk| - 1]
    ensures Walk(server, shorter)
    ensures var last := TotalAt(server, walk[|walk| - 1]);
      Declared(server, walk) == if last.Some? then last else Declared(server, shorter)
  {
  }

  /* ---------- Synchronizing an EA account ---------- */

  const EA := Provider({}, true)

  /** The walk read the whole library, and no game of it is the row's game on the row's platform. */
  ghost predicate Gone(server: Server, walk: seq<string>, origin: Origin, account: Account, games: seq<ImportedGame>,
      chosen: seq<nat>, key: Key)
  {
    && WholeLibrary(server, walk, origin) && games == Collected(Items(server, walk)) && |chosen| == |games|
    && forall i :: 0 <= i < |chosen| && OwnershipPlatform(account, games[i]) == key.platform ==> chosen[i] != key.game
  }

  /**
    * Fetches and synchronizes. An ownership disappears only when the whole library was read and does not have its game,
    * so a partial library deletes nothing.
    */
  method SyncEaAccount(session: Session, a: nat, server: Server, origin: Origin, ghost cursors: set<string>,
      fault: Option<(nat, string)>, now: int)
        returns (run: Option<SyncRun>, ghost chosen: seq<nat>, ghost games: seq<ImportedGame>)
    requires Valid(session.db) && Clean(session.db) && session.committed == session.db
    requires Closed(server, cursors)
    modifies session
    ensures session.committed == session.db && Valid(session.db) && Clean(session.db)
    ensures forall r :: r in old(session.db).rows && r !in session.db.rows ==>
      && a in old(session.db).accounts && old(session.db).rows[r].account == Some(a)
      && old(session.db).rows[r].key.platform == old(session.db).accounts[a].platform
      && exists walk :: Gone(server, walk, origin, old(session.db).accounts[a], games, chosen,
        old(session.db).rows[r].key)
  {
    ghost var start := session.db;
    var delivery := FetchLibrary(server, origin, cursors);
    ghost var action;
    run, chosen, action := session.SyncAccount(a, EA, delivery, fault, now);
    games := if delivery.Batch? then delivery.games else [];
    if a in start.accounts && Failure(delivery, fault).None? {
      ghost var walk :| Furthest(server, walk) && Answers(server, walk, origin, delivery);
      FurthestDecidesAll(server, walk, origin);
      OriginAddsNothingIff(Collected(Items(server, walk)), FromOrigin(origin));
      forall r | r in start.rows && r !in session.db.rows
        ensures start.rows[r].account == Some(a) && start.rows[r].key.platform == start.accounts[a].platform
        ensures Gone(server, walk, origin, start.accounts[a], games, chosen, start.rows[r].key)
      {
        DeletedIsGone(session.score, start, a, delivery, now, chosen, action, session.db, r);
      }
    }
  }

  lemma DeletedIsGone(score: Score, start: Library, a: nat, delivery: Delivery, now: int, chosen: seq<nat>,
      action: Action, end: Library, r: nat)
    requires a in start.accounts && delivery.Batch? && r in start.rows && r !in end.rows
    requires Synced(score, start, a, AuthoritativePlatforms(EA, start.accounts[a], delivery.authoritative),
      delivery.games, now, chosen, action, end)
    ensures delivery.authoritative && start.rows[r].account == Some(a)
    ensures start.rows[r].key.platform == start.accounts[a].platform
    ensures var account, key := start.accounts[a], start.rows[r].key;
      forall i :: 0 <= i < |chosen| && OwnershipPlatform(account, delivery.games[i]) == key.platform ==>
        chosen[i] != key.game
  {
    var account := start.accounts[a];
    var key := start.rows[r].key;
    assert Absent(start, a, action.platforms, action.keys, action.loop.catalog.stored, r);
    forall i | 0 <= i < |chosen| && OwnershipPlatform(account, delivery.games[i]) == key.platform
      ensures chosen[i] != key.game {
      assert Key(account.participant, chosen[i], OwnershipPlatform(account, delivery.games[i])) in action.keys;
      assert chosen[i] in ImportedOn(action.keys, key.platform);
    }
  }
}
