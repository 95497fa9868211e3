/** LiteDB version 4 files: fixed-size pages, documents in data pages, long documents in chains of extend pages. */
module LiteDb {
  import opened Bytes
  import opened Bson
  import opened BsonParser

  const PAGE := 4096
  const HEADER := 25
  const CAPACITY := PAGE - HEADER
  const NO_PAGE := 0xFFFF_FFFF

  function PageCount(raw: seq<byte>): nat {
    |raw| / 4096
  }

  /** Where page `id` begins. */
  function Start(id: nat): nat {
    id * 4096
  }

  /* ---------- Extend chains ---------- */

  /** A page a chain may pass through: in range, carrying its own id, of type 5 and within the size bound. */
  predicate ChainPage(raw: seq<byte>, id: nat) {
    && id < PageCount(raw)
    && U32(raw, Start(id)) == id && raw[Start(id) + 4] == 5
    && U16(raw, Start(id) + 13) <= CAPACITY
  }

  function NextPage(raw: seq<byte>, id: nat): nat
    requires ChainPage(raw, id)
  {
    U32(raw, Start(id) + 9)
  }

  function Payload(raw: seq<byte>, id: nat): seq<byte>
    requires ChainPage(raw, id)
  {
    raw[Start(id) + HEADER..Start(id) + HEADER + U16(raw, Start(id) + 13)]
  }

  /** `ids` are the pages from `first` to the end marker, each linking to the next. */
  ghost predicate IsChain(raw: seq<byte>, first: nat, ids: seq<nat>)
    decreases |ids|
  {
    if ids == [] then first == NO_PAGE
    else first == ids[0] && first != NO_PAGE && ChainPage(raw, first) && IsChain(raw, NextPage(raw, first), ids[1..])
  }

  ghost function Payloads(raw: seq<byte>, ids: seq<nat>): seq<byte>
    requires forall id :: id in ids ==> ChainPage(raw, id)
  {
    if ids == [] then [] else Payload(raw, ids[0]) + Payloads(raw, ids[1..])
  }

  lemma {:induction false} ChainPages(raw: seq<byte>, first: nat, ids: seq<nat>)
    requires IsChain(raw, first, ids)
    ensures forall id :: id in ids ==> ChainPage(raw, id)
    decreases |ids|
  {
    if ids != [] {
      ChainPages(raw, NextPage(raw, first), ids[1..]);
      assert ids == [ids[0]] + ids[1..];
    }
  }

  /** A start page has at most one chain. */
  lemma {:induction false} ChainUnique(raw: seq<byte>, first: nat, a: seq<nat>, b: seq<nat>)
    requires IsChain(raw, first, a) && IsChain(raw, first, b)
    ensures a == b
    decreases |a|
  {
    if a != [] && b != [] {
      ChainUnique(raw, NextPage(raw, first), a[1..], b[1..]);
      assert a == [a[0]] + a[1..] && b == [b[0]] + b[1..];
    }
  }

  lemma {:induction false} ChainSuffix(raw: seq<byte>, first: nat, ids: seq<nat>, i: nat)
    requires IsChain(raw, first, ids) && i < |ids|
    ensures IsChain(raw, ids[i], ids[i..])
    decreases |ids|
  {
    if i > 0 {
      ChainSuffix(raw, NextPage(raw, first), ids[1..], i - 1);
      assert ids[1..][i - 1..] == ids[i..];
    }
  }

  /** A chain that ends repeats no page, so rejecting a repeated page rejects no chain. */
  lemma ChainIsAcyclic(raw: seq<byte>, first: nat, ids: seq<nat>)
    requires IsChain(raw, first, ids)
    ensures forall i, j :: 0 <= i < j < |ids| ==> ids[i] != ids[j]
  {
    forall i, j | 0 <= i < j < |ids| ensures ids[i] != ids[j] {
      ChainSuffix(raw, first, ids, i);
      ChainSuffix(raw, first, ids, j);
      if ids[i] == ids[j] {
        ChainUnique(raw, ids[i], ids[i..], ids[j..]);
      }
    }
  }

  /** The chain's bytes, or nothing when the start page has no chain. */
  ghost function ReadChain(raw: seq<byte>, first: nat): seq<byte> {
    if exists ids :: IsChain(raw, first, ids) then
      var ids :| IsChain(raw, first, ids);
      ChainPages(raw, first, ids);
      Payloads(raw, ids)
    else []
  }

  lemma ReadChainIs(raw: seq<byte>, first: nat, ids: seq<nat>)
    requires IsChain(raw, first, ids)
    ensures forall id :: id in ids ==> ChainPage(raw, id)
    ensures ReadChain(raw, first) == Payloads(raw, ids)
  {
    ChainPages(raw, first, ids);
    forall other | IsChain(raw, first, other) ensures other == ids { ChainUnique(raw, first, other, ids); }
  }

  /** Every chain from `first` starts with `path` and goes on at `page`. */
  ghost predicate Passed(raw: seq<byte>, first: nat, path: seq<nat>, page: nat) {
    forall ids {:trigger IsChain(raw, first, ids)} :: IsChain(raw, first, ids) ==>
      |path| <= |ids| && ids[..|path|] == path && IsChain(raw, page, ids[|path|..])
  }

  lemma PassOne(raw: seq<byte>, first: nat, path: seq<nat>, page: nat)
    requires Passed(raw, first, path, page) && page != NO_PAGE && ChainPage(raw, page)
    ensures Passed(raw, first, path + [page], NextPage(raw, page))
  {
    forall ids | IsChain(raw, first, ids)
      ensures |path| < |ids| && ids[..|path| + 1] == path + [page]
      ensures IsChain(raw, NextPage(raw, page), ids[|path| + 1..])
    {
      var tail := ids[|path|..];
      assert tail != [] && tail[0] == page && tail[1..] == ids[|path| + 1..];
    }
  }

  lemma NoChainThrough(raw: seq<byte>, first: nat, path: seq<nat>, page: nat)
    requires Passed(raw, first, path, page) && page != NO_PAGE
    requires !ChainPage(raw, page) || page in path
    ensures forall ids :: !IsChain(raw, first, ids)
  {
    forall ids | IsChain(raw, first, ids) ensures false {
      var tail := ids[|path|..];
      assert tail != [] && tail[0] == page;
      if page in path {
        var i :| 0 <= i < |path| && path[i] == page;
        assert ids[i] == ids[..|path|][i] == page == ids[|path|];
        ChainIsAcyclic(raw, first, ids);
      }
    }
  }

  /** A walk's pages are distinct and in range, so there are at most as many as the file has. */
  lemma {:induction false} BoundedSet(s: set<nat>, n: nat)
    requires forall x :: x in s ==> x < n
    ensures |s| <= n
  {
    if n == 0 {
      assert s == {};
    } else {
      BoundedSet(s - {n - 1}, n - 1);
      assert n - 1 !in s ==> s - {n - 1} == s;
    }
  }

  lemma {:induction false} PayloadsAppend(raw: seq<byte>, path: seq<nat>, page: nat)
    requires forall id :: id in path ==> ChainPage(raw, id)
    requires ChainPage(raw, page)
    ensures Payloads(raw, path + [page]) == Payloads(raw, path) + Payload(raw, page)
  {
    if path == [] {
      assert path + [page] == [page];
    } else {
      assert (path + [page])[1..] == path[1..] + [page];
      PayloadsAppend(raw, path[1..], page);
    }
  }

  /** Following `path` from `first` leads to `page`. */
  ghost predicate IsPath(raw: seq<byte>, first: nat, path: seq<nat>, page: nat)
    decreases |path|
  {
    if path == [] then first == page
    else
      && first == path[0] && first != NO_PAGE && ChainPage(raw, first)
      && IsPath(raw, NextPage(raw, first), path[1..], page)
  }

  lemma {:induction false} PathGrows(raw: seq<byte>, first: nat, path: seq<nat>, page: nat)
    requires IsPath(raw, first, path, page) && page != NO_PAGE && ChainPage(raw, page)
    ensures IsPath(raw, first, path + [page], NextPage(raw, page))
    decreases |path|
  {
    if path == [] {
      assert (path + [page])[1..] == [];
    } else {
      assert (path + [page])[1..] == path[1..] + [page];
      PathGrows(raw, NextPage(raw, first), path[1..], page);
    }
  }

  lemma {:induction false} PathEnds(raw: seq<byte>, first: nat, path: seq<nat>)
    requires IsPath(raw, first, path, NO_PAGE)
    ensures IsChain(raw, first, path)
    decreases |path|
  {
    if path != [] { PathEnds(raw, NextPage(raw, first), path[1..]); }
  }

  /** The walk so far: `path` leads from `first` to `page`, and every chain from `first` takes it. */
  ghost predicate Walked(raw: seq<byte>, first: nat, path: seq<nat>, page: nat) {
    && (forall id :: id in path ==> ChainPage(raw, id))
    && Passed(raw, first, path, page)
    && IsPath(raw, first, path, page)
  }

  lemma WalkStep(raw: seq<byte>, first: nat, path: seq<nat>, page: nat)
    requires Walked(raw, first, path, page) && page != NO_PAGE && ChainPage(raw, page)
    ensures Walked(raw, first, path + [page], NextPage(raw, page))
    ensures Payloads(raw, path + [page]) == Payloads(raw, path) + Payload(raw, page)
  {
    PassOne(raw, first, path, page);
    PathGrows(raw, first, path, page);
    PayloadsAppend(raw, path, page);
  }

  lemma WalkFails(raw: seq<byte>, first: nat, path: seq<nat>, page: nat)
    requires Walked(raw, first, path, page) && page != NO_PAGE
    requires !ChainPage(raw, page) || page in path
    ensures ReadChain(raw, first) == []
  {
    NoChainThrough(raw, first, path, page);
  }

  lemma WalkEnds(raw: seq<byte>, first: nat, path: seq<nat>)
    requires Walked(raw, first, path, NO_PAGE)
    ensures ReadChain(raw, first) == Payloads(raw, path)
  {
    PathEnds(raw, first, path);
    ReadChainIs(raw, first, path);
  }

  /** The chain walker: non-empty only for a real chain, and then exactly its payloads. */
  method ReadExtendChain(raw: seq<byte>, firstPageId: nat) returns (bson: seq<byte>)
    ensures bson == ReadChain(raw, firstPageId)
  {
    var chunks: seq<byte> := [];
    var visited: set<nat> := {};
    var pageId: nat := firstPageId;
    ghost var path: seq<nat> := [];
    while pageId != NO_PAGE
      invariant Walked(raw, firstPageId, path, pageId)
      invariant forall id :: id in visited <==> id in path
      invariant chunks == Payloads(raw, path)
      invariant |visited| <= PageCount(raw)
      decreases PageCount(raw) - |visited|
    {
      if pageId in visited || !ChainPage(raw, pageId) {
        WalkFails(raw, firstPageId, path, pageId);
        return [];
      }
      WalkStep(raw, firstPageId, path, pageId);
      BoundedSet(visited + {pageId}, PageCount(raw));
      visited := visited + {pageId};
      chunks := chunks + Payload(raw, pageId);
      path := path + [pageId];
      pageId := NextPage(raw, pageId);
    }
    WalkEnds(raw, firstPageId, path);
    return chunks;
  }

  /* ---------- Data pages ---------- */

  ghost function ParsedOrNothing(bson: seq<byte>): seq<Py> {
    if bson != [] && ParseDocument(bson).Ok? then [PyDict(ParseDocument(bson).value)] else []
  }

  /** Whether the item at `pos`, header and data, lies inside the page at `page`. */
  predicate ItemFits(raw: seq<byte>, page: nat, pos: nat)
    requires page + PAGE <= |raw|
  {
    pos + 8 <= PAGE && pos + 8 + U16(raw, page + pos + 6) <= PAGE
  }

  function ItemEnd(raw: seq<byte>, page: nat, pos: nat): (end: nat)
    requires page + PAGE <= |raw| && ItemFits(raw, page, pos)
    ensures pos + 8 <= end <= PAGE
  {
    pos + 8 + U16(raw, page + pos + 6)
  }

  /** An item's bytes: inline, or those of its extend chain when it has one. */
  ghost function ItemBytes(raw: seq<byte>, page: nat, pos: nat): seq<byte>
    requires page + PAGE <= |raw| && ItemFits(raw, page, pos)
  {
    if U32(raw, page + pos + 2) == NO_PAGE then raw[page + pos + 8..page + ItemEnd(raw, page, pos)]
    else ReadChain(raw, U32(raw, page + pos + 2))
  }

  ghost function ItemDocument(raw: seq<byte>, page: nat, pos: nat): seq<Py>
    requires page + PAGE <= |raw| && ItemFits(raw, page, pos)
  {
    ParsedOrNothing(ItemBytes(raw, page, pos))
  }

  /** The documents read so far and those of the next `count` items, from `pos` on in the page at `page`. */
  ghost function Items(raw: seq<byte>, page: nat, pos: nat, count: nat, documents: seq<Py>): seq<Py>
    requires page + PAGE <= |raw|
    decreases count
  {
    if count == 0 || !ItemFits(raw, page, pos) then documents
    else Items(raw, page, ItemEnd(raw, page, pos), count - 1, documents + ItemDocument(raw, page, pos))
  }

  ghost function PageDocuments(raw: seq<byte>, id: nat): seq<Py>
    requires id < PageCount(raw)
  {
    var page := Start(id);
    if U32(raw, page) != id || raw[page + 4] != 4 then [] else Items(raw, page, HEADER, U16(raw, page + 13), [])
  }

  /** The documents of the first `count` pages, in page order. */
  ghost function PagesUpTo(raw: seq<byte>, count: nat): seq<Py>
    requires count <= PageCount(raw)
  {
    if count == 0 then [] else PagesUpTo(raw, count - 1) + PageDocuments(raw, count - 1)
  }

  ghost function ReadPages(raw: seq<byte>): seq<Py> {
    if |raw| < PAGE || |raw| % 4096 != 0 then [] else PagesUpTo(raw, PageCount(raw))
  }

  method ReadLiteDbPages(raw: seq<byte>) returns (documents: seq<Py>)
    ensures documents == ReadPages(raw)
  {
    documents := [];
    if |raw| < PAGE || |raw| % 4096 != 0 {
      return;
    }
    var pageId: nat := 0;
    while pageId < PageCount(raw)
      invariant pageId <= PageCount(raw)
      invariant documents == PagesUpTo(raw, pageId)
    {
      var found := ReadDataPage(raw, pageId);
      documents := documents + found;
      pageId := pageId + 1;
    }
    assert pageId == PageCount(raw);
  }

  method ReadDataPage(raw: seq<byte>, pageId: nat) returns (documents: seq<Py>)
    requires pageId < PageCount(raw)
    ensures documents == PageDocuments(raw, pageId)
  {
    var page := Start(pageId);
    if U32(raw, page) != pageId || raw[page + 4] != 4 {
      return [];
    }
    documents := ReadItems(raw, page, U16(raw, page + 13));
  }

  method ReadItems(raw: seq<byte>, page: nat, itemCount: nat) returns (documents: seq<Py>)
    requires page + PAGE <= |raw|
    ensures documents == Items(raw, page, HEADER, itemCount, [])
  {
    documents := [];
    var pos: nat, remaining: nat := HEADER, itemCount;
    while remaining > 0 && ItemFits(raw, page, pos)
      invariant Items(raw, page, pos, remaining, documents) == Items(raw, page, HEADER, itemCount, [])
    {
      var found := ReadItem(raw, page, pos);
      var end, left: nat, more := ItemEnd(raw, page, pos), remaining - 1, documents + found;
      NextItem(raw, page, pos, end, remaining, left, documents, more);
      documents, pos, remaining := more, end, left;
    }
  }

  lemma NextItem(raw: seq<byte>, page: nat, pos: nat, end: nat, count: nat, left: nat,
      documents: seq<Py>, more: seq<Py>)
    requires page + PAGE <= |raw| && ItemFits(raw, page, pos) && end == ItemEnd(raw, page, pos)
    requires count == left + 1 && more == documents + ItemDocument(raw, page, pos)
    ensures Items(raw, page, pos, count, documents) == Items(raw, page, end, left, more)
  {
    hide ItemDocument, ItemEnd;
  }

  /** One item: nothing when its bytes are missing or do not parse. */
  method ReadItem(raw: seq<byte>, page: nat, pos: nat) returns (documents: seq<Py>)
    requires page + PAGE <= |raw| && ItemFits(raw, page, pos)
    ensures documents == ItemDocument(raw, page, pos)
  {
    var extendPageId := U32(raw, page + pos + 2);
    var bson := raw[page + pos + 8..page + ItemEnd(raw, page, pos)];
    if extendPageId != NO_PAGE {
      bson := ReadExtendChain(raw, extendPageId);
    }
    if bson == [] {
      return [];
    }
    var document := ParseBsonDocument(bson);
    return if document.Ok? then [PyDict(document.value)] else [];
  }

  /** Page documents when there are any, otherwise whatever the scanner finds. */
  method ReadLiteDbDocuments(raw: seq<byte>) returns (documents: seq<Py>)
    ensures documents == if ReadPages(raw) != [] then ReadPages(raw) else Scan(raw, 0)
  {
    documents := ReadLiteDbPages(raw);
    if documents == [] {
      documents := ScanBsonDocuments(raw);
    }
  }
}
