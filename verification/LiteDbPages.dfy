/** What a file of pages holds, in terms of its bytes, and that reading it gives exactly the documents stored. */
module LiteDbPages {
  import opened Bytes
  import opened Bson
  import opened BsonRoundTrip
  import opened LiteDb

  /** An item of a data page: an encoded document, bytes that are none, or a reference that leads nowhere. */
  datatype Stored = Document(fields: seq<Element>) | Junk(bytes: seq<byte>) | Lost

  /** The pages `ids` of type 5 carry the chunks, each naming the next and the last one the end marker. */
  ghost predicate Linked(raw: seq<byte>, ids: seq<nat>, chunks: seq<seq<byte>>) {
    |ids| == |chunks| && forall k :: 0 <= k < |ids| ==> Link(raw, ids, chunks, k)
  }

  ghost predicate Link(raw: seq<byte>, ids: seq<nat>, chunks: seq<seq<byte>>, k: nat)
    requires k < |ids| == |chunks|
  {
    var at, chunk := 4096 * ids[k], chunks[k];
    && at + 4096 <= |raw| && U32(raw, at) == ids[k] != 0xFFFF_FFFF && raw[at + 4] == 5
    && U32(raw, at + 9) == (if k + 1 < |ids| then ids[k + 1] else 0xFFFF_FFFF)
    && U16(raw, at + 13) == |chunk| <= 4096 - 25 && Holds(raw, at + 25, at + 25 + |chunk|, chunk)
  }

  function Joined(chunks: seq<seq<byte>>): seq<byte> {
    if chunks == [] then [] else chunks[0] + Joined(chunks[1..])
  }

  ghost predicate LeadsTo(raw: seq<byte>, first: nat, bytes: seq<byte>) {
    exists ids: seq<nat>, chunks :: Linked(raw, ids, chunks) && ids != [] && ids[0] == first && Joined(chunks) == bytes
  }

  ghost predicate LeadsNowhere(raw: seq<byte>, first: nat) {
    forall bytes :: !LeadsTo(raw, first, bytes)
  }

  /** The item between `at` and `to` carries `bytes`: after its header, or in linked pages. */
  ghost predicate Carries(raw: seq<byte>, at: nat, to: nat, bytes: seq<byte>)
    requires at + 8 <= to <= |raw|
  {
    if U32(raw, at + 2) == 0xFFFF_FFFF then Holds(raw, at + 8, to, bytes) else LeadsTo(raw, U32(raw, at + 2), bytes)
  }

  ghost predicate Stores(raw: seq<byte>, at: nat, to: nat, item: Stored)
    requires at + 8 <= to <= |raw|
  {
    match item
    case Document(fields) =>
      && WellFormedFields(fields) && |EncodeDocument(fields)| < 0x8000_0000
      && Carries(raw, at, to, EncodeDocument(fields))
    case Junk(bytes) => Carries(raw, at, to, bytes) && (bytes == [] || ParseDocument(bytes).Reject?)
    case Lost => U32(raw, at + 2) != 0xFFFF_FFFF && LeadsNowhere(raw, U32(raw, at + 2))
  }

  /** Of `count` items, those that fit into the page at `page` lie one behind the other from `pos` on. */
  ghost predicate ItemsLie(raw: seq<byte>, page: nat, pos: nat, count: nat, items: seq<Stored>)
    requires page + 4096 <= |raw|
    decreases |items|
  {
    if items == [] then
      count == 0 || pos + 8 > 4096 || pos + 8 + U16(raw, page + pos + 6) > 4096
    else
      && count > 0 && pos + 8 <= 4096 && pos + 8 + U16(raw, page + pos + 6) <= 4096
      && Stores(raw, page + pos, page + pos + 8 + U16(raw, page + pos + 6), items[0])
      && ItemsLie(raw, page, pos + 8 + U16(raw, page + pos + 6), count - 1, items[1..])
  }

  /** The page `id` is a data page with the items, or no data page and without items. */
  ghost predicate PageStores(raw: seq<byte>, id: nat, items: seq<Stored>)
    requires 4096 * id + 4096 <= |raw|
  {
    if U32(raw, 4096 * id) == id && raw[4096 * id + 4] == 4
    then ItemsLie(raw, 4096 * id, 25, U16(raw, 4096 * id + 13), items)
    else items == []
  }

  function DocumentsOf(items: seq<Stored>): seq<Py> {
    if items == [] then []
    else (if items[0].Document? then [PyDict(EraseFields(items[0].fields))] else []) + DocumentsOf(items[1..])
  }

  function AllDocuments(pages: seq<seq<Stored>>): seq<Py> {
    if pages == [] then [] else AllDocuments(pages[..|pages| - 1]) + DocumentsOf(pages[|pages| - 1])
  }

  /* ---------- Linked pages are chains ---------- */

  lemma {:induction false} LinkedIsChain(raw: seq<byte>, ids: seq<nat>, chunks: seq<seq<byte>>)
    requires Linked(raw, ids, chunks)
    ensures IsChain(raw, if ids == [] then NO_PAGE else ids[0], ids)
    ensures forall id :: id in ids ==> ChainPage(raw, id)
    ensures Payloads(raw, ids) == Joined(chunks)
    decreases |ids|
  {
    hide U32, U16;
    if ids != [] {
      assert Link(raw, ids, chunks, 0);
      forall k | 0 <= k < |ids| - 1 ensures Link(raw, ids[1..], chunks[1..], k) {
        assert Link(raw, ids, chunks, k + 1);
      }
      LinkedIsChain(raw, ids[1..], chunks[1..]);
      assert ids == [ids[0]] + ids[1..];
    }
  }

  lemma {:induction false} ChainIsLinked(raw: seq<byte>, first: nat, ids: seq<nat>) returns (chunks: seq<seq<byte>>)
    requires IsChain(raw, first, ids)
    ensures Linked(raw, ids, chunks)
    decreases |ids|
  {
    hide U32, U16;
    if ids == [] {
      chunks := [];
    } else {
      var more := ChainIsLinked(raw, NextPage(raw, first), ids[1..]);
      chunks := [Payload(raw, first)] + more;
      forall k | 0 <= k < |ids| ensures Link(raw, ids, chunks, k) {
        if k > 0 { assert Link(raw, ids[1..], more, k - 1); }
      }
    }
  }

  lemma LeadsToChain(raw: seq<byte>, first: nat, bytes: seq<byte>)
    requires LeadsTo(raw, first, bytes)
    ensures ReadChain(raw, first) == bytes
  {
    hide Linked, IsChain, Joined, Payloads, ReadChain;
    var ids: seq<nat>, chunks :| Linked(raw, ids, chunks) && ids != [] && ids[0] == first && Joined(chunks) == bytes;
    LinkedIsChain(raw, ids, chunks);
    ReadChainIs(raw, first, ids);
  }

  lemma NothingIsRead(raw: seq<byte>, first: nat)
    requires first != NO_PAGE && LeadsNowhere(raw, first)
    ensures ReadChain(raw, first) == []
  {
    hide Linked, Joined, Payloads;
    forall ids | IsChain(raw, first, ids) ensures false {
      var chunks := ChainIsLinked(raw, first, ids);
      assert LeadsTo(raw, first, Joined(chunks));
    }
  }

  /* ---------- Reading ---------- */

  lemma StoredItemIsRead(raw: seq<byte>, page: nat, pos: nat, item: Stored)
    requires page + PAGE <= |raw| && ItemFits(raw, page, pos)
    requires Stores(raw, page + pos, page + pos + 8 + U16(raw, page + pos + 6), item)
    ensures ItemDocument(raw, page, pos) == DocumentsOf([item])
  {
    hide LeadsTo, ReadChain, U32, U16, WellFormedFields, EncodeDocument, ParseDocument, EraseFields;
    var extend := U32(raw, page + pos + 2);
    if item.Lost? {
      NothingIsRead(raw, extend);
    } else {
      var bytes := if item.Document? then EncodeDocument(item.fields) else item.bytes;
      if extend != NO_PAGE { LeadsToChain(raw, extend, bytes); }
      assert ItemBytes(raw, page, pos) == bytes;
      if item.Document? {
        RoundTrip(item.fields);
        EncodedIsNotEmpty(item.fields);
      }
    }
    assert [item][1..] == [];
  }

  lemma EncodedIsNotEmpty(fields: seq<Element>)
    requires WellFormedFields(fields)
    ensures EncodeDocument(fields) != []
  {
    hide EncodeElements;
  }

  lemma {:induction false} StoredItemsAreRead(raw: seq<byte>, page: nat, pos: nat, count: nat, items: seq<Stored>,
      documents: seq<Py>)
    requires page + PAGE <= |raw| && ItemsLie(raw, page, pos, count, items)
    ensures Items(raw, page, pos, count, documents) == documents + DocumentsOf(items)
    decreases |items|
  {
    hide U16, Stores, ItemDocument;
    if items != [] {
      var end, left: nat := ItemEnd(raw, page, pos), count - 1;
      var more := documents + ItemDocument(raw, page, pos);
      StoredItemIsRead(raw, page, pos, items[0]);
      NextItem(raw, page, pos, end, count, left, documents, more);
      StoredItemsAreRead(raw, page, end, left, items[1..], more);
      assert DocumentsOf(items) == DocumentsOf([items[0]]) + DocumentsOf(items[1..]);
    }
  }

  lemma {:induction false} StoredPagesUpTo(raw: seq<byte>, pages: seq<seq<Stored>>)
    requires 4096 * |pages| <= |raw|
    requires forall id :: 0 <= id < |pages| ==> PageStores(raw, id, pages[id])
    ensures PagesUpTo(raw, |pages|) == AllDocuments(pages)
  {
    hide U16, U32, ItemsLie, Items;
    if pages != [] {
      var id := |pages| - 1;
      StoredPagesUpTo(raw, pages[..id]);
      assert PageStores(raw, id, pages[id]);
      assert PageDocuments(raw, id) == DocumentsOf(pages[id]) by {
        if U32(raw, Start(id)) == id && raw[Start(id) + 4] == 4 {
          StoredItemsAreRead(raw, Start(id), HEADER, U16(raw, Start(id) + 13), pages[id], []);
        }
      }
    }
  }

  lemma WholePages(size: nat, count: nat)
    requires size == 4096 * count
    ensures size / 4096 == count && size % 4096 == 0
  {
  }

  /**
    * Whatever else the bytes are: the documents read are exactly those stored, in page and item order. An item that
    * is no document, or whose pages do not link up, is left out and does not keep the others from being read.
    */
  lemma StoredPagesAreRead(raw: seq<byte>, pages: seq<seq<Stored>>)
    requires pages != [] && |raw| == 4096 * |pages|
    requires forall id :: 0 <= id < |pages| ==> PageStores(raw, id, pages[id])
    ensures LiteDb.ReadPages(raw) == AllDocuments(pages)
  {
    hide PagesUpTo, PageStores, AllDocuments;
    StoredPagesUpTo(raw, pages);
    WholePages(|raw|, |pages|);
  }
}
