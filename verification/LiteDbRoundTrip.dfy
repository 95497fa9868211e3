/** A file written for data pages of any documents, inline or extended, reads back as exactly these documents. */
module LiteDbRoundTrip {
  import opened Bytes
  import opened Bson
  import opened BsonParser
  import opened LiteDb
  import opened LiteDbPages

  /** A document to write: into its data page, or into extend pages of its own. */
  datatype Item = Item(fields: seq<Element>, extended: bool)

  predicate Writable(item: Item) {
    WellFormedFields(item.fields) && |EncodeDocument(item.fields)| < 0x8000_0000
  }

  predicate AllWritable(items: seq<Item>) {
    items != [] ==> Writable(items[0]) && AllWritable(items[1..])
  }

  /* ---------- The writer ---------- */

  function Zeros(n: nat): (s: seq<byte>)
    ensures |s| == n
  {
    seq(n, _ => 0)
  }

  /** The page header: id, type, previous page, next page, item count or data size, free bytes. */
  function Header(id: nat, kind: byte, previous: nat, next: nat, size: nat, free: nat): (h: seq<byte>)
    ensures |h| == 17
  {
    Word4(id) + [kind] + Word4(previous) + Word4(next) + Word2(size) + Word2(free)
  }

  function ExtendPage(id: nat, previous: nat, next: nat, chunk: seq<byte>): (page: seq<byte>)
    requires |chunk| <= CAPACITY
    ensures |page| == PAGE
  {
    Header(id, 5, previous, next, |chunk|, CAPACITY - |chunk|) + Zeros(8) + chunk + Zeros(CAPACITY - |chunk|)
  }

  function Chunk(bytes: seq<byte>): seq<byte> {
    if |bytes| <= CAPACITY then bytes else bytes[..CAPACITY]
  }

  function AfterChunk(bytes: seq<byte>): seq<byte> {
    if |bytes| <= CAPACITY then [] else bytes[CAPACITY..]
  }

  /** How many extend pages the bytes take. */
  function PagesFor(bytes: seq<byte>): (count: nat)
    ensures bytes != [] ==> count > 0
    decreases |bytes|
  {
    if bytes == [] then 0 else 1 + PagesFor(AfterChunk(bytes))
  }

  /** The extend pages of the remaining bytes, numbered from `id`. */
  function ExtendPages(bytes: seq<byte>, id: nat, previous: nat): (pages: seq<byte>)
    ensures |pages| == Start(PagesFor(bytes))
    decreases |bytes|
  {
    if bytes == [] then []
    else
      var next := if AfterChunk(bytes) == [] then NO_PAGE else id + 1;
      ExtendPage(id, previous, next, Chunk(bytes)) + ExtendPages(AfterChunk(bytes), id + 1, id)
  }

  /** The first extend page that is free after the item. */
  function After(item: Item, first: nat): nat
    requires Writable(item)
  {
    if item.extended then first + PagesFor(EncodeDocument(item.fields)) else first
  }

  function AfterAll(items: seq<Item>, first: nat): nat
    requires AllWritable(items)
  {
    if items == [] then first else AfterAll(items[1..], After(items[0], first))
  }

  function ItemBytes(item: Item, first: nat): seq<byte>
    requires Writable(item)
  {
    var bytes := EncodeDocument(item.fields);
    if item.extended then Word2(0) + Word4(first) + Word2(0)
    else Word2(0) + Word4(NO_PAGE) + Word2(|bytes|) + bytes
  }

  /** The items of a page; those to be extended refer to pages from `first` on. */
  function PageItems(items: seq<Item>, first: nat): (bytes: seq<byte>)
    requires AllWritable(items)
    ensures |bytes| >= 8 * |items|
  {
    if items == [] then [] else ItemBytes(items[0], first) + PageItems(items[1..], After(items[0], first))
  }

  function Extension(item: Item, first: nat): (bytes: seq<byte>)
    requires Writable(item)
    ensures |bytes| + Start(first) == Start(After(item, first))
  {
    if item.extended then ExtendPages(EncodeDocument(item.fields), first, NO_PAGE) else []
  }

  function Extensions(items: seq<Item>, first: nat): (bytes: seq<byte>)
    requires AllWritable(items)
    ensures |bytes| + Start(first) == Start(AfterAll(items, first))
  {
    if items == [] then []
    else Extension(items[0], first) + Extensions(items[1..], After(items[0], first))
  }

  function DataPage(id: nat, items: seq<Item>, first: nat): (page: seq<byte>)
    requires AllWritable(items) && |PageItems(items, first)| <= CAPACITY
    ensures |page| == PAGE
  {
    var bytes := PageItems(items, first);
    Header(id, 4, NO_PAGE, NO_PAGE, |items|, CAPACITY - |bytes|) + Zeros(8) + bytes + Zeros(CAPACITY - |bytes|)
  }

  /** Every page's items can be written and have room in it. */
  predicate Fit(pages: seq<seq<Item>>, first: nat) {
    pages != [] ==>
      && AllWritable(pages[0]) && |PageItems(pages[0], first)| <= CAPACITY
      && Fit(pages[1..], AfterAll(pages[0], first))
  }

  function DataPages(pages: seq<seq<Item>>, id: nat, first: nat): (bytes: seq<byte>)
    requires Fit(pages, first)
    ensures |bytes| == Start(|pages|)
  {
    if pages == [] then []
    else DataPage(id, pages[0], first) + DataPages(pages[1..], id + 1, AfterAll(pages[0], first))
  }

  function End(pages: seq<seq<Item>>, first: nat): nat
    requires Fit(pages, first)
  {
    if pages == [] then first else End(pages[1..], AfterAll(pages[0], first))
  }

  function AllExtensions(pages: seq<seq<Item>>, first: nat): (bytes: seq<byte>)
    requires Fit(pages, first)
    ensures |bytes| + Start(first) == Start(End(pages, first))
  {
    if pages == [] then [] else Extensions(pages[0], first) + AllExtensions(pages[1..], AfterAll(pages[0], first))
  }

  /** The data pages, behind them the extend pages in the order of their documents. */
  function Image(pages: seq<seq<Item>>): seq<byte>
    requires Fit(pages, |pages|)
  {
    DataPages(pages, 0, |pages|) + AllExtensions(pages, |pages|)
  }

  /* ---------- Reading a header back ---------- */

  lemma HeaderFields(raw: seq<byte>, at: nat, id: nat, kind: byte, previous: nat, next: nat,
      size: nat, free: nat)
    requires Holds(raw, at, at + 17, Header(id, kind, previous, next, size, free))
    requires id < 0x1_0000_0000 && next < 0x1_0000_0000 && size < 0x1_0000
    ensures U32(raw, at) == id && raw[at + 4] == kind && U32(raw, at + 9) == next && U16(raw, at + 13) == size
  {
    HeaderParts(raw, at, Word4(id), kind, Word4(previous), Word4(next), Word2(size), Word2(free));
    SameWord4(raw, at, id);
    SameWord4(raw, at + 9, next);
    Word2Read(raw, at + 13, size);
  }

  lemma HeaderParts(raw: seq<byte>, at: nat, id: seq<byte>, kind: byte, previous: seq<byte>,
      next: seq<byte>, size: seq<byte>, free: seq<byte>)
    requires |id| == |previous| == |next| == 4 && |size| == |free| == 2
    requires Holds(raw, at, at + 17, id + [kind] + previous + next + size + free)
    ensures Holds(raw, at, at + 4, id) && raw[at + 4] == kind
    ensures Holds(raw, at + 9, at + 13, next) && Holds(raw, at + 13, at + 15, size)
  {
    HoldsAll(raw, at, at + 13, at + 15, at + 17, id + [kind] + previous + next, size, free);
    HoldsAll(raw, at, at + 5, at + 9, at + 13, id + [kind], previous, next);
    HoldsBoth(raw, at, at + 4, at + 5, id, [kind]);
    assert raw[at + 4] == raw[at + 4..at + 5][0];
  }

  /* ---------- Extend pages ---------- */

  lemma ExtendPageFields(raw: seq<byte>, id: nat, previous: nat, next: nat, chunk: seq<byte>)
    requires id < 0x1_0000_0000 && next < 0x1_0000_0000 && |chunk| <= CAPACITY
    requires Holds(raw, Start(id), Start(id + 1), ExtendPage(id, previous, next, chunk))
    ensures ChainPage(raw, id) && NextPage(raw, id) == next && Payload(raw, id) == chunk
  {
    hide Word2, Word4;
    var at := Start(id);
    var header := Header(id, 5, previous, next, |chunk|, CAPACITY - |chunk|);
    HoldsAll(raw, at, at + HEADER, at + HEADER + |chunk|, at + PAGE,
      header + Zeros(8), chunk, Zeros(CAPACITY - |chunk|));
    HoldsBoth(raw, at, at + 17, at + HEADER, header, Zeros(8));
    HeaderFields(raw, at, id, 5, previous, next, |chunk|, CAPACITY - |chunk|);
  }

  lemma {:induction false} WrittenChain(raw: seq<byte>, bytes: seq<byte>, id: nat, previous: nat)
      returns (ids: seq<nat>)
    requires id + PagesFor(bytes) <= NO_PAGE
    requires Holds(raw, Start(id), Start(id + PagesFor(bytes)), ExtendPages(bytes, id, previous))
    ensures IsChain(raw, if bytes == [] then NO_PAGE else id, ids)
    ensures forall i :: i in ids ==> ChainPage(raw, i)
    ensures Payloads(raw, ids) == bytes
    ensures forall i :: id <= i < id + PagesFor(bytes) ==> ChainPage(raw, i)
    decreases |bytes|
  {
    hide ChainPage, Payload, NextPage, Header, ExtendPage;
    if bytes == [] { return []; }
    var rest := AfterChunk(bytes);
    var next := if rest == [] then NO_PAGE else id + 1;
    HoldsBoth(raw, Start(id), Start(id + 1), Start(id + PagesFor(bytes)),
      ExtendPage(id, previous, next, Chunk(bytes)), ExtendPages(rest, id + 1, id));
    ExtendPageFields(raw, id, previous, next, Chunk(bytes));
    var more := WrittenChain(raw, rest, id + 1, id);
    ids := [id] + more;
    assert ids[0] == id && ids[1..] == more;
    assert bytes == Chunk(bytes) + rest;
  }

  lemma WrittenLeadsTo(raw: seq<byte>, bytes: seq<byte>, id: nat)
    requires bytes != [] && id + PagesFor(bytes) <= NO_PAGE
    requires Holds(raw, Start(id), Start(id + PagesFor(bytes)), ExtendPages(bytes, id, NO_PAGE))
    ensures LeadsTo(raw, id, bytes)
  {
    hide ExtendPages, PagesFor, Payloads, Linked, Joined;
    var ids := WrittenChain(raw, bytes, id, NO_PAGE);
    var chunks := ChainIsLinked(raw, id, ids);
    LinkedIsChain(raw, ids, chunks);
  }

  /* ---------- Data pages ---------- */

  function StoredIn(items: seq<Item>): (r: seq<Stored>)
    ensures |r| == |items|
  {
    seq(|items|, i requires 0 <= i < |items| => Stored.Document(items[i].fields))
  }

  lemma WrittenItem(raw: seq<byte>, at: nat, to: nat, item: Item, first: nat)
    requires Writable(item) && After(item, first) <= NO_PAGE && to - at <= CAPACITY
    requires Holds(raw, at, to, ItemBytes(item, first))
    requires Holds(raw, Start(first), Start(After(item, first)), Extension(item, first))
    ensures at + 8 <= to && U16(raw, at + 6) == to - at - 8
    ensures Stores(raw, at, to, Stored.Document(item.fields))
  {
    hide WellFormedFields, EncodeDocument, ExtendPages, PagesFor, LeadsTo, Word2, Word4, U32, U16;
    var bytes := EncodeDocument(item.fields);
    EncodedIsNotEmpty(item.fields);
    var extend, size := if item.extended then first else NO_PAGE, if item.extended then 0 else |bytes|;
    var data := if item.extended then [] else bytes;
    assert ItemBytes(item, first) == Word2(0) + Word4(extend) + Word2(size) + data;
    WrittenHeader(raw, at, to, extend, size, data);
    if item.extended { WrittenLeadsTo(raw, bytes, first); }
  }

  lemma WrittenHeader(raw: seq<byte>, at: nat, to: nat, extend: nat, size: nat, data: seq<byte>)
    requires extend < 0x1_0000_0000 && size < 0x1_0000
    requires Holds(raw, at, to, Word2(0) + Word4(extend) + Word2(size) + data)
    ensures to == at + 8 + |data| <= |raw| && Holds(raw, at + 8, to, data)
    ensures U32(raw, at + 2) == extend && U16(raw, at + 6) == size
  {
    hide Word2, Word4;
    HoldsBoth(raw, at, at + 8, to, Word2(0) + Word4(extend) + Word2(size), data);
    HoldsAll(raw, at, at + 2, at + 6, at + 8, Word2(0), Word4(extend), Word2(size));
    hide U32, U16;
    Word2Read(raw, at + 6, size);
    SameWord4(raw, at + 2, extend);
  }

  lemma {:induction false} AfterAllGrows(items: seq<Item>, first: nat)
    requires AllWritable(items)
    ensures AfterAll(items, first) >= first
  {
    hide Writable, PagesFor, EncodeDocument;
    if items != [] { AfterAllGrows(items[1..], After(items[0], first)); }
  }

  lemma {:induction false} WrittenItems(raw: seq<byte>, page: nat, pos: nat, items: seq<Item>, first: nat)
    requires AllWritable(items) && AfterAll(items, first) <= NO_PAGE && page + PAGE <= |raw|
    requires Holds(raw, page + pos, page + pos + |PageItems(items, first)|, PageItems(items, first))
    requires HEADER <= pos && pos + |PageItems(items, first)| <= PAGE
    requires Holds(raw, Start(first), Start(AfterAll(items, first)), Extensions(items, first))
    ensures ItemsLie(raw, page, pos, |items|, StoredIn(items))
    decreases |items|
  {
    hide Writable, ItemBytes, Extension, After, Stores, U16;
    if items != [] {
      var next, at, rest := After(items[0], first), page + pos, StoredIn(items[1..]);
      var to := at + |ItemBytes(items[0], first)|;
      HoldsBoth(raw, at, to, at + |PageItems(items, first)|, ItemBytes(items[0], first), PageItems(items[1..], next));
      HoldsBoth(raw, Start(first), Start(next), Start(AfterAll(items, first)),
        Extension(items[0], first), Extensions(items[1..], next));
      AfterAllGrows(items[1..], next);
      WrittenItem(raw, at, to, items[0], first);
      WrittenItems(raw, page, to - page, items[1..], next);
      assert StoredIn(items)[1..] == rest;
      var left := |items| - 1;
      assert ItemsLie(raw, page, pos + 8 + U16(raw, page + pos + 6), left, rest);
    }
  }

  lemma WrittenPage(raw: seq<byte>, id: nat, items: seq<Item>, first: nat)
    requires AllWritable(items) && |PageItems(items, first)| <= CAPACITY && AfterAll(items, first) <= NO_PAGE
    requires id < NO_PAGE && Holds(raw, Start(id), Start(id + 1), DataPage(id, items, first))
    requires Holds(raw, Start(first), Start(AfterAll(items, first)), Extensions(items, first))
    ensures PageStores(raw, id, StoredIn(items))
  {
    hide Word2, Word4, PageItems, AllWritable, AfterAll, Extensions, ItemsLie;
    var at, bytes := Start(id), PageItems(items, first);
    var header := Header(id, 4, NO_PAGE, NO_PAGE, |items|, CAPACITY - |bytes|);
    HoldsAll(raw, at, at + HEADER, at + HEADER + |bytes|, at + PAGE, header + Zeros(8), bytes,
      Zeros(CAPACITY - |bytes|));
    HoldsBoth(raw, at, at + 17, at + HEADER, header, Zeros(8));
    HeaderFields(raw, at, id, 4, NO_PAGE, NO_PAGE, |items|, CAPACITY - |bytes|);
    WrittenItems(raw, at, HEADER, items, first);
  }

  lemma {:induction false} EndGrows(pages: seq<seq<Item>>, first: nat)
    requires Fit(pages, first)
    ensures End(pages, first) >= first
  {
    hide AllWritable, AfterAll, PageItems;
    if pages != [] {
      AfterAllGrows(pages[0], first);
      EndGrows(pages[1..], AfterAll(pages[0], first));
    }
  }

  lemma {:induction false} WrittenPages(raw: seq<byte>, pages: seq<seq<Item>>, id: nat, first: nat)
    requires Fit(pages, first) && End(pages, first) <= NO_PAGE && id + |pages| <= NO_PAGE
    requires Holds(raw, Start(id), Start(id + |pages|), DataPages(pages, id, first))
    requires Holds(raw, Start(first), Start(End(pages, first)), AllExtensions(pages, first))
    ensures forall i :: 0 <= i < |pages| ==> PageStores(raw, id + i, StoredIn(pages[i]))
    ensures forall i :: first <= i < End(pages, first) ==> PageStores(raw, i, [])
    decreases |pages|
  {
    hide AllWritable, AfterAll, PageItems, DataPage, Extensions, PageStores;
    if pages != [] {
      var next, rest := AfterAll(pages[0], first), pages[1..];
      HoldsBoth(raw, Start(id), Start(id + 1), Start(id + |pages|),
        DataPage(id, pages[0], first), DataPages(rest, id + 1, next));
      HoldsBoth(raw, Start(first), Start(next), Start(End(pages, first)),
        Extensions(pages[0], first), AllExtensions(rest, next));
      EndGrows(rest, next);
      WrittenPage(raw, id, pages[0], first);
      WrittenPages(raw, rest, id + 1, next);
      WrittenExtensions(raw, pages[0], first);
      forall i | 0 <= i < |pages| ensures PageStores(raw, id + i, StoredIn(pages[i])) {
        if i > 0 { assert PageStores(raw, (id + 1) + (i - 1), StoredIn(rest[i - 1])); }
      }
    }
  }

  lemma WrittenExtension(raw: seq<byte>, item: Item, first: nat)
    requires Writable(item) && After(item, first) <= NO_PAGE
    requires Holds(raw, Start(first), Start(After(item, first)), Extension(item, first))
    ensures forall i :: first <= i < After(item, first) ==> PageStores(raw, i, [])
  {
    hide ItemsLie, ExtendPages, PagesFor, U32, U16, IsChain, Payloads;
    if item.extended {
      var ids := WrittenChain(raw, EncodeDocument(item.fields), first, NO_PAGE);
      forall i | first <= i < After(item, first) ensures PageStores(raw, i, []) { assert ChainPage(raw, i); }
    }
  }

  lemma {:induction false} WrittenExtensions(raw: seq<byte>, items: seq<Item>, first: nat)
    requires AllWritable(items) && AfterAll(items, first) <= NO_PAGE
    requires Holds(raw, Start(first), Start(AfterAll(items, first)), Extensions(items, first))
    ensures forall i :: first <= i < AfterAll(items, first) ==> PageStores(raw, i, [])
    decreases |items|
  {
    hide Writable, PageStores, Extension, After;
    if items != [] {
      var next := After(items[0], first);
      HoldsBoth(raw, Start(first), Start(next), Start(AfterAll(items, first)),
        Extension(items[0], first), Extensions(items[1..], next));
      AfterAllGrows(items[1..], next);
      WrittenExtension(raw, items[0], first);
      WrittenExtensions(raw, items[1..], next);
    }
  }

  /* ---------- The whole file ---------- */

  function Flat(pages: seq<seq<Item>>): seq<Item> {
    if pages == [] then [] else Flat(pages[..|pages| - 1]) + pages[|pages| - 1]
  }

  function Decoded(items: seq<Item>): (r: seq<Py>)
    ensures |r| == |items| && forall i :: 0 <= i < |items| ==> r[i] == PyDict(EraseFields(items[i].fields))
  {
    seq(|items|, i requires 0 <= i < |items| => PyDict(EraseFields(items[i].fields)))
  }

  lemma {:induction false} DocumentsOfItems(items: seq<Item>)
    ensures DocumentsOf(StoredIn(items)) == Decoded(items)
  {
    hide EraseFields;
    if items != [] {
      assert StoredIn(items)[1..] == StoredIn(items[1..]);
      DocumentsOfItems(items[1..]);
      assert Decoded(items) == [PyDict(EraseFields(items[0].fields))] + Decoded(items[1..]);
    }
  }

  lemma DecodedAppend(a: seq<Item>, b: seq<Item>)
    ensures Decoded(a + b) == Decoded(a) + Decoded(b)
  {
    hide EraseFields;
  }

  /** The file stored page by page; the extend pages store nothing themselves. */
  function Contents(pages: seq<seq<Item>>, extensions: nat): (contents: seq<seq<Stored>>)
    ensures |contents| == |pages| + extensions
    ensures forall i :: 0 <= i < |pages| ==> contents[i] == StoredIn(pages[i])
    ensures forall i :: |pages| <= i < |contents| ==> contents[i] == []
  {
    seq(|pages|, i requires 0 <= i < |pages| => StoredIn(pages[i])) + seq(extensions, _ => [])
  }

  lemma {:induction false} ExtensionsAddNothing(pages: seq<seq<Item>>, extensions: nat)
    ensures AllDocuments(Contents(pages, extensions)) == AllDocuments(Contents(pages, 0))
    decreases extensions
  {
    hide StoredIn;
    if extensions > 0 {
      var contents, fewer := Contents(pages, extensions), extensions - 1;
      assert contents[..|contents| - 1] == Contents(pages, fewer);
      ExtensionsAddNothing(pages, fewer);
    }
  }

  lemma {:induction false} PagesDocuments(pages: seq<seq<Item>>)
    ensures AllDocuments(Contents(pages, 0)) == Decoded(Flat(pages))
    decreases |pages|
  {
    hide StoredIn, DocumentsOf, Decoded;
    if pages == [] {
      assert Decoded([]) == [];
    } else {
      var init, last, contents := pages[..|pages| - 1], pages[|pages| - 1], Contents(pages, 0);
      assert contents[..|contents| - 1] == Contents(init, 0);
      PagesDocuments(init);
      DocumentsOfItems(last);
      DecodedAppend(Flat(init), last);
    }
  }

  /**
    * Every document of every data page, inline or extended, is read back, once, in page and item order, and nothing
    * else is.
    */
  lemma ImageRoundTrip(pages: seq<seq<Item>>)
    requires pages != [] && Fit(pages, |pages|) && End(pages, |pages|) <= NO_PAGE
    ensures var documents, items := ReadPages(Image(pages)), Flat(pages);
      |documents| == |items| && forall i :: 0 <= i < |items| ==> documents[i] == PyDict(EraseFields(items[i].fields))
  {
    hide Fit, DataPages, AllExtensions, End, PageStores, Flat, AllDocuments, ReadPages;
    var raw, count, end := Image(pages), |pages|, End(pages, |pages|);
    EndGrows(pages, count);
    assert Holds(raw, 0, |raw|, DataPages(pages, 0, count) + AllExtensions(pages, count));
    HoldsBoth(raw, 0, Start(count), Start(end), DataPages(pages, 0, count), AllExtensions(pages, count));
    WrittenPages(raw, pages, 0, count);
    var contents := Contents(pages, end - count);
    forall id | 0 <= id < |contents| ensures PageStores(raw, id, contents[id]) {
      if id < count { assert PageStores(raw, 0 + id, StoredIn(pages[id])); }
    }
    StoredPagesAreRead(raw, contents);
    ExtensionsAddNothing(pages, end - count);
    PagesDocuments(pages);
  }

  /** A file that is not made of whole pages has no page documents, so the packed documents in it are scanned for. */
  lemma OddFileIsScanned(raw: seq<byte>, pieces: seq<Piece>, tail: seq<byte>)
    requires |raw| < 4096 || |raw| % 4096 != 0
    requires AllScannable(pieces) && raw == Pack(pieces, tail)
    ensures LiteDb.ReadPages(raw) == [] && Found(Packed(pieces), raw, 0)
  {
    hide Pack, Packed, Found;
    assert raw[0..] == raw;
    PackedDocumentsAreFound(raw, 0, pieces, tail);
  }
}
