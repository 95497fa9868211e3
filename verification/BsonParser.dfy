/** The importer's parser and brute-force scanner, proved against the parse function. */
module BsonParser {
  import opened Bytes
  import opened Orders
  import opened Bson
  import opened BsonRoundTrip

  /** The document parser: an element loop that fills a dict. */
  method ParseBsonDocument(raw: seq<byte>) returns (r: Parsed<Dict>)
    ensures r == ParseDocument(raw)
    ensures r.Ok? ==> |raw| >= 5 && raw[|raw| - 1] == 0 && I32(raw, 0) == |raw|
    decreases |raw|, 1
  {
    if |raw| < 4 {
      return Reject;
    }
    var length := I32(raw, 0);
    if length != |raw| || raw[|raw| - 1] != 0 {
      return Reject;
    }
    var pos, document: Dict := 4, [];
    while pos < length - 1
      invariant 4 <= pos <= |raw|
      invariant ParseDocument(raw) == ParseElements(raw, pos, document)
    {
      var tag := raw[pos];
      var keyEnd := FirstZero(raw, pos + 1);
      var key := raw[pos + 1..keyEnd];
      if !ValidUtf8(key) {
        return Reject;
      }
      var parsed := ParseBsonValue(raw, keyEnd + 1, tag);
      if parsed.Reject? {
        return Reject;
      }
      document := Put(document, key, parsed.value.0);
      pos := parsed.value.1;
    }
    if pos != length - 1 {
      return Reject;
    }
    return Ok(document);
  }

  method ParseBsonValue(raw: seq<byte>, pos: nat, tag: byte) returns (r: Parsed<(Py, nat)>)
    requires 0 < pos <= |raw|
    ensures r == ParseValue(raw, pos, tag)
    decreases |raw|, 0
  {
    if tag == 0x03 || tag == 0x04 {
      if !HasBytes(raw, pos, 4) {
        return Reject;
      }
      var size := I32(raw, pos);
      if !HasBytes(raw, pos, size) {
        return Reject;
      }
      var nested := ParseBsonDocument(raw[pos..pos + size]);
      if nested.Reject? {
        return Reject;
      }
      if tag == 0x03 {
        return Ok((PyDict(nested.value), pos + size));
      }
      var items := ListOf(nested.value);
      if items.Reject? {
        return Reject;
      }
      return Ok((PyList(items.value), pos + size));
    }
    return ParseScalar(raw, pos, tag);
  }

  /** The two buffers hold the same `n` bytes at their positions. */
  predicate SameBytes(raw: seq<byte>, pos: nat, other: seq<byte>, at: nat, n: nat) {
    pos + n <= |raw| && at + n <= |other| && raw[pos..pos + n] == other[at..at + n]
  }

  lemma SameParts(raw: seq<byte>, pos: nat, other: seq<byte>, at: nat, n: nat, a: nat, b: nat)
    requires SameBytes(raw, pos, other, at, n) && a <= b <= n
    ensures other[at + a..at + b] == raw[pos + a..pos + b]
  {
    SliceOfSlice(raw, pos, pos + n, a, b);
    SliceOfSlice(other, at, at + n, a, b);
  }

  /** An accepted value is decided by the bytes it consumes: whatever stands around them, it reads the same. */
  lemma ValueIsLocal(raw: seq<byte>, pos: nat, end: nat, value: Py, other: seq<byte>, at: nat, tag: byte)
    requires 0 < pos <= |raw| && 0 < at <= |other|
    requires ParseValue(raw, pos, tag) == Ok((value, end))
    requires SameBytes(raw, pos, other, at, end - pos)
    ensures ParseValue(other, at, tag) == Ok((value, at + end - pos))
  {
    if tag == 0x03 || tag == 0x04 {
      EqualSlicesEqualInts(raw, pos, other, at, end - pos);
    } else {
      ScalarIsLocal(raw, pos, end, value, other, at, tag);
    }
  }

  lemma ScalarIsLocal(raw: seq<byte>, pos: nat, end: nat, value: Py, other: seq<byte>, at: nat, tag: byte)
    requires pos <= |raw| && at <= |other|
    requires ParseScalar(raw, pos, tag) == Ok((value, end))
    requires SameBytes(raw, pos, other, at, end - pos)
    ensures ParseScalar(other, at, tag) == Ok((value, at + end - pos))
  {
    EqualSlicesEqualInts(raw, pos, other, at, end - pos);
    if tag == 0x02 {
      TextIsLocal(raw, pos, end, value, other, at);
    } else if tag == 0x05 {
      BinaryIsLocal(raw, pos, end, value, other, at);
    }
  }

  lemma TextIsLocal(raw: seq<byte>, pos: nat, end: nat, value: Py, other: seq<byte>, at: nat)
    requires ParseText(raw, pos) == Ok((value, end))
    requires SameBytes(raw, pos, other, at, end - pos)
    ensures ParseText(other, at) == Ok((value, at + end - pos))
  {
    var n := end - pos;
    EqualSlicesEqualInts(raw, pos, other, at, n);
    if n > 4 { SameParts(raw, pos, other, at, n, 4, n - 1); }
  }

  lemma BinaryIsLocal(raw: seq<byte>, pos: nat, end: nat, value: Py, other: seq<byte>, at: nat)
    requires ParseBinary(raw, pos) == Ok((value, end))
    requires SameBytes(raw, pos, other, at, end - pos)
    ensures ParseBinary(other, at) == Ok((value, at + end - pos))
  {
    var n := end - pos;
    EqualSlicesEqualInts(raw, pos, other, at, n);
    SameParts(raw, pos, other, at, n, 4, n);
    EqualSlicesEqualInts(raw, pos + 4, other, at + 4, n - 4);
    SameParts(raw, pos, other, at, n, 5, n);
  }

  /* ---------- What is consumed ---------- */

  /** Positions at which elements start, each where the one before ends, the last being the final zero byte. */
  predicate Tiled(raw: seq<byte>, positions: seq<nat>)
    decreases |positions|
  {
    && positions != [] && 4 <= positions[0] < |raw| && raw[|raw| - 1] == 0
    && if |positions| == 1 then positions[0] == |raw| - 1
       else
         && positions[0] < |raw| - 1 && ParseElement(raw, positions[0]).Ok?
         && ParseElement(raw, positions[0]).value.1 == positions[1] && positions[0] + 2 <= positions[1]
         && Tiled(raw, positions[1..])
  }

  ghost predicate Tiles(raw: seq<byte>, pos: nat) {
    exists positions :: Tiled(raw, positions) && positions[0] == pos
  }

  /** A document is accepted exactly when its elements fill it up to the terminator, with no gap, overlap or rest. */
  lemma AcceptedIffTiled(raw: seq<byte>)
    ensures ParseDocument(raw).Ok? <==> |raw| >= 4 && I32(raw, 0) == |raw| && raw[|raw| - 1] == 0 && Tiles(raw, 4)
  {
    if |raw| >= 4 && raw[|raw| - 1] == 0 { ElementsTile(raw, 4, []); }
  }

  lemma {:induction false} ElementsTile(raw: seq<byte>, pos: nat, document: Dict)
    requires 4 <= pos && 4 <= |raw| && raw[|raw| - 1] == 0
    ensures ParseElements(raw, pos, document).Ok? <==> Tiles(raw, pos)
    decreases |raw| - pos
  {
    if pos < |raw| - 1 {
      var element := ParseElement(raw, pos);
      if element.Ok? {
        var entry, next := element.value.0, element.value.1;
        ElementsTile(raw, next, Put(document, entry.key, entry.value));
        TilesFrom(raw, pos, next);
      }
    } else if pos == |raw| - 1 {
      assert Tiled(raw, [pos]);
    }
  }

  lemma TilesFrom(raw: seq<byte>, pos: nat, next: nat)
    requires 4 <= pos < |raw| - 1 && raw[|raw| - 1] == 0
    requires ParseElement(raw, pos).Ok? && ParseElement(raw, pos).value.1 == next
    ensures Tiles(raw, pos) <==> Tiles(raw, next)
  {
    if Tiles(raw, next) {
      var positions :| Tiled(raw, positions) && positions[0] == next;
      assert ([pos] + positions)[1..] == positions;
      assert Tiled(raw, [pos] + positions);
    }
    if Tiles(raw, pos) {
      var positions :| Tiled(raw, positions) && positions[0] == pos;
      assert Tiled(raw, positions[1..]);
    }
  }

  /* ---------- Array order ---------- */

  lemma KeyOrder()
    ensures TotalPreorder(KeyLe)
  {
    forall a: Entry, b: Entry ensures KeyLe(a, b) || KeyLe(b, a) { LexTotal(a.key, b.key); }
    forall a: Entry, b: Entry, c: Entry | KeyLe(a, b) && KeyLe(b, c) ensures KeyLe(a, c) {
      if !AllDigits(a.key) && !AllDigits(b.key) && !AllDigits(c.key) { LexTransitive(a.key, b.key, c.key); }
    }
  }

  /** Whatever order the index keys of an array arrive in, the items come out by index. */
  lemma ArrayItemsByIndex(d: Dict, items: seq<Bson>)
    requires |items| < 0x8000_0000
    requires multiset(d) == multiset(EraseFields(Indexed(items, 0)))
    ensures ListOf(d) == Ok(EraseItems(items))
  {
    var inOrder := EraseFields(Indexed(items, 0));
    IndexedEntries(items);
    SortsToIndices(d, inOrder);
    NoHugeIndices(d, inOrder);
  }

  lemma NoHugeIndices(d: Dict, inOrder: Dict)
    requires IndexKeys(inOrder) && |inOrder| < 0x8000_0000 && multiset(d) == multiset(inOrder)
    ensures forall e :: e in d ==> !HugeIndex(e.key)
  {
    forall e | e in d ensures !HugeIndex(e.key) {
      assert e in multiset(d);
      assert e in multiset(inOrder);
      NoHugeIndex(inOrder, e);
    }
  }

  lemma SortsToIndices(d: Dict, inOrder: Dict)
    requires IndexKeys(inOrder) && multiset(d) == multiset(inOrder)
    ensures StableSort(d, KeyLe) == inOrder
  {
    var sorted := StableSort(d, KeyLe);
    KeyOrder();
    StableSortSorts(d, KeyLe);
    IndexKeysSorted(inOrder);
    forall x, y | x in sorted && y in sorted && KeyLe(x, y) && KeyLe(y, x) ensures x == y {
      assert x in multiset(sorted) && y in multiset(sorted);
      assert x in inOrder && y in inOrder;
    }
    SortedUnique(sorted, inOrder, KeyLe);
  }

  lemma {:induction false} ValuesAt(d: Dict, i: nat)
    requires i < |d|
    ensures Values(d)[i] == d[i].value
  {
    if i > 0 { ValuesAt(d[1..], i - 1); }
  }

  /** Array keys as they come out: numbers first and ascending, then the others by their text, ties as they came. */
  ghost predicate InOrder(a: seq<byte>, b: seq<byte>, tie: bool) {
    if AllDigits(a) && AllDigits(b) then
      DecimalValue(a) < DecimalValue(b) || (DecimalValue(a) == DecimalValue(b) && tie)
    else if AllDigits(a) || AllDigits(b) then AllDigits(a)
    else Greater(b, a) || (a == b && tie)
  }

  /** Whatever the keys of an array are: it is rejected exactly for a number of more than 4300 digits. */
  lemma ArrayRejectedIff(d: Dict)
    ensures ListOf(d).Reject? <==> exists i :: 0 <= i < |d| && AllDigits(d[i].key) && |d[i].key| > 4300
  {
    hide Values, StableSort;
    forall i | 0 <= i < |d| ensures HugeIndex(d[i].key) <==> AllDigits(d[i].key) && |d[i].key| > 4300 {
      assert d[i] in d;
    }
  }

  /** And otherwise its items are the values, each once, in the order of their keys. */
  lemma ArrayItemsInOrder(d: Dict) returns (from: seq<nat>)
    requires ListOf(d).Ok?
    ensures var items := ListOf(d).value;
      && |items| == |from| == |d|
      && (forall k :: 0 <= k < |d| ==> from[k] < |d| && items[k] == d[from[k]].value)
      && forall k, l :: 0 <= k < l < |d| ==>
           from[k] != from[l] && InOrder(d[from[k]].key, d[from[l]].key, from[k] < from[l])
  {
    hide Values, StableSort, HugeIndex, KeyLe;
    var sorted := StableSort(d, KeyLe);
    KeyOrder();
    StableSortSorts(d, KeyLe);
    from := StableSortPicks(d, KeyLe);
    forall k | 0 <= k < |d| ensures Values(sorted)[k] == d[from[k]].value { ValuesAt(sorted, k); }
    forall k, l | 0 <= k < l < |d| ensures InOrder(d[from[k]].key, d[from[l]].key, from[k] < from[l]) {
      assert KeyLe(sorted[k], sorted[l]);
      KeysInOrder(sorted[k], sorted[l], from[k] < from[l]);
    }
  }

  lemma KeysInOrder(a: Entry, b: Entry, tie: bool)
    requires KeyLe(a, b) && (KeyLe(b, a) ==> tie)
    ensures InOrder(a.key, b.key, tie)
  {
    GreaterIff(b.key, a.key);
    LexTotal(a.key, b.key);
  }

  /* ---------- Scanning ---------- */

  const MAX_SCANNED := 2_000_000

  /** A non-empty document of at most two million bytes starts at `offset`. */
  predicate DocumentAt(raw: seq<byte>, offset: nat) {
    && offset + 5 <= |raw|
    && var n := I32(raw, offset);
       && 5 <= n <= MAX_SCANNED && offset + n <= |raw|
       && ParseDocument(raw[offset..offset + n]).Ok?
       && ParseDocument(raw[offset..offset + n]).value != []
  }

  function DocumentFrom(raw: seq<byte>, offset: nat): Py
    requires DocumentAt(raw, offset)
  {
    PyDict(ParseDocument(raw[offset..offset + I32(raw, offset)]).value)
  }

  /** Every document at every offset from `from` on, in offset order. */
  function Scan(raw: seq<byte>, from: nat): seq<Py>
    decreases |raw| - from
  {
    if from >= |raw| then []
    else (if DocumentAt(raw, from) then [DocumentFrom(raw, from)] else []) + Scan(raw, from + 1)
  }

  /** Five bytes hold only the empty document, so the last five offsets never start a non-empty one. */
  lemma NoDocumentNearTheEnd(raw: seq<byte>, offset: nat)
    requires |raw| <= offset + 5
    ensures !DocumentAt(raw, offset)
  {
    if |raw| == offset + 5 {
      var slice := raw[offset..offset + 5];
      assert slice[..4] == raw[offset..offset + 4];
      if slice[4] == 0 { assert ParseElements(slice, 4, []) == Ok([]); }
    }
  }

  lemma {:induction false} NothingNearTheEnd(raw: seq<byte>, from: nat)
    requires |raw| <= from + 5
    ensures Scan(raw, from) == []
    decreases |raw| - from
  {
    if from < |raw| {
      NoDocumentNearTheEnd(raw, from);
      NothingNearTheEnd(raw, from + 1);
    }
  }

  /** The document that starts at an offset, if one does. */
  method ScanAt(raw: seq<byte>, offset: nat) returns (found: seq<Py>)
    requires offset + 5 < |raw|
    ensures found == if DocumentAt(raw, offset) then [DocumentFrom(raw, offset)] else []
  {
    LastByteIsZero(raw, offset);
    var length := I32(raw, offset);
    if !(5 <= length <= MAX_SCANNED) || offset + length > |raw| || raw[offset + length - 1] != 0 { return []; }
    var document := ParseBsonDocument(raw[offset..offset + length]);
    found := if document.Ok? && document.value != [] then [PyDict(document.value)] else [];
  }

  /** The scanner: its loop bound and its set of seen offsets lose nothing. */
  method ScanBsonDocuments(raw: seq<byte>) returns (documents: seq<Py>)
    ensures documents == Scan(raw, 0)
  {
    documents := [];
    var seenOffsets: set<nat> := {};
    var offset: nat := 0;
    while offset < |raw| - 5
      invariant |raw| < 5 ==> offset == 0
      invariant forall seen :: seen in seenOffsets ==> seen < offset
      invariant documents + Scan(raw, offset) == Scan(raw, 0)
    {
      var found: seq<Py> := [];
      if offset !in seenOffsets {
        found := ScanAt(raw, offset);
        if found != [] { seenOffsets := seenOffsets + {offset}; }
      }
      var next: nat, more := offset + 1, documents + found;
      ScanStep(raw, offset, next, documents, found, more);
      documents, offset := more, next;
    }
    NothingNearTheEnd(raw, offset);
  }

  lemma ScanStep(raw: seq<byte>, offset: nat, next: nat, documents: seq<Py>, found: seq<Py>, more: seq<Py>)
    requires offset < |raw| && next == offset + 1 && more == documents + found
    requires found == if DocumentAt(raw, offset) then [DocumentFrom(raw, offset)] else []
    ensures more + Scan(raw, next) == documents + Scan(raw, offset)
  {
    ConcatAssociates(documents, found, Scan(raw, next));
    assert Scan(raw, offset) == found + Scan(raw, next);
  }

  lemma LastByteIsZero(raw: seq<byte>, offset: nat)
    ensures DocumentAt(raw, offset) ==> raw[offset + I32(raw, offset) - 1] == 0
  {
    if DocumentAt(raw, offset) {
      var slice := raw[offset..offset + I32(raw, offset)];
      assert slice[|slice| - 1] == 0;
    }
  }

  /** A slice that parses to a non-empty document is a document at its offset, whatever surrounds it. */
  lemma SliceIsFound(raw: seq<byte>, offset: nat, n: nat)
    requires offset + n <= |raw| && n <= 2_000_000
    requires ParseDocument(raw[offset..offset + n]).Ok?
    requires ParseDocument(raw[offset..offset + n]).value != []
    ensures DocumentAt(raw, offset)
    ensures DocumentFrom(raw, offset) == PyDict(ParseDocument(raw[offset..offset + n]).value)
  {
    SliceOfSlice(raw, offset, offset + n, 0, 4);
    assert raw[offset..offset + n][..4] == raw[offset..offset + 4];
  }

  /** Soundness and completeness: the scan holds exactly the documents that parse from some slice. */
  lemma {:induction false} ScanFindsExactly(raw: seq<byte>, from: nat, d: Py)
    ensures d in Scan(raw, from) <==> exists o: nat :: from <= o && DocumentAt(raw, o) && DocumentFrom(raw, o) == d
    decreases |raw| - from
  {
    if from < |raw| {
      ScanFindsExactly(raw, from + 1, d);
    }
  }

  /** `a` is what remains of `b` after dropping some entries. */
  predicate Subsequence(a: seq<Py>, b: seq<Py>) {
    a == [] || (b != [] && ((a[0] == b[0] && Subsequence(a[1..], b[1..])) || Subsequence(a, b[1..])))
  }

  /** The documents `a` are among those from `from` on, in this order. */
  ghost predicate Found(a: seq<Py>, raw: seq<byte>, from: nat) {
    Subsequence(a, Scan(raw, from))
  }

  lemma {:induction false} LaterScan(a: seq<Py>, raw: seq<byte>, from: nat, later: nat)
    requires from <= later && Found(a, raw, later)
    ensures Found(a, raw, from)
    decreases later - from
  {
    if from < later {
      LaterScan(a, raw, from + 1, later);
      if from < |raw| && DocumentAt(raw, from) {
        assert Scan(raw, from)[1..] == Scan(raw, from + 1);
      } else {
        assert Scan(raw, from) == Scan(raw, from + 1);
      }
    }
  }

  datatype Piece = Piece(junk: seq<byte>, fields: seq<Element>)

  predicate Scannable(fields: seq<Element>) {
    fields != [] && WellFormedFields(fields) && |EncodeDocument(fields)| <= 2_000_000
  }

  predicate AllScannable(pieces: seq<Piece>) {
    pieces != [] ==> Scannable(pieces[0].fields) && AllScannable(pieces[1..])
  }

  /** Encoded documents with arbitrary bytes before, between and behind them. */
  function Pack(pieces: seq<Piece>, tail: seq<byte>): seq<byte>
    requires AllScannable(pieces)
  {
    if pieces == [] then tail
    else pieces[0].junk + EncodeDocument(pieces[0].fields) + Pack(pieces[1..], tail)
  }

  function Packed(pieces: seq<Piece>): seq<Py> {
    if pieces == [] then [] else [PyDict(EraseFields(pieces[0].fields))] + Packed(pieces[1..])
  }

  /** Every packed document is found, in order, whatever the bytes between them are. */
  lemma {:induction false} PackedDocumentsAreFound(raw: seq<byte>, from: nat, pieces: seq<Piece>, tail: seq<byte>)
    requires AllScannable(pieces)
    requires Holds(raw, from, |raw|, Pack(pieces, tail))
    ensures Found(Packed(pieces), raw, from)
    decreases |pieces|
  {
    hide EncodeDocument, EraseFields, Scan;
    if pieces != [] {
      var junk, fields, rest := pieces[0].junk, pieces[0].fields, pieces[1..];
      var e := EncodeDocument(fields);
      var start := from + |junk|;
      HoldsAll(raw, from, start, start + |e|, |raw|, junk, e, Pack(rest, tail));
      PackedDocumentsAreFound(raw, start + |e|, rest, tail);
      FoundAt(raw, start, fields, Packed(rest));
      LaterScan([PyDict(EraseFields(fields))] + Packed(rest), raw, from, start);
    }
  }

  lemma {:induction false} FoundAt(raw: seq<byte>, start: nat, fields: seq<Element>, others: seq<Py>)
    requires Scannable(fields)
    requires Holds(raw, start, start + |EncodeDocument(fields)|, EncodeDocument(fields))
    requires Found(others, raw, start + |EncodeDocument(fields)|)
    ensures Found([PyDict(EraseFields(fields))] + others, raw, start)
  {
    hide ParseDocument, EraseFields;
    RoundTrip(fields);
    SliceIsFound(raw, start, |EncodeDocument(fields)|);
    LaterScan(others, raw, start + 1, start + |EncodeDocument(fields)|);
    assert Scan(raw, start) == [PyDict(EraseFields(fields))] + Scan(raw, start + 1);
    assert ([PyDict(EraseFields(fields))] + others)[1..] == others;
  }
}
