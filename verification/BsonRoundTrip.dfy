/** Parsing an encoded document gives the document back, at any nesting depth and array length. */
module BsonRoundTrip {
  import opened Bytes
  import opened Orders
  import opened Bson

  /** An array seen as the document it is encoded as. */
  function Indexed(items: seq<Bson>, index: nat): (fields: seq<Element>)
    ensures |fields| == |items|
  {
    if items == [] then []
    else [Element(Decimal(index), items[0])] + Indexed(items[1..], index + 1)
  }

  lemma {:induction false} IndexedAt(items: seq<Bson>, index: nat, i: nat)
    requires i < |items|
    ensures Indexed(items, index)[i] == Element(Decimal(index + i), items[i])
    ensures EraseFields(Indexed(items, index))[i] == Entry(Decimal(index + i), Erase(items[i]))
    ensures Values(EraseFields(Indexed(items, index)))[i] == EraseItems(items)[i]
  {
    assert Indexed(items, index)[1..] == Indexed(items[1..], index + 1);
    if i > 0 { IndexedAt(items[1..], index + 1, i - 1); }
  }

  lemma {:induction false} LaterIndicesDiffer(n: nat, items: seq<Bson>, index: nat)
    requires n < index
    ensures FreshKey(Decimal(n), Indexed(items, index))
  {
    if items != [] {
      assert DecimalValue(Decimal(n)) != DecimalValue(Decimal(index));
      LaterIndicesDiffer(n, items[1..], index + 1);
      assert Indexed(items, index)[1..] == Indexed(items[1..], index + 1);
    }
  }

  lemma {:induction false} IndexedWellFormed(items: seq<Bson>, index: nat)
    requires WellFormedItems(items)
    ensures WellFormedFields(Indexed(items, index))
  {
    if items != [] {
      var fields := Indexed(items, index);
      assert fields[1..] == Indexed(items[1..], index + 1);
      IndexedWellFormed(items[1..], index + 1);
      LaterIndicesDiffer(index, items[1..], index + 1);
      DigitsAreUtf8(fields[0].key);
      forall j | 0 <= j < |fields[0].key| ensures fields[0].key[j] != 0 {
        assert IsDigit(fields[0].key[j]);
      }
    }
  }

  lemma {:induction false} ItemsAreIndexedElements(items: seq<Bson>, index: nat)
    requires WellFormedItems(items)
    requires WellFormedFields(Indexed(items, index))
    ensures EncodeItems(items, index) == EncodeElements(Indexed(items, index))
    ensures |EncodeItems(items, index)| >= 2 * |items|
  {
    if items != [] {
      IndexedWellFormed(items[1..], index + 1);
      ItemsAreIndexedElements(items[1..], index + 1);
      assert Indexed(items, index)[1..] == Indexed(items[1..], index + 1);
    }
  }

  ghost predicate NoKeyOf(d: Dict, fields: seq<Element>) {
    fields != [] ==> !HasKey(d, fields[0].key) && NoKeyOf(d, fields[1..])
  }

  lemma {:induction false} NoKeyOfEntered(d: Dict, e: Entry, fields: seq<Element>)
    requires NoKeyOf(d, fields) && FreshKey(e.key, fields)
    ensures NoKeyOf(d + [e], fields)
  {
    if fields != [] {
      NoKeyOfEntered(d, e, fields[1..]);
      HasKeyEntered(d, e, fields[0].key);
    }
  }

  lemma {:induction false} HasKeyEntered(d: Dict, e: Entry, key: seq<byte>)
    ensures HasKey(d + [e], key) <==> HasKey(d, key) || e.key == key
  {
    if d == [] {
      assert d + [e] == [e];
    } else {
      assert (d + [e])[1..] == d[1..] + [e];
      HasKeyEntered(d[1..], e, key);
    }
  }

  lemma {:induction false} NoKeyOfEmpty(fields: seq<Element>)
    ensures NoKeyOf([], fields)
  {
    if fields != [] { NoKeyOfEmpty(fields[1..]); }
  }

  lemma FrameParts(body: seq<byte>)
    requires |body| + 5 < 0x8000_0000
    ensures I32(Frame(body), 0) == |Frame(body)| == |body| + 5
    ensures Frame(body)[|body| + 4] == 0
    ensures Frame(body)[4..|body| + 4] == body
  {
    assert Holds(Frame(body), 0, 4, Word4(|body| + 5));
    Word4Read(Frame(body), 0, |body| + 5);
  }

  lemma IndexKeyIsShort(i: nat)
    requires i < 0x8000_0000
    ensures |Decimal(i)| <= MAX_INT_DIGITS
  {
    assert Pow10(5) == 100000;
    assert Pow10(10) == 100000 * Pow10(5);
    DecimalLength(i, 10);
  }

  ghost predicate IndexKeys(d: Dict) {
    forall i :: 0 <= i < |d| ==> d[i].key == Decimal(i)
  }

  lemma IndexKeysSorted(d: Dict)
    requires IndexKeys(d)
    ensures Sorted(d, KeyLe)
    ensures forall x, y :: x in d && y in d && KeyLe(x, y) && KeyLe(y, x) ==> x == y
  {
    forall i, j | 0 <= i < j < |d| ensures KeyLe(d[i], d[j]) && !KeyLe(d[j], d[i]) {
      assert DecimalValue(d[i].key) == i && DecimalValue(d[j].key) == j;
    }
  }

  lemma NoHugeIndex(d: Dict, e: Entry)
    requires IndexKeys(d) && |d| < 0x8000_0000 && e in d
    ensures !HugeIndex(e.key)
  {
    var i :| 0 <= i < |d| && d[i] == e;
    IndexKeyIsShort(i);
  }

  lemma IndexedEntries(items: seq<Bson>)
    ensures IndexKeys(EraseFields(Indexed(items, 0)))
    ensures Values(EraseFields(Indexed(items, 0))) == EraseItems(items)
  {
    var d := EraseFields(Indexed(items, 0));
    forall i | 0 <= i < |d|
      ensures d[i].key == Decimal(i) && Values(d)[i] == EraseItems(items)[i]
    {
      IndexedAt(items, 0, i);
    }
  }

  /** The list a parsed array yields: index keys are already in order, so sorting keeps it. */
  lemma ArrayOfIndexed(items: seq<Bson>)
    requires |items| < 0x8000_0000
    ensures ListOf(EraseFields(Indexed(items, 0))) == Ok(EraseItems(items))
  {
    var d := EraseFields(Indexed(items, 0));
    IndexedEntries(items);
    IndexKeysSorted(d);
    SortedIsFixed(d, KeyLe);
    forall e | e in d ensures !HugeIndex(e.key) { NoHugeIndex(d, e); }
  }

  // The lemmas below speak of the parser through these names, so that its
  // mutually recursive bodies are unfolded only where a step needs it.
  ghost function ElementsFrom(raw: seq<byte>, pos: nat, document: Dict): Parsed<Dict>
    requires 4 <= pos && 4 <= |raw| && raw[|raw| - 1] == 0
  {
    ParseElements(raw, pos, document)
  }

  ghost function ValueFrom(raw: seq<byte>, pos: nat, tag: byte): Parsed<(Py, nat)>
    requires 0 < pos <= |raw|
  {
    ParseValue(raw, pos, tag)
  }

  /** The element loop reads encoded elements back, appending them to what it has. */
  lemma {:induction false} ParseEncodedElements(raw: seq<byte>, pos: nat, last: nat, fields: seq<Element>,
      document: Dict, result: Dict)
    requires 4 <= pos && |raw| < 0x8000_0000 && last == |raw| - 1 && raw[last] == 0
    requires WellFormedFields(fields) && NoKeyOf(document, fields)
    requires Holds(raw, pos, last, EncodeElements(fields))
    requires result == document + EraseFields(fields)
    ensures ElementsFrom(raw, pos, document) == Ok(result)
    decreases |EncodeElements(fields)|, 0, |fields|
  {
    if fields == [] {
      assert result == document && pos == last;
      LastTurn(raw, pos, document);
    } else {
      var key, v, rest := fields[0].key, fields[0].value, fields[1..];
      var head, value := EncodeElement(key, v), Erase(v);
      var next := pos + |head|;
      var entered := document + [Entry(key, value)];
      HoldsBoth(raw, pos, next, last, head, EncodeElements(rest));
      NoKeyOfEntered(document, Entry(key, value), rest);
      assert result == entered + EraseFields(rest);
      ParseEncodedElements(raw, next, last, rest, entered, result);
      ParseEncodedElement(raw, pos, next, last, key, v, value, document, entered, result);
    }
  }

  lemma LastTurn(raw: seq<byte>, pos: nat, document: Dict)
    requires 4 <= pos == |raw| - 1 && raw[pos] == 0
    ensures ElementsFrom(raw, pos, document) == Ok(document)
  {
  }

  lemma {:induction false} ParseEncodedElement(raw: seq<byte>, pos: nat, next: nat, last: nat, key: seq<byte>, v: Bson,
      value: Py, document: Dict, entered: Dict, result: Dict)
    requires WellFormed(v) && value == Erase(v) && KeyFree(key) && ValidUtf8(key) && !HasKey(document, key)
    requires 4 <= pos && next <= last == |raw| - 1 && |raw| < 0x8000_0000 && raw[last] == 0
    requires Holds(raw, pos, next, EncodeElement(key, v))
    requires entered == document + [Entry(key, value)] && ElementsFrom(raw, next, entered) == Ok(result)
    ensures ElementsFrom(raw, pos, document) == Ok(result)
    decreases |EncodeElement(key, v)|, 0, 0
  {
    hide WellFormed, ElementsFrom, ValueFrom, HasKey, ValidUtf8, EncodeValue, Erase, FirstZero;
    var keyEnd := pos + 1 + |key|;
    ElementAt(raw, pos, keyEnd, next, key, v);
    ParseEncodedValue(raw, keyEnd + 1, next, Tag(v), v, value);
    OneTurn(raw, pos, keyEnd, next, key, value, document, entered, result);
  }

  /** One turn of the element loop. */
  lemma OneTurn(raw: seq<byte>, pos: nat, keyEnd: nat, next: nat, key: seq<byte>,
      value: Py, document: Dict, entered: Dict, result: Dict)
    requires 4 <= pos < keyEnd < |raw| && pos < |raw| - 1 && raw[|raw| - 1] == 0 && 4 <= next
    requires FirstZero(raw, pos + 1) == keyEnd && raw[pos + 1..keyEnd] == key
    requires ValidUtf8(key) && !HasKey(document, key)
    requires ValueFrom(raw, keyEnd + 1, raw[pos]) == Ok((value, next))
    requires entered == document + [Entry(key, value)] && ElementsFrom(raw, next, entered) == Ok(result)
    ensures ElementsFrom(raw, pos, document) == Ok(result)
  {
    assert ParseElement(raw, pos) == Ok((Entry(key, value), next));
    assert Put(document, key, value) == entered;
  }

  /** Where the parts of an encoded element lie in the buffer. */
  lemma ElementAt(raw: seq<byte>, pos: nat, keyEnd: nat, next: nat, key: seq<byte>, v: Bson)
    requires WellFormed(v) && KeyFree(key) && keyEnd == pos + 1 + |key|
    requires raw != [] && raw[|raw| - 1] == 0
    requires Holds(raw, pos, next, EncodeElement(key, v))
    ensures raw[pos] == Tag(v)
    ensures keyEnd < |raw| && FirstZero(raw, pos + 1) == keyEnd && raw[pos + 1..keyEnd] == key
    ensures Holds(raw, keyEnd + 1, next, EncodeValue(v))
  {
    HoldsBoth(raw, pos, keyEnd + 1, next, [Tag(v)] + key + [0], EncodeValue(v));
    HoldsAll(raw, pos, pos + 1, keyEnd, keyEnd + 1, [Tag(v)], key, [0]);
    assert raw[pos] == raw[pos..pos + 1][0] && raw[keyEnd] == raw[keyEnd..keyEnd + 1][0];
    forall j | pos + 1 <= j < keyEnd ensures raw[j] != 0 {
      assert raw[j] == raw[pos + 1..keyEnd][j - pos - 1];
    }
  }

  /** One encoded value is read back wherever it stands in the buffer. */
  lemma {:induction false} ParseEncodedValue(raw: seq<byte>, pos: nat, end: nat, tag: byte, v: Bson, value: Py)
    requires WellFormed(v) && value == Erase(v) && tag == Tag(v)
    requires 0 < pos && |raw| < 0x8000_0000 && Holds(raw, pos, end, EncodeValue(v))
    ensures ValueFrom(raw, pos, tag) == Ok((value, end))
    decreases |EncodeValue(v)|, 1, 0
  {
    match v
    case Document(fields) =>
      ParseFramed(raw, pos, end, 0x03, fields, EraseFields(fields), value);
    case Array(items) =>
      IndexedWellFormed(items, 0);
      ItemsAreIndexedElements(items, 0);
      ArrayOfIndexed(items);
      ParseFramed(raw, pos, end, 0x04, Indexed(items, 0), EraseFields(Indexed(items, 0)), value);
    case _ =>
      ParseEncodedScalar(raw, pos, end, tag, v, value);
  }

  lemma ParseEncodedScalar(raw: seq<byte>, pos: nat, end: nat, tag: byte, v: Bson, value: Py)
    requires WellFormed(v) && value == Erase(v) && tag == Tag(v) && !v.Document? && !v.Array?
    requires 0 < pos && |raw| < 0x8000_0000 && Holds(raw, pos, end, EncodeValue(v))
    ensures ParseScalar(raw, pos, tag) == Ok((value, end))
  {
    match v
    case Text(utf8) => ParseEncodedText(raw, pos, end, utf8);
    case Binary(subtype, data) => ParseEncodedBinary(raw, pos, end, subtype, data);
    case Boolean(b) => assert raw[pos] == raw[pos..end][0];
    case DateTime(n) => Word8Read(raw, pos, n);
    case Int32(n) => Word4Read(raw, pos, n);
    case Int64(n) => Word8Read(raw, pos, n);
    case Double(_) =>
    case ObjectId(_) =>
    case Null =>
  }

  lemma {:induction false} ParseEncodedText(raw: seq<byte>, pos: nat, end: nat, utf8: seq<byte>)
    requires ValidUtf8(utf8) && |raw| < 0x8000_0000
    requires Holds(raw, pos, end, Word4(|utf8| + 1) + utf8 + [0])
    ensures ParseText(raw, pos) == Ok((PyStr(utf8), end))
  {
    HoldsAll(raw, pos, pos + 4, pos + 4 + |utf8|, end, Word4(|utf8| + 1), utf8, [0]);
    Word4Read(raw, pos, |utf8| + 1);
  }

  lemma ParseEncodedBinary(raw: seq<byte>, pos: nat, end: nat, subtype: byte, data: seq<byte>)
    requires |raw| < 0x8000_0000
    requires Holds(raw, pos, end, Word4(|data|) + [subtype] + data)
    ensures ParseBinary(raw, pos) == Ok((PyStr(BinaryText(subtype, data)), end))
  {
    HoldsAll(raw, pos, pos + 4, pos + 5, end, Word4(|data|), [subtype], data);
    assert raw[pos + 4] == raw[pos + 4..pos + 5][0];
    Word4Read(raw, pos, |data|);
  }

  /** A nested frame is cut out of the buffer and parsed on its own. */
  lemma {:induction false} ParseFramed(raw: seq<byte>, pos: nat, end: nat, tag: byte, fields: seq<Element>,
      nested: Dict, value: Py)
    requires WellFormedFields(fields) && tag in {0x03, 0x04} && nested == EraseFields(fields)
    requires 0 < pos && |raw| < 0x8000_0000 && Holds(raw, pos, end, Frame(EncodeElements(fields)))
    requires Container(tag, nested) == Ok(value)
    ensures ValueFrom(raw, pos, tag) == Ok((value, end))
    decreases |EncodeElements(fields)| + 5, 0, 0
  {
    var body := EncodeElements(fields);
    var frame := Frame(body);
    FrameParts(body);
    NoKeyOfEmpty(fields);
    assert nested == [] + EraseFields(fields);
    ParseEncodedElements(frame, 4, |body| + 4, fields, [], nested);
    I32InSlice(raw, pos, end, 0);
    NestedValue(raw, pos, end, tag, frame, nested, value);
  }

  lemma NestedValue(raw: seq<byte>, pos: nat, end: nat, tag: byte, frame: seq<byte>,
      nested: Dict, value: Py)
    requires tag in {0x03, 0x04} && 0 < pos && Holds(raw, pos, end, frame) && 5 <= |frame|
    requires I32(raw, pos) == |frame| && I32(frame, 0) == |frame| && frame[|frame| - 1] == 0
    requires ElementsFrom(frame, 4, []) == Ok(nested)
    requires Container(tag, nested) == Ok(value)
    ensures ValueFrom(raw, pos, tag) == Ok((value, end))
  {
    assert ParseDocument(frame) == Ok(nested);
    assert pos + I32(raw, pos) == end;
  }

  /** The round trip: a document that fits the length field parses back to itself, up to type erasure. */
  lemma {:induction false} RoundTrip(fields: seq<Element>)
    requires WellFormedFields(fields) && |EncodeDocument(fields)| < 0x8000_0000
    ensures ParseDocument(EncodeDocument(fields)) == Ok(EraseFields(fields))
  {
    hide EncodeElements, EraseFields, WellFormedFields, ParseElements, U32;
    var body := EncodeElements(fields);
    FrameParts(body);
    NoKeyOfEmpty(fields);
    assert EraseFields(fields) == [] + EraseFields(fields);
    ParseEncodedElements(Frame(body), 4, |body| + 4, fields, [], EraseFields(fields));
  }

  /* ---------- Nothing but types is lost ---------- */

  /** The same types throughout: what the parser's result no longer tells. */
  predicate SameTypes(a: Bson, b: Bson)
    decreases a
  {
    && Tag(a) == Tag(b)
    && (a.Binary? ==> a.subtype == b.subtype && |a.data| == |b.data|)
    && (a.Document? ==> SameFieldTypes(a.fields, b.fields))
    && (a.ObjectId? ==> |a.id| == |b.id|)
    && (a.Array? ==> SameItemTypes(a.items, b.items))
  }

  predicate SameFieldTypes(a: seq<Element>, b: seq<Element>)
    decreases a
  {
    |a| == |b| && (a != [] ==> SameTypes(a[0].value, b[0].value) && SameFieldTypes(a[1..], b[1..]))
  }

  predicate SameItemTypes(a: seq<Bson>, b: seq<Bson>)
    decreases a
  {
    |a| == |b| && (a != [] ==> SameTypes(a[0], b[0]) && SameItemTypes(a[1..], b[1..]))
  }

  lemma HexIsInjective(a: seq<byte>, b: seq<byte>)
    requires |a| == |b| && Hex(a) == Hex(b)
    ensures a == b
  {
    hide Hex;
    forall i | 0 <= i < |a| ensures a[i] == b[i] {
      HexAt(a, i);
      HexAt(b, i);
      SameDigit(a[i] / 16, b[i] / 16);
      SameDigit(a[i] % 16, b[i] % 16);
    }
  }

  lemma SameDigit(m: nat, n: nat)
    requires m < 16 && n < 16 && HEX_DIGITS[m] == HEX_DIGITS[n]
    ensures m == n
  {
    DigitText(m);
    DigitText(n);
  }

  lemma BinaryIsInjective(subtype: byte, a: seq<byte>, b: seq<byte>)
    requires |a| == |b| && BinaryText(subtype, a) == BinaryText(subtype, b)
    ensures a == b
  {
    hide Hex, UuidText;
    if |a| == 16 && subtype in {0x03, 0x04} {
      UuidGroups(a);
      UuidGroups(b);
    }
    HexIsInjective(a, b);
  }

  /** Types apart, the value can be told from what the parser makes of it. */
  lemma {:induction false} EraseIsInjective(a: Bson, b: Bson)
    requires SameTypes(a, b) && Erase(a) == Erase(b)
    ensures a == b
    decreases a
  {
    match a
    case Document(fields) => FieldsAreInjective(fields, b.fields);
    case Array(items) => ItemsAreInjective(items, b.items);
    case Binary(subtype, data) => BinaryIsInjective(subtype, data, b.data);
    case ObjectId(id) => HexIsInjective(id, b.id);
    case _ =>
  }

  lemma {:induction false} FieldsAreInjective(a: seq<Element>, b: seq<Element>)
    requires SameFieldTypes(a, b) && EraseFields(a) == EraseFields(b)
    ensures a == b
    decreases a
  {
    if a != [] {
      assert EraseFields(a)[0] == EraseFields(b)[0] && EraseFields(a)[1..] == EraseFields(b)[1..];
      EraseIsInjective(a[0].value, b[0].value);
      FieldsAreInjective(a[1..], b[1..]);
      assert a == [a[0]] + a[1..] && b == [b[0]] + b[1..];
    }
  }

  lemma {:induction false} ItemsAreInjective(a: seq<Bson>, b: seq<Bson>)
    requires SameItemTypes(a, b) && EraseItems(a) == EraseItems(b)
    ensures a == b
    decreases a
  {
    if a != [] {
      assert EraseItems(a)[0] == EraseItems(b)[0] && EraseItems(a)[1..] == EraseItems(b)[1..];
      EraseIsInjective(a[0], b[0]);
      ItemsAreInjective(a[1..], b[1..]);
      assert a == [a[0]] + a[1..] && b == [b[0]] + b[1..];
    }
  }

  lemma {:induction false} ErasedAt(fields: seq<Element>, i: nat)
    requires i < |fields|
    ensures EraseFields(fields)[i] == Entry(fields[i].key, Erase(fields[i].value))
  {
    if i > 0 { ErasedAt(fields[1..], i - 1); }
  }

  lemma {:induction false} NestedAt(fields: seq<Element>, i: nat)
    requires WellFormedFields(fields) && i < |fields|
    ensures WellFormed(fields[i].value) && |EncodeValue(fields[i].value)| <= |EncodeElements(fields)|
  {
    if i > 0 { NestedAt(fields[1..], i - 1); }
  }

  /** What is read back, element by element: the same keys in the same order, and the values written. */
  lemma ReadBackAt(fields: seq<Element>, i: nat)
    requires WellFormedFields(fields) && |EncodeDocument(fields)| < 0x8000_0000 && i < |fields|
    ensures var read := ParseDocument(EncodeDocument(fields));
      && read.Ok? && |read.value| == |fields| && read.value[i].key == fields[i].key
      && var was, got := fields[i].value, read.value[i].value;
        match was
        case Double(bits) => got == PyFloat(bits)
        case Text(utf8) => got == PyStr(utf8)
        case Document(nested) =>
          WellFormedFields(nested) && got.PyDict? && ParseDocument(EncodeDocument(nested)) == Ok(got.entries)
        case Array(items) => got.PyList? && |got.items| == |items|
        case Binary(subtype, data) => got.PyStr? && (|got.text| == 2 * |data| || |got.text| == 36)
        case ObjectId(id) => got == PyStr(Hex(id))
        case Boolean(b) => got == PyBool(b)
        case DateTime(n) => got == PyInt(n)
        case Null => got == PyNone
        case Int32(n) => got == PyInt(n)
        case Int64(n) => got == PyInt(n)
  {
    hide EncodeElements, ParseDocument, EncodeValue, WellFormedFields, EraseFields, EraseItems;
    RoundTrip(fields);
    ErasedAt(fields, i);
    NestedAt(fields, i);
    var was := fields[i].value;
    if was.Document? { NestedRoundTrip(fields, was.fields); }
    if was.Binary? {
      HexSplit(was.data, []);
      if |was.data| == 16 { UuidGroups(was.data); }
    }
  }

  lemma NestedRoundTrip(fields: seq<Element>, nested: seq<Element>)
    requires WellFormedFields(fields) && |EncodeDocument(fields)| < 0x8000_0000
    requires WellFormed(Document(nested)) && |EncodeValue(Document(nested))| <= |EncodeElements(fields)|
    ensures WellFormedFields(nested) && ParseDocument(EncodeDocument(nested)) == Ok(EraseFields(nested))
  {
    hide EncodeElements, ParseDocument;
    RoundTrip(nested);
  }
}
