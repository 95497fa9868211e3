/** BSON documents, their encoding, and what the Playnite importer's parser makes of a byte string. */
module Bson {
  import opened Bytes
  import opened Orders

  /** A BSON value (BSON Specification version 1.1) of one of the types the parser supports. */
  datatype Bson =
    | Double(bits: seq<byte>)
    | Text(utf8: seq<byte>)
    | Document(fields: seq<Element>)
    | Array(items: seq<Bson>)
    | Binary(subtype: byte, data: seq<byte>)
    | ObjectId(id: seq<byte>)
    | Boolean(value: bool)
    | DateTime(millis: int)
    | Null
    | Int32(n32: int)
    | Int64(n64: int)

  datatype Element = Element(key: seq<byte>, value: Bson)

  /** What the parser returns: integers of every width become one type, binary data becomes text. */
  datatype Py =
    | PyFloat(bits: seq<byte>)
    | PyStr(text: seq<byte>)
    | PyDict(entries: Dict)
    | PyList(items: seq<Py>)
    | PyBool(value: bool)
    | PyInt(n: int)
    | PyNone

  datatype Entry = Entry(key: seq<byte>, value: Py)

  /** A Python dict: entries in insertion order. */
  type Dict = seq<Entry>

  datatype Parsed<T> = Ok(value: T) | Reject

  /* ---------- Encoding ---------- */

  function Tag(v: Bson): byte {
    match v
    case Double(_) => 0x01
    case Text(_) => 0x02
    case Document(_) => 0x03
    case Array(_) => 0x04
    case Binary(_, _) => 0x05
    case ObjectId(_) => 0x07
    case Boolean(_) => 0x08
    case DateTime(_) => 0x09
    case Null => 0x0A
    case Int32(_) => 0x10
    case Int64(_) => 0x12
  }

  predicate KeyFree(key: seq<byte>) {
    forall i :: 0 <= i < |key| ==> key[i] != 0
  }

  predicate FreshKey(key: seq<byte>, fields: seq<Element>) {
    fields != [] ==> fields[0].key != key && FreshKey(key, fields[1..])
  }

  /** The values an encoder accepts: text is UTF-8, keys are distinct and NUL-free, integers fit. */
  predicate WellFormed(v: Bson) {
    match v
    case Double(bits) => |bits| == 8
    case Text(utf8) => ValidUtf8(utf8)
    case Document(fields) => WellFormedFields(fields)
    case Array(items) => WellFormedItems(items)
    case Binary(_, _) => true
    case ObjectId(id) => |id| == 12
    case Boolean(_) => true
    case DateTime(n) => FitsI64(n)
    case Null => true
    case Int32(n) => FitsI32(n)
    case Int64(n) => FitsI64(n)
  }

  predicate WellFormedFields(fields: seq<Element>) {
    fields != [] ==>
      && KeyFree(fields[0].key) && ValidUtf8(fields[0].key)
      && WellFormed(fields[0].value)
      && FreshKey(fields[0].key, fields[1..])
      && WellFormedFields(fields[1..])
  }

  predicate WellFormedItems(items: seq<Bson>) {
    items != [] ==> WellFormed(items[0]) && WellFormedItems(items[1..])
  }

  /** A document's bytes: its total length, its elements, a terminating zero. */
  function Frame(body: seq<byte>): seq<byte> {
    Word4(|body| + 5) + body + [0]
  }

  function EncodeValue(v: Bson): seq<byte>
    requires WellFormed(v)
    decreases v, 0
  {
    match v
    case Double(bits) => bits
    case Text(utf8) => Word4(|utf8| + 1) + utf8 + [0]
    case Document(fields) => Frame(EncodeElements(fields))
    case Array(items) => Frame(EncodeItems(items, 0))
    case Binary(subtype, data) => Word4(|data|) + [subtype] + data
    case ObjectId(id) => id
    case Boolean(b) => [if b then 1 else 0]
    case DateTime(n) => Word8(n)
    case Null => []
    case Int32(n) => Word4(n)
    case Int64(n) => Word8(n)
  }

  function EncodeElement(key: seq<byte>, v: Bson): seq<byte>
    requires WellFormed(v)
    decreases v, 1
  {
    [Tag(v)] + key + [0] + EncodeValue(v)
  }

  function EncodeElements(fields: seq<Element>): seq<byte>
    requires WellFormedFields(fields)
    decreases fields
  {
    if fields == [] then []
    else EncodeElement(fields[0].key, fields[0].value) + EncodeElements(fields[1..])
  }

  /** An array is a document whose keys are the decimal indices. */
  function EncodeItems(items: seq<Bson>, index: nat): seq<byte>
    requires WellFormedItems(items)
    decreases items
  {
    if items == [] then []
    else EncodeElement(Decimal(index), items[0]) + EncodeItems(items[1..], index + 1)
  }

  function EncodeDocument(fields: seq<Element>): seq<byte>
    requires WellFormedFields(fields)
  {
    Frame(EncodeElements(fields))
  }

  /* ---------- Type erasure ---------- */

  function BinaryText(subtype: byte, data: seq<byte>): seq<byte> {
    if |data| == 16 && subtype in {0x03, 0x04} then UuidText(data) else Hex(data)
  }

  function Erase(v: Bson): Py
    decreases v
  {
    match v
    case Double(bits) => PyFloat(bits)
    case Text(utf8) => PyStr(utf8)
    case Document(fields) => PyDict(EraseFields(fields))
    case Array(items) => PyList(EraseItems(items))
    case Binary(subtype, data) => PyStr(BinaryText(subtype, data))
    case ObjectId(id) => PyStr(Hex(id))
    case Boolean(b) => PyBool(b)
    case DateTime(n) => PyInt(n)
    case Null => PyNone
    case Int32(n) => PyInt(n)
    case Int64(n) => PyInt(n)
  }

  function EraseFields(fields: seq<Element>): (d: Dict)
    ensures |d| == |fields|
    decreases fields
  {
    if fields == [] then []
    else [Entry(fields[0].key, Erase(fields[0].value))] + EraseFields(fields[1..])
  }

  function EraseItems(items: seq<Bson>): (r: seq<Py>)
    ensures |r| == |items|
    decreases items
  {
    if items == [] then [] else [Erase(items[0])] + EraseItems(items[1..])
  }

  /* ---------- Parsing ---------- */

  predicate HasKey(d: Dict, key: seq<byte>) {
    d != [] && (d[0].key == key || HasKey(d[1..], key))
  }

  /** Assignment to a dict key: replaces in place, or appends. */
  function Put(d: Dict, key: seq<byte>, value: Py): Dict {
    if HasKey(d, key) then
      seq(|d|, i requires 0 <= i < |d| => if d[i].key == key then Entry(key, value) else d[i])
    else d + [Entry(key, value)]
  }

  /** The order of array keys: digit keys by number, then all others by their text. */
  predicate KeyLe(a: Entry, b: Entry) {
    if AllDigits(a.key) && AllDigits(b.key) then DecimalValue(a.key) <= DecimalValue(b.key)
    else if AllDigits(a.key) || AllDigits(b.key) then AllDigits(a.key)
    else LexLe(a.key, b.key)
  }

  /** The longest digit text Python converts to an integer. */
  const MAX_INT_DIGITS := 4300

  predicate HugeIndex(key: seq<byte>) {
    AllDigits(key) && |key| > MAX_INT_DIGITS
  }

  function ListOf(d: Dict): Parsed<seq<Py>> {
    if exists e :: e in d && HugeIndex(e.key) then Reject
    else Ok(Values(StableSort(d, KeyLe)))
  }

  function Values(d: Dict): (r: seq<Py>)
    ensures |r| == |d|
  {
    if d == [] then [] else [d[0].value] + Values(d[1..])
  }

  /** The check `_ensure_bson_bytes` makes. */
  predicate HasBytes(raw: seq<byte>, pos: int, size: int) {
    0 <= pos && 0 <= size && pos + size <= |raw|
  }

  function ParseDocument(raw: seq<byte>): Parsed<Dict>
    decreases |raw|, 3, 0
  {
    if |raw| < 4 || I32(raw, 0) != |raw| || raw[|raw| - 1] != 0 then Reject
    else ParseElements(raw, 4, [])
  }

  /** The element loop from `pos` on, with the entries read so far. */
  function ParseElements(raw: seq<byte>, pos: nat, document: Dict): Parsed<Dict>
    requires 4 <= pos && 4 <= |raw| && raw[|raw| - 1] == 0
    decreases |raw|, 2, |raw| - pos
  {
    if pos < |raw| - 1 then
      match ParseElement(raw, pos)
      case Reject => Reject
      case Ok((entry, next)) => ParseElements(raw, next, Put(document, entry.key, entry.value))
    else if pos == |raw| - 1 then Ok(document)
    else Reject
  }

  /** One element at `pos`: a type byte, a zero-terminated key and a value. */
  function ParseElement(raw: seq<byte>, pos: nat): (r: Parsed<(Entry, nat)>)
    requires 4 <= pos < |raw| - 1 && raw[|raw| - 1] == 0
    ensures r.Ok? ==> pos + 2 <= r.value.1 <= |raw|
    decreases |raw|, 1, 0
  {
    var keyEnd := FirstZero(raw, pos + 1);
    var key := raw[pos + 1..keyEnd];
    if !ValidUtf8(key) then Reject
    else
      match ParseValue(raw, keyEnd + 1, raw[pos])
      case Reject => Reject
      case Ok((value, next)) => Ok((Entry(key, value), next))
  }

  /** One value at `pos`, and the position behind it. */
  function ParseValue(raw: seq<byte>, pos: nat, tag: byte): (r: Parsed<(Py, nat)>)
    requires 0 < pos <= |raw|
    ensures r.Ok? ==> pos <= r.value.1 <= |raw|
    decreases |raw|, 0, 0
  {
    if tag == 0x03 || tag == 0x04 then
      if !HasBytes(raw, pos, 4) then Reject
      else
        var size := I32(raw, pos);
        if !HasBytes(raw, pos, size) then Reject
        else
          match ParseDocument(raw[pos..pos + size])
          case Reject => Reject
          case Ok(nested) =>
            match Container(tag, nested)
            case Reject => Reject
            case Ok(value) => Ok((value, pos + size))
    else ParseScalar(raw, pos, tag)
  }

  /** What a nested document stands for: itself, or the list of its values. */
  function Container(tag: byte, nested: Dict): Parsed<Py> {
    if tag == 0x03 then Ok(PyDict(nested))
    else
      match ListOf(nested)
      case Reject => Reject
      case Ok(items) => Ok(PyList(items))
  }

  /** The types without nested documents. */
  function ParseScalar(raw: seq<byte>, pos: nat, tag: byte): (r: Parsed<(Py, nat)>)
    requires pos <= |raw|
    ensures r.Ok? ==> pos <= r.value.1 <= |raw|
  {
    if tag == 0x01 then
      if HasBytes(raw, pos, 8) then Ok((PyFloat(raw[pos..pos + 8]), pos + 8)) else Reject
    else if tag == 0x02 then ParseText(raw, pos)
    else if tag == 0x05 then ParseBinary(raw, pos)
    else if tag == 0x07 then
      if HasBytes(raw, pos, 12) then Ok((PyStr(Hex(raw[pos..pos + 12])), pos + 12)) else Reject
    else if tag == 0x08 then
      if HasBytes(raw, pos, 1) then Ok((PyBool(raw[pos] != 0), pos + 1)) else Reject
    else if tag == 0x09 || tag == 0x12 then
      if HasBytes(raw, pos, 8) then Ok((PyInt(I64(raw, pos)), pos + 8)) else Reject
    else if tag == 0x0A then Ok((PyNone, pos))
    else if tag == 0x10 then
      if HasBytes(raw, pos, 4) then Ok((PyInt(I32(raw, pos)), pos + 4)) else Reject
    else Reject
  }

  function ParseText(raw: seq<byte>, pos: nat): (r: Parsed<(Py, nat)>)
    ensures r.Ok? ==> pos <= r.value.1 <= |raw|
  {
    if !HasBytes(raw, pos, 4) then Reject
    else
      var size, start := I32(raw, pos), pos + 4;
      if !HasBytes(raw, start, size) then Reject
      // A declared size of zero leaves an empty slice: the text is empty and nothing is consumed.
      else if size == 0 then Ok((PyStr([]), start))
      else if ValidUtf8(raw[start..start + size - 1]) then
        Ok((PyStr(raw[start..start + size - 1]), start + size))
      else Reject
  }

  function ParseBinary(raw: seq<byte>, pos: nat): (r: Parsed<(Py, nat)>)
    ensures r.Ok? ==> pos <= r.value.1 <= |raw|
  {
    if !HasBytes(raw, pos, 5) then Reject
    else
      var size, start := I32(raw, pos), pos + 5;
      if !HasBytes(raw, start, size) then Reject
      else Ok((PyStr(BinaryText(raw[pos + 4], raw[start..start + size])), start + size))
  }
}
