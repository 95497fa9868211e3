/** Whatever bytes the parser accepts: the names and texts it returns are valid Unicode. */
module BsonText {
  import opened Bytes
  import opened Orders
  import opened Bson
  import opened BsonParser

  predicate Textual(v: Py)
    decreases v
  {
    match v
    case PyStr(text) => ValidUtf8(text)
    case PyDict(entries) => forall i :: 0 <= i < |entries| ==> ValidUtf8(entries[i].key) && Textual(entries[i].value)
    case PyList(items) => forall i :: 0 <= i < |items| ==> Textual(items[i])
    case _ => true
  }

  predicate TextualDict(d: Dict) {
    forall i :: 0 <= i < |d| ==> ValidUtf8(d[i].key) && Textual(d[i].value)
  }

  lemma {:induction false} AsciiIsUtf8(s: seq<byte>)
    requires forall i :: 0 <= i < |s| ==> s[i] < 0x80
    ensures ValidUtf8(s)
  {
    if s != [] { AsciiIsUtf8(s[1..]); }
  }

  lemma {:induction false} HexIsAscii(s: seq<byte>)
    ensures forall i :: 0 <= i < |Hex(s)| ==> Hex(s)[i] < 0x80
  {
    if s != [] { HexIsAscii(s[1..]); }
  }

  lemma BinaryIsText(subtype: byte, data: seq<byte>)
    ensures ValidUtf8(BinaryText(subtype, data))
  {
    hide Hex, ValidUtf8;
    if |data| == 16 {
      HexIsAscii(data[..4]);
      HexIsAscii(data[4..6]);
      HexIsAscii(data[6..8]);
      HexIsAscii(data[8..10]);
      HexIsAscii(data[10..]);
    }
    HexIsAscii(data);
    AsciiIsUtf8(BinaryText(subtype, data));
  }

  lemma ScalarIsText(raw: seq<byte>, pos: nat, tag: byte)
    requires pos <= |raw| && ParseScalar(raw, pos, tag).Ok?
    ensures Textual(ParseScalar(raw, pos, tag).value.0)
  {
    hide Hex, BinaryText, I64, U32;
    if tag == 0x05 {
      BinaryIsText(raw[pos + 4], raw[pos + 5..pos + 5 + I32(raw, pos)]);
    } else if tag == 0x07 {
      HexIsAscii(raw[pos..pos + 12]);
      AsciiIsUtf8(Hex(raw[pos..pos + 12]));
    }
  }

  lemma ListIsText(d: Dict)
    requires TextualDict(d) && ListOf(d).Ok?
    ensures Textual(PyList(ListOf(d).value))
  {
    hide Textual, ValidUtf8, StableSort, KeyLe, Values;
    var sorted := StableSort(d, KeyLe);
    var from := StableSortPicks(d, KeyLe);
    forall i | 0 <= i < |sorted| ensures Textual(Values(sorted)[i]) {
      ValuesAt(sorted, i);
    }
    assert ListOf(d).value == Values(sorted);
    AllTextual(Values(sorted));
  }

  lemma AllTextual(items: seq<Py>)
    requires forall i :: 0 <= i < |items| ==> Textual(items[i])
    ensures Textual(PyList(items))
  {
  }

  lemma PutIsText(d: Dict, key: seq<byte>, value: Py)
    requires TextualDict(d) && ValidUtf8(key) && Textual(value)
    ensures TextualDict(Put(d, key, value))
  {
    hide Textual, ValidUtf8;
  }

  lemma {:induction false} AcceptedIsText(raw: seq<byte>)
    requires ParseDocument(raw).Ok?
    ensures TextualDict(ParseDocument(raw).value)
    decreases |raw|, 3, 0
  {
    hide I32;
    ElementsAreText(raw, 4, []);
  }

  lemma {:induction false} ElementsAreText(raw: seq<byte>, pos: nat, document: Dict)
    requires 4 <= pos && 4 <= |raw| && raw[|raw| - 1] == 0 && TextualDict(document)
    requires ParseElements(raw, pos, document).Ok?
    ensures TextualDict(ParseElements(raw, pos, document).value)
    decreases |raw|, 2, |raw| - pos
  {
    hide Textual, ValidUtf8, Put, ParseElement, TextualDict;
    if pos < |raw| - 1 {
      var (entry, next) := ParseElement(raw, pos).value;
      ElementIsText(raw, pos);
      PutIsText(document, entry.key, entry.value);
      ElementsAreText(raw, next, Put(document, entry.key, entry.value));
    }
  }

  lemma {:induction false} ElementIsText(raw: seq<byte>, pos: nat)
    requires 4 <= pos < |raw| - 1 && raw[|raw| - 1] == 0 && ParseElement(raw, pos).Ok?
    ensures ValidUtf8(ParseElement(raw, pos).value.0.key) && Textual(ParseElement(raw, pos).value.0.value)
    decreases |raw|, 1, 0
  {
    hide Textual, ValidUtf8, ParseValue;
    ValueIsText(raw, FirstZero(raw, pos + 1) + 1, raw[pos]);
  }

  lemma {:induction false} ValueIsText(raw: seq<byte>, pos: nat, tag: byte)
    requires 0 < pos <= |raw| && ParseValue(raw, pos, tag).Ok?
    ensures Textual(ParseValue(raw, pos, tag).value.0)
    decreases |raw|, 0, 0
  {
    hide ValidUtf8, ParseDocument, ParseScalar, ListOf, I32;
    if tag == 0x03 || tag == 0x04 {
      var slice := raw[pos..pos + I32(raw, pos)];
      AcceptedIsText(slice);
      if tag == 0x04 { ListIsText(ParseDocument(slice).value); }
    } else {
      ScalarIsText(raw, pos, tag);
    }
  }
}
