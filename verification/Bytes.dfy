/** Byte strings: little-endian integers, UTF-8 well-formedness, hexadecimal and decimal text. */
module Bytes {
  type byte = b: int | 0 <= b < 256

  /** Unsigned little-endian integers, as `struct` unpacks them. */
  function U16(s: seq<byte>, at: nat): nat
    requires at + 2 <= |s|
  {
    s[at] as int + 0x100 * s[at + 1] as int
  }

  function U32(s: seq<byte>, at: nat): nat
    requires at + 4 <= |s|
  {
    s[at] as int + 0x100 * s[at + 1] as int + 0x1_0000 * s[at + 2] as int + 0x100_0000 * s[at + 3] as int
  }

  /** Signed little-endian integers in two's complement. */
  function I32(s: seq<byte>, at: nat): int
    requires at + 4 <= |s|
  {
    if U32(s, at) < 0x8000_0000 then U32(s, at) else U32(s, at) - 0x1_0000_0000
  }

  function I64(s: seq<byte>, at: nat): int
    requires at + 8 <= |s|
  {
    I32(s, at + 4) * 0x1_0000_0000 + U32(s, at)
  }

  predicate FitsI32(n: int) {
    -0x8000_0000 <= n < 0x8000_0000
  }

  predicate FitsI64(n: int) {
    -0x8000_0000_0000_0000 <= n < 0x8000_0000_0000_0000
  }

  /** The low two, four or eight bytes of an integer, least significant first. */
  function Word2(n: int): (w: seq<byte>)
    ensures |w| == 2
  {
    [n % 0x100, n / 0x100 % 0x100]
  }

  function Word4(n: int): (w: seq<byte>)
    ensures |w| == 4
  {
    [n % 0x100, n / 0x100 % 0x100, n / 0x100 / 0x100 % 0x100, n / 0x100 / 0x100 / 0x100 % 0x100]
  }

  function Word8(n: int): (w: seq<byte>)
    ensures |w| == 8
  {
    Word4(n) + Word4(n / 0x1_0000_0000)
  }

  lemma Word2Read(s: seq<byte>, at: nat, n: nat)
    requires n < 0x1_0000 && Holds(s, at, at + 2, Word2(n))
    ensures U16(s, at) == n
  {
    assert s[at] == s[at..at + 2][0] && s[at + 1] == s[at..at + 2][1];
  }

  lemma SameWord4(s: seq<byte>, at: nat, n: int)
    requires Holds(s, at, at + 4, Word4(n))
    ensures U32(s, at) == n % 0x1_0000_0000
  {
    var w := s[at..at + 4];
    assert s[at] == w[0] && s[at + 1] == w[1] && s[at + 2] == w[2] && s[at + 3] == w[3];
    Word4Sum(n);
  }

  lemma Word4Sum(n: int)
    ensures n % 0x100 + 0x100 * (n / 0x100 % 0x100) + 0x1_0000 * (n / 0x100 / 0x100 % 0x100)
          + 0x100_0000 * (n / 0x100 / 0x100 / 0x100 % 0x100) == n % 0x1_0000_0000
  {
    var a := n / 0x100;
    var b := a / 0x100;
    var c := b / 0x100;
    var d := c / 0x100;
    var sum := n % 0x100 + 0x100 * (a % 0x100) + 0x1_0000 * (b % 0x100) + 0x100_0000 * (c % 0x100);
    assert n == sum + 0x1_0000_0000 * d && 0 <= sum < 0x1_0000_0000;
  }

  lemma Word4Read(s: seq<byte>, at: nat, n: int)
    requires FitsI32(n) && Holds(s, at, at + 4, Word4(n))
    ensures I32(s, at) == n
  {
    SameWord4(s, at, n);
  }

  lemma Word8Read(s: seq<byte>, at: nat, n: int)
    requires FitsI64(n) && Holds(s, at, at + 8, Word8(n))
    ensures I64(s, at) == n
  {
    HoldsBoth(s, at, at + 4, at + 8, Word4(n), Word4(n / 0x1_0000_0000));
    SameWord4(s, at, n);
    Word4Read(s, at + 4, n / 0x1_0000_0000);
  }

  /** An integer inside a slice is the integer at its place in the whole. */
  lemma I32InSlice(s: seq<byte>, lo: nat, hi: nat, at: nat)
    requires lo + at + 4 <= hi <= |s|
    ensures I32(s[lo..hi], at) == I32(s, lo + at)
  {
  }

  /** Equal slices hold equal integers. */
  lemma EqualSlicesEqualInts(s: seq<byte>, lo: nat, t: seq<byte>, at: nat, n: nat)
    requires lo + n <= |s| && at + n <= |t| && s[lo..lo + n] == t[at..at + n]
    ensures n >= 1 ==> s[lo] == t[at]
    ensures n >= 4 ==> I32(s, lo) == I32(t, at)
    ensures n >= 8 ==> I64(s, lo) == I64(t, at)
  {
    var x, y := s[lo..lo + n], t[at..at + n];
    if n >= 1 { assert s[lo] == x[0] && t[at] == y[0]; }
    if n >= 4 {
      assert s[lo + 1] == x[1] && s[lo + 2] == x[2] && s[lo + 3] == x[3];
      assert t[at + 1] == y[1] && t[at + 2] == y[2] && t[at + 3] == y[3];
    }
    if n >= 8 {
      assert s[lo + 4] == x[4] && s[lo + 4 + 1] == x[5] && s[lo + 4 + 2] == x[6] && s[lo + 4 + 3] == x[7];
      assert t[at + 4] == y[4] && t[at + 4 + 1] == y[5] && t[at + 4 + 2] == y[6] && t[at + 4 + 3] == y[7];
    }
  }

  lemma SliceOfSlice(s: seq<byte>, lo: nat, hi: nat, a: nat, b: nat)
    requires lo <= hi <= |s| && a <= b <= hi - lo
    ensures s[lo..hi][a..b] == s[lo + a..lo + b]
  {
    var x, y := s[lo..hi][a..b], s[lo + a..lo + b];
    forall i | 0 <= i < b - a ensures x[i] == y[i] {
      assert x[i] == s[lo..hi][a + i] == s[lo + (a + i)];
      assert y[i] == s[(lo + a) + i];
    }
  }

  /** The bytes from `from` up to `to` are `bytes`. */
  ghost predicate Holds(s: seq<byte>, from: nat, to: nat, bytes: seq<byte>) {
    from <= to <= |s| && s[from..to] == bytes
  }

  /** Two adjoining byte strings lie where their concatenation does. */
  lemma HoldsBoth(s: seq<byte>, from: nat, mid: nat, to: nat, a: seq<byte>, b: seq<byte>)
    requires Holds(s, from, to, a + b) && mid == from + |a|
    ensures Holds(s, from, mid, a) && Holds(s, mid, to, b)
  {
    SliceOfSlice(s, from, to, 0, |a|);
    SliceOfSlice(s, from, to, |a|, to - from);
    assert (a + b)[0..|a|] == a && (a + b)[|a|..to - from] == b;
  }

  /** The same for three. */
  lemma HoldsAll(s: seq<byte>, from: nat, mid: nat, back: nat, to: nat,
      a: seq<byte>, b: seq<byte>, c: seq<byte>)
    requires Holds(s, from, to, a + b + c) && mid == from + |a| && back == mid + |b|
    ensures Holds(s, from, mid, a) && Holds(s, mid, back, b) && Holds(s, back, to, c)
  {
    HoldsBoth(s, from, back, to, a + b, c);
    HoldsBoth(s, from, mid, back, a, b);
  }

  predicate Continuation(b: byte) {
    0x80 <= b <= 0xBF
  }

  /** Well-formed UTF-8, as the strict decoder accepts it: no overlong forms, no surrogates, at most U+10FFFF. */
  predicate ValidUtf8(s: seq<byte>) {
    if s == [] then true
    else if s[0] < 0x80 then ValidUtf8(s[1..])
    else if 0xC2 <= s[0] <= 0xDF then
      |s| >= 2 && Continuation(s[1]) && ValidUtf8(s[2..])
    else if 0xE0 <= s[0] <= 0xEF then
      && |s| >= 3 && Continuation(s[1]) && Continuation(s[2])
      && (s[0] == 0xE0 ==> s[1] >= 0xA0)
      && (s[0] == 0xED ==> s[1] <= 0x9F)
      && ValidUtf8(s[3..])
    else if 0xF0 <= s[0] <= 0xF4 then
      && |s| >= 4 && Continuation(s[1]) && Continuation(s[2]) && Continuation(s[3])
      && (s[0] == 0xF0 ==> s[1] >= 0x90)
      && (s[0] == 0xF4 ==> s[1] <= 0x8F)
      && ValidUtf8(s[4..])
    else false
  }

  function HexDigit(n: nat): byte
    requires n < 16
  {
    if n < 10 then 48 + n else 87 + n
  }

  /** Lower-case hexadecimal text, two digits a byte. */
  function Hex(s: seq<byte>): seq<byte> {
    if s == [] then [] else [HexDigit(s[0] / 16), HexDigit(s[0] % 16)] + Hex(s[1..])
  }

  /** The 8-4-4-4-12 text of a UUID. */
  function UuidText(s: seq<byte>): seq<byte>
    requires |s| == 16
  {
    Hex(s[..4]) + [45] + Hex(s[4..6]) + [45] + Hex(s[6..8]) + [45] + Hex(s[8..10]) + [45] + Hex(s[10..])
  }

  const HEX_DIGITS := "0123456789abcdef"

  /** Each byte becomes its two digits, so the text determines the bytes. */
  lemma {:induction false} HexAt(s: seq<byte>, i: nat)
    requires i < |s|
    ensures |Hex(s)| == 2 * |s|
    ensures Hex(s)[2 * i] == HEX_DIGITS[s[i] / 16] as int && Hex(s)[2 * i + 1] == HEX_DIGITS[s[i] % 16] as int
  {
    var tail := Hex(s[1..]);
    if |s| > 1 {
      HexAt(s[1..], if i == 0 then 0 else i - 1);
      if i > 0 { assert Hex(s)[2 * i] == tail[2 * (i - 1)] && Hex(s)[2 * i + 1] == tail[2 * (i - 1) + 1]; }
    }
    DigitText(s[0] / 16);
    DigitText(s[0] % 16);
  }

  lemma DigitText(n: nat)
    requires n < 16
    ensures HexDigit(n) == HEX_DIGITS[n] as int
  {
  }

  /** The UUID text is the hexadecimal text in groups of 8, 4, 4, 4 and 12 digits. */
  lemma UuidGroups(s: seq<byte>)
    requires |s| == 16
    ensures var t := UuidText(s);
      && |t| == 36 && t[8] == t[13] == t[18] == t[23] == '-' as int
      && t[..8] + t[9..13] + t[14..18] + t[19..23] + t[24..] == Hex(s)
  {
    hide Hex;
    var a, b, c, d, e := s[..4], s[4..6], s[6..8], s[8..10], s[10..];
    HexSplit(a, b);
    HexSplit(a + b, c);
    HexSplit(a + b + c, d);
    HexSplit(a + b + c + d, e);
    assert s == a + b + c + d + e;
    HexSplit(b, c);
    HexSplit(d, e);
    Grouped(Hex(a), Hex(b), Hex(c), Hex(d), Hex(e));
  }

  lemma Grouped(a: seq<byte>, b: seq<byte>, c: seq<byte>, d: seq<byte>, e: seq<byte>)
    requires |a| == 8 && |b| == |c| == |d| == 4 && |e| == 12
    ensures var t := a + [45] + b + [45] + c + [45] + d + [45] + e;
      && |t| == 36 && t[8] == t[13] == t[18] == t[23] == '-' as int
      && t[..8] == a && t[9..13] == b && t[14..18] == c && t[19..23] == d && t[24..] == e
  {
  }

  lemma {:induction false} HexSplit(a: seq<byte>, b: seq<byte>)
    ensures Hex(a + b) == Hex(a) + Hex(b) && |Hex(a)| == 2 * |a| && |Hex(b)| == 2 * |b|
  {
    if a == [] {
      assert a + b == b;
      if b != [] { HexAt(b, 0); }
    } else {
      assert (a + b)[1..] == a[1..] + b;
      HexSplit(a[1..], b);
    }
  }

  predicate IsDigit(b: byte) {
    48 <= b <= 57
  }

  predicate AllDigits(s: seq<byte>) {
    s != [] && forall i :: 0 <= i < |s| ==> IsDigit(s[i])
  }

  /** The decimal value of digit text, leading zeros allowed. */
  function DecimalValue(s: seq<byte>): nat
    requires forall i :: 0 <= i < |s| ==> IsDigit(s[i])
  {
    if s == [] then 0
    else
      assert IsDigit(s[|s| - 1]);
      10 * DecimalValue(s[..|s| - 1]) + (s[|s| - 1] as int - 48)
  }

  /** The decimal text of a number, without leading zeros. */
  function Decimal(n: nat): (s: seq<byte>)
    ensures AllDigits(s) && DecimalValue(s) == n
  {
    if n < 10 then [48 + n]
    else
      var s := Decimal(n / 10) + [48 + n % 10];
      assert s[..|s| - 1] == Decimal(n / 10);
      s
  }

  function Pow10(k: nat): nat {
    if k == 0 then 1 else 10 * Pow10(k - 1)
  }

  lemma {:induction false} DecimalLength(n: nat, k: nat)
    requires k > 0 && n < Pow10(k)
    ensures |Decimal(n)| <= k
  {
    if n >= 10 {
      assert Pow10(k) == 10 * Pow10(k - 1) && Pow10(0) == 1;
      DecimalLength(n / 10, k - 1);
    }
  }

  lemma {:induction false} DigitsAreUtf8(s: seq<byte>)
    requires forall i :: 0 <= i < |s| ==> IsDigit(s[i])
    ensures ValidUtf8(s)
  {
    if s != [] { DigitsAreUtf8(s[1..]); }
  }

  /** Index of the first zero byte at or after `from`: Python's `raw.index(0, from)`. */
  function FirstZero(raw: seq<byte>, from: nat): (i: nat)
    requires from < |raw| && raw[|raw| - 1] == 0
    ensures from <= i < |raw| && raw[i] == 0
    ensures forall j :: from <= j < i ==> raw[j] != 0
    decreases |raw| - from
  {
    if raw[from] == 0 then from else FirstZero(raw, from + 1)
  }
}
