/** Which byte strings the strict UTF-8 decoder accepts: exactly the encodings of Unicode scalar values. */
module Utf8 {
  import opened Bytes

  /** A code point that is no surrogate. */
  predicate Scalar(c: nat) {
    c < 0xD800 || 0xE000 <= c < 0x11_0000
  }

  predicate AllScalars(cs: seq<nat>) {
    forall i :: 0 <= i < |cs| ==> Scalar(cs[i])
  }

  /** The shortest form of a code point, six bits in each continuation byte. */
  function EncodeScalar(c: nat): (s: seq<byte>)
    requires Scalar(c)
    ensures s != []
  {
    if c < 0x80 then [c]
    else if c < 0x800 then [0xC0 + c / 64, 0x80 + c % 64]
    else if c < 0x1_0000 then [0xE0 + c / 4096, 0x80 + c / 64 % 64, 0x80 + c % 64]
    else [0xF0 + c / 26_2144, 0x80 + c / 4096 % 64, 0x80 + c / 64 % 64, 0x80 + c % 64]
  }

  function EncodeText(cs: seq<nat>): seq<byte>
    requires AllScalars(cs)
  {
    if cs == [] then [] else EncodeScalar(cs[0]) + EncodeText(cs[1..])
  }

  /** How many bytes the first code point takes. */
  function Lead(s: seq<byte>): nat
    requires s != []
  {
    if s[0] < 0x80 then 1 else if s[0] < 0xE0 then 2 else if s[0] < 0xF0 then 3 else 4
  }

  lemma EncodedIsValid(c: nat, rest: seq<byte>)
    requires Scalar(c)
    ensures ValidUtf8(EncodeScalar(c) + rest) <==> ValidUtf8(rest)
  {
    hide ValidUtf8;
    if c < 0x80 {
      OneByteFirst(c, rest);
    } else if c < 0x800 {
      TwoBytesFirst(c / 64, c % 64, rest);
    } else if c < 0x1_0000 {
      ThreeBytesFirst(c / 4096, c / 64 % 64, c % 64, rest);
    } else {
      FourBytesFirst(c / 26_2144, c / 4096 % 64, c / 64 % 64, c % 64, rest);
    }
  }

  lemma OneByteFirst(a: nat, rest: seq<byte>)
    requires a < 0x80
    ensures ValidUtf8([a] + rest) <==> ValidUtf8(rest)
  {
    assert ([a] + rest)[1..] == rest;
  }

  lemma TwoBytesFirst(a: nat, b: nat, rest: seq<byte>)
    requires 2 <= a < 32 && b < 64
    ensures ValidUtf8([0xC0 + a, 0x80 + b] + rest) <==> ValidUtf8(rest)
  {
    assert ([0xC0 + a, 0x80 + b] + rest)[2..] == rest;
  }

  lemma ThreeBytesFirst(a: nat, b: nat, d: nat, rest: seq<byte>)
    requires a < 16 && b < 64 && d < 64 && (a == 0 ==> b >= 32) && (a == 13 ==> b < 32)
    ensures ValidUtf8([0xE0 + a, 0x80 + b, 0x80 + d] + rest) <==> ValidUtf8(rest)
  {
    assert ([0xE0 + a, 0x80 + b, 0x80 + d] + rest)[3..] == rest;
  }

  lemma FourBytesFirst(a: nat, b: nat, d: nat, e: nat, rest: seq<byte>)
    requires a < 5 && b < 64 && d < 64 && e < 64 && (a == 0 ==> b >= 16) && (a == 4 ==> b < 16)
    ensures ValidUtf8([0xF0 + a, 0x80 + b, 0x80 + d, 0x80 + e] + rest) <==> ValidUtf8(rest)
  {
    assert ([0xF0 + a, 0x80 + b, 0x80 + d, 0x80 + e] + rest)[4..] == rest;
  }

  /** The code point that well-formed bytes begin with. */
  lemma FirstScalar(s: seq<byte>) returns (c: nat, n: nat)
    requires ValidUtf8(s) && s != []
    ensures Scalar(c) && 0 < n <= |s| && EncodeScalar(c) == s[..n] && ValidUtf8(s[n..])
  {
    n := Lead(s);
    if n == 1 {
      c := s[0];
    } else if n == 2 {
      c := TwoBytes(s[0] - 0xC0, s[1] - 0x80);
    } else if n == 3 {
      c := ThreeBytes(s[0] - 0xE0, s[1] - 0x80, s[2] - 0x80);
    } else {
      c := FourBytes(s[0] - 0xF0, s[1] - 0x80, s[2] - 0x80, s[3] - 0x80);
    }
  }

  lemma TwoBytes(a: nat, b: nat) returns (c: nat)
    requires 2 <= a < 32 && b < 64
    ensures 0x80 <= c < 0x800 && c / 64 == a && c % 64 == b
  {
    c := 64 * a + b;
  }

  lemma ThreeBytes(a: nat, b: nat, d: nat) returns (c: nat)
    requires a < 16 && b < 64 && d < 64 && (a == 0 ==> b >= 32) && (a == 13 ==> b < 32)
    ensures 0x800 <= c < 0x1_0000 && Scalar(c) && c / 4096 == a && c / 64 % 64 == b && c % 64 == d
  {
    c := 4096 * a + 64 * b + d;
    assert c / 64 == 64 * a + b;
  }

  lemma FourBytes(a: nat, b: nat, d: nat, e: nat) returns (c: nat)
    requires a < 5 && b < 64 && d < 64 && e < 64 && (a == 0 ==> b >= 16) && (a == 4 ==> b < 16)
    ensures 0x1_0000 <= c < 0x11_0000
    ensures c / 26_2144 == a && c / 4096 % 64 == b && c / 64 % 64 == d && c % 64 == e
  {
    c := 26_2144 * a + 4096 * b + 64 * d + e;
    assert c / 64 == 4096 * a + 64 * b + d;
    assert c / 4096 == 64 * a + b;
  }

  lemma {:induction false} TextIsValid(cs: seq<nat>)
    requires AllScalars(cs)
    ensures ValidUtf8(EncodeText(cs))
  {
    if cs != [] {
      TextIsValid(cs[1..]);
      EncodedIsValid(cs[0], EncodeText(cs[1..]));
    }
  }

  lemma {:induction false} Decode(s: seq<byte>) returns (cs: seq<nat>)
    requires ValidUtf8(s)
    ensures AllScalars(cs) && EncodeText(cs) == s
    decreases |s|
  {
    cs := [];
    if s != [] {
      var c, n := FirstScalar(s);
      var rest := Decode(s[n..]);
      cs := [c] + rest;
      assert cs[1..] == rest && s == s[..n] + s[n..];
    }
  }

  /** No overlong form, no surrogate, nothing above U+10FFFF, no stray byte: well-formed means encoded. */
  lemma ValidIffEncoded(s: seq<byte>)
    ensures ValidUtf8(s) <==> exists cs :: AllScalars(cs) && EncodeText(cs) == s
  {
    if ValidUtf8(s) { var cs := Decode(s); }
    forall cs | AllScalars(cs) && EncodeText(cs) == s ensures ValidUtf8(s) { TextIsValid(cs); }
  }
}
