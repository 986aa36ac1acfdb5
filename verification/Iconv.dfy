/** The character set converter of ports/netsurf/papp_iconv.c. Shifts and masks of its non-negative
    words are written as divisions and remainders by powers of two. */
module Iconv {
  import opened Bytes
  import opened Wrappers

  datatype Encoding = Utf8 | Ascii | Latin1 | Cp1252 | Utf16Be | Utf16Le | Utf32Be | Utf32Le

  /** `decode`'s answer: a character and the bytes it takes, an incomplete sequence (0), or an invalid one (-1). */
  datatype Decoded = Char(uc: nat, used: nat) | Incomplete | Invalid

  /** Windows-1252 0x80..0x9F, 0 where unassigned. */
  const CP1252_HIGH: seq<nat> := [
    0x20AC, 0, 0x201A, 0x0192, 0x201E, 0x2026, 0x2020, 0x2021,
    0x02C6, 0x2030, 0x0160, 0x2039, 0x0152, 0, 0x017D, 0,
    0, 0x2018, 0x2019, 0x201C, 0x201D, 0x2022, 0x2013, 0x2014,
    0x02DC, 0x2122, 0x0161, 0x203A, 0x0153, 0, 0x017E, 0x0178]

  /** A Unicode scalar value. */
  predicate Scalar(uc: nat) { uc < 0xD800 || 0xE000 <= uc <= 0x10FFFF }

  function Unit(big: bool, a: byte, b: byte): nat { if big then a * 256 + b else b * 256 + a }

  function Long(big: bool, a: byte, b: byte, c: byte, d: byte): nat
  {
    if big then a * 0x1000000 + b * 0x10000 + c * 256 + d else d * 0x1000000 + c * 0x10000 + b * 256 + a
  }

  // ---- Decoding ----

  function DecodeUtf16(big: bool, s: seq<byte>): Decoded
  {
    if |s| < 2 then Incomplete
    else
      var u := Unit(big, s[0], s[1]);
      if 0xD800 <= u < 0xDC00 then
        if |s| < 4 then Incomplete
        else
          var lo := Unit(big, s[2], s[3]);
          if lo < 0xDC00 || lo > 0xDFFF then Invalid
          else Char(0x10000 + (u - 0xD800) * 1024 + (lo - 0xDC00), 4)
      else if 0xDC00 <= u <= 0xDFFF then Invalid
      else Char(u, 2)
  }

  function DecodeUtf32(big: bool, s: seq<byte>): Decoded
  {
    if |s| < 4 then Incomplete
    else
      var uc := Long(big, s[0], s[1], s[2], s[3]);
      if uc > 0x10FFFF then Invalid else Char(uc, 4)
  }

  predicate Continues(b: byte) { b / 64 == 2 }

  /** How long a sequence its first byte announces; 0 for none. */
  function Announced(c: byte): nat
  {
    if c < 0x80 then 1 else if 0xC2 <= c <= 0xDF then 2 else if 0xE0 <= c <= 0xEF then 3
    else if 0xF0 <= c <= 0xF4 then 4 else 0
  }

  /** What the first byte of an n-byte sequence contributes. */
  function Lead(c: byte, n: nat): nat { if n == 2 then c % 32 else if n == 3 then c % 16 else c % 8 }

  /** The value of a sequence's first i bytes. */
  function Value(s: seq<byte>, n: nat, i: nat): nat
    requires 0 < i <= |s|
  {
    if i == 1 then Lead(s[0], n) else Value(s, n, i - 1) * 64 + s[i - 1] % 64
  }

  /** Neither overlong, nor too large, nor a surrogate. */
  predicate Proper(u: nat, n: nat)
  {
    !(n == 3 && u < 0x800) && !(n == 4 && (u < 0x10000 || u > 0x10FFFF)) && !(0xD800 <= u <= 0xDFFF)
  }

  function DecodeUtf8(s: seq<byte>): Decoded
    requires s != []
  {
    var n := Announced(s[0]);
    if n == 0 then Invalid
    else if n == 1 then Char(s[0], 1)
    else if exists i | 1 <= i < n && i < |s| :: !Continues(s[i]) then Invalid
    else if |s| < n then Incomplete
    else if Proper(Value(s, n, n), n) then Char(Value(s, n, n), n)
    else Invalid
  }

  function Decode(enc: Encoding, s: seq<byte>): (d: Decoded)
    requires s != []
    ensures d.Char? ==> 0 < d.used <= |s|
  {
    match enc
    case Ascii => if s[0] > 0x7F then Invalid else Char(s[0], 1)
    case Latin1 => Char(s[0], 1)
    case Cp1252 =>
      if 0x80 <= s[0] <= 0x9F then
        var uc := CP1252_HIGH[s[0] - 0x80];
        if uc != 0 then Char(uc, 1) else Invalid
      else Char(s[0], 1)
    case Utf16Be => DecodeUtf16(true, s)
    case Utf16Le => DecodeUtf16(false, s)
    case Utf32Be => DecodeUtf32(true, s)
    case Utf32Le => DecodeUtf32(false, s)
    case Utf8 => DecodeUtf8(s)
  }

  // ---- Encoding ----

  function UnitBytes(big: bool, u: nat): seq<byte>
    requires u < 0x10000
  {
    if big then [u / 256, u % 256] else [u % 256, u / 256]
  }

  function EncodeUtf16(big: bool, uc: nat): seq<byte>
  {
    if uc < 0x10000 then UnitBytes(big, uc)
    else
      var v := uc - 0x10000;
      UnitBytes(big, (0xD800 + v / 1024) % 0x10000) + UnitBytes(big, 0xDC00 + v % 1024)
  }

  function EncodeUtf32(big: bool, uc: nat): (b: seq<byte>)
    ensures |b| == 4
  {
    var b: seq<byte> := [uc / 0x1000000 % 256, uc / 0x10000 % 256, uc / 256 % 256, uc % 256];
    if big then b else [b[3], b[2], b[1], b[0]]
  }

  function EncodeUtf8(uc: nat): seq<byte>
  {
    if uc < 0x80 then [uc]
    else if uc < 0x800 then [0xC0 + uc / 64, 0x80 + uc % 64]
    else if uc < 0x10000 then [0xE0 + uc / 0x1000, 0x80 + uc / 64 % 64, 0x80 + uc % 64]
    else [(0xF0 + uc / 0x40000) % 256, 0x80 + uc / 0x1000 % 64, 0x80 + uc / 64 % 64, 0x80 + uc % 64]
  }

  /** The last of the 32 entries before n that is this character. */
  function HighIndex(uc: nat, n: nat): Option<nat>
    requires n <= |CP1252_HIGH|
  {
    if n == 0 then None
    else if CP1252_HIGH[n - 1] != 0 && CP1252_HIGH[n - 1] == uc then Some(n - 1)
    else HighIndex(uc, n - 1)
  }

  /** A character's bytes; None when the target cannot represent it. */
  function Encode(enc: Encoding, uc: nat): (b: Option<seq<byte>>)
    ensures b.Some? ==> 0 < |b.value| <= 4
  {
    match enc
    case Ascii => if uc > 0x7F then None else Some([uc])
    case Latin1 => if uc > 0xFF then None else Some([uc])
    case Cp1252 =>
      if uc < 0x80 || 0xA0 <= uc <= 0xFF then Some([uc])
      else
        var i := HighIndex(uc, 32);
        if i.Some? && i.value < 32 then Some([0x80 + i.value]) else None
    case Utf16Be => Some(EncodeUtf16(true, uc))
    case Utf16Le => Some(EncodeUtf16(false, uc))
    case Utf32Be => Some(EncodeUtf32(true, uc))
    case Utf32Le => Some(EncodeUtf32(false, uc))
    case Utf8 => Some(EncodeUtf8(uc))
  }

  // ---- Each is the other's inverse ----

  /** A character that an encoding represents. */
  predicate Represents(enc: Encoding, uc: nat) { Scalar(uc) && Encode(enc, uc).Some? }

  /** The value of a sequence of two, three or four bytes. */
  function Value2(a: byte, b: byte): nat { a % 32 * 64 + b % 64 }
  function Value3(a: byte, b: byte, c: byte): nat { (a % 16 * 64 + b % 64) * 64 + c % 64 }
  function Value4(a: byte, b: byte, c: byte, d: byte): nat { ((a % 8 * 64 + b % 64) * 64 + c % 64) * 64 + d % 64 }

  lemma ValueIs(s: seq<byte>, n: nat)
    requires 2 <= n <= 4 && n <= |s|
    ensures n == 2 ==> Value(s, n, n) == Value2(s[0], s[1])
    ensures n == 3 ==> Value(s, n, n) == Value3(s[0], s[1], s[2])
    ensures n == 4 ==> Value(s, n, n) == Value4(s[0], s[1], s[2], s[3])
  {
    assert Value(s, n, 2) == Lead(s[0], n) * 64 + s[1] % 64;
    if n > 2 { assert Value(s, n, 3) == Value(s, n, 2) * 64 + s[2] % 64; }
    if n > 3 { assert Value(s, n, 4) == Value(s, n, 3) * 64 + s[3] % 64; }
  }

  lemma Sextet(q: nat, r: nat)
    requires r < 64
    ensures (q * 64 + r) / 64 == q && (q * 64 + r) % 64 == r
  {}

  lemma ShiftTwice(u: nat)
    ensures u / 64 / 64 == u / 0x1000 && u / 0x1000 / 64 == u / 0x40000
  {}

  /** A number's base-64 digits. */
  lemma Sextets(x: nat, y: nat, z: nat)
    requires y < 64 && z < 64
    ensures var u := (x * 64 + y) * 64 + z; u % 64 == z && u / 64 % 64 == y && u / 0x1000 == x
  {
    Sextet(x * 64 + y, z);
    Sextet(x, y);
    ShiftTwice((x * 64 + y) * 64 + z);
  }

  lemma Sextets4(w: nat, x: nat, y: nat, z: nat)
    requires x < 64 && y < 64 && z < 64
    ensures var u := ((w * 64 + x) * 64 + y) * 64 + z;
      u % 64 == z && u / 64 % 64 == y && u / 0x1000 % 64 == x && u / 0x40000 == w
  {
    Sextets(w * 64 + x, y, z);
    Sextet(w, x);
    ShiftTwice(((w * 64 + x) * 64 + y) * 64 + z);
  }

  lemma SextetsOf(u: nat)
    ensures u == (u / 0x1000 * 64 + u / 64 % 64) * 64 + u % 64
    ensures u / 0x1000 == u / 0x40000 * 64 + u / 0x1000 % 64
  {
    ShiftTwice(u);
  }

  lemma Encoded2(uc: nat)
    requires 0x80 <= uc < 0x800
    ensures var b := EncodeUtf8(uc); |b| == 2 && Announced(b[0]) == 2 && Continues(b[1]) && Value2(b[0], b[1]) == uc
  {}

  lemma Encoded3(uc: nat)
    requires 0x800 <= uc < 0x10000
    ensures var b := EncodeUtf8(uc);
      |b| == 3 && Announced(b[0]) == 3 && Continues(b[1]) && Continues(b[2]) && Value3(b[0], b[1], b[2]) == uc
  {
    SextetsOf(uc);
    LeadPart(uc / 0x1000, 16);
    TailPart(uc / 64 % 64);
    TailPart(uc % 64);
  }

  lemma LeadPart(x: nat, m: nat)
    requires (m == 16 && x < 16) || (m == 8 && x < 5)
    ensures (if m == 16 then (0xE0 + x) % 16 else (0xF0 + x) % 8) == x
  {}

  lemma TailPart(x: nat)
    requires x < 64
    ensures (0x80 + x) % 64 == x && (0x80 + x) / 64 == 2
  {}

  lemma Encoded4(uc: nat)
    requires 0x10000 <= uc <= 0x10FFFF
    ensures var b := EncodeUtf8(uc);
      && |b| == 4 && Announced(b[0]) == 4 && Continues(b[1]) && Continues(b[2]) && Continues(b[3])
      && Value4(b[0], b[1], b[2], b[3]) == uc
  {
    SextetsOf(uc);
    LeadPart(uc / 0x40000, 8);
    TailPart(uc / 0x1000 % 64);
    TailPart(uc / 64 % 64);
    TailPart(uc % 64);
  }

  lemma Decodes(s: seq<byte>, n: nat)
    requires 2 <= n <= 4 && n <= |s| && Announced(s[0]) == n && forall i | 1 <= i < n :: Continues(s[i])
    ensures DecodeUtf8(s) == if Proper(Value(s, n, n), n) then Char(Value(s, n, n), n) else Invalid
  {
    hide Announced, Continues, Value, Proper;
  }

  lemma Utf8Back(uc: nat, t: seq<byte>)
    requires Scalar(uc)
    ensures DecodeUtf8(EncodeUtf8(uc) + t) == Char(uc, |EncodeUtf8(uc)|)
  {
    var b := EncodeUtf8(uc);
    var s := b + t;
    if uc < 0x80 {
      assert s[0] == uc;
    } else {
      if uc < 0x800 { Encoded2(uc); } else if uc < 0x10000 { Encoded3(uc); } else { Encoded4(uc); }
      hide EncodeUtf8, Announced, Continues, Value2, Value3, Value4, Value;
      assert forall i | 0 <= i < |b| :: s[i] == b[i];
      ValueIs(s, |b|);
      Decodes(s, |b|);
    }
  }

  lemma Forth2(a: byte, b: byte)
    requires Announced(a) == 2 && Continues(b)
    ensures EncodeUtf8(Value2(a, b)) == [a, b] && Scalar(Value2(a, b))
  {
    LeadBytes(a, 2); TailByte(b);
    Sextet(a % 32, b % 64);
    assert 2 <= a % 32;
    hide Continues;
  }

  /** Bytes as their parts. */
  lemma LeadBytes(a: byte, n: nat)
    requires Announced(a) == n && n > 1
    ensures n == 2 ==> a == 0xC0 + a % 32
    ensures n == 3 ==> a == 0xE0 + a % 16
    ensures n == 4 ==> a == 0xF0 + a % 8
  {}

  lemma TailByte(b: byte)
    requires Continues(b)
    ensures b == 0x80 + b % 64
  {}

  lemma Forth3(a: byte, b: byte, c: byte)
    requires Announced(a) == 3 && Continues(b) && Continues(c) && Proper(Value3(a, b, c), 3)
    ensures EncodeUtf8(Value3(a, b, c)) == [a, b, c] && Scalar(Value3(a, b, c))
  {
    LeadBytes(a, 3); TailByte(b); TailByte(c);
    Sextets(a % 16, b % 64, c % 64);
    hide Announced, Continues;
    assert Value3(a, b, c) < 0x10000;
  }

  lemma Forth4(a: byte, b: byte, c: byte, d: byte)
    requires Announced(a) == 4 && Continues(b) && Continues(c) && Continues(d) && Proper(Value4(a, b, c, d), 4)
    ensures EncodeUtf8(Value4(a, b, c, d)) == [a, b, c, d] && Scalar(Value4(a, b, c, d))
  {
    LeadBytes(a, 4); TailByte(b); TailByte(c); TailByte(d);
    Sextets4(a % 8, b % 64, c % 64, d % 64);
    FromSextets(Value4(a, b, c, d), a % 8, b % 64, c % 64, d % 64);
    hide Announced, Continues, EncodeUtf8, Value4;
  }

  lemma FromSextets(u: nat, w: nat, x: nat, y: nat, z: nat)
    requires 0x10000 <= u && w < 8 && u % 64 == z && u / 64 % 64 == y && u / 0x1000 % 64 == x && u / 0x40000 == w
    ensures EncodeUtf8(u) == [0xF0 + w, 0x80 + x, 0x80 + y, 0x80 + z]
  {}

  lemma Utf8Forth(s: seq<byte>)
    requires s != [] && DecodeUtf8(s).Char?
    ensures var d := DecodeUtf8(s); Scalar(d.uc) && d.used <= |s| && EncodeUtf8(d.uc) == s[..d.used]
  {
    var n := Announced(s[0]);
    if n > 1 {
      ValueIs(s, n);
      assert forall i | 1 <= i < n :: Continues(s[i]);
      if n == 2 {
        Forth2(s[0], s[1]);
      } else if n == 3 {
        Forth3(s[0], s[1], s[2]);
      } else {
        Forth4(s[0], s[1], s[2], s[3]);
      }
      hide EncodeUtf8, Continues, Value2, Value3, Value4, Value, Proper, Scalar;
    }
  }

  lemma UnitBack(big: bool, u: nat)
    requires u < 0x10000
    ensures var b := UnitBytes(big, u); |b| == 2 && Unit(big, b[0], b[1]) == u
  {}

  lemma TwoUnits(big: bool, a: nat, b: nat, t: seq<byte>)
    requires a < 0x10000 && b < 0x10000
    ensures var s := UnitBytes(big, a) + UnitBytes(big, b) + t;
      |s| >= 4 && Unit(big, s[0], s[1]) == a && Unit(big, s[2], s[3]) == b
  {
    UnitBack(big, a);
    UnitBack(big, b);
    hide Unit;
  }

  /** A surrogate pair. */
  lemma Surrogates(big: bool, uc: nat)
    requires 0x10000 <= uc <= 0x10FFFF
    ensures var v := uc - 0x10000; var a, b := 0xD800 + v / 1024, 0xDC00 + v % 1024;
      && a < 0xDC00 && b <= 0xDFFF && 0x10000 + (a - 0xD800) * 1024 + (b - 0xDC00) == uc
      && EncodeUtf16(big, uc) == UnitBytes(big, a) + UnitBytes(big, b)
  {
    var v := uc - 0x10000;
    assert v / 1024 < 0x400 && v / 1024 * 1024 + v % 1024 == v;
    hide UnitBytes;
  }

  lemma Utf16Back(big: bool, uc: nat, t: seq<byte>)
    requires Scalar(uc)
    ensures DecodeUtf16(big, EncodeUtf16(big, uc) + t) == Char(uc, |EncodeUtf16(big, uc)|)
  {
    if uc < 0x10000 {
      UnitBack(big, uc);
      hide Unit, UnitBytes;
    } else {
      var v := uc - 0x10000;
      Surrogates(big, uc);
      UnitBack(big, 0xD800 + v / 1024);
      UnitBack(big, 0xDC00 + v % 1024);
      TwoUnits(big, 0xD800 + v / 1024, 0xDC00 + v % 1024, t);
      hide Unit, UnitBytes, EncodeUtf16;
    }
  }

  lemma UnitForth(big: bool, a: byte, b: byte)
    ensures Unit(big, a, b) < 0x10000 && UnitBytes(big, Unit(big, a, b)) == [a, b]
  {}

  lemma Utf16Forth(big: bool, s: seq<byte>)
    requires DecodeUtf16(big, s).Char?
    ensures var d := DecodeUtf16(big, s); Scalar(d.uc) && d.used <= |s| && EncodeUtf16(big, d.uc) == s[..d.used]
  {
    UnitForth(big, s[0], s[1]);
    if DecodeUtf16(big, s).used == 4 {
      UnitForth(big, s[2], s[3]);
      hide Unit, UnitBytes;
      var u, lo := Unit(big, s[0], s[1]), Unit(big, s[2], s[3]);
      var v := (u - 0xD800) * 1024 + (lo - 0xDC00);
      assert v / 1024 == u - 0xD800 && v % 1024 == lo - 0xDC00;
      assert s[..4] == [s[0], s[1]] + [s[2], s[3]];
    }
  }

  lemma Utf32Back(big: bool, uc: nat, t: seq<byte>)
    requires uc <= 0x10FFFF
    ensures DecodeUtf32(big, EncodeUtf32(big, uc) + t) == Char(uc, 4)
  {
    var b := EncodeUtf32(true, uc);
    LongBytes(uc);
    var s := EncodeUtf32(big, uc) + t;
    assert s[0] == EncodeUtf32(big, uc)[0] && s[1] == EncodeUtf32(big, uc)[1];
    assert s[2] == EncodeUtf32(big, uc)[2] && s[3] == EncodeUtf32(big, uc)[3];
  }

  lemma LongBytes(uc: nat)
    requires uc < TWO_TO_32
    ensures uc / 0x1000000 % 256 * 0x1000000 + uc / 0x10000 % 256 * 0x10000 + uc / 256 % 256 * 256 + uc % 256 == uc
  {
    assert uc / 0x10000 == uc / 256 / 256 && uc / 0x1000000 == uc / 0x10000 / 256;
  }

  lemma Octet(q: nat, r: nat)
    requires r < 256
    ensures (q * 256 + r) / 256 == q && (q * 256 + r) % 256 == r
  {}

  lemma LongForth(a: nat, b: nat, c: nat, d: nat)
    requires a < 256 && b < 256 && c < 256 && d < 256
    ensures var u := a * 0x1000000 + b * 0x10000 + c * 256 + d;
      u / 0x1000000 % 256 == a && u / 0x10000 % 256 == b && u / 256 % 256 == c && u % 256 == d
  {
    var u := a * 0x1000000 + b * 0x10000 + c * 256 + d;
    Octet(a * 0x10000 + b * 256 + c, d);
    Octet(a * 256 + b, c);
    Octet(a, b);
    assert u / 0x10000 == u / 256 / 256 && u / 0x1000000 == u / 0x10000 / 256;
  }

  lemma Utf32Forth(big: bool, s: seq<byte>)
    requires DecodeUtf32(big, s).Char?
    ensures var d := DecodeUtf32(big, s); d.used == 4 && EncodeUtf32(big, d.uc) == s[..4]
  {
    if big { LongForth(s[0], s[1], s[2], s[3]); } else { LongForth(s[3], s[2], s[1], s[0]); }
  }

  lemma {:induction false} HighFound(uc: nat, n: nat)
    requires n <= |CP1252_HIGH|
    ensures var i := HighIndex(uc, n);
      && (i.Some? ==> i.value < n && uc != 0 && CP1252_HIGH[i.value] == uc)
      && (i == None ==> uc == 0 || forall k | 0 <= k < n :: CP1252_HIGH[k] != uc)
  {
    if n > 0 { HighFound(uc, n - 1); }
  }

  /** The table the other way round. */
  function Place(uc: nat): nat
  {
    if uc == 0x20AC then 0 else if uc == 0x201A then 2 else if uc == 0x0192 then 3 else if uc == 0x201E then 4
    else if uc == 0x2026 then 5 else if uc == 0x2020 then 6 else if uc == 0x2021 then 7 else if uc == 0x02C6 then 8
    else if uc == 0x2030 then 9 else if uc == 0x0160 then 10 else if uc == 0x2039 then 11 else if uc == 0x0152 then 12
    else if uc == 0x017D then 14 else if uc == 0x2018 then 17 else if uc == 0x2019 then 18 else if uc == 0x201C then 19
    else if uc == 0x201D then 20 else if uc == 0x2022 then 21 else if uc == 0x2013 then 22 else if uc == 0x2014 then 23
    else if uc == 0x02DC then 24 else if uc == 0x2122 then 25 else if uc == 0x0161 then 26 else if uc == 0x203A then 27
    else if uc == 0x0153 then 28 else if uc == 0x017E then 30 else if uc == 0x0178 then 31
    else 32
  }

  /** No character is in the table twice. */
  lemma Placed(i: nat)
    requires i < 32 && CP1252_HIGH[i] != 0
    ensures Place(CP1252_HIGH[i]) == i && CP1252_HIGH[i] > 0xFF
  {}

  lemma HighUnique(i: nat)
    requires i < 32 && CP1252_HIGH[i] != 0
    ensures HighIndex(CP1252_HIGH[i], 32) == Some(i) && CP1252_HIGH[i] > 0xFF
  {
    var uc := CP1252_HIGH[i];
    HighFound(uc, 32);
    Placed(i);
    if HighIndex(uc, 32).Some? { Placed(HighIndex(uc, 32).value); }
    hide Place, HighIndex, CP1252_HIGH;
  }

  lemma Cp1252Back(uc: nat, t: seq<byte>)
    requires Encode(Cp1252, uc).Some?
    ensures var b := Encode(Cp1252, uc).value; Decode(Cp1252, b + t) == Char(uc, 1) && |b| == 1
  {
    HighFound(uc, 32);
  }

  /** Decoding the bytes of a character gives it back, whatever comes behind them. */
  lemma DecodeEncoded(enc: Encoding, uc: nat, t: seq<byte>)
    requires Represents(enc, uc)
    ensures var b := Encode(enc, uc).value; Decode(enc, b + t) == Char(uc, |b|)
  {
    match enc
    case Ascii =>
    case Latin1 =>
    case Cp1252 => Cp1252Back(uc, t);
    case Utf16Be => Utf16Back(true, uc, t);
    case Utf16Le => Utf16Back(false, uc, t);
    case Utf32Be => Utf32Back(true, uc, t);
    case Utf32Le => Utf32Back(false, uc, t);
    case Utf8 => Utf8Back(uc, t);
  }

  lemma Cp1252Forth(s: seq<byte>)
    requires s != [] && Decode(Cp1252, s).Char?
    ensures var d := Decode(Cp1252, s); d.used == 1 && Encode(Cp1252, d.uc) == Some(s[..1]) && Scalar(d.uc)
  {
    assert s[..1] == [s[0]];
    if 0x80 <= s[0] <= 0x9F { HighUnique(s[0] - 0x80); }
    hide HighIndex, Place;
  }

  /** And a character is only ever decoded from its own bytes. */
  lemma EncodeDecoded(enc: Encoding, s: seq<byte>)
    requires s != [] && Decode(enc, s).Char?
    ensures var d := Decode(enc, s);
      && Encode(enc, d.uc) == Some(s[..d.used])
      && (!enc.Utf32Be? && !enc.Utf32Le? ==> Scalar(d.uc))
  {
    match enc
    case Ascii => assert s[..1] == [s[0]];
    case Latin1 => assert s[..1] == [s[0]];
    case Cp1252 => Cp1252Forth(s);
    case Utf16Be => Utf16Forth(true, s);
    case Utf16Le => Utf16Forth(false, s);
    case Utf32Be => Utf32Forth(true, s);
    case Utf32Le => Utf32Forth(false, s);
    case Utf8 => Utf8Forth(s);
  }

  // ---- Converting ----

  datatype Converter = Converter(from: Encoding, to: Encoding, translit: bool)

  /** 0, or errno E2BIG, EINVAL, EILSEQ. */
  datatype Status = Done | TooBig | Cut | BadSequence

  datatype Conversion = Conversion(out: seq<byte>, rest: seq<byte>, irreversible: nat, status: Status)

  const QUESTION := 63

  /** One character: its status, or the bytes it takes and becomes. */
  datatype Step = Stop(status: Status) | Go(used: nat, bytes: seq<byte>, irreversible: nat)

  function One(cd: Converter, s: seq<byte>): (r: Step)
    requires s != []
    ensures r.Go? ==> 0 < r.used <= |s| && 0 < |r.bytes| <= 4
    ensures r.Stop? ==> r.status == Cut || r.status == BadSequence
  {
    var d := Decode(cd.from, s);
    if d == Incomplete then Stop(Cut)
    else if d == Invalid && !cd.translit then Stop(BadSequence)
    else
      var uc := if d.Char? then d.uc else QUESTION;
      var b := Encode(cd.to, uc);
      if b == None && !cd.translit then Stop(BadSequence)
      else
        Go(if d.Char? then d.used else 1, if b.Some? then b.value else Encode(cd.to, QUESTION).value,
           (if d.Char? then 0 else 1) + (if b.Some? then 0 else 1))
  }

  function Convert(cd: Converter, s: seq<byte>, room: nat): (c: Conversion)
    ensures |c.out| <= room && |c.rest| <= |s| && c.rest == s[|s| - |c.rest|..]
    decreases |s|
  {
    if s == [] then Conversion([], [], 0, Done)
    else
      match One(cd, s)
      case Stop(status) => Conversion([], s, 0, status)
      case Go(used, bytes, irreversible) =>
        if |bytes| > room then Conversion([], s, 0, TooBig)
        else
          var c := Convert(cd, s[used..], room - |bytes|);
          c.(out := bytes + c.out, irreversible := irreversible + c.irreversible)
  }

  /** With room to spare. */
  function Whole(cd: Converter, s: seq<byte>): Conversion { Convert(cd, s, 4 * |s|) }

  /** A conversion after one more character. */
  function Onto(g: Step, c: Conversion): Conversion
    requires g.Go?
  {
    c.(out := g.bytes + c.out, irreversible := g.irreversible + c.irreversible)
  }

  lemma ConvertGo(cd: Converter, s: seq<byte>, room: nat)
    requires s != [] && One(cd, s).Go? && |One(cd, s).bytes| <= room
    ensures var g := One(cd, s); Convert(cd, s, room) == Onto(g, Convert(cd, s[g.used..], room - |g.bytes|))
  {
    hide One;
  }

  lemma ConvertStop(cd: Converter, s: seq<byte>, room: nat)
    requires s != [] ==> One(cd, s).Stop? || |One(cd, s).bytes| > room
    ensures var c := Convert(cd, s, room); c.out == [] && c.rest == s && c.irreversible == 0
    ensures Convert(cd, s, room).status
      == if s == [] then Done else if One(cd, s).Stop? then One(cd, s).status else TooBig
  {
    hide One;
  }

  /** Any two rooms that are ample give the same. */
  lemma {:induction false} RoomsAgree(cd: Converter, s: seq<byte>, room: nat, other: nat)
    requires room >= 4 * |s| && other >= 4 * |s|
    ensures Convert(cd, s, room) == Convert(cd, s, other) && Convert(cd, s, room).status != TooBig
    decreases |s|
  {
    hide One, Convert;
    if s != [] && One(cd, s).Go? {
      var g := One(cd, s);
      ConvertGo(cd, s, room);
      ConvertGo(cd, s, other);
      RoomsAgree(cd, s[g.used..], room - |g.bytes|, other - |g.bytes|);
    } else {
      ConvertStop(cd, s, room);
      ConvertStop(cd, s, other);
    }
  }

  lemma RoomEnough(cd: Converter, s: seq<byte>, room: nat)
    requires room >= 4 * |s|
    ensures Convert(cd, s, room) == Whole(cd, s) && Whole(cd, s).status != TooBig
  {
    hide One, Convert;
    RoomsAgree(cd, s, room, 4 * |s|);
  }

  /** One more character of the whole conversion. */
  lemma WholeStep(cd: Converter, s: seq<byte>)
    requires s != [] && One(cd, s).Go?
    ensures var g := One(cd, s); Whole(cd, s) == Onto(g, Whole(cd, s[g.used..]))
  {
    var g := One(cd, s);
    hide One, Convert;
    ConvertGo(cd, s, 4 * |s|);
    RoomEnough(cd, s[g.used..], 4 * |s| - |g.bytes|);
  }

  lemma WholeStop(cd: Converter, s: seq<byte>)
    requires s != [] ==> One(cd, s).Stop?
    ensures var c := Whole(cd, s); c.out == [] && c.rest == s && c.irreversible == 0
    ensures Whole(cd, s).status == if s == [] then Done else One(cd, s).status
  {
    hide One, Convert;
    ConvertStop(cd, s, 4 * |s|);
  }

  /** What one conversion leaves off, the next takes up: with room for only part of the output, the rest comes out
      of the next call. */
  lemma {:induction false} ResumeRoom(cd: Converter, s: seq<byte>, room: nat)
    ensures var a := Convert(cd, s, room); var b, w := Whole(cd, a.rest), Whole(cd, s);
      w.out == a.out + b.out && w.rest == b.rest && w.status == b.status
    decreases |s|
  {
    hide One, Whole, Convert;
    if s != [] && One(cd, s).Go? && |One(cd, s).bytes| <= room {
      var g := One(cd, s);
      WholeStep(cd, s);
      ConvertGo(cd, s, room);
      ResumeRoom(cd, s[g.used..], room - |g.bytes|);
      var c := Convert(cd, s[g.used..], room - |g.bytes|);
      assert g.bytes + (c.out + Whole(cd, c.rest).out) == (g.bytes + c.out) + Whole(cd, c.rest).out;
    } else {
      ConvertStop(cd, s, room);
      assert [] + Whole(cd, s).out == Whole(cd, s).out;
    }
  }

  /** A sequence that is complete or invalid stays so, whatever comes behind it. */
  lemma DecodeMore(enc: Encoding, s: seq<byte>, t: seq<byte>)
    requires s != [] && Decode(enc, s) != Incomplete
    ensures Decode(enc, s + t) == Decode(enc, s)
  {
    hide DecodeUtf8, Unit, Long, CP1252_HIGH;
    if enc == Utf8 { Utf8More(s, t); }
  }

  lemma Utf8More(s: seq<byte>, t: seq<byte>)
    requires s != [] && DecodeUtf8(s) != Incomplete
    ensures DecodeUtf8(s + t) == DecodeUtf8(s)
  {
    var n := Announced(s[0]);
    var x := s + t;
    assert x[0] == s[0];
    if n > 1 {
      if i :| 1 <= i < n && i < |s| && !Continues(s[i]) {
        assert x[i] == s[i];
      } else {
        assert forall i | 1 <= i < n :: x[i] == s[i];
        assert DecodeUtf8(s) == if Proper(Value(s, n, n), n) then Char(Value(s, n, n), n) else Invalid;
        ValueIs(s, n);
        ValueIs(x, n);
        Decodes(x, n);
      }
    }
    hide Value, Continues, Announced, Proper;
  }

  lemma OneMore(cd: Converter, s: seq<byte>, t: seq<byte>)
    requires s != [] && One(cd, s) != Stop(Cut)
    ensures One(cd, s + t) == One(cd, s)
  {
    DecodeMore(cd.from, s, t);
    hide Decode, Encode;
  }

  /** With only part of the input, the rest of it comes with the next call. */
  lemma {:induction false} ResumeInput(cd: Converter, s: seq<byte>, t: seq<byte>)
    ensures var a := Whole(cd, s); var b, w := Whole(cd, a.rest + t), Whole(cd, s + t);
      w.out == a.out + b.out && w.rest == b.rest && w.status == b.status
    decreases |s|
  {
    hide One, Whole, Convert;
    if s == [] {
      WholeStop(cd, s);
      assert s + t == t && [] + t == t;
      assert [] + Whole(cd, t).out == Whole(cd, t).out;
    } else if One(cd, s).Go? {
      var g := One(cd, s);
      OneMore(cd, s, t);
      WholeStep(cd, s);
      WholeStep(cd, s + t);
      assert (s + t)[g.used..] == s[g.used..] + t;
      ResumeInput(cd, s[g.used..], t);
      var c := Whole(cd, s[g.used..]);
      assert g.bytes + (c.out + Whole(cd, c.rest + t).out) == (g.bytes + c.out) + Whole(cd, c.rest + t).out;
    } else {
      WholeStop(cd, s);
      assert [] + Whole(cd, s + t).out == Whole(cd, s + t).out;
    }
  }

  /** A caller that keeps what a call left, adds the next piece of input, and calls again with some room. */
  datatype Call = Call(piece: seq<byte>, room: nat)

  function Input(calls: seq<Call>): seq<byte>
  {
    if calls == [] then [] else calls[0].piece + Input(calls[1..])
  }

  function Drive(cd: Converter, pending: seq<byte>, calls: seq<Call>): (seq<byte>, seq<byte>)
    decreases |calls|
  {
    if calls == [] then ([], pending)
    else
      var c := Convert(cd, pending + calls[0].piece, calls[0].room);
      var (out, left) := Drive(cd, c.rest, calls[1..]);
      (c.out + out, left)
  }

  /** However the input and the room are dealt out, the output so far is what one call with ample room would have
      written, up to what is still to come; and where that call would stop, so do these. */
  lemma {:induction false} Resumed(cd: Converter, pending: seq<byte>, calls: seq<Call>)
    ensures var (out, left) := Drive(cd, pending, calls);
      var w, b := Whole(cd, pending + Input(calls)), Whole(cd, left);
      w.out == out + b.out && w.rest == b.rest && w.status == b.status
    decreases |calls|
  {
    hide Whole, Convert;
    if calls == [] {
      assert pending + [] == pending;
      assert [] + Whole(cd, pending).out == Whole(cd, pending).out;
    } else {
      var s, more := pending + calls[0].piece, Input(calls[1..]);
      assert pending + Input(calls) == s + more;
      var c := Convert(cd, s, calls[0].room);
      Resumed(cd, c.rest, calls[1..]);
      ResumeBoth(cd, s, calls[0].room, more);
      var (out, left) := Drive(cd, c.rest, calls[1..]);
      assert c.out + (out + Whole(cd, left).out) == (c.out + out) + Whole(cd, left).out;
    }
  }

  lemma ResumeBoth(cd: Converter, s: seq<byte>, room: nat, more: seq<byte>)
    ensures var c := Convert(cd, s, room); var w, b := Whole(cd, s + more), Whole(cd, c.rest + more);
      w.out == c.out + b.out && w.rest == b.rest && w.status == b.status
  {
    hide Whole, Convert;
    var c := Convert(cd, s, room);
    ResumeRoom(cd, s, room);
    ResumeInput(cd, s, more);
    ResumeInput(cd, c.rest, more);
    var a := Whole(cd, c.rest);
    assert Whole(cd, s).rest == a.rest;
    assert (c.out + a.out) + Whole(cd, a.rest + more).out == c.out + (a.out + Whole(cd, a.rest + more).out);
  }

  // ---- Texts ----

  /** An encoding has bytes for every one of these characters. */
  predicate Encodes(enc: Encoding, cs: seq<nat>) { forall uc <- cs :: Encode(enc, uc).Some? }

  predicate Text(cs: seq<nat>) { forall uc <- cs :: Scalar(uc) }

  function BytesOf(enc: Encoding, cs: seq<nat>): seq<byte>
    requires Encodes(enc, cs)
  {
    if cs == [] then [] else Encode(enc, cs[0]).value + BytesOf(enc, cs[1..])
  }

  /** A text that both encodings represent is converted from one into the other, completely and exactly. */
  lemma {:induction false} ConvertText(cd: Converter, cs: seq<nat>)
    requires Text(cs) && Encodes(cd.from, cs) && Encodes(cd.to, cs)
    ensures Whole(cd, BytesOf(cd.from, cs)) == Conversion(BytesOf(cd.to, cs), [], 0, Done)
    decreases |cs|
  {
    hide Whole, Encode, Decode, Scalar;
    var s := BytesOf(cd.from, cs);
    if cs == [] {
      WholeStop(cd, s);
    } else {
      assert cs[0] in cs && forall uc <- cs[1..] :: uc in cs;
      var b := Encode(cd.from, cs[0]).value;
      DecodeEncoded(cd.from, cs[0], BytesOf(cd.from, cs[1..]));
      assert One(cd, s) == Go(|b|, Encode(cd.to, cs[0]).value, 0);
      WholeStep(cd, s);
      assert s[|b|..] == BytesOf(cd.from, cs[1..]);
      ConvertText(cd, cs[1..]);
    }
  }

  /** UTF-8, UTF-16 and UTF-32, in either byte order, represent every text. */
  lemma UnicodeEncodes(enc: Encoding, cs: seq<nat>)
    requires enc in {Utf8, Utf16Be, Utf16Le, Utf32Be, Utf32Le}
    ensures Encodes(enc, cs)
  {
    hide EncodeUtf8, EncodeUtf16, EncodeUtf32, HighIndex;
  }

  /** There and back again. */
  lemma RoundTrip(there: Converter, back: Converter, cs: seq<nat>)
    requires there.from == back.to && there.to == back.from
    requires Text(cs) && Encodes(there.from, cs) && Encodes(there.to, cs)
    ensures var s := BytesOf(there.from, cs);
      Whole(back, Whole(there, s).out) == Conversion(s, [], 0, Done)
  {
    hide Whole, Encodes, BytesOf;
    ConvertText(there, cs);
    ConvertText(back, cs);
  }

  /** Without //TRANSLIT nothing but a text both encodings have converts without an error. */
  lemma {:induction false} OnlyText(cd: Converter, s: seq<byte>) returns (cs: seq<nat>)
    requires !cd.translit && Whole(cd, s).status == Done
    ensures Encodes(cd.from, cs) && Encodes(cd.to, cs)
    ensures s == BytesOf(cd.from, cs) && Whole(cd, s) == Conversion(BytesOf(cd.to, cs), [], 0, Done)
    decreases |s|
  {
    hide Whole, Encode, Decode;
    if s == [] {
      WholeStop(cd, s);
      cs := [];
    } else if One(cd, s).Go? {
      var g := One(cd, s);
      WholeStep(cd, s);
      var more := OnlyText(cd, s[g.used..]);
      EncodeDecoded(cd.from, s);
      var uc := Decode(cd.from, s).uc;
      cs := [uc] + more;
      assert cs[1..] == more && forall c <- cs :: c == uc || c in more;
      assert s == s[..g.used] + s[g.used..];
    } else {
      WholeStop(cd, s);
      assert false;
    }
  }

  // ---- The code ----

  /** The UTF-8 part of `decode`. */
  method DecodeUtf8Loop(s: seq<byte>) returns (d: Decoded)
    requires s != []
    ensures d == DecodeUtf8(s)
  {
    var c := s[0];
    var n: nat, u: nat := 0, 0;
    if c < 0x80 {
      return Char(c, 1);
    } else if c >= 0xC2 && c <= 0xDF {
      n, u := 2, c % 32;
    } else if c >= 0xE0 && c <= 0xEF {
      n, u := 3, c % 16;
    } else if c >= 0xF0 && c <= 0xF4 {
      n, u := 4, c % 8;
    } else {
      return Invalid;
    }
    var i := 1;
    while i < n
      invariant 1 <= i <= n == Announced(c) && i <= |s|
      invariant forall k | 1 <= k < i :: Continues(s[k])
      invariant u == Value(s, n, i)
    {
      if i >= |s| {
        return Incomplete;
      }
      if s[i] / 64 != 2 {
        return Invalid;
      }
      u := u * 64 + s[i] % 64;
      i := i + 1;
    }
    if (n == 3 && u < 0x800) || (n == 4 && (u < 0x10000 || u > 0x10FFFF)) || (u >= 0xD800 && u <= 0xDFFF) {
      return Invalid;
    }
    return Char(u, n);
  }

  method DecodeOne(enc: Encoding, s: seq<byte>) returns (d: Decoded)
    requires s != []
    ensures d == Decode(enc, s)
  {
    if enc == Utf8 {
      d := DecodeUtf8Loop(s);
    } else {
      d := Decode(enc, s);
    }
  }

  /** The Windows-1252 search of `encode`. */
  method FindHigh(uc: nat) returns (b: int)
    requires 0x80 <= uc && !(0xA0 <= uc <= 0xFF)
    ensures Encode(Cp1252, uc) == if b < 0 then None else Some([b % 256])
    ensures b < 256
  {
    b := -1;
    var i := 0;
    while i < 32
      invariant 0 <= i <= 32
      invariant HighIndex(uc, i) == if b < 0 then None else Some(b - 0x80)
      invariant b < 0 || 0x80 <= b < 0x80 + i
    {
      if CP1252_HIGH[i] != 0 && CP1252_HIGH[i] == uc {
        b := 0x80 + i;
      }
      i := i + 1;
    }
  }

  /** `b` is written at `at`, and nothing else changes. */
  predicate Written(before: seq<byte>, after: seq<byte>, at: nat, b: seq<byte>)
  {
    at + |b| <= |before| && after == before[..at] + b + before[at + |b|..]
  }

  lemma WrittenBoth(s: seq<byte>, t: seq<byte>, u: seq<byte>, at: nat, a: seq<byte>, b: seq<byte>)
    requires Written(s, t, at, a) && Written(t, u, at + |a|, b)
    ensures Written(s, u, at, a + b)
  {
    assert t[..at + |a|] == s[..at] + a;
    assert t[at + |a| + |b|..] == s[at + |a| + |b|..];
    assert u == s[..at] + a + b + s[at + |a| + |b|..];
    assert u == s[..at] + (a + b) + s[at + |a + b|..];
  }

  lemma WrittenNothing(s: seq<byte>, at: nat)
    requires at <= |s|
    ensures Written(s, s, at, [])
  {}

  /** One turn of the UTF-16 loop of `encode`. */
  method PutUnit(big: bool, u: nat, out: array<byte>, at: nat)
    requires u < 0x10000 && at + 2 <= out.Length
    modifies out
    ensures Written(old(out[..]), out[..], at, UnitBytes(big, u))
  {
    out[at + (if big then 0 else 1)] := u / 256;
    out[at + (if big then 1 else 0)] := u % 256;
    assert out[at..at + 2] == UnitBytes(big, u);
    assert out[..] == out[..at] + out[at..at + 2] + out[at + 2..];
  }

  function Units(uc: nat): seq<nat>
  {
    if uc < 0x10000 then [uc] else [(0xD800 + (uc - 0x10000) / 1024) % 0x10000, 0xDC00 + (uc - 0x10000) % 1024]
  }

  function Joined(big: bool, units: seq<nat>): (b: seq<byte>)
    ensures |b| == 2 * |units|
  {
    if units == [] then []
    else Joined(big, units[..|units| - 1]) + UnitBytes(big, units[|units| - 1] % 0x10000)
  }

  lemma UnitsJoined(big: bool, uc: nat)
    ensures EncodeUtf16(big, uc) == Joined(big, Units(uc)) && forall u <- Units(uc) :: u < 0x10000
  {
    var units := Units(uc);
    assert units[..0] == [];
    if |units| == 2 {
      assert units[..1] == [units[0]] && [units[0]][..0] == [];
    }
  }

  lemma JoinedNone(big: bool, units: seq<nat>)
    ensures Joined(big, units[..0]) == []
  {}

  lemma JoinedNext(big: bool, units: seq<nat>, i: nat)
    requires i < |units| && units[i] < 0x10000
    ensures Joined(big, units[..i + 1]) == Joined(big, units[..i]) + UnitBytes(big, units[i])
  {
    assert units[..i + 1][..i] == units[..i];
    hide UnitBytes;
  }

  method PutUtf16(big: bool, uc: nat, out: array<byte>, at: nat, room: nat) returns (wrote: nat)
    requires at + room <= out.Length
    modifies out
    ensures var b := EncodeUtf16(big, uc);
      if |b| > room then wrote == 0 && out[..] == old(out[..])
      else wrote == |b| && Written(old(out[..]), out[..], at, b)
  {
    hide EncodeUtf16, UnitBytes, Written, Units, Joined;
    var units := Units(uc);
    UnitsJoined(big, uc);
    if room < |units| * 2 {
      return 0;
    }
    WrittenNothing(out[..], at);
    JoinedNone(big, units);
    var i := 0;
    while i < |units|
      invariant 0 <= i <= |units| && |units| * 2 <= room
      invariant Written(old(out[..]), out[..], at, Joined(big, units[..i]))
    {
      ghost var now := out[..];
      assert units[i] in units;
      PutUnit(big, units[i], out, at + i * 2);
      JoinedNext(big, units, i);
      WrittenBoth(old(out[..]), now, out[..], at, Joined(big, units[..i]), UnitBytes(big, units[i]));
      i := i + 1;
    }
    assert units[..i] == units;
    return |units| * 2;
  }

  /** The byte at place p has been written after i turns, from the high end or from the low one. */
  predicate Put(big: bool, i: nat, p: int) { if big then 0 <= p < i else 3 - i < p <= 3 }

  method PutUtf32(big: bool, uc: nat, out: array<byte>, at: nat, room: nat) returns (wrote: nat)
    requires at + room <= out.Length
    modifies out
    ensures if 4 > room then wrote == 0 && out[..] == old(out[..])
            else wrote == 4 && Written(old(out[..]), out[..], at, EncodeUtf32(big, uc))
  {
    if room < 4 {
      return 0;
    }
    ghost var b := EncodeUtf32(big, uc);
    ghost var was := out[..];
    var i := 0;
    while i < 4
      invariant 0 <= i <= 4
      invariant forall k | 0 <= k < out.Length :: out[k] == if Put(big, i, k - at) then b[k - at] else was[k]
    {
      var place := if big then i else 3 - i;
      out[at + place] := Octet32(uc, i);
      assert b[place] == Octet32(uc, i);
      i := i + 1;
    }
    assert out[at..at + 4] == b;
    assert out[..] == was[..at] + b + was[at + 4..];
    return 4;
  }

  /** uc >> 8 * (3 - i), as a byte */
  function Octet32(uc: nat, i: nat): byte
    requires i < 4
  {
    uc / (if i == 0 then 0x1000000 else if i == 1 then 0x10000 else if i == 2 then 256 else 1) % 256
  }

  /** encode: -1 when the target has no such character, 0 when it does not fit. */
  method EncodeOne(enc: Encoding, uc: nat, out: array<byte>, at: nat, room: nat) returns (wrote: int)
    requires at + room <= out.Length
    modifies out
    ensures var b := Encode(enc, uc);
      if b == None then wrote == -1 && out[..] == old(out[..])
      else if |b.value| > room then wrote == 0 && out[..] == old(out[..])
      else wrote == |b.value| && Written(old(out[..]), out[..], at, b.value)
  {
    hide EncodeUtf16, EncodeUtf32, Written;
    match enc {
      case Utf16Be => wrote := PutUtf16(true, uc, out, at, room);
      case Utf16Le => wrote := PutUtf16(false, uc, out, at, room);
      case Utf32Be => wrote := PutUtf32(true, uc, out, at, room);
      case Utf32Le => wrote := PutUtf32(false, uc, out, at, room);
      case Utf8 => wrote := PutUtf8(uc, out, at, room);
      case Ascii =>
        if uc > 0x7F {
          return -1;
        }
        wrote := PutByte(uc, out, at, room);
      case Latin1 =>
        if uc > 0xFF {
          return -1;
        }
        wrote := PutByte(uc, out, at, room);
      case Cp1252 =>
        var b: int := uc;
        if !(uc < 0x80 || (uc >= 0xA0 && uc <= 0xFF)) {
          b := FindHigh(uc);
          if b < 0 {
            return -1;
          }
        }
        wrote := PutByte(b % 256, out, at, room);
    }
  }

  method PutByte(b: byte, out: array<byte>, at: nat, room: nat) returns (wrote: nat)
    requires at + room <= out.Length
    modifies out
    ensures if 1 > room then wrote == 0 && out[..] == old(out[..])
            else wrote == 1 && Written(old(out[..]), out[..], at, [b])
  {
    if room < 1 {
      return 0;
    }
    out[at] := b;
    assert out[..] == old(out[..at]) + [b] + old(out[at + 1..]);
    return 1;
  }

  method PutUtf8(uc: nat, out: array<byte>, at: nat, room: nat) returns (wrote: nat)
    requires at + room <= out.Length
    modifies out
    ensures var b := EncodeUtf8(uc);
      if |b| > room then wrote == 0 && out[..] == old(out[..])
      else wrote == |b| && Written(old(out[..]), out[..], at, b)
  {
    ghost var was, b := out[..], EncodeUtf8(uc);
    if uc < 0x80 {
      if room < 1 { return 0; }
      out[at] := uc;
      wrote := 1;
    } else if uc < 0x800 {
      if room < 2 { return 0; }
      out[at], out[at + 1] := 0xC0 + uc / 64, 0x80 + uc % 64;
      wrote := 2;
    } else if uc < 0x10000 {
      if room < 3 { return 0; }
      out[at], out[at + 1], out[at + 2] := 0xE0 + uc / 0x1000, 0x80 + uc / 64 % 64, 0x80 + uc % 64;
      wrote := 3;
    } else {
      if room < 4 { return 0; }
      out[at], out[at + 1] := (0xF0 + uc / 0x40000) % 256, 0x80 + uc / 0x1000 % 64;
      out[at + 2], out[at + 3] := 0x80 + uc / 64 % 64, 0x80 + uc % 64;
      wrote := 4;
    }
    assert out[at..at + wrote] == b;
    assert out[..at] == was[..at] && out[at + wrote..] == was[at + wrote..];
    assert out[..] == out[..at] + out[at..at + wrote] + out[at + wrote..];
  }

  /** One turn of iconv's loop. */
  method ConvertOne(cd: Converter, s: seq<byte>, out: array<byte>, at: nat, room: nat)
    returns (n: nat, w: nat, lost: nat, status: Status)
    requires s != [] && at + room <= out.Length
    modifies out
    ensures var g := One(cd, s);
      && status == (if g.Stop? then g.status else if |g.bytes| > room then TooBig else Done)
      && (status != Done ==> out[..] == old(out[..]))
      && (status == Done ==>
            && g.Go? && n == g.used && w == |g.bytes| && lost == g.irreversible
            && Written(old(out[..]), out[..], at, g.bytes))
  {
    hide Written, Decode;
    n, w, lost := 0, 0, 0;
    var d := DecodeOne(cd.from, s);
    if d == Incomplete {
      return n, w, lost, Cut;
    }
    if d == Invalid && !cd.translit {
      return n, w, lost, BadSequence;
    }
    var uc := QUESTION;
    n, lost := 1, 1;
    if d.Char? {
      uc, n, lost := d.uc, d.used, 0;
    }
    var wrote := EncodeOne(cd.to, uc, out, at, room);
    if wrote < 0 {
      if !cd.translit {
        return n, w, lost, BadSequence;
      }
      wrote := EncodeOne(cd.to, QUESTION, out, at, room);
      lost := lost + 1;
    }
    if wrote == 0 {
      return n, w, lost, TooBig;
    }
    return n, wrote, lost, Done;
  }

  /** What is left to convert is what the whole conversion has left. */
  predicate OnTheWay(cd: Converter, s: seq<byte>, room: nat, done: seq<byte>, irreversible: nat, whole: Conversion)
  {
    var c := Convert(cd, s, room);
    c.rest == whole.rest && c.status == whole.status && done + c.out == whole.out
    && irreversible + c.irreversible == whole.irreversible
  }

  lemma OneOnTheWay(cd: Converter, s: seq<byte>, room: nat, done: seq<byte>, irreversible: nat, whole: Conversion)
    requires OnTheWay(cd, s, room, done, irreversible, whole) && s != [] && One(cd, s).Go? && |One(cd, s).bytes| <= room
    ensures var g := One(cd, s);
      OnTheWay(cd, s[g.used..], room - |g.bytes|, done + g.bytes, irreversible + g.irreversible, whole)
  {
    hide One, Convert;
    var g := One(cd, s);
    ConvertGo(cd, s, room);
    var c := Convert(cd, s[g.used..], room - |g.bytes|);
    assert done + (g.bytes + c.out) == (done + g.bytes) + c.out;
  }

  lemma StopOnTheWay(cd: Converter, s: seq<byte>, room: nat, done: seq<byte>, irreversible: nat, whole: Conversion)
    requires OnTheWay(cd, s, room, done, irreversible, whole)
    requires s != [] ==> One(cd, s).Stop? || |One(cd, s).bytes| > room
    ensures done == whole.out && s == whole.rest && irreversible == whole.irreversible
    ensures whole.status == if s == [] then Done else if One(cd, s).Stop? then One(cd, s).status else TooBig
  {
    hide One, Convert;
    ConvertStop(cd, s, room);
    assert done + [] == done;
  }

  /** iconv, with its pointers as places: `used` bytes of the input taken, `wrote` bytes of the output written. */
  method ConvertInto(cd: Converter, s: seq<byte>, out: array<byte>, at: nat, room: nat)
    returns (used: nat, wrote: nat, irreversible: nat, status: Status)
    requires at + room <= out.Length
    modifies out
    ensures var c := Convert(cd, s, room);
      && used <= |s| && s[used..] == c.rest && wrote == |c.out| && status == c.status && irreversible == c.irreversible
      && Written(old(out[..]), out[..], at, c.out)
  {
    hide Written, One, Convert, OnTheWay;
    used, wrote, irreversible, status := 0, 0, 0, Done;
    ghost var done: seq<byte> := [];
    ghost var whole := Convert(cd, s, room);
    WrittenNothing(out[..], at);
    assert s[0..] == s;
    BeginOnTheWay(cd, s, room);
    while used < |s|
      invariant used <= |s| && wrote <= room && status == Done && |done| == wrote
      invariant Written(old(out[..]), out[..], at, done)
      invariant OnTheWay(cd, s[used..], room - wrote, done, irreversible, whole)
      decreases |s| - used
    {
      ghost var now, g := out[..], One(cd, s[used..]);
      var n, w, lost;
      n, w, lost, status := ConvertOne(cd, s[used..], out, at + wrote, room - wrote);
      if status != Done {
        StopOnTheWay(cd, s[used..], room - wrote, done, irreversible, whole);
        return;
      }
      OneOnTheWay(cd, s[used..], room - wrote, done, irreversible, whole);
      WrittenBoth(old(out[..]), now, out[..], at, done, g.bytes);
      assert s[used..][n..] == s[used + n..];
      done := done + g.bytes;
      irreversible, used, wrote := irreversible + lost, used + n, wrote + w;
    }
    StopOnTheWay(cd, s[used..], room - wrote, done, irreversible, whole);
  }

  lemma BeginOnTheWay(cd: Converter, s: seq<byte>, room: nat)
    ensures OnTheWay(cd, s, room, [], 0, Convert(cd, s, room))
  {
    assert [] + Convert(cd, s, room).out == Convert(cd, s, room).out;
  }
}
