/** CRC-32 as crc32.c computes it: a byte at a time with one table, a word at a time with four
    tables on little-endian or big-endian machines, and the combination of two checksums by
    powers of the one-zero-bit operator. The reference is the bit-at-a-time shift register
    (section 8 of RFC 1952), which module Gf2 proves to be the remainder of a division. */
module Crc32 {
  import opened Gf2
  import opened Wrappers

  type byte = bv8

  // ---- The reference ----

  /** The low `n` bits of a word in transmission order, least significant first. */
  function LowBits(w: bv32, n: nat): seq<bool>
    decreases n
  {
    if n == 0 then [] else [Low(w)] + LowBits(Shr(w), n - 1)
  }

  function BitsOfByte(b: byte): seq<bool> { LowBits(b as bv32, 8) }

  function BitsOf(buf: seq<byte>): seq<bool>
  {
    if buf == [] then [] else BitsOfByte(buf[0]) + BitsOf(buf[1..])
  }

  function Not(a: bv32): bv32 { !a }

  /** The register after a buffer's bits. */
  function Register(c: bv32, buf: seq<byte>): bv32 { FeedBits(c, BitsOf(buf)) }

  /** The checksum: the register starts inverted and ends inverted. */
  function Crc(crc: bv32, buf: seq<byte>): bv32 { Not(Register(Not(crc), buf)) }

  lemma {:induction false} BitsOfConcat(a: seq<byte>, b: seq<byte>)
    ensures BitsOf(a + b) == BitsOf(a) + BitsOf(b)
  {
    if a == [] {
      assert a + b == b;
    } else {
      assert (a + b)[1..] == a[1..] + b;
      BitsOfConcat(a[1..], b);
    }
  }

  lemma {:induction false} BitsOfLength(a: seq<byte>)
    ensures |BitsOf(a)| == 8 * |a|
  {
    if a != [] {
      LowBitsLength(a[0] as bv32, 8);
      BitsOfLength(a[1..]);
    }
  }

  lemma NotFacts(a: bv32)
    ensures Not(a) == Xor(0xffff_ffff, a) == Xor(a, 0xffff_ffff)
    ensures Not(Not(a)) == a
  {}

  /** A checksum can be continued: hashing two pieces in turn hashes their concatenation. */
  lemma CrcConcat(crc: bv32, a: seq<byte>, b: seq<byte>)
    ensures Crc(Crc(crc, a), b) == Crc(crc, a + b)
  {
    hide Not, FeedBits, BitsOf;
    BitsOfConcat(a, b);
    FeedBitsConcat(Not(crc), BitsOf(a), BitsOf(b));
    NotFacts(Register(Not(crc), a));
  }

  /** Any start value: it is shifted over the buffer's bits and added to the plain checksum. */
  lemma CrcShift(crc: bv32, b: seq<byte>)
    ensures Crc(crc, b) == Xor(ShiftBits(crc, 8 * |b|), Crc(0, b))
  {
    hide Not, Xor, FeedBits, ShiftBits, BitsOf;
    BitsOfLength(b);
    NotFacts(crc);
    NotFacts(0);
    XorAlgebra(0xffff_ffff, 0, 0);
    var r := Register(0xffff_ffff, b);
    FeedBitsAffine(crc, 0xffff_ffff, BitsOf(b));
    NotFacts(Xor(ShiftBits(crc, 8 * |b|), r));
    NotFacts(r);
    XorAlgebra(0xffff_ffff, ShiftBits(crc, 8 * |b|), r);
  }

  /** What crc32_combine_ is for: the checksum of a concatenation from the two checksums and the second length. */
  lemma CrcOfConcat(a: seq<byte>, b: seq<byte>)
    ensures Crc(0, a + b) == Xor(ShiftBits(Crc(0, a), 8 * |b|), Crc(0, b))
  {
    hide Xor, Crc;
    CrcConcat(0, a, b);
    CrcShift(Crc(0, a), b);
  }

  /** The checksum with the two inversions taken off is the remainder, modulo P, of the message times x^32. */
  lemma RegisterIsRemainder(buf: seq<byte>, quotient: seq<bool>, remainder: Poly)
    requires DegreeBelow(remainder, 32)
    ensures TimesXn(Product(BitsOf(buf), {0}), 32) == Add(Product(quotient, P), remainder)
        ==> remainder == PolyOf(Register(0, buf))
    ensures exists q :: TimesXn(Product(BitsOf(buf), {0}), 32) == Add(Product(q, P), PolyOf(Register(0, buf)))
  {
    hide P, Product, FeedBits, BitsOf, TimesXn, Add, Coefficient;
    var q := RegisterDivides(BitsOf(buf));
    if TimesXn(Product(BitsOf(buf), {0}), 32) == Add(Product(quotient, P), remainder) {
      RemainderUnique(quotient, remainder, q, PolyOf(Register(0, buf)));
    }
  }

  // ---- Feeding whole words ----

  /** The word's low bits are `bits` and the rest is clear. */
  predicate Holds(w: bv32, bits: seq<bool>)
    decreases |bits|
  {
    if bits == [] then w == 0 else bits[0] == Low(w) && Holds(Shr(w), bits[1..])
  }

  lemma ShiftBitOfEven(w: bv32)
    ensures ShiftBit(Shl(Shr(w))) == Shr(w)
  {
    assert ((w >> 1) << 1) & 1 == 0;
    assert ((w >> 1) << 1) >> 1 == w >> 1;
  }

  /** Adding a word to the register and shifting does what feeding its bits one at a time does. */
  lemma {:induction false} FeedWord(c: bv32, w: bv32, bits: seq<bool>)
    requires Holds(w, bits)
    ensures FeedBits(c, bits) == ShiftBits(Xor(c, w), |bits|)
    decreases |bits|
  {
    hide Xor, Shr, Shl, Low, ShiftBit, FromBit;
    if bits == [] {
      XorAlgebra(c, 0, 0);
    } else {
      var d := FromBit(bits[0]);
      SplitLow(w);
      ShiftBitOfEven(w);
      XorAlgebra(c, d, Shl(Shr(w)));
      ShiftBitXor(Xor(c, d), Shl(Shr(w)));
      FeedWord(ShiftBit(Xor(c, d)), Shr(w), bits[1..]);
    }
  }

  function And(a: bv32, b: bv32): bv32 { a & b }

  predicate Ones(m: bv32, n: nat)
    decreases n
  {
    n == 0 || (Low(m) && Ones(Shr(m), n - 1))
  }

  lemma AndShr(w: bv32, m: bv32)
    ensures And(Shr(w), Shr(m)) == Shr(And(w, m))
  {}

  lemma AndLow(w: bv32, m: bv32)
    ensures Low(m) ==> Low(And(w, m)) == Low(w)
  {
    LowIsZeroOrOne(w);
    LowIsZeroOrOne(m);
    assert (w & m) & 1 == (w & 1) & (m & 1);
  }

  lemma {:induction false} LowBitsAgree(w: bv32, v: bv32, m: bv32, n: nat)
    requires And(w, m) == And(v, m) && Ones(m, n)
    ensures LowBits(w, n) == LowBits(v, n)
    decreases n
  {
    hide And, Low, Shr;
    if n > 0 {
      AndShr(w, m);
      AndShr(v, m);
      AndLow(w, m);
      AndLow(v, m);
      LowBitsAgree(Shr(w), Shr(v), Shr(m), n - 1);
    }
  }

  lemma {:induction false} HoldsLowBits(w: bv32, n: nat, rest: seq<bool>)
    requires Holds(ShiftRight(w, n), rest)
    ensures Holds(w, LowBits(w, n) + rest)
    decreases n
  {
    hide Low, Shr;
    if n == 0 {
      assert LowBits(w, n) + rest == rest;
    } else {
      assert (LowBits(w, n) + rest)[1..] == LowBits(Shr(w), n - 1) + rest;
      HoldsLowBits(Shr(w), n - 1, rest);
    }
  }

  lemma {:induction false} LowBitsLength(w: bv32, n: nat)
    ensures |LowBits(w, n)| == n
    decreases n
  {
    if n > 0 { LowBitsLength(Shr(w), n - 1); }
  }

  lemma ByteMask()
    ensures Ones(0xff, 8)
  {
    assert Ones(0xf, 4);
    var m: bv32 := 0xff;
    assert Ones(Shr(Shr(Shr(Shr(m)))), 4);
    assert Ones(Shr(Shr(m)), 6);
  }

  function ByteWord(b: byte): bv32 { b as bv32 }

  function LowByte(c: bv32): byte { (c & 0xff) as byte }

  function Shr8(c: bv32): bv32 { c >> 8 }

  lemma LowByteMask(w: bv32)
    ensures And(w, 0xff) == And(ByteWord(LowByte(w)), 0xff)
  {}

  lemma HoldsByte(w: bv32, rest: seq<bool>)
    requires Holds(Shr8(w), rest)
    ensures Holds(w, BitsOfByte(LowByte(w)) + rest)
  {
    LowByteMask(w);
    ShiftRight8(w);
    hide ShiftRight, And, Holds, LowByte;
    ByteMask();
    LowBitsAgree(w, ByteWord(LowByte(w)), 0xff, 8);
    HoldsLowBits(w, 8, rest);
  }

  // ---- Words in memory ----

  /** Four bytes as a little-endian machine loads them. */
  function LittleWord(b0: byte, b1: byte, b2: byte, b3: byte): bv32
  {
    (b0 as bv32) | ((b1 as bv32) << 8) | ((b2 as bv32) << 16) | ((b3 as bv32) << 24)
  }

  /** Four bytes as a big-endian machine loads them. */
  function BigWord(b0: byte, b1: byte, b2: byte, b3: byte): bv32
  {
    (b3 as bv32) | ((b2 as bv32) << 8) | ((b1 as bv32) << 16) | ((b0 as bv32) << 24)
  }

  /** ZSWAP32 of zutil.h: the four bytes reversed. */
  function Swap(q: bv32): bv32
  {
    ((q >> 24) & 0xff) + ((q >> 8) & 0xff00) + ((q & 0xff00) << 8) + ((q & 0xff) << 24)
  }

  lemma LittleWordBytes(b0: byte, b1: byte, b2: byte, b3: byte)
    ensures var w := LittleWord(b0, b1, b2, b3);
      LowByte(w) == b0 && LowByte(Shr8(w)) == b1 && LowByte(Shr8(Shr8(w))) == b2
      && LowByte(Shr8(Shr8(Shr8(w)))) == b3 && Shr8(Shr8(Shr8(Shr8(w)))) == 0
  {}

  lemma BitsOfFour(b0: byte, b1: byte, b2: byte, b3: byte)
    ensures BitsOf([b0, b1, b2, b3]) == BitsOfByte(b0) + (BitsOfByte(b1) + (BitsOfByte(b2) + (BitsOfByte(b3) + [])))
    ensures |BitsOf([b0, b1, b2, b3])| == 32
  {
    hide BitsOfByte;
    assert [b3][1..] == [];
    assert BitsOf([b3]) == BitsOfByte(b3) + [];
    assert [b2, b3][1..] == [b3];
    assert [b1, b2, b3][1..] == [b2, b3];
    assert BitsOf([b1, b2, b3]) == BitsOfByte(b1) + BitsOf([b2, b3]);
    assert [b0, b1, b2, b3][1..] == [b1, b2, b3];
    BitsOfLength([b0, b1, b2, b3]);
  }

  lemma ByteHoldsBits(b: byte)
    ensures Holds(ByteWord(b), BitsOf([b])) && |BitsOf([b])| == 8
  {
    assert LowByte(ByteWord(b)) == b && Shr8(ByteWord(b)) == 0;
    assert [b][1..] == [] && BitsOf([b]) == BitsOfByte(b) + [];
    assert Holds(0, []);
    hide ByteWord, Holds, Shr8, LowByte, BitsOfByte;
    BitsOfLength([b]);
    HoldsByte(ByteWord(b), []);
  }

  /** One more byte of the buffer. */
  lemma RegisterByte(c: bv32, buf: seq<byte>, i: nat)
    requires i < |buf|
    ensures Register(c, buf[..i + 1]) == ShiftBits(Xor(Register(c, buf[..i]), ByteWord(buf[i])), 8)
  {
    var b := buf[i];
    hide Holds, BitsOf, ByteWord, FeedBits, Xor, ShiftBits;
    assert buf[..i + 1] == buf[..i] + [b];
    BitsOfConcat(buf[..i], [b]);
    FeedBitsConcat(c, BitsOf(buf[..i]), BitsOf([b]));
    ByteHoldsBits(b);
    FeedWord(Register(c, buf[..i]), ByteWord(b), BitsOf([b]));
  }

  lemma WordHoldsBytes(b0: byte, b1: byte, b2: byte, b3: byte)
    ensures Holds(LittleWord(b0, b1, b2, b3), BitsOf([b0, b1, b2, b3]))
  {
    var w := LittleWord(b0, b1, b2, b3);
    LittleWordBytes(b0, b1, b2, b3);
    assert Holds(0, []);
    BitsOfFour(b0, b1, b2, b3);
    hide BitsOfByte, LittleWord, Shr8, LowByte, Holds, BitsOf;
    HoldsByte(Shr8(Shr8(Shr8(w))), []);
    HoldsByte(Shr8(Shr8(w)), BitsOfByte(b3) + []);
    HoldsByte(Shr8(w), BitsOfByte(b2) + (BitsOfByte(b3) + []));
    HoldsByte(w, BitsOfByte(b1) + (BitsOfByte(b2) + (BitsOfByte(b3) + [])));
  }

  /** Four more bytes of the buffer, as one word. */
  lemma RegisterWord(c: bv32, buf: seq<byte>, i: nat)
    requires i + 4 <= |buf|
    ensures Register(c, buf[..i + 4])
         == ShiftBits(Xor(Register(c, buf[..i]), LittleWord(buf[i], buf[i + 1], buf[i + 2], buf[i + 3])), 32)
  {
    var b0, b1, b2, b3 := buf[i], buf[i + 1], buf[i + 2], buf[i + 3];
    hide BitsOf, FeedBits, Xor, ShiftBits, LittleWord, Holds;
    WordHoldsBytes(b0, b1, b2, b3);
    BitsOfLength([b0, b1, b2, b3]);
    assert buf[..i + 4] == buf[..i] + [b0, b1, b2, b3];
    BitsOfConcat(buf[..i], [b0, b1, b2, b3]);
    FeedBitsConcat(c, BitsOf(buf[..i]), BitsOf([b0, b1, b2, b3]));
    FeedWord(Register(c, buf[..i]), LittleWord(b0, b1, b2, b3), BitsOf([b0, b1, b2, b3]));
  }

  // ---- The tables ----

  /** Table k, entry n: the register after byte n and k zero bytes. */
  function Entry(k: nat, n: byte): bv32 { ShiftBits(ByteWord(n), 8 * (k + 1)) }

  /** While its low bits are clear, the register only shifts. */
  lemma ShiftClearByte(c: bv32)
    requires c & 0xff == 0
    ensures ShiftBits(c, 8) == c >> 8
  {
    ShiftClearNibble(c);
    ShiftClearNibble(c >> 4);
    ShiftBitsAdd(c, 4, 4);
    assert (c >> 4) >> 4 == c >> 8;
  }

  lemma ShiftClearNibble(c: bv32)
    requires c & 0xf == 0
    ensures ShiftBits(c, 4) == c >> 4
  {
    ClearBits(c);
    hide Shr, Low, Xor;
    assert ShiftBits(c, 4) == ShiftBits(Shr(c), 3) == ShiftBits(Shr(Shr(c)), 2);
    assert ShiftBits(Shr(Shr(c)), 2) == ShiftBits(Shr(Shr(Shr(c))), 1) == Shr(Shr(Shr(Shr(c))));
  }

  lemma ClearBits(c: bv32)
    requires c & 0xf == 0
    ensures !Low(c) && !Low(Shr(c)) && !Low(Shr(Shr(c))) && !Low(Shr(Shr(Shr(c))))
    ensures Shr(Shr(Shr(Shr(c)))) == c >> 4
  {}

  function Shl8(c: bv32): bv32 { c << 8 }

  lemma SplitByte(c: bv32)
    ensures c == Xor(ByteWord(LowByte(c)), Shl8(Shr8(c)))
    ensures Shl8(Shr8(c)) & 0xff == 0 && Shl8(Shr8(c)) >> 8 == Shr8(c)
  {}

  /** DO1: eight bits through the first table. */
  lemma ByteThroughTable(c: bv32)
    ensures ShiftBits(c, 8) == Xor(Entry(0, LowByte(c)), Shr8(c))
  {
    SplitByte(c);
    hide Xor, LowByte, ByteWord;
    ShiftClearByte(Shl8(Shr8(c)));
    hide Shr8, Shl8, ShiftBits;
    ShiftBitsXor(ByteWord(LowByte(c)), Shl8(Shr8(c)), 8);
  }

  /** The lowest byte through a later table, the rest through the others. */
  lemma PeelByte(c: bv32, k: nat)
    ensures ShiftBits(c, 8 * (k + 1)) == Xor(Entry(k, LowByte(c)), ShiftBits(Shr8(c), 8 * k))
  {
    SplitByte(c);
    hide Xor, LowByte, ByteWord;
    ShiftClearByte(Shl8(Shr8(c)));
    hide Shr8, Shl8, ShiftBits;
    ShiftBitsXor(ByteWord(LowByte(c)), Shl8(Shr8(c)), 8 * (k + 1));
    ShiftBitsAdd(Shl8(Shr8(c)), 8, 8 * k);
  }

  /** DOLIT4: a whole word through the four tables. */
  lemma WordThroughTables(c: bv32)
    ensures ShiftBits(c, 32)
         == Xor(Xor(Xor(Entry(3, LowByte(c)), Entry(2, LowByte(Shr8(c)))), Entry(1, LowByte(Shr8(Shr8(c))))),
                Entry(0, LowByte(Shr8(Shr8(Shr8(c))))))
  {
    AllShifted(c);
    assert ShiftBits(0, 0) == 0;
    hide Shr8, LowByte, Entry, Xor, ShiftBits;
    PeelByte(c, 3);
    PeelByte(Shr8(c), 2);
    PeelByte(Shr8(Shr8(c)), 1);
    PeelByte(Shr8(Shr8(Shr8(c))), 0);
    var e3, e2, e1, e0 := Entry(3, LowByte(c)), Entry(2, LowByte(Shr8(c))), Entry(1, LowByte(Shr8(Shr8(c)))),
      Entry(0, LowByte(Shr8(Shr8(Shr8(c)))));
    XorAlgebra(e0, 0, 0);
    XorAlgebra(e3, e2, Xor(e1, e0));
    XorAlgebra(Xor(e3, e2), e1, e0);
  }

  lemma AllShifted(c: bv32)
    ensures Shr8(Shr8(Shr8(Shr8(c)))) == 0
  {}

  ghost predicate TablesMade(t: array2<bv32>)
    reads t
  {
    && t.Length0 == 8 && t.Length1 == 256
    && (forall k, n | 0 <= k < 4 && 0 <= n < 256 :: t[k, n] == Entry(k, n as byte))
    && (forall k, n | 4 <= k < 8 && 0 <= n < 256 :: t[k, n] == Swap(Entry(k - 4, n as byte)))
  }

  /** The polynomial's exponents, all but x^32. */
  const EXPONENTS: seq<nat> := [0, 1, 2, 4, 5, 7, 8, 10, 11, 12, 16, 22, 23, 26]

  function Term(e: nat): bv32 { if e <= 31 then 1 << (31 - e) else 0 }

  function Or(a: bv32, b: bv32): bv32 { a | b }

  /** The exclusive-or pattern of the first `n` exponents. */
  function Pattern(n: nat): bv32
    requires n <= |EXPONENTS|
  {
    if n == 0 then 0 else Or(Pattern(n - 1), Term(EXPONENTS[n - 1]))
  }

  method MakePolynomial() returns (poly: bv32)
    ensures poly == POLYNOMIAL
  {
    PatternValue();
    hide Term, Or;
    poly := 0;
    var n := 0;
    while n < |EXPONENTS|
      invariant 0 <= n <= |EXPONENTS| && poly == Pattern(n)
    {
      poly := Or(poly, Term(EXPONENTS[n]));
      n := n + 1;
    }
  }

  lemma PatternValue()
    ensures Pattern(|EXPONENTS|) == POLYNOMIAL
  {
    assert Pattern(1) == 0x80000000;
    assert Pattern(2) == 0xc0000000;
    assert Pattern(3) == 0xe0000000;
    assert Pattern(4) == 0xe8000000;
    assert Pattern(5) == 0xec000000;
    assert Pattern(6) == 0xed000000;
    assert Pattern(7) == 0xed800000;
    assert Pattern(8) == 0xeda00000;
    assert Pattern(9) == 0xedb00000;
    assert Pattern(10) == 0xedb80000;
    assert Pattern(11) == 0xedb88000;
    assert Pattern(12) == 0xedb88200;
    assert Pattern(13) == 0xedb88300;
    assert Pattern(14) == 0xedb88320;
  }

  lemma NextTable(k: nat, n: byte)
    ensures Xor(Entry(0, LowByte(Entry(k, n))), Shr8(Entry(k, n))) == Entry(k + 1, n)
  {
    hide Xor, LowByte, Shr8, ByteWord, ShiftBits;
    ByteThroughTable(Entry(k, n));
    ShiftBitsAdd(ByteWord(n), 8 * (k + 1), 8);
  }

  /** A byte's CRC, a bit at a time. */
  method EntryOfByte(poly: bv32, n: byte) returns (c: bv32)
    requires poly == POLYNOMIAL
    ensures c == Entry(0, n)
  {
    hide Xor, Low, Shr;
    c := ByteWord(n);
    var k := 0;
    while k < 8
      invariant 0 <= k <= 8 && c == ShiftBits(ByteWord(n), k)
    {
      ShiftBitsAdd(ByteWord(n), k, 1);
      c := if Low(c) then Xor(poly, Shr(c)) else Shr(c);
      k := k + 1;
    }
  }

  method MakeFirstTable(t: array2<bv32>)
    requires t.Length0 == 8 && t.Length1 == 256
    modifies t
    ensures forall m | 0 <= m < 256 :: t[0, m] == Entry(0, m as byte)
  {
    hide Entry;
    var poly := MakePolynomial();
    var n := 0;
    while n < 256
      invariant 0 <= n <= 256
      invariant forall m | 0 <= m < n :: t[0, m] == Entry(0, m as byte)
    {
      var c := EntryOfByte(poly, n as byte);
      t[0, n] := c;
      n := n + 1;
    }
  }

  function At(t: array2<bv32>, k: nat, n: byte): bv32
    requires k < t.Length0 && t.Length1 == 256
    reads t
  {
    t[k, n as int]
  }

  lemma AtEntry(t: array2<bv32>, n: byte)
    requires t.Length0 == 8 && t.Length1 == 256
    requires forall m | 0 <= m < 256 :: t[0, m] == Entry(0, m as byte)
    ensures At(t, 0, n) == Entry(0, n)
  {
    hide Entry;
    assert (n as int) as byte == n;
  }

  ghost predicate RowsMade(t: array2<bv32>, n: nat)
    requires t.Length0 == 8 && t.Length1 == 256
    reads t
  {
    && (forall k, m | 0 <= k < 4 && 0 <= m < 256 && m < n :: t[k, m] == Entry(k, m as byte))
    && (forall k, m | 4 <= k < 8 && 0 <= m < 256 && m < n :: t[k, m] == Swap(Entry(k - 4, m as byte)))
  }

  /** The entries after one, two and three zero bytes, and the byte-reversed ones. */
  method MakeColumn(t: array2<bv32>, n: nat)
    requires t.Length0 == 8 && t.Length1 == 256 && n < 256
    requires forall m | 0 <= m < 256 :: t[0, m] == Entry(0, m as byte)
    modifies t
    ensures forall k, m | 0 <= k < 8 && 0 <= m < 256 && m != n :: t[k, m] == old(t[k, m])
    ensures forall k | 0 <= k < 4 :: t[k, n] == Entry(k, n as byte)
    ensures forall k | 4 <= k < 8 :: t[k, n] == Swap(Entry(k - 4, n as byte))
  {
    hide Entry, Xor, LowByte, Shr8, Swap;
    var c := t[0, n];
    t[4, n] := Swap(c);
    var k := 1;
    while k < 4
      invariant 1 <= k <= 4 && c == Entry(k - 1, n as byte)
      invariant forall m | 0 <= m < 256 :: t[0, m] == Entry(0, m as byte)
      invariant forall j, m | 0 <= j < 8 && 0 <= m < 256 && m != n :: t[j, m] == old(t[j, m])
      invariant forall j | 0 <= j < k :: t[j, n] == Entry(j, n as byte)
      invariant forall j | 4 <= j < 4 + k :: t[j, n] == Swap(Entry(j - 4, n as byte))
    {
      NextTable(k - 1, n as byte);
      AtEntry(t, LowByte(c));
      c := Xor(At(t, 0, LowByte(c)), Shr8(c));
      t[k, n] := c;
      t[k + 4, n] := Swap(c);
      k := k + 1;
    }
  }

  method MakeCrcTable() returns (t: array2<bv32>)
    ensures fresh(t) && TablesMade(t)
  {
    hide Entry, Swap;
    t := new bv32[8, 256];
    MakeFirstTable(t);
    var n := 0;
    while n < 256
      invariant 0 <= n <= 256 && RowsMade(t, n)
      invariant forall m | 0 <= m < 256 :: t[0, m] == Entry(0, m as byte)
    {
      MakeColumn(t, n);
      n := n + 1;
    }
  }

  lemma Lookup(t: array2<bv32>, n: byte)
    requires TablesMade(t)
    ensures forall k | 0 <= k < 4 :: At(t, k, n) == Entry(k, n)
    ensures forall k | 4 <= k < 8 :: At(t, k, n) == Swap(Entry(k - 4, n))
  {
    hide Entry, Swap;
    assert (n as int) as byte == n;
  }

  // ---- The checksum loops, little-endian and portable ----

  /** One byte: crc_table[0][(c ^ b) & 0xff] ^ (c >> 8). */
  method StepByte(t: array2<bv32>, c: bv32, b: byte) returns (d: bv32)
    requires TablesMade(t)
    ensures d == ShiftBits(Xor(c, ByteWord(b)), 8)
  {
    XorByteShift(c, b);
    hide Xor, LowByte, Shr8, Entry, ShiftBits, ByteWord;
    Lookup(t, LowByte(Xor(c, ByteWord(b))));
    ByteThroughTable(Xor(c, ByteWord(b)));
    d := Xor(At(t, 0, LowByte(Xor(c, ByteWord(b)))), Shr8(c));
  }

  lemma XorByteShift(c: bv32, b: byte)
    ensures Shr8(Xor(c, ByteWord(b))) == Shr8(c)
  {}

  /** DOLIT4 */
  method StepWord(t: array2<bv32>, c0: bv32, w: bv32) returns (c: bv32)
    requires TablesMade(t)
    ensures c == ShiftBits(Xor(c0, w), 32)
  {
    hide Xor, LowByte, Shr8, Entry, ShiftBits, ByteWord;
    c := Xor(c0, w);
    WordThroughTables(c);
    Lookup(t, LowByte(c));
    Lookup(t, LowByte(Shr8(c)));
    Lookup(t, LowByte(Shr8(Shr8(c))));
    Lookup(t, LowByte(Shr8(Shr8(Shr8(c)))));
    c := Xor(Xor(Xor(At(t, 3, LowByte(c)), At(t, 2, LowByte(Shr8(c)))), At(t, 1, LowByte(Shr8(Shr8(c))))),
      At(t, 0, LowByte(Shr8(Shr8(Shr8(c))))));
  }

  /** The portable loop of crc32_z, for machines without the four-byte code; a null buffer gives 0. */
  method Crc32Bytewise(t: array2<bv32>, crc: bv32, buffer: Option<seq<byte>>) returns (r: bv32)
    requires TablesMade(t)
    ensures buffer == None ==> r == 0
    ensures buffer.Some? ==> r == Crc(crc, buffer.value)
  {
    hide Xor, Not, FeedBits, BitsOf, ShiftBits, ByteWord;
    if buffer == None {
      return 0;
    }
    var buf := buffer.value;
    var c := Not(crc);
    var i := 0;
    assert buf[..0] == [];
    EmptyRegister(c);
    while |buf| - i >= 8
      invariant 0 <= i <= |buf| && c == Register(Not(crc), buf[..i])
    {
      ghost var i0 := i;
      for k := 0 to 8
        invariant i == i0 + k && i0 + 8 <= |buf| && c == Register(Not(crc), buf[..i])
      {
        RegisterByte(Not(crc), buf, i);
        c := StepByte(t, c, buf[i]);
        i := i + 1;
      }
    }
    while i < |buf|
      invariant 0 <= i <= |buf| && c == Register(Not(crc), buf[..i])
    {
      RegisterByte(Not(crc), buf, i);
      c := StepByte(t, c, buf[i]);
      i := i + 1;
    }
    assert buf[..i] == buf;
    r := Not(c);
  }

  lemma EmptyRegister(c: bv32)
    ensures Register(c, []) == c
  {}

  /** The four-byte loop on a little-endian machine; `address` is where the buffer starts. */
  method Crc32Little(t: array2<bv32>, crc: bv32, buf: seq<byte>, address: nat) returns (r: bv32)
    requires TablesMade(t)
    ensures r == Crc(crc, buf)
  {
    hide Xor, Not, FeedBits, BitsOf, ShiftBits, ByteWord, LittleWord;
    var c := Not(crc);
    var i := 0;
    assert buf[..0] == [];
    EmptyRegister(c);
    while i < |buf| && (address + i) % 4 != 0
      invariant 0 <= i <= |buf| && c == Register(Not(crc), buf[..i])
    {
      RegisterByte(Not(crc), buf, i);
      c := StepByte(t, c, buf[i]);
      i := i + 1;
    }
    while |buf| - i >= 32
      invariant 0 <= i <= |buf| && c == Register(Not(crc), buf[..i])
    {
      ghost var i0 := i;
      for k := 0 to 8
        invariant i == i0 + 4 * k && i0 + 32 <= |buf| && c == Register(Not(crc), buf[..i])
      {
        RegisterWord(Not(crc), buf, i);
        c := StepWord(t, c, LittleWord(buf[i], buf[i + 1], buf[i + 2], buf[i + 3]));
        i := i + 4;
      }
    }
    while |buf| - i >= 4
      invariant 0 <= i <= |buf| && c == Register(Not(crc), buf[..i])
    {
      RegisterWord(Not(crc), buf, i);
      c := StepWord(t, c, LittleWord(buf[i], buf[i + 1], buf[i + 2], buf[i + 3]));
      i := i + 4;
    }
    while i < |buf|
      invariant 0 <= i <= |buf| && c == Register(Not(crc), buf[..i])
    {
      RegisterByte(Not(crc), buf, i);
      c := StepByte(t, c, buf[i]);
      i := i + 1;
    }
    assert buf[..i] == buf;
    r := Not(c);
  }

  // ---- The checksum loops, big-endian ----
  // The register is kept byte-reversed throughout.

  lemma SwapXor(a: bv32, b: bv32)
    ensures Swap(Xor(a, b)) == Xor(Swap(a), Swap(b))
  {}

  lemma SwapFacts(a: bv32)
    ensures Swap(Swap(a)) == a && Swap(Not(a)) == Not(Swap(a))
    ensures Swap(Shr8(a)) == Shl8(Swap(a))
    ensures Swap(a) >> 24 == ByteWord(LowByte(a))
  {}

  lemma SwapWord(b0: byte, b1: byte, b2: byte, b3: byte)
    ensures BigWord(b0, b1, b2, b3) == Swap(LittleWord(b0, b1, b2, b3))
  {}

  lemma SwapBytes(a: bv32)
    ensures LowByte(a) == LowByte(Shr8(Shr8(Shr8(Swap(a)))))
    ensures LowByte(Shr8(a)) == LowByte(Shr8(Shr8(Swap(a))))
    ensures LowByte(Shr8(Shr8(a))) == LowByte(Shr8(Swap(a)))
    ensures LowByte(Shr8(Shr8(Shr8(a)))) == LowByte(Swap(a))
  {}

  lemma TopByteIndex(c: bv32, b: byte)
    ensures LowByte(Xor(Swap(c) >> 24, ByteWord(b))) == LowByte(Xor(c, ByteWord(b)))
  {}

  /** One byte: crc_table[4][(c >> 24) ^ b] ^ (c << 8), with `c` the reversed register. */
  method StepByteBig(t: array2<bv32>, ghost c: bv32, reversed: bv32, b: byte) returns (d: bv32)
    requires TablesMade(t) && reversed == Swap(c)
    ensures d == Swap(ShiftBits(Xor(c, ByteWord(b)), 8))
  {
    XorByteShift(c, b);
    TopByteIndex(c, b);
    SwapFacts(c);
    var n := LowByte(Xor(reversed >> 24, ByteWord(b)));
    hide Xor, LowByte, Shr8, Shl8, Entry, ShiftBits, ByteWord, Swap;
    Lookup(t, n);
    ByteThroughTable(Xor(c, ByteWord(b)));
    SwapXor(Entry(0, n), Shr8(c));
    d := Xor(At(t, 4, n), Shl8(reversed));
  }

  /** DOBIG4 */
  method StepWordBig(t: array2<bv32>, ghost c0: bv32, ghost w: bv32, reversed: bv32, word: bv32) returns (c: bv32)
    requires TablesMade(t) && reversed == Swap(c0) && word == Swap(w)
    ensures c == Swap(ShiftBits(Xor(c0, w), 32))
  {
    hide Xor, LowByte, Shr8, Entry, ShiftBits, ByteWord, Swap;
    ghost var x := Xor(c0, w);
    SwapXor(c0, w);
    c := Xor(reversed, word);
    WordThroughTables(x);
    SwapBytes(x);
    Lookup(t, LowByte(c));
    Lookup(t, LowByte(Shr8(c)));
    Lookup(t, LowByte(Shr8(Shr8(c))));
    Lookup(t, LowByte(Shr8(Shr8(Shr8(c)))));
    ghost var e3, e2, e1, e0 := Entry(3, LowByte(x)), Entry(2, LowByte(Shr8(x))), Entry(1, LowByte(Shr8(Shr8(x)))),
      Entry(0, LowByte(Shr8(Shr8(Shr8(x)))));
    SwapXor(Xor(Xor(e3, e2), e1), e0);
    SwapXor(Xor(e3, e2), e1);
    SwapXor(e3, e2);
    Reverse4(Swap(e3), Swap(e2), Swap(e1), Swap(e0));
    c := Xor(Xor(Xor(At(t, 4, LowByte(c)), At(t, 5, LowByte(Shr8(c)))), At(t, 6, LowByte(Shr8(Shr8(c))))),
      At(t, 7, LowByte(Shr8(Shr8(Shr8(c))))));
  }

  lemma Reverse4(a: bv32, b: bv32, c: bv32, d: bv32)
    ensures Xor(Xor(Xor(a, b), c), d) == Xor(Xor(Xor(d, c), b), a)
  {
    hide Xor;
    XorAlgebra(Xor(a, b), c, d);
    XorAlgebra(a, b, Xor(c, d));
    XorAlgebra(c, d, d);
    XorAlgebra(a, Xor(b, Xor(d, c)), d);
    XorAlgebra(b, Xor(d, c), d);
  }

  method Crc32Big(t: array2<bv32>, crc: bv32, buf: seq<byte>, address: nat) returns (r: bv32)
    requires TablesMade(t)
    ensures r == Crc(crc, buf)
  {
    SwapFacts(crc);
    SwapFacts(Not(crc));
    hide Xor, Not, FeedBits, BitsOf, ShiftBits, ByteWord, LittleWord, BigWord, Swap;
    var c := Not(Swap(crc));
    var i := 0;
    assert buf[..0] == [];
    EmptyRegister(Not(crc));
    while i < |buf| && (address + i) % 4 != 0
      invariant 0 <= i <= |buf| && c == Swap(Register(Not(crc), buf[..i]))
    {
      RegisterByte(Not(crc), buf, i);
      c := StepByteBig(t, Register(Not(crc), buf[..i]), c, buf[i]);
      i := i + 1;
    }
    while |buf| - i >= 32
      invariant 0 <= i <= |buf| && c == Swap(Register(Not(crc), buf[..i]))
    {
      ghost var i0 := i;
      for k := 0 to 8
        invariant i == i0 + 4 * k && i0 + 32 <= |buf| && c == Swap(Register(Not(crc), buf[..i]))
      {
        c := NextWordBig(t, Not(crc), c, buf, i);
        i := i + 4;
      }
    }
    while |buf| - i >= 4
      invariant 0 <= i <= |buf| && c == Swap(Register(Not(crc), buf[..i]))
    {
      c := NextWordBig(t, Not(crc), c, buf, i);
      i := i + 4;
    }
    while i < |buf|
      invariant 0 <= i <= |buf| && c == Swap(Register(Not(crc), buf[..i]))
    {
      RegisterByte(Not(crc), buf, i);
      c := StepByteBig(t, Register(Not(crc), buf[..i]), c, buf[i]);
      i := i + 1;
    }
    assert buf[..i] == buf;
    c := Not(c);
    SwapFacts(Register(Not(crc), buf));
    SwapFacts(Not(Register(Not(crc), buf)));
    r := Swap(c);
  }

  method NextWordBig(t: array2<bv32>, ghost start: bv32, c: bv32, buf: seq<byte>, i: nat) returns (d: bv32)
    requires TablesMade(t) && i + 4 <= |buf| && c == Swap(Register(start, buf[..i]))
    ensures d == Swap(Register(start, buf[..i + 4]))
  {
    hide Xor, FeedBits, BitsOf, ShiftBits, LittleWord, BigWord, Swap;
    RegisterWord(start, buf, i);
    SwapWord(buf[i], buf[i + 1], buf[i + 2], buf[i + 3]);
    d := StepWordBig(t, Register(start, buf[..i]), LittleWord(buf[i], buf[i + 1], buf[i + 2], buf[i + 3]), c,
      BigWord(buf[i], buf[i + 1], buf[i + 2], buf[i + 3]));
  }

  /** crc32_z: the four-byte code when the machine has it, whatever its byte order. */
  method Crc32Z(t: array2<bv32>, crc: bv32, buffer: Option<seq<byte>>, address: nat,
                fourBytes: bool, littleEndian: bool)
    returns (r: bv32)
    requires TablesMade(t)
    ensures buffer == None ==> r == 0
    ensures buffer.Some? ==> r == Crc(crc, buffer.value)
  {
    if buffer == None {
      return 0;
    }
    if fourBytes {
      if littleEndian {
        r := Crc32Little(t, crc, buffer.value, address);
      } else {
        r := Crc32Big(t, crc, buffer.value, address);
      }
    } else {
      r := Crc32Bytewise(t, crc, buffer);
    }
  }
}
