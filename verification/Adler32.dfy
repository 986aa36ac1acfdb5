/** Adler-32 as adler32.c computes it: the two sums are reduced only once every NMAX bytes, and
    two checksums are combined by a closed formula. The reference takes both sums modulo BASE
    after every byte (section 2.2 of RFC 1950). */
module Adler32 {
  import opened Bytes
  import opened Wrappers

  const BASE := 65521
  const NMAX := 5552

  // ---- The reference ----

  function Low(adler: nat): nat { adler % 0x1_0000 }

  function High(adler: nat): nat { adler / 0x1_0000 % 0x1_0000 }

  /** adler | (sum2 << 16), in 32 bits. */
  function Pack(s1: nat, s2: nat): nat
    requires s1 < 0x1_0000
  {
    s1 + s2 % 0x1_0000 * 0x1_0000
  }

  function Sums(s1: nat, s2: nat, buf: seq<byte>): (nat, nat)
    decreases |buf|
  {
    if buf == [] then (s1, s2)
    else
      var t1 := (s1 + buf[0]) % BASE;
      Sums(t1, (s2 + t1) % BASE, buf[1..])
  }

  function Adler(adler: nat, buf: seq<byte>): nat
  {
    var s := Sums(Low(adler), High(adler), buf);
    Pack(s.0 % 0x1_0000, s.1)
  }

  // ---- The sums without any reduction ----

  function Sum1(s1: nat, buf: seq<byte>): nat
  {
    if buf == [] then s1 else Sum1(s1, buf[..|buf| - 1]) + buf[|buf| - 1]
  }

  function Sum2(s1: nat, s2: nat, buf: seq<byte>): nat
  {
    if buf == [] then s2 else Sum2(s1, s2, buf[..|buf| - 1]) + Sum1(s1, buf)
  }

  lemma {:induction false} SumsConcat(s1: nat, s2: nat, a: seq<byte>, b: seq<byte>)
    ensures Sums(s1, s2, a + b) == (var s := Sums(s1, s2, a); Sums(s.0, s.1, b))
    decreases |a|
  {
    if a == [] {
      assert a + b == b;
    } else {
      assert (a + b)[1..] == a[1..] + b;
      var t1 := (s1 + a[0]) % BASE;
      SumsConcat(t1, (s2 + t1) % BASE, a[1..], b);
    }
  }

  lemma {:induction false} ModAddMultiple(a: int, k: nat)
    ensures (a + k * BASE) % BASE == a % BASE
    decreases k
  {
    if k > 0 {
      ModAddMultiple(a, k - 1);
      assert a + k * BASE == a + (k - 1) * BASE + BASE;
    }
  }

  lemma ModAdd(a: nat, b: int)
    ensures (a % BASE + b) % BASE == (a + b) % BASE
  {
    assert a + b == a % BASE + b + a / BASE * BASE;
    ModAddMultiple(a % BASE + b, a / BASE);
  }

  /** Reducing after every byte or only at the end gives the same sums, once there is a byte. */
  lemma {:induction false} ReduceAtEnd(s1: nat, s2: nat, buf: seq<byte>)
    ensures buf != [] ==> Sums(s1, s2, buf) == (Sum1(s1, buf) % BASE, Sum2(s1, s2, buf) % BASE)
    decreases |buf|
  {
    if buf != [] {
      var n := |buf| - 1;
      ReduceAtEnd(s1, s2, buf[..n]);
      assert buf == buf[..n] + [buf[n]];
      SumsConcat(s1, s2, buf[..n], [buf[n]]);
      var s := Sums(s1, s2, buf[..n]);
      var t1 := (s.0 + buf[n]) % BASE;
      assert [buf[n]][1..] == [];
      assert Sums(s.0, s.1, [buf[n]]) == (t1, (s.1 + t1) % BASE);
      if n > 0 {
        ModAdd(Sum1(s1, buf[..n]), buf[n]);
        assert t1 == Sum1(s1, buf) % BASE;
        ModAdd(Sum2(s1, s2, buf[..n]), t1);
        ModAdd(Sum1(s1, buf), Sum2(s1, s2, buf[..n]));
      } else {
        ModAdd(Sum1(s1, buf), s2);
      }
    }
  }

  /** How large the sums can grow: NMAX bytes are the most that stay below 2^32 from reduced sums. */
  lemma {:induction false} SumBounds(s1: nat, s2: nat, buf: seq<byte>)
    ensures Sum1(s1, buf) <= s1 + 255 * |buf|
    ensures 2 * Sum2(s1, s2, buf) <= 2 * s2 + 2 * |buf| * s1 + 255 * |buf| * (|buf| + 1)
    decreases |buf|
  {
    if buf != [] {
      var n := |buf| - 1;
      SumBounds(s1, s2, buf[..n]);
      assert 2 * (n + 1) * s1 == 2 * n * s1 + 2 * s1;
      assert 255 * (n + 1) * (n + 2) == 255 * n * (n + 1) + 510 * (n + 1);
    }
  }

  lemma SumBoundsUpTo(s1: nat, s2: nat, buf: seq<byte>, most: nat)
    requires s1 < 0x1_0000 && s2 < 0x1_0000 && |buf| <= most
    ensures Sum1(s1, buf) <= 65535 + 255 * most
    ensures 2 * Sum2(s1, s2, buf) <= 2 * 65535 + 2 * (most * 65535) + 255 * (most * (most + 1))
  {
    SumBounds(s1, s2, buf);
    hide Sum1, Sum2;
    var n := |buf|;
    MulLe(n, most, s1, 65535);
    MulLe(n, most, n + 1, most + 1);
    assert 2 * n * s1 == 2 * (n * s1) && 255 * n * (n + 1) == 255 * (n * (n + 1));
  }

  lemma BlockFits(s1: nat, s2: nat, buf: seq<byte>)
    requires s1 < 0x1_0000 && s2 < 0x1_0000 && |buf| <= NMAX
    ensures Sum1(s1, buf) < TWO_TO_32 && Sum2(s1, s2, buf) < TWO_TO_32
  {
    hide Sum1, Sum2;
    SumBoundsUpTo(s1, s2, buf, NMAX);
  }

  lemma MulLe(a: nat, b: nat, c: nat, d: nat)
    requires a <= b && c <= d
    ensures a * c <= b * d
  {
    assert a * c <= b * c by { assert (b - a) * c >= 0; assert (b - a) * c == b * c - a * c; }
    assert b * c <= b * d by { assert b * (d - c) >= 0; assert b * (d - c) == b * d - b * c; }
  }

  /** The constant is tight: with one byte more a block of 0xff bytes overflows. */
  lemma {:induction false} AllOnes(n: nat)
    ensures Sum1(BASE - 1, seq(n, i => 255)) == BASE - 1 + 255 * n
    ensures 2 * Sum2(BASE - 1, BASE - 1, seq(n, i => 255)) == 2 * (n + 1) * (BASE - 1) + 255 * n * (n + 1)
  {
    if n > 0 {
      AllOnes(n - 1);
      assert seq(n, i => 255)[..n - 1] == seq(n - 1, i => 255);
    }
  }

  lemma NMaxIsTight()
    ensures Sum2(BASE - 1, BASE - 1, seq(NMAX, i => 255)) < TWO_TO_32
    ensures Sum2(BASE - 1, BASE - 1, seq(NMAX + 1, i => 255)) >= TWO_TO_32
  {
    AllOnes(NMAX);
    AllOnes(NMAX + 1);
  }

  // ---- Reductions without a division ----
  // 65536 % BASE is 15, and 2^32 % BASE is 225.

  function Chop(a: nat): nat
  {
    var tmp := a / 0x1_0000;
    a % 0x1_0000 + (tmp * 16 - tmp)
  }

  function TakeBase(a: nat): nat { if a >= BASE then a - BASE else a }

  function Mod28(a: nat): nat { TakeBase(Chop(a)) }

  function Mod(a: nat): nat { Mod28(Chop(a)) }

  lemma ChopKeeps(a: nat)
    ensures Chop(a) % BASE == a % BASE && Chop(a) <= 65535 + 15 * (a / 0x1_0000)
  {
    var tmp := a / 0x1_0000;
    assert a == Chop(a) + tmp * BASE;
    ModAddMultiple(Chop(a), tmp);
  }

  /** One subtraction of BASE is a remainder exactly below twice BASE. */
  lemma Mod28Exact(a: nat)
    ensures Chop(a) < 2 * BASE <==> Mod28(a) == a % BASE
    ensures a < 0x1000_0000 ==> Mod28(a) == a % BASE
  {
    ChopKeeps(a);
    var c := Chop(a);
    hide Chop;
    if c >= 2 * BASE { assert Mod28(a) >= BASE; }
  }

  lemma ModExact(a: nat)
    ensures a < TWO_TO_32 ==> Mod(a) == a % BASE
  {
    ChopKeeps(a);
    Mod28Exact(Chop(a));
  }

  /** The first step of MOD63, which folds the high word in with 2^32 % BASE. */
  function Fold(a: nat): nat
  {
    var tmp := a / TWO_TO_32;
    a % TWO_TO_32 + (tmp * 256 - tmp * 32 + tmp)
  }

  function Mod63(a: nat): nat { TakeBase(Chop(Chop(Fold(a)))) }

  lemma FoldKeeps(a: nat)
    ensures Fold(a) % BASE == a % BASE
    ensures a < 0x8000_0000_0000_0000 ==> Fold(a) < 0x100_0000_0000
  {
    var tmp := a / TWO_TO_32;
    assert a == Fold(a) + tmp * 65551 * BASE;
    hide Fold;
    ModAddMultiple(Fold(a), tmp * 65551);
  }

  lemma Mod63Exact(a: nat)
    ensures a < 0x8000_0000_0000_0000 ==> Mod63(a) == a % BASE
  {
    hide Fold, Chop;
    FoldKeeps(a);
    var b := Fold(a);
    ChopKeeps(b);
    ChopKeeps(Chop(b));
    assert b < 0x100_0000_0000 ==> Chop(b) < 0x1000_0000 && Chop(Chop(b)) < 2 * BASE;
  }

  /** MOD and MOD28, whichever way the macro is compiled. */
  method Reduce(a: nat, noDivide: bool) returns (r: nat)
    requires a < TWO_TO_32
    ensures r == a % BASE
  {
    ModExact(a);
    r := if noDivide then Mod(a) else a % BASE;
  }

  method Reduce28(a: nat, noDivide: bool) returns (r: nat)
    requires a < 0x1000_0000
    ensures r == a % BASE
  {
    Mod28Exact(a);
    r := if noDivide then Mod28(a) else a % BASE;
  }

  // ---- adler32_z ----

  /** The sums over part of a buffer, from the values a block starts with. */
  ghost predicate Summed(s1: nat, s2: nat, part: seq<byte>, adler: nat, sum2: nat)
  {
    adler == Sum1(s1, part) && sum2 == Sum2(s1, s2, part)
  }

  /** {adler += b; sum2 += adler;} in 32-bit arithmetic, which does not wrap within a block. */
  method AddByte(ghost s1: nat, ghost s2: nat, buf: seq<byte>, ghost from: nat, i: nat, adler: nat, sum2: nat)
    returns (adler': nat, sum2': nat)
    requires s1 < 0x1_0000 && s2 < 0x1_0000 && from <= i < |buf| && i < from + NMAX
    requires Summed(s1, s2, buf[from..i], adler, sum2)
    ensures Summed(s1, s2, buf[from..i + 1], adler', sum2')
    ensures adler' < TWO_TO_32 && sum2' < TWO_TO_32
  {
    ghost var part := buf[from..i + 1];
    assert part[..|part| - 1] == buf[from..i] && part[|part| - 1] == buf[i];
    BlockFits(s1, s2, part);
    adler' := Word32(adler + buf[i]);
    sum2' := Word32(sum2 + adler');
  }

  /** DO16 */
  method Add16(ghost s1: nat, ghost s2: nat, buf: seq<byte>, ghost from: nat, i: nat, adler: nat, sum2: nat)
    returns (adler': nat, sum2': nat)
    requires s1 < 0x1_0000 && s2 < 0x1_0000 && from <= i && i + 16 <= |buf| && i + 16 <= from + NMAX
    requires Summed(s1, s2, buf[from..i], adler, sum2)
    ensures Summed(s1, s2, buf[from..i + 16], adler', sum2')
    ensures adler' < TWO_TO_32 && sum2' < TWO_TO_32
  {
    hide Summed;
    adler', sum2' := AddByte(s1, s2, buf, from, i, adler, sum2);
    for k := 1 to 16
      invariant Summed(s1, s2, buf[from..i + k], adler', sum2')
      invariant adler' < TWO_TO_32 && sum2' < TWO_TO_32
    {
      adler', sum2' := AddByte(s1, s2, buf, from, i + k, adler', sum2');
    }
  }

  lemma BlockReduced(s1: nat, s2: nat, buf: seq<byte>, from: nat, i: nat, adler: nat, sum2: nat)
    requires from < i <= |buf| && Summed(s1, s2, buf[from..i], adler, sum2)
    ensures Sums(adler % BASE, sum2 % BASE, buf[i..]) == Sums(s1, s2, buf[from..])
  {
    ReduceAtEnd(s1, s2, buf[from..i]);
    assert buf[from..] == buf[from..i] + buf[i..];
    SumsConcat(s1, s2, buf[from..i], buf[i..]);
  }

  /** When the code's result is the reference's: both halves of a checksum are below BASE, so this
      is so for every checksum; a value that is not one is not reduced by fewer than two bytes. */
  predicate Reducible(s1: nat, s2: nat, buf: seq<byte>)
  {
    && (|buf| == 0 ==> s1 < BASE && s2 < BASE)
    && (|buf| == 1 ==> s2 + (s1 + buf[0]) % BASE < 2 * BASE)
  }

  /** The two sums are right modulo BASE, and reduced as the reference's are exactly when `Reducible`. */
  ghost predicate SumsRight(s1: nat, s2: nat, buf: seq<byte>, adler: nat, sum2: nat)
  {
    var s := Sums(s1, s2, buf);
    && adler < 0x1_0000 && sum2 < 0x1_0000
    && adler % BASE == s.0 % BASE && sum2 % BASE == s.1 % BASE
    && (adler == s.0 && sum2 == s.1 <==> Reducible(s1, s2, buf))
  }

  method Adler32Z(start: nat, buffer: Option<seq<byte>>, noDivide: bool) returns (r: nat)
    requires start < TWO_TO_32
    ensures buffer == None ==> r == 1
    ensures buffer.Some? ==> (r == Adler(start, buffer.value) <==> Reducible(Low(start), High(start), buffer.value))
    ensures buffer.Some? ==> Low(r) % BASE == Sums(Low(start), High(start), buffer.value).0 % BASE
    ensures buffer.Some? ==> High(r) % BASE == Sums(Low(start), High(start), buffer.value).1 % BASE
  {
    if buffer == None {
      return 1;
    }
    PartsRange(start);
    hide Sums, Low, High, Pack, Adler, Reducible;
    var buf := buffer.value;
    var adler, sum2;
    if |buf| == 1 {
      adler, sum2 := OneByte(buf, Low(start), High(start));
    } else if |buf| < 16 {
      adler, sum2 := ShortSums(buf, Low(start), High(start), noDivide);
    } else {
      adler, sum2 := LongSums(buf, Low(start), High(start), noDivide);
    }
    r := Pack(adler, sum2);
    SameOrNot(start, buf, adler, sum2);
  }

  /** The packed result is the reference's exactly when both sums are. */
  lemma SameOrNot(start: nat, buf: seq<byte>, adler: nat, sum2: nat)
    requires adler < 0x1_0000 && sum2 < 0x1_0000
    ensures var s := Sums(Low(start), High(start), buf);
      && (Pack(adler, sum2) == Adler(start, buf) <==> adler == s.0 && sum2 == s.1)
      && Low(Pack(adler, sum2)) == adler && High(Pack(adler, sum2)) == sum2
  {
    hide Sums, Low, High, Pack;
    var s := Sums(Low(start), High(start), buf);
    PartsRange(start);
    SumsRange(Low(start), High(start), buf);
    PackParts(adler, sum2);
    PackParts(s.0, s.1);
    ModSmall(s.0);
  }

  lemma {:induction false} SumsRange(s1: nat, s2: nat, buf: seq<byte>)
    requires s1 < 0x1_0000 && s2 < 0x1_0000
    ensures Sums(s1, s2, buf).0 < 0x1_0000 && Sums(s1, s2, buf).1 < 0x1_0000
    ensures buf != [] ==> Sums(s1, s2, buf).0 < BASE && Sums(s1, s2, buf).1 < BASE
    ensures buf == [] ==> Sums(s1, s2, buf) == (s1, s2)
  {
    ReduceAtEnd(s1, s2, buf);
  }

  /** From 16 bytes on: a reduction for every NMAX bytes, and one for the rest. */
  method LongSums(buf: seq<byte>, s1: nat, s2: nat, noDivide: bool) returns (adler: nat, sum2: nat)
    requires s1 < 0x1_0000 && s2 < 0x1_0000 && |buf| >= 16
    ensures SumsRight(s1, s2, buf, adler, sum2)
  {
    adler, sum2 := s1, s2;
    var i := 0;
    assert buf[0..] == buf;
    while |buf| - i >= NMAX
      invariant 0 <= i <= |buf| && adler < 0x1_0000 && sum2 < 0x1_0000
      invariant i > 0 ==> adler < BASE && sum2 < BASE
      invariant Sums(adler, sum2, buf[i..]) == Sums(s1, s2, buf)
      decreases |buf| - i
    {
      adler, sum2 := SumBlock(buf, i, adler, sum2, noDivide);
      i := i + NMAX;
    }
    if i < |buf| {
      adler, sum2 := SumRest(buf, i, adler, sum2, noDivide);
    } else {
      assert buf[i..] == [];
    }
    assert (adler, sum2) == Sums(s1, s2, buf);
  }

  lemma PackParts(s1: nat, s2: nat)
    requires s1 < 0x1_0000 && s2 < 0x1_0000
    ensures Low(Pack(s1, s2)) == s1 && High(Pack(s1, s2)) == s2
  {}

  /** A block of NMAX bytes, with one reduction at its end. */
  method SumBlock(buf: seq<byte>, from: nat, s1: nat, s2: nat, noDivide: bool) returns (adler: nat, sum2: nat)
    requires s1 < 0x1_0000 && s2 < 0x1_0000 && from + NMAX <= |buf|
    ensures adler < BASE && sum2 < BASE
    ensures Sums(adler, sum2, buf[from + NMAX..]) == Sums(s1, s2, buf[from..])
  {
    adler, sum2 := s1, s2;
    var i := from;
    var n := NMAX / 16;
    assert buf[from..i] == [];
    while n > 0
      invariant 0 <= n <= NMAX / 16 && i == from + 16 * (NMAX / 16 - n)
      invariant Summed(s1, s2, buf[from..i], adler, sum2) && adler < TWO_TO_32 && sum2 < TWO_TO_32
    {
      adler, sum2 := Add16(s1, s2, buf, from, i, adler, sum2);
      i := i + 16;
      n := n - 1;
    }
    BlockReduced(s1, s2, buf, from, i, adler, sum2);
    adler := Reduce(adler, noDivide);
    sum2 := Reduce(sum2, noDivide);
  }

  /** The last bytes, fewer than NMAX. */
  method SumRest(buf: seq<byte>, from: nat, s1: nat, s2: nat, noDivide: bool) returns (adler: nat, sum2: nat)
    requires s1 < 0x1_0000 && s2 < 0x1_0000 && from < |buf| < from + NMAX
    ensures adler < BASE && sum2 < BASE
    ensures (adler, sum2) == Sums(s1, s2, buf[from..])
  {
    adler, sum2 := s1, s2;
    var i := from;
    assert buf[from..i] == [];
    while |buf| - i >= 16
      invariant from <= i <= |buf| && adler < TWO_TO_32 && sum2 < TWO_TO_32
      invariant Summed(s1, s2, buf[from..i], adler, sum2)
      decreases |buf| - i
    {
      adler, sum2 := Add16(s1, s2, buf, from, i, adler, sum2);
      i := i + 16;
    }
    while i < |buf|
      invariant from <= i <= |buf| && adler < TWO_TO_32 && sum2 < TWO_TO_32
      invariant Summed(s1, s2, buf[from..i], adler, sum2)
    {
      adler, sum2 := AddByte(s1, s2, buf, from, i, adler, sum2);
      i := i + 1;
    }
    BlockReduced(s1, s2, buf, from, i, adler, sum2);
    assert buf[i..] == [];
    adler := Reduce(adler, noDivide);
    sum2 := Reduce(sum2, noDivide);
  }

  /** Fewer than 16 bytes: the first sum needs one subtraction, the second the short reduction. */
  method ShortSums(buf: seq<byte>, s1: nat, s2: nat, noDivide: bool) returns (adler: nat, sum2: nat)
    requires s1 < 0x1_0000 && s2 < 0x1_0000 && |buf| < 16
    requires |buf| != 1
    ensures SumsRight(s1, s2, buf, adler, sum2)
  {
    adler, sum2 := s1, s2;
    var i := 0;
    assert buf[0..0] == [];
    while i < |buf|
      invariant 0 <= i <= |buf| && adler < TWO_TO_32 && sum2 < TWO_TO_32
      invariant Summed(s1, s2, buf[0..i], adler, sum2)
    {
      adler, sum2 := AddByte(s1, s2, buf, 0, i, adler, sum2);
      i := i + 1;
    }
    assert buf[0..i] == buf;
    ReduceAtEnd(s1, s2, buf);
    ShortBounds(s1, s2, buf);
    SumsRange(s1, s2, buf);
    hide Sums, Sum1, Sum2;
    adler := TakeBase(adler);
    sum2 := Reduce28(sum2, noDivide);
    if buf != [] {
      assert (adler, sum2) == Sums(s1, s2, buf);
    }
  }

  lemma ShortBounds(s1: nat, s2: nat, buf: seq<byte>)
    requires s1 < 0x1_0000 && s2 < 0x1_0000 && |buf| < 16
    ensures Sum1(s1, buf) < 2 * BASE && Sum2(s1, s2, buf) < 0x1000_0000
    ensures buf == [] ==> Sum1(s1, buf) == s1 && Sum2(s1, s2, buf) == s2
  {
    SumBoundsUpTo(s1, s2, buf, 15);
  }

  /** A single byte: one subtraction each, which for the second sum may not be enough. */
  method OneByte(buf: seq<byte>, s1: nat, s2: nat) returns (adler: nat, sum2: nat)
    requires s1 < 0x1_0000 && s2 < 0x1_0000 && |buf| == 1
    ensures SumsRight(s1, s2, buf, adler, sum2)
  {
    assert buf[1..] == [];
    adler := TakeBase(s1 + buf[0]);
    assert adler == (s1 + buf[0]) % BASE;
    sum2 := TakeBase(s2 + adler);
    assert Sums(s1, s2, buf) == (adler, (s2 + adler) % BASE);
    hide Sums;
    assert sum2 % BASE == (s2 + adler) % BASE == (s2 + adler) % BASE % BASE;
    assert sum2 == (s2 + adler) % BASE <==> s2 + adler < 2 * BASE;
  }

  // ---- adler32_combine_ ----

  lemma {:induction false} Sum1Concat(s1: nat, a: seq<byte>, b: seq<byte>)
    ensures Sum1(s1, a + b) == Sum1(Sum1(s1, a), b)
    decreases |b|
  {
    if b == [] {
      assert a + b == a;
    } else {
      assert (a + b)[..|a + b| - 1] == a + b[..|b| - 1];
      Sum1Concat(s1, a, b[..|b| - 1]);
    }
  }

  lemma {:induction false} Sum2Concat(s1: nat, s2: nat, a: seq<byte>, b: seq<byte>)
    ensures Sum2(s1, s2, a + b) == Sum2(Sum1(s1, a), Sum2(s1, s2, a), b)
    decreases |b|
  {
    if b == [] {
      assert a + b == a;
    } else {
      assert (a + b)[..|a + b| - 1] == a + b[..|b| - 1];
      Sum2Concat(s1, s2, a, b[..|b| - 1]);
      Sum1Concat(s1, a, b);
    }
  }

  /** How the sums depend on their start values. */
  lemma {:induction false} SumsFromStart(s1: nat, s2: nat, b: seq<byte>)
    ensures Sum1(s1, b) == Sum1(1, b) + s1 - 1
    ensures Sum2(s1, s2, b) == Sum2(1, 0, b) + s2 + |b| * (s1 - 1)
    decreases |b|
  {
    if b != [] {
      var n := |b| - 1;
      SumsFromStart(s1, s2, b[..n]);
      assert (n + 1) * (s1 - 1) == n * (s1 - 1) + (s1 - 1);
    }
  }

  lemma SumsOfConcat(a: seq<byte>, b: seq<byte>)
    ensures Sum1(1, a + b) == Sum1(1, a) + Sum1(1, b) - 1
    ensures Sum2(1, 0, a + b) == Sum2(1, 0, a) + Sum2(1, 0, b) + |b| * (Sum1(1, a) - 1)
  {
    Sum1Concat(1, a, b);
    Sum2Concat(1, 0, a, b);
    SumsFromStart(Sum1(1, a), Sum2(1, 0, a), b);
  }

  lemma AdlerParts(a: seq<byte>)
    ensures Low(Adler(1, a)) == Sum1(1, a) % BASE && High(Adler(1, a)) == Sum2(1, 0, a) % BASE
    ensures Adler(1, a) == Pack(Sum1(1, a) % BASE, Sum2(1, 0, a) % BASE)
  {
    assert Low(1) == 1 && High(1) == 0;
    ReduceAtEnd(1, 0, a);
    assert Sums(1, 0, a) == (Sum1(1, a) % BASE, Sum2(1, 0, a) % BASE);
    hide Sums, Sum1, Sum2, Low, High, Pack;
    PackParts(Sum1(1, a) % BASE, Sum2(1, 0, a) % BASE);
    ModSmall(Sum1(1, a) % BASE);
  }

  lemma ModSmall(x: nat)
    requires x < 0x1_0000
    ensures x % 0x1_0000 == x
  {}

  lemma Congruent(x: int, y: int, k: int)
    requires x == y + k * BASE
    ensures x % BASE == y % BASE
  {
    if k >= 0 {
      ModAddMultiple(y, k);
    } else {
      assert y == x + (-k) * BASE;
      ModAddMultiple(x, -k);
    }
  }

  /** The sums of a concatenation, computed from reduced parts, are congruent to the true ones. */
  lemma CombineCongruent(sa1: nat, sa2: nat, sb1: nat, sb2: nat, n: nat)
    ensures (sa1 % BASE + sb1 % BASE - 1) % BASE == (sa1 + sb1 - 1) % BASE
    ensures (n % BASE * (sa1 % BASE) + sa2 % BASE + sb2 % BASE - n % BASE) % BASE == (sa2 + sb2 + n * (sa1 - 1)) % BASE
  {
    Congruent(sa1 + sb1 - 1, sa1 % BASE + sb1 % BASE - 1, sa1 / BASE + sb1 / BASE);
    var qn, rem, q, r := n / BASE, n % BASE, sa1 / BASE, sa1 % BASE;
    assert n * (sa1 - 1) == rem * r - rem + (qn * (sa1 - 1) + rem * q) * BASE by {
      assert n * (sa1 - 1) == (qn * BASE + rem) * (sa1 - 1) == qn * BASE * (sa1 - 1) + rem * (sa1 - 1);
      assert rem * (sa1 - 1) == rem * (q * BASE + r - 1) == rem * (q * BASE) + rem * r - rem;
      assert qn * BASE * (sa1 - 1) == qn * (sa1 - 1) * BASE;
      assert rem * (q * BASE) == rem * q * BASE;
    }
    var k := qn * (sa1 - 1) + rem * q;
    assert sa2 + sb2 + n * (sa1 - 1) == rem * r + sa2 % BASE + sb2 % BASE - rem + (k + sa2 / BASE + sb2 / BASE) * BASE;
    Congruent(sa2 + sb2 + n * (sa1 - 1), rem * r + sa2 % BASE + sb2 % BASE - rem, k + sa2 / BASE + sb2 / BASE);
  }

  /** The checksum of any concatenation, from the pieces' checksums and the second one's length. */
  method Combine(adler1: nat, adler2: nat, length2: int, noDivide: bool) returns (r: nat)
    requires adler1 < TWO_TO_32 && adler2 < TWO_TO_32 && length2 < 0x8000_0000_0000_0000
    ensures length2 < 0 ==> r == 0xffff_ffff
    ensures forall a, b | adler1 == Adler(1, a) && adler2 == Adler(1, b) && length2 == |b| :: r == Adler(1, a + b)
  {
    if length2 < 0 {
      return 0xffff_ffff;
    }
    hide Low, High, Pack, TakeBase, Mod63, Word32;
    var sum1, sum2 := Low(adler1), 0;
    PartsRange(adler1);
    var rem, product := RemainderTimes(length2, sum1, noDivide);
    sum1 := sum1 + Low(adler2) + BASE - 1;
    sum2 := product + High(adler1) + High(adler2) + BASE - rem;
    LastReductions(sum1, sum2);
    ghost var t1, t2 := sum1, sum2;
    sum1 := TakeBase(TakeBase(sum1));
    sum2 := TakeBase(if sum2 >= 2 * BASE then sum2 - 2 * BASE else sum2);
    r := Pack(sum1 % 0x1_0000, sum2);
    forall a: seq<byte>, b: seq<byte> | adler1 == Adler(1, a) && adler2 == Adler(1, b) && length2 == |b|
      ensures r == Adler(1, a + b)
    {
      CombineParts(a, b, sum1, sum2, t1, t2, product);
    }
  }

  lemma PartsRange(adler: nat)
    ensures Low(adler) < 0x1_0000 && High(adler) < 0x1_0000
  {}

  /** rem = len2 mod BASE, and sum2 = rem * sum1 mod BASE, which does not wrap in 32 bits. */
  method RemainderTimes(len2: nat, sum1: nat, noDivide: bool) returns (rem: nat, product: nat)
    requires len2 < 0x8000_0000_0000_0000 && sum1 < 0x1_0000
    ensures rem == len2 % BASE && product == rem * sum1 % BASE
  {
    Mod63Exact(len2);
    hide Mod63;
    rem := if noDivide then Mod63(len2) else len2 % BASE;
    ProductFits(rem, sum1);
    product := Reduce(Word32(rem * sum1), noDivide);
  }

  lemma ProductFits(rem: nat, sum1: nat)
    requires rem < BASE && sum1 < 0x1_0000
    ensures 0 <= rem * sum1 < TWO_TO_32 && Word32(rem * sum1) == rem * sum1
  {
    MulLe(rem, 65520, sum1, 65535);
    MulLe(0, rem, 0, sum1);
  }

  lemma LastReductions(t1: nat, t2: nat)
    ensures t1 < 3 * BASE ==> TakeBase(TakeBase(t1)) == t1 % BASE
    ensures t2 < 4 * BASE ==> TakeBase(if t2 >= 2 * BASE then t2 - 2 * BASE else t2) == t2 % BASE
  {}

  lemma CombineParts(a: seq<byte>, b: seq<byte>, sum1: nat, sum2: nat, t1: nat, t2: nat, product: nat)
    requires var n := |b| % BASE; var x, y := Adler(1, a), Adler(1, b);
      && product == n * Low(x) % BASE
      && t1 == Low(x) + Low(y) + BASE - 1 && t2 == product + High(x) + High(y) + BASE - n
    requires t1 < 3 * BASE ==> sum1 == t1 % BASE
    requires t2 < 4 * BASE ==> sum2 == t2 % BASE
    ensures Pack(sum1 % 0x1_0000, sum2) == Adler(1, a + b)
  {
    AdlerParts(a);
    AdlerParts(b);
    AdlerParts(a + b);
    SumsOfConcat(a, b);
    var n := |b|;
    hide Sum1, Sum2, Adler, Low, High, Pack;
    CombineReduced(Sum1(1, a), Sum2(1, 0, a), Sum1(1, b), Sum2(1, 0, b), n, t1, t2);
    ModSmall(sum1);
  }

  lemma CombineReduced(sa1: nat, sa2: nat, sb1: nat, sb2: nat, n: nat, t1: int, t2: int)
    requires t1 == sa1 % BASE + sb1 % BASE + BASE - 1
    requires t2 == n % BASE * (sa1 % BASE) % BASE + sa2 % BASE + sb2 % BASE + BASE - n % BASE
    ensures 0 <= t1 < 3 * BASE && t1 % BASE == (sa1 + sb1 - 1) % BASE
    ensures 0 <= t2 < 4 * BASE && t2 % BASE == (sa2 + sb2 + n * (sa1 - 1)) % BASE
  {
    CombineCongruent(sa1, sa2, sb1, sb2, n);
    Congruent(t1, sa1 % BASE + sb1 % BASE - 1, 1);
    var p, r, x, y := n % BASE * (sa1 % BASE), n % BASE, sa2 % BASE, sb2 % BASE;
    assert p >= 0 by { MulLe(0, n % BASE, 0, sa1 % BASE); }
    Congruent(p + x + y - r, t2, p / BASE - 1);
  }
}
