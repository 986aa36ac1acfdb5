/** Polynomials over GF(2), 32-bit words as such polynomials, and the shift register that
    divides by the CRC-32 polynomial.

    A polynomial is the set of the exponents whose coefficient is one, so that adding is the
    symmetric difference. A word holds a polynomial of degree below 32 with the lowest power in
    its most significant bit, as crc32.c does. */
module Gf2 {

  // ---- Word operations ----
  // They are named so that the proofs below can hide the bit-vector operations behind them.

  function Xor(a: bv32, b: bv32): bv32 { a ^ b }

  function Shr(a: bv32): bv32 { a >> 1 }

  function Shl(a: bv32): bv32 { a << 1 }

  predicate Low(a: bv32) { a & 1 == 1 }

  function FromBit(b: bool): bv32 { if b then 1 else 0 }

  lemma XorAlgebra(a: bv32, b: bv32, c: bv32)
    ensures Xor(Xor(a, b), c) == Xor(a, Xor(b, c)) == Xor(b, Xor(a, c))
    ensures Xor(Xor(a, b), Xor(a, c)) == Xor(b, c)
    ensures Xor(a, b) == Xor(b, a)
    ensures Xor(a, a) == 0 && Xor(a, 0) == a && Xor(0, a) == a
  {}

  lemma LowXor(a: bv32, b: bv32)
    ensures Low(Xor(a, b)) == (Low(a) != Low(b))
  {
    LowIsZeroOrOne(a);
    LowIsZeroOrOne(b);
    assert (a ^ b) & 1 == (a & 1) ^ (b & 1);
    if a & 1 == 1 {
      assert b & 1 == 1 ==> (a & 1) ^ (b & 1) == 0;
      assert b & 1 == 0 ==> (a & 1) ^ (b & 1) == 1;
    } else {
      assert (a & 1) ^ (b & 1) == b & 1;
    }
  }

  lemma LowIsZeroOrOne(a: bv32)
    ensures a & 1 == 1 || a & 1 == 0
  {}

  lemma XorShifts(a: bv32, b: bv32)
    ensures Shr(Xor(a, b)) == Xor(Shr(a), Shr(b))
    ensures Shl(Xor(a, b)) == Xor(Shl(a), Shl(b))
  {}

  lemma SplitLow(a: bv32)
    ensures a == Xor(FromBit(Low(a)), Shl(Shr(a)))
  {
    assert a & 1 == 1 || a & 1 == 0;
    assert a == (a & 1) ^ ((a >> 1) << 1);
  }

  function ShiftRight(v: bv32, n: nat): bv32
    decreases n
  {
    if n == 0 then v else ShiftRight(Shr(v), n - 1)
  }

  function ShiftLeft(v: bv32, n: nat): bv32
    decreases n
  {
    if n == 0 then v else ShiftLeft(Shl(v), n - 1)
  }

  predicate Bit(v: bv32, n: nat) { Low(ShiftRight(v, n)) }

  lemma {:induction false} ShiftRightXor(a: bv32, b: bv32, n: nat)
    ensures ShiftRight(Xor(a, b), n) == Xor(ShiftRight(a, n), ShiftRight(b, n))
    decreases n
  {
    hide Xor, Shr;
    if n > 0 {
      XorShifts(a, b);
      ShiftRightXor(Shr(a), Shr(b), n - 1);
    }
  }

  lemma {:induction false} ShiftLeftXor(a: bv32, b: bv32, n: nat)
    ensures ShiftLeft(Xor(a, b), n) == Xor(ShiftLeft(a, n), ShiftLeft(b, n))
    decreases n
  {
    hide Xor, Shl;
    if n > 0 {
      XorShifts(a, b);
      ShiftLeftXor(Shl(a), Shl(b), n - 1);
    }
  }

  lemma BitXor(a: bv32, b: bv32, n: nat)
    ensures Bit(Xor(a, b), n) == (Bit(a, n) != Bit(b, n))
  {
    hide Xor, Low, ShiftRight;
    ShiftRightXor(a, b, n);
    LowXor(ShiftRight(a, n), ShiftRight(b, n));
  }

  lemma {:induction false} ShiftRightAdd(v: bv32, m: nat, n: nat)
    ensures ShiftRight(v, m + n) == ShiftRight(ShiftRight(v, m), n)
    decreases m
  {
    hide Shr;
    if m > 0 { ShiftRightAdd(Shr(v), m - 1, n); }
  }

  lemma FourBits(v: bv32, n: nat, w: bv32)
    requires ShiftRight(v, n) == w
    ensures ShiftRight(v, n + 1) == Shr(w) && ShiftRight(v, n + 2) == Shr(Shr(w))
    ensures ShiftRight(v, n + 3) == Shr(Shr(Shr(w))) && ShiftRight(v, n + 4) == Shr(Shr(Shr(Shr(w))))
  {
    hide Shr;
    ShiftRightAdd(v, n, 1);
    ShiftRightAdd(v, n + 1, 1);
    ShiftRightAdd(v, n + 2, 1);
    ShiftRightAdd(v, n + 3, 1);
  }

  lemma ShrShr(v: bv32)
    ensures Shr(Shr(Shr(Shr(Shr(Shr(Shr(Shr(v)))))))) == v >> 8
  {}

  lemma ShiftRight8(v: bv32)
    ensures ShiftRight(v, 8) == v >> 8
  {
    hide Shr;
    FourBits(v, 0, v);
    FourBits(v, 4, ShiftRight(v, 4));
    ShrShr(v);
  }

  /** Nothing is left of a word after 32 shifts. */
  lemma ShiftRight32(v: bv32)
    ensures ShiftRight(v, 32) == 0
  {
    hide Shr, ShiftRight;
    ShiftRightAdd(v, 8, 24);
    ShiftRightAdd(v >> 8, 8, 16);
    ShiftRightAdd(v >> 8 >> 8, 8, 8);
    ShiftRight8(v);
    ShiftRight8(v >> 8);
    ShiftRight8(v >> 8 >> 8);
    ShiftRight8(v >> 8 >> 8 >> 8);
  }

  // ---- The shift register ----

  const POLYNOMIAL: bv32 := 0xedb88320

  /** Multiplies by x modulo P: the bit shifted out brings P's low terms in. */
  function ShiftBit(c: bv32): bv32 { if Low(c) then Xor(POLYNOMIAL, Shr(c)) else Shr(c) }

  function ShiftBits(c: bv32, n: nat): bv32
    decreases n
  {
    if n == 0 then c else ShiftBits(ShiftBit(c), n - 1)
  }

  /** One message bit into the register. */
  function FeedBit(c: bv32, bit: bool): bv32 { ShiftBit(Xor(c, FromBit(bit))) }

  function FeedBits(c: bv32, bits: seq<bool>): bv32
    decreases |bits|
  {
    if bits == [] then c else FeedBits(FeedBit(c, bits[0]), bits[1..])
  }

  lemma ShiftBitXor(a: bv32, b: bv32)
    ensures ShiftBit(Xor(a, b)) == Xor(ShiftBit(a), ShiftBit(b))
  {
    hide Xor, Shr, Low;
    XorShifts(a, b);
    LowXor(a, b);
    XorAlgebra(POLYNOMIAL, Shr(a), Shr(b));
    XorAlgebra(Shr(a), POLYNOMIAL, Shr(b));
  }

  lemma {:induction false} ShiftBitsXor(a: bv32, b: bv32, n: nat)
    ensures ShiftBits(Xor(a, b), n) == Xor(ShiftBits(a, n), ShiftBits(b, n))
    decreases n
  {
    hide Xor, ShiftBit;
    if n > 0 {
      ShiftBitXor(a, b);
      ShiftBitsXor(ShiftBit(a), ShiftBit(b), n - 1);
    }
  }

  lemma {:induction false} ShiftBitsAdd(c: bv32, m: nat, n: nat)
    ensures ShiftBits(c, m + n) == ShiftBits(ShiftBits(c, m), n)
    decreases m
  {
    hide ShiftBit;
    if m > 0 { ShiftBitsAdd(ShiftBit(c), m - 1, n); }
  }

  lemma {:induction false} FeedBitsConcat(c: bv32, s: seq<bool>, t: seq<bool>)
    ensures FeedBits(c, s + t) == FeedBits(FeedBits(c, s), t)
    decreases |s|
  {
    hide FeedBit;
    if s == [] {
      assert s + t == t;
    } else {
      assert (s + t)[1..] == s[1..] + t;
      FeedBitsConcat(FeedBit(c, s[0]), s[1..], t);
    }
  }

  /** Feeding bits is affine: the start value is only shifted along. */
  lemma {:induction false} FeedBitsAffine(a: bv32, b: bv32, bits: seq<bool>)
    ensures FeedBits(Xor(a, b), bits) == Xor(ShiftBits(a, |bits|), FeedBits(b, bits))
    decreases |bits|
  {
    hide Xor, ShiftBit, FromBit;
    if bits != [] {
      var d := FromBit(bits[0]);
      XorAlgebra(a, b, d);
      ShiftBitXor(a, Xor(b, d));
      FeedBitsAffine(ShiftBit(a), FeedBit(b, bits[0]), bits[1..]);
    }
  }

  // ---- The register is the remainder of a division by P ----

  type Poly = set<nat>

  /** x^32+x^26+x^23+x^22+x^16+x^12+x^11+x^10+x^8+x^7+x^5+x^4+x^2+x+1 */
  const P: Poly := {32, 26, 23, 22, 16, 12, 11, 10, 8, 7, 5, 4, 2, 1, 0}

  function Add(a: Poly, b: Poly): Poly { (a - b) + (b - a) }

  function TimesX(a: Poly): Poly { set e | e in a :: e + 1 }

  function TimesXn(a: Poly, n: nat): Poly { set e | e in a :: e + n }

  /** The product of `a` with the polynomial whose coefficients are `bits`, highest power first. */
  function Product(bits: seq<bool>, a: Poly): Poly
  {
    if bits == [] then {}
    else
      var n := |bits| - 1;
      Add(TimesX(Product(bits[..n], a)), if bits[n] then a else {})
  }

  predicate Coefficient(v: bv32, e: nat) { e < 32 && Bit(v, 31 - e) }

  function PolyOf(v: bv32): Poly { set e: nat | e < 32 && Coefficient(v, e) }

  lemma TimesXAdd(a: Poly, b: Poly)
    ensures TimesX(Add(a, b)) == Add(TimesX(a), TimesX(b))
  {
    forall e | e in Add(TimesX(a), TimesX(b)) ensures e in TimesX(Add(a, b)) {
      assert e > 0 && e - 1 in Add(a, b);
    }
  }

  lemma TimesXnFacts(a: Poly, b: Poly, n: nat)
    ensures TimesXn(Add(a, b), n) == Add(TimesXn(a, n), TimesXn(b, n))
    ensures TimesXn(TimesX(a), n) == TimesX(TimesXn(a, n))
    ensures TimesXn({0}, n) == {n}
    ensures TimesXn({}, n) == {}
  {
    forall e | e in Add(TimesXn(a, n), TimesXn(b, n)) ensures e in TimesXn(Add(a, b), n) {
      assert e >= n && e - n in Add(a, b);
    }
    forall e | e in TimesX(TimesXn(a, n)) ensures e in TimesXn(TimesX(a), n) {
      assert e - 1 - n + 1 in TimesX(a);
    }
    forall e | e in TimesXn(TimesX(a), n) ensures e in TimesX(TimesXn(a, n)) {
      assert e - n in TimesX(a) && e - n - 1 in a;
      assert e - 1 in TimesXn(a, n);
    }
    assert 0 in {0};
  }

  lemma NibbleBits(n: nat, w: bv32)
    requires ShiftRight(POLYNOMIAL, n) == w
    ensures Bit(POLYNOMIAL, n) == (w & 1 == 1) && Bit(POLYNOMIAL, n + 1) == ((w >> 1) & 1 == 1)
    ensures Bit(POLYNOMIAL, n + 2) == ((w >> 2) & 1 == 1) && Bit(POLYNOMIAL, n + 3) == ((w >> 3) & 1 == 1)
    ensures ShiftRight(POLYNOMIAL, n + 4) == w >> 4
  {
    hide ShiftRight;
    FourBits(POLYNOMIAL, n, w);
  }

  lemma PolynomialNibbles()
    ensures !Bit(POLYNOMIAL, 0) && !Bit(POLYNOMIAL, 1) && !Bit(POLYNOMIAL, 2) && !Bit(POLYNOMIAL, 3)
    ensures !Bit(POLYNOMIAL, 4) && Bit(POLYNOMIAL, 5) && !Bit(POLYNOMIAL, 6) && !Bit(POLYNOMIAL, 7)
    ensures Bit(POLYNOMIAL, 8) && Bit(POLYNOMIAL, 9) && !Bit(POLYNOMIAL, 10) && !Bit(POLYNOMIAL, 11)
    ensures !Bit(POLYNOMIAL, 12) && !Bit(POLYNOMIAL, 13) && !Bit(POLYNOMIAL, 14) && Bit(POLYNOMIAL, 15)
    ensures !Bit(POLYNOMIAL, 16) && !Bit(POLYNOMIAL, 17) && !Bit(POLYNOMIAL, 18) && Bit(POLYNOMIAL, 19)
    ensures Bit(POLYNOMIAL, 20) && Bit(POLYNOMIAL, 21) && !Bit(POLYNOMIAL, 22) && Bit(POLYNOMIAL, 23)
    ensures Bit(POLYNOMIAL, 24) && !Bit(POLYNOMIAL, 25) && Bit(POLYNOMIAL, 26) && Bit(POLYNOMIAL, 27)
    ensures !Bit(POLYNOMIAL, 28) && Bit(POLYNOMIAL, 29) && Bit(POLYNOMIAL, 30) && Bit(POLYNOMIAL, 31)
  {
    assert ShiftRight(POLYNOMIAL, 0) == 0xedb88320;
    hide ShiftRight, Bit;
    NibbleBits(0, 0xedb88320);
    NibbleBits(4, 0xedb8832);
    NibbleBits(8, 0xedb883);
    NibbleBits(12, 0xedb88);
    NibbleBits(16, 0xedb8);
    NibbleBits(20, 0xedb);
    NibbleBits(24, 0xed);
    NibbleBits(28, 0xe);
  }

  /** The exponents of P below 32 are the one bits of the constant, lowest power in the top bit. */
  lemma PolynomialBits()
    ensures PolyOf(POLYNOMIAL) == P - {32}
  {
    hide Bit;
    PolynomialNibbles();
    forall e: nat | e < 32 ensures Coefficient(POLYNOMIAL, e) <==> e in P {
      if e < 8 {
        assert e == 0 || e == 1 || e == 2 || e == 3 || e == 4 || e == 5 || e == 6 || e == 7;
      } else if e < 16 {
        assert e == 8 || e == 9 || e == 10 || e == 11 || e == 12 || e == 13 || e == 14 || e == 15;
      } else if e < 24 {
        assert e == 16 || e == 17 || e == 18 || e == 19 || e == 20 || e == 21 || e == 22 || e == 23;
      } else {
        assert e == 24 || e == 25 || e == 26 || e == 27 || e == 28 || e == 29 || e == 30 || e == 31;
      }
    }
  }

  lemma PolyOfXor(a: bv32, b: bv32)
    ensures PolyOf(Xor(a, b)) == Add(PolyOf(a), PolyOf(b))
  {
    hide Xor, Bit;
    forall e: nat | e < 32 ensures Coefficient(Xor(a, b), e) == (Coefficient(a, e) != Coefficient(b, e)) {
      BitXor(a, b, 31 - e);
    }
  }

  lemma PolyOfShr(c: bv32)
    ensures TimesX(PolyOf(c)) == PolyOf(Shr(c)) + (if Low(c) then {32} else {})
  {
    hide Shr, Low;
    assert Low(c) == Coefficient(c, 31);
    forall e: nat | e < 32 ensures Coefficient(Shr(c), e) <==> e in TimesX(PolyOf(c)) {
      if e == 0 {
        ShiftRightAdd(c, 1, 31);
        TopBit(c);
      } else {
        assert ShiftRight(Shr(c), 31 - e) == ShiftRight(c, 31 - (e - 1));
        assert Coefficient(Shr(c), e) <==> Coefficient(c, e - 1);
        assert e - 1 in PolyOf(c) <==> Coefficient(c, e - 1);
        assert e - 1 in PolyOf(c) ==> e - 1 + 1 in TimesX(PolyOf(c));
      }
    }
    forall e | e in TimesX(PolyOf(c)) ensures e <= 32 && (e == 32 <==> (e == 32 && Low(c))) {}
    assert Low(c) ==> 31 in PolyOf(c) && 31 + 1 in TimesX(PolyOf(c));
  }

  lemma TopBit(c: bv32)
    ensures !Low(ShiftRight(c, 32))
  {
    ShiftRight32(c);
  }

  /** One step of the register multiplies its polynomial by x and takes P away when x^32 appears. */
  lemma PolyOfShiftBit(c: bv32)
    ensures PolyOf(ShiftBit(c)) == Add(TimesX(PolyOf(c)), if Low(c) then P else {})
  {
    hide Xor, Shr, Low, Bit, Coefficient;
    PolyOfShr(c);
    if Low(c) {
      PolyOfXor(POLYNOMIAL, Shr(c));
      PolynomialBits();
    }
  }

  lemma PolyOfBit(bit: bool)
    ensures PolyOf(FromBit(bit)) == if bit then {31} else {}
  {
    var v := FromBit(bit);
    assert Shr(v) == 0;
    forall e: nat | e < 32 ensures Coefficient(v, e) <==> bit && e == 31 {
      if e < 31 {
        assert ShiftRight(v, 31 - e) == ShiftRight(0, 30 - e);
        ZeroShifts(30 - e);
      }
    }
  }

  lemma {:induction false} ZeroShifts(n: nat)
    ensures ShiftRight(0, n) == 0
  {
    if n > 0 { ZeroShifts(n - 1); }
  }

  /** The register, started at zero, ends as the remainder of the message times x^32 divided by P;
      `q` are the quotient's coefficients. */
  lemma {:induction false} RegisterDivides(bits: seq<bool>) returns (q: seq<bool>)
    ensures TimesXn(Product(bits, {0}), 32) == Add(Product(q, P), PolyOf(FeedBits(0, bits)))
    decreases |bits|
  {
    hide ShiftBit, Xor, FromBit, PolyOf, Low;
    if bits == [] {
      q := [];
      PolyOfBit(false);
      assert FromBit(false) == 0 by { NoBit(); }
    } else {
      var n := |bits| - 1;
      var b := bits[n];
      var c := FeedBits(0, bits[..n]);
      var q0 := RegisterDivides(bits[..n]);
      var carry := Low(Xor(c, FromBit(b)));
      q := q0 + [carry];
      assert q[..|q0|] == q0;
      assert FeedBits(0, bits) == FeedBit(c, b) by {
        assert bits == bits[..n] + [b];
        FeedBitsConcat(0, bits[..n], [b]);
      }
      DivisionStep(Product(bits[..n], {0}), Product(q0, P), PolyOf(c), b, carry);
      PolyOfShiftBit(Xor(c, FromBit(b)));
      PolyOfXor(c, FromBit(b));
      PolyOfBit(b);
    }
  }

  lemma NoBit()
    ensures FromBit(false) == 0
  {}

  /** Long division by one more coefficient `b`. */
  lemma DivisionStep(m: Poly, quotient: Poly, r: Poly, b: bool, carry: bool)
    requires TimesXn(m, 32) == Add(quotient, r)
    ensures TimesXn(Add(TimesX(m), if b then {0} else {}), 32)
         == Add(Add(TimesX(quotient), if carry then P else {}),
                Add(TimesX(Add(r, if b then {31} else {})), if carry then P else {}))
  {
    var low: Poly := if b then {31} else {};
    hide P;
    TimesXnFacts(TimesX(m), if b then {0} else {}, 32);
    TimesXnFacts(m, m, 32);
    TimesXAdd(quotient, r);
    TimesXAdd(r, low);
    assert TimesX(low) == TimesXn(if b then {0} else {}, 32);
    AddRegroup(TimesX(quotient), TimesX(r), TimesX(low), if carry then P else {});
  }

  lemma AddRegroup(a: Poly, b: Poly, c: Poly, p: Poly)
    ensures Add(Add(a, b), c) == Add(Add(a, p), Add(Add(b, c), p))
  {}

  ghost predicate DegreeBelow(a: Poly, n: nat) { forall e | e in a :: e < n }

  lemma TakeFactorX(s: Poly, carry: bool)
    requires DegreeBelow(Add(TimesX(s), if carry then P else {}), 32)
    ensures DegreeBelow(s, 32) && (carry ==> s != {})
  {
    assert 32 in P && DegreeBelow(P, 33);
    hide P;
    var total := Add(TimesX(s), if carry then P else {});
    forall e | e in s ensures e < 32 {
      assert e + 1 in TimesX(s);
      assert e + 1 in total || e + 1 in P;
    }
    if carry {
      assert 32 !in total;
      assert 32 in TimesX(s);
    }
  }

  /** No multiple of P has a degree below 32, except zero. */
  lemma {:induction false} MultiplesOfP(q1: seq<bool>, q2: seq<bool>)
    requires DegreeBelow(Add(Product(q1, P), Product(q2, P)), 32)
    ensures Product(q1, P) == Product(q2, P)
    decreases |q1| + |q2|
  {
    hide P, Product;
    if q1 != [] || q2 != [] {
      var c1, r1 := SplitLast(q1);
      var c2, r2 := SplitLast(q2);
      var s := Add(Product(r1, P), Product(r2, P));
      TimesXAdd(Product(r1, P), Product(r2, P));
      TakeFactorX(s, c1 != c2);
      MultiplesOfP(r1, r2);
      assert s == {};
    }
  }

  lemma SplitLast(q: seq<bool>) returns (c: bool, r: seq<bool>)
    ensures Product(q, P) == Add(TimesX(Product(r, P)), if c then P else {})
    ensures |r| <= |q| && (q != [] ==> |r| < |q|)
  {
    if q == [] {
      c, r := false, [];
    } else {
      c, r := q[|q| - 1], q[..|q| - 1];
    }
  }

  /** Quotient and remainder are unique, so the register's value is the remainder. */
  lemma RemainderUnique(q1: seq<bool>, r1: Poly, q2: seq<bool>, r2: Poly)
    requires DegreeBelow(r1, 32) && DegreeBelow(r2, 32)
    requires Add(Product(q1, P), r1) == Add(Product(q2, P), r2)
    ensures r1 == r2
  {
    hide P;
    var p1, p2 := Product(q1, P), Product(q2, P);
    assert Add(p1, p2) == Add(r1, r2);
    MultiplesOfP(q1, q2);
  }
}
