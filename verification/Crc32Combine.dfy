/** crc32_combine_: the checksum of a concatenation from two checksums and the second length.
    Running the register over zero bits is linear over GF(2), so it is a 32 by 32 matrix, held as
    the images of the 32 unit vectors; squaring the matrix doubles the number of zero bits. */
module Crc32Combine {
  import opened Gf2
  import opened Crc32

  const GF2_DIM := 32

  /** The product of a matrix with a vector: the sum of the columns the vector selects. */
  function Apply(mat: seq<bv32>, vec: bv32): bv32
  {
    if mat == [] then 0 else Xor(if Low(vec) then mat[0] else 0, Apply(mat[1..], Shr(vec)))
  }

  function Unit(i: nat): bv32 { ShiftLeft(1, i) }

  /** The matrix runs the register over `zeros` zero bits. */
  ghost predicate RunsZeros(mat: seq<bv32>, zeros: nat)
  {
    |mat| == GF2_DIM && forall i | 0 <= i < GF2_DIM :: mat[i] == ShiftBits(Unit(i), zeros)
  }

  /** A matrix product is linear. */
  lemma {:induction false} ApplyXor(mat: seq<bv32>, a: bv32, b: bv32)
    ensures Apply(mat, Xor(a, b)) == Xor(Apply(mat, a), Apply(mat, b))
    decreases |mat|
  {
    hide Xor, Low, Shr;
    XorAlgebra(0, 0, 0);
    if mat != [] {
      XorShifts(a, b);
      LowXor(a, b);
      ApplyXor(mat[1..], Shr(a), Shr(b));
      var ra, rb := Apply(mat[1..], Shr(a)), Apply(mat[1..], Shr(b));
      XorPairs(mat[0], Low(a), Low(b), ra, rb);
    }
  }

  lemma XorPairs(m: bv32, la: bool, lb: bool, ra: bv32, rb: bv32)
    ensures Xor(if la != lb then m else 0, Xor(ra, rb)) ==
      Xor(Xor(if la then m else 0, ra), Xor(if lb then m else 0, rb))
  {
    hide Xor;
    XorAlgebra(m, ra, rb);
    XorAlgebra(0, ra, rb);
    XorAlgebra(ra, m, rb);
    XorAlgebra(0, Xor(ra, rb), 0);
    XorAlgebra(m, Xor(ra, rb), 0);
    XorAlgebra(ra, rb, 0);
    XorAlgebra(rb, ra, 0);
  }

  ghost predicate Linear(g: bv32 -> bv32) { forall a, b :: g(Xor(a, b)) == Xor(g(a), g(b)) }

  lemma LinearAt(g: bv32 -> bv32, a: bv32, b: bv32)
    requires Linear(g)
    ensures g(Xor(a, b)) == Xor(g(a), g(b)) && g(0) == 0
  {
    assert g(Xor(0, 0)) == Xor(g(0), g(0));
    hide Xor;
    XorAlgebra(0, 0, 0);
    XorAlgebra(g(0), 0, 0);
  }

  /** What is left of a vector, back in its place: its lowest bit's unit vector and the rest. */
  lemma SplitVector(vec: bv32, i: nat)
    ensures ShiftLeft(vec, i) == Xor(if Low(vec) then Unit(i) else 0, ShiftLeft(Shr(vec), i + 1))
  {
    hide Xor, Low, Shr, Shl, FromBit;
    SplitLow(vec);
    var d := FromBit(Low(vec));
    ShiftLeftXor(d, Shl(Shr(vec)), i);
    BitValues();
    ZeroLeft(i);
  }

  /** A matrix whose columns are the images of the unit vectors under a linear map is that map. */
  lemma {:induction false} ColumnsDecide(mat: seq<bv32>, g: bv32 -> bv32, i: nat, vec: bv32)
    requires Linear(g) && i + |mat| == GF2_DIM && ShiftRight(vec, |mat|) == 0
    requires forall k | 0 <= k < |mat| :: mat[k] == g(Unit(i + k))
    ensures Apply(mat, vec) == g(ShiftLeft(vec, i))
    decreases |mat|
  {
    hide Xor, Low, Shr, Shl, Linear, Unit;
    LinearAt(g, if Low(vec) then Unit(i) else 0, ShiftLeft(Shr(vec), i + 1));
    if mat == [] {
      ZeroLeft(i);
    } else {
      ColumnsDecide(mat[1..], g, i + 1, Shr(vec));
      SplitVector(vec, i);
      assert mat[0] == g(Unit(i + 0));
    }
  }

  lemma BitValues()
    ensures FromBit(true) == 1 && FromBit(false) == 0
  {}

  lemma {:induction false} ZeroLeft(n: nat)
    ensures ShiftLeft(0, n) == 0
  {
    if n > 0 { ZeroLeft(n - 1); }
  }

  /** Each column is the product with its unit vector. */
  lemma {:induction false} ApplyUnit(mat: seq<bv32>, i: nat)
    requires i < |mat| <= GF2_DIM
    ensures Apply(mat, Unit(i)) == mat[i]
  {
    if i == 0 {
      ShiftFirstUnit();
      assert Low(1) && Shr(1) == 0;
      ApplyZero(mat[1..]);
      XorAlgebra(mat[0], 0, 0);
    } else {
      ShiftUnit(i - 1);
      hide Unit, Xor;
      ApplyUnit(mat[1..], i - 1);
      XorAlgebra(mat[i], 0, 0);
    }
  }

  ghost predicate IsSquare(square: seq<bv32>, mat: seq<bv32>)
  {
    |square| == |mat| == GF2_DIM && forall i | 0 <= i < GF2_DIM :: square[i] == Apply(mat, mat[i])
  }

  function Twice(mat: seq<bv32>): bv32 -> bv32 { v => Apply(mat, Apply(mat, v)) }

  lemma TwiceLinear(mat: seq<bv32>)
    ensures Linear(Twice(mat))
  {
    hide Apply, Xor;
    forall a, b ensures Twice(mat)(Xor(a, b)) == Xor(Twice(mat)(a), Twice(mat)(b)) {
      ApplyXor(mat, a, b);
      ApplyXor(mat, Apply(mat, a), Apply(mat, b));
    }
  }

  /** Squaring composes: the square's product is two products. */
  lemma SquareComposes(square: seq<bv32>, mat: seq<bv32>, vec: bv32)
    requires IsSquare(square, mat)
    ensures Apply(square, vec) == Apply(mat, Apply(mat, vec))
  {
    hide Apply, Xor, Unit, ShiftLeft, ShiftRight, Linear;
    TwiceLinear(mat);
    forall k | 0 <= k < GF2_DIM ensures square[k] == Twice(mat)(Unit(0 + k)) { ApplyUnit(mat, k); }
    NoShift(vec);
    ColumnsDecide(square, Twice(mat), 0, vec);
  }

  lemma NoShift(vec: bv32)
    ensures ShiftLeft(vec, 0) == vec && ShiftRight(vec, GF2_DIM) == 0
  {
    ShiftRight32(vec);
    hide Shr, ShiftRight;
  }

  function ZerosRun(zeros: nat): bv32 -> bv32 { v => ShiftBits(v, zeros) }

  lemma ZerosLinear(zeros: nat)
    ensures Linear(ZerosRun(zeros))
  {
    hide ShiftBits, Xor;
    forall a, b ensures ZerosRun(zeros)(Xor(a, b)) == Xor(ZerosRun(zeros)(a), ZerosRun(zeros)(b)) {
      ShiftBitsXor(a, b, zeros);
    }
  }

  lemma RunsZerosApply(mat: seq<bv32>, zeros: nat, vec: bv32)
    requires RunsZeros(mat, zeros)
    ensures Apply(mat, vec) == ShiftBits(vec, zeros)
  {
    hide Apply, Xor, ShiftBits, Unit, ShiftLeft, ShiftRight, Linear;
    ZerosLinear(zeros);
    NoShift(vec);
    ColumnsDecide(mat, ZerosRun(zeros), 0, vec);
  }

  method MatrixTimes(mat: array<bv32>, vector: bv32) returns (sum: bv32)
    requires mat.Length == GF2_DIM
    ensures sum == Apply(mat[..], vector)
  {
    sum := 0;
    var vec := vector;
    var i := 0;
    ShiftRight32(vec);
    hide Xor, Low, Shr;
    XorAlgebra(Apply(mat[..], vector), 0, 0);
    assert mat[0..] == mat[..];
    while vec != 0
      invariant 0 <= i <= GF2_DIM && ShiftRight(vec, GF2_DIM - i) == 0
      invariant Xor(sum, Apply(mat[i..], vec)) == Apply(mat[..], vector)
      decreases GF2_DIM - i
    {
      assert mat[i..][1..] == mat[i + 1..];
      XorAlgebra(sum, mat[i], Apply(mat[i + 1..], Shr(vec)));
      XorAlgebra(sum, 0, Apply(mat[i + 1..], Shr(vec)));
      XorAlgebra(Apply(mat[i + 1..], Shr(vec)), 0, 0);
      if Low(vec) {
        sum := Xor(sum, mat[i]);
      }
      vec := Shr(vec);
      i := i + 1;
    }
    ApplyZero(mat[i..]);
    XorAlgebra(sum, 0, 0);
  }

  lemma {:induction false} ApplyZero(mat: seq<bv32>)
    ensures Apply(mat, 0) == 0
  {
    if mat != [] { ApplyZero(mat[1..]); }
  }

  method MatrixSquare(square: array<bv32>, mat: array<bv32>)
    requires square != mat && square.Length == mat.Length == GF2_DIM
    modifies square
    ensures IsSquare(square[..], mat[..])
  {
    hide Apply;
    var n := 0;
    while n < GF2_DIM
      invariant 0 <= n <= GF2_DIM
      invariant forall i | 0 <= i < n :: square[i] == Apply(mat[..], mat[i])
    {
      square[n] := MatrixTimes(mat, mat[n]);
      n := n + 1;
    }
  }

  /** Squaring doubles the number of zero bits. */
  lemma SquareRunsTwice(square: seq<bv32>, mat: seq<bv32>, zeros: nat)
    requires IsSquare(square, mat) && RunsZeros(mat, zeros)
    ensures RunsZeros(square, 2 * zeros)
  {
    hide ShiftBits, Apply, Unit;
    forall i | 0 <= i < GF2_DIM ensures square[i] == ShiftBits(Unit(i), 2 * zeros) {
      RunsZerosApply(mat, zeros, mat[i]);
      ShiftBitsAdd(Unit(i), zeros, zeros);
    }
  }

  /** The `n` highest bits are clear. */
  predicate TopClear(v: bv32, n: nat)
    decreases n
  {
    n == 0 || (v & 0x8000_0000 == 0 && TopClear(Shl(v), n - 1))
  }

  lemma OneTopClear()
    ensures TopClear(1, 31)
  {
    assert TopClear(0x8000_0000, 0);
    assert TopClear(0x1000_0000, 3);
    assert TopClear(0x0200_0000, 6);
    assert TopClear(0x0040_0000, 9);
    assert TopClear(0x0008_0000, 12);
    assert TopClear(0x0001_0000, 15);
    assert TopClear(0x2000, 18);
    assert TopClear(0x400, 21);
    assert TopClear(0x80, 24);
    assert TopClear(0x10, 27);
    assert TopClear(2, 30);
  }

  lemma {:induction false} UnitTopClear(v: bv32, i: nat, n: nat)
    requires TopClear(v, i + n)
    ensures TopClear(ShiftLeft(v, i), n)
    decreases i
  {
    if i > 0 { UnitTopClear(Shl(v), i - 1, n); }
  }

  lemma {:induction false} ShiftLeftAdd(v: bv32, m: nat, n: nat)
    ensures ShiftLeft(v, m + n) == ShiftLeft(ShiftLeft(v, m), n)
    decreases m
  {
    hide Shl;
    if m > 0 { ShiftLeftAdd(Shl(v), m - 1, n); }
  }

  /** One zero bit takes each unit vector to the one below it. */
  lemma ShiftUnit(i: nat)
    requires i < 31
    ensures ShiftBit(Unit(i + 1)) == Unit(i) && Unit(i + 1) == Shl(Unit(i))
    ensures !Low(Unit(i + 1)) && Shr(Unit(i + 1)) == Unit(i)
  {
    OneTopClear();
    UnitTopClear(1, i, 31 - i);
    assert TopClear(Unit(i), 31 - i);
    assert Shl(Unit(i)) == ShiftLeft(Unit(i), 1);
    hide ShiftLeft;
    ShiftLeftAdd(1, i, 1);
  }

  lemma ShiftFirstUnit()
    ensures Unit(0) == 1 && ShiftBit(1) == POLYNOMIAL
  {}

  /** The operator for one zero bit. */
  method OneZeroBit(odd: array<bv32>)
    requires odd.Length == GF2_DIM
    modifies odd
    ensures RunsZeros(odd[..], 1)
  {
    ShiftFirstUnit();
    hide ShiftBit, Shl, Unit;
    odd[0] := 0xedb88320;
    var row: bv32 := 1;
    var n := 1;
    while n < GF2_DIM
      invariant 1 <= n <= GF2_DIM && row == Unit(n - 1)
      invariant forall i | 0 <= i < n :: odd[i] == ShiftBit(Unit(i))
    {
      ShiftUnit(n - 1);
      odd[n] := row;
      row := Shl(row);
      n := n + 1;
    }
    forall i | 0 <= i < GF2_DIM ensures odd[i] == ShiftBits(Unit(i), 1) {
      assert ShiftBits(Unit(i), 1) == ShiftBits(ShiftBit(Unit(i)), 0);
    }
  }

  /** Applying the operator for the lowest bit of `len` leaves the rest to twice the zeros. */
  lemma HalveLength(c: bv32, zeros: nat, len: nat)
    ensures len % 2 == 1 ==> ShiftBits(c, zeros * len) == ShiftBits(ShiftBits(c, zeros), 2 * zeros * (len / 2))
    ensures len % 2 == 0 ==> ShiftBits(c, zeros * len) == ShiftBits(c, 2 * zeros * (len / 2))
  {
    if len % 2 == 1 {
      assert zeros * len == zeros + 2 * zeros * (len / 2) by {
        assert len == 1 + 2 * (len / 2);
        assert zeros * len == zeros * (1 + 2 * (len / 2)) == zeros + zeros * (2 * (len / 2));
        assert zeros * (2 * (len / 2)) == 2 * zeros * (len / 2);
      }
      ShiftBitsAdd(c, zeros, 2 * zeros * (len / 2));
    } else {
      assert zeros * len == zeros * (2 * (len / 2)) == 2 * zeros * (len / 2);
    }
  }

  /** The checksum of any concatenation, from the pieces' checksums and the second one's length. */
  method Combine(crc1: bv32, crc2: bv32, length2: int) returns (r: bv32)
    ensures length2 <= 0 ==> r == crc1
    ensures length2 > 0 ==> r == Xor(ShiftBits(crc1, 8 * length2), crc2)
    ensures forall a, b | Crc(0, a) == crc1 && Crc(0, b) == crc2 && |b| == length2 :: r == Crc(0, a + b)
  {
    hide ShiftBits, Apply, Xor, Crc;
    if length2 <= 0 {
      forall a: seq<byte>, b: seq<byte> | Crc(0, a) == crc1 && |b| == length2 ensures crc1 == Crc(0, a + b) {
        assert a + b == a;
      }
      return crc1;
    }
    var even := new bv32[GF2_DIM];
    var odd := new bv32[GF2_DIM];
    OneZeroBit(odd);
    MatrixSquare(even, odd);
    SquareRunsTwice(even[..], odd[..], 1);
    MatrixSquare(odd, even);
    SquareRunsTwice(odd[..], even[..], 2);
    var crc := crc1;
    var len2 := length2;
    ghost var zeros := 4;
    while true
      invariant len2 > 0 && zeros > 0 && fresh(even) && fresh(odd) && even != odd
      invariant even.Length == odd.Length == GF2_DIM && RunsZeros(odd[..], zeros)
      invariant ShiftBits(crc, 2 * zeros * len2) == ShiftBits(crc1, 8 * length2)
      decreases len2
    {
      crc, len2 := ApplyBit(even, odd, zeros, crc, len2);
      if len2 == 0 {
        break;
      }
      crc, len2 := ApplyBit(odd, even, 2 * zeros, crc, len2);
      zeros := 4 * zeros;
      if len2 == 0 {
        break;
      }
    }
    r := Xor(crc, crc2);
    assert 2 * zeros * len2 == 0;
    EmptyShift(crc);
    forall a, b | Crc(0, a) == crc1 && Crc(0, b) == crc2 && |b| == length2 ensures r == Crc(0, a + b) {
      CrcOfConcat(a, b);
    }
  }

  lemma EmptyShift(c: bv32)
    ensures ShiftBits(c, 0) == c
  {}

  /** One bit of the length: square the operator into `next`, apply it if the bit is set. */
  method ApplyBit(next: array<bv32>, last: array<bv32>, ghost zeros: nat, crc: bv32, len: nat)
    returns (c: bv32, rest: nat)
    requires next != last && next.Length == last.Length == GF2_DIM && RunsZeros(last[..], zeros)
    modifies next
    ensures RunsZeros(next[..], 2 * zeros) && rest == len / 2
    ensures ShiftBits(c, 2 * (2 * zeros) * rest) == ShiftBits(crc, 2 * zeros * len)
  {
    hide ShiftBits, Apply;
    MatrixSquare(next, last);
    SquareRunsTwice(next[..], last[..], zeros);
    c := crc;
    if len % 2 == 1 {
      c := MatrixTimes(next, crc);
      RunsZerosApply(next[..], 2 * zeros, crc);
    }
    rest := len / 2;
    HalveLength(crc, 2 * zeros, len);
  }
}
