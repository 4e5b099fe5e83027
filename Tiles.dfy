// The address swizzles of the tiled-memcpy unit test: the maps from a byte
// coordinate (x, y) of a 128x32-byte tile to its offset inside a Tile-Y or
// Tile-4 tile, built from 32-bit mask-and-shift field moves, and the
// fixture that fills a rectangle of its source buffer before a copy.
// Unsigned 32-bit values are naturals below 2^32; AND and OR are defined
// bit by bit, a right shift is repeated halving and a left shift repeated
// doubling, wrapped at 2^32.

module TileSwizzle {
  const U32: nat := 0x1_0000_0000

  function Pow2(n: nat): (r: nat)
    ensures r >= 1
  {
    if n == 0 then 1 else 2 * Pow2(n - 1)
  }

  // -------------------------------------------------------------------
  // Bit operations on unsigned integers
  // -------------------------------------------------------------------

  /** Bitwise AND. */
  function And(a: nat, b: nat): nat
    decreases a
  {
    if a == 0 || b == 0 then 0
    else 2 * And(a / 2, b / 2) + (if a % 2 == 1 && b % 2 == 1 then 1 else 0)
  }

  /** Bitwise OR. */
  function Or(a: nat, b: nat): nat
    decreases a
  {
    if a == 0 then b
    else if b == 0 then a
    else 2 * Or(a / 2, b / 2) + (if a % 2 == 1 || b % 2 == 1 then 1 else 0)
  }

  /** `a` doubled `n` times, without wrap-around. */
  function Double(a: nat, n: nat): nat {
    if n == 0 then a else 2 * Double(a, n - 1)
  }

  /** `a >> n`: `a` halved `n` times, rounding down. */
  function Shr(a: nat, n: nat): nat {
    if n == 0 then a else Shr(a / 2, n - 1)
  }

  /** `a << n` on a 32-bit unsigned value: the bits pushed past bit 31
      are lost. */
  function Shl(a: nat, n: nat): nat
    requires n < 32
  {
    Double(a, n) % U32
  }

  /** The low `n` bits of `a`. */
  function Low(a: nat, n: nat): nat {
    if n == 0 then 0 else 2 * Low(a / 2, n - 1) + a % 2
  }

  // -------------------------------------------------------------------
  // The swizzle and the two tilings
  // -------------------------------------------------------------------

  /** `swizzle_bitops`: takes the `field` bits of `num` starting at bit
      `curr` and moves them to start at bit `swz`. The mask is built in
      `int` (hence `field < 31`) and the shifts are 32-bit. */
  function SwizzleBitops(num: nat, field: nat, curr: nat, swz: nat): nat
    requires num < U32 && field < 31 && curr < 32 && swz < 32
  {
    var bitmask := Pow2(field) - 1;
    var masked := And(num, Shl(bitmask, curr));
    var bits := Shr(masked, curr);
    Shl(bits, swz)
  }

  /** Tile-Y: bits, high to low, u6 u5 u4 v4 v3 v2 v1 v0 u3 u2 u1 u0 of
      the byte column u = x and the row v = y. */
  function TileYOffset(x: nat, y: nat): nat
    requires x < U32 && y < U32
  {
    Or(Or(SwizzleBitops(x, 4, 0, 0), SwizzleBitops(y, 5, 0, 4)), SwizzleBitops(x, 3, 4, 9))
  }

  /** Tile-4: bits, high to low, v4 v3 u6 v2 u5 u4 v1 v0 u3 u2 u1 u0. */
  function Tile4Offset(x: nat, y: nat): nat
    requires x < U32 && y < U32
  {
    Or(Or(Or(Or(Or(SwizzleBitops(x, 4, 0, 0), SwizzleBitops(y, 2, 0, 4)),
                SwizzleBitops(x, 2, 4, 6)),
             SwizzleBitops(y, 1, 2, 8)),
          SwizzleBitops(x, 1, 6, 9)),
       SwizzleBitops(y, 2, 3, 10))
  }

  /** `LIN_OFF`: the offset of byte (x, y) in a linear image with rows of
      `tw` bytes, in 32-bit arithmetic. */
  function LinOff(y: nat, tw: nat, x: nat): nat {
    (Mul(y, tw) + x) % U32
  }

  /** The product `a * b`, by repeated addition: kept recursive so that
      the fixture's proofs see a product only where they ask for it. */
  function Mul(a: nat, b: nat): nat {
    if a == 0 then 0 else Mul(a - 1, b) + b
  }

  lemma {:induction false} MulIsTimes(a: nat, b: nat)
    ensures Mul(a, b) == a * b
  {
    if a > 0 {
      MulIsTimes(a - 1, b);
      assert a * b == (a - 1) * b + b;
    }
  }

  // -------------------------------------------------------------------
  // Arithmetic facts
  // -------------------------------------------------------------------

  /** Quotient and remainder are determined by any decomposition
      `a == m * q + r` with `0 <= r < m`. */
  lemma DivMod(a: nat, m: nat, q: nat, r: nat)
    requires m > 0 && r < m && a == m * q + r
    ensures a / m == q && a % m == r
  {
    var q', r' := a / m, a % m;
    assert a == m * q' + r';
    if q' < q {
      MulStep(m, q', q);
    } else if q' > q {
      MulStep(m, q, q');
    }
  }

  lemma MulStep(m: nat, i: nat, j: nat)
    requires i < j
    ensures m * i + m <= m * j
  {
    var k: nat := j - i - 1;
    assert j == i + 1 + k;
    assert m * j == m * i + m + m * k;
  }

  lemma HalveThenDivide(a: nat, p: nat)
    requires p > 0
    ensures a / (2 * p) == (a / 2) / p && a % (2 * p) == 2 * ((a / 2) % p) + a % 2
  {
    var q, r := a / 2, a % 2;
    var s, t := q / p, q % p;
    assert q == p * s + t;
    assert a == (2 * p) * s + (2 * t + r);
    DivMod(a, 2 * p, s, 2 * t + r);
  }

  lemma {:induction false} ShrIsDiv(a: nat, n: nat)
    ensures Shr(a, n) == a / Pow2(n)
  {
    if n > 0 {
      ShrIsDiv(a / 2, n - 1);
      HalveThenDivide(a, Pow2(n - 1));
    }
  }

  lemma {:induction false} LowIsMod(a: nat, n: nat)
    ensures Low(a, n) == a % Pow2(n)
  {
    if n > 0 {
      LowIsMod(a / 2, n - 1);
      HalveThenDivide(a, Pow2(n - 1));
    }
  }

  lemma {:induction false} DoubleIsMul(a: nat, n: nat)
    ensures Double(a, n) == a * Pow2(n)
  {
    if n > 0 {
      DoubleIsMul(a, n - 1);
      MulTwice(a, Pow2(n - 1));
    }
  }

  lemma {:induction false} AndLowMask(a: nat, f: nat)
    ensures And(a, Pow2(f) - 1) == Low(a, f)
  {
    if f > 0 && a > 0 {
      var m := Pow2(f) - 1;
      assert m / 2 == Pow2(f - 1) - 1 && m % 2 == 1;
      AndLowMask(a / 2, f - 1);
    } else if f > 0 {
      LowZero(a, f);
    }
  }

  lemma {:induction false} LowZero(a: nat, f: nat)
    requires a == 0
    ensures Low(a, f) == 0
  {
    if f > 0 {
      LowZero(a / 2, f - 1);
    }
  }

  lemma {:induction false} AndShifted(a: nat, m: nat, c: nat)
    ensures And(a, Double(m, c)) == Double(And(Shr(a, c), m), c)
  {
    if c > 0 {
      var b := Double(m, c - 1);
      AndShifted(a / 2, m, c - 1);
      ShrHalf(a, c);
      if a == 0 {
        ShrZero(a, c);
        DoubleZero(c);
      } else if b == 0 {
        DoubleZeroInv(m, c - 1);
        DoubleZero(c);
      } else {
        assert And(a, 2 * b) == 2 * And(a / 2, b);
      }
    }
  }

  lemma {:induction false} ShrHalf(a: nat, c: nat)
    requires c > 0
    ensures Shr(a, c) == Shr(a / 2, c - 1)
  {
  }

  lemma {:induction false} ShrZero(a: nat, c: nat)
    requires a == 0
    ensures Shr(a, c) == 0
  {
    if c > 0 {
      ShrZero(a / 2, c - 1);
    }
  }

  lemma {:induction false} DoubleZero(c: nat)
    ensures Double(0, c) == 0
  {
    if c > 0 {
      DoubleZero(c - 1);
    }
  }

  lemma {:induction false} DoubleZeroInv(m: nat, c: nat)
    requires Double(m, c) == 0
    ensures m == 0
  {
    if c > 0 {
      DoubleZeroInv(m, c - 1);
    }
  }

  lemma {:induction false} OrDisjoint(a: nat, b: nat)
    requires And(a, b) == 0
    ensures Or(a, b) == a + b
    decreases a
  {
    if a != 0 && b != 0 {
      assert And(a / 2, b / 2) == 0 && !(a % 2 == 1 && b % 2 == 1);
      OrDisjoint(a / 2, b / 2);
    }
  }

  lemma MulTwice(m: nat, p: nat)
    ensures m * (2 * p) == 2 * (m * p)
  {
  }

  lemma {:induction false} Pow2Up(n: nat)
    ensures Pow2(n + 8) == 256 * Pow2(n)
  {
    if n > 0 {
      Pow2Up(n - 1);
      assert Pow2(n + 8) == 2 * Pow2(n - 1 + 8);
    } else {
      assert Pow2(8) == 256;
    }
  }

  lemma Pow2Word()
    ensures Pow2(32) == U32
  {
    Pow2Up(0);
    Pow2Up(8);
    Pow2Up(16);
    Pow2Up(24);
  }

  lemma {:induction false} Pow2Mono(j: nat, k: nat)
    requires j <= k
    ensures Pow2(j) <= Pow2(k)
  {
    if j < k {
      Pow2Mono(j, k - 1);
    }
  }

  lemma {:induction false} DoubleBound(x: nat, f: nat, c: nat)
    requires x < Pow2(f)
    ensures Double(x, c) < Pow2(f + c)
  {
    if c > 0 {
      DoubleBound(x, f, c - 1);
    }
  }

  lemma {:induction false} LowBound(a: nat, f: nat)
    ensures Low(a, f) < Pow2(f)
  {
    if f > 0 {
      LowBound(a / 2, f - 1);
    }
  }

  lemma {:induction false} ShrDouble(v: nat, c: nat)
    ensures Shr(Double(v, c), c) == v
  {
    if c > 0 {
      ShrDouble(v, c - 1);
      ShrLast(Double(v, c), c);
    }
  }

  /** Halving `n` times is halving `n - 1` times and then once more. */
  lemma {:induction false} ShrLast(a: nat, n: nat)
    requires n > 0
    ensures Shr(a, n) == Shr(a, n - 1) / 2
  {
    if n > 1 {
      ShrLast(a / 2, n - 1);
    }
  }

  lemma ShrSmall(a: nat, k: nat)
    requires a < Pow2(k)
    ensures Shr(a, k) == 0
  {
    ShrIsDiv(a, k);
    DivMod(a, Pow2(k), 0, a);
  }

  lemma SwizzleArith(num: nat, field: nat, curr: nat, swz: nat)
    requires num < U32 && field < 31 && curr < 32 && swz < 32 && curr + field <= 32
    ensures SwizzleBitops(num, field, curr, swz) == Shl(Low(Shr(num, curr), field), swz)
  {
    var m := Pow2(field) - 1;
    DoubleBound(m, field, curr);
    Pow2Mono(field + curr, 32);
    Pow2Word();
    assert Shl(m, curr) == Double(m, curr);
    AndShifted(num, m, curr);
    AndLowMask(Shr(num, curr), field);
    ShrDouble(Low(Shr(num, curr), field), curr);
  }

  lemma SwizzleField(num: nat, field: nat, curr: nat, swz: nat)
    requires num < U32 && field < 31 && curr < 32 && swz < 32 && curr + field <= 32 && swz + field <= 32
    ensures SwizzleBitops(num, field, curr, swz) == (num / Pow2(curr)) % Pow2(field) * Pow2(swz)
    ensures SwizzleBitops(num, field, curr, swz) < Pow2(swz + field)
  {
    SwizzleArith(num, field, curr, swz);
    LowBound(Shr(num, curr), field);
    ShiftNoWrap(Low(Shr(num, curr), field), field, swz);
    ShrIsDiv(num, curr);
    LowIsMod(Shr(num, curr), field);
  }

  /** A value of `f` bits shifted left by `s`, with `s + f <= 32`, loses
      nothing. */
  lemma ShiftNoWrap(v: nat, f: nat, s: nat)
    requires v < Pow2(f) && s < 32 && s + f <= 32
    ensures Shl(v, s) == v * Pow2(s) && v * Pow2(s) < Pow2(s + f)
  {
    DoubleBound(v, f, s);
    Pow2Mono(f + s, 32);
    Pow2Word();
    DoubleIsMul(v, s);
  }

  /** `SwizzleField` with the three powers of two given by value. */
  lemma FieldAt(num: nat, field: nat, curr: nat, swz: nat, pc: nat, pf: nat, ps: nat)
    requires num < U32 && field < 31 && curr < 32 && swz < 32 && curr + field <= 32 && swz + field <= 32
    requires pc == Pow2(curr) && pf == Pow2(field) && ps == Pow2(swz)
    ensures pc > 0 && pf > 0 && SwizzleBitops(num, field, curr, swz) == (num / pc) % pf * ps
  {
    SwizzleField(num, field, curr, swz);
  }

  /** OR-ing a field onto a value that lies below the field's first bit
      adds it. */
  lemma OrAbove(low: nat, v: nat, k: nat)
    requires low < Pow2(k)
    ensures Or(low, v * Pow2(k)) == low + v * Pow2(k)
  {
    DoubleIsMul(v, k);
    AndShifted(low, v, k);
    ShrSmall(low, k);
    DoubleZero(k);
    OrDisjoint(low, v * Pow2(k));
  }

  /** `OrAbove` with the power of two given by value. */
  lemma OrAboveAt(low: nat, high: nat, sum: nat, v: nat, k: nat, pk: nat)
    requires pk == Pow2(k) && low < pk && high == v * pk && sum == low + high
    ensures Or(low, high) == sum
  {
    OrAbove(low, v, k);
  }

  /** The Tile-Y offset of (x, y) written as the sum of its fields: x bits
      0-3 at bits 0-3, y bits 0-4 at bits 4-8, x bits 4-6 at bits 9-11. */
  function TileYSum(x: nat, y: nat): nat {
    x % 16 + (y % 32) * 16 + ((x / 16) % 8) * 512
  }

  /** The Tile-4 offset of (x, y) written as the sum of its six fields. */
  function Tile4Sum(x: nat, y: nat): nat {
    x % 16 + (y % 4) * 16 + ((x / 16) % 4) * 64 + ((y / 4) % 2) * 256 +
    ((x / 64) % 2) * 512 + ((y / 8) % 4) * 1024
  }

  /** The column fields the two tilings take from x. */
  lemma ColumnFields(x: nat)
    requires x < U32
    ensures SwizzleBitops(x, 4, 0, 0) == x % 16
    ensures SwizzleBitops(x, 3, 4, 9) == ((x / 16) % 8) * 512
    ensures SwizzleBitops(x, 2, 4, 6) == ((x / 16) % 4) * 64
    ensures SwizzleBitops(x, 1, 6, 9) == ((x / 64) % 2) * 512
  {
    FieldAt(x, 4, 0, 0, 1, 16, 1);
    FieldAt(x, 3, 4, 9, 16, 8, 512);
    FieldAt(x, 2, 4, 6, 16, 4, 64);
    FieldAt(x, 1, 6, 9, 64, 2, 512);
  }

  /** The row fields the two tilings take from y. */
  lemma RowFields(y: nat)
    requires y < U32
    ensures SwizzleBitops(y, 5, 0, 4) == (y % 32) * 16
    ensures SwizzleBitops(y, 2, 0, 4) == (y % 4) * 16
    ensures SwizzleBitops(y, 1, 2, 8) == ((y / 4) % 2) * 256
    ensures SwizzleBitops(y, 2, 3, 10) == ((y / 8) % 4) * 1024
  {
    FieldAt(y, 5, 0, 4, 1, 32, 16);
    FieldAt(y, 2, 0, 4, 1, 4, 16);
    FieldAt(y, 1, 2, 8, 4, 2, 256);
    FieldAt(y, 2, 3, 10, 8, 4, 1024);
  }

  /** The three Tile-Y fields have no bit in common, so OR-ing them adds
      them. */
  lemma TileYOr(a: nat, b: nat, c: nat, x: nat, y: nat)
    requires a == x % 16 && b == (y % 32) * 16 && c == ((x / 16) % 8) * 512
    ensures Or(Or(a, b), c) == a + b + c
  {
    var ab := a + b;
    OrAboveAt(a, b, ab, y % 32, 4, 16);
    OrAboveAt(ab, c, ab + c, (x / 16) % 8, 9, 512);
  }

  /** The six Tile-4 fields have no bit in common either. */
  lemma Tile4Or(a1: nat, a2: nat, a3: nat, a4: nat, a5: nat, a6: nat, x: nat, y: nat)
    requires a1 == x % 16 && a2 == (y % 4) * 16 && a3 == ((x / 16) % 4) * 64
    requires a4 == ((y / 4) % 2) * 256 && a5 == ((x / 64) % 2) * 512 && a6 == ((y / 8) % 4) * 1024
    ensures Or(Or(Or(Or(Or(a1, a2), a3), a4), a5), a6) == a1 + a2 + a3 + a4 + a5 + a6
  {
    var s2 := a1 + a2;
    OrAboveAt(a1, a2, s2, y % 4, 4, 16);
    var s3 := s2 + a3;
    OrAboveAt(s2, a3, s3, (x / 16) % 4, 6, 64);
    var s4 := s3 + a4;
    OrAboveAt(s3, a4, s4, (y / 4) % 2, 8, 256);
    var s5 := s4 + a5;
    OrAboveAt(s4, a5, s5, (x / 64) % 2, 9, 512);
    var s6 := s5 + a6;
    OrAboveAt(s5, a6, s6, (y / 8) % 4, 10, 1024);
  }

  /** The Tile-Y swizzle places each bit of (x, y) where the layout table
      says. */
  lemma TileYFields(x: nat, y: nat)
    requires x < U32 && y < U32
    ensures TileYOffset(x, y) == TileYSum(x, y)
  {
    ColumnFields(x);
    RowFields(y);
    TileYOr(SwizzleBitops(x, 4, 0, 0), SwizzleBitops(y, 5, 0, 4), SwizzleBitops(x, 3, 4, 9), x, y);
  }

  /** The Tile-4 swizzle places each bit of (x, y) where the layout table
      says. */
  lemma Tile4Fields(x: nat, y: nat)
    requires x < U32 && y < U32
    ensures Tile4Offset(x, y) == Tile4Sum(x, y)
  {
    ColumnFields(x);
    RowFields(y);
    Tile4Or(SwizzleBitops(x, 4, 0, 0), SwizzleBitops(y, 2, 0, 4), SwizzleBitops(x, 2, 4, 6),
            SwizzleBitops(y, 1, 2, 8), SwizzleBitops(x, 1, 6, 9), SwizzleBitops(y, 2, 3, 10), x, y);
  }

  /** The OR-ed fields of both tilings are disjoint, so each OR equals the
      sum of the fields. */
  lemma TileOrIsSum(x: nat, y: nat)
    requires x < U32 && y < U32
    ensures TileYOffset(x, y) ==
            SwizzleBitops(x, 4, 0, 0) + SwizzleBitops(y, 5, 0, 4) + SwizzleBitops(x, 3, 4, 9)
    ensures Tile4Offset(x, y) ==
            SwizzleBitops(x, 4, 0, 0) + SwizzleBitops(y, 2, 0, 4) + SwizzleBitops(x, 2, 4, 6) +
            SwizzleBitops(y, 1, 2, 8) + SwizzleBitops(x, 1, 6, 9) + SwizzleBitops(y, 2, 3, 10)
  {
    TileYFields(x, y);
    Tile4Fields(x, y);
    ColumnFields(x);
    RowFields(y);
  }

  /** The coordinate a Tile-Y offset holds. */
  function TileYCoord(off: nat): (nat, nat) {
    (off % 16 + 16 * ((off / 512) % 8), (off / 16) % 32)
  }

  /** The coordinate a Tile-4 offset holds. */
  function Tile4Coord(off: nat): (nat, nat) {
    (off % 16 + 16 * ((off / 64) % 4) + 64 * ((off / 512) % 2),
     (off / 16) % 4 + 4 * ((off / 256) % 2) + 8 * ((off / 1024) % 4))
  }

  /** Tile-Y maps the 128x32 tile one to one onto the offsets 0..4095:
      every coordinate lands below 4096 and is recovered from its offset,
      and every offset below 4096 is the image of its coordinate. */
  lemma TileYBijection(x: nat, y: nat, off: nat)
    requires x < 128 && y < 32
    ensures TileYOffset(x, y) < 4096 && TileYCoord(TileYOffset(x, y)) == (x, y)
    ensures off < 4096 ==> TileYCoord(off).0 < 128 && TileYCoord(off).1 < 32 &&
                           TileYOffset(TileYCoord(off).0, TileYCoord(off).1) == off
  {
    TileYFields(x, y);
    TileYDigits(x, y);
    if off < 4096 {
      TileYSplit(off);
      TileYFields(TileYCoord(off).0, TileYCoord(off).1);
    }
  }

  /** Tile-4 maps the 128x32 tile one to one onto the offsets 0..4095. */
  lemma Tile4Bijection(x: nat, y: nat, off: nat)
    requires x < 128 && y < 32
    ensures Tile4Offset(x, y) < 4096 && Tile4Coord(Tile4Offset(x, y)) == (x, y)
    ensures off < 4096 ==> Tile4Coord(off).0 < 128 && Tile4Coord(off).1 < 32 &&
                           Tile4Offset(Tile4Coord(off).0, Tile4Coord(off).1) == off
  {
    Tile4Fields(x, y);
    Tile4Digits(x, y);
    if off < 4096 {
      Tile4Split(off);
      Tile4Fields(Tile4Coord(off).0, Tile4Coord(off).1);
    }
  }

  /** The Tile-Y field sum of a coordinate of the tile lies below 4096 and
      gives the coordinate back. */
  lemma TileYDigits(x: nat, y: nat)
    requires x < 128 && y < 32
    ensures TileYSum(x, y) < 4096 && TileYCoord(TileYSum(x, y)) == (x, y)
  {
    var x0, x1 := x % 16, x / 16;
    DivMod(x, 16, x1, x0);
    DivMod(x1, 8, 0, x1);
    DivMod(y, 32, 0, y);
    var o := x0 + 16 * y + 512 * x1;
    assert TileYSum(x, y) == o;
    DivMod(o, 16, y + 32 * x1, x0);
    DivMod(y + 32 * x1, 32, x1, y);
    DivMod(o, 512, x1, x0 + 16 * y);
  }

  /** The coordinate of a Tile-Y offset below 4096 lies in the tile and its
      field sum is the offset. */
  lemma TileYSplit(off: nat)
    requires off < 4096
    ensures var c := TileYCoord(off);
            c.0 < 128 && c.1 < 32 && TileYSum(c.0, c.1) == off
  {
    var u0, a := off % 16, off / 16;
    DivMod(off, 16, a, u0);
    var v, b := a % 32, a / 32;
    DivMod(a, 32, b, v);
    DivMod(off, 512, b, u0 + 16 * v);
    DivMod(b, 8, 0, b);
    var cx := u0 + 16 * b;
    assert TileYCoord(off) == (cx, v);
    DivMod(cx, 16, b, u0);
    DivMod(b, 8, 0, b);
    DivMod(v, 32, 0, v);
  }

  /** The Tile-4 field sum of a coordinate of the tile lies below 4096 and
      gives the coordinate back. */
  lemma Tile4Digits(x: nat, y: nat)
    requires x < 128 && y < 32
    ensures Tile4Sum(x, y) < 4096 && Tile4Coord(Tile4Sum(x, y)) == (x, y)
  {
    var x0, x1, x2 := x % 16, (x / 16) % 4, (x / 64) % 2;
    var y0, y1, y2 := y % 4, (y / 4) % 2, (y / 8) % 4;
    XDigits(x);
    YDigits(y);
    var o := x0 + 16 * y0 + 64 * x1 + 256 * y1 + 512 * x2 + 1024 * y2;
    assert Tile4Sum(x, y) == o;
    DigitsOf(o, x0, y0, x1, y1, x2, y2, x, y);
  }

  lemma XDigits(x: nat)
    requires x < 128
    ensures x == x % 16 + 16 * ((x / 16) % 4) + 64 * ((x / 64) % 2)
  {
    var x0, q := x % 16, x / 16;
    DivMod(x, 16, q, x0);
    DivMod(q, 4, q / 4, q % 4);
    DivMod(x, 64, q / 4, x0 + 16 * (q % 4));
    DivMod(q / 4, 2, 0, q / 4);
  }

  lemma YDigits(y: nat)
    requires y < 32
    ensures y == y % 4 + 4 * ((y / 4) % 2) + 8 * ((y / 8) % 4)
  {
    var y0, q := y % 4, y / 4;
    DivMod(y, 4, q, y0);
    DivMod(q, 2, q / 2, q % 2);
    DivMod(y, 8, q / 2, y0 + 4 * (q % 2));
    DivMod(q / 2, 4, 0, q / 2);
  }

  /** Reading the digits back out of a Tile-4 offset. */
  lemma DigitsOf(o: nat, x0: nat, y0: nat, x1: nat, y1: nat, x2: nat, y2: nat, cx: nat, cy: nat)
    requires x0 < 16 && y0 < 4 && x1 < 4 && y1 < 2 && x2 < 2 && y2 < 4
    requires o == x0 + 16 * y0 + 64 * x1 + 256 * y1 + 512 * x2 + 1024 * y2
    requires cx == x0 + 16 * x1 + 64 * x2 && cy == y0 + 4 * y1 + 8 * y2
    ensures o < 4096
    ensures Tile4Coord(o) == (cx, cy)
  {
    var r4 := y0 + 4 * x1 + 16 * y1 + 32 * x2 + 64 * y2;
    DivMod(o, 16, r4, x0);
    DivMod(r4, 4, x1 + 4 * y1 + 8 * x2 + 16 * y2, y0);
    DivMod(o, 64, x1 + 4 * y1 + 8 * x2 + 16 * y2, x0 + 16 * y0);
    DivMod(x1 + 4 * y1 + 8 * x2 + 16 * y2, 4, y1 + 2 * x2 + 4 * y2, x1);
    DivMod(o, 256, y1 + 2 * x2 + 4 * y2, x0 + 16 * y0 + 64 * x1);
    DivMod(y1 + 2 * x2 + 4 * y2, 2, x2 + 2 * y2, y1);
    DivMod(o, 512, x2 + 2 * y2, x0 + 16 * y0 + 64 * x1 + 256 * y1);
    DivMod(x2 + 2 * y2, 2, y2, x2);
    DivMod(o, 1024, y2, x0 + 16 * y0 + 64 * x1 + 256 * y1 + 512 * x2);
    DivMod(y2, 4, 0, y2);
  }

  /** The coordinate of a Tile-4 offset below 4096 lies in the tile and
      its field sum is the offset. */
  lemma Tile4Split(off: nat)
    requires off < 4096
    ensures var c := Tile4Coord(off);
            c.0 < 128 && c.1 < 32 && Tile4Sum(c.0, c.1) == off
  {
    var x0, y0, x1 := off % 16, (off / 16) % 4, (off / 64) % 4;
    var y1, x2, y2 := (off / 256) % 2, (off / 512) % 2, (off / 1024) % 4;
    OffsetDigits(off);
    var c := Tile4Coord(off);
    assert c == (x0 + 16 * x1 + 64 * x2, y0 + 4 * y1 + 8 * y2);
    DivMod(c.0, 16, x1 + 4 * x2, x0);
    DivMod(x1 + 4 * x2, 4, x2, x1);
    DivMod(c.0, 64, x2, x0 + 16 * x1);
    DivMod(x2, 2, 0, x2);
    DivMod(c.1, 4, y1 + 2 * y2, y0);
    DivMod(y1 + 2 * y2, 2, y2, y1);
    DivMod(c.1, 8, y2, y0 + 4 * y1);
    DivMod(y2, 4, 0, y2);
  }

  /** An offset below 4096 is the sum of its Tile-4 digits. */
  lemma OffsetDigits(off: nat)
    requires off < 4096
    ensures off == off % 16 + 16 * ((off / 16) % 4) + 64 * ((off / 64) % 4) + 256 * ((off / 256) % 2) +
                   512 * ((off / 512) % 2) + 1024 * ((off / 1024) % 4)
  {
    var a := off / 16;
    DivMod(off, 16, a, off % 16);
    var b := a / 4;
    DivMod(a, 4, b, a % 4);
    DivMod(off, 64, b, off % 16 + 16 * (a % 4));
    var c := b / 4;
    DivMod(b, 4, c, b % 4);
    DivMod(off, 256, c, off % 64 + 64 * (b % 4));
    var d := c / 2;
    DivMod(c, 2, d, c % 2);
    DivMod(off, 512, d, off % 256 + 256 * (c % 2));
    var e := d / 2;
    DivMod(d, 2, e, d % 2);
    DivMod(off, 1024, e, off % 512 + 512 * (d % 2));
    DivMod(e, 4, 0, e);
  }

  // -------------------------------------------------------------------
  // The test fixture
  // -------------------------------------------------------------------

  datatype Conversion = LinToTile | TileToLin

  datatype Tiling = TileY | Tile4

  type Byte = b: nat | b < 256

  /** A coordinate: the fill's loop counters are bytes. */
  type U8 = n: nat | n < 256

  /** The fixture of one test: tile geometry, direction of the copy, the
      tiling (which selects the swizzle), and the source and destination
      buffers. */
  class TileFixture {
    const tileWidth: nat
    const tileHeight: nat
    const tileSize: nat
    const conv: Conversion
    const tiling: Tiling
    const bufSrc: array<Byte>
    const bufDst: array<Byte>

    /** The two buffers are distinct and `tile_size` bytes long. */
    predicate Valid() {
      tileSize == Mul(tileWidth, tileHeight) % U32 && bufSrc.Length == tileSize && bufDst.Length == tileSize &&
      bufSrc != bufDst
    }

    /** `SetUp`: records the geometry and allocates two zeroed buffers of
        `tw * th` bytes, the product taken in 32 bits. */
    constructor (tw: nat, th: nat, convert: Conversion, format: Tiling)
      requires tw < U32 && th < U32
      ensures Valid()
      ensures tileWidth == tw && tileHeight == th && conv == convert && tiling == format
      ensures tileSize == Mul(tw, th) % U32
      ensures fresh(bufSrc) && fresh(bufDst)
      ensures forall k :: 0 <= k < tileSize ==> bufSrc[k] == 0 && bufDst[k] == 0
    {
      conv := convert;
      tiling := format;
      tileWidth := tw;
      tileHeight := th;
      var size := Mul(tw, th) % U32;
      tileSize := size;
      bufSrc := new Byte[size](_ => 0);
      bufDst := new Byte[size](_ => 0);
    }

    /** `linear_to_tile_swizzle` of the fixture's tiling: the offset of
        byte (x, y) from the buffer's base. */
    function SwizzleOffset(x: nat, y: nat): nat
      requires x < U32 && y < U32
    {
      match tiling
      case TileY => TileYOffset(x, y)
      case Tile4 => Tile4Offset(x, y)
    }

    /** Where the fill writes coordinate (x, y). */
    function Target(x: U8, y: U8): nat {
      if conv == LinToTile then LinOff(y, tileWidth, x) else SwizzleOffset(x, y)
    }

    /** What the fill writes for coordinate (x, y): its linear offset
        divided by 16, stored in a byte. */
    function Value(x: U8, y: U8): Byte {
      (LinOff(y, tileWidth, x) / 16) % 256
    }

    /** `bounded_byte_fill`: for every row `y1 <= y < y2` and column
        `x1 <= x < x2`, in that order, stores `Value(x, y)` at
        `Target(x, y)`. */
    method BoundedByteFill(x1: U8, x2: U8, y1: U8, y2: U8)
      requires Valid()
      requires conv == LinToTile ==> x2 <= tileWidth && y2 <= tileHeight && Mul(tileWidth, tileHeight) < U32
      requires conv == TileToLin ==> x2 <= 128 && y2 <= 32 && tileSize >= 4096
      modifies bufSrc
      ensures Fits(Target, bufSrc.Length, x1, x2, y1, y2)
      ensures bufSrc[..] == FillRows(old(bufSrc[..]), Target, Value, y1, y2, x1, x2)
      ensures forall x: U8, y: U8 :: InRect(x, y, x1, x2, y1, y2) ==> bufSrc[Target(x, y)] == Value(x, y)
      ensures forall k :: 0 <= k < bufSrc.Length && Untouched(Target, k, x1, x2, y1, y2) ==> bufSrc[k] == old(bufSrc[k])
    {
      FillFits(x1, x2, y1, y2);
      ghost var s0 := bufSrc[..];
      var y := y1;
      while y < y2
        invariant y == y1 || y1 <= y <= y2
        invariant Fits(Target, |s0|, x1, x2, y1, y)
        invariant bufSrc[..] == FillRows(s0, Target, Value, y1, y, x1, x2)
      {
        FitsWithin(Target, |s0|, x1, x2, y1, y2, x1, x2, y, y + 1);
        FitsWithin(Target, |s0|, x1, x2, y1, y2, x1, x2, y1, y + 1);
        FillRowAt(y, x1, x2);
        y := y + 1;
      }
      if y2 < y1 {
        assert FillRows(s0, Target, Value, y1, y2, x1, x2) == s0;
      }
      FillOneToOne(x1, x2, y1, y2);
      FillEffect(s0, Target, Value, y1, y2, x1, x2);
    }

    /** The inner loop of `bounded_byte_fill`: the writes of row `y` for
        the columns `x1 <= x < x2`, in that order. */
    method FillRowAt(y: U8, x1: U8, x2: U8)
      requires Fits(Target, bufSrc.Length, x1, x2, y, y + 1)
      modifies bufSrc
      ensures bufSrc[..] == FillRow(old(bufSrc[..]), Target, Value, y, x1, x2)
    {
      ghost var before := bufSrc[..];
      var x := x1;
      while x < x2
        invariant x == x1 || x1 <= x <= x2
        invariant Fits(Target, |before|, x1, x, y, y + 1)
        invariant bufSrc[..] == FillRow(before, Target, Value, y, x1, x)
      {
        assert InRect(x, y, x1, x2, y, y + 1);
        ghost var cur := bufSrc[..];
        FitsWithin(Target, |before|, x1, x2, y, y + 1, x1, x + 1, y, y + 1);
        assert FillRow(before, Target, Value, y, x1, x + 1) == cur[Target(x, y) := Value(x, y)];
        bufSrc[Target(x, y)] := Value(x, y);
        assert bufSrc[..] == cur[Target(x, y) := Value(x, y)];
        x := x + 1;
      }
      if x2 < x1 {
        assert FillRow(before, Target, Value, y, x1, x2) == before;
      }
    }

    /** The rectangles the fill accepts stay inside the buffer. */
    lemma FillFits(x1: U8, x2: U8, y1: U8, y2: U8)
      requires Valid()
      requires conv == LinToTile ==> x2 <= tileWidth && y2 <= tileHeight && Mul(tileWidth, tileHeight) < U32
      requires conv == TileToLin ==> x2 <= 128 && y2 <= 32 && tileSize >= 4096
      ensures Fits(Target, bufSrc.Length, x1, x2, y1, y2)
    {
      forall x: U8, y: U8 | InRect(x, y, x1, x2, y1, y2)
        ensures Target(x, y) < bufSrc.Length
      {
        if conv == LinToTile {
          LinearFits(x, y, tileWidth, tileHeight);
        } else if tiling == TileY {
          TileYBijection(x, y, 0);
        } else {
          Tile4Bijection(x, y, 0);
        }
      }
    }

    /** ... and write each coordinate at an offset of its own. */
    lemma FillOneToOne(x1: U8, x2: U8, y1: U8, y2: U8)
      requires Valid()
      requires conv == LinToTile ==> x2 <= tileWidth && y2 <= tileHeight && Mul(tileWidth, tileHeight) < U32
      requires conv == TileToLin ==> x2 <= 128 && y2 <= 32
      ensures OneToOne(Target, x1, x2, y1, y2)
    {
      forall a: U8, b: U8, c: U8, d: U8 | InRect(a, b, x1, x2, y1, y2) && InRect(c, d, x1, x2, y1, y2) &&
                          Target(a, b) == Target(c, d)
        ensures a == c && b == d
      {
        if conv == LinToTile {
          LinearFits(a, b, tileWidth, tileHeight);
          LinearFits(c, d, tileWidth, tileHeight);
          MulIsTimes(b, tileWidth);
          MulIsTimes(d, tileWidth);
          DivMod(b * tileWidth + a, tileWidth, b, a);
          DivMod(d * tileWidth + c, tileWidth, d, c);
        } else if tiling == TileY {
          TileYBijection(a, b, 0);
          TileYBijection(c, d, 0);
        } else {
          Tile4Bijection(a, b, 0);
          Tile4Bijection(c, d, 0);
        }
      }
    }
  }

  // -------------------------------------------------------------------
  // A row-major fill of a rectangle, for any placement `t` of the
  // coordinates and any values `v`
  // -------------------------------------------------------------------

  predicate InRect(x: nat, y: nat, x1: nat, x2: nat, y1: nat, y2: nat) {
    x1 <= x < x2 && y1 <= y < y2
  }

  /** Every coordinate of the rectangle is placed inside a buffer of `n`
      bytes. */
  ghost predicate Fits(t: (U8, U8) -> nat, n: nat, x1: nat, x2: nat, y1: nat, y2: nat) {
    x2 <= 256 && y2 <= 256 &&
    forall x: U8, y: U8 :: InRect(x, y, x1, x2, y1, y2) ==> t(x, y) < n
  }

  /** No two coordinates of the rectangle are placed at the same offset. */
  ghost predicate OneToOne(t: (U8, U8) -> nat, x1: nat, x2: nat, y1: nat, y2: nat) {
    forall a: U8, b: U8, c: U8, d: U8 ::
      (InRect(a, b, x1, x2, y1, y2) && InRect(c, d, x1, x2, y1, y2) && t(a, b) == t(c, d)) ==>
        a == c && b == d
  }

  /** No coordinate of the rectangle is placed at offset `k`. */
  ghost predicate Untouched(t: (U8, U8) -> nat, k: nat, x1: nat, x2: nat, y1: nat, y2: nat) {
    forall x: U8, y: U8 :: InRect(x, y, x1, x2, y1, y2) ==> t(x, y) != k
  }

  /** The buffer `s` after the writes of row `y` for columns `x1..x-1`. */
  ghost function FillRow(s: seq<Byte>, t: (U8, U8) -> nat, v: (U8, U8) -> Byte, y: U8, x1: nat, x: nat): (r: seq<Byte>)
    requires Fits(t, |s|, x1, x, y, y + 1)
    ensures |r| == |s|
  {
    if x <= x1 then s
    else
      assert InRect(x - 1, y, x1, x, y, y + 1);
      FillRow(s, t, v, y, x1, x - 1)[t(x - 1, y) := v(x - 1, y)]
  }

  /** The buffer `s` after the writes of rows `y1..y-1`. */
  ghost function FillRows(s: seq<Byte>, t: (U8, U8) -> nat, v: (U8, U8) -> Byte, y1: nat, y: nat, x1: nat, x2: nat): (r: seq<Byte>)
    requires Fits(t, |s|, x1, x2, y1, y)
    ensures |r| == |s|
  {
    if y <= y1 then s
    else FillRow(FillRows(s, t, v, y1, y - 1, x1, x2), t, v, y - 1, x1, x2)
  }

  /** A rectangle inside one whose writes fit fits too. */
  lemma FitsWithin(t: (U8, U8) -> nat, n: nat, x1: nat, x2: nat, y1: nat, y2: nat, a1: nat, a2: nat, b1: nat, b2: nat)
    requires Fits(t, n, x1, x2, y1, y2) && x1 <= a1 && a2 <= x2 && y1 <= b1 && b2 <= y2
    ensures Fits(t, n, a1, a2, b1, b2)
  {
    forall x: U8, y: U8 | InRect(x, y, a1, a2, b1, b2) ensures t(x, y) < n {
      assert InRect(x, y, x1, x2, y1, y2);
    }
  }

  /** After the fill, every coordinate of the rectangle holds its value
      at its offset, and every offset no coordinate is placed at keeps
      its old byte. */
  lemma {:induction false} FillEffect(s: seq<Byte>, t: (U8, U8) -> nat, v: (U8, U8) -> Byte, y1: nat, y: nat, x1: nat, x2: nat)
    requires Fits(t, |s|, x1, x2, y1, y) && OneToOne(t, x1, x2, y1, y)
    ensures forall x': U8, y': U8 :: InRect(x', y', x1, x2, y1, y) ==>
              FillRows(s, t, v, y1, y, x1, x2)[t(x', y')] == v(x', y')
    ensures forall k :: 0 <= k < |s| && Untouched(t, k, x1, x2, y1, y) ==> FillRows(s, t, v, y1, y, x1, x2)[k] == s[k]
    decreases y
  {
    if y > y1 {
      var last: U8 := y - 1;
      var prev := FillRows(s, t, v, y1, last, x1, x2);
      FitsWithin(t, |s|, x1, x2, y1, y, x1, x2, y1, last);
      assert OneToOne(t, x1, x2, y1, last) by {
        forall a: U8, b: U8, c: U8, d: U8 | InRect(a, b, x1, x2, y1, last) && InRect(c, d, x1, x2, y1, last)
          ensures t(a, b) == t(c, d) ==> a == c && b == d
        {
          assert InRect(a, b, x1, x2, y1, y) && InRect(c, d, x1, x2, y1, y);
        }
      }
      FillEffect(s, t, v, y1, last, x1, x2);
      FitsWithin(t, |s|, x1, x2, y1, y, x1, x2, last, y);
      forall a: U8, c: U8 | x1 <= a < x2 && x1 <= c < x2 && t(a, last) == t(c, last)
        ensures a == c
      {
        assert InRect(a, last, x1, x2, y1, y) && InRect(c, last, x1, x2, y1, y);
      }
      RowWrites(prev, t, v, last, x1, x2);
      RowKeeps(prev, t, v, last, x1, x2);
      forall x': U8, y': U8 | InRect(x', y', x1, x2, y1, y)
        ensures FillRows(s, t, v, y1, y, x1, x2)[t(x', y')] == v(x', y')
      {
        if y' < last {
          assert InRect(x', y', x1, x2, y1, last);
          forall x'': U8 | x1 <= x'' < x2 ensures t(x'', last) != t(x', y') {
            assert InRect(x'', last, x1, x2, y1, y);
          }
        } else {
          assert InRect(x', y', x1, x2, last, y);
        }
      }
      forall k | 0 <= k < |s| && Untouched(t, k, x1, x2, y1, y)
        ensures FillRows(s, t, v, y1, y, x1, x2)[k] == s[k]
      {
        forall x': U8, y': U8 | InRect(x', y', x1, x2, y1, last) ensures t(x', y') != k {
          assert InRect(x', y', x1, x2, y1, y);
        }
        forall x': U8 | x1 <= x' < x2 ensures t(x', last) != k {
          assert InRect(x', last, x1, x2, y1, y);
        }
      }
    }
  }

  /** The writes of one row put each column's value at its offset. */
  lemma {:induction false} RowWrites(s: seq<Byte>, t: (U8, U8) -> nat, v: (U8, U8) -> Byte, y: U8, x1: nat, x: nat)
    requires Fits(t, |s|, x1, x, y, y + 1)
    requires forall a: U8, c: U8 :: x1 <= a < x && x1 <= c < x && t(a, y) == t(c, y) ==> a == c
    ensures forall x': U8 :: x1 <= x' < x ==> FillRow(s, t, v, y, x1, x)[t(x', y)] == v(x', y)
    decreases x
  {
    if x > x1 {
      FitsWithin(t, |s|, x1, x, y, y + 1, x1, x - 1, y, y + 1);
      RowWrites(s, t, v, y, x1, x - 1);
      assert InRect(x - 1, y, x1, x, y, y + 1);
    }
  }

  /** The writes of one row leave every other offset alone. */
  lemma {:induction false} RowKeeps(s: seq<Byte>, t: (U8, U8) -> nat, v: (U8, U8) -> Byte, y: U8, x1: nat, x: nat)
    requires Fits(t, |s|, x1, x, y, y + 1)
    ensures forall k :: 0 <= k < |s| && (forall x': U8 :: x1 <= x' < x ==> t(x', y) != k) ==>
              FillRow(s, t, v, y, x1, x)[k] == s[k]
    decreases x
  {
    if x > x1 {
      FitsWithin(t, |s|, x1, x, y, y + 1, x1, x - 1, y, y + 1);
      RowKeeps(s, t, v, y, x1, x - 1);
      assert InRect(x - 1, y, x1, x, y, y + 1);
    }
  }

  /** In a linear image of `tw` x `th` bytes, (x, y) lies at `y * tw + x`,
      inside the image. */
  lemma LinearFits(x: nat, y: nat, tw: nat, th: nat)
    requires x < tw && y < th && Mul(tw, th) < U32
    ensures LinOff(y, tw, x) == Mul(y, tw) + x < Mul(tw, th) == Mul(tw, th) % U32
  {
    RowBelow(x, y, tw, th);
    MulSwap(tw, th);
  }

  lemma MulSwap(a: nat, b: nat)
    ensures Mul(a, b) == Mul(b, a)
  {
    MulIsTimes(a, b);
    MulIsTimes(b, a);
  }

  /** Row `y < th` of a `tw`-wide image ends before row `th` begins. */
  lemma {:induction false} RowBelow(x: nat, y: nat, tw: nat, th: nat)
    requires x < tw && y < th
    ensures Mul(y, tw) + x < Mul(th, tw)
  {
    if y < th - 1 {
      RowBelow(x, y, tw, th - 1);
    }
  }

}
