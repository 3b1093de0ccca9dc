/**
  Temperature compensation as the BMP280 drivers compute it: unsigned 32-bit words that wrap, stored into
  signed variables.  The formula is meant for signed words; how far the two agree is settled for every input.
 */
module Bmp280Temperature {

  const TWO32 := 0x1_0000_0000

  type u16 = x: int | 0 <= x < 0x1_0000
  type u20 = x: int | 0 <= x < 0x10_0000
  type u32 = x: int | 0 <= x < TWO32

  function U32(x: int): u32 {
    x % TWO32
  }

  function S32(x: u32): int {
    if x < TWO32 / 2 then x else x - TWO32
  }

  /* ---- The formula on mathematical integers; a right shift rounds down ---- */

  function Product1(adcT: int, digT1: int, digT2: int): int {
    (adcT / 8 - 2 * digT1) * digT2
  }

  function Square(adcT: int, digT1: int): int {
    (adcT / 16 - digT1) * (adcT / 16 - digT1)
  }

  function Product2(adcT: int, digT1: int, digT3: int): int {
    Square(adcT, digT1) / 4096 * digT3
  }

  function Fine(adcT: int, digT1: int, digT2: int, digT3: int): int {
    Product1(adcT, digT1, digT2) / 2048 + Product2(adcT, digT1, digT3) / 16384
  }

  function Intended(adcT: int, digT1: int, digT2: int, digT3: int): int {
    (Fine(adcT, digT1, digT2, digT3) * 5 + 128) / 256
  }

  /**
    The intended result, less 40960 for every time the first product leaves a 32-bit word and 5120 for every
    time the second one does.
   */
  function Computed(adcT: int, digT1: int, digT2: int, digT3: int): int {
    Intended(adcT, digT1, digT2, digT3)
    - 40960 * (Product1(adcT, digT1, digT2) / TWO32) - 5120 * (Product2(adcT, digT1, digT3) / TWO32)
  }

  /** The same before the last rounding: what the code keeps in t_fine. */
  function ComputedFine(adcT: int, digT1: int, digT2: int, digT3: int): int {
    Fine(adcT, digT1, digT2, digT3)
    - 0x20_0000 * (Product1(adcT, digT1, digT2) / TWO32) - 0x4_0000 * (Product2(adcT, digT1, digT3) / TWO32)
  }

  /* ---- The code ---- */

  /** The drivers' computation, word by word; what it comes to is settled for every reading and coefficient. */
  method Compensate(adcT: u20, digT1: u16, digT2: u16, digT3: u16) returns (t: int, tFine: int)
    ensures t == Computed(adcT, digT1, digT2, digT3)
    ensures tFine == ComputedFine(adcT, digT1, digT2, digT3)
    ensures -128 <= 5 * tFine - 256 * t <= 127
  {
    var var1 := S32(U32(U32(adcT / 8 - digT1 * 2) * digT2) / 2048);
    var var2 := S32(U32(U32(U32(adcT / 16 - digT1) * U32(adcT / 16 - digT1)) / 4096 * digT3) / 16384);
    tFine := var1 + var2;
    t := (tFine * 5 + 128) / 256;

    WrappedProduct(adcT / 8 - digT1 * 2, digT2);
    SquareSurvives(adcT, digT1);
    ShiftWrapped(Product1(adcT, digT1, digT2));
    ShiftWrapped(Product2(adcT, digT1, digT3));
    SignedShift(tFine, Fine(adcT, digT1, digT2, digT3),
                Product1(adcT, digT1, digT2) / TWO32, Product2(adcT, digT1, digT3) / TWO32);
  }

  // q is z over m, rounded down.
  predicate Floor(q: int, z: int, m: nat) {
    m * q <= z < m * (q + 1)
  }

  /**
    What the code keeps in t_fine, for every input: the two products over 2048 and over 16384, each rounded
    down, less what is lost for every time a product leaves its 32-bit word.
   */
  lemma {:induction false} FineIs(adcT: u20, digT1: u16, digT2: u16, digT3: u16, a: int, b: int, q1: int, q2: int)
    requires Floor(a, (adcT / 8 - 2 * digT1) * digT2, 2048) && Floor(q1, (adcT / 8 - 2 * digT1) * digT2, 0x1_0000_0000)
    requires var square := (adcT / 16 - digT1) * (adcT / 16 - digT1);
             Floor(b, square / 4096 * digT3, 16384) && Floor(q2, square / 4096 * digT3, 0x1_0000_0000)
    ensures ComputedFine(adcT, digT1, digT2, digT3) == a + b - 0x20_0000 * q1 - 0x4_0000 * q2
  {
    FloorDivides(Product1(adcT, digT1, digT2), a, q1, b, q2);
    FloorDivides(Product2(adcT, digT1, digT3), a, q1, b, q2);
  }

  lemma {:induction false} FloorDivides(z: int, a: int, q1: int, b: int, q2: int)
    ensures Floor(a, z, 2048) && Floor(q1, z, TWO32) ==> a == z / 2048 && q1 == z / TWO32
    ensures Floor(b, z, 16384) && Floor(q2, z, TWO32) ==> b == z / 16384 && q2 == z / TWO32
  {
  }

  /** In particular, where no product leaves its word, it is the formula's own. */
  lemma {:induction false} FineExact(adcT: u20, digT1: u16, digT2: u16, digT3: u16, a: int, b: int)
    requires Floor(a, (adcT / 8 - 2 * digT1) * digT2, 2048)
    requires Floor(b, (adcT / 16 - digT1) * (adcT / 16 - digT1) / 4096 * digT3, 16384)
    requires 0 <= (adcT / 8 - 2 * digT1) * digT2 < 0x1_0000_0000
    requires 0 <= (adcT / 16 - digT1) * (adcT / 16 - digT1) / 4096 * digT3 < 0x1_0000_0000
    ensures ComputedFine(adcT, digT1, digT2, digT3) == Fine(adcT, digT1, digT2, digT3) == a + b
    ensures -128 <= 5 * (a + b) - 256 * Computed(adcT, digT1, digT2, digT3) <= 127
    ensures Computed(adcT, digT1, digT2, digT3) == Intended(adcT, digT1, digT2, digT3)
  {
    FineIs(adcT, digT1, digT2, digT3, a, b, 0, 0);
    var p1, p2 := Product1(adcT, digT1, digT2), Product2(adcT, digT1, digT3);
    hide Product1, Product2;
    assert p1 / TWO32 == 0 && p2 / TWO32 == 0;
  }

  lemma {:induction false} WrapAround(z: int, j: int)
    ensures U32(z + j * TWO32) == U32(z)
  {
  }

  // Wrapping a factor first makes no difference to the wrapped product.
  lemma {:induction false} WrappedProduct(d: int, m: int)
    ensures U32(U32(d) * m) == U32(d * m)
  {
    var k := d / TWO32;
    assert U32(d) == d - k * TWO32;
    assert (d - k * TWO32) * m == d * m + (-(k * m)) * TWO32;
    WrapAround(d * m, -(k * m));
  }

  lemma {:induction false} Unwrapped(z: int)
    requires 0 <= z < TWO32
    ensures U32(z) == z
  {
  }

  lemma {:induction false} Commute(x: int, y: int)
    ensures x * y == y * x
  {
  }

  // Both factors of a square may wrap.
  lemma {:induction false} WrappedSquare(d: int)
    ensures U32(U32(d) * U32(d)) == U32(d * d)
  {
    hide U32;
    var e: int := U32(d);
    WrappedProduct(d, e);
    Commute(d, e);
    WrappedProduct(d, d);
  }

  /** The squared difference is exact even when the difference itself has wrapped below zero. */
  lemma {:induction false} SquareSurvives(adcT: u20, digT1: u16)
    ensures var d := U32(adcT / 16 - digT1); U32(d * d) == Square(adcT, digT1)
  {
    hide U32;
    var d := adcT / 16 - digT1;
    WrappedSquare(d);
    SquareBound(d, 65535);
    Unwrapped(d * d);
  }

  lemma {:induction false} SquareBound(d: int, m: int)
    requires -m <= d <= m
    ensures 0 <= d * d <= m * m
  {
    if d >= 0 {
      assert d * d <= d * m <= m * m;
    } else {
      assert (-d) * (-d) <= (-d) * m <= m * m;
      assert (-d) * (-d) == d * d;
    }
  }

  // What wrapping costs once the low bits are shifted out.
  lemma {:induction false} ShiftWrapped(z: int)
    ensures S32(U32(z) / 2048) == z / 2048 - 0x20_0000 * (z / TWO32)
    ensures S32(U32(z) / 16384) == z / 16384 - 0x4_0000 * (z / TWO32)
  {
    var q := z / TWO32;
    assert z == q * TWO32 + U32(z);
  }

  lemma {:induction false} SignedShift(tFine: int, fine: int, q1: int, q2: int)
    requires tFine == fine - 0x20_0000 * q1 - 0x4_0000 * q2
    ensures (tFine * 5 + 128) / 256 == (fine * 5 + 128) / 256 - 40960 * q1 - 5120 * q2
  {
    assert tFine * 5 + 128 == fine * 5 + 128 + 256 * (-40960 * q1 - 5120 * q2);
  }

  /* ---- When the code is right ---- */

  // Bounds on the coefficients as the code declares them, unsigned, under which one wrap decides everything.
  predicate Plausible(digT2: u16, digT3: u16) {
    digT2 <= 32767 && digT3 <= 4096
  }

  lemma {:induction false} ProductBound(x: int, lo: int, hi: int, m: nat, most: nat)
    requires lo <= x <= hi && lo <= 0 <= hi && m <= most
    ensures lo * most <= x * m <= hi * most
  {
    if x >= 0 {
      assert x * m <= x * most <= hi * most;
      assert x * m >= 0 && lo * most <= 0;
    } else {
      assert x * m >= x * most >= lo * most;
      assert x * m <= 0 && hi * most >= 0;
    }
  }

  lemma {:induction false} FirstWraps(adcT: u20, digT1: u16, digT2: u16)
    requires digT2 <= 32767
    ensures Product1(adcT, digT1, digT2) / TWO32 == if adcT >= 16 * digT1 || digT2 == 0 then 0 else -1
  {
    var u := adcT / 8 - 2 * digT1;
    if u >= 0 {
      ProductBound(u, 0, 131071, digT2, 32767);
    } else {
      ProductBound(u, -131070, 0, digT2, 32767);
      if digT2 > 0 {
        MulMonotone(u, -1, digT2);
      }
    }
  }

  lemma {:induction false} SecondFits(adcT: u20, digT1: u16, digT3: u16)
    requires digT3 <= 4096
    ensures 0 <= Product2(adcT, digT1, digT3) < TWO32
    ensures Product2(adcT, digT1, digT3) / 16384 <= 262136
  {
    hide Square;
    SquareBounds(adcT, digT1);
    ProductBound(Square(adcT, digT1) / 4096, 0, 1048544, digT3, 4096);
  }

  // How often each product can leave its word, whatever the coefficients.
  lemma {:induction false} FirstWrapCount(adcT: u20, digT1: u16, digT2: u16)
    ensures -2 * TWO32 <= Product1(adcT, digT1, digT2) < 2 * TWO32
  {
    ProductBound(adcT / 8 - 2 * digT1, -131070, 131071, digT2, 65535);
  }

  lemma {:induction false} SquareBounds(adcT: u20, digT1: u16)
    ensures 0 <= Square(adcT, digT1) / 4096 <= 1048544
  {
    SquareBound(adcT / 16 - digT1, 65535);
  }

  lemma {:induction false} SecondWrapCount(adcT: u20, digT1: u16, digT3: u16)
    ensures 0 <= Product2(adcT, digT1, digT3) < 16 * TWO32
  {
    hide Square;
    SquareBounds(adcT, digT1);
    ProductBound(Square(adcT, digT1) / 4096, 0, 1048544, digT3, 65535);
  }

  /**
    Exactly when the drivers compute the intended temperature, for every reading and every coefficient:
    when neither product leaves its word, or when the first is negative, by less than one word, and the
    second is eight words too large, so that the two errors cancel.
   */
  lemma {:induction false} IntendedIff(adcT: u20, digT1: u16, digT2: u16, digT3: u16)
    ensures var p1, p2 := Product1(adcT, digT1, digT2), Product2(adcT, digT1, digT3);
            Computed(adcT, digT1, digT2, digT3) == Intended(adcT, digT1, digT2, digT3) <==>
            || (0 <= p1 < TWO32 && p2 < TWO32)
            || (-TWO32 <= p1 < 0 && 8 * TWO32 <= p2 < 9 * TWO32)
  {
    hide Product1, Product2, Intended;
    FirstWrapCount(adcT, digT1, digT2);
    SecondWrapCount(adcT, digT1, digT3);
  }

  /**
    For plausible coefficients that comes down to the reading being at or above the reference point, or
    digT2 being zero; otherwise the result is 40960 too high.
   */
  lemma {:induction false} IntendedIffWarm(adcT: u20, digT1: u16, digT2: u16, digT3: u16)
    requires Plausible(digT2, digT3)
    ensures var computed, intended := Computed(adcT, digT1, digT2, digT3), Intended(adcT, digT1, digT2, digT3);
            && (computed == intended <==> adcT >= 16 * digT1 || digT2 == 0)
            && (adcT < 16 * digT1 && digT2 > 0 ==> computed == intended + 40960)
  {
    FirstWraps(adcT, digT1, digT2);
    SecondFits(adcT, digT1, digT3);
  }

  function Signed16(x: u16): int {
    if x < 0x8000 then x else x - 0x1_0000
  }

  lemma {:induction false} SignedTerm(x: int, m: u16)
    ensures x * m / 2048 == x * Signed16(m) / 2048 + if m < 0x8000 then 0 else 32 * x
    ensures x * m / 16384 == x * Signed16(m) / 16384 + if m < 0x8000 then 0 else 4 * x
  {
    if m >= 0x8000 {
      var y := x * Signed16(m);
      assert x * m == y + 0x1_0000 * x;
      assert (y + 0x1_0000 * x) / 2048 == y / 2048 + 32 * x && (y + 0x1_0000 * x) / 16384 == y / 16384 + 4 * x;
    }
  }

  /**
    The code reads all coefficients as unsigned words.  Its t_fine differs from that of the formula with signed
    digT2 and digT3 by exactly what the unsigned reading adds less what the wrapping takes away.
   */
  lemma {:induction false} SignedCoefficients(adcT: u20, digT1: u16, digT2: u16, digT3: u16)
    ensures var added := (if digT2 < 0x8000 then 0 else 32 * (adcT / 8 - 2 * digT1))
                         + (if digT3 < 0x8000 then 0 else 4 * (Square(adcT, digT1) / 4096));
            var lost := 0x20_0000 * (Product1(adcT, digT1, digT2) / TWO32)
                        + 0x4_0000 * (Product2(adcT, digT1, digT3) / TWO32);
            ComputedFine(adcT, digT1, digT2, digT3)
              == Fine(adcT, digT1, Signed16(digT2), Signed16(digT3)) + added - lost
  {
    SignedTerm(adcT / 8 - 2 * digT1, digT2);
    SignedTerm(Square(adcT, digT1) / 4096, digT3);
  }

  /**
    At or above the reference point and with digT2 not negative: the code agrees with the signed formula if and
    only if digT3 is not negative and its product fits its word, or digT3 is negative and the reading is less than
    1024 above the reference point.
   */
  lemma {:induction false} SignedIffWarm(adcT: u20, digT1: u16, digT2: u16, digT3: u16)
    requires digT2 < 0x8000 && adcT >= 16 * digT1
    ensures ComputedFine(adcT, digT1, digT2, digT3) == Fine(adcT, digT1, Signed16(digT2), Signed16(digT3)) <==>
            if digT3 < 0x8000 then Product2(adcT, digT1, digT3) < TWO32 else adcT < 16 * digT1 + 1024
  {
    SignedCoefficients(adcT, digT1, digT2, digT3);
    FirstWraps(adcT, digT1, digT2);
    SecondWrapCount(adcT, digT1, digT3);
    if digT3 >= 0x8000 {
      NearReference(adcT / 16 - digT1);
      SquareBounds(adcT, digT1);
      WrapTakesLess(Square(adcT, digT1) / 4096, digT3);
    }
  }

  lemma {:induction false} NearReference(d: nat)
    ensures d * d / 4096 == 0 <==> d < 64
  {
    if d < 64 { SquareMonotone(d, 63); } else { SquareMonotone(64, d); }
  }

  // The unsigned reading adds 4 * s, and wrapping never takes all of it away.
  lemma {:induction false} WrapTakesLess(s: nat, m: u16)
    ensures 4 * s == 0x4_0000 * (s * m / TWO32) <==> s == 0
  {
    var q := s * m / TWO32;
    MulMonotone(m, 0xffff, s);
    Commute(s, m);
    assert q * TWO32 <= s * m <= 0xffff * s;
  }

  /** A part with a negative digT3 is read wrongly at room temperature: 29.83 degrees for 25.08. */
  lemma {:induction false} SignedDiffers()
    ensures Computed(519888, 27504, 26435, 0x1_0000 - 1000) == 2983
    ensures Intended(519888, 27504, 26435, -1000) == 2508 && Signed16(0x1_0000 - 1000) == -1000
  {
    assert Product1(519888, 27504, 26435) == 263768430 && Square(519888, 27504) == 24890121;
    assert Product2(519888, 27504, 64536) == 6076 * 64536 && Product2(519888, 27504, -1000) == 6076 * -1000;
  }

  /** For plausible coefficients, at or above the reference point no product wraps and the result is in range. */
  lemma {:induction false} WarmRange(adcT: u20, digT1: u16, digT2: u16, digT3: u16)
    requires Plausible(digT2, digT3) && adcT >= 16 * digT1
    ensures 0 <= Product1(adcT, digT1, digT2) < TWO32 && 0 <= Product2(adcT, digT1, digT3) < TWO32
    ensures 0 <= Computed(adcT, digT1, digT2, digT3) <= 46078
  {
    FirstWraps(adcT, digT1, digT2);
    SecondFits(adcT, digT1, digT3);
    ProductBound(adcT / 8 - 2 * digT1, 0, 131071, digT2, 32767);
  }

  /** There the temperature never falls when the reading rises. */
  lemma {:induction false} WarmMonotone(low: u20, high: u20, digT1: u16, digT2: u16, digT3: u16)
    requires Plausible(digT2, digT3) && 16 * digT1 <= low <= high
    ensures Computed(low, digT1, digT2, digT3) <= Computed(high, digT1, digT2, digT3)
  {
    IntendedIffWarm(low, digT1, digT2, digT3);
    IntendedIffWarm(high, digT1, digT2, digT3);
    IntendedMonotone(low, high, digT1, digT2, digT3);
  }

  lemma {:induction false} IntendedMonotone(low: u20, high: u20, digT1: u16, digT2: u16, digT3: u16)
    requires 16 * digT1 <= low <= high
    ensures Intended(low, digT1, digT2, digT3) <= Intended(high, digT1, digT2, digT3)
  {
    MulMonotone(low / 8 - 2 * digT1, high / 8 - 2 * digT1, digT2);
    SquareMonotone(low / 16 - digT1, high / 16 - digT1);
    MulMonotone(Square(low, digT1) / 4096, Square(high, digT1) / 4096, digT3);
  }

  lemma {:induction false} SquareMonotone(a: int, b: int)
    requires 0 <= a <= b
    ensures a * a <= b * b
  {
    MulMonotone(a, b, a);
    MulMonotone(a, b, b);
    Commute(a, b);
  }

  lemma {:induction false} MulMonotone(x: int, y: int, m: nat)
    requires x <= y
    ensures x * m <= y * m
  {
  }

  /* ---- Accuracy ---- */

  /** The formula without any rounding. */
  function Exact(adcT: int, digT1: int, digT2: int, digT3: int): real {
    var d8 := adcT as real / 8.0 - 2.0 * digT1 as real;
    var d16 := adcT as real / 16.0 - digT1 as real;
    5.0 * (d8 * digT2 as real / 2048.0 + d16 * d16 / 4096.0 * digT3 as real / 16384.0) / 256.0
  }

  // Rounding in the first term, times 2^14.
  lemma {:induction false} FirstTermError(adcT: u20, digT1: u16, digT2: u16)
    requires digT2 <= 32767
    ensures 0 <= (adcT - 16 * digT1) * digT2 - 16384 * (Product1(adcT, digT1, digT2) / 2048) < 15 * 16384
  {
    var x, u := adcT - 16 * digT1, adcT / 8 - 2 * digT1;
    var r := x - 8 * u;
    assert 0 <= r <= 7;
    ProductBound(r, 0, 7, digT2, 32767);
    assert x * digT2 == 8 * (u * digT2) + r * digT2;
  }

  // Rounding in the second term, times 2^34.
  lemma {:induction false} SecondTermError(adcT: u20, digT1: u16, digT3: u16)
    requires digT3 <= 4096
    ensures var x := adcT - 16 * digT1;
            var e := x * x * digT3 - 0x4_0000_0000 * (Product2(adcT, digT1, digT3) / 16384);
            -8 * 0x4_0000_0000 < e < 9 * 0x4_0000_0000
  {
    var x, w := adcT - 16 * digT1, adcT / 16 - digT1;
    var r := x - 16 * w;
    assert 0 <= r <= 15 && -65535 <= w <= 65535;
    var s := Square(adcT, digT1) / 4096;
    ProductBound(w, -65535, 65535, r, 15);
    SquareBound(r, 15);
    assert x * x == 256 * (w * w) + 32 * (w * r) + r * r by {
      assert x == 16 * w + r;
      assert x * x == (16 * w + r) * (16 * w + r);
    }
    var g := x * x - 0x10_0000 * s;
    assert -31456800 <= g <= 31457025 + 0x10_0000;
    ProductBound(g, -31456800, 32505601, digT3, 4096);
    assert x * x * digT3 == g * digT3 + 0x10_0000 * (s * digT3) by {
      assert x * x == g + 0x10_0000 * s;
      Distribute(g, 0x10_0000 * s, digT3);
    }
  }

  lemma {:induction false} Distribute(a: int, b: int, m: int)
    ensures (a + b) * m == a * m + b * m
  {
  }

  // The exact value as one fraction over 2^42.
  lemma {:induction false} ExactFraction(adcT: int, digT1: int, digT2: int, digT3: int)
    ensures var x := adcT - 16 * digT1;
            Exact(adcT, digT1, digT2, digT3) * 4398046511104.0
              == (5 * (0x10_0000 * (x * digT2) + x * x * digT3)) as real
  {
    var x := adcT - 16 * digT1;
    var y, m, n := x as real, digT2 as real, digT3 as real;
    var d8 := adcT as real / 8.0 - 2.0 * digT1 as real;
    var d16 := adcT as real / 16.0 - digT1 as real;
    assert d8 == y / 8.0 && d16 == y / 16.0;
    assert d8 * m == y * m / 8.0;
    assert d16 * d16 == y * y / 256.0;
    assert d16 * d16 / 4096.0 * n == y * y * n / 1048576.0;
    assert Exact(adcT, digT1, digT2, digT3) == 5.0 * (y * m / 8.0 / 2048.0 + y * y * n / 1048576.0 / 16384.0) / 256.0;
    assert (x * digT2) as real == y * m && (x * x) as real == y * y && (x * x * digT3) as real == y * y * n;
  }

  /**
    For plausible coefficients the intended result is within one unit of the unrounded formula, on both
    sides of the reference point; so is the computed one at or above it.
   */
  lemma {:induction false} IntendedAccurate(adcT: u20, digT1: u16, digT2: u16, digT3: u16)
    requires Plausible(digT2, digT3)
    ensures -1.0 < Intended(adcT, digT1, digT2, digT3) as real - Exact(adcT, digT1, digT2, digT3) < 1.0
    ensures adcT >= 16 * digT1 ==>
              -1.0 < Computed(adcT, digT1, digT2, digT3) as real - Exact(adcT, digT1, digT2, digT3) < 1.0
  {
    var x := adcT - 16 * digT1;
    var t, fine := Intended(adcT, digT1, digT2, digT3), Fine(adcT, digT1, digT2, digT3);
    var n := 0x10_0000 * (x * digT2) + x * x * digT3;
    FirstTermError(adcT, digT1, digT2);
    SecondTermError(adcT, digT1, digT3);
    assert -8 * 0x4_0000_0000 < n - 0x4_0000_0000 * fine < 24 * 0x4_0000_0000;
    assert -128 <= 5 * fine - 256 * t <= 127;
    assert -256 * 0x4_0000_0000 < 5 * n - 4398046511104 * t < 256 * 0x4_0000_0000;
    ExactFraction(adcT, digT1, digT2, digT3);
    IntendedIffWarm(adcT, digT1, digT2, digT3);
  }
}
