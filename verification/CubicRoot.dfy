/** The integer cube root of the CUBIC window computation (cubiccc.cc), the K of section 4.1
    of RFC 8312: position of the top bit, a table of leading bits, one Newton step. */
module CubicRoot {
  import opened MachineInts
  import opened Powers

  // ---- position of the top set bit -------------------------------------------

  /** n is the number of bits of x: 0 for 0, otherwise one more than the index of the top
      set bit. */
  ghost predicate BitLength(x: nat, n: int) {
    n >= 0 && x < Pow2(n) && (n > 0 ==> Pow2(n - 1) <= x)
  }

  lemma BitLengthIsUnique(x: nat, m: int, n: int)
    requires BitLength(x, m) && BitLength(x, n)
    ensures m == n
  {
    if m < n { Pow2Monotone(m, n - 1); }
    if n < m { Pow2Monotone(n, m - 1); }
  }

  // The mask tests of fls ask whether the word is below a power of two, and the shifts they
  // guard lose no bit.

  lemma Mask16(w: bv32)
    ensures if w & 0xffff0000 == 0 then (w << 16) as int == 0x1_0000 * w as int else w as int >= 0x1_0000
  {
  }

  lemma Mask8(w: bv32)
    ensures if w & 0xff000000 == 0 then (w << 8) as int == 0x100 * w as int else w as int >= 0x100_0000
  {
  }

  lemma Mask4(w: bv32)
    ensures if w & 0xf0000000 == 0 then (w << 4) as int == 0x10 * w as int else w as int >= 0x1000_0000
  {
  }

  lemma Mask2(w: bv32)
    ensures if w & 0xc0000000 == 0 then (w << 2) as int == 4 * w as int else w as int >= 0x4000_0000
  {
  }

  lemma Mask1(w: bv32)
    ensures if w & 0x80000000 == 0 then (w << 1) as int == 2 * w as int else w as int >= 0x8000_0000
  {
  }

  /** The word shifted up by k bits. */
  ghost function Scaled(word: nat, k: nat): nat {
    if k == 0 then word else 2 * Scaled(word, k - 1)
  }

  lemma {:induction false} ScaledIs(word: nat, k: nat)
    ensures Scaled(word, k) == word * Pow2(k)
  {
    if k > 0 {
      ScaledIs(word, k - 1);
      MulAssoc(word, Pow2(k - 1), 2);
    }
  }

  /** One halving of the search in fls: the word is shifted up by 16, 8, 4, 2 or 1 more bits. */
  lemma ShiftStep(word: nat, k: nat)
    ensures Scaled(word, k + 1) == 2 * Scaled(word, k)
    ensures Scaled(word, k + 2) == 4 * Scaled(word, k)
    ensures Scaled(word, k + 4) == 0x10 * Scaled(word, k)
    ensures Scaled(word, k + 8) == 0x100 * Scaled(word, k)
    ensures Scaled(word, k + 16) == 0x1_0000 * Scaled(word, k)
  {
    ShiftBy(word, k, 1);
    ShiftBy(word, k, 2);
    ShiftBy(word, k, 4);
    ShiftBy(word, k, 8);
    ShiftBy(word, k, 16);
    SmallPowers();
  }

  lemma {:induction false} ShiftBy(word: nat, k: nat, bits: nat)
    ensures Scaled(word, k + bits) == Pow2(bits) * Scaled(word, k)
    decreases bits
  {
    if bits > 0 {
      ShiftBy(word, k, bits - 1);
      MulAssoc(2, Pow2(bits - 1), Scaled(word, k));
    }
  }

  lemma MulAssoc(x: int, y: int, z: int)
    ensures x * y * z == x * (y * z)
  {
  }

  /** x is the word shifted up, with its top bit among the top r bits, and at least low. */
  ghost predicate ShiftedTo(word: nat, x: int, r: int, low: int) {
    1 <= r <= 32 && x == Scaled(word, 32 - r) && low <= x
  }

  lemma SmallPowers()
    ensures Pow2(0) == 1 && Pow2(1) == 2 && Pow2(2) == 4 && Pow2(4) == 0x10 && Pow2(8) == 0x100 && Pow2(16) == 0x1_0000
  {
    assert Pow2(1) == 2 && Pow2(2) == 4;
    Pow2Add(2, 2);
    Pow2Add(4, 4);
    Pow2Add(8, 8);
  }

  // The five steps of fls: if the top bits are clear, the word is shifted up by them.

  method ShiftBy16(ghost word: nat, x: bv32, r: int) returns (y: bv32, q: int)
    requires ShiftedTo(word, x as int, r, 1) && r >= 32
    ensures ShiftedTo(word, y as int, q, 0x1_0000) && q >= 16
  {
    Mask16(x);
    ShiftStep(word, 32 - r);
    if x & 0xffff0000 == 0 {
      return x << 16, r - 16;
    }
    return x, r;
  }

  method ShiftBy8(ghost word: nat, x: bv32, r: int) returns (y: bv32, q: int)
    requires ShiftedTo(word, x as int, r, 0x1_0000) && r >= 16
    ensures ShiftedTo(word, y as int, q, 0x100_0000) && q >= 8
  {
    Mask8(x);
    ShiftStep(word, 32 - r);
    if x & 0xff000000 == 0 {
      return x << 8, r - 8;
    }
    return x, r;
  }

  method ShiftBy4(ghost word: nat, x: bv32, r: int) returns (y: bv32, q: int)
    requires ShiftedTo(word, x as int, r, 0x100_0000) && r >= 8
    ensures ShiftedTo(word, y as int, q, 0x1000_0000) && q >= 4
  {
    Mask4(x);
    ShiftStep(word, 32 - r);
    if x & 0xf0000000 == 0 {
      return x << 4, r - 4;
    }
    return x, r;
  }

  method ShiftBy2(ghost word: nat, x: bv32, r: int) returns (y: bv32, q: int)
    requires ShiftedTo(word, x as int, r, 0x1000_0000) && r >= 4
    ensures ShiftedTo(word, y as int, q, 0x4000_0000) && q >= 2
  {
    Mask2(x);
    ShiftStep(word, 32 - r);
    if x & 0xc0000000 == 0 {
      return x << 2, r - 2;
    }
    return x, r;
  }

  method ShiftBy1(ghost word: nat, x: bv32, r: int) returns (y: bv32, q: int)
    requires ShiftedTo(word, x as int, r, 0x4000_0000) && r >= 2
    ensures ShiftedTo(word, y as int, q, 0x8000_0000) && q >= 1
  {
    Mask1(x);
    ShiftStep(word, 32 - r);
    if x & 0x80000000 == 0 {
      return x << 1, r - 1;
    }
    return x, r;
  }

  /** fls */
  method Fls(word: bv32) returns (r: int)
    ensures BitLength(word as int, r) && r <= 32
  {
    if word == 0 {
      assert Pow2(0) == 1;
      return 0;
    }
    var x;
    x, r := ShiftBy16(word as int, word, 32);
    x, r := ShiftBy8(word as int, x, r);
    x, r := ShiftBy4(word as int, x, r);
    x, r := ShiftBy2(word as int, x, r);
    x, r := ShiftBy1(word as int, x, r);
    TopBitReached(word as int, x as int, r);
  }

  lemma TopBitReached(word: nat, x: nat, r: nat)
    requires 1 <= r <= 32 && x == Scaled(word, 32 - r) && 0x8000_0000 <= x < TWO32
    ensures BitLength(word, r)
  {
    var p := Pow2(32 - r);
    ScaledIs(word, 32 - r);
    Pow2Of32();
    Pow2Add(32 - r, r);
    Pow2Add(32 - r, r - 1);
    assert p * Pow2(r) == TWO32 && p * Pow2(r - 1) == 0x8000_0000;
    CompareScaled(word, Pow2(r - 1), Pow2(r), p);
  }

  lemma Pow2Of32()
    ensures Pow2(31) == 0x8000_0000 && Pow2(32) == TWO32
  {
    assert Pow2(4) == 16;
    Pow2Add(4, 4);
    Pow2Add(8, 8);
    Pow2Add(16, 16);
  }

  lemma CompareScaled(x: int, lo: int, hi: int, p: int)
    requires p > 0 && p * lo <= x * p < p * hi
    ensures lo <= x < hi
  {
  }

  lemma MulMonotone(x: int, y: int, p: int)
    requires x <= y && p >= 0
    ensures x * p <= y * p
  {
  }

  /** fls64 */
  method Fls64(x: uint64) returns (r: int)
    ensures BitLength(x, r) && r <= 64
  {
    var h := x / TWO32;
    if h != 0 {
      var n := FlsOf(h);
      HighWord(x, h, n);
      return n + 32;
    }
    r := FlsOf(x % TWO32);
  }

  /** fls of a number that fits 32 bits. */
  method FlsOf(word: uint32) returns (r: int)
    ensures BitLength(word, r) && r <= 32
  {
    WordOf(word);
    r := Fls(word as bv32);
  }

  lemma WordOf(word: uint32)
    ensures (word as bv32) as int == word
  {
    FitsWord(word);
  }

  lemma FitsWord(word: uint32)
    requires word == word % TWO32
    ensures (word as bv32) as int == word
  {
  }

  lemma HighWord(x: nat, h: nat, n: int)
    requires h == x / TWO32 && h > 0 && BitLength(h, n)
    ensures BitLength(x, n + 32)
  {
    Pow2Of32();
    Pow2Add(n, 32);
    Pow2Add(n - 1, 32);
  }

  // ---- the reference: the integer part of the cube root -------------------------

  function Cube(x: int): int { x * x * x }

  ghost predicate IsFloorCbrt(a: nat, r: nat) { Cube(r) <= a < Cube(r + 1) }

  ghost function FloorCbrt(a: nat): (r: nat)
    ensures IsFloorCbrt(a, r)
  {
    if a == 0 then 0
    else
      var r' := FloorCbrt(a - 1);
      CubeGrows(r' + 1, r' + 2);
      if Cube(r' + 1) <= a then r' + 1 else r'
  }

  lemma CubeGrows(x: nat, y: nat)
    requires x < y
    ensures Cube(x) < Cube(y)
  {
  }

  /** Comparing cubes compares the numbers. */
  lemma CubeReflects(x: nat, y: nat)
    requires Cube(x) < Cube(y)
    ensures x < y
  {
  }

  lemma CubeOfProduct(x: int, y: int)
    ensures Cube(x * y) == Cube(x) * Cube(y)
  {
  }

  /** The result is off by at most one and a 400th. */
  ghost predicate Close(x: int, r: int) { 400 * Abs(x - r) <= 400 + r }

  // ---- the table -----------------------------------------------------------------

  /** The 64 entries of the table, eight to a row. */
  function V(i: int): uint8
    requires 0 <= i < 64
  {
    if i < 8 then [0, 54, 54, 54, 118, 118, 118, 118][i]
    else if i < 16 then [123, 129, 134, 138, 143, 147, 151, 156][i - 8]
    else if i < 24 then [157, 161, 164, 168, 170, 173, 176, 179][i - 16]
    else if i < 32 then [181, 185, 187, 190, 192, 194, 197, 199][i - 24]
    else if i < 40 then [200, 202, 204, 206, 209, 211, 213, 215][i - 32]
    else if i < 48 then [217, 219, 221, 222, 224, 225, 227, 229][i - 40]
    else if i < 56 then [231, 232, 234, 236, 237, 239, 240, 242][i - 48]
    else [244, 245, 246, 248, 250, 251, 252, 254][i - 56]
  }

  /** What the initial guess needs of a table entry: (v + 10) / 64 exceeds the cube root of
      s by at most 5.2 percent, and falls short of that of s + 1 by at most a thousandth,
      for s > 8 not at all. */
  ghost predicate GoodEntry(s: int, v: int) {
    && 0 <= v <= 254
    && 1000000000 * Cube(v + 10) <= 305201835671552 * s             // (64 * 1052)^3
    && 261358354169856 * (s + 1) <= 1000000000 * Cube(v + 10)       // (64 * 999)^3
    && (s > 8 ==> 262144 * (s + 1) <= Cube(v + 10))                    // 64^3
    && (s == 8 ==> v == 123)
  }

  ghost predicate GoodFrom(s: nat, end: nat)
    requires end <= 64
    decreases 64 - s
  {
    s >= end || (GoodEntry(s, V(s)) && GoodFrom(s + 1, end))
  }

  lemma Row1IsGood()
    ensures GoodFrom(8, 16)
  {
  }

  lemma Row2IsGood()
    ensures GoodFrom(16, 24)
  {
  }

  lemma Row3IsGood()
    ensures GoodFrom(24, 32)
  {
  }

  lemma Row4IsGood()
    ensures GoodFrom(32, 40)
  {
  }

  lemma Row5IsGood()
    ensures GoodFrom(40, 48)
  {
  }

  lemma Row6IsGood()
    ensures GoodFrom(48, 56)
  {
  }

  lemma Row7IsGood()
    ensures GoodFrom(56, 64)
  {
  }

  lemma TableIsGood(s: nat)
    requires 8 <= s < 64
    ensures GoodEntry(s, V(s))
  {
    if s < 16 { Row1IsGood(); GoodFromHere(8, 16, s); }
    else if s < 24 { Row2IsGood(); GoodFromHere(16, 24, s); }
    else if s < 32 { Row3IsGood(); GoodFromHere(24, 32, s); }
    else if s < 40 { Row4IsGood(); GoodFromHere(32, 40, s); }
    else if s < 48 { Row5IsGood(); GoodFromHere(40, 48, s); }
    else if s < 56 { Row6IsGood(); GoodFromHere(48, 56, s); }
    else { Row7IsGood(); GoodFromHere(56, 64, s); }
  }

  lemma {:induction false} GoodFromHere(lo: nat, end: nat, s: nat)
    requires lo <= s < end <= 64 && GoodFrom(lo, end)
    ensures GoodEntry(s, V(s))
    decreases s - lo
  {
    if lo < s { GoodFromHere(lo + 1, end, s); }
  }

  // ---- where the leading bits put a ----------------------------------------------

  /** For a of n >= 7 bits, k = n * 84 / 256 - 1 splits off three bits at a time so that
      between 8 and 63 remains. */
  lemma LeadingBits(a: nat, n: int, k: int)
    requires BitLength(a, n) && 7 <= n <= 64 && k == n * 84 / 256 - 1
    ensures 1 <= k <= 20 && 8 * Cube(Pow2(k)) <= a < 64 * Cube(Pow2(k))
  {
    assert 3 * k + 4 <= n <= 3 * k + 6;
    CubeOfPow2(k);
    assert Pow2(3) == 8 && Pow2(6) == 64;
    Pow2Add(3, 3 * k);
    Pow2Add(6, 3 * k);
    Pow2Monotone(3 * k + 3, n - 1);
    Pow2Monotone(n, 3 * k + 6);
  }

  lemma {:induction false} CubeOfPow2(k: nat)
    ensures Pow2(3 * k) == Cube(Pow2(k))
  {
    if k > 0 {
      CubeOfPow2(k - 1);
      CubeOfProduct(2, Pow2(k - 1));
      Pow2Add(3, 3 * (k - 1));
      assert Pow2(3) == 8;
    }
  }

  // ---- the initial guess --------------------------------------------------------------

  lemma ScaleBound(u: nat, x: int, v: nat, s: int, c: nat, m: int)
    requires u * x <= v * s && s * c <= m
    ensures u * (x * c) <= v * m
  {
  }

  /** The guess exceeds the cube root by at most 5.2 percent. */
  lemma GuessFromAbove(a: nat, s: nat, c: nat, w: nat, x: nat, r: nat, wp: nat)
    requires GoodEntry(s, w - 10) && Cube(wp) == Cube(w) * c && 64 * x <= wp
    requires s * c <= a < Cube(r + 1)
    ensures 1000 * x <= 1052 * (r + 1)
  {
    ScaleBound(1000000000, Cube(w), 305201835671552, s, c, a);
    CubeOfProduct(1000, wp);
    CubeOfProduct(67328, r + 1);
    assert Cube(67328) == 305201835671552 && Cube(1000) == 1000000000;
    CubeReflects(1000 * wp, 67328 * (r + 1));
  }

  /** A guess that lost nothing to rounding falls short by at most a thousandth. */
  lemma ExactGuessFromBelow(a: nat, s: nat, c: nat, w: nat, x: nat, r: nat, wp: nat)
    requires GoodEntry(s, w - 10) && Cube(wp) == Cube(w) * c && 64 * x == wp
    requires Cube(r) <= a < (s + 1) * c
    ensures 999 * r <= 1000 * x
  {
    BoundScaled(1000000000, Cube(w), 261358354169856, s + 1, c, a);
    CubeOfProduct(1000, wp);
    CubeOfProduct(63936, r);
    assert Cube(63936) == 261358354169856 && Cube(1000) == 1000000000;
    CubeReflects(63936 * r, 1000 * wp);
  }

  lemma BoundScaled(u: nat, x: int, v: nat, s: int, c: nat, m: int)
    requires v > 0 && v * s <= u * x && m < s * c
    ensures v * m < u * (x * c)
  {
  }

  /** For s > 8 the rounded guess is no less than the integer root. */
  lemma RoundedGuessFromBelow(a: nat, s: nat, c: nat, w: nat, x: nat, r: nat, wp: nat)
    requires GoodEntry(s, w - 10) && s > 8 && Cube(wp) == Cube(w) * c && x == wp / 64
    requires Cube(r) <= a < (s + 1) * c
    ensures r <= x
  {
    BoundScaled(1, Cube(w), 262144, s + 1, c, a);
    CubeOfProduct(64, r);
    assert Cube(64) == 262144;
    CubeReflects(64 * r, wp);
  }

  /** For s = 8 the same holds of the few guesses that are rounded at all. */
  lemma SmallestGuessFromBelow(a: nat, p: nat, x: nat, r: nat)
    requires p == 2 || p == 4 || p == 8 || p == 16 || p == 32
    requires x == 133 * p / 64 && a < 9 * Cube(p) && Cube(r) <= a
    ensures r <= x
  {
    assert 9 * Cube(p) <= Cube(x + 1) by {
      assert x == if p == 2 then 4 else if p == 4 then 8 else if p == 8 then 16 else if p == 16 then 33 else 66;
    }
    CubeReflects(r, x + 1);
  }

  lemma GuessFromBelow(a: nat, k: nat, s: nat, x: nat, r: nat)
    requires 1 <= k && 8 <= s < 64 && x == (V(s) + 10) * Pow2(k) / 64
    requires Cube(r) <= a < (s + 1) * Cube(Pow2(k))
    ensures 999 * r <= 1000 * x
  {
    var w: nat := V(s) + 10;
    var wp := w * Pow2(k);
    TableIsGood(s);
    CubeOfProduct(w, Pow2(k));
    if k >= 6 {
      Divisible(w, k);
      ExactGuessFromBelow(a, s, Cube(Pow2(k)), w, x, r, wp);
    } else if s > 8 {
      RoundedGuessFromBelow(a, s, Cube(Pow2(k)), w, x, r, wp);
    } else {
      assert Pow2(1) == 2 && Pow2(2) == 4 && Pow2(3) == 8 && Pow2(4) == 16 && Pow2(5) == 32;
      SmallestGuessFromBelow(a, Pow2(k), x, r);
    }
  }

  lemma Divisible(w: nat, k: nat)
    requires k >= 6
    ensures 64 * (w * Pow2(k) / 64) == w * Pow2(k)
  {
    Pow2Add(k - 6, 6);
    assert Pow2(6) == 64;
    MulAssoc(w, Pow2(k - 6), 64);
    ExactQuotient(w * Pow2(k), w * Pow2(k - 6));
  }

  lemma ExactQuotient(n: nat, m: nat)
    requires n == m * 64
    ensures 64 * (n / 64) == n
  {
  }

  // ---- the Newton step ---------------------------------------------------------------------

  /** The step from the guess x: 2 x + a / (x (x - 1)), and a third of that, nearly. */
  function Sum3(a: nat, x: nat): nat
    requires x >= 2
  {
    2 * x + a / (x * (x - 1))
  }

  /** Two arithmetic means and one harmonic one: (3 t - 2 x) x^2 <= t^3, here for 3 t = y. */
  lemma MeanInequality(x: int, y: int)
    requires x >= 0 && y >= 0
    ensures 27 * ((y - 2 * x) * x * x) <= y * y * y
  {
    var d := y - 3 * x;
    assert y * y * y - 27 * ((y - 2 * x) * x * x) == d * d * (y + 6 * x);
    assert d * d >= 0;
    assert d * d * (y + 6 * x) >= 0;
  }

  /** Whatever the guess, the step never falls below three times the integer root. */
  lemma StepFromBelow(a: nat, x: nat, r: nat)
    requires x >= 2 && Cube(r) <= a
    ensures 3 * r <= Sum3(a, x)
  {
    var d := x * (x - 1);
    var y := Sum3(a, x) + 1;
    QuotientBound(a, d);
    MulMonotone(d, x * x, y - 2 * x);
    MeanInequality(x, y);
    MulAssoc(y - 2 * x, x, x);
    CubeOfProduct(3, r);
    CubeReflects(3 * r, y);
  }

  lemma QuotientBound(a: nat, d: int)
    requires d > 0
    ensures (a / d) * d <= a < (a / d + 1) * d
  {
  }

  // Upper bounds on the step. With z = r + 1, D = x (x - 1) and a < z^3 it suffices that
  // the bound, less the share of 2 x, times D is at least z^3; what that takes is
  //   (3 z - 2 x) x^2 = z^3 - e^2 (3 z + 2 e)      for x = z + e.

  lemma StepIdentity(z: int, e: int)
    ensures var x := z + e; (3 * z - 2 * x) * (x * x) == z * z * z - e * e * (3 * z + 2 * e)
  {
  }

  /** 341 e^2 (3 z + 2 e) <= 2.863 z^3 for 0 <= e <= 0.052 z. */
  lemma SquareErrorAbove(z: nat, e: nat)
    requires 1000 * e <= 52 * z
    ensures 1000000000 * (e * e * (3 * z + 2 * e)) <= 8393216 * (z * z * z)
  {
    MulMonotone(1000 * e, 52 * z, 1000 * e);
    MulMonotone(1000 * e, 52 * z, 52 * z);
    assert 1000000 * (e * e) <= 2704 * (z * z);
    MulMonotone(1000000 * (e * e), 2704 * (z * z), 1000 * (3 * z + 2 * e));
    MulMonotone(1000 * (3 * z + 2 * e), 3104 * z, 2704 * (z * z));
  }

  lemma SmallGain(z: int, x: int)
    ensures (1024 * (z + 1) - 682 * x) * (x * (x - 1))
            == 341 * ((3 * z - 2 * x) * (x * x)) + x * ((z + 1706) * x - 1024 * z - 1024)
  {
  }

  lemma Products(a: int, b: int, c: int, d: int)
    requires 0 <= a <= b && 0 <= c <= d
    ensures a * c <= b * d
  {
  }

  lemma SmallGainFactor(z: nat, x: nat)
    requires 6 <= z <= 360 && z <= x
    ensures var low := z * z + 682 * z - 1024;
            0 <= low <= (z + 1706) * x - 1024 * z - 1024 && 2863 * (z * z) <= 1000 * low
  {
    MulMonotone(z, x, z + 1706);
    assert z * (z + 1706) == z * z + 1706 * z;
    BetweenSquares(z);
  }

  lemma BetweenSquares(z: nat)
    requires 6 <= z <= 360
    ensures 6 * z <= z * z <= 366 * z - 2160
  {
    MulMonotone(6, z, z);
    Products(0, z - 6, 0, 360 - z);
    assert (z - 6) * (360 - z) == 366 * z - 2160 - z * z;
  }

  lemma SmallGainIsEnough(z: nat, x: nat)
    requires 6 <= z <= 360 && z <= x
    ensures 0 <= 2863 * (z * z * z) <= 1000 * (x * ((z + 1706) * x - 1024 * z - 1024))
  {
    var low, high := z * z + 682 * z - 1024, (z + 1706) * x - 1024 * z - 1024;
    SmallGainFactor(z, x);
    Products(z, x, low, high);
    Products(z, z, 2863 * (z * z), 1000 * low);
    Regroup(z, 2863, z * z);
    Regroup(z, 1000, low);
    var step, gain := z * low, x * high;
    assert 2863 * (z * z * z) <= 1000 * step && step <= gain;
  }

  lemma Regroup(z: int, k: int, y: int)
    ensures z * (k * y) == k * (y * z) == k * (z * y)
  {
  }

  lemma SmallStepAboveRoot(z: nat, x: nat)
    requires 6 <= z <= 360 && z <= x && 1000 * x <= 1052 * z
    ensures 341 * (z * z * z) <= (1024 * (z + 1) - 682 * x) * (x * (x - 1))
  {
    SmallPart(z, x);
    SmallGainIsEnough(z, x);
    SmallStepAdds(z, x);
  }

  lemma SmallStepAdds(z: int, x: int)
    requires 1000000000 * (z * z * z - (3 * z - 2 * x) * (x * x)) <= 8393216 * (z * z * z)
    requires 0 <= 2863 * (z * z * z) <= 1000 * (x * ((z + 1706) * x - 1024 * z - 1024))
    ensures 341 * (z * z * z) <= (1024 * (z + 1) - 682 * x) * (x * (x - 1))
  {
    SmallGain(z, x);
  }

  lemma SmallPart(z: nat, x: nat)
    requires z <= x && 1000 * x <= 1052 * z
    ensures 1000000000 * (z * z * z - (3 * z - 2 * x) * (x * x)) <= 8393216 * (z * z * z)
  {
    var e: nat := x - z;
    SquareErrorAbove(z, e);
    assert x == z + e;
    StepIdentity(z, e);
  }

  /** The guess one below z. */
  lemma SmallStepBelowRoot(z: nat)
    requires z >= 6
    ensures var x := z - 1; 341 * (z * z * z) <= (1024 * (z + 1) - 682 * x) * (x * (x - 1))
  {
    var x := z - 1;
    SmallGain(z, x);
    StepIdentity(z, -1);
    assert (z + 1706) * x == z * z + 1705 * z - 1706;
    assert x * (z * z + 681 * z - 2730) >= 341 * (3 * z - 2) by {
      MulMonotone(6, z, z);
      assert z * z + 681 * z - 2730 >= 687 * z - 2730 >= 1392;
      MulMonotone(1392, z * z + 681 * z - 2730, x);
    }
  }

  lemma LargeGain(z: int, x: int)
    ensures (410624 * z - 272800 * x) * (x * (x - 1))
            == 136400 * ((3 * z - 2 * x) * (x * x)) + x * (1424 * (z * x) - 410624 * z + 272800 * x)
  {
  }

  /** From z = 307 on the gain outweighs the error of a guess e above the root. */
  lemma LargeGainIsEnough(z: nat, e: nat)
    requires z >= 361 && 1000 * e <= 52 * z
    ensures var x := z + e;
            136400 * (e * e * (3 * z + 2 * e)) <= x * (1424 * (z * x) - 410624 * z + 272800 * x)
  {
    var ez, zz := e * z, z * z;
    LargeError(z, e);
    LargeGainBound(z, e);
    assert 19169 * ez <= 1000 * zz by { MulMonotone(1000 * e, 52 * z, z); }
    assert 137824 * z <= 424 * zz by { MulMonotone(361, z, z); }
    MulMonotone(22017 * ez, 1424 * zz - 137824 * z + 2848 * ez, z);
  }

  lemma LargeError(z: nat, e: nat)
    requires 1000 * e <= 52 * z
    ensures 136400 * (e * e * (3 * z + 2 * e)) <= 22017 * (e * z) * z
  {
    MulMonotone(1000 * e, 52 * z, e);
    Products(1000 * (e * e), 52 * (e * z), 1000 * (3 * z + 2 * e), 3104 * z);
    assert 1000 * (e * e) * (1000 * (3 * z + 2 * e)) == 1000000 * (e * e * (3 * z + 2 * e));
    assert 52 * (e * z) * (3104 * z) == 161408 * ((e * z) * z);
    assert (e * z) * z >= 0;
  }

  lemma LargeGainBound(z: nat, e: nat)
    ensures var x := z + e;
            (1424 * (z * z) - 137824 * z + 2848 * (e * z)) * z <= x * (1424 * (z * x) - 410624 * z + 272800 * x)
  {
  }

  lemma LargeStepAboveRoot(z: nat, x: nat)
    requires z >= 361 && z <= x && 1000 * x <= 1052 * z
    ensures 136400 * (z * z * z) <= (410624 * z - 272800 * x) * (x * (x - 1))
  {
    StepIdentity(z, x - z);
    LargeGain(z, x);
    LargeGainIsEnough(z, x - z);
  }

  /** A guess f below z, at most a 265th of it: the error is below 6 z^3 ... */
  lemma BelowError(z: nat, f: nat)
    requires 265 * f <= z
    ensures 136400 * (f * f * (3 * z - 2 * f)) <= 6 * (z * z * z)
  {
    Products(265 * f, z, 265 * f, z);
    assert 265 * f * (265 * f) == 70225 * (f * f);
    Products(f * f, f * f, 3 * z - 2 * f, 3 * z);
    Products(70225 * (f * f), z * z, 3 * z, 3 * z);
    assert 70225 * (f * f) * (3 * z) == 70225 * (f * f * (3 * z));
    assert z * z * (3 * z) == 3 * (z * z * z);
  }

  /** ... and the gain above 1000 z^3. */
  lemma BelowGain(z: nat, x: nat)
    requires z >= 361 && 264 * z <= 265 * x
    ensures 0 <= 1000 * (z * z * z) <= x * (1424 * (z * x) - 410624 * z + 272800 * x)
  {
    BelowInner(z, x);
    BelowProduct(z, x, 1424 * (z * x) - 410624 * z + 272800 * x);
  }

  lemma BelowProduct(z: nat, x: nat, inner: int)
    requires 264 * z <= 265 * x && 274007 * (z * z) <= 265 * inner
    ensures 0 <= 1000 * (z * z * z) <= x * inner
  {
  }

  lemma BelowInner(z: nat, x: nat)
    requires z >= 361 && 264 * z <= 265 * x
    ensures 274007 * (z * z) <= 265 * (1424 * (z * x) - 410624 * z + 272800 * x)
  {
    Products(z, z, 264 * z, 265 * x);
    assert z * (264 * z) == 264 * (z * z) && z * (265 * x) == 265 * (z * x);
    MulMonotone(361, z, z);
  }

  lemma LargeStepBelowRoot(z: nat, x: nat)
    requires z >= 361 && x <= z && 264 * z <= 265 * x
    ensures 136400 * (z * z * z) <= (410624 * z - 272800 * x) * (x * (x - 1))
  {
    BelowError(z, z - x);
    BelowGain(z, x);
    LargeStepAdds(z, x);
  }

  lemma PartBelow(z: int, x: int)
    ensures (3 * z - 2 * x) * (x * x) == z * z * z - (z - x) * (z - x) * (3 * z - 2 * (z - x))
  {
  }

  lemma LargeStepAdds(z: int, x: int)
    requires 136400 * ((z - x) * (z - x) * (3 * z - 2 * (z - x))) <= 6 * (z * z * z)
    requires 0 <= 1000 * (z * z * z) <= x * (1424 * (z * x) - 410624 * z + 272800 * x)
    ensures 136400 * (z * z * z) <= (410624 * z - 272800 * x) * (x * (x - 1))
  {
    PartBelow(z, x);
    LargeGain(z, x);
  }

  // ---- the bound on the step --------------------------------------------------------------

  /** Below r = 360 the step gives at most r + 1. */
  lemma SmallStepFromAbove(a: nat, x: nat, r: nat)
    requires 5 <= r < 360 && a < Cube(r + 1) && r <= x && 1000 * x <= 1052 * (r + 1)
    ensures 341 * Sum3(a, x) < 1024 * (r + 2)
  {
    var z, d := r + 1, x * (x - 1);
    if x >= z { SmallStepAboveRoot(z, x); } else { SmallStepBelowRoot(z); }
    QuotientBelow(341, a, d, 1024 * (z + 1) - 682 * x, z * z * z);
  }

  lemma QuotientBelow(k: nat, a: nat, d: int, bound: int, c: int)
    requires k > 0 && d > 0 && a < c && k * c <= bound * d
    ensures k * (a / d) < bound
  {
  }

  /** From r = 360 on it is less than a 400th above r + 1. */
  lemma LargeStepFromAbove(a: nat, x: nat, r: nat)
    requires 360 <= r && a < Cube(r + 1) && 999 * r <= 1000 * x && 1000 * x <= 1052 * (r + 1)
    ensures 136400 * Sum3(a, x) < 410624 * (r + 1)
  {
    var z, d := r + 1, x * (x - 1);
    if x >= z { LargeStepAboveRoot(z, x); } else { LargeStepBelowRoot(z, x); }
    QuotientBelow(136400, a, d, 410624 * z - 272800 * x, z * z * z);
  }

  /** The smallest case: a in 64..124. */
  lemma SmallestStep(a: nat, x: nat)
    requires 64 <= a < 125 && 4 <= x <= 5
    ensures 4 <= 341 * Sum3(a, x) / 1024 <= 5
  {
  }

  /** Everything the guess and the step achieve together. */
  lemma StepIsClose(a: nat, x: nat, r: nat)
    requires 4 <= r && IsFloorCbrt(a, r) && 64 <= a && 2 <= x
    requires 999 * r <= 1000 * x && 1000 * x <= 1052 * (r + 1)
    ensures Close(341 * Sum3(a, x) / 1024, r)
  {
    StepFromBelow(a, x, r);
    if r == 4 {
      SmallestStep(a, x);
    } else if r < 360 {
      SmallStepFromAbove(a, x, r);
    } else {
      LargeStepFromAbove(a, x, r);
    }
  }

  // ---- the whole computation -----------------------------------------------------------------

  /** In hundredths, x is less than 54 above and less than 47 below the real cube root. */
  ghost predicate Nearest(x: int, a: nat) {
    Cube(100 * x - 53) <= 1000000 * a < Cube(100 * x + 47)
  }

  /** What the table gives for fewer than 7 bits. */
  function Small(a: int): int
    requires 0 <= a < 64
  {
    (V(a) + 35) / 64
  }

  lemma SmallIs(a: nat)
    requires a < 64
    ensures Small(a) == if a < 1 then 0 else if a < 4 then 1 else if a < 16 then 2 else if a < 42 then 3 else 4
  {
    if 4 <= a < 16 { SmallUpTo16(a); }
    if 16 <= a { SmallFrom16(a); }
  }

  lemma SmallIsNearest(a: nat)
    requires a < 64
    ensures Nearest(Small(a), a)
  {
    SmallIs(a);
    NearestSteps(Small(a), a);
  }

  lemma NearestSteps(x: int, a: nat)
    requires a < 64
    requires x == if a < 1 then 0 else if a < 4 then 1 else if a < 16 then 2 else if a < 42 then 3 else 4
    ensures Nearest(x, a)
  {
    if a < 1 { assert Nearest(0, a); }
    else if a < 4 { assert Nearest(1, a); }
    else if a < 16 { assert Nearest(2, a); }
    else if a < 42 { assert Nearest(3, a); }
    else { assert Nearest(4, a); }
  }

  lemma SmallUpTo16(a: nat)
    requires 4 <= a < 16
    ensures Small(a) == 2
  {
  }

  lemma SmallFrom16(a: nat)
    requires 16 <= a < 64
    ensures Small(a) == if a < 42 then 3 else 4
  {
  }

  /** The nearest whole number to the root of a perfect cube is the root. */
  lemma NearestOfCube(x: nat, k: nat)
    requires Nearest(x, Cube(k))
    ensures x == k
  {
    CubeOfProduct(100, k);
    CubeReflects(100 * k, 100 * x + 47);
    if x > 0 && 100 * x - 53 > 100 * k { CubeGrows(100 * k, 100 * x - 53); }
  }

  /** For fewer than 7 bits the table alone gives the root, up to one. */
  lemma SmallInput(a: nat, n: int, r: nat)
    requires BitLength(a, n) && n < 7 && IsFloorCbrt(a, r)
    ensures a < 64 && Close(Small(a), r) && Nearest(Small(a), a)
  {
    Pow2Monotone(n, 6);
    assert Pow2(6) == 64;
    SmallIs(a);
    SmallFloor(a, r);
    SmallIsNearest(a);
  }

  lemma SmallFloor(a: nat, r: nat)
    requires a < 64 && IsFloorCbrt(a, r)
    ensures r == if a < 1 then 0 else if a < 8 then 1 else if a < 27 then 2 else 3
  {
    CubeReflects(r, 4);
  }

  lemma LeadingDigits(a: nat, c: nat)
    requires 8 * c <= a < 64 * c
    ensures 8 <= a / c < 64 && (a / c) * c <= a < (a / c + 1) * c
  {
  }

  lemma PowersInRange(b: nat)
    requires 1 <= b <= 20
    ensures 2 <= Pow2(b) <= 0x10_0000
  {
    Pow2Monotone(1, b);
    Pow2Monotone(b, 20);
    assert Pow2(5) == 32;
    Pow2Add(5, 5);
    Pow2Add(10, 10);
  }

  lemma GuessIsGood(a: nat, b: nat, s: nat, r: nat)
    requires 1 <= b && 8 <= s < 64 && IsFloorCbrt(a, r) && s * Cube(Pow2(b)) <= a < (s + 1) * Cube(Pow2(b))
    ensures var x := (V(s) + 10) * Pow2(b) / 64; 999 * r <= 1000 * x && 1000 * x <= 1052 * (r + 1)
  {
    var w: nat := V(s) + 10;
    var x: nat := w * Pow2(b) / 64;
    TableIsGood(s);
    CubeOfProduct(w, Pow2(b));
    GuessFromAbove(a, s, Cube(Pow2(b)), w, x, r, w * Pow2(b));
    GuessFromBelow(a, b, s, x, r);
  }

  lemma GuessFits(s: nat, b: nat)
    requires 8 <= s < 64 && Pow2(b) <= 0x10_0000
    ensures (V(s) + 10) * Pow2(b) % TWO32 == (V(s) + 10) * Pow2(b)
  {
    TableIsGood(s);
    Products(V(s) + 10, 264, Pow2(b), 0x10_0000);
  }

  /** No intermediate result of the step exceeds 32 bits. */
  lemma StepFits(a: nat, x: nat, r: nat)
    requires 4 <= r && IsFloorCbrt(a, r) && 64 <= a < TWO64 && 2 <= x
    requires 999 * r <= 1000 * x && 1000 * x <= 1052 * (r + 1)
    ensures 341 * Sum3(a, x) < TWO32
  {
    CubeReflects(r, 2642246);
    if r == 4 {
      assert a / 12 <= 10 && a / 20 <= 6;
    } else if r < 360 {
      SmallStepFromAbove(a, x, r);
    } else {
      LargeStepFromAbove(a, x, r);
    }
  }

  /** CubicRoot: the result is within one and a 400th of the integer cube root, for every
      64-bit input. For inputs below 64 it is the real cube root rounded, a little early, to
      a whole number, and so the exact root of a cube. */
  method CubicRoot(a: uint64) returns (root: uint32)
    ensures Close(root, FloorCbrt(a))
    ensures a < 64 ==> Cube(100 * root - 53) <= 1000000 * a < Cube(100 * root + 47)
    ensures forall k: nat :: a < 64 && a == Cube(k) ==> root == k
  {
    ghost var r := FloorCbrt(a);
    var n := Fls64(a);
    if n < 7 {
      SmallInput(a, n, r);
      root := (V(a) + 35) / 64;
      forall k: nat | a == Cube(k) ensures root == k { NearestOfCube(root, k); }
      return;
    }
    var b: nat := n * 84 / 256 - 1;
    GuessOutcome(a, n, b, r);
    var x := InitialGuess(a, b);
    StepOutcome(a, x, r);
    root := Refine(a, x);
  }

  /** The table's guess scaled to the size of the input. */
  ghost function Guess(a: nat, b: nat): nat
    requires 8 <= Leading(a, b) < 64
  {
    (V(Leading(a, b)) + 10) * Pow2(b) / 64
  }

  /** The leading bits of the input, the index into the table. */
  function Leading(a: nat, b: nat): int {
    a / Pow2(b * 3)
  }

  /** The first half of CubicRoot for more than 6 bits: the guess from the leading bits. */
  method InitialGuess(a: uint64, b: nat) returns (x: uint32)
    requires 8 <= Leading(a, b) < 64 && Pow2(b) <= 0x10_0000
    ensures x == Guess(a, b)
  {
    var shift := Leading(a, b) % TWO32;
    GuessFits(shift, b);
    x := (V(shift) + 10) * Pow2(b) % TWO32 / 64;
  }

  lemma GuessOutcome(a: nat, n: int, b: nat, r: nat)
    requires BitLength(a, n) && 7 <= n <= 64 && b == n * 84 / 256 - 1 && IsFloorCbrt(a, r)
    ensures 64 <= a && 4 <= r && 8 <= Leading(a, b) < 64 && Pow2(b) <= 0x10_0000
    ensures 2 <= Guess(a, b) && 999 * r <= 1000 * Guess(a, b) && 1000 * Guess(a, b) <= 1052 * (r + 1)
  {
    LeadingBits(a, n, b);
    CubeOfPow2(b);
    assert b * 3 == 3 * b;
    LeadingDigits(a, Cube(Pow2(b)));
    PowersInRange(b);
    AtLeastFour(a, n, r);
    GuessIsGood(a, b, Leading(a, b), r);
  }

  lemma AtLeastFour(a: nat, n: int, r: nat)
    requires BitLength(a, n) && 7 <= n && IsFloorCbrt(a, r)
    ensures 64 <= a && 4 <= r
  {
    Pow2Monotone(6, n - 1);
    assert Pow2(6) == 64;
    CubeReflects(4, r + 1);
  }

  /** The second half of CubicRoot: one Newton step, in 32 bits, with 341 / 1024 for a third. */
  method Refine(a: uint64, guess: uint32) returns (root: uint32)
    requires guess >= 2 && 341 * Sum3(a, guess) < TWO32
    ensures root == 341 * Sum3(a, guess) / 1024
  {
    PositiveProduct(guess);
    var q := Quotient(a, guess * (guess - 1));
    NewtonSum(a, guess, q);
    NoWrap(guess, q);
    var x := (2 * guess % TWO32 + q % TWO32) % TWO32;
    root := x * 341 % TWO32 / 1024;
  }

  lemma StepOutcome(a: nat, x: nat, r: nat)
    requires 4 <= r && IsFloorCbrt(a, r) && 64 <= a < TWO64 && 2 <= x
    requires 999 * r <= 1000 * x && 1000 * x <= 1052 * (r + 1)
    ensures 341 * Sum3(a, x) < TWO32 && Close(341 * Sum3(a, x) / 1024, r)
  {
    StepIsClose(a, x, r);
    StepFits(a, x, r);
  }

  /** Division of unsigned numbers. */
  function Quotient(a: nat, d: int): (q: nat)
    requires d > 0
  {
    a / d
  }

  lemma NewtonSum(a: nat, x: nat, q: nat)
    requires x >= 2 && x * (x - 1) > 0 && q == Quotient(a, x * (x - 1))
    ensures Sum3(a, x) == 2 * x + q
  {
  }

  lemma PositiveProduct(x: nat)
    requires x >= 2
    ensures x * (x - 1) > 0
  {
  }

  lemma NoWrap(x: nat, q: nat)
    requires 341 * (2 * x + q) < TWO32
    ensures (2 * x % TWO32 + q % TWO32) % TWO32 == 2 * x + q
    ensures (2 * x + q) * 341 % TWO32 == 341 * (2 * x + q)
  {
  }
}
