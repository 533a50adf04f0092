/** Bytes, and the C bitwise operators on natural numbers, defined bit by bit. */
module Bits {

  type byte = b: int | 0 <= b < 256

  function Pow2(n: nat): (p: nat)
    ensures p > 0
  {
    if n == 0 then 1 else 2 * Pow2(n - 1)
  }

  /** `x & y` */
  function And(x: nat, y: nat): nat
    decreases x
  {
    if x == 0 then 0 else (if x % 2 == 1 && y % 2 == 1 then 1 else 0) + 2 * And(x / 2, y / 2)
  }

  /** `x | y` */
  function Or(x: nat, y: nat): nat
    decreases x + y
  {
    if x == 0 && y == 0 then 0 else (if x % 2 == 1 || y % 2 == 1 then 1 else 0) + 2 * Or(x / 2, y / 2)
  }

  /** `x ^ y` */
  function Xor(x: nat, y: nat): nat
    decreases x + y
  {
    if x == 0 && y == 0 then 0 else (x + y) % 2 + 2 * Xor(x / 2, y / 2)
  }

  /** `x << i` in an n-bit word */
  function Shl(x: nat, i: nat, n: nat): nat
    decreases i
  {
    if i == 0 then x % Pow2(n) else Shl(2 * x, i - 1, n)
  }

  lemma {:induction false} ShlIsProduct(x: nat, i: nat, n: nat)
    ensures Shl(x, i, n) == (x * Pow2(i)) % Pow2(n)
    decreases i
  {
    if i != 0 {
      ShlIsProduct(2 * x, i - 1, n);
      assert 2 * x * Pow2(i - 1) == x * Pow2(i);
    }
  }

  lemma {:induction false} Pow2Adds(a: nat, b: nat)
    ensures Pow2(a + b) == Pow2(a) * Pow2(b)
  {
    if a != 0 { Pow2Adds(a - 1, b); }
  }

  lemma {:induction false} Pow2Monotone(a: nat, b: nat)
    requires a <= b
    ensures Pow2(a) <= Pow2(b)
  {
    if a < b { Pow2Monotone(a, b - 1); }
  }

  lemma {:induction false} XorBound(x: nat, y: nat, n: nat)
    requires x < Pow2(n) && y < Pow2(n)
    ensures Xor(x, y) < Pow2(n)
  {
    if n != 0 { XorBound(x / 2, y / 2, n - 1); }
  }

  // ----- one bit at a time

  lemma XorStep(x: nat, y: nat, a: nat, i: nat, b: nat, j: nat)
    requires i < 2 && j < 2 && x == 2 * a + i && y == 2 * b + j
    ensures Xor(x, y) == 2 * Xor(a, b) + (i + j) % 2
  {
    assert x / 2 == a && y / 2 == b && (x + y) % 2 == (i + j) % 2;
  }

  lemma AndStep(x: nat, y: nat, a: nat, i: nat, b: nat, j: nat)
    requires i < 2 && j < 2 && x == 2 * a + i && y == 2 * b + j
    ensures And(x, y) == 2 * And(a, b) + if i == 1 && j == 1 then 1 else 0
  {
    assert x / 2 == a && y / 2 == b && x % 2 == i && y % 2 == j;
  }

  lemma OrStep(x: nat, y: nat, a: nat, i: nat, b: nat, j: nat)
    requires i < 2 && j < 2 && x == 2 * a + i && y == 2 * b + j
    ensures Or(x, y) == 2 * Or(a, b) + if i == 1 || j == 1 then 1 else 0
  {
    assert x / 2 == a && y / 2 == b && x % 2 == i && y % 2 == j;
  }

  /** The low n bits. */
  function Low(x: nat, n: nat): (r: nat)
    ensures r <= x && r < Pow2(n)
  {
    if n == 0 then 0 else x % 2 + 2 * Low(x / 2, n - 1)
  }

  lemma {:induction false} LowIsMod(x: nat, n: nat)
    ensures Low(x, n) == x % Pow2(n)
  {
    if n != 0 {
      LowIsMod(x / 2, n - 1);
      HalfMod(x, Pow2(n - 1));
    }
  }

  lemma {:induction false} LowAll(x: nat, n: nat)
    requires x < Pow2(n)
    ensures Low(x, n) == x
  {
    if n != 0 { LowAll(x / 2, n - 1); }
  }

  // ----- what the operators mean, at every place

  /** Bit k. */
  function Bit(x: nat, k: nat): nat
    decreases k
  {
    if k == 0 then x % 2 else Bit(x / 2, k - 1)
  }

  lemma {:induction false} BitValue(x: nat, k: nat)
    ensures Bit(x, k) == x / Pow2(k) % 2
    decreases k
  {
    if k > 0 {
      BitValue(x / 2, k - 1);
      DivDiv(x, 2, Pow2(k - 1));
    }
  }

  lemma {:induction false} AndBits(x: nat, y: nat, k: nat)
    ensures Bit(And(x, y), k) == if Bit(x, k) == 1 && Bit(y, k) == 1 then 1 else 0
    decreases k
  {
    AndStep(x, y, x / 2, x % 2, y / 2, y % 2);
    if k > 0 {
      AndBits(x / 2, y / 2, k - 1);
      assert And(x, y) / 2 == And(x / 2, y / 2);
    }
  }

  lemma {:induction false} OrBits(x: nat, y: nat, k: nat)
    ensures Bit(Or(x, y), k) == if Bit(x, k) == 1 || Bit(y, k) == 1 then 1 else 0
    decreases k
  {
    OrStep(x, y, x / 2, x % 2, y / 2, y % 2);
    if k > 0 {
      OrBits(x / 2, y / 2, k - 1);
      assert Or(x, y) / 2 == Or(x / 2, y / 2);
    }
  }

  lemma {:induction false} XorBits(x: nat, y: nat, k: nat)
    ensures Bit(Xor(x, y), k) == if Bit(x, k) != Bit(y, k) then 1 else 0
    decreases k
  {
    XorStep(x, y, x / 2, x % 2, y / 2, y % 2);
    if k > 0 {
      XorBits(x / 2, y / 2, k - 1);
      assert Xor(x, y) / 2 == Xor(x / 2, y / 2);
    }
  }

  // ----- exclusive or

  lemma {:induction false} XorInvolution(x: nat, y: nat)
    ensures Xor(Xor(x, y), y) == x
    decreases x + y
  {
    if x != 0 || y != 0 {
      var a, i, b, j := x / 2, x % 2, y / 2, y % 2;
      XorInvolution(a, b);
      XorStep(x, y, a, i, b, j);
      XorBack(Xor(x, y), y, Xor(a, b), (i + j) % 2, b, j, a, i);
    }
  }

  lemma XorBack(z: nat, y: nat, w: nat, k: nat, b: nat, j: nat, a: nat, i: nat)
    requires k < 2 && j < 2 && z == 2 * w + k && y == 2 * b + j && Xor(w, b) == a && i == (k + j) % 2
    ensures Xor(z, y) == 2 * a + i
  {
    XorStep(z, y, w, k, b, j);
  }

  lemma {:induction false} XorZero(x: nat)
    ensures Xor(x, 0) == x
  {
    if x != 0 { XorZero(x / 2); }
  }

  /** Complementing the low n bits. */
  lemma {:induction false} XorOnes(x: nat, n: nat)
    requires x < Pow2(n)
    ensures Xor(x, Pow2(n) - 1) == Pow2(n) - 1 - x
  {
    if n != 0 {
      var ones := Pow2(n - 1) - 1;
      XorOnes(x / 2, n - 1);
      XorStep(x, 2 * ones + 1, x / 2, x % 2, ones, 1);
    }
  }

  // ----- and, or

  /** Or-ing a value below 2^n with a multiple of 2^n adds them. */
  lemma {:induction false} OrDisjoint(x: nat, y: nat, n: nat)
    requires x < Pow2(n)
    ensures Or(x, y * Pow2(n)) == x + y * Pow2(n)
  {
    if n == 0 {
      OrZero(y);
    } else {
      var h := y * Pow2(n - 1);
      assert y * Pow2(n) == 2 * h;
      OrDisjoint(x / 2, y, n - 1);
      OrStep(x, 2 * h, x / 2, x % 2, h, 0);
    }
  }

  lemma {:induction false} OrZero(y: nat)
    ensures Or(0, y) == y
  {
    if y != 0 { OrZero(y / 2); }
  }

  lemma {:induction false} OrZeroRight(x: nat)
    ensures Or(x, 0) == x
  {
    if x != 0 { OrZeroRight(x / 2); }
  }

  lemma {:induction false} AndZero(x: nat)
    ensures And(x, 0) == 0
  {
    if x != 0 { AndZero(x / 2); }
  }

  lemma {:induction false} AndLow(x: nat, n: nat)
    ensures And(x, Pow2(n) - 1) == Low(x, n)
    decreases n
  {
    if n == 0 {
      AndZero(x);
    } else {
      var ones := Pow2(n - 1) - 1;
      AndLow(x / 2, n - 1);
      AndStep(x, 2 * ones + 1, x / 2, x % 2, ones, 1);
    }
  }

  /** `x & 0x7f` and its relatives keep the low n bits. */
  lemma AndOnes(x: nat, n: nat)
    ensures And(x, Pow2(n) - 1) == x % Pow2(n)
  {
    AndLow(x, n);
    LowIsMod(x, n);
  }

  lemma {:induction false} AndHigh(x: nat, n: nat, w: nat)
    requires n <= w && x < Pow2(w)
    ensures Pow2(n) <= Pow2(w)
    ensures And(x, Pow2(w) - Pow2(n)) == x - Low(x, n)
    decreases w
  {
    Pow2Monotone(n, w);
    if n == 0 {
      AndLow(x, w);
      LowAll(x, w);
    } else {
      var m := Pow2(w - 1) - Pow2(n - 1);
      AndHigh(x / 2, n - 1, w - 1);
      AndStep(x, 2 * m, x / 2, x % 2, m, 0);
    }
  }

  /** Keeping the bits above the low n ones (within w bits) rounds down to a multiple of 2^n. */
  lemma AndHighMask(x: nat, n: nat, w: nat)
    requires n <= w && x < Pow2(w)
    ensures Pow2(n) <= Pow2(w)
    ensures And(x, Pow2(w) - Pow2(n)) == x - x % Pow2(n)
  {
    AndHigh(x, n, w);
    LowIsMod(x, n);
  }

  lemma {:induction false} OrLow(x: nat, n: nat)
    ensures Or(x, Pow2(n) - 1) == x - Low(x, n) + Pow2(n) - 1
    decreases n
  {
    if n == 0 {
      OrZeroRight(x);
    } else {
      var ones := Pow2(n - 1) - 1;
      OrLow(x / 2, n - 1);
      OrStep(x, 2 * ones + 1, x / 2, x % 2, ones, 1);
    }
  }

  /** Setting the low n bits. */
  lemma OrLowMask(x: nat, n: nat)
    ensures Or(x, Pow2(n) - 1) == x - x % Pow2(n) + Pow2(n) - 1
  {
    OrLow(x, n);
    LowIsMod(x, n);
  }

  // ----- division

  lemma HalfMod(x: nat, m: nat)
    requires m > 0
    ensures x % (2 * m) == x % 2 + 2 * ((x / 2) % m)
  {
    var h := x / 2;
    var q := h / m;
    assert h == q * m + h % m;
    assert x == q * (2 * m) + (x % 2 + 2 * (h % m));
    ModUnique(x, 2 * m, q, x % 2 + 2 * (h % m));
  }

  lemma ModUnique(x: nat, m: nat, q: nat, r: nat)
    requires r < m && x == q * m + r
    ensures x / m == q && x % m == r
  {
    var d := x / m - q;
    assert d * m == r - x % m;
    assert d >= 1 ==> d * m >= m;
    assert d <= -1 ==> d * m + m <= 0;
  }

  lemma DivDiv(v: nat, a: nat, b: nat)
    requires a > 0 && b > 0
    ensures a * b > 0 && v / a / b == v / (a * b)
  {
    var q := v / a;
    Quotients(v, a, b, q, v % a, q / b, q % b);
  }

  lemma Quotients(v: nat, a: nat, b: nat, q: nat, r: nat, p: nat, s: nat)
    requires r < a && s < b && v == a * q + r && q == b * p + s
    ensures a * b > 0 && v / (a * b) == p
  {
    Below(s, b, a);
    assert a * (b * p + s) == p * (a * b) + s * a;
    ModUnique(v, a * b, p, s * a + r);
  }

  lemma {:induction false} Below(r: nat, d: nat, m: nat)
    requires r < d
    ensures r * m + m <= d * m
    decreases d
  {
    assert (d - 1) * m == d * m - m;
    if r < d - 1 { Below(r, d - 1, m); }
  }
}
