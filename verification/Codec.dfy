/** Byte orders, two's complement, zigzag and base-128 varints. */
module Codec {
  import opened Common
  import opened Bits

  datatype Endian = Little | Big

  // ----- fixed width

  /** The w low bytes of v, least significant first. */
  function LittleBytes(v: nat, w: nat): (s: seq<byte>)
    ensures |s| == w
    decreases w
  {
    if w == 0 then [] else [v % 256] + LittleBytes(v / 256, w - 1)
  }

  function FromLittle(s: seq<byte>): nat {
    if s == [] then 0 else s[0] + 256 * FromLittle(s[1..])
  }

  function Reversed(s: seq<byte>): (r: seq<byte>)
    ensures |r| == |s|
  {
    if s == [] then [] else Reversed(s[1..]) + [s[0]]
  }

  /** How a w-byte word lies in the memory of a host. */
  function ToBytes(v: nat, w: nat, e: Endian): (s: seq<byte>)
    ensures |s| == w
  {
    if e == Little then LittleBytes(v, w) else Reversed(LittleBytes(v, w))
  }

  function FromBytes(s: seq<byte>, e: Endian): nat {
    if e == Little then FromLittle(s) else FromLittle(Reversed(s))
  }

  /** bswap_16, bswap_32, bswap_64 */
  function Byteswap(v: nat, w: nat): nat {
    FromLittle(Reversed(LittleBytes(v, w)))
  }

  lemma {:induction false} ReversedSnoc(s: seq<byte>, b: byte)
    ensures Reversed(s + [b]) == [b] + Reversed(s)
  {
    if s == [] {
      assert s + [b] == [b];
    } else {
      ReversedSnoc(s[1..], b);
      assert (s + [b])[1..] == s[1..] + [b];
    }
  }

  lemma {:induction false} ReversedTwice(s: seq<byte>)
    ensures Reversed(Reversed(s)) == s
  {
    if s != [] {
      ReversedTwice(s[1..]);
      ReversedSnoc(Reversed(s[1..]), s[0]);
    }
  }

  lemma {:induction false} LittleRoundTrip(v: nat, w: nat)
    requires v < Pow2(8 * w)
    ensures FromLittle(LittleBytes(v, w)) == v
    decreases w
  {
    if w != 0 {
      Pow2Adds(8 * (w - 1), 8);
      assert Pow2(8) == 256;
      LittleRoundTrip(v / 256, w - 1);
      assert LittleBytes(v, w)[1..] == LittleBytes(v / 256, w - 1);
    }
  }

  lemma {:induction false} LittleOfFrom(s: seq<byte>)
    ensures LittleBytes(FromLittle(s), |s|) == s
    ensures FromLittle(s) < Pow2(8 * |s|)
  {
    if s != [] {
      LittleOfFrom(s[1..]);
      Pow2Adds(8 * |s[1..]|, 8);
      assert Pow2(8) == 256;
      assert FromLittle(s) / 256 == FromLittle(s[1..]);
    }
  }

  /** Byte i counts multiples of 256 to the i in little-endian order, and of 256 to the w - 1 - i in big-endian. */
  lemma ByteValue(v: nat, w: nat, e: Endian, i: nat)
    requires i < w
    ensures ToBytes(v, w, e)[i] == v / Pow2(8 * if e == Big then w - 1 - i else i) % 256
  {
    if e == Big {
      ReversedAt(LittleBytes(v, w), i);
      LittleByte(v, w, w - 1 - i);
    } else {
      LittleByte(v, w, i);
    }
  }

  lemma {:induction false} LittleByte(v: nat, w: nat, i: nat)
    requires i < w
    ensures LittleBytes(v, w)[i] == v / Pow2(8 * i) % 256
    decreases w
  {
    if i > 0 {
      LittleByte(v / 256, w - 1, i - 1);
      assert Pow2(8) == 256;
      Pow2Adds(8, 8 * (i - 1));
      DivDiv(v, 256, Pow2(8 * (i - 1)));
    }
  }

  lemma {:induction false} ReversedAt(s: seq<byte>, i: nat)
    requires i < |s|
    ensures Reversed(s)[i] == s[|s| - 1 - i]
  {
    if i < |s| - 1 {
      ReversedAt(s[1..], i);
    }
  }

  lemma FromToBytes(v: nat, w: nat, e: Endian)
    requires v < Pow2(8 * w)
    ensures FromBytes(ToBytes(v, w, e), e) == v
  {
    LittleRoundTrip(v, w);
    ReversedTwice(LittleBytes(v, w));
  }

  /** What writeFuint16/32/64 put in the buffer: swap unless the orders agree, then copy the host word. */
  function FixedBytes(v: nat, w: nat, e: Endian, host: Endian): (s: seq<byte>)
    ensures |s| == w
  {
    ToBytes(if e != host then Byteswap(v, w) else v, w, host)
  }

  /** What readFuint16/32/64 make of the bytes. */
  function FixedValue(s: seq<byte>, e: Endian, host: Endian): nat {
    var v := FromBytes(s, host);
    if e == host then v else Byteswap(v, |s|)
  }

  /** The bytes follow the selected order, on either host. */
  lemma ByteOrder(v: nat, w: nat, e: Endian, host: Endian)
    ensures FixedBytes(v, w, e, host) == ToBytes(v, w, e)
  {
    if e != host {
      LittleOfFrom(Reversed(LittleBytes(v, w)));
      ReversedTwice(LittleBytes(v, w));
    }
  }

  lemma ByteOrderRead(s: seq<byte>, e: Endian, host: Endian)
    ensures FixedValue(s, e, host) == FromBytes(s, e)
  {
    if e != host {
      LittleOfFrom(s);
      LittleOfFrom(Reversed(s));
      ReversedTwice(s);
    }
  }

  lemma FixedRoundTrip(v: nat, w: nat, e: Endian, host: Endian)
    requires v < Pow2(8 * w)
    ensures FixedValue(FixedBytes(v, w, e, host), e, host) == v
  {
    ByteOrder(v, w, e, host);
    ByteOrderRead(ToBytes(v, w, e), e, host);
    FromToBytes(v, w, e);
  }

  // ----- two's complement

  predicate InSigned(v: int, n: nat)
    requires n > 0
  {
    0 <= v + Pow2(n - 1) && v < Pow2(n - 1)
  }

  /** The cast to an unsigned n-bit word. */
  function Unsigned(v: int, n: nat): (u: nat)
    ensures u < Pow2(n)
  {
    v % Pow2(n)
  }

  /** The cast back. */
  function Signed(u: nat, n: nat): int
    requires n > 0
  {
    if u < Pow2(n - 1) then u else u - Pow2(n)
  }

  lemma UnsignedCases(v: int, n: nat)
    requires n > 0 && InSigned(v, n)
    ensures Unsigned(v, n) == if v < 0 then v + Pow2(n) else v
  {
    if v < 0 {
      ModOnce(v, Pow2(n));
    } else {
      ModUnique(v, Pow2(n), 0, v);
    }
  }

  lemma ModOnce(v: int, m: nat)
    requires m > 0 && 0 <= v + m && v < 0
    ensures v % m == v + m
  {
    var d := v / m + 1;
    assert d * m == v - v % m + m;
    assert d >= 1 ==> d * m >= m;
    assert d <= -1 ==> d * m + m <= 0;
  }

  lemma SignedRoundTrip(v: int, n: nat)
    requires n > 0 && InSigned(v, n)
    ensures Signed(Unsigned(v, n), n) == v
  {
    UnsignedCases(v, n);
  }

  // ----- zigzag

  function EncodeZigzag(v: int, n: nat): (u: nat)
    requires n > 0
    ensures u < Pow2(n)
  {
    if v < 0 then Unsigned(Unsigned(-v, n) * 2 - 1, n) else Unsigned(v * 2, n)
  }

  function DecodeZigzag(u: nat, n: nat): int
    requires n > 0
  {
    Signed(Xor(u / 2, Unsigned(-(u % 2), n)), n)
  }

  /** Small magnitudes of either sign get small codes: 0, -1, 1, -2, ... in turn. */
  lemma ZigzagOrder(v: int, n: nat)
    requires n > 0 && InSigned(v, n)
    ensures EncodeZigzag(v, n) == if v < 0 then -2 * v - 1 else 2 * v
  {
    var m := Pow2(n);
    assert m == 2 * Pow2(n - 1);
    if v < 0 {
      ModUnique(-v, m, 0, -v);
      if -2 * v == m {
        ModUnique(m - 1, m, 0, m - 1);
      } else {
        ModUnique(-2 * v - 1, m, 0, -2 * v - 1);
      }
    } else {
      ModUnique(2 * v, m, 0, 2 * v);
    }
  }

  lemma DecodeHalves(h: nat, n: nat)
    requires n > 0 && h < Pow2(n - 1)
    ensures Signed(Xor(h, Unsigned(0, n)), n) == h
    ensures Signed(Xor(h, Unsigned(-1, n)), n) + h == -1
  {
    UnsignedEnds(n);
    XorHalves(h, n, Unsigned(0, n), Unsigned(-1, n));
  }

  lemma XorHalves(h: nat, n: nat, none: nat, ones: nat)
    requires n > 0 && h < Pow2(n - 1) && none == 0 && ones == Pow2(n) - 1
    ensures Signed(Xor(h, none), n) == h && Signed(Xor(h, ones), n) == -1 - h
  {
    XorZero(h);
    XorOnes(h, n);
    SignedEnds(h, n);
  }

  lemma UnsignedEnds(n: nat)
    ensures Unsigned(0, n) == 0 && Unsigned(-1, n) == Pow2(n) - 1
  {
    ModUnique(0, Pow2(n), 0, 0);
    ModOnce(-1, Pow2(n));
  }

  lemma SignedEnds(h: nat, n: nat)
    requires n > 0 && h < Pow2(n - 1)
    ensures Signed(h, n) == h && Signed(Pow2(n) - 1 - h, n) == -1 - h
  {
    assert Pow2(n) == 2 * Pow2(n - 1);
  }

  lemma DecodeZigzagValue(u: nat, n: nat)
    requires n > 0 && u < Pow2(n)
    ensures DecodeZigzag(u, n) == if u % 2 == 0 then u / 2 else -(u / 2) - 1
  {
    assert u / 2 < Pow2(n - 1);
    DecodeParts(u / 2, u % 2, n);
  }

  lemma DecodeParts(h: nat, i: int, n: nat)
    requires n > 0 && h < Pow2(n - 1) && 0 <= i < 2
    ensures i == 0 ==> Signed(Xor(h, Unsigned(-i, n)), n) == h
    ensures i == 1 ==> Signed(Xor(h, Unsigned(-i, n)), n) + h == -1
  {
    DecodeHalves(h, n);
  }

  lemma ZigzagRoundTrip(v: int, n: nat)
    requires n > 0 && InSigned(v, n)
    ensures DecodeZigzag(EncodeZigzag(v, n), n) == v
  {
    ZigzagOrder(v, n);
    DecodeZigzagValue(EncodeZigzag(v, n), n);
  }

  lemma ZigzagInverse(u: nat, n: nat)
    requires n > 0 && u < Pow2(n)
    ensures InSigned(DecodeZigzag(u, n), n) && EncodeZigzag(DecodeZigzag(u, n), n) == u
  {
    DecodeZigzagValue(u, n);
    ZigzagOrder(DecodeZigzag(u, n), n);
  }

  // ----- varints

  function EncodeVarint(v: nat): (s: seq<byte>)
    ensures |s| > 0
  {
    if v < 128 then [v] else [v % 128 + 128] + EncodeVarint(v / 128)
  }

  /** Byte k holds the k-th group of seven bits, and the high bit unless it is the last. */
  lemma {:induction false} VarintDigit(v: nat, k: nat)
    requires k < |EncodeVarint(v)|
    ensures EncodeVarint(v)[k] == v / Pow2(7 * k) % 128 + if k + 1 < |EncodeVarint(v)| then 128 else 0
  {
    if v >= 128 && k > 0 {
      VarintDigit(v / 128, k - 1);
      assert Pow2(7) == 128;
      Pow2Adds(7, 7 * (k - 1));
      DivDiv(v, 128, Pow2(7 * (k - 1)));
    }
  }

  /** `result |= (b & 0x7f) << i` in a word of `bits` bits. */
  function Absorb(acc: nat, b: byte, bits: nat, i: nat): nat {
    Or(acc, Shl(And(b, 0x7f), i, bits))
  }

  /** readUint32/64 from bit i on, with `acc` collected so far: the value and the bytes used. */
  function DecodeVarint(s: seq<byte>, bits: nat, i: nat, acc: nat): Option<(nat, nat)>
    decreases |s|
  {
    if i >= bits then Some((acc, 0))
    else if s == [] then None
    else if s[0] < 0x80 then Some((Absorb(acc, s[0], bits, i), 1))
    else Later(DecodeVarint(s[1..], bits, i + 7, Absorb(acc, s[0], bits, i)), 1)
  }

  function Later<T>(d: Option<(T, nat)>, k: nat): Option<(T, nat)> {
    match d case None => None case Some((v, used)) => Some((v, used + k))
  }

  /** A final byte needs no masking. */
  lemma AbsorbFinal(acc: nat, b: byte, bits: nat, i: nat)
    requires b < 0x80
    ensures Absorb(acc, b, bits, i) == Or(acc, Shl(b, i, bits))
  {
    LowBitsAll(b);
  }

  lemma LowBitsAll(b: byte)
    requires b < 0x80
    ensures And(b, 0x7f) == b
  {
    assert Pow2(7) == 128;
    AndWhole(b, 7, 0x7f);
  }

  lemma AndWhole(b: nat, n: nat, m: nat)
    requires b < Pow2(n) && m == Pow2(n) - 1
    ensures And(b, m) == b
  {
    AndLow(b, n);
    LowAll(b, n);
  }

  function BitLength(v: nat): nat {
    if v == 0 then 0 else 1 + BitLength(v / 2)
  }

  lemma {:induction false} BitLengthBound(v: nat, n: nat)
    ensures BitLength(v) <= n <==> v < Pow2(n)
    decreases n
  {
    if n != 0 && v != 0 {
      BitLengthBound(v / 2, n - 1);
    }
  }

  lemma {:induction false} BitLengthShift(v: nat, k: nat)
    requires v >= Pow2(k)
    ensures BitLength(v) == k + BitLength(v / Pow2(k))
    decreases k
  {
    if k != 0 {
      BitLengthShift(v / 2, k - 1);
      DivDiv(v, 2, Pow2(k - 1));
    }
  }

  /** A varint takes max(1, ceil(bits / 7)) bytes. */
  lemma {:induction false} VarintLength(v: nat)
    ensures |EncodeVarint(v)| == if v == 0 then 1 else (BitLength(v) + 6) / 7
  {
    assert Pow2(7) == 128;
    if v < 128 {
      BitLengthBound(v, 7);
    } else {
      VarintLength(v / 128);
      BitLengthShift(v, 7);
    }
  }

  /** So five bytes hold any 32-bit value and ten any 64-bit value. */
  lemma VarintFits(v: nat, n: nat)
    requires v < Pow2(n) && n > 0
    ensures |EncodeVarint(v)| <= (n + 6) / 7
  {
    VarintLength(v);
    BitLengthBound(v, n);
  }

  lemma LowBits(b: byte)
    ensures And(b, 0x7f) == b % 128
  {
    assert Pow2(7) == 128;
    AndOnes(b, 7);
  }

  /** One decoding step on bits that are still in range adds them on top of `acc`. */
  lemma AbsorbAdds(b: byte, low: nat, bits: nat, i: nat, acc: nat)
    requires low == b % 128 && acc < Pow2(i) && low * Pow2(i) < Pow2(bits)
    ensures Absorb(acc, b, bits, i) == acc + low * Pow2(i)
  {
    LowBits(b);
    OrShifted(low, bits, i, acc);
  }

  lemma OrShifted(low: nat, bits: nat, i: nat, acc: nat)
    requires acc < Pow2(i) && low * Pow2(i) < Pow2(bits)
    ensures Or(acc, Shl(low, i, bits)) == acc + low * Pow2(i)
  {
    var x := low * Pow2(i);
    ShlIsProduct(low, i, bits);
    ModUnique(x, Pow2(bits), 0, x);
    OrDisjoint(acc, low, i);
  }

  lemma ShiftRoom(v: nat, bits: nat, i: nat)
    requires i < bits && 128 <= v < Pow2(bits - i)
    ensures i + 7 < bits && v / 128 < Pow2(bits - (i + 7))
  {
    assert Pow2(7) == 128;
    if bits - i <= 7 {
      Pow2Monotone(bits - i, 7);
    } else {
      Pow2Adds(bits - i - 7, 7);
    }
  }

  lemma ShiftedBelow(v: nat, bits: nat, i: nat)
    requires i < bits && v < Pow2(bits - i)
    ensures v * Pow2(i) < Pow2(bits)
  {
    Pow2Adds(bits - i, i);
    assert (Pow2(bits - i) - v) * Pow2(i) > 0;
  }

  lemma MulLess(x: nat, y: nat, m: nat)
    requires x <= y
    ensures x * m <= y * m
  {
    assert (y - x) * m >= 0;
  }

  /** Decoding a byte with the continuation bit goes on with the rest. */
  lemma DecodeMore(b: byte, s: seq<byte>, bits: nat, i: nat, acc: nat)
    requires b >= 0x80 && i < bits
    ensures DecodeVarint([b] + s, bits, i, acc) == Later(DecodeVarint(s, bits, i + 7, Absorb(acc, b, bits, i)), 1)
  {
    assert ([b] + s)[1..] == s;
  }

  lemma DecodeFinal(b: byte, s: seq<byte>, bits: nat, i: nat, acc: nat)
    requires b < 0x80 && i < bits
    ensures DecodeVarint([b] + s, bits, i, acc) == Some((Absorb(acc, b, bits, i), 1))
  {
  }

  lemma EncodeSplit(v: nat, rest: seq<byte>)
    requires v >= 128
    ensures EncodeVarint(v) + rest == [v % 128 + 128] + (EncodeVarint(v / 128) + rest)
    ensures |EncodeVarint(v)| == |EncodeVarint(v / 128)| + 1
  {
  }

  lemma {:induction false} VarintDecodes(v: nat, rest: seq<byte>, bits: nat, i: nat, acc: nat)
    requires i < bits && acc < Pow2(i) && v < Pow2(bits - i)
    ensures DecodeVarint(EncodeVarint(v) + rest, bits, i, acc) == Some((acc + v * Pow2(i), |EncodeVarint(v)|))
    decreases v
  {
    ShiftedBelow(v, bits, i);
    if v < 128 {
      AbsorbAdds(v, v, bits, i, acc);
      DecodeFinal(v, rest, bits, i, acc);
    } else {
      VarintMore(v, bits, i, acc);
      VarintDecodes(v / 128, rest, bits, i + 7, acc + (v % 128) * Pow2(i));
      EncodeSplit(v, rest);
      DecodeMore(v % 128 + 128, EncodeVarint(v / 128) + rest, bits, i, acc);
    }
  }

  lemma VarintMore(v: nat, bits: nat, i: nat, acc: nat)
    requires i < bits && acc < Pow2(i) && 128 <= v < Pow2(bits - i) && v * Pow2(i) < Pow2(bits)
    ensures Absorb(acc, v % 128 + 128, bits, i) == acc + (v % 128) * Pow2(i) < Pow2(i + 7)
    ensures i + 7 < bits && v / 128 < Pow2(bits - (i + 7))
    ensures acc + (v % 128) * Pow2(i) + (v / 128) * Pow2(i + 7) == acc + v * Pow2(i)
  {
    VarintAbsorbs(v % 128, v, bits, i, acc);
    VarintCarry(v, bits, i, acc);
    ShiftRoom(v, bits, i);
  }

  lemma VarintAbsorbs(low: nat, v: nat, bits: nat, i: nat, acc: nat)
    requires low < 128 && low <= v && acc < Pow2(i) && v * Pow2(i) < Pow2(bits)
    ensures Absorb(acc, low + 128, bits, i) == acc + low * Pow2(i)
  {
    MulLess(low, v, Pow2(i));
    AbsorbAdds(low + 128, low, bits, i, acc);
  }

  lemma VarintCarry(v: nat, bits: nat, i: nat, acc: nat)
    requires acc < Pow2(i)
    ensures acc + (v % 128) * Pow2(i) < Pow2(i + 7)
    ensures acc + (v % 128) * Pow2(i) + (v / 128) * Pow2(i + 7) == acc + v * Pow2(i)
  {
    assert Pow2(7) == 128;
    Pow2Adds(i, 7);
    MulLess(v % 128 + 1, 128, Pow2(i));
    SplitTimes(v / 128, v % 128, Pow2(i));
  }

  lemma SplitTimes(high: nat, low: nat, p: nat)
    ensures (128 * high + low) * p == high * (128 * p) + low * p
  {
  }

  /** Every 32-bit or 64-bit value comes back, whatever follows it. */
  lemma VarintRoundTrip(v: nat, bits: nat, rest: seq<byte>)
    requires bits > 0 && v < Pow2(bits)
    ensures DecodeVarint(EncodeVarint(v) + rest, bits, 0, 0) == Some((v, |EncodeVarint(v)|))
  {
    VarintDecodes(v, rest, bits, 0, 0);
  }

  // ----- reading any bytes

  /** The number that groups of seven bits stand for, least significant first. */
  function Base128(s: seq<byte>): nat {
    if s == [] then 0 else s[0] % 128 + 128 * Base128(s[1..])
  }

  /** A step of the reader adds the group at its place, in a word of `bits` bits. */
  lemma AbsorbValue(acc: nat, b: byte, bits: nat, i: nat)
    requires i < bits && acc < Pow2(i)
    ensures Absorb(acc, b, bits, i) == (acc + b % 128 * Pow2(i)) % Pow2(bits) < Pow2(i + 7)
  {
    LowBits(b);
    var low, m := b % 128, Pow2(bits - i);
    var q, l := Division(low, m);
    AbsorbCut(acc, low, bits, i, m, q, l);
    GroupFits(acc, l, i);
  }

  lemma Division(x: nat, m: nat) returns (q: nat, r: nat)
    requires m > 0
    ensures x == q * m + r && r < m && r <= x
  {
    q, r := x / m, x % m;
    assert q * m >= 0;
  }

  lemma AbsorbCut(acc: nat, low: nat, bits: nat, i: nat, m: nat, q: nat, l: nat)
    requires i < bits && acc < Pow2(i) && m == Pow2(bits - i) && l < m && low == q * m + l
    ensures Or(acc, Shl(low, i, bits)) == (acc + low * Pow2(i)) % Pow2(bits) == acc + l * Pow2(i)
  {
    Pow2Adds(i, bits - i);
    ShlIsProduct(low, i, bits);
    CutProduct(acc, low, Pow2(i), m, q, l);
    OrDisjoint(acc, l, i);
  }

  lemma GroupFits(acc: nat, l: nat, i: nat)
    requires acc < Pow2(i) && l < 128
    ensures acc + l * Pow2(i) < Pow2(i + 7)
  {
    assert Pow2(7) == 128;
    Pow2Adds(i, 7);
    Below(l, 128, Pow2(i));
  }

  lemma CutProduct(acc: nat, low: nat, p: nat, m: nat, q: nat, l: nat)
    requires acc < p && l < m && low == q * m + l
    ensures p * m > 0 && low * p % (p * m) == l * p && (acc + low * p) % (p * m) == acc + l * p
  {
    Below(l, m, p);
    assert m * p == p * m;
    assert low * p == q * (p * m) + l * p;
    ModUnique(low * p, p * m, q, l * p);
    ModUnique(acc + low * p, p * m, q, acc + l * p);
  }

  lemma ModThenAdd(x: nat, y: nat, m: nat)
    requires m > 0
    ensures (x % m + y) % m == (x + y) % m
  {
    var q, r := (x % m + y) / m, (x % m + y) % m;
    assert x + y == (x / m + q) * m + r;
    ModUnique(x + y, m, x / m + q, r);
  }

  /** What reading comes to: out of data, or so many bytes and a value. */
  ghost predicate Reads(s: seq<byte>, bits: nat, i: nat, acc: nat, d: Option<(nat, nat)>) {
    if d.None? then i + 7 * |s| < bits && forall k :: 0 <= k < |s| ==> s[k] >= 128
    else
      var v, used := d.value.0, d.value.1;
      && used <= |s| && (forall k :: 0 <= k < used - 1 ==> s[k] >= 128)
      && (used > 0 ==> i + 7 * (used - 1) < bits)
      && (i + 7 * used >= bits || (used > 0 && s[used - 1] < 128))
      && v == (acc + Base128(s[..used]) * Pow2(i)) % Pow2(bits)
  }

  lemma {:induction false} VarintReads(s: seq<byte>, bits: nat, i: nat, acc: nat)
    requires acc < Pow2(i) && acc < Pow2(bits)
    ensures Reads(s, bits, i, acc, DecodeVarint(s, bits, i, acc))
    decreases |s|
  {
    if i >= bits {
      assert s[..0] == [];
      ModUnique(acc, Pow2(bits), 0, acc);
    } else if s != [] {
      AbsorbValue(acc, s[0], bits, i);
      var acc' := Absorb(acc, s[0], bits, i);
      if s[0] < 0x80 {
        assert s[..1] == [s[0]];
      } else {
        VarintReads(s[1..], bits, i + 7, acc');
        ReadsMore(s, bits, i, acc, acc', DecodeVarint(s[1..], bits, i + 7, acc'));
      }
    }
  }

  lemma ReadsMore(s: seq<byte>, bits: nat, i: nat, acc: nat, acc': nat, d: Option<(nat, nat)>)
    requires s != [] && s[0] >= 128 && i < bits && acc' == (acc + s[0] % 128 * Pow2(i)) % Pow2(bits)
    requires Reads(s[1..], bits, i + 7, acc', d)
    ensures Reads(s, bits, i, acc, Later(d, 1))
  {
    if d.Some? {
      var used := d.value.1;
      assert s[..used + 1] == [s[0]] + s[1..][..used];
      assert Base128(s[..used + 1]) == s[0] % 128 + 128 * Base128(s[1..][..used]);
      ReadsValue(s[0] % 128, Base128(s[1..][..used]), bits, i, acc);
    }
  }

  lemma ReadsValue(low: nat, high: nat, bits: nat, i: nat, acc: nat)
    ensures ((acc + low * Pow2(i)) % Pow2(bits) + high * Pow2(i + 7)) % Pow2(bits)
            == (acc + (low + 128 * high) * Pow2(i)) % Pow2(bits)
  {
    GroupAdds(low, high, i);
    ModThenAdd(acc + low * Pow2(i), high * Pow2(i + 7), Pow2(bits));
  }

  lemma GroupAdds(low: nat, high: nat, i: nat)
    ensures low * Pow2(i) + high * Pow2(i + 7) == (low + 128 * high) * Pow2(i)
  {
    assert Pow2(7) == 128;
    Pow2Adds(i, 7);
    SplitTimes(high, low, Pow2(i));
  }

  /**
    What readUint32 and readUint64 make of any bytes: they stop at the first byte without the high bit, or after as
    many as `bits` bits need; the value is that of the groups read, cut to `bits` bits. Short of that data run out.
   */
  lemma VarintOfAnyBytes(s: seq<byte>, bits: nat)
    requires bits > 0
    ensures var d := DecodeVarint(s, bits, 0, 0);
            if d.None? then |s| < (bits + 6) / 7 && forall k :: 0 <= k < |s| ==> s[k] >= 128
            else
              var v, used := d.value.0, d.value.1;
              && 0 < used <= |s| && used <= (bits + 6) / 7 && (forall k :: 0 <= k < used - 1 ==> s[k] >= 128)
              && (s[used - 1] >= 128 ==> used == (bits + 6) / 7)
              && v == Base128(s[..used]) % Pow2(bits)
  {
    VarintReads(s, bits, 0, 0);
    var d := DecodeVarint(s, bits, 0, 0);
    if d.Some? {
      assert Base128(s[..d.value.1]) * Pow2(0) == Base128(s[..d.value.1]);
    }
  }
}
