/** Network arithmetic on 16-byte IPv6 addresses, read as big-endian 128-bit numbers. */
module Ipv6 {
  import opened Bits

  type Address = a: seq<byte> | |a| == 16 witness seq(16, i => 0)

  /** The big-endian value of a byte string. */
  function Value(s: seq<byte>): nat {
    if s == [] then 0 else Value(s[..|s| - 1]) * 256 + s[|s| - 1]
  }

  /** CreateMask<uint8_t>: shifted as a 32-bit int and cut to a byte, it has the low 8 - bits bits set. */
  function CreateMask(bits: nat): (m: byte)
    requires bits < 8
    ensures m == Pow2(8 - bits) - 1
  {
    ShiftedOne(8 - bits);
    (Shl(1, 8 - bits, 32) - 1) % 256
  }

  lemma ShiftedOne(n: nat)
    requires n <= 8
    ensures Shl(1, n, 32) == Pow2(n) <= 256
  {
    assert Pow2(8) == 256;
    Pow2Monotone(n, 8);
    Pow2Adds(8, 24);
    Pow2Monotone(n, 31);
    ShlIsProduct(1, n, 32);
    ModUnique(Pow2(n), Pow2(32), 0, Pow2(n));
  }

  /** v rounded down to a multiple of d. */
  function Floor(v: nat, d: nat): (r: nat)
    requires d > 0
    ensures r <= v < r + d
    decreases v
  {
    if v < d then 0 else Floor(v - d, d) + d
  }

  lemma {:induction false} FloorIsMod(v: nat, d: nat)
    requires d > 0
    ensures Floor(v, d) == v - v % d
    decreases v
  {
    if v < d {
      ModUnique(v, d, 0, v);
    } else {
      FloorIsMod(v - d, d);
      OneMore(v - d, d);
    }
  }

  lemma OneMore(v: nat, d: nat)
    requires d > 0
    ensures (v + d) % d == v % d
  {
    Distribute(1, v / d, 1, d);
    ModUnique(v + d, d, v / d + 1, v % d);
  }

  /** The size of a block of the byte in which a prefix ends. */
  function Block(prefix: nat): (d: nat)
    ensures 1 < d <= 256
  {
    BlockBounds(8 - prefix % 8);
    Pow2(8 - prefix % 8)
  }

  lemma BlockBounds(n: nat)
    requires 1 <= n <= 8
    ensures 2 <= Pow2(n) <= 256
  {
    assert Pow2(1) == 2 && Pow2(8) == 256;
    Pow2Monotone(1, n);
    Pow2Monotone(n, 8);
  }

  lemma MaskIsBlock(prefix: nat)
    ensures CreateMask(prefix % 8) == Block(prefix) - 1
  {
  }

  /** `b & ~CreateMask(prefix % 8)` rounds down to a multiple of the block. */
  lemma AndNotMask(b: byte, prefix: nat)
    ensures And(b, 255 - CreateMask(prefix % 8)) == Floor(b, Block(prefix))
  {
    assert Pow2(8) == 256;
    FloorIsMod(b, Block(prefix));
    MaskIsBlock(prefix);
    AndHighMask(b, 8 - prefix % 8, 8);
  }

  /** `b | CreateMask(prefix % 8)` goes to the end of the block. */
  lemma OrWithMask(b: byte, prefix: nat)
    ensures Or(b, CreateMask(prefix % 8)) == Floor(b, Block(prefix)) + Block(prefix) - 1 < 256
  {
    FloorIsMod(b, Block(prefix));
    MaskIsBlock(prefix);
    OrMask(b, 8 - prefix % 8, Block(prefix) - 1);
    RoundUp(b, 8 - prefix % 8);
  }

  lemma OrMask(b: byte, n: nat, m: nat)
    requires m == Pow2(n) - 1
    ensures Or(b, m) == b - b % Pow2(n) + Pow2(n) - 1
  {
    OrLowMask(b, n);
  }

  /** networdAddress */
  method NetworkAddress(a: Address, prefix: nat) returns (r: Address)
    requires prefix < 128
    ensures r == Network(a, prefix)
  {
    var q := prefix / 8;
    r := a;
    AndNotMask(a[q], prefix);
    r := r[q := And(r[q], 255 - CreateMask(prefix % 8))];
    var i := q + 1;
    while i < 16
      invariant q < i <= 16 && |r| == 16
      invariant forall j :: 0 <= j < i ==> r[j] == Network(a, prefix)[j]
      invariant forall j :: i <= j < 16 ==> r[j] == a[j]
    {
      r := r[i := 0];
      i := i + 1;
    }
  }

  /** broadcastAddress */
  method BroadcastAddress(a: Address, prefix: nat) returns (r: Address)
    requires prefix < 128
    ensures r == Broadcast(a, prefix)
  {
    var q := prefix / 8;
    r := a;
    OrWithMask(a[q], prefix);
    r := r[q := Or(r[q], CreateMask(prefix % 8))];
    var i := q + 1;
    while i < 16
      invariant q < i <= 16 && |r| == 16
      invariant forall j :: 0 <= j < i ==> r[j] == Broadcast(a, prefix)[j]
      invariant forall j :: i <= j < 16 ==> r[j] == a[j]
    {
      r := r[i := 0xff];
      i := i + 1;
    }
  }

  method SubnetMask(prefix: nat) returns (r: Address)
    requires prefix < 128
    ensures r == Mask(prefix)
  {
    var q := prefix / 8;
    r := seq(16, i => 0);
    MaskIsBlock(prefix);
    r := r[q := 255 - CreateMask(prefix % 8)];
    var i := 0;
    while i < q
      invariant 0 <= i <= q && |r| == 16
      invariant forall j :: 0 <= j < i ==> r[j] == Mask(prefix)[j]
      invariant forall j :: q <= j < 16 ==> r[j] == Mask(prefix)[j]
    {
      r := r[i := 0xff];
      i := i + 1;
    }
  }

  /** Rounding a byte up to the next multiple of 2^n stays within 256. */
  lemma RoundUp(b: byte, n: nat)
    requires n <= 8
    ensures b - b % Pow2(n) + Pow2(n) <= 256
  {
    Pow2Adds(8 - n, n);
    assert Pow2(8) == 256;
    NextMultiple(b, Pow2(n), Pow2(8 - n));
  }

  lemma NextMultiple(b: nat, d: nat, e: nat)
    requires d > 0 && b < e * d
    ensures b - b % d + d <= e * d
  {
    var g := e - 1 - b / d;
    assert g * d == e * d - d - (b - b % d);
    assert g <= -1 ==> g * d + d <= 0;
    assert g >= 0 ==> g * d >= 0;
  }

  lemma BlockFits(b: byte, prefix: nat)
    ensures Floor(b, Block(prefix)) + Block(prefix) <= 256
  {
    FloorIsMod(b, Block(prefix));
    RoundUp(b, 8 - prefix % 8);
  }

  /** What the three are, byte by byte: the partial byte is rounded down to its block, or up to the end of it. */
  function Network(a: Address, prefix: nat): Address
    requires prefix < 128
  {
    var q := prefix / 8;
    a[..q] + [Floor(a[q], Block(prefix))] + Zeros(15 - q)
  }

  function Broadcast(a: Address, prefix: nat): Address
    requires prefix < 128
  {
    var q := prefix / 8;
    BlockFits(a[q], prefix);
    a[..q] + [Floor(a[q], Block(prefix)) + Block(prefix) - 1] + Ones(15 - q)
  }

  function Mask(prefix: nat): Address
    requires prefix < 128
  {
    var q := prefix / 8;
    Ones(q) + [256 - Block(prefix)] + Zeros(15 - q)
  }

  function Zeros(n: nat): (s: seq<byte>)
    ensures |s| == n && forall i :: 0 <= i < n ==> s[i] == 0
  {
    seq(n, i => 0)
  }

  function Ones(n: nat): (s: seq<byte>)
    ensures |s| == n && forall i :: 0 <= i < n ==> s[i] == 0xff
  {
    seq(n, i => 0xff)
  }

  // ----- what these are, as numbers

  lemma {:induction false} ValueAppend(s: seq<byte>, t: seq<byte>)
    ensures Value(s + t) == Value(s) * Pow2(8 * |t|) + Value(t)
    ensures Value(t) < Pow2(8 * |t|)
    decreases |t|
  {
    if t == [] {
      assert s + t == s;
    } else {
      var front, last := t[..|t| - 1], t[|t| - 1];
      ValueAppend(s, front);
      assert (s + t)[..|s + t| - 1] == s + front;
      assert Pow2(8) == 256;
      Pow2Adds(8 * |front|, 8);
      ShiftSum(Value(s), Pow2(8 * |front|), Value(front), last);
    }
  }

  lemma ShiftSum(v: nat, p: nat, f: nat, b: byte)
    requires f < p
    ensures (v * p + f) * 256 + b == v * (p * 256) + (f * 256 + b)
    ensures f * 256 + b < p * 256
  {
  }

  lemma {:induction false} ValueZeros(n: nat)
    ensures Value(Zeros(n)) == 0
  {
    if n > 0 {
      assert Zeros(n)[..n - 1] == Zeros(n - 1);
      ValueZeros(n - 1);
    }
  }

  lemma {:induction false} ValueOnes(n: nat)
    ensures Value(Ones(n)) == Pow2(8 * n) - 1
  {
    if n > 0 {
      assert Ones(n)[..n - 1] == Ones(n - 1);
      ValueOnes(n - 1);
      assert Pow2(8) == 256;
      Pow2Adds(8 * (n - 1), 8);
    }
  }

  /** A byte string split at byte q. */
  lemma ValueSplit(h: seq<byte>, b: byte, t: seq<byte>)
    ensures Value(h + [b] + t) == (Value(h) * 256 + b) * Pow2(8 * |t|) + Value(t)
    ensures Value(t) < Pow2(8 * |t|)
  {
    ValueSnoc(h, b);
    ValueJoin(h + [b], Value(h) * 256 + b, t);
  }

  lemma ValueJoin(g: seq<byte>, x: nat, t: seq<byte>)
    requires Value(g) == x
    ensures Value(g + t) == x * Pow2(8 * |t|) + Value(t)
    ensures Value(t) < Pow2(8 * |t|)
  {
    ValueAppend(g, t);
  }

  lemma ValueSnoc(h: seq<byte>, b: byte)
    ensures Value(h + [b]) == Value(h) * 256 + b
  {
    assert (h + [b])[..|h|] == h;
  }

  /** Rounding a number down to whole blocks of d * m is rounding what is above m down to whole d. */
  lemma {:induction false} FloorScaled(x: nat, d: nat, m: nat, t: nat)
    requires d > 0 && t < m
    ensures d * m > 0 && Floor(x * m + t, d * m) == Floor(x, d) * m
    decreases x
  {
    Positive(d, m);
    if x < d {
      Below(x, d, m);
    } else {
      FloorScaled(x - d, d, m, t);
      FloorNext(x, d, m, t, d * m);
    }
  }

  lemma Positive(d: nat, m: nat)
    requires d > 0 && m > 0
    ensures d * m > 0
  {
  }

  lemma FloorNext(x: nat, d: nat, m: nat, t: nat, p: nat)
    requires 0 < d <= x && p == d * m && p > 0 && Floor((x - d) * m + t, p) == Floor(x - d, d) * m
    ensures Floor(x * m + t, p) == Floor(x, d) * m
  {
    Distribute(1, x - d, d, m);
    Distribute(1, Floor(x - d, d), d, m);
    assert x * m + t == (x - d) * m + t + p;
  }

  lemma Distribute(k: nat, d: nat, r: nat, m: nat)
    ensures (k * d + r) * m == k * (d * m) + r * m
  {
  }

  /** Whole blocks on top do not matter. */
  lemma {:induction false} FloorAbove(k: nat, d: nat, b: nat)
    requires d > 0
    ensures Floor(k * d + b, d) == k * d + Floor(b, d)
    decreases k
  {
    if k > 0 {
      FloorAbove(k - 1, d, b);
      assert k * d == (k - 1) * d + d;
    }
  }

  lemma FloorOfByte(v: nat, b: byte, prefix: nat)
    ensures Floor(v * 256 + b, Block(prefix)) == v * 256 + Floor(b, Block(prefix))
  {
    var n := 8 - prefix % 8;
    Pow2Adds(8 - n, n);
    assert Pow2(8) == 256;
    Blocks(v, Pow2(8 - n), Pow2(n));
    FloorAbove(v * Pow2(8 - n), Pow2(n), b);
  }

  lemma Blocks(v: nat, e: nat, d: nat)
    requires e * d == 256
    ensures v * e * d == v * 256
  {
  }

  lemma PrefixSize(prefix: nat, d: nat, m: nat)
    requires prefix < 128 && d == Block(prefix) && m == Pow2(8 * (15 - prefix / 8))
    ensures Pow2(128 - prefix) == d * m
  {
    Pow2Adds(8 - prefix % 8, 8 * (15 - prefix / 8));
    assert 128 - prefix == 8 - prefix % 8 + 8 * (15 - prefix / 8);
  }

  lemma BeforeZeros(h: seq<byte>, b: byte, t: seq<byte>, y: nat, m: nat)
    requires m == Pow2(8 * |t|) && Value(t) == 0 && y == Value(h) * 256 + b
    ensures Value(h + [b] + t) == y * m
  {
    ValueSnoc(h, b);
    ValueJoin(h + [b], y, t);
  }

  lemma ZerosValue(h: seq<byte>, b: byte, n: nat, x: nat, m: nat)
    requires x == Value(h) * 256 + b && m == Pow2(8 * n)
    ensures Value(h + [b] + Zeros(n)) == x * m
  {
    ValueZeros(n);
    BeforeZeros(h, b, Zeros(n), x, m);
  }

  lemma OnesValue(h: seq<byte>, b: byte, n: nat, x: nat, m: nat)
    requires x == Value(h) * 256 + b && m == Pow2(8 * n)
    ensures Value(h + [b] + Ones(n)) == x * m + (m - 1)
  {
    ValueOnes(n);
    BeforeOnes(h, b, Ones(n), x, m);
  }

  /** An address as a number, split at byte q. */
  lemma AddressParts(a: Address, q: nat, m: nat) returns (t: nat)
    requires q < 16 && m == Pow2(8 * (15 - q))
    ensures t < m && Value(a) == (Value(a[..q]) * 256 + a[q]) * m + t
  {
    var rest := a[q + 1..];
    t := Value(rest);
    assert a == a[..q] + [a[q]] + rest;
    ValueSplit(a[..q], a[q], rest);
  }

  /** The network address is the address rounded down to a multiple of 2^(128 - prefix). */
  lemma NetworkValue(a: Address, prefix: nat)
    requires prefix < 128
    ensures Value(Network(a, prefix)) == Value(a) - Value(a) % Pow2(128 - prefix)
  {
    NetworkIsFloor(a, prefix);
    FloorIsMod(Value(a), Pow2(128 - prefix));
  }

  lemma NetworkIsFloor(a: Address, prefix: nat)
    requires prefix < 128
    ensures Value(Network(a, prefix)) == Floor(Value(a), Pow2(128 - prefix))
  {
    var q, d := prefix / 8, Block(prefix);
    var m, h := Pow2(8 * (15 - q)), Value(a[..q]);
    NetworkBytes(a, prefix, h * 256 + Floor(a[q], d), m);
    var t := AddressParts(a, q, m);
    FloorOfByte(h, a[q], prefix);
    PrefixSize(prefix, d, m);
    FloorScaled(h * 256 + a[q], d, m, t);
  }

  lemma BeforeOnes(h: seq<byte>, b: byte, t: seq<byte>, y: nat, m: nat)
    requires m == Pow2(8 * |t|) && Value(t) == m - 1 && y == Value(h) * 256 + b
    ensures Value(h + [b] + t) == y * m + (m - 1)
  {
    ValueSnoc(h, b);
    ValueJoin(h + [b], y, t);
  }

  lemma NetworkBytes(a: Address, prefix: nat, x: nat, m: nat)
    requires prefix < 128 && m == Pow2(8 * (15 - prefix / 8))
    requires x == Value(a[..prefix / 8]) * 256 + Floor(a[prefix / 8], Block(prefix))
    ensures Value(Network(a, prefix)) == x * m
  {
    var q := prefix / 8;
    ZerosValue(a[..q], Floor(a[q], Block(prefix)), 15 - q, x, m);
  }

  lemma BroadcastBytes(a: Address, prefix: nat, x: nat, y: nat, m: nat)
    requires prefix < 128 && m == Pow2(8 * (15 - prefix / 8)) && y == x + Block(prefix) - 1
    requires x == Value(a[..prefix / 8]) * 256 + Floor(a[prefix / 8], Block(prefix))
    ensures Value(Broadcast(a, prefix)) == y * m + (m - 1)
  {
    var q, d := prefix / 8, Block(prefix);
    BlockFits(a[q], prefix);
    OnesValue(a[..q], Floor(a[q], d) + d - 1, 15 - q, y, m);
  }

  /** The broadcast address is the last one of the network. */
  lemma BroadcastValue(a: Address, prefix: nat)
    requires prefix < 128
    ensures Value(Broadcast(a, prefix)) == Value(Network(a, prefix)) + Pow2(128 - prefix) - 1
  {
    var net, all := Value(Network(a, prefix)), Value(Broadcast(a, prefix));
    var x, d, m := BlockOf(a, prefix, net, all);
    PrefixSize(prefix, d, m);
    BlockEnd(net, all, x, d, m, Pow2(128 - prefix));
  }

  lemma BlockOf(a: Address, prefix: nat, net: nat, all: nat) returns (x: nat, d: nat, m: nat)
    requires prefix < 128 && net == Value(Network(a, prefix)) && all == Value(Broadcast(a, prefix))
    ensures d == Block(prefix) && m == Pow2(8 * (15 - prefix / 8))
    ensures net == x * m && all == (x + d - 1) * m + (m - 1)
  {
    d, m := Block(prefix), Pow2(8 * (15 - prefix / 8));
    x := Value(a[..prefix / 8]) * 256 + Floor(a[prefix / 8], d);
    NetworkBytes(a, prefix, x, m);
    BroadcastBytes(a, prefix, x, x + d - 1, m);
  }

  lemma BlockEnd(n: nat, b: nat, x: nat, d: nat, m: nat, p: nat)
    requires d > 0 && m > 0 && p == d * m && n == x * m && b == (x + d - 1) * m + (m - 1)
    ensures b == n + p - 1
  {
    LastOfBlock(x, d, m, p);
  }

  lemma LastOfBlock(x: nat, d: nat, m: nat, p: nat)
    requires d > 0 && m > 0 && p == d * m
    ensures (x + d - 1) * m + (m - 1) == x * m + p - 1
  {
    Distribute(1, x, d - 1, m);
    Distribute(1, d - 1, 1, m);
  }

  /** Bit by bit, the network address is the address and-ed with the subnet mask. */
  lemma NetworkIsMasked(a: Address, prefix: nat, i: nat)
    requires prefix < 128 && i < 16
    ensures Network(a, prefix)[i] == And(a[i], Mask(prefix)[i])
  {
    var q := prefix / 8;
    if i < q {
      AndAll(a[i]);
    } else if i > q {
      AndZero(a[i]);
    } else {
      MaskIsBlock(prefix);
      AndNotMask(a[q], prefix);
    }
  }

  lemma AndAll(b: byte)
    ensures And(b, 255) == b
  {
    assert Pow2(8) == 256;
    AndOnes(b, 8);
    ModUnique(b, 256, 0, b);
  }

  /** x shifted left by n bits. */
  function Scale(x: nat, n: nat): nat {
    if n == 0 then x else 2 * Scale(x, n - 1)
  }

  /** Bitwise and works apart on the low n bits and on what is above them. */
  lemma {:induction false} AndSplit(x: nat, b: nat, y: nat, c: nat, n: nat)
    requires b < Pow2(n) && c < Pow2(n)
    ensures And(Scale(x, n) + b, Scale(y, n) + c) == Scale(And(x, y), n) + And(b, c)
    decreases n
  {
    if n != 0 {
      AndSplit(x, b / 2, y, c / 2, n - 1);
      AndJoin(Scale(x, n - 1), b, Scale(y, n - 1), c, Scale(And(x, y), n - 1));
    }
  }

  lemma {:induction false} ScaleIsProduct(x: nat, n: nat)
    ensures Scale(x, n) == x * Pow2(n)
  {
    if n != 0 {
      ScaleIsProduct(x, n - 1);
      Twice(x, Pow2(n - 1));
    }
  }

  lemma Twice(x: nat, p: nat)
    ensures x * (2 * p) == 2 * (x * p)
  {
  }

  lemma ScaleByte(x: nat)
    ensures Scale(x, 8) == 256 * x
  {
    assert Pow2(8) == 256;
    ScaleIsProduct(x, 8);
  }

  lemma AndJoin(x: nat, b: nat, y: nat, c: nat, z: nat)
    requires And(x + b / 2, y + c / 2) == z + And(b / 2, c / 2)
    ensures And(2 * x + b, 2 * y + c) == 2 * z + And(b, c)
  {
    var h, i, k, j := b / 2, b % 2, c / 2, c % 2;
    AndStep(2 * x + b, 2 * y + c, x + h, i, y + k, j);
    AndStep(b, c, h, i, k, j);
  }

  lemma AndByte(x: nat, b: byte, y: nat, c: byte)
    ensures And(x * 256 + b, y * 256 + c) == And(x, y) * 256 + And(b, c)
  {
    assert Pow2(8) == 256;
    AndSplit(x, b, y, c, 8);
    ScaleByte(x);
    ScaleByte(y);
    ScaleByte(And(x, y));
  }

  lemma {:induction false} AndValues(s: seq<byte>, t: seq<byte>, u: seq<byte>)
    requires |s| == |t| == |u| && forall i :: 0 <= i < |s| ==> u[i] == And(s[i], t[i])
    ensures Value(u) == And(Value(s), Value(t))
    decreases |s|
  {
    if s != [] {
      var n := |s| - 1;
      AndValues(s[..n], t[..n], u[..n]);
      AndByte(Value(s[..n]), s[n], Value(t[..n]), t[n]);
    }
  }

  /** The same as 128-bit numbers. */
  lemma NetworkIsAnd(a: Address, prefix: nat)
    requires prefix < 128
    ensures Value(Network(a, prefix)) == And(Value(a), Value(Mask(prefix)))
  {
    forall i | 0 <= i < 16
      ensures Network(a, prefix)[i] == And(a[i], Mask(prefix)[i])
    {
      NetworkIsMasked(a, prefix, i);
    }
    AndValues(a, Mask(prefix), Network(a, prefix));
  }
}
