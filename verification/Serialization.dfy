/** Reading and writing typed items through a byte array. */
module Serialization {
  import opened Common
  import opened Bits
  import opened Codec
  import opened FlatBuffers
  import opened ByteArrays

  datatype Kind =
    | KFixed(width: nat, signed: bool)
    | KVarint(bits: nat)
    | KZigzag(bits: nat)
    | KString(width: nat)
  {
    predicate Ok() {
      match this
      case KFixed(w, _) => w in {1, 2, 4, 8}
      case KVarint(n) => n in {32, 64}
      case KZigzag(n) => n in {32, 64}
      case KString(w) => w in {2, 4, 8}
    }
  }

  datatype Item = Number(kind: Kind, value: int) | Text(kind: Kind, text: seq<byte>)
  {
    /** Values of the C++ parameter types; a text whose length fits its length field. */
    predicate Ok() {
      && kind.Ok()
      && match this
         case Number(KFixed(w, signed), v) => if signed then InSigned(v, 8 * w) else 0 <= v < Pow2(8 * w)
         case Number(KVarint(n), v) => 0 <= v < Pow2(n)
         case Number(KZigzag(n), v) => InSigned(v, n)
         case Number(KString(_), _) => false
         case Text(k, t) => k.KString? && |t| < Pow2(8 * k.width)
    }
  }

  /** writeStringF16/32/64: the length, cut to its field, then all of the text. */
  function EncodeText(t: seq<byte>, w: nat, e: Endian): (s: seq<byte>)
    ensures |s| == w + |t|
  {
    ToBytes(|t| % Pow2(8 * w), w, e) + t
  }

  function Encode(item: Item, e: Endian): (s: seq<byte>)
    requires item.Ok()
    ensures |s| > 0
  {
    match item
    case Text(k, t) => EncodeText(t, k.width, e)
    case Number(k, v) =>
      match k
      case KFixed(w, _) => ToBytes(Unsigned(v, 8 * w), w, e)
      case KVarint(_) => EncodeVarint(v)
      case KZigzag(n) => EncodeVarint(EncodeZigzag(v, n))
  }

  /** The code of a fixed-width number: its two's complement, most or least significant byte first. */
  lemma FixedCode(k: Kind, v: int, e: Endian, i: nat)
    requires Number(k, v).Ok() && k.KFixed? && i < k.width
    ensures |Encode(Number(k, v), e)| == k.width
    ensures var u := if v < 0 then v + Pow2(8 * k.width) else v;
            u >= 0
            && Encode(Number(k, v), e)[i] == u / Pow2(8 * if e == Big then k.width - 1 - i else i) % 256
  {
    var u := if v < 0 then v + Pow2(8 * k.width) else v;
    FixedUnsigned(k, v);
    ByteValue(u, k.width, e, i);
  }

  lemma FixedUnsigned(k: Kind, v: int)
    requires Number(k, v).Ok() && k.KFixed?
    ensures Unsigned(v, 8 * k.width) == if v < 0 then v + Pow2(8 * k.width) else v
  {
    if v >= 0 {
      assert v < Pow2(8 * k.width);
      ModUnique(v, Pow2(8 * k.width), 0, v);
    } else {
      UnsignedCases(v, 8 * k.width);
    }
  }

  /** The code of a varint, plain or zigzag: groups of seven bits, least significant first. */
  lemma VarintCode(k: Kind, v: int, e: Endian, i: nat)
    requires Number(k, v).Ok() && (k.KVarint? || k.KZigzag?) && i < |Encode(Number(k, v), e)|
    ensures var u := if k.KVarint? then v else if v < 0 then -2 * v - 1 else 2 * v;
            var s := Encode(Number(k, v), e);
            s[i] == u / Pow2(7 * i) % 128 + if i + 1 < |s| then 128 else 0
  {
    if k.KVarint? {
      VarintDigit(v, i);
    } else {
      ZigzagOrder(v, k.bits);
      VarintDigit(EncodeZigzag(v, k.bits), i);
    }
  }

  /** The code of a text: its length in the selected order, then the text. */
  lemma TextCode(k: Kind, t: seq<byte>, e: Endian, i: nat)
    requires Text(k, t).Ok() && i < k.width
    ensures var s, p := Encode(Text(k, t), e), Pow2(8 * if e == Big then k.width - 1 - i else i);
            |s| == k.width + |t| && s[i] == |t| / p % 256 && s[k.width..] == t
  {
    ModUnique(|t|, Pow2(8 * k.width), 0, |t|);
    ByteValue(|t|, k.width, e, i);
  }

  /** The item at the head of s and the number of bytes it takes. */
  function Decode(k: Kind, s: seq<byte>, e: Endian): Option<(Item, nat)>
    requires k.Ok()
  {
    match k
    case KFixed(w, signed) =>
      if |s| < w then None
      else
        var u := FromBytes(s[..w], e);
        Some((Number(k, if signed then Signed(u, 8 * w) else u), w))
    case KVarint(n) =>
      (match DecodeVarint(s, n, 0, 0)
       case None => None
       case Some((v, used)) => Some((Number(k, v), used)))
    case KZigzag(n) =>
      (match DecodeVarint(s, n, 0, 0)
       case None => None
       case Some((v, used)) => Some((Number(k, DecodeZigzag(v, n)), used)))
    case KString(w) =>
      if |s| < w then None
      else
        var n := FromBytes(s[..w], e);
        if |s| - w < n then None else Some((Text(k, s[w..w + n]), w + n))
  }

  /** A text is read back, and all its bytes consumed, exactly if its length fits the length field. */
  lemma TextComesBackIff(t: seq<byte>, w: nat, e: Endian, rest: seq<byte>)
    requires KString(w).Ok()
    ensures Decode(KString(w), EncodeText(t, w, e) + rest, e) == Some((Text(KString(w), t), w + |t|))
            <==> |t| < Pow2(8 * w)
  {
    var n := |t| % Pow2(8 * w);
    LengthComesBack(t, w, e, rest, n);
    if |t| < Pow2(8 * w) {
      ModUnique(|t|, Pow2(8 * w), 0, |t|);
    }
  }

  /** The text read is as long as the length field says. */
  lemma LengthComesBack(t: seq<byte>, w: nat, e: Endian, rest: seq<byte>, n: nat)
    requires KString(w).Ok() && n == |t| % Pow2(8 * w)
    ensures var d := Decode(KString(w), EncodeText(t, w, e) + rest, e);
            if n == |t| then d == Some((Text(KString(w), t), w + |t|)) else d.Some? ==> d.value.1 == w + n
  {
    var s := EncodeText(t, w, e) + rest;
    assert s[..w] == ToBytes(n, w, e);
    FromToBytes(n, w, e);
    if n == |t| {
      assert s[w..w + |t|] == t;
    }
  }

  lemma DecodeEncode(item: Item, e: Endian, rest: seq<byte>)
    requires item.Ok()
    ensures Decode(item.kind, Encode(item, e) + rest, e) == Some((item, |Encode(item, e)|))
  {
    var s := Encode(item, e) + rest;
    match item
    case Text(k, t) =>
      TextComesBackIff(t, k.width, e, rest);
    case Number(KFixed(w, signed), v) =>
      assert s[..w] == ToBytes(Unsigned(v, 8 * w), w, e);
      FromToBytes(Unsigned(v, 8 * w), w, e);
      if signed {
        SignedRoundTrip(v, 8 * w);
      } else {
        ModUnique(v, Pow2(8 * w), 0, v);
      }
    case Number(KVarint(n), v) =>
      VarintRoundTrip(v, n, rest);
    case Number(KZigzag(n), v) =>
      VarintRoundTrip(EncodeZigzag(v, n), n, rest);
      ZigzagRoundTrip(v, n);
  }

  predicate AllOk(items: seq<Item>) {
    forall i :: 0 <= i < |items| ==> items[i].Ok()
  }

  /** The code of an item in byte order e. */
  function Coder(e: Endian): Item -> seq<byte> {
    (x: Item) => if x.Ok() then Encode(x, e) else []
  }

  function EncodeAll(items: seq<Item>, code: Item -> seq<byte>): seq<byte> {
    if items == [] then [] else code(items[0]) + EncodeAll(items[1..], code)
  }

  lemma {:induction false} EncodeAllSplit(items: seq<Item>, code: Item -> seq<byte>, i: nat)
    requires i <= |items|
    ensures EncodeAll(items, code) == EncodeAll(items[..i], code) + EncodeAll(items[i..], code)
  {
    if i == 0 {
      assert items[0..] == items;
    } else {
      EncodeAllSplit(items[1..], code, i - 1);
      assert items[1..][..i - 1] == items[..i][1..] && items[1..][i - 1..] == items[i..];
    }
  }

  lemma EncodeAllSnoc(items: seq<Item>, code: Item -> seq<byte>, i: nat)
    requires i < |items|
    ensures EncodeAll(items[..i + 1], code) == EncodeAll(items[..i], code) + code(items[i])
  {
    var head := items[..i + 1];
    EncodeAllSplit(head, code, i);
    assert head[..i] == items[..i] && head[i..] == [items[i]];
    assert EncodeAll([items[i]], code) == code(items[i]) + EncodeAll([], code);
  }

  // ----- through a byte array

  datatype Outcome<+T> =
    | Val(v: T)
    | Threw      // std::out_of_range
    | Crashed    // null cursor dereferenced

  /** `bytes` were written at the position. */
  ghost predicate Wrote(v: Vector, bytes: seq<byte>, v': Vector) {
    v.pos <= |v.data| && v' == VectorStep(v, OpWrite(bytes)).0
  }

  lemma WroteTwice(v: Vector, a: seq<byte>, b: seq<byte>, v1: Vector, v2: Vector)
    requires Wrote(v, a, v1) && Wrote(v1, b, v2)
    ensures Wrote(v, a + b, v2)
  {
    assert Put(Put(v.data, v.pos, a), v.pos + |a|, b) == Put(v.data, v.pos, a + b);
  }

  /** What was written lies between the positions before and after. */
  lemma WroteAhead(v: Vector, bytes: seq<byte>, v': Vector)
    requires Wrote(v, bytes, v')
    ensures v.pos <= v'.pos == v.pos + |bytes| <= |v'.data|
    ensures v'.data[v.pos..] == bytes + v'.data[v'.pos..]
  {
  }

  /** A read that answers as the decoder does; a failed read may have moved the position. */
  ghost predicate Answers<T>(v: Vector, d: Option<(T, nat)>, r: Outcome<T>, v': Vector) {
    match d
    case None => r == Threw && v'.data == v.data && v.pos <= v'.pos <= |v.data|
    case Some((x, used)) => r == Val(x) && v' == v.(pos := v.pos + used)
  }

  method WriteBytes(ba: ByteArray, bytes: seq<byte>)
    requires ba.Valid()
    modifies ba, ba.nodes
    ensures ba.Valid() && ba.Renewed() && ba.endian == old(ba.endian)
    ensures GrewTo(old(ba.capacity), ba.baseSize, ba.position, ba.capacity)
    ensures old(ba.View()).Ok() && ba.View().Ok()
    ensures Wrote(old(Seen(ba.View())), bytes, Seen(ba.View()))
  {
    ghost var f := ba.View();
    ba.FlatFacts();
    ba.Write(bytes);
    ba.FlatFacts();
    WriteSeen(f, bytes, ba.baseSize, ba.View());
    WriteGrows(f, bytes, ba.baseSize, ba.View());
  }

  /** writeFint8 .. writeFuint64 */
  method WriteFixed(ba: ByteArray, v: int, w: nat, host: Endian)
    requires ba.Valid()
    modifies ba, ba.nodes
    ensures ba.Valid() && ba.Renewed() && ba.endian == old(ba.endian)
    ensures GrewTo(old(ba.capacity), ba.baseSize, ba.position, ba.capacity)
    ensures old(ba.View()).Ok() && ba.View().Ok()
    ensures Wrote(old(Seen(ba.View())), ToBytes(Unsigned(v, 8 * w), w, ba.endian), Seen(ba.View()))
  {
    var u := Unsigned(v, 8 * w);
    ByteOrder(u, w, ba.endian, host);
    WriteBytes(ba, FixedBytes(u, w, ba.endian, host));
  }

  lemma ContinuationByte(v: nat)
    ensures Or(And(v, 0x7f), 0x80) == v % 128 + 128
  {
    assert Pow2(7) == 128;
    AndOnes(v, 7);
    OrDisjoint(v % 128, 1, 7);
  }

  /** `code` is the base-128 code. */
  ghost predicate Codes(code: nat -> seq<byte>) {
    forall v: nat {:trigger EncodeVarint(v)} :: code(v) == EncodeVarint(v)
  }

  lemma VarintStep(code: nat -> seq<byte>, before: seq<byte>, v: nat)
    requires Codes(code) && v >= 128
    ensures before + [v % 128 + 128] + code(v / 128) == before + code(v) && |code(v)| == |code(v / 128)| + 1
    ensures |code(v / 128)| > 0
  {
    EncodeSplit(v, []);
    assert code(v) == EncodeVarint(v) && code(v / 128) == EncodeVarint(v / 128);
  }

  lemma VarintLast(code: nat -> seq<byte>, v: nat)
    requires Codes(code) && v < 128
    ensures code(v) == [v]
  {
    assert code(v) == EncodeVarint(v);
  }

  /** The loop of writeUint32/64; the temporary array of 5 or 10 bytes never overflows. */
  method VarintBytes(value: nat, bits: nat) returns (s: seq<byte>)
    requires bits in {32, 64} && value < Pow2(bits)
    ensures s == EncodeVarint(value)
  {
    VarintFits(value, bits);
    s := VarintInto(value, if bits == 32 then 5 else 10, (v: nat) => EncodeVarint(v));
  }

  method VarintInto(value: nat, size: nat, ghost code: nat -> seq<byte>) returns (s: seq<byte>)
    requires Codes(code) && 0 < |code(value)| <= size
    ensures s == code(value)
  {
    var tmp := new byte[size];
    var i, v: nat := 0, value;
    while v >= 0x80
      invariant 0 <= i && 0 < |code(v)| && i + |code(v)| <= tmp.Length
      invariant tmp[..i] + code(v) == code(value)
      decreases v
    {
      ContinuationByte(v);
      ghost var before := tmp[..i];
      VarintStep(code, before, v);
      tmp[i] := Or(And(v, 0x7f), 0x80);
      assert tmp[..i + 1] == before + [v % 128 + 128];
      i, v := i + 1, v / 128;
    }
    VarintLast(code, v);
    ghost var before := tmp[..i];
    tmp[i] := v;
    assert tmp[..i + 1] == before + [v];
    s := tmp[..i + 1];
  }

  method ReadBytes(ba: ByteArray, n: nat) returns (r: Outcome<seq<byte>>)
    requires ba.Valid()
    modifies ba`position, ba`cur
    ensures ba.Valid() && old(ba.View()).Ok() && ba.View().Ok()
    ensures r == Crashed <==> n == 0 && old(ba.position) == ba.capacity
    ensures r != Crashed ==>
              Answers(old(Seen(ba.View())), Take(old(Seen(ba.View())), n), r, Seen(ba.View()))
    ensures r == Crashed ==> ba.View() == old(ba.View())
  {
    ba.FlatFacts();
    ghost var f := ba.View();
    var x := ba.Read(n);
    r := match x case Bytes(b) => Val(b) case OutOfRange => Threw case NullCursor => Crashed;
    if x.Bytes? {
      DataSlice(f, n);
    }
  }

  function Take(v: Vector, n: nat): Option<(seq<byte>, nat)>
    requires v.pos <= |v.data|
  {
    if n > |v.data| - v.pos then None else Some((v.data[v.pos..v.pos + n], n))
  }

  /** readFint8 .. readFuint64, before the cast to a signed type. */
  method ReadFixed(ba: ByteArray, w: nat, host: Endian) returns (r: Outcome<nat>)
    requires ba.Valid() && w > 0
    modifies ba`position, ba`cur
    ensures ba.Valid() && old(ba.View()).Ok() && ba.View().Ok()
    ensures Answers(old(Seen(ba.View())), FixedAt(old(Seen(ba.View())), w, ba.endian), r, Seen(ba.View()))
  {
    var x := ReadBytes(ba, w);
    match x
    case Val(b) =>
      ByteOrderRead(b, ba.endian, host);
      r := Val(FixedValue(b, ba.endian, host));
    case Threw => r := Threw;
  }

  function FixedAt(v: Vector, w: nat, e: Endian): Option<(nat, nat)>
    requires v.pos <= |v.data|
  {
    match Take(v, w) case None => None case Some((b, n)) => Some((FromBytes(b, e), n))
  }

  /** readFuint8 */
  method ReadByte(ba: ByteArray) returns (r: Outcome<byte>)
    requires ba.Valid()
    modifies ba`position, ba`cur
    ensures ba.Valid() && old(ba.View()).Ok() && ba.View().Ok()
    ensures Seen(ba.View()).data == old(Seen(ba.View()).data)
    ensures r == if old(ba.position) == ba.size then Threw else Val(Seen(ba.View()).data[old(ba.position)])
    ensures ba.position == old(ba.position) + if r.Val? then 1 else 0
  {
    var x := ReadBytes(ba, 1);
    r := match x case Val(b) => Val(b[0]) case _ => Threw;
  }

  lemma VarintProgress(data: seq<byte>, p: nat, q: nat, bits: nat, i: nat, acc: nat, target: Option<(nat, nat)>,
                       decode: Decoder)
    requires p <= q <= |data| && i < bits && Decodes(decode, bits)
    requires target == Later(decode(data[q..], i, acc), q - p)
    ensures q == |data| ==> target == None
    ensures q < |data| && data[q] < 0x80 ==> target == Some((Absorb(acc, data[q], bits, i), q + 1 - p))
    ensures q < |data| && data[q] >= 0x80 ==>
              target == Later(decode(data[q + 1..], i + 7, Absorb(acc, data[q], bits, i)), q + 1 - p)
  {
    if q == |data| {
      assert DecodeVarint(data[q..], bits, i, acc) == None;
    } else {
      var more := data[q + 1..];
      assert data[q..] == [data[q]] + more;
      if data[q] < 0x80 {
        DecodeFinal(data[q], more, bits, i, acc);
      } else {
        DecodeMore(data[q], more, bits, i, acc);
        assert decode(more, i + 7, Absorb(acc, data[q], bits, i)) ==
               DecodeVarint(more, bits, i + 7, Absorb(acc, data[q], bits, i));
      }
    }
  }

  /** readUint32/64 */
  method ReadVarint(ba: ByteArray, bits: nat) returns (r: Outcome<nat>)
    requires ba.Valid() && bits in {32, 64}
    modifies ba`position, ba`cur
    ensures ba.Valid() && old(ba.View()).Ok() && ba.View().Ok()
    ensures Answers(old(Seen(ba.View())), VarintAt(old(Seen(ba.View())), bits), r, Seen(ba.View()))
  {
    ba.FlatFacts();
    ghost var decode := (s: seq<byte>, i: nat, acc: nat) => DecodeVarint(s, bits, i, acc);
    r := VarintLoop(ba, bits, Seen(ba.View()).data, ba.position, VarintAt(Seen(ba.View()), bits), decode);
  }

  type Decoder = (seq<byte>, nat, nat) -> Option<(nat, nat)>

  /** What is decoded from here on: the bytes left, the shift and the bits so far. */
  ghost predicate Decodes(decode: Decoder, bits: nat) {
    forall s: seq<byte>, i: nat, acc: nat {:trigger DecodeVarint(s, bits, i, acc)} ::
      decode(s, i, acc) == DecodeVarint(s, bits, i, acc)
  }

  lemma DecodesDone(decode: Decoder, bits: nat, s: seq<byte>, i: nat, acc: nat)
    requires Decodes(decode, bits) && i >= bits
    ensures decode(s, i, acc) == Some((acc, 0))
  {
    assert DecodeVarint(s, bits, i, acc) == Some((acc, 0));
  }

  method VarintLoop(ba: ByteArray, bits: nat, ghost data: seq<byte>, ghost p: nat, ghost target: Option<(nat, nat)>,
                    ghost decode: Decoder)
    returns (r: Outcome<nat>)
    requires ba.Valid() && ba.View().Ok() && Seen(ba.View()) == Vector(data, p) && p <= |data|
    requires Decodes(decode, bits) && target == decode(data[p..], 0, 0)
    modifies ba`position, ba`cur
    ensures ba.Valid() && ba.View().Ok() && Answers(Vector(data, p), target, r, Seen(ba.View()))
  {
    var result: nat := 0;
    var i: nat := 0;
    while i < bits
      invariant ba.Valid() && ba.View().Ok() && Seen(ba.View()).data == data && p <= ba.position
      invariant target == Later(decode(data[ba.position..], i, result), ba.position - p)
      decreases bits - i
    {
      var x, acc := AbsorbByte(ba, bits, i, result, data, p, target, decode);
      if x.Threw? {
        return Threw;
      }
      if x.v < 0x80 {
        return Val(acc);
      }
      result, i := acc, i + 7;
    }
    DecodesDone(decode, bits, data[ba.position..], i, result);
    r := Val(result);
  }

  /** One round of the loop: `acc` is the value with the bits of the byte read. */
  method AbsorbByte(ba: ByteArray, bits: nat, i: nat, result: nat, ghost data: seq<byte>, ghost p: nat,
                    ghost target: Option<(nat, nat)>, ghost decode: Decoder)
    returns (x: Outcome<byte>, acc: nat)
    requires ba.Valid() && ba.View().Ok() && Seen(ba.View()).data == data && p <= ba.position && i < bits
    requires Decodes(decode, bits) && target == Later(decode(data[ba.position..], i, result), ba.position - p)
    modifies ba`position, ba`cur
    ensures ba.Valid() && ba.View().Ok() && Seen(ba.View()).data == data && x != Crashed
    ensures x.Threw? ==> ba.position == old(ba.position) && target == None
    ensures x.Val? ==> ba.position == old(ba.position) + 1
    ensures x.Val? && x.v < 0x80 ==> target == Some((acc, ba.position - p))
    ensures x.Val? && x.v >= 0x80 ==> target == Later(decode(data[ba.position..], i + 7, acc), ba.position - p)
  {
    VarintProgress(data, p, ba.position, bits, i, result, target, decode);
    acc := 0;
    x := ReadByte(ba);
    if x.Val? {
      acc := Absorbed(result, x.v, bits, i);
    }
  }

  /** The two ways in which the loop takes in the bits of a byte are one. */
  method Absorbed(result: nat, b: byte, bits: nat, i: nat) returns (acc: nat)
    ensures acc == Absorb(result, b, bits, i)
  {
    if b < 0x80 {
      AbsorbFinal(result, b, bits, i);
      acc := Or(result, Shl(b, i, bits));
    } else {
      acc := Or(result, Shl(And(b, 0x7f), i, bits));
    }
  }

  function VarintAt(v: Vector, bits: nat): Option<(nat, nat)>
    requires v.pos <= |v.data|
  {
    DecodeVarint(v.data[v.pos..], bits, 0, 0)
  }

  method WriteItem(ba: ByteArray, item: Item, host: Endian)
    requires ba.Valid() && item.Ok()
    modifies ba, ba.nodes
    ensures ba.Valid() && ba.Renewed() && ba.endian == old(ba.endian)
    ensures GrewTo(old(ba.capacity), ba.baseSize, ba.position, ba.capacity)
    ensures old(ba.View()).Ok() && ba.View().Ok()
    ensures Wrote(old(Seen(ba.View())), Encode(item, ba.endian), Seen(ba.View()))
  {
    match item
    case Number(KFixed(w, _), v) =>
      WriteFixed(ba, v, w, host);
    case Number(KVarint(n), v) =>
      WriteVarint(ba, v, n);
    case Number(KZigzag(n), v) =>
      WriteVarint(ba, EncodeZigzag(v, n), n);
    case Text(KString(w), t) =>
      WriteText(ba, t, w, host);
  }

  /** writeUint32/64 */
  method WriteVarint(ba: ByteArray, v: nat, bits: nat)
    requires ba.Valid() && bits in {32, 64} && v < Pow2(bits)
    modifies ba, ba.nodes
    ensures ba.Valid() && ba.Renewed() && ba.endian == old(ba.endian)
    ensures GrewTo(old(ba.capacity), ba.baseSize, ba.position, ba.capacity)
    ensures old(ba.View()).Ok() && ba.View().Ok()
    ensures Wrote(old(Seen(ba.View())), EncodeVarint(v), Seen(ba.View()))
  {
    var bytes := VarintBytes(v, bits);
    WriteBytes(ba, bytes);
  }

  /** writeStringF16/32/64 */
  method WriteText(ba: ByteArray, t: seq<byte>, w: nat, host: Endian)
    requires ba.Valid()
    modifies ba, ba.nodes
    ensures ba.Valid() && ba.Renewed() && ba.endian == old(ba.endian)
    ensures GrewTo(old(ba.capacity), ba.baseSize, ba.position, ba.capacity)
    ensures old(ba.View()).Ok() && ba.View().Ok()
    ensures Wrote(old(Seen(ba.View())), EncodeText(t, w, ba.endian), Seen(ba.View()))
  {
    ba.FlatFacts();
    ghost var v, cap := Seen(ba.View()), ba.capacity;
    WriteFixed(ba, |t|, w, host);
    ghost var v1, cap1 := Seen(ba.View()), ba.capacity;
    WriteBytes(ba, t);
    GrewTwice(cap, ba.baseSize, v1.pos, cap1, ba.position, ba.capacity);
    WroteTwice(v, ToBytes(|t| % Pow2(8 * w), w, ba.endian), t, v1, Seen(ba.View()));
  }

  /** readStringF16/32/64 */
  method ReadText(ba: ByteArray, w: nat, host: Endian) returns (r: Outcome<seq<byte>>)
    requires ba.Valid() && w > 0
    modifies ba`position, ba`cur
    ensures ba.Valid() && old(ba.View()).Ok() && ba.View().Ok()
    ensures r != Crashed ==>
              Answers(old(Seen(ba.View())), TextAt(old(Seen(ba.View())), w, ba.endian), r, Seen(ba.View()))
    ensures r == Crashed <==>
              && TextAt(old(Seen(ba.View())), w, ba.endian) == Some(([], w))
              && old(ba.position) + w == ba.capacity
  {
    ba.FlatFacts();
    ghost var v := Seen(ba.View());
    EmptyTextAt(v, w, ba.endian);
    var n := ReadFixed(ba, w, host);
    if n.Threw? {
      return Threw;
    }
    r := ReadAnnounced(ba, n.v, w, v);
  }

  /** The text whose length has just been read. */
  method ReadAnnounced(ba: ByteArray, n: nat, w: nat, ghost v: Vector) returns (r: Outcome<seq<byte>>)
    requires ba.Valid() && ba.View().Ok() && Seen(ba.View()) == v.(pos := v.pos + w) && v.pos + w <= |v.data|
    modifies ba`position, ba`cur
    ensures ba.Valid() && ba.View().Ok()
    ensures r != Crashed ==> Answers(v, AnnouncedAt(v, w, n), r, Seen(ba.View()))
    ensures r == Crashed <==> n == 0 && v.pos + w == ba.capacity
  {
    r := ReadBytes(ba, n);
  }

  function AnnouncedAt(v: Vector, w: nat, n: nat): Option<(seq<byte>, nat)>
    requires v.pos + w <= |v.data|
  {
    if |v.data| - v.pos - w < n then None else Some((v.data[v.pos + w..v.pos + w + n], w + n))
  }

  function TextAt(v: Vector, w: nat, e: Endian): Option<(seq<byte>, nat)>
    requires v.pos <= |v.data|
  {
    match FixedAt(v, w, e)
    case None => None
    case Some((n, _)) => AnnouncedAt(v, w, n)
  }

  lemma EmptyTextAt(v: Vector, w: nat, e: Endian)
    requires v.pos <= |v.data|
    ensures TextAt(v, w, e) == Some(([], w)) <==> FixedAt(v, w, e) == Some((0, w))
  {
    if FixedAt(v, w, e) == Some((0, w)) {
      assert v.data[v.pos + w..v.pos + w] == [];
    }
  }

  /** The reads answer as the pure decoder on what lies ahead; an empty text at the very end of the capacity crashes. */
  method ReadItem(ba: ByteArray, k: Kind, host: Endian) returns (r: Outcome<Item>)
    requires ba.Valid() && k.Ok()
    modifies ba`position, ba`cur
    ensures ba.Valid() && old(ba.View()).Ok() && ba.View().Ok()
    ensures r != Crashed ==>
              Answers(old(Seen(ba.View())), ItemAt(old(Seen(ba.View())), k, ba.endian), r, Seen(ba.View()))
    ensures r == Crashed <==>
              && k.KString?
              && ItemAt(old(Seen(ba.View())), k, ba.endian) == Some((Text(k, []), k.width))
              && old(ba.position) + k.width == ba.capacity
  {
    if k.KString? {
      ba.FlatFacts();
      ItemAtCases(Seen(ba.View()), k, ba.endian);
      var x := ReadText(ba, k.width, host);
      r := match x case Threw => Threw case Crashed => Crashed case Val(t) => Val(Text(k, t));
    } else {
      r := ReadNumber(ba, k, host);
    }
  }

  method ReadNumber(ba: ByteArray, k: Kind, host: Endian) returns (r: Outcome<Item>)
    requires ba.Valid() && k.Ok() && !k.KString?
    modifies ba`position, ba`cur
    ensures ba.Valid() && old(ba.View()).Ok() && ba.View().Ok() && r != Crashed
    ensures Answers(old(Seen(ba.View())), ItemAt(old(Seen(ba.View())), k, ba.endian), r, Seen(ba.View()))
  {
    ba.FlatFacts();
    ItemAtCases(Seen(ba.View()), k, ba.endian);
    match k
    case KFixed(w, signed) =>
      var x := ReadFixed(ba, w, host);
      r := if x.Threw? then Threw else Val(Number(k, if signed then Signed(x.v, 8 * w) else x.v));
    case KVarint(n) =>
      var x := ReadVarint(ba, n);
      r := if x.Threw? then Threw else Val(Number(k, x.v));
    case KZigzag(n) =>
      var x := ReadVarint(ba, n);
      r := if x.Threw? then Threw else Val(Number(k, DecodeZigzag(x.v, n)));
  }

  function ItemAt(v: Vector, k: Kind, e: Endian): Option<(Item, nat)>
    requires v.pos <= |v.data| && k.Ok()
  {
    Decode(k, v.data[v.pos..], e)
  }

  lemma ItemAtCases(v: Vector, k: Kind, e: Endian)
    requires v.pos <= |v.data| && k.Ok()
    ensures k.KFixed? ==>
              ItemAt(v, k, e) == match FixedAt(v, k.width, e)
                                 case None => None
                                 case Some((u, n)) =>
                                   Some((Number(k, if k.signed then Signed(u, 8 * k.width) else u), n))
    ensures k.KString? ==>
              ItemAt(v, k, e) == match TextAt(v, k.width, e)
                                 case None => None
                                 case Some((t, n)) => Some((Text(k, t), n))
  {
    var s := v.data[v.pos..];
    if (k.KFixed? || k.KString?) && k.width <= |s| {
      TailSlice(v.data, v.pos, 0, k.width);
      if k.KString? {
        var n := FromBytes(s[..k.width], e);
        if k.width + n <= |s| {
          TailSlice(v.data, v.pos, k.width, k.width + n);
        }
      }
    }
  }

  lemma TailSlice(data: seq<byte>, p: nat, i: nat, j: nat)
    requires p <= |data| && i <= j <= |data| - p
    ensures data[p..][i..j] == data[p + i..p + j]
    ensures i == 0 ==> data[p..][..j] == data[p..p + j]
  {
    var x, y := data[p..][i..j], data[p + i..p + j];
    assert |x| == |y| == j - i;
    forall k | 0 <= k < j - i ensures x[k] == y[k] { }
    assert i == 0 ==> x == data[p..][..j];
  }

  method WriteItems(ba: ByteArray, items: seq<Item>, host: Endian)
    requires ba.Valid() && AllOk(items)
    modifies ba, ba.nodes
    ensures ba.Valid() && ba.Renewed() && ba.endian == old(ba.endian)
    ensures GrewTo(old(ba.capacity), ba.baseSize, ba.position, ba.capacity)
    ensures old(ba.View()).Ok() && ba.View().Ok()
    ensures Wrote(old(Seen(ba.View())), EncodeAll(items, Coder(ba.endian)), Seen(ba.View()))
  {
    ba.FlatFacts();
    ghost var v, e, code := Seen(ba.View()), ba.endian, Coder(ba.endian);
    assert Wrote(v, [], v);
    ghost var cap := ba.capacity;
    for i := 0 to |items|
      invariant ba.Valid() && ba.Renewed() && ba.endian == e && ba.View().Ok()
      invariant Wrote(v, EncodeAll(items[..i], code), Seen(ba.View()))
      invariant GrewTo(cap, ba.baseSize, ba.position, ba.capacity)
    {
      ghost var v1, cap1 := Seen(ba.View()), ba.capacity;
      WriteItem(ba, items[i], host);
      GrewTwice(cap, ba.baseSize, v1.pos, cap1, ba.position, ba.capacity);
      WroteTwice(v, EncodeAll(items[..i], code), code(items[i]), v1, Seen(ba.View()));
      EncodeAllSnoc(items, code, i);
    }
    assert items[..|items|] == items;
  }

  /** The list is non-empty and its last item an empty text. */
  predicate EndsEmpty(items: seq<Item>) {
    |items| > 0 && EmptyText(items[|items| - 1])
  }

  predicate EmptyText(item: Item) {
    item.Text? && item.text == []
  }

  /** One read where the item is known to lie ahead. */
  method ReadExpected(ba: ByteArray, k: Kind, host: Endian, ghost item: Item, ghost tail: seq<byte>)
    returns (r: Outcome<Item>)
    requires ba.Valid() && ba.View().Ok() && item.Ok() && k == item.kind
    requires Seen(ba.View()).data[ba.position..] == Encode(item, ba.endian) + tail
    modifies ba`position, ba`cur
    ensures ba.Valid() && ba.View().Ok()
    ensures r == if EmptyText(item) && old(ba.position) + |Encode(item, ba.endian)| == ba.capacity
                 then Crashed else Val(item)
    ensures r != Crashed ==> ba.position == old(ba.position) + |Encode(item, ba.endian)|
    ensures Seen(ba.View()).data == old(Seen(ba.View())).data
  {
    DecodeEncode(item, ba.endian, tail);
    r := ReadItem(ba, k, host);
  }

  lemma ItemsAhead(data: seq<byte>, p: nat, items: seq<Item>, code: Item -> seq<byte>, tail: seq<byte>)
    requires items != [] && p <= |data| && data[p..] == EncodeAll(items, code) + tail
    ensures p + |code(items[0])| <= |data|
    ensures data[p..] == code(items[0]) + (EncodeAll(items[1..], code) + tail)
    ensures data[p + |code(items[0])|..] == EncodeAll(items[1..], code) + tail
  {
    DropAhead(data, p, code(items[0]), EncodeAll(items[1..], code), tail);
  }

  lemma DropAhead(data: seq<byte>, p: nat, a: seq<byte>, b: seq<byte>, tail: seq<byte>)
    requires p <= |data| && data[p..] == a + b + tail
    ensures p + |a| <= |data| && data[p..] == a + (b + tail) && data[p + |a|..] == b + tail
  {
    assert |data[p..]| == |a| + |b| + |tail|;
    assert data[p + |a|..] == data[p..][|a|..];
  }

  lemma EndsEmptyTail(items: seq<Item>, code: Item -> seq<byte>)
    requires items != [] && forall i :: 0 <= i < |items| ==> code(items[i]) != []
    ensures |EncodeAll(items, code)| == |code(items[0])| + |EncodeAll(items[1..], code)|
    ensures |items| == 1 ==> EndsEmpty(items) == EmptyText(items[0]) && !EndsEmpty(items[1..])
    ensures |items| == 1 <==> EncodeAll(items[1..], code) == []
    ensures |items| > 1 ==> EndsEmpty(items) == EndsEmpty(items[1..])
    ensures items == [items[0]] + items[1..]
  {
    if |items| > 1 {
      var more := items[1..];
      assert more[0] == items[1] && EncodeAll(more, code) == code(items[1]) + EncodeAll(more[1..], code);
    }
  }

  /** Reads the first of the items that lie ahead. */
  method ReadFirst(ba: ByteArray, k: Kind, host: Endian, ghost items: seq<Item>, ghost code: Item -> seq<byte>,
                   ghost tail: seq<byte>)
    returns (r: Outcome<Item>)
    requires ba.Valid() && ba.View().Ok() && items != [] && items[0].Ok() && k == items[0].kind
    requires code == Coder(ba.endian) && Seen(ba.View()).data[ba.position..] == EncodeAll(items, code) + tail
    modifies ba`position, ba`cur
    ensures ba.Valid() && ba.View().Ok()
    ensures r == if EmptyText(items[0]) && old(ba.position) + |code(items[0])| == ba.capacity
                 then Crashed else Val(items[0])
    ensures r != Crashed ==> ba.position == old(ba.position) + |code(items[0])| <= |Seen(ba.View()).data|
                             && Seen(ba.View()).data[ba.position..] == EncodeAll(items[1..], code) + tail
  {
    ItemsAhead(Seen(ba.View()).data, ba.position, items, code, tail);
    r := ReadExpected(ba, k, host, items[0], EncodeAll(items[1..], code) + tail);
  }

  /** Reads one item per kind until something goes wrong. */
  method ReadItems(ba: ByteArray, kinds: seq<Kind>, host: Endian, ghost items: seq<Item>, ghost tail: seq<byte>)
    returns (r: Outcome<seq<Item>>)
    requires ba.Valid() && ba.View().Ok() && AllOk(items)
    requires |kinds| == |items| && forall i :: 0 <= i < |items| ==> kinds[i] == items[i].kind
    requires Seen(ba.View()).data[ba.position..] == EncodeAll(items, Coder(ba.endian)) + tail
    modifies ba`position, ba`cur
    ensures ba.Valid() && ba.View().Ok()
    ensures r == if EndsEmpty(items) && old(ba.position) + |EncodeAll(items, Coder(ba.endian))| == ba.capacity
                 then Crashed else Val(items)
    ensures r != Crashed ==> ba.position == old(ba.position) + |EncodeAll(items, Coder(ba.endian))|
    decreases |items|
  {
    if kinds == [] {
      return Val([]);
    }
    ghost var code := Coder(ba.endian);
    ba.FlatFacts();
    EndsEmptyTail(items, code);
    var x := ReadFirst(ba, kinds[0], host, items, code, tail);
    if x == Crashed {
      return Crashed;
    }
    var y := ReadItems(ba, kinds[1..], host, items[1..], tail);
    if y == Crashed {
      return Crashed;
    }
    r := Val([x.v] + y.v);
  }

  /**
    Items written in order and read back in order, after seeking to the start, come back as they were and
    the position ends where the writing ended. The one exception: the list ends in an empty text, at the end of a
    chunk and not before the old capacity, where the null cursor is dereferenced.
   */
  method RoundTrip(ba: ByteArray, items: seq<Item>, host: Endian) returns (r: Outcome<seq<Item>>, end: nat)
    requires ba.Valid() && AllOk(items)
    modifies ba, ba.nodes
    ensures ba.Valid() && end == old(ba.position) + |EncodeAll(items, Coder(old(ba.endian)))|
    ensures r == Crashed <==> EndsEmpty(items) && end % ba.baseSize == 0 && end >= old(ba.capacity)
    ensures r != Crashed ==> r == Val(items) && ba.position == end
  {
    ba.FlatFacts();
    ghost var v, code, cap := Seen(ba.View()), EncodeAll(items, Coder(ba.endian)), ba.capacity;
    var start := ba.position;
    WriteItems(ba, items, host);
    end := ba.position;
    EndsAtCapacityIff(cap, ba.baseSize, end, ba.capacity);
    ghost var v1 := Seen(ba.View());
    WroteAhead(v, code, v1);
    ba.FlatFacts();
    var ok := ba.SetPosition(start);
    ba.FlatFacts();
    var kinds := seq(|items|, i requires 0 <= i < |items| => items[i].kind);
    r := ReadItems(ba, kinds, host, items, v1.data[end..]);
  }
}
