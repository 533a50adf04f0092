/** Percent-encoding (section 2.1 of RFC 3986). */
module Url {
  import opened Common
  import opened Bits

  const SPACE: byte := 32
  const PERCENT: byte := 37
  const AMPERSAND: byte := 38
  const PLUS: byte := 43
  const EQUALS: byte := 61

  /** The table uri_chars: '-', '.', digits, '=', letters, '_' and '~' are not encoded. */
  predicate Unreserved(b: byte) {
    || b == 45 || b == 46 || b == 61 || b == 95 || b == 126
    || 48 <= b <= 57 || 65 <= b <= 90 || 97 <= b <= 122
  }

  predicate IsHex(b: byte) {
    48 <= b <= 57 || 65 <= b <= 70 || 97 <= b <= 102
  }

  /** The table xdigit_chars. */
  function HexValue(b: byte): (v: nat)
    ensures v < 16
  {
    if 48 <= b <= 57 then b - 48 else if 65 <= b <= 70 then b - 55 else if 97 <= b <= 102 then b - 87 else 0
  }

  /** "0123456789ABCDEF"[v] */
  function HexDigit(v: nat): byte
    requires v < 16
  {
    if v < 10 then 48 + v else 55 + v
  }

  function EncodeByte(b: byte, plus: bool): seq<byte> {
    if Unreserved(b) then [b]
    else if b == SPACE && plus then [PLUS]
    else [PERCENT, HexDigit(b / 16), HexDigit(b % 16)]
  }

  function Encode(s: seq<byte>, plus: bool): seq<byte> {
    if s == [] then [] else EncodeByte(s[0], plus) + Encode(s[1..], plus)
  }

  function Decode(s: seq<byte>, plus: bool): seq<byte> {
    if s == [] then []
    else if s[0] == PLUS && plus then [SPACE] + Decode(s[1..], plus)
    else if s[0] == PERCENT && |s| > 2 && IsHex(s[1]) && IsHex(s[2]) then
      [HexValue(s[1]) * 16 + HexValue(s[2])] + Decode(s[3..], plus)
    else [s[0]] + Decode(s[1..], plus)
  }

  // ----- codes by value

  const UPPER := "0123456789ABCDEF"
  const LOWER := "0123456789abcdef"

  predicate LetterOrDigit(b: byte) {
    || '0' as int <= b <= '9' as int
    || 'A' as int <= b <= 'Z' as int
    || 'a' as int <= b <= 'z' as int
  }

  /** The code of a byte: itself, '+' for a space, or '%' and two digits, worth b / 16 and b % 16. */
  lemma CodeOfByte(b: byte, plus: bool)
    ensures Encode([b], plus) ==
            if LetterOrDigit(b) || b as char in {'-', '.', '_', '~', '='} then [b]
            else if b as char == ' ' && plus then ['+' as int]
            else ['%' as int, UPPER[b / 16] as int, UPPER[b % 16] as int]
  {
    HexDigits(b / 16);
    HexDigits(b % 16);
    EncodeFirst([b], plus, EncodeByte(b, plus));
  }

  lemma HexDigits(v: nat)
    requires v < 16
    ensures HexDigit(v) == UPPER[v] as int
    ensures forall x: byte :: x as char in {UPPER[v], LOWER[v]} ==> IsHex(x) && HexValue(x) == v
  {
  }

  /** An escape, in digits of either case, is read as the byte it stands for. */
  lemma EscapeRead(x: byte, y: byte, v: nat, w: nat, rest: seq<byte>, plus: bool)
    requires v < 16 && w < 16 && x as char in {UPPER[v], LOWER[v]} && y as char in {UPPER[w], LOWER[w]}
    ensures Decode(['%' as int, x, y] + rest, plus) == [16 * v + w] + Decode(rest, plus)
  {
    HexDigits(v);
    HexDigits(w);
    var s := ['%' as int, x, y] + rest;
    assert s[3..] == rest;
  }

  /** '+' is read as a space if so asked; anything else that does not start an escape is read as it stands. */
  lemma PlainRead(s: seq<byte>, plus: bool)
    requires s != []
    requires s[0] == '%' as int ==> |s| < 3 || !IsHex(s[1]) || !IsHex(s[2])
    ensures Decode(s, plus) == [if s[0] as char == '+' && plus then ' ' as int else s[0]] + Decode(s[1..], plus)
  {
  }

  lemma HexIff(b: byte)
    ensures IsHex(b) <==> exists v :: 0 <= v < 16 && b as char in {UPPER[v], LOWER[v]}
  {
    if IsHex(b) {
      HexDigits(HexValue(b));
      assert b as char in {UPPER[HexValue(b)], LOWER[HexValue(b)]};
    }
  }

  lemma {:induction false} EncodeAppend(a: seq<byte>, b: seq<byte>, plus: bool)
    ensures Encode(a + b, plus) == Encode(a, plus) + Encode(b, plus)
  {
    if a == [] {
      assert a + b == b;
    } else {
      EncodeAppend(a[1..], b, plus);
      assert (a + b)[1..] == a[1..] + b;
      EncodeFirst(a + b, plus, EncodeByte(a[0], plus));
      EncodeFirst(a, plus, EncodeByte(a[0], plus));
      Regroup(EncodeByte(a[0], plus), Encode(a[1..], plus), Encode(b, plus));
    }
  }

  lemma EncodeFirst(s: seq<byte>, plus: bool, code: seq<byte>)
    requires s != [] && code == EncodeByte(s[0], plus)
    ensures Encode(s, plus) == code + Encode(s[1..], plus)
  {
  }

  lemma Regroup(x: seq<byte>, y: seq<byte>, z: seq<byte>)
    ensures x + (y + z) == x + y + z
  {
  }

  /** UrlEncode: the string is copied only once a byte needs encoding, and the result is the plain transformation. */
  method UrlEncode(str: seq<byte>, plus: bool) returns (r: seq<byte>)
    ensures r == Encode(str, plus)
  {
    var ss: Option<seq<byte>> := None;
    var c := 0;
    while c < |str|
      invariant 0 <= c <= |str|
      invariant Encode(str[..c], plus) == Written(ss, str, c)
    {
      EncodeNext(str, c, plus);
      ss := EncodeOne(str, plus, c, ss);
      c := c + 1;
    }
    assert str[..c] == str;
    r := if ss.None? then str else ss.value;
  }

  lemma EncodeNext(str: seq<byte>, c: nat, plus: bool)
    requires c < |str|
    ensures Encode(str[..c + 1], plus) == Encode(str[..c], plus) + EncodeByte(str[c], plus)
  {
    assert str[..c + 1] == str[..c] + [str[c]];
    EncodeAppend(str[..c], [str[c]], plus);
    assert Encode([str[c]], plus) == EncodeByte(str[c], plus);
  }

  /** What has been written so far: nothing is copied while nothing differs. */
  function Written(ss: Option<seq<byte>>, str: seq<byte>, c: nat): seq<byte>
    requires c <= |str|
  {
    if ss.None? then str[..c] else ss.value
  }

  /** One round of the loop. */
  method EncodeOne(str: seq<byte>, plus: bool, c: nat, ss: Option<seq<byte>>) returns (ss': Option<seq<byte>>)
    requires c < |str|
    ensures Written(ss', str, c + 1) == Written(ss, str, c) + EncodeByte(str[c], plus)
  {
    var b, done := str[c], Written(ss, str, c);
    ss' := None;
    if !Unreserved(b) {
      if b == SPACE && plus {
        ss' := Some(done + [PLUS]);
      } else {
        ss' := Some(done + [PERCENT] + [HexDigit(b / 16)] + [HexDigit(b % 16)]);
      }
    } else if ss.Some? {
      ss' := Some(done + [b]);
    }
  }

  /** UrlDecode likewise. */
  method UrlDecode(str: seq<byte>, plus: bool) returns (r: seq<byte>)
    ensures r == Decode(str, plus)
  {
    r := DecodeLoop(str, plus, (s: seq<byte>) => Decode(s, plus));
  }

  type Decoder = seq<byte> -> seq<byte>

  /** `dec` decodes what is left of the string. */
  ghost predicate Decodes(dec: Decoder, plus: bool) {
    forall s {:trigger Decode(s, plus)} :: dec(s) == Decode(s, plus)
  }

  method DecodeLoop(str: seq<byte>, plus: bool, ghost dec: Decoder) returns (r: seq<byte>)
    requires Decodes(dec, plus)
    ensures r == dec(str)
  {
    var ss: Option<seq<byte>> := None;
    var c := 0;
    assert str[0..] == str;
    while c < |str|
      invariant 0 <= c <= |str| && dec(str) == Written(ss, str, c) + dec(str[c..])
    {
      c, ss := DecodeOne(str, plus, c, ss, dec);
    }
    assert Decode(str[c..], plus) == [];
    r := if ss.None? then str else ss.value;
  }

  /** The byte that is read at c, and how much of the string it takes. */
  function ReadAt(s: seq<byte>, c: nat, plus: bool): (r: (byte, nat))
    requires c < |s|
    ensures 0 < r.1 && c + r.1 <= |s|
  {
    if s[c] == PLUS && plus then (SPACE, 1)
    else if s[c] == PERCENT && c + 2 < |s| && IsHex(s[c + 1]) && IsHex(s[c + 2]) then
      (HexValue(s[c + 1]) * 16 + HexValue(s[c + 2]), 3)
    else (s[c], 1)
  }

  /** One round of the loop. */
  method DecodeOne(str: seq<byte>, plus: bool, c: nat, ss: Option<seq<byte>>, ghost dec: Decoder)
    returns (c': nat, ss': Option<seq<byte>>)
    requires c < |str| && Decodes(dec, plus)
    ensures c < c' <= |str|
    ensures Written(ss', str, c') + dec(str[c'..]) == Written(ss, str, c) + dec(str[c..])
  {
    DecodeAt(dec, str, c, plus);
    ghost var (x, k) := ReadAt(str, c, plus);
    c', ss' := WriteOne(str, plus, c, ss);
    Regroup(Written(ss, str, c), [x], dec(str[c'..]));
  }

  method WriteOne(str: seq<byte>, plus: bool, c: nat, ss: Option<seq<byte>>) returns (c': nat, ss': Option<seq<byte>>)
    requires c < |str|
    ensures c' == c + ReadAt(str, c, plus).1 && Written(ss', str, c') == Written(ss, str, c) + [ReadAt(str, c, plus).0]
  {
    var done := Written(ss, str, c);
    c', ss' := c + 1, None;
    if str[c] == PLUS && plus {
      ss' := Some(done + [SPACE]);
    } else if str[c] == PERCENT && c + 2 < |str| && IsHex(str[c + 1]) && IsHex(str[c + 2]) {
      c', ss' := c + 3, Some(done + [HexValue(str[c + 1]) * 16 + HexValue(str[c + 2])]);
    } else if ss.Some? {
      ss' := Some(done + [str[c]]);
    }
  }

  lemma DecodeAt(dec: Decoder, s: seq<byte>, c: nat, plus: bool)
    requires c < |s| && Decodes(dec, plus)
    ensures var (x, k) := ReadAt(s, c, plus); dec(s[c..]) == [x] + dec(s[c + k..])
  {
    var (x, k) := ReadAt(s, c, plus);
    var t := s[c..];
    assert t[1..] == s[c + 1..] && (|t| > 2 ==> t[3..] == s[c + 3..]);
    assert Decode(t, plus) == [x] + Decode(s[c + k..], plus);
  }

  /** The code of one byte decodes to it, unless a space was written as '+' and '+' is not read as one. */
  lemma DecodeByte(b: byte, f: bool, g: bool, rest: seq<byte>)
    requires f ==> g || b != SPACE
    ensures Decode(EncodeByte(b, f) + rest, g) == [b] + Decode(rest, g)
  {
    var s := EncodeByte(b, f) + rest;
    if |EncodeByte(b, f)| == 1 {
      assert s[1..] == rest;
    } else {
      assert s[3..] == rest;
    }
  }

  lemma {:induction false} DecodeEncode(s: seq<byte>, f: bool, g: bool)
    requires f ==> g || SPACE !in s
    ensures Decode(Encode(s, f), g) == s
  {
    if s != [] {
      DecodeByte(s[0], f, g, Encode(s[1..], f));
      DecodeEncode(s[1..], f, g);
    }
  }

  /** Decoding undoes encoding exactly if '+' is not left standing for a space. */
  lemma {:induction false} RoundTripIff(s: seq<byte>, f: bool, g: bool)
    ensures Decode(Encode(s, f), g) == s <==> (f && !g ==> SPACE !in s)
  {
    if !(f && !g) || SPACE !in s {
      DecodeEncode(s, f, g);
    } else {
      SpaceStaysPlus(s);
    }
  }

  lemma {:induction false} SpaceStaysPlus(s: seq<byte>)
    requires SPACE in s
    ensures Decode(Encode(s, true), false) != s
  {
    if s[0] == SPACE {
      assert (EncodeByte(s[0], true) + Encode(s[1..], true))[0] == PLUS;
    } else {
      DecodeByte(s[0], true, false, Encode(s[1..], true));
      SpaceStaysPlus(s[1..]);
      assert s == [s[0]] + s[1..];
    }
  }

  /** No encoded text contains '&'. */
  lemma {:induction false} NoAmpersand(s: seq<byte>, f: bool)
    ensures AMPERSAND !in Encode(s, f)
  {
    if s != [] {
      NoAmpersand(s[1..], f);
    }
  }
}
