/** WebSocket frames (sections 5.2 to 5.4 of RFC 6455): what is sent, and what a receiver makes of a byte stream. */
module WebSocketFrames {
  import opened Common
  import opened Bits
  import opened Codec

  const CONTINUE: nat := 0
  const TEXT: nat := 1
  const BINARY: nat := 2
  const PING: nat := 9
  const PONG: nat := 10

  type Key = k: seq<byte> | |k| == 4 witness [0, 0, 0, 0]

  function XorByte(a: byte, b: byte): byte {
    assert Pow2(8) == 256;
    XorBound(a, b, 8);
    Xor(a, b)
  }

  /** Section 5.3: byte i is xor-ed with byte i mod 4 of the key. */
  function Masked(data: seq<byte>, key: Key): (r: seq<byte>)
    ensures |r| == |data|
  {
    seq(|data|, i requires 0 <= i < |data| => XorByte(data[i], key[i % 4]))
  }

  lemma MaskedTwice(data: seq<byte>, key: Key)
    ensures Masked(Masked(data, key), key) == data
  {
    var m := Masked(data, key);
    forall i | 0 <= i < |data|
      ensures Masked(m, key)[i] == data[i]
    {
      XorInvolution(data[i], key[i % 4]);
    }
  }

  // ----- sending

  /** The packed two-byte head: opcode, reserved bits 0, fin; then length field and mask bit. */
  function Head(fin: bool, opcode: nat, mask: bool, payload: nat): (s: seq<byte>)
    requires payload < 128
    ensures |s| == 2
  {
    [opcode % 16 + (if fin then 128 else 0), payload + (if mask then 128 else 0)]
  }

  /** Which of the three length forms is used. */
  function LengthField(size: nat): (n: nat)
    ensures n < 128
  {
    if size < 126 then size else if size < 65536 then 126 else 127
  }

  function Extended(size: nat): seq<byte> {
    if size < 126 then [] else if size < 65536 then ToBytes(size, 2, Big) else ToBytes(size, 8, Big)
  }

  /** One data frame; a client masks it with `key`. */
  function FrameBytes(fin: bool, opcode: nat, data: seq<byte>, client: bool, key: Key): seq<byte> {
    Head(fin, opcode, client, LengthField(|data|)) + Extended(|data|)
    + (if client then key + Masked(data, key) else data)
  }

  function ControlBytes(opcode: nat): seq<byte> {
    Head(true, opcode, false, 0)
  }

  // ----- receiving

  /** A parsed data frame and what follows it. */
  datatype Parsed = Parsed(payload: seq<byte>, rest: seq<byte>)

  function ParseLength(field: nat, s: seq<byte>): Option<(nat, seq<byte>)> {
    if field == 126 then (if |s| < 2 then None else Some((FromBytes(s[..2], Big), s[2..])))
    else if field == 127 then (if |s| < 8 then None else Some((FromBytes(s[..8], Big), s[8..])))
    else Some((field, s))
  }

  /** The part of a data frame after its length: mask key and payload. An empty payload counts as a failed read. */
  function ParsePayload(mask: bool, length: nat, s: seq<byte>): Option<Parsed> {
    var n := if mask then 4 else 0;
    if |s| < n || length == 0 || |s| - n < length then None
    else
      var body := s[n..n + length];
      Some(Parsed(if mask then Masked(body, s[..4]) else body, s[n + length..]))
  }

  /** A data frame after its head, with `sofar` bytes received before it. */
  function ParseData(b1: byte, s: seq<byte>, client: bool, sofar: nat, limit: nat): Option<Parsed> {
    if !client && b1 < 128 then None
    else
      match ParseLength(b1 % 128, s)
      case None => None
      case Some((length, s')) => if sofar + length >= limit then None else ParsePayload(b1 >= 128, length, s')
  }

  /** The source adds in 64 bits: its test is this one exactly if the sum does not wrap to below the limit. */
  lemma LengthTestIff(sofar: nat, length: nat, limit: nat)
    requires sofar < WORD && length < WORD && limit < WORD
    ensures ((sofar + length) % WORD >= limit <==> sofar + length >= limit) <==>
            sofar + length < WORD || sofar + length - WORD >= limit
  {
    var sum := sofar + length;
    assert sum % WORD == if sum < WORD then sum else sum - WORD;
  }

  lemma ParseDataShrinks(b1: byte, s: seq<byte>, client: bool, sofar: nat, limit: nat)
    ensures var p := ParseData(b1, s, client, sofar, limit); p.Some? ==> |p.value.rest| <= |s|
  {
  }

  /** What WSRecvMessage returns: a message, the unread bytes and the number of PONGs sent; or nothing. */
  datatype Received = Nothing | Message(opcode: nat, data: seq<byte>, rest: seq<byte>, pongs: nat)

  /** The receive loop, with the opcode and data collected so far; `writable`: a PONG can be sent. */
  function Receive(s: seq<byte>, client: bool, limit: nat, writable: bool, opcode: nat, data: seq<byte>, pongs: nat)
    : Received
    decreases |s|
  {
    if |s| < 2 then Nothing
    else
      var op := s[0] % 16;
      if op == PING then
        if writable then Receive(s[2..], client, limit, writable, opcode, data, pongs + 1) else Nothing
      else if op == CONTINUE || op == TEXT || op == BINARY then
        match ParseData(s[1], s[2..], client, |data|, limit)
        case None => Nothing
        case Some(p) =>
          ParseDataShrinks(s[1], s[2..], client, |data|, limit);
          var opcode' := if opcode == 0 && op != CONTINUE then op else opcode;
          if s[0] >= 128 then Message(opcode', data + p.payload, p.rest, pongs)
          else Receive(p.rest, client, limit, writable, opcode', data + p.payload, pongs)
      else Receive(s[2..], client, limit, writable, opcode, data, pongs)
  }

  // ----- round trip

  lemma WordIs64Bits()
    ensures Pow2(8 * 8) == WORD
  {
    assert Pow2(8) == 256;
    Pow2Adds(8, 8);
    Pow2Adds(16, 16);
    Pow2Adds(32, 32);
  }

  lemma LengthRoundTrip(size: nat, rest: seq<byte>)
    requires size < WORD
    ensures ParseLength(LengthField(size), Extended(size) + rest) == Some((size, rest))
  {
    var s := Extended(size) + rest;
    if 126 <= size < 65536 {
      Pow2Adds(8, 8);
      assert Pow2(8) == 256;
      FromToBytes(size, 2, Big);
      assert s[..2] == ToBytes(size, 2, Big) && s[2..] == rest;
    } else if size >= 65536 {
      WordIs64Bits();
      FromToBytes(size, 8, Big);
      assert s[..8] == ToBytes(size, 8, Big) && s[8..] == rest;
    } else {
      assert s == rest;
    }
  }

  lemma PayloadRoundTrip(data: seq<byte>, mask: bool, key: Key, rest: seq<byte>)
    requires data != []
    ensures ParsePayload(mask, |data|, (if mask then key + Masked(data, key) else data) + rest)
            == Some(Parsed(data, rest))
  {
    if mask {
      var s := key + Masked(data, key) + rest;
      assert s[..4] == key && s[4..4 + |data|] == Masked(data, key) && s[4 + |data|..] == rest;
      MaskedTwice(data, key);
    } else {
      var s := data + rest;
      assert s[0..|data|] == data && s[|data|..] == rest;
    }
  }

  /** A data frame is parsed by the opposite role exactly if it is not empty and keeps the total below the limit. */
  lemma FrameRoundTrip(fin: bool, opcode: nat, data: seq<byte>, client: bool, key: Key, rest: seq<byte>,
                       sofar: nat, limit: nat)
    requires |data| < WORD
    ensures var s := FrameBytes(fin, opcode, data, client, key) + rest;
            && |s| >= 2 && s[0] == opcode % 16 + (if fin then 128 else 0)
            && ParseData(s[1], s[2..], !client, sofar, limit)
               == if data != [] && sofar + |data| < limit then Some(Parsed(data, rest)) else None
  {
    var body := if client then key + Masked(data, key) else data;
    FrameShape(fin, opcode, data, client, key, rest);
    LengthRoundTrip(|data|, body + rest);
    if data != [] {
      PayloadRoundTrip(data, client, key, rest);
    }
  }

  lemma FrameShape(fin: bool, opcode: nat, data: seq<byte>, client: bool, key: Key, rest: seq<byte>)
    ensures var s := FrameBytes(fin, opcode, data, client, key) + rest;
            var body := if client then key + Masked(data, key) else data;
            && |s| >= 2 && s[0] == opcode % 16 + (if fin then 128 else 0)
            && s[1] % 128 == LengthField(|data|) && (s[1] >= 128 <==> client)
            && s[2..] == Extended(|data|) + (body + rest)
  {
    HeadShape(Head(fin, opcode, client, LengthField(|data|)), Extended(|data|),
              if client then key + Masked(data, key) else data, rest);
  }

  lemma HeadShape(h: seq<byte>, e: seq<byte>, body: seq<byte>, rest: seq<byte>)
    requires |h| == 2
    ensures var s := h + e + body + rest; s[0] == h[0] && s[1] == h[1] && s[2..] == e + (body + rest)
  {
  }

  /** How long head and extended length are together. */
  function HeadSize(size: nat): nat {
    if size < 126 then 2 else if size < 65536 then 4 else 10
  }

  /**
    The layout of a frame, byte by byte: fin and opcode; mask bit and length, or 126 or 127 and the length in two or
    eight bytes, most significant first; then the key, if there is one, and the payload.
   */
  lemma FrameLayout(fin: bool, opcode: nat, data: seq<byte>, client: bool, key: Key, i: nat)
    ensures var s, n, h := FrameBytes(fin, opcode, data, client, key), |data|, HeadSize(|data|);
            && |s| == h + (if client then 4 else 0) + n
            && s[0] == opcode % 16 + (if fin then 128 else 0)
            && s[1] == (if n < 126 then n else if n < 65536 then 126 else 127) + (if client then 128 else 0)
            && (2 <= i < h ==> s[i] == n / Pow2(8 * (h - 1 - i)) % 256)
            && (client && h <= i < h + 4 ==> s[i] == key[i - h])
            && (client && h + 4 <= i < |s| ==> s[i] == Xor(data[i - h - 4], key[(i - h - 4) % 4]))
            && (!client && h <= i < |s| ==> s[i] == data[i - h])
  {
    var n, h := |data|, HeadSize(|data|);
    assert |Extended(n)| == h - 2;
    if 2 <= i < h {
      ByteValue(n, h - 2, Big, i - 2);
    }
  }

  /** A server does not take a data frame without a mask. */
  lemma UnmaskedRefused(s: seq<byte>, limit: nat, writable: bool, opcode: nat, data: seq<byte>, pongs: nat)
    requires |s| >= 2 && s[0] % 16 in {0, 1, 2} && s[1] < 128
    ensures Receive(s, false, limit, writable, opcode, data, pongs) == Nothing
  {
  }

  /** Of a frame with any other opcode the head alone is skipped. */
  lemma OtherSkipped(s: seq<byte>, client: bool, limit: nat, writable: bool, opcode: nat, data: seq<byte>, pongs: nat)
    requires |s| >= 2 && s[0] % 16 !in {0, 1, 2, 9}
    ensures Receive(s, client, limit, writable, opcode, data, pongs) ==
            Receive(s[2..], client, limit, writable, opcode, data, pongs)
  {
  }

  /** `rest` is what is left of s after some bytes. */
  predicate Tail(rest: seq<byte>, s: seq<byte>) {
    |rest| <= |s| && rest == s[|s| - |rest|..]
  }

  lemma TailTwice(a: seq<byte>, b: seq<byte>, c: seq<byte>)
    requires Tail(a, b) && Tail(b, c)
    ensures Tail(a, c)
  {
  }

  /** A data frame brings at least one byte, and the total stays below the limit. */
  lemma DataParsed(b1: byte, s: seq<byte>, client: bool, sofar: nat, limit: nat)
    ensures var p := ParseData(b1, s, client, sofar, limit);
            p.Some? ==> Tail(p.value.rest, s) && 0 < |p.value.payload| && sofar + |p.value.payload| < limit
  {
  }

  /** A control frame between data frames: true for PING, false for PONG. */
  function Controls(pings: seq<bool>): seq<byte> {
    if pings == [] then [] else ControlBytes(if pings[0] then PING else PONG) + Controls(pings[1..])
  }

  function CountPings(pings: seq<bool>): nat {
    if pings == [] then 0 else (if pings[0] then 1 else 0) + CountPings(pings[1..])
  }

  /** One control frame in the receive loop. */
  lemma ControlSkipped(ping: bool, rest: seq<byte>, client: bool, limit: nat, writable: bool,
                       opcode: nat, data: seq<byte>, pongs: nat)
    ensures Receive(ControlBytes(if ping then PING else PONG) + rest, client, limit, writable, opcode, data, pongs) ==
            if !ping then Receive(rest, client, limit, writable, opcode, data, pongs)
            else if writable then Receive(rest, client, limit, writable, opcode, data, pongs + 1)
            else Nothing
  {
    var c := if ping then PING else PONG;
    var s := ControlBytes(c) + rest;
    assert s[2..] == rest && s[0] % 16 == c;
  }

  /** One fragment of a message, with the control frames sent before it. */
  datatype Fragment = Fragment(data: seq<byte>, key: Key, before: seq<bool>)

  /**
    A message sent as fragments: the first carries the opcode, the others CONTINUE, the last fin. Nothing follows an
    empty fragment, which fails to be sent and closes the stream.
   */
  function Wire(fs: seq<Fragment>, opcode: nat, client: bool): seq<byte>
    decreases |fs|, 1
  {
    if fs == [] then []
    else
      Controls(fs[0].before) + FrameBytes(|fs| == 1, opcode, fs[0].data, client, fs[0].key) + WireTail(fs, client)
  }

  function WireTail(fs: seq<Fragment>, client: bool): seq<byte>
    requires fs != []
    decreases |fs|, 0
  {
    if fs[0].data == [] then [] else Wire(fs[1..], CONTINUE, client)
  }

  function Joined(fs: seq<Fragment>): seq<byte> {
    if fs == [] then [] else fs[0].data + Joined(fs[1..])
  }

  function AllPings(fs: seq<Fragment>): nat {
    if fs == [] then 0 else CountPings(fs[0].before) + AllPings(fs[1..])
  }

  predicate NoneEmpty(fs: seq<Fragment>) {
    forall i :: 0 <= i < |fs| ==> fs[i].data != []
  }

  /** The opcode after a fragment, when the first carries `op` and `known` has been seen before. */
  function Learned(known: nat, op: nat): nat {
    if known == 0 && op != CONTINUE then op else known
  }

  /** One data frame in the receive loop. */
  lemma FrameReceived(fin: bool, op: nat, f: Fragment, client: bool, rest: seq<byte>, limit: nat,
                      writable: bool, known: nat, data: seq<byte>, pongs: nat)
    requires op in {CONTINUE, TEXT, BINARY} && |f.data| < WORD
    ensures Receive(FrameBytes(fin, op, f.data, client, f.key) + rest, !client, limit, writable, known, data, pongs) ==
            if f.data == [] || |data| + |f.data| >= limit then Nothing
            else if fin then Message(Learned(known, op), data + f.data, rest, pongs)
            else Receive(rest, !client, limit, writable, Learned(known, op), data + f.data, pongs)
  {
    var s := FrameBytes(fin, op, f.data, client, f.key) + rest;
    FrameRoundTrip(fin, op, f.data, client, f.key, rest, |data|, limit);
    assert s[0] % 16 == op && (s[0] >= 128 <==> fin);
  }

  lemma Rejoin(data: seq<byte>, f: seq<byte>, j: seq<byte>)
    ensures data + f + j == data + (f + j)
  {
  }

  // What bytes do to the receive loop, whatever follows them and whatever came before. The loop is a parameter:
  // a function of the bytes left, the opcode and data so far, and the PONGs sent.

  type Loop = (seq<byte>, nat, seq<byte>, nat) -> Received

  function Receiver(client: bool, limit: nat, writable: bool): Loop {
    (s: seq<byte>, known: nat, data: seq<byte>, pongs: nat) => Receive(s, client, limit, writable, known, data, pongs)
  }

  function AfterControls(recv: Loop, writable: bool, pings: seq<bool>, rest: seq<byte>,
                         known: nat, data: seq<byte>, pongs: nat): Received {
    if writable || CountPings(pings) == 0 then recv(rest, known, data, pongs + CountPings(pings)) else Nothing
  }

  /** These bytes are received as the given control frames. */
  ghost predicate ControlsAct(recv: Loop, writable: bool, bytes: seq<byte>, pings: seq<bool>) {
    forall rest: seq<byte>, known: nat, data: seq<byte>, pongs: nat
      {:trigger AfterControls(recv, writable, pings, rest, known, data, pongs)} ::
      recv(bytes + rest, known, data, pongs) == AfterControls(recv, writable, pings, rest, known, data, pongs)
  }

  function AfterControl(recv: Loop, writable: bool, ping: bool, rest: seq<byte>,
                        known: nat, data: seq<byte>, pongs: nat): Received {
    if !ping then recv(rest, known, data, pongs)
    else if writable then recv(rest, known, data, pongs + 1)
    else Nothing
  }

  /** These bytes are received as one control frame. */
  ghost predicate ControlActs(recv: Loop, writable: bool, bytes: seq<byte>, ping: bool) {
    forall rest: seq<byte>, known: nat, data: seq<byte>, pongs: nat
      {:trigger AfterControl(recv, writable, ping, rest, known, data, pongs)} ::
      recv(bytes + rest, known, data, pongs) == AfterControl(recv, writable, ping, rest, known, data, pongs)
  }

  lemma ControlIsReceived(client: bool, limit: nat, writable: bool, ping: bool)
    ensures ControlActs(Receiver(client, limit, writable), writable, ControlBytes(if ping then PING else PONG), ping)
  {
    var recv := Receiver(client, limit, writable);
    forall rest: seq<byte>, known: nat, data: seq<byte>, pongs: nat
      ensures recv(ControlBytes(if ping then PING else PONG) + rest, known, data, pongs) ==
              AfterControl(recv, writable, ping, rest, known, data, pongs)
    {
      ControlSkipped(ping, rest, client, limit, writable, known, data, pongs);
    }
  }

  lemma {:induction false} ControlsReceived(recv: Loop, writable: bool, pings: seq<bool>)
    requires ControlActs(recv, writable, ControlBytes(PING), true)
    requires ControlActs(recv, writable, ControlBytes(PONG), false)
    ensures ControlsAct(recv, writable, Controls(pings), pings)
  {
    if pings != [] {
      var c, more := ControlBytes(if pings[0] then PING else PONG), Controls(pings[1..]);
      ControlsReceived(recv, writable, pings[1..]);
      forall rest: seq<byte>, known: nat, data: seq<byte>, pongs: nat
        ensures recv(c + more + rest, known, data, pongs) ==
                AfterControls(recv, writable, pings, rest, known, data, pongs)
      {
        Rejoin(c, more, rest);
        assert recv(c + (more + rest), known, data, pongs) ==
               AfterControl(recv, writable, pings[0], more + rest, known, data, pongs);
        var n := pongs + if pings[0] then 1 else 0;
        assert recv(more + rest, known, data, n) == AfterControls(recv, writable, pings[1..], rest, known, data, n);
      }
    } else {
      forall rest: seq<byte>, known: nat, data: seq<byte>, pongs: nat
        ensures recv([] + rest, known, data, pongs) ==
                AfterControls(recv, writable, pings, rest, known, data, pongs)
      {
        assert [] + rest == rest;
      }
    }
  }

  function AfterFrame(recv: Loop, limit: nat, f: Fragment, fin: bool, op: nat, rest: seq<byte>,
                      known: nat, data: seq<byte>, pongs: nat): Received {
    if f.data == [] || |data| + |f.data| >= limit then Nothing
    else if fin then Message(Learned(known, op), data + f.data, rest, pongs)
    else recv(rest, Learned(known, op), data + f.data, pongs)
  }

  /** These bytes are received as data frame f. */
  ghost predicate FrameActs(recv: Loop, limit: nat, frame: seq<byte>, f: Fragment, fin: bool, op: nat) {
    forall rest: seq<byte>, known: nat, data: seq<byte>, pongs: nat
      {:trigger AfterFrame(recv, limit, f, fin, op, rest, known, data, pongs)} ::
      recv(frame + rest, known, data, pongs) == AfterFrame(recv, limit, f, fin, op, rest, known, data, pongs)
  }

  lemma FrameIsReceived(client: bool, limit: nat, writable: bool, f: Fragment, fin: bool, op: nat)
    requires op in {CONTINUE, TEXT, BINARY} && |f.data| < WORD
    ensures FrameActs(Receiver(!client, limit, writable), limit, FrameBytes(fin, op, f.data, client, f.key), f, fin, op)
  {
    var recv, frame := Receiver(!client, limit, writable), FrameBytes(fin, op, f.data, client, f.key);
    forall rest: seq<byte>, known: nat, data: seq<byte>, pongs: nat
      ensures recv(frame + rest, known, data, pongs) ==
              AfterFrame(recv, limit, f, fin, op, rest, known, data, pongs)
    {
      FrameReceived(fin, op, f, client, rest, limit, writable, known, data, pongs);
    }
  }

  function AfterPiece(recv: Loop, writable: bool, limit: nat, f: Fragment, fin: bool, op: nat, rest: seq<byte>,
                      known: nat, data: seq<byte>, pongs: nat): Received {
    if !writable && CountPings(f.before) > 0 then Nothing
    else AfterFrame(recv, limit, f, fin, op, rest, known, data, pongs + CountPings(f.before))
  }

  /** These bytes are received as control frames and then data frame f. */
  ghost predicate PieceActs(recv: Loop, writable: bool, limit: nat, piece: seq<byte>, f: Fragment, fin: bool, op: nat) {
    forall rest: seq<byte>, known: nat, data: seq<byte>, pongs: nat
      {:trigger AfterPiece(recv, writable, limit, f, fin, op, rest, known, data, pongs)} ::
      recv(piece + rest, known, data, pongs) ==
      AfterPiece(recv, writable, limit, f, fin, op, rest, known, data, pongs)
  }

  lemma PieceReceived(recv: Loop, writable: bool, limit: nat, controls: seq<byte>, frame: seq<byte>, f: Fragment,
                      fin: bool, op: nat)
    requires ControlsAct(recv, writable, controls, f.before) && FrameActs(recv, limit, frame, f, fin, op)
    ensures PieceActs(recv, writable, limit, controls + frame, f, fin, op)
  {
    forall rest: seq<byte>, known: nat, data: seq<byte>, pongs: nat
      ensures recv(controls + frame + rest, known, data, pongs) ==
              AfterPiece(recv, writable, limit, f, fin, op, rest, known, data, pongs)
    {
      Rejoin(controls, frame, rest);
      assert recv(controls + (frame + rest), known, data, pongs) ==
             AfterControls(recv, writable, f.before, frame + rest, known, data, pongs);
    }
  }

  /** What the receiver should answer. */
  function Expected(fs: seq<Fragment>, op: nat, rest: seq<byte>, limit: nat, writable: bool, known: nat,
                    data: seq<byte>, pongs: nat): Received {
    if NoneEmpty(fs) && |data| + |Joined(fs)| < limit && (writable || AllPings(fs) == 0)
    then Message(Learned(known, op), data + Joined(fs), rest, pongs + AllPings(fs))
    else Nothing
  }

  lemma ExpectedStep(fs: seq<Fragment>, op: nat, rest: seq<byte>, limit: nat, writable: bool, known: nat,
                     data: seq<byte>, pongs: nat)
    requires fs != []
    ensures Expected(fs, op, rest, limit, writable, known, data, pongs) ==
            if fs[0].data == [] || |data| + |fs[0].data| >= limit then Nothing
            else if !writable && CountPings(fs[0].before) > 0 then Nothing
            else if |fs| == 1
            then Message(Learned(known, op), data + fs[0].data, rest, pongs + CountPings(fs[0].before))
            else Expected(fs[1..], CONTINUE, rest, limit, writable, Learned(known, op), data + fs[0].data,
                          pongs + CountPings(fs[0].before))
  {
    NoneEmptyTail(fs);
    var f, tail := fs[0], fs[1..];
    assert Joined(fs) == f.data + Joined(tail) && AllPings(fs) == CountPings(f.before) + AllPings(tail);
    Rejoin(data, f.data, Joined(tail));
    if |fs| == 1 {
      assert tail == [] && Joined(tail) == [] && f.data + Joined(tail) == f.data;
    } else {
      assert |data + f.data + Joined(tail)| == |data + f.data| + |Joined(tail)|;
    }
  }

  /** These bytes are received as the fragments fs. */
  ghost predicate WireActs(recv: Loop, writable: bool, limit: nat, w: seq<byte>, fs: seq<Fragment>, op: nat) {
    forall rest: seq<byte>, known: nat, data: seq<byte>, pongs: nat
      {:trigger Expected(fs, op, rest, limit, writable, known, data, pongs)} ::
      recv(w + rest, known, data, pongs) == Expected(fs, op, rest, limit, writable, known, data, pongs)
  }

  lemma PiecesAct(recv: Loop, writable: bool, limit: nat, piece: seq<byte>, more: seq<byte>, fs: seq<Fragment>, op: nat)
    requires fs != [] && PieceActs(recv, writable, limit, piece, fs[0], |fs| == 1, op)
    requires if |fs| == 1 then more == []
             else fs[0].data == [] || WireActs(recv, writable, limit, more, fs[1..], CONTINUE)
    ensures WireActs(recv, writable, limit, piece + more, fs, op)
  {
    forall rest: seq<byte>, known: nat, data: seq<byte>, pongs: nat
      ensures recv(piece + more + rest, known, data, pongs) ==
              Expected(fs, op, rest, limit, writable, known, data, pongs)
    {
      Rejoin(piece, more, rest);
      assert recv(piece + (more + rest), known, data, pongs) ==
             AfterPiece(recv, writable, limit, fs[0], |fs| == 1, op, more + rest, known, data, pongs);
      ExpectedStep(fs, op, rest, limit, writable, known, data, pongs);
      if |fs| == 1 {
        assert more + rest == rest;
      }
    }
  }

  lemma {:induction false} FragmentsReceived(fs: seq<Fragment>, op: nat, client: bool, limit: nat, writable: bool)
    requires fs != [] && op in {CONTINUE, TEXT, BINARY}
    requires forall i :: 0 <= i < |fs| ==> |fs[i].data| < WORD
    ensures WireActs(Receiver(!client, limit, writable), writable, limit, Wire(fs, op, client), fs, op)
    decreases |fs|
  {
    var recv, f, fin := Receiver(!client, limit, writable), fs[0], |fs| == 1;
    var frame := FrameBytes(fin, op, f.data, client, f.key);
    FrameIsReceived(client, limit, writable, f, fin, op);
    ControlIsReceived(!client, limit, writable, true);
    ControlIsReceived(!client, limit, writable, false);
    ControlsReceived(recv, writable, f.before);
    PieceReceived(recv, writable, limit, Controls(f.before), frame, f, fin, op);
    if |fs| > 1 {
      FragmentsReceived(fs[1..], CONTINUE, client, limit, writable);
    } else {
      assert fs[1..] == [] && WireTail(fs, client) == [];
    }
    PiecesAct(recv, writable, limit, Controls(f.before) + frame, WireTail(fs, client), fs, op);
  }

  lemma NoneEmptyTail(fs: seq<Fragment>)
    requires fs != []
    ensures NoneEmpty(fs) <==> fs[0].data != [] && NoneEmpty(fs[1..])
  {
  }

  lemma UseWire(recv: Loop, writable: bool, limit: nat, w: seq<byte>, fs: seq<Fragment>, op: nat, rest: seq<byte>)
    requires WireActs(recv, writable, limit, w, fs, op) && op in {TEXT, BINARY}
    ensures recv(w + rest, 0, [], 0) ==
            if NoneEmpty(fs) && |Joined(fs)| < limit && (writable || AllPings(fs) == 0)
            then Message(op, Joined(fs), rest, AllPings(fs))
            else Nothing
  {
    assert recv(w + rest, 0, [], 0) == Expected(fs, op, rest, limit, writable, 0, [], 0);
    assert [] + Joined(fs) == Joined(fs);
  }

  /**
    A message sent as fragments, with PING and PONG frames between them, is received by the opposite role with the
    same opcode and the joined payload, and every PING is answered, exactly if no fragment is empty, the total stays
    below the limit and the PONGs can be sent; otherwise nothing is received.
   */
  lemma MessageRoundTrip(fs: seq<Fragment>, op: nat, client: bool, rest: seq<byte>, limit: nat, writable: bool)
    requires fs != [] && op in {TEXT, BINARY}
    requires forall i :: 0 <= i < |fs| ==> |fs[i].data| < WORD
    ensures Receive(Wire(fs, op, client) + rest, !client, limit, writable, 0, [], 0) ==
            if NoneEmpty(fs) && |Joined(fs)| < limit && (writable || AllPings(fs) == 0)
            then Message(op, Joined(fs), rest, AllPings(fs))
            else Nothing
  {
    FragmentsReceived(fs, op, client, limit, writable);
    UseWire(Receiver(!client, limit, writable), writable, limit, Wire(fs, op, client), fs, op, rest);
  }
}
