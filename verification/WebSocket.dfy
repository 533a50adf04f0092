/** Sending and receiving WebSocket messages over a stream that reads and writes in pieces of any size. */
module WebSocket {
  import opened Common
  import opened Bits
  import opened Codec
  import opened WebSocketFrames

  class Stream {
    var input: seq<byte>     // what the peer has sent and we have not read
    var output: seq<byte>    // what we have written
    var writable: bool       // writes reach the peer
    var open: bool

    constructor (bytes: seq<byte>, w: bool)
      ensures input == bytes && output == [] && writable == w && open
    {
      input, output, writable, open := bytes, [], w, true;
    }

    /** Some of the next n bytes, or nothing at the end of the stream. */
    method Read(n: nat) returns (chunk: seq<byte>)
      requires n > 0
      modifies this`input
      ensures old(input) == chunk + input && |chunk| <= n
      ensures chunk == [] <==> old(input) == []
    {
      if input == [] {
        return [];
      }
      var k: nat :| 1 <= k <= n && k <= |input|;
      chunk := input[..k];
      input := input[k..];
    }

    /** The peer is there and the stream has not been closed. */
    predicate Sends()
      reads this`writable, this`open
    {
      writable && open
    }

    /** Some of the bytes are accepted, or none if the peer is gone or the stream is closed. */
    method Write(buf: seq<byte>) returns (k: nat)
      requires buf != []
      modifies this`output
      ensures k <= |buf| && output == old(output) + buf[..k] && (k == 0 <==> !Sends())
    {
      if !Sends() {
        return 0;
      }
      k :| 1 <= k <= |buf|;
      output := output + buf[..k];
    }

    /** Short reads add up: all n bytes, or a result of 0. */
    method ReadFixSize(n: nat) returns (buf: seq<byte>, rc: nat)
      modifies this`input
      ensures n <= |old(input)| ==> rc == n && buf == old(input)[..n] && input == old(input)[n..]
      ensures n > |old(input)| ==> rc == 0 && |input| <= |old(input)|
    {
      buf := [];
      while |buf| < n
        invariant |buf| <= n && old(input) == buf + input
        decreases n - |buf|
      {
        var chunk := Read(n - |buf|);
        if chunk == [] {
          return buf, 0;
        }
        buf := buf + chunk;
      }
      rc := n;
    }

    method WriteFixSize(buf: seq<byte>) returns (rc: nat)
      modifies this`output
      ensures rc == (if Sends() then |buf| else 0)
      ensures output == old(output) + (if Sends() then buf else [])
    {
      var offset := 0;
      while offset < |buf|
        invariant 0 <= offset <= |buf| && (offset > 0 ==> Sends())
        invariant output == old(output) + buf[..offset]
      {
        var k := Write(buf[offset..]);
        if k == 0 {
          return 0;
        }
        assert buf[..offset] + buf[offset..][..k] == buf[..offset + k];
        offset := offset + k;
      }
      assert buf[..offset] == buf;
      rc := |buf|;
    }

    /** WSPing and WSPong */
    method SendControl(opcode: nat) returns (rc: nat)
      modifies this`output, this`open
      ensures rc == (if old(Sends()) then 2 else 0) && open == old(Sends())
      ensures output == old(output) + (if old(Sends()) then [128 + opcode % 16, 0] else [])
    {
      rc := WriteFixSize(ControlBytes(opcode));
      if rc == 0 {
        open := false;
      }
    }

    /** WSSendMessage; the message is masked in place, and `after` is what it holds then. */
    method SendMessage(opcode: nat, data: seq<byte>, client: bool, fin: bool, key: Key)
      returns (rc: int, after: seq<byte>)
      modifies this`output, this`open
      ensures output == old(output) + (if old(Sends()) then FrameBytes(fin, opcode, data, client, key) else [])
      ensures if old(Sends()) && data != [] then rc == |data| + 2 && open else rc == -1 && !open
      ensures after == if client && old(Sends()) then Masked(data, key) else data
      ensures old(Sends()) ==> EndsWith(output, data, client)
    {
      after := data;
      var field := LengthField(|data|);
      ghost var out, head, ext := output, Head(fin, opcode, client, field), Extended(|data|);
      var n := WriteFixSize(Head(fin, opcode, client, field));
      if n > 0 && field >= 126 {
        n := WriteFixSize(Extended(|data|));
      }
      assert Sends() ==> output == out + head + ext;
      if n > 0 && client {
        after := MaskInPlace(data, key);
        n := WriteFixSize(key);
      }
      assert Sends() ==> output == out + head + ext + (if client then key else []);
      if n > 0 {
        n := WriteFixSize(after);
      }
      FrameJoin(out, head, ext, if client then key else [], after);
      FrameEnds(out, fin, opcode, data, client, key);
      if n > 0 {
        return |data| + 2, after;
      }
      open := false;
      rc := -1;
    }

    /** The part of a data frame after its head. */
    method RecvData(b1: byte, client: bool, sofar: nat, limit: nat) returns (r: Option<seq<byte>>)
      modifies this`input
      ensures var p := ParseData(b1, old(input), client, sofar, limit);
              if p.None? then r == None else r == Some(p.value.payload) && input == p.value.rest
      ensures |input| <= |old(input)|
    {
      if !client && b1 < 128 {
        return None;
      }
      var field, length := b1 % 128, b1 % 128;
      if field == 126 || field == 127 {
        var ext, rc := ReadFixSize(if field == 126 then 2 else 8);
        if rc == 0 {
          return None;
        }
        length := FromBytes(ext, Big);
      }
      if sofar + length >= limit {
        return None;
      }
      r := RecvPayload(b1 >= 128, length);
    }

    /** Mask key and payload. */
    method RecvPayload(mask: bool, length: nat) returns (r: Option<seq<byte>>)
      modifies this`input
      ensures var p := ParsePayload(mask, length, old(input));
              if p.None? then r == None else r == Some(p.value.payload) && input == p.value.rest
      ensures |input| <= |old(input)|
      ensures r.Some? <==> 0 < length <= |old(input)| - if mask then 4 else 0
      ensures r.Some? ==> |r.value| == length && input == old(input)[(if mask then 4 else 0) + length..]
      ensures r.Some? && mask ==>
                forall i :: 0 <= i < length ==> r.value[i] == Xor(old(input)[4 + i], old(input)[i % 4])
      ensures r.Some? && !mask ==> r.value == old(input)[..length]
    {
      ghost var s := input;
      var key: Key := [0, 0, 0, 0];
      if mask {
        var k, rc := ReadFixSize(4);
        if rc == 0 {
          return None;
        }
        key := k;
      }
      ghost var n := if mask then 4 else 0;
      assert input == s[n..];
      var body, rc := ReadFixSize(length);
      if rc == 0 {
        return None;
      }
      assert body == s[n..n + length] && input == s[n + length..];
      if mask {
        body := MaskInPlace(body, key);
      }
      r := Some(body);
    }

    /** WSRecvMessage: the loop over frames answers as the pure receiver does, under any splitting into short reads. */
    method RecvMessage(client: bool, limit: nat) returns (r: Option<(nat, seq<byte>)>)
      modifies this`input, this`output, this`open
      ensures match Receive(old(input), client, limit, old(Sends()), 0, [], 0)
              case Nothing => r == None && !open
              case Message(op, data, rest, pongs) =>
                r == Some((op, data)) && input == rest && open == old(open) && output == old(output) + Pongs(pongs)
    {
      r := RecvLoop(client, limit, Receiver(client, limit, Sends()));
    }

    method RecvLoop(client: bool, limit: nat, ghost recv: Loop) returns (r: Option<(nat, seq<byte>)>)
      requires Receives(recv, client, limit, Sends())
      modifies this`input, this`output, this`open
      ensures match recv(old(input), 0, [], 0)
              case Nothing => r == None && !open
              case Message(op, data, rest, pongs) =>
                r == Some((op, data)) && input == rest && open == old(open) && output == old(output) + Pongs(pongs)
    {
      var opcode: nat := 0;
      var data: seq<byte> := [];
      ghost var pongs: nat := 0;
      while true
        invariant open == old(open) && output == old(output) + Pongs(pongs)
        invariant recv(old(input), 0, [], 0) == recv(input, opcode, data, pongs)
        decreases |input|
      {
        var f := RecvFrame(client, limit, opcode, data, pongs, recv);
        match f
        case Broken =>
          open := false;
          return None;
        case Complete(op, all) =>
          return Some((op, all));
        case Partial(op, all, answered) =>
          opcode, data := op, all;
          pongs := pongs + if answered then 1 else 0;
      }
    }

    /** One round of the loop. */
    method RecvFrame(client: bool, limit: nat, opcode: nat, data: seq<byte>, ghost pongs: nat, ghost recv: Loop)
      returns (f: FrameResult)
      requires Receives(recv, client, limit, Sends())
      modifies this`input, this`output, this`open
      ensures match f
              case Broken => recv(old(input), opcode, data, pongs) == Nothing
              case Complete(op, all) =>
                recv(old(input), opcode, data, pongs) == Message(op, all, input, pongs)
                && open == old(open) && output == old(output)
              case Partial(op, all, answered) =>
                var n := if answered then 1 else 0;
                recv(old(input), opcode, data, pongs) == recv(input, op, all, pongs + n)
                && |input| < |old(input)| && open == old(open) && output == old(output) + Pongs(n)
    {
      ghost var was := input;
      var head, rc := ReadFixSize(2);
      if rc == 0 {
        ReceiveShort(recv, client, limit, Sends(), was, opcode, data, pongs);
        return Broken;
      }
      var op := head[0] % 16;
      ReceiveHead(recv, client, limit, Sends(), was, opcode, data, pongs);
      if op == PING {
        rc := SendControl(PONG);
        f := if rc == 0 then Broken else Partial(opcode, data, true);
        assert Pongs(1) == Pongs(0) + ControlBytes(PONG) == ControlBytes(PONG);
      } else if op == CONTINUE || op == TEXT || op == BINARY {
        var p := RecvData(head[1], client, |data|, limit);
        if p.None? {
          return Broken;
        }
        var known := Learned(opcode, op);
        f := if head[0] >= 128 then Complete(known, data + p.value) else Partial(known, data + p.value, false);
      } else {
        f := Partial(opcode, data, false);
      }
    }
  }

  /** What one frame brings: nothing usable, the whole message, or more to come. */
  datatype FrameResult = Broken | Complete(op: nat, all: seq<byte>) | Partial(op: nat, all: seq<byte>, answered: bool)

  /** `recv` is the pure receiver. */
  ghost predicate Receives(recv: Loop, client: bool, limit: nat, sends: bool) {
    forall s: seq<byte>, known: nat, data: seq<byte>, pongs: nat
      {:trigger Receive(s, client, limit, sends, known, data, pongs)} ::
      recv(s, known, data, pongs) == Receive(s, client, limit, sends, known, data, pongs)
  }

  lemma ReceiveShort(recv: Loop, client: bool, limit: nat, sends: bool, s: seq<byte>, known: nat, data: seq<byte>,
                     pongs: nat)
    requires Receives(recv, client, limit, sends) && |s| < 2
    ensures recv(s, known, data, pongs) == Nothing
  {
    assert Receive(s, client, limit, sends, known, data, pongs) == Nothing;
  }

  /** The pure receiver on the next frame. */
  lemma ReceiveHead(recv: Loop, client: bool, limit: nat, sends: bool, s: seq<byte>, known: nat, data: seq<byte>,
                    pongs: nat)
    requires Receives(recv, client, limit, sends) && |s| >= 2
    ensures var op, rest := s[0] % 16, s[2..];
            recv(s, known, data, pongs) ==
            if op == PING then (if sends then recv(rest, known, data, pongs + 1) else Nothing)
            else if op == CONTINUE || op == TEXT || op == BINARY then
              match ParseData(s[1], rest, client, |data|, limit)
              case None => Nothing
              case Some(p) =>
                if s[0] >= 128 then Message(Learned(known, op), data + p.payload, p.rest, pongs)
                else recv(p.rest, Learned(known, op), data + p.payload, pongs)
            else recv(rest, known, data, pongs)
  {
    var op, rest := s[0] % 16, s[2..];
    assert recv(s, known, data, pongs) == Receive(s, client, limit, sends, known, data, pongs);
    assert recv(rest, known, data, pongs + 1) == Receive(rest, client, limit, sends, known, data, pongs + 1);
    assert recv(rest, known, data, pongs) == Receive(rest, client, limit, sends, known, data, pongs);
    var d := ParseData(s[1], rest, client, |data|, limit);
    if d.Some? {
      var k, all := Learned(known, op), data + d.value.payload;
      assert recv(d.value.rest, k, all, pongs) == Receive(d.value.rest, client, limit, sends, k, all, pongs);
    }
  }

  /**
    An opcode once known stays, what has been collected stays at the front, the message is shorter than the limit,
    and what is left over are the last bytes of s.
   */
  predicate Gets(r: Received, s: seq<byte>, limit: nat, known: nat, data: seq<byte>, pongs: nat) {
    r.Message? ==>
      && (if known != 0 then r.opcode == known else r.opcode in {0, 1, 2})
      && data <= r.data && |data| < |r.data| < limit && Tail(r.rest, s) && pongs <= r.pongs
  }

  lemma GetsAfter(r: Received, s: seq<byte>, limit: nat, known: nat, data: seq<byte>, pongs: nat,
                  s': seq<byte>, known': nat, data': seq<byte>, pongs': nat)
    requires Gets(r, s', limit, known', data', pongs')
    requires Tail(s', s) && data <= data' && pongs <= pongs'
    requires if known != 0 then known' == known else known' in {0, 1, 2}
    ensures Gets(r, s, limit, known, data, pongs)
  {
    if r.Message? {
      TailTwice(r.rest, s', s);
    }
  }

  /** What is received from any bytes, whoever sent them. */
  lemma AnyBytesReceived(s: seq<byte>, client: bool, limit: nat, sends: bool, known: nat, data: seq<byte>, pongs: nat)
    ensures Gets(Receive(s, client, limit, sends, known, data, pongs), s, limit, known, data, pongs)
  {
    AnyBytesGet(Receiver(client, limit, sends), s, client, limit, sends, known, data, pongs);
  }

  lemma {:induction false} AnyBytesGet(recv: Loop, s: seq<byte>, client: bool, limit: nat, sends: bool,
                                       known: nat, data: seq<byte>, pongs: nat)
    requires Receives(recv, client, limit, sends)
    ensures Gets(recv(s, known, data, pongs), s, limit, known, data, pongs)
    decreases |s|
  {
    if |s| < 2 {
      ReceiveShort(recv, client, limit, sends, s, known, data, pongs);
      return;
    }
    ReceiveHead(recv, client, limit, sends, s, known, data, pongs);
    var op, rest := s[0] % 16, s[2..];
    if op == CONTINUE || op == TEXT || op == BINARY {
      var p := ParseData(s[1], rest, client, |data|, limit);
      DataParsed(s[1], rest, client, |data|, limit);
      if p.Some? {
        TailTwice(p.value.rest, rest, s);
        if s[0] < 128 {
          var k, all := Learned(known, op), data + p.value.payload;
          AnyBytesGet(recv, p.value.rest, client, limit, sends, k, all, pongs);
          GetsAfter(recv(p.value.rest, k, all, pongs), s, limit, known, data, pongs, p.value.rest, k, all, pongs);
        }
      }
    } else {
      var n := if op == PING then pongs + 1 else pongs;
      AnyBytesGet(recv, rest, client, limit, sends, known, data, n);
      GetsAfter(recv(rest, known, data, n), s, limit, known, data, pongs, rest, known, data, n);
    }
  }

  function Pongs(n: nat): seq<byte> {
    if n == 0 then [] else Pongs(n - 1) + ControlBytes(PONG)
  }

  /** Each answer is the two bytes 138 and 0. */
  lemma {:induction false} PongBytes(n: nat, i: nat)
    requires i < 2 * n
    ensures |Pongs(n)| == 2 * n && Pongs(n)[i] == if i % 2 == 0 then 138 else 0
  {
    if n > 1 {
      PongBytes(n - 1, if i < 2 * n - 2 then i else 0);
    }
  }

  /** `data[i] ^= mask[i % 4]` for every i. */
  method MaskInPlace(data: seq<byte>, key: Key) returns (r: seq<byte>)
    ensures |r| == |data| && forall i :: 0 <= i < |data| ==> r[i] == Xor(data[i], key[i % 4])
    ensures r == Masked(data, key)
  {
    r := data;
    for i := 0 to |data|
      invariant |r| == |data|
      invariant forall j :: 0 <= j < i ==> r[j] == XorByte(data[j], key[j % 4])
      invariant forall j :: i <= j < |data| ==> r[j] == data[j]
    {
      r := r[i := XorByte(r[i], key[i % 4])];
    }
  }

  /** Sends a message as fragments, each preceded by its control frames; an empty one ends it. */
  method SendFragments(stream: Stream, fs: seq<Fragment>, opcode: nat, client: bool)
    modifies stream`output, stream`open
    ensures stream.output == old(stream.output) + (if old(stream.Sends()) then Wire(fs, opcode, client) else [])
    ensures stream.open == if fs == [] then old(stream.open) else old(stream.Sends()) && NoneEmpty(fs)
    decreases |fs|
  {
    if fs == [] {
      return;
    }
    NoneEmptyTail(fs);
    ghost var out := stream.output;
    SendControls(stream, fs[0].before);
    var rc, after := stream.SendMessage(opcode, fs[0].data, client, |fs| == 1, fs[0].key);
    SendFragments(stream, fs[1..], CONTINUE, client);
    Append3(out, Controls(fs[0].before), FrameBytes(|fs| == 1, opcode, fs[0].data, client, fs[0].key),
            WireTail(fs, client));
  }

  /** The last bytes are the payload, for a client xor-ed in turn with the four bytes before them. */
  ghost predicate EndsWith(output: seq<byte>, data: seq<byte>, client: bool) {
    var n := |output| - |data|;
    if client then
      n >= 4 && forall i :: 0 <= i < |data| ==> output[n + i] == Xor(data[i], output[n - 4 + i % 4])
    else
      n >= 0 && output[n..] == data
  }

  lemma FrameEnds(out: seq<byte>, fin: bool, opcode: nat, data: seq<byte>, client: bool, key: Key)
    ensures EndsWith(out + FrameBytes(fin, opcode, data, client, key), data, client)
  {
    var head := out + (Head(fin, opcode, client, LengthField(|data|)) + Extended(|data|));
    var body := if client then key + Masked(data, key) else data;
    assert out + FrameBytes(fin, opcode, data, client, key) == head + body;
    BodyEnds(head, data, client, key);
  }

  lemma BodyEnds(head: seq<byte>, data: seq<byte>, client: bool, key: Key)
    ensures EndsWith(head + (if client then key + Masked(data, key) else data), data, client)
  {
    if client {
      var s, h := head + (key + Masked(data, key)), |head|;
      forall i | 0 <= i < |data|
        ensures s[h + 4 + i] == Xor(data[i], s[h + i % 4])
      {
        assert s[h + 4 + i] == Masked(data, key)[i] && s[h + i % 4] == key[i % 4];
      }
    }
  }

  lemma FrameJoin(o: seq<byte>, h: seq<byte>, e: seq<byte>, k: seq<byte>, d: seq<byte>)
    ensures o + h + e + k + d == o + (h + e + (k + d))
    ensures k == [] ==> k + d == d
  {
  }

  lemma Append3(o: seq<byte>, a: seq<byte>, b: seq<byte>, c: seq<byte>)
    ensures o + a + b + c == o + (a + b + c)
  {
  }

  method SendControls(stream: Stream, pings: seq<bool>)
    modifies stream`output, stream`open
    ensures stream.output == old(stream.output) + (if old(stream.Sends()) then Controls(pings) else [])
    ensures stream.open == if pings == [] then old(stream.open) else old(stream.Sends())
    decreases |pings|
  {
    if pings != [] {
      ghost var out := stream.output;
      var rc := stream.SendControl(if pings[0] then PING else PONG);
      SendControls(stream, pings[1..]);
      Append3(out, ControlBytes(if pings[0] then PING else PONG), Controls(pings[1..]), []);
    }
  }

  /**
    End to end: whatever the fragments, the control frames between them and the short reads and writes, the receiver
    of the opposite role gets the message, exactly if no fragment is empty and the total stays below its limit.
   */
  method Transfer(fs: seq<Fragment>, opcode: nat, client: bool, limit: nat) returns (r: Option<(nat, seq<byte>)>)
    requires fs != [] && opcode in {TEXT, BINARY} && forall i :: 0 <= i < |fs| ==> |fs[i].data| < WORD
    ensures r == if NoneEmpty(fs) && |Joined(fs)| < limit then Some((opcode, Joined(fs))) else None
  {
    var sender := new Stream([], true);
    SendFragments(sender, fs, opcode, client);
    assert sender.output == Wire(fs, opcode, client);
    var receiver := new Stream(sender.output, true);
    MessageRoundTrip(fs, opcode, client, [], limit, true);
    assert Wire(fs, opcode, client) + [] == Wire(fs, opcode, client);
    r := receiver.RecvMessage(!client, limit);
  }
}
