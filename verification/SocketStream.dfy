/** Socket transfers straight into and out of the chunks of a byte array. */
module SocketStreams {
  import opened Bits
  import opened FlatBuffers
  import opened ByteArrays

  /** Receiving: room is made for `len` bytes, then `data` lands at the position. */
  ghost predicate RecvStep(f: Flat, len: nat, data: seq<byte>, base: nat, f': Flat) {
    exists g: Flat :: RecvVia(f, len, data, base, g, f')
  }

  ghost predicate RecvVia(f: Flat, len: nat, data: seq<byte>, base: nat, g: Flat, f': Flat) {
    && |data| <= len && GrowStep(f, len, base, g)
    && f' == Flat(Splice(g.mem, f.pos, data), f.pos + |data|, Max(f.size, f.pos + |data|))
  }

  /** For the client, a scatter read of some bytes is a write of those bytes. */
  lemma RecvIsWrite(f: Flat, len: nat, data: seq<byte>, base: nat, f1: Flat, f2: Flat)
    requires RecvStep(f, len, data, base, f1) && WriteStep(f, data, base, f2)
    ensures f1.Ok() && f2.Ok() && Seen(f1) == Seen(f2)
  {
    var g1: Flat :| RecvVia(f, len, data, base, g1, f1);
    var g2: Flat :| WriteVia(f, data, base, g2, f2);
    Landed(f.mem, g1.mem, f.pos, f.size, data);
    Landed(f.mem, g2.mem, f.pos, f.size, data);
  }

  lemma SliceFront(m: seq<byte>, p: nat, q: nat, bytes: seq<byte>, n: nat)
    requires p <= q <= |m| && (bytes == [] || bytes == m[p..q]) && n <= |bytes|
    ensures bytes[..n] == m[p..p + n]
  {
  }

  function Room(vs: seq<IoVec>): nat {
    if vs == [] then 0 else vs[0].len + Room(vs[1..])
  }

  lemma {:induction false} CoversTotal(vs: seq<IoVec>, p: nat, q: nat, b: nat, n: nat)
    requires Covers(vs, p, q, b, n)
    ensures p + Room(vs) == q
  {
    if vs != [] {
      CoversTotal(vs[1..], p + vs[0].len, q, b, n);
    }
  }

  /** Fills the buffers in order until the bytes run out. */
  method Fill(ba: ByteArray, buffers: seq<IoVec>, data: seq<byte>, ghost p: nat, ghost q: nat)
    requires ba.Valid() && Covers(buffers, p, q, ba.baseSize, |ba.nodes|) && p + |data| <= q <= ba.capacity
    modifies ba`blocks
    ensures ba.Valid() && p + |data| <= old(|Flatten(ba.blocks)|)
    ensures Flatten(ba.blocks) == Splice(old(Flatten(ba.blocks)), p, data)
    decreases |buffers|
  {
    ba.FlatFacts();
    if data == [] {
      return;
    }
    var v := buffers[0];
    var k := Min(v.len, |data|);
    ba.Store(v.block, v.offset, data[..k]);
    SpliceParts(Flatten(old(ba.blocks)), p, data, k);
    if k < |data| {
      Fill(ba, buffers[1..], data[k..], p + k, q);
    }
  }

  lemma SpliceParts(m: seq<byte>, p: nat, data: seq<byte>, k: nat)
    requires p + |data| <= |m| && k <= |data|
    ensures Splice(Splice(m, p, data[..k]), p + k, data[k..]) == Splice(m, p, data)
    ensures k == |data| ==> data[..k] == data
  {
    assert data[..k] + data[k..] == data;
    SpliceTwice(m, p, data[..k], data[k..]);
  }

  class SocketStream {
    var connected: bool
    var incoming: seq<byte>   // what the peer has sent
    var outgoing: seq<byte>   // what has been sent to the peer

    constructor (input: seq<byte>)
      ensures connected && incoming == input && outgoing == []
    {
      connected, incoming, outgoing := true, input, [];
    }

    /** readv, when it succeeds: any number of the incoming bytes, filled into the buffers in order. */
    method Recv(ba: ByteArray, buffers: seq<IoVec>, ghost len: nat) returns (rt: nat)
      requires ba.Valid() && Covers(buffers, ba.position, ba.position + len, ba.baseSize, |ba.nodes|)
      requires ba.position + len <= ba.capacity
      modifies this`incoming, ba`blocks
      ensures ba.Valid() && rt <= len && rt <= |old(incoming)|
      ensures incoming == old(incoming)[rt..]
      ensures ba.position + rt <= old(|Flatten(ba.blocks)|)
      ensures Flatten(ba.blocks) == Splice(old(Flatten(ba.blocks)), ba.position, old(incoming)[..rt])
    {
      ba.FlatFacts();
      CoversTotal(buffers, ba.position, ba.position + len, ba.baseSize, |ba.nodes|);
      rt :| rt <= Room(buffers) && rt <= |incoming|;
      Fill(ba, buffers, incoming[..rt], ba.position, ba.position + len);
      incoming := incoming[rt..];
    }

    /** `-1`, `0` or the number of bytes read; `fails`: recv answers -1. Room has been made even then. */
    method Read(ba: ByteArray, length: nat, fails: bool) returns (rt: int)
      requires ba.Valid()
      modifies this`incoming, ba, ba.nodes
      ensures ba.Valid()
      ensures !connected ==> rt == -1 && ba.View() == old(ba.View()) && incoming == old(incoming)
      ensures connected && fails ==>
                rt == -1 && incoming == old(incoming) && RecvStep(old(ba.View()), length, [], ba.baseSize, ba.View())
      ensures connected && !fails ==>
                && 0 <= rt <= |old(incoming)| && incoming == old(incoming)[rt..]
                && RecvStep(old(ba.View()), length, old(incoming)[..rt], ba.baseSize, ba.View())
    {
      if !connected {
        return -1;
      }
      ghost var f := ba.View();
      var buffers := ba.GetWriteBuffers(length);
      ghost var g := ba.View();
      ba.FlatFacts();
      if fails {
        assert Splice(g.mem, f.pos, []) == g.mem;
        assert RecvVia(f, length, [], ba.baseSize, g, ba.View());
        return -1;
      }
      rt := Receive(ba, buffers, length);
      assert RecvVia(f, length, old(incoming)[..rt], ba.baseSize, g, ba.View());
    }

    /** recv into the buffers, then setPosition behind the bytes received. */
    method Receive(ba: ByteArray, buffers: seq<IoVec>, ghost len: nat) returns (n: nat)
      requires ba.Valid() && Covers(buffers, ba.position, ba.position + len, ba.baseSize, |ba.nodes|)
      requires ba.position + len <= ba.capacity
      modifies this`incoming, ba`blocks, ba`position, ba`size, ba`cur
      ensures ba.Valid() && n <= len && n <= |old(incoming)| && incoming == old(incoming)[n..]
      ensures old(ba.position) + n <= old(|Flatten(ba.blocks)|)
      ensures ba.View() == Flat(Splice(old(Flatten(ba.blocks)), old(ba.position), old(incoming)[..n]),
                                old(ba.position) + n, Max(old(ba.size), old(ba.position) + n))
    {
      n := Recv(ba, buffers, len);
      if n > 0 {
        ba.FlatFacts();
        var ok := ba.SetPosition(ba.position + n);
      }
    }

    /** writev of the readable bytes: what is sent leaves the array exactly as reading it would. */
    method Write(ba: ByteArray, length: nat, fails: bool) returns (rt: int)
      requires ba.Valid()
      modifies this`outgoing, ba`position, ba`size, ba`cur
      ensures ba.Valid()
      ensures !connected || fails ==> rt == -1 && ba.View() == old(ba.View()) && outgoing == old(outgoing)
      ensures connected && !fails ==>
                && 0 <= rt <= old(ba.size - ba.position) && rt <= length
                && ba.View() == old(ba.View()).(pos := old(ba.position) + rt)
                && ba.position <= |ba.View().mem|
                && outgoing == old(outgoing) + ba.View().mem[old(ba.position)..ba.position]
    {
      if !connected || fails {
        return -1;
      }
      var n := Send(ba, length);
      if n > 0 {
        var ok := ba.SetPosition(ba.position + n);
      }
      rt := n;
    }

    /** send: any number of the readable bytes, taken from the buffers in order. */
    method Send(ba: ByteArray, length: nat) returns (n: nat)
      requires ba.Valid()
      modifies this`outgoing
      ensures n <= length && n <= ba.size - ba.position && ba.position + n <= |ba.View().mem| == ba.capacity
      ensures outgoing == old(outgoing) + ba.View().mem[ba.position..ba.position + n]
    {
      var buffers, total := ba.GetReadBuffers(length);
      GatherIsSlice(ba.blocks, buffers, ba.position, ba.position + total, ba.baseSize);
      ba.FlatFacts();
      var bytes := Gather(ba.blocks, buffers);
      n :| n <= |bytes|;
      outgoing := outgoing + bytes[..n];
      SliceFront(ba.View().mem, ba.position, ba.position + total, bytes, n);
    }
  }
}
