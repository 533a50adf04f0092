/**
  A byte buffer kept as a linked list of fixed-size chunks, with a cursor node
  that follows the numeric position.
 */
module ByteArrays {
  import opened Bits
  import opened FlatBuffers
  import opened Codec

  /** Where chunk k starts: k * b. */
  ghost function Off(k: nat, b: nat): nat
    decreases k
  {
    if k == 0 then 0 else Off(k - 1, b) + b
  }

  lemma {:induction false} OffIsProduct(k: nat, b: nat)
    ensures Off(k, b) == k * b
    decreases k
  {
    if k != 0 {
      OffIsProduct(k - 1, b);
    }
  }

  lemma {:induction false} OffGap(j: nat, k: nat, b: nat)
    requires j < k
    ensures Off(j, b) + b <= Off(k, b)
    decreases k
  {
    if j + 1 < k {
      OffGap(j, k - 1, b);
    }
  }

  /** The number of the chunk that holds place p: p / b. */
  ghost function Quot(p: nat, b: nat): nat
    requires b > 0
    decreases p
  {
    if p < b then 0 else 1 + Quot(p - b, b)
  }

  lemma {:induction false} PlaceOf(k: nat, r: nat, b: nat)
    requires r < b
    ensures Quot(Off(k, b) + r, b) == k
    decreases k
  {
    if k != 0 {
      PlaceOf(k - 1, r, b);
    }
  }

  lemma {:induction false} QuotBound(p: nat, n: nat, b: nat)
    requires b > 0 && p < Off(n, b)
    ensures Quot(p, b) < n
    decreases n
  {
    if p >= b {
      QuotBound(p - b, n - 1, b);
    }
  }

  lemma SplitPlace(p: nat, b: nat)
    requires b > 0
    ensures Quot(p, b) == p / b
    ensures p == Off(p / b, b) + p % b && p % b < b
  {
    var k, r := p / b, p % b;
    OffIsProduct(k, b);
    assert p == k * b + r;
    PlaceOf(k, r, b);
  }

  function CeilDiv(a: nat, b: nat): nat
    requires b > 0
  {
    (a + b - 1) / b
  }

  lemma CeilDivBounds(a: nat, b: nat)
    requires b > 0
    ensures a <= Off(CeilDiv(a, b), b) < a + b
  {
    var p := a + b - 1;
    var q, r := p / b, p % b;
    SplitPlace(p, b);
    assert p == Off(q, b) + r && r < b && CeilDiv(a, b) == q;
  }

  /** A block list seen as one flat memory. */
  ghost function Flatten(bs: seq<seq<byte>>): seq<byte> {
    if bs == [] then [] else Flatten(bs[..|bs| - 1]) + bs[|bs| - 1]
  }

  ghost predicate Uniform(bs: seq<seq<byte>>, b: nat) {
    forall i :: 0 <= i < |bs| ==> |bs[i]| == b
  }

  lemma FlattenSnoc(bs: seq<seq<byte>>, x: seq<byte>)
    ensures Flatten(bs + [x]) == Flatten(bs) + x
  {
    assert (bs + [x])[..|bs|] == bs;
  }

  lemma {:induction false} FlattenLength(bs: seq<seq<byte>>, b: nat)
    requires Uniform(bs, b)
    ensures |Flatten(bs)| == Off(|bs|, b)
  {
    if bs != [] {
      FlattenLength(bs[..|bs| - 1], b);
    }
  }

  /** Chunk k is the stretch of b bytes from k * b on. */
  lemma {:induction false} FlattenChunk(bs: seq<seq<byte>>, b: nat, k: nat)
    requires Uniform(bs, b) && k < |bs|
    ensures Off(k, b) + b <= |Flatten(bs)|
    ensures Flatten(bs)[Off(k, b)..Off(k, b) + b] == bs[k]
  {
    var front := bs[..|bs| - 1];
    FlattenLength(front, b);
    if k < |front| {
      FlattenChunk(front, b, k);
    }
  }

  lemma FlattenFirst(bs: seq<seq<byte>>, b: nat)
    requires Uniform(bs, b) && |bs| > 0
    ensures b <= |Flatten(bs)| && Flatten(bs[..1]) == Flatten(bs)[..b]
  {
    FlattenChunk(bs, b, 0);
    assert bs[..1] == [] + [bs[0]];
    FlattenSnoc([], bs[0]);
  }

  /** Overwriting part of one chunk is overwriting that stretch of the flat memory. */
  lemma {:induction false} FlattenStore(bs: seq<seq<byte>>, b: nat, k: nat, o: nat, c: seq<byte>)
    requires Uniform(bs, b) && k < |bs| && o + |c| <= b
    ensures Off(k, b) + b <= |Flatten(bs)|
    ensures Flatten(bs[k := Splice(bs[k], o, c)]) == Splice(Flatten(bs), Off(k, b) + o, c)
  {
    var front, last := bs[..|bs| - 1], bs[|bs| - 1];
    FlattenLength(front, b);
    FlattenChunk(bs, b, k);
    var x := Splice(bs[k], o, c);
    if k < |front| {
      FlattenStore(front, b, k, o, c);
      StoreFront(bs, k, x, Flatten(front[k := x]));
      SpliceLeft(Flatten(front), last, Off(k, b) + o, c);
    } else {
      StoreLast(bs, x);
      SpliceRight(Flatten(front), last, o, c);
    }
  }

  lemma StoreFront(bs: seq<seq<byte>>, k: nat, x: seq<byte>, m: seq<byte>)
    requires k < |bs| - 1 && Flatten(bs[..|bs| - 1][k := x]) == m
    ensures Flatten(bs[k := x]) == m + bs[|bs| - 1]
  {
    var front := bs[..|bs| - 1][k := x];
    assert bs[k := x] == front + [bs[|bs| - 1]];
    FlattenSnoc(front, bs[|bs| - 1]);
  }

  lemma StoreLast(bs: seq<seq<byte>>, x: seq<byte>)
    requires bs != []
    ensures Flatten(bs[|bs| - 1 := x]) == Flatten(bs[..|bs| - 1]) + x
  {
    assert bs[|bs| - 1 := x] == bs[..|bs| - 1] + [x];
    FlattenSnoc(bs[..|bs| - 1], x);
  }

  lemma SpliceRight(m: seq<byte>, x: seq<byte>, o: nat, c: seq<byte>)
    requires o + |c| <= |x|
    ensures m + Splice(x, o, c) == Splice(m + x, |m| + o, c)
  {
  }

  lemma SliceSlice(m: seq<byte>, s: nat, b: nat, o: nat, k: nat)
    requires s + b <= |m| && o + k <= b
    ensures m[s..s + b][o..o + k] == m[s + o..s + o + k]
  {
    var x, y := m[s..s + b][o..o + k], m[s + o..s + o + k];
    assert |x| == |y| == k;
    forall i | 0 <= i < k ensures x[i] == y[i] { }
  }

  lemma SliceAppend(m: seq<byte>, p: nat, q: nat, r: nat)
    requires p <= q <= r <= |m|
    ensures m[p..q] + m[q..r] == m[p..r]
  {
  }

  lemma SpliceLeft(m: seq<byte>, x: seq<byte>, p: nat, c: seq<byte>)
    requires p + |c| <= |m|
    ensures Splice(m, p, c) + x == Splice(m + x, p, c)
  {
  }

  /** A list node; `ptr` is the number of its block. */
  class Node {
    const ptr: nat
    const size: nat
    var next: Node?

    constructor (block: nat, s: nat)
      ensures ptr == block && size == s && next == null
    {
      ptr, size, next := block, s, null;
    }
  }

  /** A piece of memory handed to readv/writev. */
  datatype IoVec = IoVec(block: nat, offset: nat, len: nat)

  class ByteArray {
    const baseSize: nat
    var position: nat
    var capacity: nat
    var size: nat
    var endian: Endian
    var root: Node
    var cur: Node?
    var blocks: seq<seq<byte>>   // the memory of the chunks, by block number
    ghost var nodes: seq<Node>   // the list from root on

    ghost function NodeAt(i: nat): Node?
      reads this`nodes
    {
      if i < |nodes| then nodes[i] else null
    }

    /** A null-terminated list of equal chunks, one block each. */
    ghost predicate Chain()
      reads this`nodes, this`root, nodes
    {
      && |nodes| > 0 && root == nodes[0]
      && forall i :: 0 <= i < |nodes| ==>
           nodes[i].ptr == i && nodes[i].size == baseSize && nodes[i].next == NodeAt(i + 1)
    }

    ghost predicate Shape()
      reads this`nodes, this`root, this`blocks, this`capacity, nodes
    {
      && baseSize > 0
      && Chain()
      && |blocks| == |nodes| && Uniform(blocks, baseSize)
      && capacity == Off(|nodes|, baseSize)
    }

    ghost predicate Valid()
      reads this, nodes
    {
      && Shape()
      && position <= size <= capacity
      && cur == NodeAt(Quot(position, baseSize))
    }

    ghost function View(): Flat
      reads this
    {
      Flat(Flatten(blocks), position, size)
    }

    constructor (base: nat)
      requires base > 0
      ensures Valid() && fresh(nodes[0]) && |nodes| == 1
      ensures baseSize == base && position == size == 0 && capacity == base && endian == Big
    {
      baseSize := base;
      position, capacity, size := 0, base, 0;
      endian := Big;
      root := new Node(0, base);
      cur := root;
      var block := new byte[base];
      blocks := [block[..]];
      new;
      nodes := [root];
    }

    /** The cursor is node number position/base, and null exactly at capacity. */
    lemma CursorAt(p: nat)
      requires Shape() && p <= capacity
      ensures Quot(p, baseSize) == p / baseSize
      ensures NodeAt(Quot(p, baseSize)) == null <==> p == capacity
      ensures p < capacity ==> Quot(p, baseSize) < |nodes|
      ensures p == capacity ==> Quot(p, baseSize) == |nodes|
      ensures p == Off(Quot(p, baseSize), baseSize) + p % baseSize && p % baseSize < baseSize
    {
      SplitPlace(p, baseSize);
      if p == capacity {
        PlaceOf(|nodes|, 0, baseSize);
      } else {
        QuotBound(p, |nodes|, baseSize);
      }
    }

    lemma FlatFacts()
      requires Valid()
      ensures View().Ok() && |View().mem| == capacity && |View().mem| % baseSize == 0
    {
      FlattenLength(blocks, baseSize);
      OffIsProduct(|nodes|, baseSize);
      ModUnique(capacity, baseSize, |nodes|, 0);
    }

    /** memcpy into the block of a chunk. */
    method Store(block: nat, o: nat, c: seq<byte>)
      requires Shape() && block < |nodes| && o + |c| <= baseSize
      modifies this`blocks
      ensures Shape()
      ensures Off(block, baseSize) + baseSize <= old(|Flatten(blocks)|)
      ensures Flatten(blocks) == Splice(old(Flatten(blocks)), Off(block, baseSize) + o, c)
    {
      FlattenStore(blocks, baseSize, block, o, c);
      blocks := blocks[block := Splice(blocks[block], o, c)];
    }

    /** Puts one fresh chunk, of arbitrary content, behind the last one. */
    method Append(last: Node) returns (n: Node)
      requires Shape() && last == nodes[|nodes| - 1]
      modifies this`nodes, this`blocks, this`capacity, last`next
      ensures Shape()
      ensures fresh(n)
      ensures nodes == old(nodes) + [n]
      ensures old(Flatten(blocks)) <= Flatten(blocks)
      ensures capacity == old(capacity) + baseSize
    {
      n := new Node(|blocks|, baseSize);
      var block := new byte[baseSize];
      FlattenSnoc(blocks, block[..]);
      assert Off(|nodes| + 1, baseSize) == Off(|nodes|, baseSize) + baseSize;
      last.next := n;
      nodes := nodes + [n];
      blocks := blocks + [block[..]];
      capacity := capacity + baseSize;
    }

    method FindLast() returns (tmp: Node)
      requires Chain()
      ensures tmp == nodes[|nodes| - 1]
    {
      tmp := root;
      while tmp.next != null
        invariant tmp in nodes
        decreases |nodes| - tmp.ptr
      {
        tmp := tmp.next;
      }
    }

    /** The allocation loop of addCapacity; `first` is the first fresh chunk. */
    method Extend(count: nat) returns (first: Node?)
      requires Shape()
      modifies this`nodes, this`blocks, this`capacity, nodes
      ensures Shape()
      ensures old(nodes) <= nodes && |nodes| == old(|nodes|) + count
      ensures forall m :: old(|nodes|) <= m < |nodes| ==> fresh(nodes[m])
      ensures old(Flatten(blocks)) <= Flatten(blocks) && capacity == old(capacity) + Off(count, baseSize)
      ensures first == if count == 0 then null else nodes[old(|nodes|)]
    {
      var tmp := FindLast();
      first := null;
      ghost var mem, n := Flatten(blocks), |nodes|;
      for i := 0 to count
        invariant Shape() && tmp == nodes[|nodes| - 1]
        invariant old(nodes) <= nodes && |nodes| == n + i
        invariant forall m :: n <= m < |nodes| ==> fresh(nodes[m])
        invariant mem <= Flatten(blocks) && capacity == old(capacity) + Off(i, baseSize)
        invariant first == if i == 0 then null else nodes[n]
      {
        var next := Append(tmp);
        if first == null {
          first := next;
        }
        tmp := next;
      }
    }

    method AddCapacity(n: nat)
      requires Valid()
      modifies this`nodes, this`blocks, this`capacity, this`cur, nodes
      ensures Valid() && old(nodes) <= nodes
      ensures forall m :: old(|nodes|) <= m < |nodes| ==> fresh(nodes[m])
      ensures GrowStep(old(View()), n, baseSize, View())
    {
      FlatFacts();
      var oldCap := capacity - position;
      if n == 0 || oldCap >= n {
        return;
      }
      var need := n - oldCap;
      var count := CeilDiv(need, baseSize);
      CeilDivBounds(need, baseSize);
      CursorAt(position);
      var first := Extend(count);
      if oldCap == 0 {
        cur := first;
      }
      FlatFacts();
    }

    /** Where the cursor stands after the last r bytes of a transfer inside node c. */
    lemma Advance(c: Node, r: nat)
      requires Shape() && c in nodes && r <= baseSize
      ensures Quot(Off(c.ptr, baseSize) + r, baseSize) == if r == baseSize then c.ptr + 1 else c.ptr
      ensures c == NodeAt(c.ptr) && c.next == NodeAt(c.ptr + 1)
    {
      if r == baseSize {
        PlaceOf(c.ptr + 1, 0, baseSize);
      } else {
        PlaceOf(c.ptr, r, baseSize);
      }
    }

    /** There is a next chunk as long as bytes are due beyond this one. */
    lemma NextExists(c: Node, end: nat)
      requires Shape() && c in nodes && Off(c.ptr, baseSize) + baseSize < end <= capacity
      ensures c.next != null && c.next in nodes && c.next.ptr == c.ptr + 1
    {
      assert Off(c.ptr + 1, baseSize) == Off(c.ptr, baseSize) + baseSize;
      assert c.next == NodeAt(c.ptr + 1);
    }

    lemma NextIndex(i: nat, end: nat)
      requires Shape() && i < |nodes| && Off(i, baseSize) + baseSize < end <= capacity
      ensures i + 1 < |nodes| && Off(i + 1, baseSize) == Off(i, baseSize) + baseSize
    {
      assert Off(i + 1, baseSize) == Off(i, baseSize) + baseSize;
    }

    /** The cursor stands in a chunk, npos bytes from its start. */
    ghost predicate Facing(npos: nat)
      reads this`cur, this`position, this`nodes
    {
      cur != null && cur in nodes && npos < baseSize && position == Off(cur.ptr, baseSize) + npos
    }

    method Offset() returns (npos: nat)
      requires Valid() && position < capacity
      ensures Facing(npos)
    {
      CursorAt(position);
      npos := position % baseSize;
    }

    /** How read and write move on: past the n bytes due, or to the start of the next chunk. */
    method Pass(npos: nat, n: nat) returns (npos': nat)
      requires Shape() && Facing(npos) && n > 0 && position + n <= capacity
      modifies this`position, this`cur
      ensures position == old(position) + Due(npos, n)
      ensures Due(npos, n) == n ==> cur == NodeAt(Quot(position, baseSize))
      ensures Due(npos, n) < n ==> Facing(npos')
      ensures Shape()
    {
      var ncap := cur.size - npos;
      if ncap >= n {
        npos' := npos;
        PassWithin(npos, n);
      } else {
        npos' := 0;
        PassOver(npos, n);
      }
    }

    /** The last bytes of a transfer lie in this chunk. */
    method PassWithin(npos: nat, n: nat)
      requires Shape() && Facing(npos) && n > 0 && npos + n <= baseSize
      modifies this`position, this`cur
      ensures position == old(position) + n && cur == NodeAt(Quot(position, baseSize))
    {
      Advance(cur, npos + n);
      if cur.size == npos + n {
        cur := cur.next;
      }
      position := position + n;
    }

    /** A transfer goes on in the next chunk. */
    method PassOver(npos: nat, n: nat)
      requires Shape() && Facing(npos) && npos + n > baseSize && position + n <= capacity
      modifies this`position, this`cur
      ensures position == old(position) + (baseSize - npos) && Facing(0)
    {
      NextExists(cur, position + n);
      position := position + (cur.size - npos);
      cur := cur.next;
    }

    /** How many of n bytes this chunk takes. */
    function Due(npos: nat, n: nat): nat
      requires npos < baseSize
    {
      if baseSize - npos >= n then n else baseSize - npos
    }

    /** One round of the copy loop of write. */
    method PutSome(npos: nat, rest: seq<byte>) returns (k: nat, npos': nat)
      requires Shape() && Facing(npos) && 0 < |rest| <= capacity - position
      modifies this`blocks, this`position, this`cur
      ensures Shape() && 0 < k <= |rest| && position == old(position) + k
      ensures position <= old(|Flatten(blocks)|)
      ensures Flatten(blocks) == Splice(old(Flatten(blocks)), old(position), rest[..k])
      ensures k < |rest| ==> Facing(npos')
      ensures k == |rest| ==> cur == NodeAt(Quot(position, baseSize))
    {
      k := Due(npos, |rest|);
      assert position == Off(cur.ptr, baseSize) + npos;
      Store(cur.ptr, npos, rest[..k]);
      npos' := Pass(npos, |rest|);
    }

    /** The same, in terms of the whole of what is written. */
    method PutNext(ghost mem: seq<byte>, ghost p: nat, buf: seq<byte>, bpos: nat, npos: nat)
      returns (bpos': nat, npos': nat)
      requires Shape() && Facing(npos) && bpos < |buf| && position == p + bpos
      requires p + |buf| <= capacity && p + |buf| <= |mem| && Flatten(blocks) == Splice(mem, p, buf[..bpos])
      modifies this`blocks, this`position, this`cur
      ensures Shape() && bpos < bpos' <= |buf| && position == p + bpos'
      ensures Flatten(blocks) == Splice(mem, p, buf[..bpos'])
      ensures bpos' < |buf| ==> Facing(npos')
      ensures bpos' == |buf| ==> cur == NodeAt(Quot(position, baseSize))
    {
      var k;
      k, npos' := PutSome(npos, buf[bpos..]);
      SpliceNext(mem, p, buf, bpos, k);
      bpos' := bpos + k;
    }

    /** The copy loop of write. */
    method CopyIn(buf: seq<byte>)
      requires Valid() && 0 < |buf| <= capacity - position
      modifies this`blocks, this`position, this`cur
      ensures Shape()
      ensures position == old(position) + |buf| && cur == NodeAt(Quot(position, baseSize))
      ensures old(position) + |buf| <= old(|Flatten(blocks)|)
      ensures Flatten(blocks) == Splice(old(Flatten(blocks)), old(position), buf)
    {
      ghost var mem, p := Flatten(blocks), position;
      FlatFacts();
      var npos := Offset();
      var bpos: nat := 0;
      SpliceNothing(mem, p, buf);
      while bpos < |buf|
        invariant Shape() && bpos <= |buf| && position == p + bpos
        invariant Flatten(blocks) == Splice(mem, p, buf[..bpos])
        invariant bpos < |buf| ==> Facing(npos)
        invariant bpos == |buf| ==> cur == NodeAt(Quot(position, baseSize))
      {
        bpos, npos := PutNext(mem, p, buf, bpos, npos);
      }
      assert buf[..bpos] == buf;
    }

    method Write(buf: seq<byte>)
      requires Valid()
      modifies this, nodes
      ensures Valid() && endian == old(endian) && old(nodes) <= nodes
      ensures forall m :: old(|nodes|) <= m < |nodes| ==> fresh(nodes[m])
      ensures WriteStep(old(View()), buf, baseSize, View())
    {
      ghost var f := View();
      FlatFacts();
      if |buf| == 0 {
        assert WriteVia(f, buf, baseSize, f, f);
        return;
      }
      AddCapacity(|buf|);
      ghost var g := View();
      FlatFacts();
      CopyIn(buf);
      if position > size {
        size := position;
      }
      assert WriteVia(f, buf, baseSize, g, View());
    }

    /** One round of the copy loop of read. */
    method GetSome(npos: nat, n: nat) returns (chunk: seq<byte>, npos': nat)
      requires Shape() && Facing(npos) && 0 < n <= capacity - position
      modifies this`position, this`cur
      ensures 0 < |chunk| <= n && position == old(position) + |chunk| <= |Flatten(blocks)|
      ensures chunk == Flatten(blocks)[old(position)..position]
      ensures |chunk| < n ==> Facing(npos')
      ensures |chunk| == n ==> cur == NodeAt(Quot(position, baseSize))
    {
      var k := Due(npos, n);
      FlattenChunk(blocks, baseSize, cur.ptr);
      chunk := blocks[cur.ptr][npos..npos + k];
      SliceSlice(Flatten(blocks), Off(cur.ptr, baseSize), baseSize, npos, k);
      npos' := Pass(npos, n);
    }

    /** The same, in terms of the whole of what is read. */
    method GetNext(ghost mem: seq<byte>, ghost p: nat, buf: seq<byte>, count: nat, npos: nat)
      returns (buf': seq<byte>, npos': nat)
      requires Shape() && Facing(npos) && |buf| < count && position == p + |buf| && mem == Flatten(blocks)
      requires p + count <= capacity && p + count <= |mem| && buf == mem[p..p + |buf|]
      modifies this`position, this`cur
      ensures |buf| < |buf'| <= count && position == p + |buf'| && buf' == mem[p..p + |buf'|]
      ensures |buf'| < count ==> Facing(npos')
      ensures |buf'| == count ==> cur == NodeAt(Quot(position, baseSize))
    {
      var chunk;
      chunk, npos' := GetSome(npos, count - |buf|);
      SliceAppend(mem, p, p + |buf|, position);
      buf' := buf + chunk;
    }

    /** The copy loop of read. */
    method CopyOut(count: nat) returns (buf: seq<byte>)
      requires Valid() && count <= size - position && position < capacity
      modifies this`position, this`cur
      ensures position == old(position) + count && cur == NodeAt(Quot(position, baseSize))
      ensures position <= |Flatten(blocks)| && buf == Flatten(blocks)[old(position)..position]
    {
      ghost var mem, p := Flatten(blocks), position;
      FlatFacts();
      var npos := Offset();
      buf := [];
      while |buf| < count
        invariant |buf| <= count && position == p + |buf|
        invariant buf == mem[p..p + |buf|]
        invariant |buf| < count ==> Facing(npos)
        invariant |buf| == count ==> cur == NodeAt(Quot(position, baseSize))
        decreases count - |buf|
      {
        buf, npos := GetNext(mem, p, buf, count, npos);
      }
    }

    method Read(n: nat) returns (r: ReadResult)
      requires Valid()
      modifies this`position, this`cur
      ensures Valid()
      ensures ReadStep(old(View()), n, r, View())
    {
      FlatFacts();
      CursorAt(position);
      if n > size - position {
        return OutOfRange;
      }
      if cur == null {
        return NullCursor;
      }
      var buf := CopyOut(n);
      r := Bytes(buf);
    }

    /** The search of setPosition: the chunk of the position, or the next one at its end. */
    method Seek(v: nat) returns (c: Node?)
      requires Shape() && v <= capacity
      ensures c == NodeAt(Quot(v, baseSize))
    {
      var w;
      c, w := SeekLoop(v);
      Advance(c, w);
      if w == c.size {
        c := c.next;
      }
    }

    method SeekLoop(v: nat) returns (c: Node, w: nat)
      requires Shape() && v <= capacity
      ensures c in nodes && w <= baseSize && v == Off(c.ptr, baseSize) + w
    {
      c, w := root, v;
      ghost var i: nat := 0;
      while w > c.size
        invariant i < |nodes| && c == nodes[i] && v == Off(i, baseSize) + w
        decreases w
      {
        NextIndex(i, v);
        w := w - c.size;
        c := c.next;
        i := i + 1;
      }
    }

    method SetPosition(v: nat) returns (ok: bool)
      requires Valid()
      modifies this`position, this`size, this`cur
      ensures Valid()
      ensures SeekStep(old(View()), v, ok, View())
    {
      FlatFacts();
      if v > capacity {
        return false;
      }
      position := v;
      if position > size {
        size := position;
      }
      cur := Seek(v);
      return true;
    }

    method Clear()
      requires Valid()
      modifies this, nodes
      ensures Valid() && endian == old(endian) && nodes == old(nodes[..1])
      ensures ClearStep(old(View()), baseSize, View())
    {
      FlattenFirst(blocks, baseSize);
      position, size := 0, 0;
      capacity := baseSize;
      cur := root;
      root.next := null;
      nodes := [root];
      blocks := blocks[..1];
    }

    /** The loop shared by getReadBuffers and getWriteBuffers: it walks the chunks without moving the cursor. */
    method NextBuffer(c: Node, npos: nat, left: nat, ghost q: nat) returns (v: IoVec, c': Node?, npos': nat)
      requires Shape() && c in nodes && npos < baseSize && q == Off(c.ptr, baseSize) + npos
      requires left > 0 && q + left <= capacity
      ensures 0 < v.len <= left && v.offset + v.len <= baseSize && v.block < |nodes| && Addr(v, baseSize) == q
      ensures v.len < left ==> c' != null && c' in nodes && npos' < baseSize
                               && q + v.len == Off(c'.ptr, baseSize) + npos'
    {
      var ncap := c.size - npos;
      if ncap >= left {
        v, c', npos' := IoVec(c.ptr, npos, left), c, npos;
      } else {
        NextExists(c, q + left);
        v, c', npos' := IoVec(c.ptr, npos, ncap), c.next, 0;
      }
    }

    method CollectBuffers(len: nat) returns (buffers: seq<IoVec>)
      requires Valid() && 0 < len <= capacity - position
      ensures Covers(buffers, position, position + len, baseSize, |nodes|)
    {
      var npos: nat := Offset();
      var c: Node? := cur;
      var left: nat := len;
      buffers := [];
      while left > 0
        invariant left <= len && Covers(buffers, position, position + len - left, baseSize, |nodes|)
        invariant left > 0 ==> c != null && c in nodes && npos < baseSize
        invariant left > 0 ==> position + len - left == Off(c.ptr, baseSize) + npos
        decreases left
      {
        var v;
        ghost var q := position + len - left;
        v, c, npos := NextBuffer(c, npos, left, q);
        CoversSnoc(buffers, position, q, baseSize, |nodes|, v);
        buffers := buffers + [v];
        left := left - v.len;
      }
    }

    method GetReadBuffers(len: nat) returns (buffers: seq<IoVec>, total: nat)
      requires Valid()
      ensures total == Min(len, size - position)
      ensures Covers(buffers, position, position + total, baseSize, |nodes|)
    {
      total := Min(len, size - position);
      if total == 0 {
        buffers := [];
      } else {
        buffers := CollectBuffers(total);
      }
    }

    method GetWriteBuffers(len: nat) returns (buffers: seq<IoVec>)
      requires Valid()
      modifies this`nodes, this`blocks, this`capacity, this`cur, nodes
      ensures Valid() && old(nodes) <= nodes
      ensures forall m :: old(|nodes|) <= m < |nodes| ==> fresh(nodes[m])
      ensures GrowStep(old(View()), len, baseSize, View())
      ensures Covers(buffers, position, position + len, baseSize, |nodes|)
    {
      FlatFacts();
      buffers := [];
      if len != 0 {
        AddCapacity(len);
        FlatFacts();
        buffers := CollectBuffers(len);
      }
    }

    /** Every chunk was there before or is fresh. */
    twostate predicate Renewed()
      reads this`nodes
    {
      forall i :: 0 <= i < |nodes| ==> nodes[i] in old(nodes) || fresh(nodes[i])
    }

    /** One client operation. */
    method Perform(op: Op) returns (out: Out)
      requires Valid()
      modifies this, nodes
      ensures Valid() && endian == old(endian)
      ensures Renewed()
      ensures Step(old(View()), op, baseSize, out, View())
    {
      match op
      case OpWrite(buf) =>
        Write(buf);
        out := Done;
      case OpRead(n) =>
        var r := Read(n);
        out := Got(r);
      case OpSeek(v) =>
        var ok := SetPosition(v);
        out := if ok then Done else Refused;
      case OpClear =>
        Clear();
        out := Done;
    }

    /** Any list of client operations on the chunk list is a run of the flat buffer. */
    method PerformAll(ops: seq<Op>) returns (outs: seq<Out>, ghost states: seq<Flat>)
      requires Valid()
      modifies this, nodes
      ensures Valid()
      ensures Run(states, ops, baseSize, outs)
      ensures states[0] == old(View()) && states[|ops|] == View()
    {
      outs, states := [], [View()];
      for i := 0 to |ops|
        invariant Valid() && Renewed()
        invariant |outs| == i && Run(states, ops[..i], baseSize, outs)
        invariant states[0] == old(View()) && states[i] == View()
      {
        var out := Perform(ops[i]);
        outs, states := outs + [out], states + [View()];
      }
      assert ops[..|ops|] == ops;
    }
  }

  /** The flat address of a buffer. */
  ghost function Addr(v: IoVec, b: nat): nat {
    Off(v.block, b) + v.offset
  }

  /** The buffers cover [p, q) in order, without gap or overlap, each inside one of n chunks. */
  ghost predicate Covers(vs: seq<IoVec>, p: nat, q: nat, b: nat, n: nat) {
    if vs == [] then p == q
    else
      && vs[0].len > 0 && vs[0].offset + vs[0].len <= b && vs[0].block < n
      && Addr(vs[0], b) == p
      && Covers(vs[1..], p + vs[0].len, q, b, n)
  }

  lemma {:induction false} CoversSnoc(vs: seq<IoVec>, p: nat, q: nat, b: nat, n: nat, v: IoVec)
    requires Covers(vs, p, q, b, n)
    requires v.len > 0 && v.offset + v.len <= b && v.block < n && Addr(v, b) == q
    ensures Covers(vs + [v], p, q + v.len, b, n)
  {
    if vs == [] {
      assert (vs + [v])[1..] == [];
    } else {
      CoversSnoc(vs[1..], p + vs[0].len, q, b, n, v);
      assert (vs + [v])[1..] == vs[1..] + [v];
    }
  }

  ghost function Hits(vs: seq<IoVec>, b: nat, a: nat): nat {
    if vs == [] then 0
    else (if Addr(vs[0], b) <= a < Addr(vs[0], b) + vs[0].len then 1 else 0) + Hits(vs[1..], b, a)
  }

  /** Every place of [p, q) lies in exactly one buffer, and no place outside lies in any. */
  lemma {:induction false} CoversOnce(vs: seq<IoVec>, p: nat, q: nat, b: nat, n: nat, a: nat)
    requires Covers(vs, p, q, b, n)
    ensures p <= q
    ensures Hits(vs, b, a) == if p <= a < q then 1 else 0
  {
    if vs != [] {
      CoversOnce(vs[1..], p + vs[0].len, q, b, n, a);
    }
  }

  /** What the buffers hold. */
  function Gather(bs: seq<seq<byte>>, vs: seq<IoVec>): seq<byte> {
    if vs == [] then []
    else
      var v := vs[0];
      var head := if v.block < |bs| && v.offset + v.len <= |bs[v.block]|
                  then bs[v.block][v.offset..v.offset + v.len] else [];
      head + Gather(bs, vs[1..])
  }

  /** Gathering the buffers reads exactly the flat range they cover. */
  lemma {:induction false} GatherIsSlice(bs: seq<seq<byte>>, vs: seq<IoVec>, p: nat, q: nat, b: nat)
    requires Uniform(bs, b) && Covers(vs, p, q, b, |bs|)
    ensures p <= q && (vs != [] ==> q <= |Flatten(bs)|)
    ensures vs != [] ==> Gather(bs, vs) == Flatten(bs)[p..q]
  {
    if vs != [] {
      var v, tail := vs[0], vs[1..];
      GatherIsSlice(bs, tail, p + v.len, q, b);
      HeadIsSlice(bs, v, b);
      GatherFirst(bs, vs, b);
      PutBefore(Flatten(bs), p, p + v.len, q, Gather(bs, tail));
    }
  }

  lemma GatherFirst(bs: seq<seq<byte>>, vs: seq<IoVec>, b: nat)
    requires Uniform(bs, b) && vs != [] && vs[0].block < |bs| && vs[0].offset + vs[0].len <= b
    ensures Gather(bs, vs) == bs[vs[0].block][vs[0].offset..vs[0].offset + vs[0].len] + Gather(bs, vs[1..])
  {
  }

  lemma PutBefore(m: seq<byte>, p: nat, k: nat, q: nat, g: seq<byte>)
    requires p <= k <= |m| && k <= q
    requires (k == q && g == []) || (q <= |m| && g == m[k..q])
    ensures q <= |m| && m[p..k] + g == m[p..q]
  {
  }

  lemma HeadIsSlice(bs: seq<seq<byte>>, v: IoVec, b: nat)
    requires Uniform(bs, b) && v.block < |bs| && v.offset + v.len <= b
    ensures Addr(v, b) + v.len <= |Flatten(bs)|
    ensures bs[v.block][v.offset..v.offset + v.len] == Flatten(bs)[Addr(v, b)..Addr(v, b) + v.len]
  {
    FlattenChunk(bs, b, v.block);
    SliceSlice(Flatten(bs), Off(v.block, b), b, v.offset, v.len);
  }
}
