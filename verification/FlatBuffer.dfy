/**
  The flat picture of a byte buffer: one run of memory, a position and a size.
  The step relations say what each buffer operation may do to it; `Vector` is
  the plain byte vector a client sees.
 */
module FlatBuffers {
  import opened Bits

  datatype ReadResult =
    | Bytes(bytes: seq<byte>)
    | OutOfRange     // std::out_of_range is thrown
    | NullCursor     // the null cursor is dereferenced

  /** The flat picture: `mem` holds every allocated byte, the first `size` of them are data. */
  datatype Flat = Flat(mem: seq<byte>, pos: nat, size: nat)
  {
    predicate Ok() {
      pos <= size <= |mem|
    }

    function Free(): nat
      requires Ok()
    {
      |mem| - pos
    }

    function Data(): seq<byte>
      requires Ok()
    {
      mem[..size]
    }
  }

  function Max(a: nat, b: nat): nat {
    if a < b then b else a
  }

  function Min(a: nat, b: nat): nat {
    if a < b then a else b
  }

  /** `m` with the bytes from p on overwritten by c. */
  function Splice(m: seq<byte>, p: nat, c: seq<byte>): (r: seq<byte>)
    requires p + |c| <= |m|
    ensures |r| == |m|
  {
    m[..p] + c + m[p + |c|..]
  }

  lemma SpliceAt(m: seq<byte>, p: nat, c: seq<byte>, i: nat)
    requires p + |c| <= |m| && i < |m|
    ensures Splice(m, p, c)[i] == if p <= i < p + |c| then c[i - p] else m[i]
  {
  }

  lemma SpliceTwice(m: seq<byte>, p: nat, a: seq<byte>, c: seq<byte>)
    requires p + |a| + |c| <= |m|
    ensures Splice(Splice(m, p, a), p + |a|, c) == Splice(m, p, a + c)
  {
    var s := Splice(m, p, a);
    assert s[..p + |a|] == m[..p] + a;
    assert s[p + |a| + |c|..] == m[p + |a| + |c|..];
  }

  lemma SpliceNothing(m: seq<byte>, p: nat, buf: seq<byte>)
    requires p <= |m|
    ensures Splice(m, p, buf[..0]) == m
  {
    assert buf[..0] == [];
  }

  lemma SpliceNext(m: seq<byte>, p: nat, buf: seq<byte>, j: nat, k: nat)
    requires p + |buf| <= |m| && j + k <= |buf|
    ensures Splice(Splice(m, p, buf[..j]), p + j, buf[j..][..k]) == Splice(m, p, buf[..j + k])
  {
    assert buf[..j] + buf[j..][..k] == buf[..j + k];
    SpliceTwice(m, p, buf[..j], buf[j..][..k]);
  }

  /** What growing to hold n more bytes may do to a flat buffer of chunk size `base`. */
  ghost predicate GrowStep(f: Flat, n: nat, base: nat, f': Flat) {
    && base > 0 && f.Ok() && f'.Ok()
    && f'.pos == f.pos && f'.size == f.size
    && f.mem <= f'.mem
    && (|f.mem| % base == 0 ==> |f'.mem| % base == 0)
    && if f.Free() >= n then f' == f else n <= f'.Free() < n + base
  }

  /** A write: grow if need be, then overwrite exactly [pos, pos + |buf|). */
  ghost predicate WriteStep(f: Flat, buf: seq<byte>, base: nat, f': Flat) {
    exists g: Flat :: WriteVia(f, buf, base, g, f')
  }

  ghost predicate WriteVia(f: Flat, buf: seq<byte>, base: nat, g: Flat, f': Flat) {
    && GrowStep(f, |buf|, base, g)
    && f' == Flat(Splice(g.mem, f.pos, buf), f.pos + |buf|, Max(f.size, f.pos + |buf|))
  }

  /** The capacity after writing up to `end`: as before if that is enough, else the next multiple of the chunk size. */
  predicate GrewTo(cap: nat, base: nat, end: nat, cap': nat) {
    base > 0 && cap' % base == 0 && if end <= cap then cap' == cap else end <= cap' < end + base
  }

  lemma WriteGrows(f: Flat, buf: seq<byte>, base: nat, f': Flat)
    requires WriteStep(f, buf, base, f') && |f.mem| % base == 0
    ensures GrewTo(|f.mem|, base, f'.pos, |f'.mem|)
  {
    var g: Flat :| WriteVia(f, buf, base, g, f');
  }

  lemma GrewTwice(cap: nat, base: nat, end: nat, cap1: nat, end': nat, cap2: nat)
    requires GrewTo(cap, base, end, cap1) && GrewTo(cap1, base, end', cap2) && end <= end'
    ensures GrewTo(cap, base, end', cap2)
  {
  }

  /** Writing ends exactly at the capacity if it ends with a chunk, not before the old capacity. */
  lemma EndsAtCapacityIff(cap: nat, base: nat, end: nat, cap': nat)
    requires GrewTo(cap, base, end, cap') && cap % base == 0
    ensures end == cap' <==> end % base == 0 && end >= cap
  {
    if end % base == 0 && end >= cap {
      SameMultiple(end / base, cap' / base, base);
      assert end == end / base * base && cap' == cap' / base * base;
    }
  }

  lemma SameMultiple(j: nat, k: nat, base: nat)
    requires base > 0 && j * base <= k * base < j * base + base
    ensures j == k
  {
    if j < k {
      Below(j, k, base);
      assert false;
    } else if k < j {
      Below(k, j, base);
      assert false;
    }
  }

  /** A read: out of range, or null exactly when no chunk is under the cursor, or the next n bytes. */
  ghost predicate ReadStep(f: Flat, n: nat, r: ReadResult, f': Flat) {
    && f.Ok()
    && if n > f.size - f.pos then r == OutOfRange && f' == f
       else if f.pos == |f.mem| then r == NullCursor && f' == f
       else r == Bytes(f.mem[f.pos..f.pos + n]) && f' == f.(pos := f.pos + n)
  }

  /** A seek: allowed up to the capacity; seeking past the data makes what lies between data. */
  ghost predicate SeekStep(f: Flat, v: nat, ok: bool, f': Flat) {
    && (ok <==> v <= |f.mem|)
    && f' == if ok then f.(pos := v, size := Max(f.size, v)) else f
  }

  ghost predicate ClearStep(f: Flat, base: nat, f': Flat) {
    && base <= |f.mem| && f' == Flat(f.mem[..base], 0, 0)
  }

  datatype Op = OpWrite(buf: seq<byte>) | OpRead(n: nat) | OpSeek(v: nat) | OpClear

  datatype Out = Done | Refused | Got(r: ReadResult)

  ghost predicate Step(f: Flat, op: Op, base: nat, out: Out, f': Flat) {
    match op
    case OpWrite(buf) => out == Done && WriteStep(f, buf, base, f')
    case OpRead(n) => out.Got? && ReadStep(f, n, out.r, f')
    case OpSeek(v) => out.Refused? != out.Done? && SeekStep(f, v, out == Done, f')
    case OpClear => out == Done && ClearStep(f, base, f')
  }

  /** A run: states[i] goes to states[i + 1] by ops[i] with answer outs[i]. */
  ghost predicate Run(states: seq<Flat>, ops: seq<Op>, base: nat, outs: seq<Out>) {
    && |states| == |ops| + 1 && |outs| == |ops|
    && forall i :: 0 <= i < |ops| ==> Step(states[i], ops[i], base, outs[i], states[i + 1])
  }

  ghost predicate Sound(f: Flat, base: nat) {
    base > 0 && f.Ok() && base <= |f.mem| && |f.mem| % base == 0
  }

  /** In every run the position stays within the data, the data within the capacity, and the capacity whole chunks. */
  lemma {:induction false} RunsStaySound(states: seq<Flat>, ops: seq<Op>, base: nat, outs: seq<Out>)
    requires Run(states, ops, base, outs) && Sound(states[0], base)
    ensures forall i :: 0 <= i < |states| ==> Sound(states[i], base)
  {
    for i := 0 to |ops|
      invariant forall j :: 0 <= j <= i ==> Sound(states[j], base)
    {
      StepStaysSound(states[i], ops[i], base, outs[i], states[i + 1]);
    }
  }

  lemma StepStaysSound(f: Flat, op: Op, base: nat, out: Out, f': Flat)
    requires Step(f, op, base, out, f') && Sound(f, base)
    ensures Sound(f', base)
  {
    match op
    case OpWrite(buf) =>
      var g: Flat :| WriteVia(f, buf, base, g, f');
    case OpClear =>
      ModUnique(base, base, 1, 0);
    case _ =>
  }

  /** The plain byte vector with a position that clients think they have. */
  datatype Vector = Vector(data: seq<byte>, pos: nat)

  ghost function Seen(f: Flat): Vector
    requires f.Ok()
  {
    Vector(f.Data(), f.pos)
  }

  /** Overwrite, or run over the end. */
  function Put(data: seq<byte>, p: nat, buf: seq<byte>): seq<byte>
    requires p <= |data|
  {
    data[..p] + buf + if p + |buf| < |data| then data[p + |buf|..] else []
  }

  /**
    Where the vector picture holds: not for a read of nothing with the cursor behind the last chunk, which crashes,
    nor for a seek past the data into allocated memory, which makes data of what lies there.
   */
  predicate Agrees(f: Flat, op: Op) {
    match op
    case OpRead(n) => n > 0 || f.pos < |f.mem|
    case OpSeek(q) => q <= f.size || q > |f.mem|
    case _ => true
  }

  function VectorStep(v: Vector, op: Op): (Vector, Out)
    requires v.pos <= |v.data|
  {
    match op
    case OpWrite(buf) => (Vector(Put(v.data, v.pos, buf), v.pos + |buf|), Done)
    case OpRead(n) =>
      if n > |v.data| - v.pos then (v, Got(OutOfRange))
      else (v.(pos := v.pos + n), Got(Bytes(v.data[v.pos..v.pos + n])))
    case OpSeek(q) => if q <= |v.data| then (v.(pos := q), Done) else (v, Refused)
    case OpClear => (Vector([], 0), Done)
  }

  lemma WriteSeen(f: Flat, buf: seq<byte>, base: nat, f': Flat)
    requires WriteStep(f, buf, base, f')
    ensures f.Ok() && f'.Ok() && Seen(f') == VectorStep(Seen(f), OpWrite(buf)).0
  {
    var g: Flat :| WriteVia(f, buf, base, g, f');
    Landed(f.mem, g.mem, f.pos, f.size, buf);
  }

  /** Bytes that land in grown memory overwrite the data or run over its end. */
  lemma Landed(m: seq<byte>, m': seq<byte>, p: nat, size: nat, buf: seq<byte>)
    requires m <= m' && p <= size <= |m| && p + |buf| <= |m'|
    ensures Splice(m', p, buf)[..Max(size, p + |buf|)] == Put(m[..size], p, buf)
  {
    assert m'[..size] == m[..size];
  }

  /** An operation answers as the vector does, and leaves what the vector does, exactly where it agrees. */
  lemma StepSeen(f: Flat, op: Op, base: nat, out: Out, f': Flat)
    requires Step(f, op, base, out, f') && Sound(f, base)
    ensures f'.Ok()
    ensures (Seen(f'), out) == VectorStep(Seen(f), op) <==> Agrees(f, op)
    ensures out == VectorStep(Seen(f), op).1 <==> Agrees(f, op)
  {
    match op
    case OpWrite(buf) => WriteSeen(f, buf, base, f');
    case OpRead(n) =>
      if n <= f.size - f.pos {
        DataSlice(f, n);
      }
    case _ =>
  }

  lemma DataSlice(f: Flat, n: nat)
    requires f.Ok() && f.pos + n <= f.size
    ensures f.mem[f.pos..f.pos + n] == f.Data()[f.pos..f.pos + n]
  {
    var x, y := f.mem[f.pos..f.pos + n], f.Data()[f.pos..f.pos + n];
    forall i | 0 <= i < n ensures x[i] == y[i] { }
  }

  /** The answers of the vector to a list of operations, as long as they are plain. */
  function VectorRun(v: Vector, ops: seq<Op>): (r: (Vector, seq<Out>))
    requires v.pos <= |v.data|
    ensures r.0.pos <= |r.0.data|
    decreases |ops|
  {
    if ops == [] then (v, [])
    else
      var (w, out) := VectorStep(v, ops[0]);
      var (z, outs) := VectorRun(w, ops[1..]);
      (z, [out] + outs)
  }

  /**
    Over whole runs: the answers are those of the plain vector exactly if every operation agrees with it where it is
    carried out, and then the data and the position are the vector's too.
   */
  lemma {:induction false} RunRefinesVector(states: seq<Flat>, ops: seq<Op>, base: nat, outs: seq<Out>)
    requires Run(states, ops, base, outs) && Sound(states[0], base)
    ensures states[|ops|].Ok()
    ensures outs == VectorRun(Seen(states[0]), ops).1 <==> AllAgree(states, ops)
    ensures outs == VectorRun(Seen(states[0]), ops).1 ==> Seen(states[|ops|]) == VectorRun(Seen(states[0]), ops).0
    decreases |ops|
  {
    if ops != [] {
      var v, ss, more := Seen(states[0]), states[1..], ops[1..];
      StepSeen(states[0], ops[0], base, outs[0], states[1]);
      StepStaysSound(states[0], ops[0], base, outs[0], states[1]);
      RunRefinesVector(ss, more, base, outs[1..]);
      assert outs == [outs[0]] + outs[1..];
      assert VectorRun(v, ops).1[0] == VectorStep(v, ops[0]).1;
      assert VectorRun(v, ops).1[1..] == VectorRun(VectorStep(v, ops[0]).0, more).1;
      AllAgreeSplit(states, ops);
    }
  }

  ghost predicate AllAgree(states: seq<Flat>, ops: seq<Op>) {
    |states| == |ops| + 1 && forall i :: 0 <= i < |ops| ==> Agrees(states[i], ops[i])
  }

  lemma AllAgreeSplit(states: seq<Flat>, ops: seq<Op>)
    requires |states| == |ops| + 1 && ops != []
    ensures AllAgree(states, ops) <==> Agrees(states[0], ops[0]) && AllAgree(states[1..], ops[1..])
  {
    var ss, more := states[1..], ops[1..];
    assert forall i :: 0 <= i < |more| ==> ss[i] == states[i + 1] && more[i] == ops[i + 1];
    assert forall i :: 0 < i < |ops| ==> states[i] == ss[i - 1] && ops[i] == more[i - 1];
  }

  /** Two bytes written, then a seek to the fourth of an eight-byte chunk: two bytes appear that nobody wrote. */
  lemma SeekPastDataDiffers() returns (f: Flat, f': Flat)
    ensures Sound(f, 8) && Step(f, OpSeek(4), 8, Done, f') && |f.Data()| == 2 && |f'.Data()| == 4
    ensures VectorStep(Seen(f), OpSeek(4)) == (Seen(f), Refused)
  {
    f := Flat([1, 2, 9, 9, 9, 9, 9, 9], 2, 2);
    f' := f.(pos := 4, size := 4);
  }

  /** Read back what was written. */
  lemma WriteThenRead(f: Flat, buf: seq<byte>, base: nat, f1: Flat, f2: Flat, r: ReadResult, f3: Flat)
    requires WriteStep(f, buf, base, f1) && SeekStep(f1, f.pos, true, f2) && ReadStep(f2, |buf|, r, f3)
    requires buf != []
    ensures r == Bytes(buf) && f3 == f1
  {
    var g: Flat :| WriteVia(f, buf, base, g, f1);
  }
}
