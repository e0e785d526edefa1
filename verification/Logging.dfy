/** logging.c: length-framed log records in a circular byte array. */
module Logging {
  import opened Bytes

  type Log = d: seq<byte> | |d| < 0x1_0000

  /** The fields of `logRingBuffer_t`; the ring size is the length of `buf`. */
  datatype Ring = Ring(buf: seq<byte>, in_: nat, out: nat, space: u32) {
    predicate Shape() { 2 <= |buf| < 0x1_0000_0000 && in_ < |buf| && out < |buf| }
  }

  // ---- Going round, any number of times ----

  /** The index k places after pos in a ring of n bytes. */
  function Walk(n: nat, pos: nat, k: nat): (i: nat)
    requires pos < n
    ensures i < n
  {
    if k == 0 then pos
    else
      var i := Walk(n, pos, k - 1) + 1;
      if i == n then 0 else i
  }

  function WriteOn(buf: seq<byte>, pos: nat, data: seq<byte>): (r: seq<byte>)
    requires pos < |buf|
    ensures |r| == |buf|
  {
    if data == [] then buf
    else
      var k := |data| - 1;
      WriteOn(buf, pos, data[..k])[Walk(|buf|, pos, k) := data[k]]
  }

  function ReadOn(buf: seq<byte>, pos: nat, k: nat): (r: seq<byte>)
    requires pos < |buf|
    ensures |r| == k
  {
    if k == 0 then [] else ReadOn(buf, pos, k - 1) + [buf[Walk(|buf|, pos, k - 1)]]
  }

  // ---- Going round at most once ----

  /** Index i of a ring of n bytes, for i < 2n. */
  function Wrap(n: nat, i: nat): nat { if i < n then i else i - n }

  lemma {:induction false} WalkIsWrap(n: nat, pos: nat, k: nat)
    requires pos < n && k <= n
    ensures Walk(n, pos, k) == Wrap(n, pos + k)
  {
    if k == 0 {
    } else {
      WalkIsWrap(n, pos, k - 1);
    }
  }

  /** `(i + k) % n` for the one or two bytes of the header. */
  lemma {:induction false} WalkIsMod(n: nat, i: nat, k: nat)
    requires i < n && n >= 2 && k <= 2
    ensures Walk(n, i, k) == (i + k) % n
  {
    WalkIsWrap(n, i, k);
    WrapIsMod(n, i + k);
  }

  lemma WrapIsMod(n: nat, i: nat)
    requires i < 2 * n
    ensures Wrap(n, i) == i % n
  {
  }

  /** A 32-bit counter after k increments. */
  function Plus(x: u32, k: nat): u32 {
    if k == 0 then x
    else
      var y := Plus(x, k - 1);
      if y == 0xFFFF_FFFF then 0 else y + 1
  }

  lemma {:induction false} PlusSmall(x: u32, k: nat)
    requires x + k < 0x1_0000_0000
    ensures Plus(x, k) == x + k
  {
    if k == 0 {
    } else {
      PlusSmall(x, k - 1);
    }
  }

  /** Steps from `pos` forward to index p. */
  function Dist(n: nat, pos: nat, p: nat): nat
    requires pos < n && p < n
  {
    if p >= pos then p - pos else p + n - pos
  }

  function CycWrite(buf: seq<byte>, pos: nat, data: seq<byte>): (r: seq<byte>)
    requires pos < |buf| && |data| <= |buf|
    ensures |r| == |buf|
  {
    seq(|buf|, p requires 0 <= p < |buf| =>
      if Dist(|buf|, pos, p) < |data| then data[Dist(|buf|, pos, p)] else buf[p])
  }

  function CycRead(buf: seq<byte>, pos: nat, n: nat): (r: seq<byte>)
    requires pos < |buf| && n <= |buf|
    ensures |r| == n
  {
    seq(n, j requires 0 <= j < n => buf[Wrap(|buf|, pos + j)])
  }

  lemma {:induction false} WriteOnIsCyc(buf: seq<byte>, pos: nat, data: seq<byte>)
    requires pos < |buf| && |data| <= |buf|
    ensures WriteOn(buf, pos, data) == CycWrite(buf, pos, data)
  {
    if data == [] {
    } else {
      var k := |data| - 1;
      WriteOnIsCyc(buf, pos, data[..k]);
      WalkIsWrap(|buf|, pos, k);
      forall p | 0 <= p < |buf|
        ensures WriteOn(buf, pos, data)[p] == CycWrite(buf, pos, data)[p]
      {
        assert Dist(|buf|, pos, p) == k <==> p == Wrap(|buf|, pos + k);
      }
    }
  }

  lemma {:induction false} ReadOnIsCyc(buf: seq<byte>, pos: nat, k: nat)
    requires pos < |buf| && k <= |buf|
    ensures ReadOn(buf, pos, k) == CycRead(buf, pos, k)
  {
    if k == 0 {
    } else {
      ReadOnIsCyc(buf, pos, k - 1);
      WalkIsWrap(|buf|, pos, k - 1);
    }
  }

  lemma {:induction false} WriteOnNext(buf: seq<byte>, pos: nat, data: seq<byte>, k: nat)
    requires pos < |buf| && k < |data|
    ensures WriteOn(buf, pos, data[..k + 1]) == WriteOn(buf, pos, data[..k])[Walk(|buf|, pos, k) := data[k]]
  {
    assert data[..k + 1][..k] == data[..k];
  }

  /** A record is stored after its length, high byte first. */
  function Frame(d: Log): seq<byte> { [Hi(|d|), Lo(|d|)] + d }

  /** The layout of a frame, byte for byte: the length high byte first, then the record. */
  lemma FrameLayout(d: Log)
    ensures |Frame(d)| == 2 + |d| && Frame(d)[2..] == d
    ensures 256 * (Frame(d)[0] as int) + (Frame(d)[1] as int) == |d|
  {
  }

  function Frames(q: seq<Log>): seq<byte> {
    if q == [] then [] else Frame(q[0]) + Frames(q[1..])
  }

  function Payload(q: seq<Log>): nat {
    if q == [] then 0 else |q[0]| + Payload(q[1..])
  }

  // ---- RingLogAdd and RingLogConsume on values ----

  /** The test of RingLogAdd. */
  predicate Accepts(r: Ring, d: Log) { r.space >= |d| + 2 }

  function RingAdd(r: Ring, d: Log): Ring
    requires r.Shape()
  {
    if Accepts(r, d)
    then Ring(WriteOn(r.buf, r.in_, Frame(d)), Walk(|r.buf|, r.in_, 2 + |d|), r.out, r.space - |d|)
    else r
  }

  /** The record length stored at `out`. */
  function HeadLength(r: Ring): u16
    requires r.Shape()
  {
    U16(r.buf[Walk(|r.buf|, r.out, 1)], r.buf[r.out])
  }

  /** Reads as many bytes as the stored length says, however many those are; the space is a 32-bit count. */
  function RingConsume(r: Ring, capacity: u16): (Ring, seq<byte>)
    requires r.Shape()
  {
    if r.space == |r.buf| || HeadLength(r) > capacity then (r, [])
    else
      var n := HeadLength(r);
      (Ring(r.buf, r.in_, Walk(|r.buf|, Walk(|r.buf|, r.out, 2), n), Plus(r.space, n)),
       ReadOn(r.buf, Walk(|r.buf|, r.out, 2), n))
  }

  // ---- The code ----

  class LogRing {
    const buffer: array<byte>
    var in_: nat
    var out: nat
    var spaceLeft: u32

    constructor (size: u32)
      requires size >= 2
      ensures buffer.Length == size && fresh(buffer)
      ensures State() == EmptyRing(buffer[..])
    {
      buffer := new byte[size];
      in_, out, spaceLeft := 0, 0, size;
    }

    ghost function State(): Ring
      reads this, buffer
    {
      Ring(buffer[..], in_, out, spaceLeft)
    }

    /** The length of a record, high byte first. */
    method WriteLength(size: u16)
      requires State().Shape()
      modifies buffer, this`in_
      ensures buffer[..] == WriteOn(old(buffer[..]), old(in_), [Hi(size), Lo(size)])
      ensures in_ == Walk(buffer.Length, old(in_), 2)
    {
      WriteHeader(buffer[..], in_, Hi(size), Lo(size));
      buffer[in_] := Hi(size);
      buffer[(in_ + 1) % buffer.Length] := Lo(size);
      WalkIsMod(buffer.Length, in_, 2);
      in_ := (in_ + 2) % buffer.Length;
    }

    method Add(data: Log) returns (added: bool)
      requires State().Shape()
      modifies buffer, this`in_, this`spaceLeft
      ensures added == Accepts(old(State()), data)
      ensures State() == RingAdd(old(State()), data) && State().Shape()
    {
      added := false;
      var n := buffer.Length;
      if spaceLeft >= |data| + 2 {
        ghost var start, f := in_, Frame(data);
        assert f[..2] == [Hi(|data|), Lo(|data|)];
        WriteLength(|data|);
        for i := 0 to |data|
          invariant in_ == Walk(n, start, 2 + i) && in_ < n
          invariant spaceLeft == old(spaceLeft) - i
          invariant buffer[..] == WriteOn(old(buffer[..]), start, f[..2 + i])
        {
          WriteOnNext(old(buffer[..]), start, f, 2 + i);
          buffer[in_] := data[i];
          in_ := in_ + 1;
          if in_ == n {
            in_ := 0;
          }
          spaceLeft := spaceLeft - 1;
        }
        assert f[..2 + |data|] == f;
        added := true;
      }
    }

    method ReadLength() returns (length: u16)
      requires State().Shape()
      ensures length == HeadLength(State())
    {
      WalkIsMod(buffer.Length, out, 1);
      length := U16(buffer[(out + 1) % buffer.Length], buffer[out]);
    }

    method Consume(bufferOut: array<byte>, capacity: u16) returns (length: nat)
      requires State().Shape() && bufferOut != buffer && capacity <= bufferOut.Length
      modifies bufferOut, this`out, this`spaceLeft
      ensures length <= bufferOut.Length
      ensures (State(), bufferOut[..length]) == RingConsume(old(State()), capacity) && State().Shape()
    {
      var n := buffer.Length;
      length := 0;
      if spaceLeft == n {
        return;
      }
      length := ReadLength();
      if length > capacity {
        length := 0;
        return;
      }
      WalkIsMod(n, out, 2);
      out := (out + 2) % n;
      CopyRecord(bufferOut, length);
    }

    /** The loop of RingLogConsume. */
    method CopyRecord(bufferOut: array<byte>, length: nat)
      requires State().Shape() && bufferOut != buffer && length <= bufferOut.Length
      modifies bufferOut, this`out, this`spaceLeft
      ensures out == Walk(buffer.Length, old(out), length) && spaceLeft == Plus(old(spaceLeft), length)
      ensures bufferOut[..length] == ReadOn(buffer[..], old(out), length)
    {
      var n := buffer.Length;
      for i := 0 to length
        invariant out == Walk(n, old(out), i) && out < n && spaceLeft == Plus(old(spaceLeft), i)
        invariant bufferOut[..i] == ReadOn(buffer[..], old(out), i)
      {
        bufferOut[i] := buffer[out];
        out := out + 1;
        if out == n {
          out := 0;
        }
        spaceLeft := if spaceLeft == 0xFFFF_FFFF then 0 else spaceLeft + 1;
      }
    }
  }

  /** After RingInit, whatever the bytes are. */
  function EmptyRing(buf: seq<byte>): Ring
    requires |buf| < 0x1_0000_0000
  {
    Ring(buf, 0, 0, |buf|)
  }

  lemma {:induction false} WriteHeader(buf: seq<byte>, pos: nat, hi: byte, lo: byte)
    requires pos < |buf| && |buf| >= 2
    ensures WriteOn(buf, pos, [hi, lo]) == buf[pos := hi][(pos + 1) % |buf| := lo]
  {
    WalkIsMod(|buf|, pos, 1);
    assert [hi, lo][..1] == [hi] && [hi][..0] == [];
    assert WriteOn(buf, pos, [hi]) == WriteOn(buf, pos, [hi][..0])[Walk(|buf|, pos, 0) := hi];
  }

  lemma EmptyRepresents(buf: seq<byte>)
    requires 2 <= |buf| < 0x1_0000_0000
    ensures Represents(EmptyRing(buf), [])
  {
  }

  // ---- The ring as a queue ----

  /** The ring holds exactly the records of `q`, oldest at `out`. */
  ghost predicate Represents(r: Ring, q: seq<Log>) {
    && r.Shape()
    && (forall i :: 0 <= i < |q| ==> q[i] != [])
    && |Frames(q)| <= |r.buf|
    && CycRead(r.buf, r.out, |Frames(q)|) == Frames(q)
    && r.in_ == Wrap(|r.buf|, r.out + |Frames(q)|)
    && r.space == |r.buf| - Payload(q)
  }

  lemma {:induction false} FramesAppend(q: seq<Log>, d: Log)
    ensures Frames(q + [d]) == Frames(q) + Frame(d)
    ensures Payload(q + [d]) == Payload(q) + |d|
  {
    if q == [] {
      assert q + [d] == [d] && [d][1..] == [];
      Units(Frame(d));
    } else {
      FramesAppend(q[1..], d);
      assert (q + [d])[1..] == q[1..] + [d];
      Assoc(Frame(q[0]), Frames(q[1..]), Frame(d));
    }
  }

  lemma {:induction false} FramedSize(q: seq<Log>)
    ensures |Frames(q)| == Payload(q) + 2 * |q|
  {
    if q == [] {
    } else {
      FramedSize(q[1..]);
    }
  }

  /** A write after what is stored leaves it in place and follows it. */
  lemma {:induction false} WriteAfter(buf: seq<byte>, out: nat, stored: nat, data: seq<byte>)
    requires out < |buf| && stored + |data| <= |buf| && stored < |buf|
    ensures var w := CycWrite(buf, Wrap(|buf|, out + stored), data);
            CycRead(w, out, stored + |data|) == CycRead(buf, out, stored) + data
  {
    var n, pos := |buf|, Wrap(|buf|, out + stored);
    var w := CycWrite(buf, pos, data);
    forall j | 0 <= j < stored + |data|
      ensures CycRead(w, out, stored + |data|)[j] == (CycRead(buf, out, stored) + data)[j]
    {
      if j < stored {
        assert Dist(n, pos, Wrap(n, out + j)) >= |data|;
      } else {
        assert Dist(n, pos, Wrap(n, out + j)) == j - stored;
      }
    }
  }

  /** A frame no longer than the ring goes round at most once. */
  lemma {:induction false} AddIsCyclic(r: Ring, d: Log)
    requires r.Shape() && Accepts(r, d) && 2 + |d| <= |r.buf|
    ensures RingAdd(r, d) ==
            Ring(CycWrite(r.buf, r.in_, Frame(d)), Wrap(|r.buf|, r.in_ + 2 + |d|), r.out, r.space - |d|)
  {
    WriteOnIsCyc(r.buf, r.in_, Frame(d));
    WalkIsWrap(|r.buf|, r.in_, 2 + |d|);
  }

  /** An accepted record that fits with its header joins the end of the queue. */
  lemma {:induction false} AddRepresents(r: Ring, q: seq<Log>, d: Log)
    requires Represents(r, q) && d != [] && Accepts(r, d)
    requires |Frames(q)| + 2 + |d| <= |r.buf|
    ensures Represents(RingAdd(r, d), q + [d])
  {
    FramesAppend(q, d);
    AddIsCyclic(r, d);
    WriteAfter(r.buf, r.out, |Frames(q)|, Frame(d));
  }

  /** Reading in two parts. */
  lemma {:induction false} ReadParts(buf: seq<byte>, pos: nat, a: nat, b: nat)
    requires pos < |buf| && a + b <= |buf|
    ensures CycRead(buf, pos, a + b) == CycRead(buf, pos, a) + CycRead(buf, Wrap(|buf|, pos + a), b)
  {
    var x, y := CycRead(buf, pos, a), CycRead(buf, Wrap(|buf|, pos + a), b);
    forall j | 0 <= j < a + b
      ensures CycRead(buf, pos, a + b)[j] == (x + y)[j]
    {
      assert j >= a ==> Wrap(|buf|, Wrap(|buf|, pos + a) + (j - a)) == Wrap(|buf|, pos + j);
    }
  }

  /** The oldest record: its length where the code looks for it, its bytes, and what follows. */
  lemma {:induction false} HeadOfRing(r: Ring, d: Log, rest: seq<byte>)
    requires r.Shape() && 2 + |d| + |rest| <= |r.buf|
    requires CycRead(r.buf, r.out, 2 + |d| + |rest|) == Frame(d) + rest
    ensures HeadLength(r) == |d|
    ensures CycRead(r.buf, Wrap(|r.buf|, r.out + 2), |d|) == d
    ensures CycRead(r.buf, Wrap(|r.buf|, r.out + 2 + |d|), |rest|) == rest
  {
    var head := [Hi(|d|), Lo(|d|)];
    ReadParts(r.buf, r.out, 2 + |d|, |rest|);
    SamePrefix(CycRead(r.buf, r.out, 2 + |d|), CycRead(r.buf, Wrap(|r.buf|, r.out + 2 + |d|), |rest|), Frame(d), rest);
    ReadParts(r.buf, r.out, 2, |d|);
    SamePrefix(CycRead(r.buf, r.out, 2), CycRead(r.buf, Wrap(|r.buf|, r.out + 2), |d|), head, d);
    var two := CycRead(r.buf, r.out, 2);
    assert two[0] == r.buf[Wrap(|r.buf|, r.out + 0)] && two[1] == r.buf[Wrap(|r.buf|, r.out + 1)];
    WalkIsWrap(|r.buf|, r.out, 1);
    U16RoundTrip(|d|);
  }

  lemma {:induction false} SamePrefix<T>(a: seq<T>, b: seq<T>, c: seq<T>, d: seq<T>)
    requires a + b == c + d && |a| == |c|
    ensures a == c && b == d
  {
    assert a == (a + b)[..|a|] && c == (c + d)[..|c|];
    assert b == (a + b)[|a|..] && d == (c + d)[|c|..];
  }

  /** Consuming hands out the oldest record whole, unless the reader's buffer is too small for it. */
  lemma {:induction false} ConsumeRepresents(r: Ring, q: seq<Log>, capacity: u16)
    requires Represents(r, q)
    ensures var (r', d) := RingConsume(r, capacity);
            && |r'.buf| == |r.buf|
            && if q == [] || |q[0]| > capacity then r' == r && d == []
               else d == q[0] && Represents(r', q[1..])
  {
    if q == [] {
    } else {
      var n, k := |r.buf|, |q[0]|;
      FramedSize(q);
      HeadOfRing(r, q[0], Frames(q[1..]));
      if k <= capacity {
        ConsumeIsCyclic(r, k, capacity);
        WrapTwice(n, r.out, 2 + k, |Frames(q[1..])|);
      }
    }
  }

  lemma {:induction false} ConsumeIsCyclic(r: Ring, n: nat, capacity: u16)
    requires r.Shape() && HeadLength(r) == n <= capacity && 2 + n <= |r.buf| && r.space + n <= |r.buf| && n > 0
    ensures RingConsume(r, capacity) ==
            (Ring(r.buf, r.in_, Wrap(|r.buf|, r.out + 2 + n), r.space + n),
             CycRead(r.buf, Wrap(|r.buf|, r.out + 2), n))
  {
    WalkIsWrap(|r.buf|, r.out, 2);
    WalkIsWrap(|r.buf|, Walk(|r.buf|, r.out, 2), n);
    ReadOnIsCyc(r.buf, Walk(|r.buf|, r.out, 2), n);
    WrapTwice(|r.buf|, r.out, 2, n);
    PlusSmall(r.space, n);
  }

  lemma WrapTwice(n: nat, pos: nat, a: nat, b: nat)
    requires pos < n && a + b <= n
    ensures Wrap(n, Wrap(n, pos + a) + b) == Wrap(n, pos + a + b)
  {
  }

  // ---- Runs ----

  datatype Op = Add(data: Log) | Consume(capacity: u16)

  datatype Answer = Added(ok: bool) | Got(data: seq<byte>)

  /** A queue with the ring's acceptance test. */
  function QueueStep(q: seq<Log>, size: nat, op: Op): (seq<Log>, Answer) {
    match op
    case Add(d) => if Payload(q) + |d| + 2 <= size then (q + [d], Added(true)) else (q, Added(false))
    case Consume(capacity) => if q == [] || |q[0]| > capacity then (q, Got([])) else (q[1..], Got(q[0]))
  }

  function QueueRun(q: seq<Log>, size: nat, ops: seq<Op>): (seq<Log>, seq<Answer>)
    decreases |ops|
  {
    if ops == [] then (q, [])
    else
      var (q1, a) := QueueStep(q, size, ops[0]);
      var (q2, as_) := QueueRun(q1, size, ops[1..]);
      (q2, [a] + as_)
  }

  /** The capacity hypothesis: no record is empty, and outstanding records with their headers fit the ring. */
  predicate Within(q: seq<Log>, size: nat, ops: seq<Op>)
    decreases |ops|
  {
    ops != [] ==>
      && (ops[0].Add? ==> ops[0].data != [])
      && |Frames(QueueStep(q, size, ops[0]).0)| <= size
      && Within(QueueStep(q, size, ops[0]).0, size, ops[1..])
  }

  function RingStep(r: Ring, op: Op): (result: (Ring, Answer))
    requires r.Shape()
    ensures result.0.Shape() && |result.0.buf| == |r.buf|
  {
    match op
    case Add(d) => (RingAdd(r, d), Added(Accepts(r, d)))
    case Consume(capacity) =>
      var (r', d) := RingConsume(r, capacity);
      (r', Got(d))
  }

  lemma {:induction false} StepRepresents(r: Ring, q: seq<Log>, op: Op)
    requires Represents(r, q) && (op.Add? ==> op.data != [])
    requires |Frames(QueueStep(q, |r.buf|, op).0)| <= |r.buf|
    ensures RingStep(r, op).1 == QueueStep(q, |r.buf|, op).1
    ensures Represents(RingStep(r, op).0, QueueStep(q, |r.buf|, op).0)
  {
    ConsumeRepresents(r, q, if op.Consume? then op.capacity else 0);
    if op.Add? && Accepts(r, op.data) {
      FramesAppend(q, op.data);
      AddRepresents(r, q, op.data);
    }
  }

  function RingRun(r: Ring, ops: seq<Op>): (Ring, seq<Answer>)
    requires r.Shape()
    decreases |ops|
  {
    if ops == [] then (r, [])
    else
      var (r1, a) := RingStep(r, ops[0]);
      var (r2, as_) := RingRun(r1, ops[1..]);
      (r2, [a] + as_)
  }

  /** The framed ring is a FIFO on every run within its capacity, at every wrap position. */
  lemma {:induction false} RingIsFifo(r: Ring, q: seq<Log>, ops: seq<Op>)
    requires Represents(r, q) && Within(q, |r.buf|, ops)
    ensures RingRun(r, ops).1 == QueueRun(q, |r.buf|, ops).1
    ensures Represents(RingRun(r, ops).0, QueueRun(q, |r.buf|, ops).0)
    decreases |ops|
  {
    if ops == [] {
    } else {
      StepRepresents(r, q, ops[0]);
      RingIsFifo(RingStep(r, ops[0]).0, QueueStep(q, |r.buf|, ops[0]).0, ops[1..]);
    }
  }

  function Accepted(ops: seq<Op>, answers: seq<Answer>): seq<seq<byte>>
    requires |ops| == |answers|
  {
    if ops == [] then []
    else (if ops[0].Add? && answers[0] == Added(true) then [ops[0].data] else []) + Accepted(ops[1..], answers[1..])
  }

  function Taken(answers: seq<Answer>): seq<seq<byte>> {
    if answers == [] then []
    else (if answers[0].Got? && answers[0].data != [] then [answers[0].data] else []) + Taken(answers[1..])
  }

  /** What is taken, followed by what remains, is what was there followed by what was accepted. */
  lemma {:induction false} QueueConserves(q: seq<Log>, size: nat, ops: seq<Op>)
    requires Within(q, size, ops) && (forall i :: 0 <= i < |q| ==> q[i] != [])
    ensures var (q', answers) := QueueRun(q, size, ops);
            |answers| == |ops| && Taken(answers) + q' == q + Accepted(ops, answers)
    decreases |ops|
  {
    if ops == [] {
    } else {
      var (q1, a) := QueueStep(q, size, ops[0]);
      var (q', rest) := QueueRun(q1, size, ops[1..]);
      QueueConserves(q1, size, ops[1..]);
      var answers := [a] + rest;
      assert answers[1..] == rest;
      var t, acc := Taken(rest), Accepted(ops[1..], rest);
      match ops[0]
      case Add(d) =>
        Units(acc);
        Units(t);
        if a.ok {
          Assoc<seq<byte>>(q, [d], acc);
        }
      case Consume(capacity) =>
        Units(acc);
        Units(t);
        if q1 != q {
          assert q == [q[0]] + q1;
          Assoc<seq<byte>>([q[0]], t, q');
          Assoc<seq<byte>>([q[0]], q1, acc);
        }
    }
  }

  // ---- Where the acceptance test falls short ----

  /** Index i of a ring of n bytes, for i < 3n. */
  function Wrap3(n: nat, i: nat): nat { if i < n then i else if i < 2 * n then i - n else i - 2 * n }

  /** The bytes of the queue are where consuming would look for them, without asking that they fit. */
  ghost predicate Stores(r: Ring, q: seq<Log>) {
    && r.Shape() && |Frames(q)| <= 2 * |r.buf|
    && forall j :: 0 <= j < |Frames(q)| ==> r.buf[Wrap3(|r.buf|, r.out + j)] == Frames(q)[j]
  }

  lemma {:induction false} RepresentsStores(r: Ring, q: seq<Log>)
    requires Represents(r, q)
    ensures Stores(r, q)
  {
    var f := Frames(q);
    forall j | 0 <= j < |f|
      ensures r.buf[Wrap3(|r.buf|, r.out + j)] == f[j]
    {
      assert CycRead(r.buf, r.out, |f|)[j] == r.buf[Wrap(|r.buf|, r.out + j)];
    }
  }

  /** The test counts payloads only. An accepted size is safe for every record of that size
      if and only if it also fits next to the headers already stored. */
  lemma {:induction false} AcceptedIsSafeIff(r: Ring, q: seq<Log>, n: nat)
    requires Represents(r, q) && 0 < n < 0x1_0000 && r.space >= n + 2
    ensures (forall d: Log :: |d| == n ==> Stores(RingAdd(r, d), q + [d])) <==> |Frames(q)| + 2 + n <= |r.buf|
  {
    if |Frames(q)| + 2 + n <= |r.buf| {
      forall d: Log | |d| == n
        ensures Stores(RingAdd(r, d), q + [d])
      {
        AddRepresents(r, q, d);
        RepresentsStores(RingAdd(r, d), q + [d]);
      }
    } else {
      Corrupted(r, q, n);
    }
  }

  /** Otherwise some record of that size overwrites the oldest byte it reaches. */
  lemma {:induction false} Corrupted(r: Ring, q: seq<Log>, n: nat)
    requires Represents(r, q) && 0 < n < 0x1_0000 && r.space >= n + 2 && |Frames(q)| + 2 + n > |r.buf|
    ensures exists d: Log :: |d| == n && !Stores(RingAdd(r, d), q + [d])
  {
    var last := |Frames(q)| + 2 + n - 1;
    var lost := Frames(q)[last - |r.buf|];
    var d: Log := seq(n, _ => if lost == 0 then 1 else 0);
    CorruptedBy(r, q, d);
  }

  lemma {:induction false} CorruptedBy(r: Ring, q: seq<Log>, d: Log)
    requires Represents(r, q) && d != [] && Accepts(r, d) && |Frames(q)| + 2 + |d| > |r.buf|
    requires d[|d| - 1] != Frames(q)[|Frames(q)| + 1 + |d| - |r.buf|]
    ensures !Stores(RingAdd(r, d), q + [d])
  {
    var j := |Frames(q)| + 1 + |d| - |r.buf|;
    FramesAppend(q, d);
    var f := Frames(q + [d]);
    assert f[j] == Frames(q)[j] && f[j + |r.buf|] == d[|d| - 1];
    if Stores(RingAdd(r, d), q + [d]) {
      OneByteEach(RingAdd(r, d), q + [d], j);
    }
  }

  /** Bytes a whole ring apart are in the same place. */
  lemma {:induction false} OneByteEach(r: Ring, q: seq<Log>, j: nat)
    requires Stores(r, q) && j + |r.buf| < |Frames(q)|
    ensures Frames(q)[j] == Frames(q)[j + |r.buf|]
  {
    assert Wrap3(|r.buf|, r.out + j) == Wrap3(|r.buf|, r.out + (j + |r.buf|));
  }

  // ---- The capacity hypothesis is exact over runs ----

  /** The same call up to the bytes of the record. */
  predicate SameOp(a: Op, b: Op) {
    if a.Add? then b.Add? && |a.data| == |b.data| else a == b
  }

  /** A run of calls like the first ones of `shape`, with records of the same sizes. */
  ghost predicate Follows(ops: seq<Op>, shape: seq<Op>) {
    |ops| <= |shape| && forall i :: 0 <= i < |ops| ==> SameOp(ops[i], shape[i])
  }

  ghost predicate SameSizes(p: seq<Log>, q: seq<Log>) {
    |p| == |q| && forall i :: 0 <= i < |p| ==> |p[i]| == |q[i]|
  }

  lemma {:induction false} SizesDecide(p: seq<Log>, q: seq<Log>)
    requires SameSizes(p, q)
    ensures Payload(p) == Payload(q) && |Frames(p)| == |Frames(q)|
  {
    if p == [] {
    } else {
      SizesDecide(p[1..], q[1..]);
    }
  }

  lemma {:induction false} SameStep(p: seq<Log>, q: seq<Log>, size: nat, a: Op, b: Op)
    requires SameSizes(p, q) && SameOp(a, b)
    ensures SameSizes(QueueStep(p, size, a).0, QueueStep(q, size, b).0)
  {
    SizesDecide(p, q);
  }

  /** A run within capacity stays so for other bytes, when cut short, and when one more read is made. */
  lemma {:induction false} WithinBySizes(p: seq<Log>, q: seq<Log>, size: nat, ops: seq<Op>, shape: seq<Op>,
                                         capacity: u16)
    requires SameSizes(p, q) && Follows(ops, shape) && Within(q, size, shape) && |Frames(q)| <= size
    ensures Within(p, size, ops + [Consume(capacity)])
    decreases |ops|
  {
    SizesDecide(p, q);
    var all := ops + [Consume(capacity)];
    if ops == [] {
      FramedSize(p);
      FramedSize(QueueStep(p, size, all[0]).0);
    } else {
      assert SameOp(ops[0], shape[0]);
      SameStep(p, q, size, ops[0], shape[0]);
      var p1, q1 := QueueStep(p, size, ops[0]).0, QueueStep(q, size, shape[0]).0;
      SizesDecide(p1, q1);
      WithinBySizes(p1, q1, size, ops[1..], shape[1..], capacity);
      assert all[1..] == ops[1..] + [Consume(capacity)];
    }
  }

  /** Where a record that does not fit next to the headers goes: over the oldest record, from its length on. */
  lemma {:induction false} OldestOverwritten(r: Ring, q: seq<Log>, d: Log, j: nat)
    requires Represents(r, q) && Accepts(r, d) && 0 < |Frames(q)|
    requires j < |Frames(q)| && |r.buf| - |Frames(q)| + j < 2 + |d|
    ensures RingAdd(r, d).buf[Wrap(|r.buf|, r.out + j)] == Frame(d)[|r.buf| - |Frames(q)| + j]
  {
    AddIsCyclic(r, d);
    var n, k := |r.buf|, |Frames(q)|;
    assert Dist(n, r.in_, Wrap(n, r.out + j)) == n - k + j;
  }

  /** A new record of which all but the first `gap` frame bytes go over the oldest record: it changes the length read
      there, or takes its place and differs. */
  predicate Tells(first: Log, d: Log, gap: nat)
    requires first != [] && d != [] && gap < 2 + |d|
  {
    if gap == 0 then |d| != |first| || d[0] != first[0]
    else if gap == 1 then Lo(|d|) != Hi(|first|) || d[0] != Lo(|first|)
    else d[gap - 2] != Hi(|first|) || (gap - 1 < |d| && d[gap - 1] != Lo(|first|))
  }

  /** Some record of a size that does not fit makes the next read return something else than the oldest record. */
  lemma {:induction false} OverflowShows(r: Ring, q: seq<Log>, n: nat) returns (d: Log)
    requires Represents(r, q) && 0 < n < 0x1_0000 && r.space >= n + 2 && |Frames(q)| + 2 + n > |r.buf|
    ensures |d| == n && q != [] && RingConsume(RingAdd(r, d), 0xFFFF).1 != q[0]
  {
    FramedSize(q);
    var gap := |r.buf| - |Frames(q)|;
    var avoid := if gap == 0 then q[0][0] else if gap == 1 then Lo(|q[0]|) else Hi(|q[0]|);
    d := seq(n, _ => if avoid == 0 then 1 else 0);
    OverflowReads(r, q, d);
  }

  lemma {:induction false} OverflowReads(r: Ring, q: seq<Log>, d: Log)
    requires Represents(r, q) && d != [] && Accepts(r, d) && |Frames(q)| + 2 + |d| > |r.buf| && q != []
    requires Tells(q[0], d, |r.buf| - |Frames(q)|)
    ensures RingConsume(RingAdd(r, d), 0xFFFF).1 != q[0]
  {
    if |Frames(q)| < |r.buf| {
      LengthOverwritten(r, q, d);
    } else {
      LengthReplaced(r, q, d);
      if |d| == |q[0]| {
        ReadsNew(r, q, d);
      }
    }
  }

  /** Bytes of the new record become bytes of the oldest record's length. */
  lemma {:induction false} LengthOverwritten(r: Ring, q: seq<Log>, d: Log)
    requires Represents(r, q) && d != [] && Accepts(r, d) && q != []
    requires |r.buf| - 2 - |d| < |Frames(q)| < |r.buf|
    requires Tells(q[0], d, |r.buf| - |Frames(q)|)
    ensures HeadLength(RingAdd(r, d)) != |q[0]|
  {
    var n, gap, r' := |r.buf|, |r.buf| - |Frames(q)|, RingAdd(r, d);
    FramedSize(q);
    OldestOverwritten(r, q, d, 0);
    assert r'.buf[r.out] == if gap == 1 then Lo(|d|) else d[gap - 2];
    WalkIsWrap(n, r.out, 1);
    if gap - 1 < |d| {
      OldestOverwritten(r, q, d, 1);
      assert r'.buf[Wrap(n, r.out + 1)] == d[gap - 1];
    }
    OtherLength(r'.buf[Wrap(n, r.out + 1)], r'.buf[r.out], |q[0]|);
  }

  lemma {:induction false} OtherLength(lo: byte, hi: byte, x: u16)
    requires lo != Lo(x) || hi != Hi(x)
    ensures U16(lo, hi) != x
  {
    U16Parts(lo, hi);
  }

  /** In a ring full to the last byte the new record's length replaces the oldest's. */
  lemma {:induction false} LengthReplaced(r: Ring, q: seq<Log>, d: Log)
    requires Represents(r, q) && Accepts(r, d) && q != [] && |Frames(q)| == |r.buf|
    ensures HeadLength(RingAdd(r, d)) == |d|
  {
    FramedSize(q);
    OldestOverwritten(r, q, d, 0);
    OldestOverwritten(r, q, d, 1);
    LengthIs(RingAdd(r, d), |d|);
  }

  lemma {:induction false} LengthIs(r: Ring, n: u16)
    requires r.Shape() && r.buf[Wrap(|r.buf|, r.out)] == Hi(n) && r.buf[Wrap(|r.buf|, r.out + 1)] == Lo(n)
    ensures HeadLength(r) == n
  {
    WalkIsWrap(|r.buf|, r.out, 1);
    U16RoundTrip(n);
  }

  /** And a record as long as the oldest replaces it. */
  lemma {:induction false} ReadsNew(r: Ring, q: seq<Log>, d: Log)
    requires Represents(r, q) && q != [] && |d| == |q[0]| && Accepts(r, d) && |Frames(q)| == |r.buf| && d != []
    requires HeadLength(RingAdd(r, d)) == |d|
    ensures |RingConsume(RingAdd(r, d), 0xFFFF).1| == |d| && RingConsume(RingAdd(r, d), 0xFFFF).1[0] == d[0]
  {
    var r' := RingAdd(r, d);
    assert r'.Shape() && |r'.buf| == |r.buf| && r'.space == r.space - |d| && r'.out == r.out;
    FirstByteRead(r', |d|);
    FramedSize(q);
    OldestOverwritten(r, q, d, 2);
    assert Frame(d)[2] == d[0];
  }

  lemma {:induction false} FirstByteRead(r: Ring, n: nat)
    requires r.Shape() && 0 < n == HeadLength(r) && 2 + n <= |r.buf| && r.space + n <= |r.buf|
    ensures |RingConsume(r, 0xFFFF).1| == n && RingConsume(r, 0xFFFF).1[0] == r.buf[Wrap(|r.buf|, r.out + 2)]
  {
    ConsumeIsCyclic(r, n, 0xFFFF);
    var p := Wrap(|r.buf|, r.out + 2);
    assert CycRead(r.buf, p, n)[0] == r.buf[Wrap(|r.buf|, p + 0)];
  }

  ghost predicate ActsAsQueue(r: Ring, q: seq<Log>, ops: seq<Op>)
    requires r.Shape()
  {
    RingRun(r, ops).1 == QueueRun(q, |r.buf|, ops).1
  }

  lemma {:induction false} FirstStep(r: Ring, q: seq<Log>, op: Op, ops: seq<Op>)
    requires r.Shape()
    ensures RingRun(r, [op] + ops).1 == [RingStep(r, op).1] + RingRun(RingStep(r, op).0, ops).1
    ensures var (q1, a) := QueueStep(q, |r.buf|, op);
            QueueRun(q, |r.buf|, [op] + ops).1 == [a] + QueueRun(q1, |r.buf|, ops).1
  {
    assert ([op] + ops)[1..] == ops;
  }

  /** No record is empty, and a reader of the given capacity can take each of them. */
  ghost predicate Takeable(q: seq<Log>, shape: seq<Op>, capacity: u16) {
    && (forall i :: 0 <= i < |q| ==> 0 < |q[i]| <= capacity)
    && (forall i :: 0 <= i < |shape| && shape[i].Add? ==> 0 < |shape[i].data| <= capacity)
  }

  lemma StepTakeable(q: seq<Log>, size: nat, shape: seq<Op>, capacity: u16)
    requires Takeable(q, shape, capacity) && shape != []
    ensures Takeable(QueueStep(q, size, shape[0]).0, shape[1..], capacity)
  {
  }

  lemma {:induction false} OverflowingRun(r: Ring, q: seq<Log>, shape: seq<Op>, capacity: u16) returns (ops: seq<Op>)
    requires Represents(r, q) && !Within(q, |r.buf|, shape) && Takeable(q, shape, capacity)
    ensures Follows(ops, shape) && !ActsAsQueue(r, q, ops + [Consume(capacity)])
    decreases |shape|
  {
    var op, read := shape[0], [Consume(capacity)];
    var q1 := QueueStep(q, |r.buf|, op).0;
    if |Frames(q1)| <= |r.buf| {
      StepRepresents(r, q, op);
      StepTakeable(q, |r.buf|, shape, capacity);
      var rest := OverflowingRun(RingStep(r, op).0, q1, shape[1..], capacity);
      ops := [op] + rest;
      FirstStep(r, q, op, rest + read);
      Assoc([op], rest, read);
      SameTail(RingStep(r, op).1, RingRun(RingStep(r, op).0, rest + read).1, QueueRun(q1, |r.buf|, rest + read).1);
    } else {
      FirstOverflow(r, q, op);
      var d := OverflowShows(r, q, |op.data|);
      ops := [Add(d)];
      ReadAfter(r, q, d, capacity);
    }
  }

  lemma {:induction false} SameTail<T>(x: T, a: seq<T>, b: seq<T>)
    ensures [x] + a == [x] + b <==> a == b
  {
    assert ([x] + a)[1..] == a && ([x] + b)[1..] == b;
  }

  /** Only an accepted record can leave too much behind. */
  lemma {:induction false} FirstOverflow(r: Ring, q: seq<Log>, op: Op)
    requires Represents(r, q) && |Frames(QueueStep(q, |r.buf|, op).0)| > |r.buf|
    ensures op.Add? && r.space >= |op.data| + 2 && |Frames(q)| + 2 + |op.data| > |r.buf|
  {
    FramedSize(q);
    FramedSize(QueueStep(q, |r.buf|, op).0);
    if op.Add? {
      FramesAppend(q, op.data);
    }
  }

  lemma {:induction false} ReadAfter(r: Ring, q: seq<Log>, d: Log, capacity: u16)
    requires Represents(r, q) && q != [] && Accepts(r, d) && RingConsume(RingAdd(r, d), 0xFFFF).1 != q[0]
    requires |q[0]| <= capacity
    ensures !ActsAsQueue(r, q, [Add(d)] + [Consume(capacity)])
  {
    var r1, read: seq<Op> := RingAdd(r, d), [Consume(capacity)];
    FirstStep(r, q, Add(d), read);
    FirstStep(r1, q + [d], Consume(capacity), []);
    assert read == [Consume(capacity)] + [];
    var got, want := RingRun(r1, read).1, QueueRun(q + [d], |r.buf|, read).1;
    assert got[0] != want[0];
    SameTail(Added(true), got, want);
  }

  /** A run of calls of the given shape, cut anywhere and followed by one read, answers as a queue does whatever the
      bytes of the records. */
  ghost predicate AlwaysQueue(r: Ring, q: seq<Log>, shape: seq<Op>, capacity: u16)
    requires r.Shape()
  {
    forall ops :: Follows(ops, shape) ==> ActsAsQueue(r, q, ops + [Consume(capacity)])
  }

  /** That is so if and only if the records outstanding at each point fit together with their headers. */
  lemma {:induction false} FifoIff(r: Ring, q: seq<Log>, shape: seq<Op>, capacity: u16)
    requires Represents(r, q) && Takeable(q, shape, capacity)
    ensures AlwaysQueue(r, q, shape, capacity) <==> Within(q, |r.buf|, shape)
  {
    if Within(q, |r.buf|, shape) {
      forall ops | Follows(ops, shape)
        ensures ActsAsQueue(r, q, ops + [Consume(capacity)])
      {
        WithinBySizes(q, q, |r.buf|, ops, shape, capacity);
        RingIsFifo(r, q, ops + [Consume(capacity)]);
      }
    } else {
      var ops := OverflowingRun(r, q, shape, capacity);
    }
  }

  // ---- Records of one size ----

  function Adds(d: Log, m: nat): seq<Op> {
    if m == 0 then [] else [Add(d)] + Adds(d, m - 1)
  }

  /** How many records of n bytes fit with their headers. */
  function Room(size: nat, n: nat): nat { size / (n + 2) }

  /** When that many are stored, the test accepts one more. */
  predicate AcceptsOneTooMany(size: nat, n: nat) { (Room(size, n) + 1) * n + 2 <= size }

  ghost predicate AllOfSize(q: seq<Log>, n: nat) { forall i :: 0 <= i < |q| ==> |q[i]| == n }

  lemma {:induction false} SizeOfEquals(q: seq<Log>, n: nat)
    requires AllOfSize(q, n)
    ensures Payload(q) == |q| * n && |Frames(q)| == |q| * (n + 2)
  {
    FramedSize(q);
    if q == [] {
    } else {
      SizeOfEquals(q[1..], n);
      Distribute(|q| - 1, n);
    }
    Distribute(|q|, n);
  }

  lemma Distribute(k: int, n: int)
    ensures (k + 1) * n == k * n + n && k * (n + 2) == k * n + 2 * k
  {
  }

  lemma AtMost(k: nat, m: nat, n: nat)
    requires k <= m
    ensures k * n <= m * n
  {
  }

  /** Room is the largest number of frames not longer than the ring. */
  lemma {:induction false} RoomFits(size: nat, n: nat, k: nat)
    ensures k * (n + 2) <= size <==> k <= Room(size, n)
  {
    var f, room := n + 2, Room(size, n);
    assert size == room * f + size % f;
    if k <= room {
      AtMost(k, room, f);
    } else {
      AtMost(room + 1, k, f);
      Distribute(room, f);
    }
  }

  /** What the next record of that size does to a queue of such records. */
  lemma {:induction false} NextOfSize(q: seq<Log>, size: nat, d: Log)
    requires AllOfSize(q, |d|) && |q| <= Room(size, |d|)
    ensures var q1 := QueueStep(q, size, Add(d)).0;
            && AllOfSize(q1, |d|)
            && (|Frames(q1)| <= size <==> |q1| <= Room(size, |d|))
            && (q1 == q || |q1| == |q| + 1)
            && (if |q| < Room(size, |d|) then |q1| <= Room(size, |d|) else q1 == q <==> !AcceptsOneTooMany(size, |d|))
            && (AcceptsOneTooMany(size, |d|) ==> |q1| == |q| + 1)
  {
    var n, room, q1 := |d|, Room(size, |d|), QueueStep(q, size, Add(d)).0;
    SizeOfEquals(q, n);
    SizeOfEquals(q1, n);
    RoomFits(size, n, |q1|);
    Distribute(|q|, n);
    AtMost(|q| + 1, room + 1, n);
  }

  ghost predicate AddsOfSize(shape: seq<Op>, n: nat) {
    forall i :: 0 <= i < |shape| && shape[i].Add? ==> |shape[i].data| == n
  }

  lemma {:induction false} StaysWithin(q: seq<Log>, size: nat, shape: seq<Op>, n: nat)
    requires AllOfSize(q, n) && |q| <= Room(size, n) && n > 0 && !AcceptsOneTooMany(size, n) && AddsOfSize(shape, n)
    ensures Within(q, size, shape)
    decreases |shape|
  {
    if shape == [] {
    } else {
      var q1 := QueueStep(q, size, shape[0]).0;
      if shape[0].Add? {
        NextOfSize(q, size, shape[0].data);
      } else {
        SizeOfEquals(q1, n);
        RoomFits(size, n, |q1|);
      }
      StaysWithin(q1, size, shape[1..], n);
    }
  }

  lemma {:induction false} Overfills(q: seq<Log>, size: nat, d: Log, m: nat)
    requires AllOfSize(q, |d|) && |q| <= Room(size, |d|) < |q| + m && AcceptsOneTooMany(size, |d|)
    ensures !Within(q, size, Adds(d, m))
    decreases m
  {
    NextOfSize(q, size, d);
    assert Adds(d, m)[1..] == Adds(d, m - 1);
    if |q| < Room(size, |d|) {
      Overfills(QueueStep(q, size, Add(d)).0, size, d, m - 1);
    }
  }

  lemma {:induction false} AddsAre(d: Log, m: nat, i: nat)
    requires i < m
    ensures |Adds(d, m)| == m && Adds(d, m)[i] == Add(d)
  {
    if m == 1 {
    } else {
      AddsAre(d, m - 1, if i == 0 then 0 else i - 1);
    }
  }

  lemma {:induction false} AddsHaveSize(d: Log, m: nat)
    ensures AddsOfSize(Adds(d, m), |d|)
  {
    forall i | 0 <= i < |Adds(d, m)|
      ensures Adds(d, m)[i] == Add(d)
    {
      if m > 0 {
        AddsAre(d, m, 0);
        AddsAre(d, m, i);
      }
    }
  }

  lemma {:induction false} AddsTakeable(d: Log, m: nat, capacity: u16)
    requires 0 < |d| <= capacity
    ensures Takeable([], Adds(d, m), capacity)
  {
    AddsHaveSize(d, m);
  }

  /** The first records of one size, in a new ring, until one too many is accepted. */
  lemma {:induction false} EqualRecordsOverflow(buf: seq<byte>, d: Log, capacity: u16)
    requires 2 <= |buf| < 0x1_0000_0000 && 0 < |d| <= capacity && AcceptsOneTooMany(|buf|, |d|)
    ensures !AlwaysQueue(EmptyRing(buf), [], Adds(d, Room(|buf|, |d|) + 1), capacity)
  {
    var m := Room(|buf|, |d|) + 1;
    EmptyRepresents(buf);
    Overfills([], |buf|, d, m);
    AddsTakeable(d, m, capacity);
    FifoIff(EmptyRing(buf), [], Adds(d, m), capacity);
  }

  lemma {:induction false} EqualRecordsQueue(buf: seq<byte>, shape: seq<Op>, n: nat, capacity: u16)
    requires 2 <= |buf| < 0x1_0000_0000 && 0 < n <= capacity && !AcceptsOneTooMany(|buf|, n) && AddsOfSize(shape, n)
    ensures AlwaysQueue(EmptyRing(buf), [], shape, capacity)
  {
    EmptyRepresents(buf);
    StaysWithin([], |buf|, shape, n);
    FifoIff(EmptyRing(buf), [], shape, capacity);
  }

  /** Records of one size added to and read from a new ring in any order: it answers as a queue does whatever their
      bytes if and only if the test refuses one record more than fit with their headers. */
  lemma {:induction false} EqualRecordsIff(buf: seq<byte>, n: nat, capacity: u16)
    requires 2 <= |buf| < 0x1_0000_0000 && 0 < n <= capacity
    ensures (forall shape :: AddsOfSize(shape, n) ==> AlwaysQueue(EmptyRing(buf), [], shape, capacity)) <==>
            !AcceptsOneTooMany(|buf|, n)
  {
    if AcceptsOneTooMany(|buf|, n) {
      var d: Log := seq(n, _ => 0);
      AddsHaveSize(d, Room(|buf|, n) + 1);
      EqualRecordsOverflow(buf, d, capacity);
    } else {
      forall shape | AddsOfSize(shape, n)
        ensures AlwaysQueue(EmptyRing(buf), [], shape, capacity)
      {
        EqualRecordsQueue(buf, shape, n, capacity);
      }
    }
  }
}
