/** The records `otPlatLogImpl` of logging.c really adds: each ends with CR LF NUL. */
module LoggerRecords {
  import opened Bytes
  import opened Logging

  const LOG_RING_BUFFER_SIZE: nat := 1024 * 50
  const LOG_BUFFER_SIZE: u16 := 256
  const EOL_CHARS: seq<byte> := [13, 10, 0]

  predicate LoggerRecord(d: Log) { |d| >= 3 && d[|d| - 3..] == EOL_CHARS }

  /** Records of the logger, all of n bytes, added one after the other. */
  ghost predicate LoggerAdds(ops: seq<Op>, n: nat) {
    forall i :: 0 <= i < |ops| ==> ops[i].Add? && |ops[i].data| == n && LoggerRecord(ops[i].data)
  }

  /** A text of n - 3 equal characters and the end of line. */
  function Text(c: byte, n: nat): (d: Log)
    requires 3 <= n < 0x1_0000
    ensures |d| == n && LoggerRecord(d) && (n > 3 ==> d[0] == c)
  {
    seq(n - 3, _ => c) + EOL_CHARS
  }

  // ---- Filling the ring ----

  ghost predicate AllAre(q: seq<Log>, d: Log) { forall i :: 0 <= i < |q| ==> q[i] == d }

  /** As many records as fit, one after the other. */
  lemma {:induction false} Fills(q: seq<Log>, size: nat, d: Log, m: nat)
    requires AllAre(q, d) && d != [] && |q| + m <= Room(size, |d|) && AcceptsOneTooMany(size, |d|)
    ensures Within(q, size, Adds(d, m))
    ensures var q' := QueueRun(q, size, Adds(d, m)).0; AllAre(q', d) && |q'| == |q| + m
    decreases m
  {
    if m == 0 {
    } else {
      NextOfSize(q, size, d);
      Fills(QueueStep(q, size, Add(d)).0, size, d, m - 1);
      assert Adds(d, m)[1..] == Adds(d, m - 1);
    }
  }

  /** A full ring: no further record fits with its header, but the test accepts it. */
  ghost predicate Full(r: Ring, q: seq<Log>, d: Log) {
    && Represents(r, q) && AllAre(q, d) && q != [] && d != []
    && |Frames(q)| + 2 + |d| > |r.buf| && r.space >= |d| + 2
  }

  lemma {:induction false} FullAfterAdds(buf: seq<byte>, d: Log)
    requires 2 <= |buf| < 0x1_0000_0000 && d != [] && AcceptsOneTooMany(|buf|, |d|) && Room(|buf|, |d|) > 0
    ensures var ops, r := Adds(d, Room(|buf|, |d|)), EmptyRing(buf);
            var q := QueueRun([], |buf|, ops).0;
            && Full(RingRun(r, ops).0, q, d) && |RingRun(r, ops).0.buf| == |buf| && |q| == Room(|buf|, |d|)
            && |Frames(q)| == Room(|buf|, |d|) * (|d| + 2) && Payload(q) == Room(|buf|, |d|) * |d|
            && RingRun(r, ops).1 == QueueRun([], |buf|, ops).1
  {
    var n, k := |d|, Room(|buf|, |d|);
    var ops, r := Adds(d, k), EmptyRing(buf);
    var q := QueueRun([], |buf|, ops).0;
    EmptyRepresents(buf);
    Fills([], |buf|, d, k);
    RingIsFifo(r, [], ops);
    RunKeepsSize(r, ops);
    SizeOfEquals(q, n);
    RoomFits(|buf|, n, k + 1);
    Distribute(k, n + 2);
    Distribute(k, n);
  }

  lemma {:induction false} RunKeepsSize(r: Ring, ops: seq<Op>)
    requires r.Shape()
    ensures RingRun(r, ops).0.Shape() && |RingRun(r, ops).0.buf| == |r.buf|
    decreases |ops|
  {
    if ops == [] {
    } else {
      RunKeepsSize(RingStep(r, ops[0]).0, ops[1..]);
    }
  }

  /** Answers that agree first and differ later differ. */
  lemma {:induction false} DiffersLater(r: Ring, q: seq<Log>, first: seq<Op>, later: seq<Op>)
    requires r.Shape() && ActsAsQueue(r, q, first)
    requires var r1 := RingRun(r, first).0;
             r1.Shape() && |r1.buf| == |r.buf| && !ActsAsQueue(r1, QueueRun(q, |r.buf|, first).0, later)
    ensures !ActsAsQueue(r, q, first + later)
    decreases |first|
  {
    if first == [] {
      assert first + later == later;
    } else {
      var op, rest := first[0], first[1..];
      var (r1, a) := RingStep(r, op);
      var (q1, b) := QueueStep(q, |r.buf|, op);
      assert first == [op] + rest;
      FirstStep(r, q, op, rest);
      assert [a] + RingRun(r1, rest).1 == [b] + QueueRun(q1, |r.buf|, rest).1;
      assert a == ([a] + RingRun(r1, rest).1)[0] == b;
      SameTail(a, RingRun(r1, rest).1, QueueRun(q1, |r.buf|, rest).1);
      DiffersLater(r1, q1, rest, later);
      FirstStep(r, q, op, rest + later);
      SameTail(a, RingRun(r1, rest + later).1, QueueRun(q1, |r.buf|, rest + later).1);
      assert first + later == [op] + (rest + later);
    }
  }

  // ---- One record too many ----

  /** What the text characters, the CR or the LF do to the oldest record's length; only a NUL over a zero does not
      show, and only a record without text is the same as the one it replaces. */
  lemma {:induction false} TextTells(n: nat, gap: nat)
    requires 3 <= n <= LOG_BUFFER_SIZE && gap < n + 2 && (gap == 0 ==> n > 3) && (gap == n + 1 ==> n == 256)
    ensures Tells(Text(65, n), Text(66, n), gap)
  {
    var d := Text(66, n);
    assert gap == n ==> d[gap - 2] == 10;
    assert gap == n - 1 && gap >= 2 ==> d[gap - 2] == 13;
    assert 2 <= gap < n - 1 ==> d[gap - 2] == 66;
    assert gap == n + 1 ==> d[gap - 2] == 0;
  }

  lemma {:induction false} OneTooManyShows(buf: seq<byte>, n: nat, capacity: u16) returns (ops: seq<Op>)
    requires 2 <= |buf| < 0x1_0000_0000 && 3 <= n <= LOG_BUFFER_SIZE && n <= capacity
    requires AcceptsOneTooMany(|buf|, n) && Room(|buf|, n) > 0
    requires var gap := |buf| - Room(|buf|, n) * (n + 2); (gap == 0 ==> n > 3) && (gap == n + 1 ==> n == 256)
    ensures LoggerAdds(ops, n) && !ActsAsQueue(EmptyRing(buf), [], ops + [Consume(capacity)])
  {
    var a, b := Text(65, n), Text(66, n);
    var fill := Adds(a, Room(|buf|, n));
    FullAfterAdds(buf, a);
    var r, q := RingRun(EmptyRing(buf), fill).0, QueueRun([], |buf|, fill).0;
    TextTells(n, |buf| - |Frames(q)|);
    OverflowReads(r, q, b);
    ReadAfter(r, q, b, capacity);
    ops := ShownLater(buf, a, [Add(b)], capacity);
  }

  lemma {:induction false} AddsAreLogger(d: Log, m: nat)
    requires LoggerRecord(d)
    ensures LoggerAdds(Adds(d, m), |d|)
  {
    forall i | 0 <= i < |Adds(d, m)|
      ensures Adds(d, m)[i] == Add(d)
    {
      if m > 0 {
        AddsAre(d, m, 0);
        AddsAre(d, m, i);
      }
    }
  }

  // ---- Two records too many ----

  /** The first record too many reaches the oldest one with its NUL only, and the next starts on the byte after that. */
  lemma {:induction false} SecondStartsInside(r: Ring, q: seq<Log>, d: Log)
    requires Full(r, q, d) && LoggerRecord(d) && |Frames(q)| + |d| + 1 == |r.buf| && r.out < |r.buf|
    ensures var r1, n := RingAdd(r, d), |r.buf|;
            && r1.Shape() && |r1.buf| == n && r1.out == r.out && r1.space == r.space - |d|
            && r1.in_ == Wrap(n, r.out + 1) && r1.buf[r.out] == 0
  {
    FramedSize(q);
    AddIsCyclic(r, d);
    OldestOverwritten(r, q, d, 0);
    assert d[|d| - 1] == d[|d| - 3..][2] == 0;
  }

  /** A record written on the second byte of a length of which the first is zero. */
  lemma {:induction false} LengthZeroed(r: Ring, d: Log)
    requires r.Shape() && Accepts(r, d) && |d| < 256 && |d| + 4 <= |r.buf|
    requires r.in_ == Wrap(|r.buf|, r.out + 1) && r.buf[r.out] == 0
    ensures HeadLength(RingAdd(r, d)) == 0
  {
    var n, r' := |r.buf|, RingAdd(r, d);
    AddIsCyclic(r, d);
    WalkIsWrap(n, r.out, 1);
    assert Dist(n, r.in_, r.out) == n - 1 && Dist(n, r.in_, r.in_) == 0;
    assert r'.buf[r.out] == 0 && r'.buf[r.in_] == Frame(d)[0] == Hi(|d|) == 0;
  }

  lemma {:induction false} ReadDiffers(r: Ring, q: seq<Log>, capacity: u16)
    requires r.Shape() && q != [] && q[0] != [] && |q[0]| <= capacity && HeadLength(r) == 0
    ensures !ActsAsQueue(r, q, [Consume(capacity)])
  {
    FirstStep(r, q, Consume(capacity), []);
    assert [Consume(capacity)] == [Consume(capacity)] + [];
    var got, want := RingRun(r, [Consume(capacity)]).1, QueueRun(q, |r.buf|, [Consume(capacity)]).1;
    assert got[0] != want[0];
  }

  /** Two more records to a ring that takes both, and then a read. */
  lemma {:induction false} TwoAdds(r: Ring, q: seq<Log>, d: Log, capacity: u16)
    requires r.Shape() && q != [] && q[0] != [] && |q[0]| <= capacity
    requires r.space == |r.buf| - Payload(q) && Payload(q) + 2 * |d| + 2 <= |r.buf|
    requires HeadLength(RingStep(RingStep(r, Add(d)).0, Add(d)).0) == 0
    ensures !ActsAsQueue(r, q, [Add(d)] + ([Add(d)] + [Consume(capacity)]))
  {
    var r1, q1 := RingStep(r, Add(d)).0, q + [d];
    var r2, q2 := RingStep(r1, Add(d)).0, q1 + [d];
    FramesAppend(q, d);
    var read: seq<Op> := [Consume(capacity)];
    ReadDiffers(r2, q2, capacity);
    FirstStep(r1, q1, Add(d), read);
    SameTail(Added(true), RingRun(r2, read).1, QueueRun(q2, |r.buf|, read).1);
    FirstStep(r, q, Add(d), [Add(d)] + read);
    SameTail(Added(true), RingRun(r1, [Add(d)] + read).1, QueueRun(q1, |r.buf|, [Add(d)] + read).1);
  }

  lemma {:induction false} TwoTooManyShow(buf: seq<byte>, n: nat, capacity: u16) returns (ops: seq<Op>)
    requires 2 <= |buf| < 0x1_0000_0000 && 3 <= n < 256 && n <= capacity
    requires AcceptsOneTooMany(|buf|, n) && Room(|buf|, n) > 0
    requires Room(|buf|, n) * n + 2 * n + 2 <= |buf| && Room(|buf|, n) * (n + 2) + n + 1 == |buf|
    ensures LoggerAdds(ops, n) && !ActsAsQueue(EmptyRing(buf), [], ops + [Consume(capacity)])
  {
    var a, k := Text(65, n), Room(|buf|, n);
    var fill := Adds(a, k);
    FullAfterAdds(buf, a);
    TwoMoreShow(RingRun(EmptyRing(buf), fill).0, QueueRun([], |buf|, fill).0, a, capacity);
    TwoOfThem(a);
    ops := ShownLater(buf, a, [Add(a)] + [Add(a)], capacity);
  }

  lemma {:induction false} TwoMoreShow(r: Ring, q: seq<Log>, d: Log, capacity: u16)
    requires Full(r, q, d) && LoggerRecord(d) && |d| < 256 && |d| <= capacity
    requires |Frames(q)| + |d| + 1 == |r.buf| && Payload(q) + 2 * |d| + 2 <= |r.buf|
    ensures !ActsAsQueue(r, q, [Add(d)] + [Add(d)] + [Consume(capacity)])
  {
    FramedSize(q);
    SecondStartsInside(r, q, d);
    LengthZeroed(RingAdd(r, d), d);
    TwoAdds(r, q, d, capacity);
    Assoc([Add(d)], [Add(d)], [Consume(capacity)]);
  }

  lemma TwoOfThem(d: Log)
    requires LoggerRecord(d)
    ensures LoggerAdds([Add(d)] + [Add(d)], |d|)
  {
  }

  /** What shows after the ring is full shows in a run of the logger. */
  lemma {:induction false} ShownLater(buf: seq<byte>, d: Log, more: seq<Op>, capacity: u16) returns (ops: seq<Op>)
    requires 2 <= |buf| < 0x1_0000_0000 && LoggerRecord(d) && LoggerAdds(more, |d|)
    requires AcceptsOneTooMany(|buf|, |d|) && Room(|buf|, |d|) > 0
    requires var fill := Adds(d, Room(|buf|, |d|));
             var r := RingRun(EmptyRing(buf), fill).0;
             r.Shape() && !ActsAsQueue(r, QueueRun([], |buf|, fill).0, more + [Consume(capacity)])
    ensures LoggerAdds(ops, |d|) && !ActsAsQueue(EmptyRing(buf), [], ops + [Consume(capacity)])
  {
    var fill := Adds(d, Room(|buf|, |d|));
    FullAfterAdds(buf, d);
    DiffersLater(EmptyRing(buf), [], fill, more + [Consume(capacity)]);
    Assoc(fill, more, [Consume(capacity)]);
    AddsAreLogger(d, Room(|buf|, |d|));
    ops := fill + more;
  }

  /** A ring that holds at least half as many records as a frame has bytes takes one too many, and two if the first
      leaves off just inside the oldest record. */
  lemma {:induction false} HalfAsMany(size: nat, n: nat)
    requires n + 2 <= 2 * Room(size, n)
    ensures var k := Room(size, n);
            && AcceptsOneTooMany(size, n) && 0 < k && k * (n + 2) <= size < k * (n + 2) + n + 2
            && (k * (n + 2) + n + 1 == size ==> k * n + 2 * n + 2 <= size)
  {
    var k := Room(size, n);
    Distribute(k, n);
    Distribute(k, n + 2);
    RoomFits(size, n, k);
    RoomFits(size, n, k + 1);
  }

  // ---- Records without text in a ring that five divides ----

  const EOL: Log := EOL_CHARS

  /** The ring as slots of five bytes. `turns` counts how often `in` is ahead of `out` by the whole ring. */
  datatype Grid = Grid(slots: nat, in_: nat, out: nat, turns: nat)

  predicate SlotHolds(buf: seq<byte>, s: nat)
    requires 5 * s + 5 <= |buf|
  {
    buf[5 * s..5 * s + 5] == Frame(EOL)
  }

  /** `c` records without text are outstanding, possibly more than there are slots: then some slots stand for several
      of them. */
  ghost predicate Slotted(r: Ring, c: nat, g: Grid) {
    && r.Shape() && g.in_ < g.slots && g.out < g.slots
    && |r.buf| == 5 * g.slots && r.in_ == 5 * g.in_ && r.out == 5 * g.out
    && r.space == |r.buf| - 3 * c
    && g.in_ + g.turns * g.slots == g.out + c
    && forall s :: 0 <= s < g.slots && Dist(g.slots, g.out, s) < c ==> SlotHolds(r.buf, s)
  }

  /** While the records have a slot each, `in` is on the first free one. */
  lemma {:induction false} InOnFree(g: Grid, c: nat)
    requires g.in_ < g.slots && g.out < g.slots && g.in_ + g.turns * g.slots == g.out + c && c < g.slots
    ensures Dist(g.slots, g.out, g.in_) == c
  {
    if g.turns >= 2 {
      AtMost(2, g.turns, g.slots);
    }
  }

  /** Writing the frame on one slot leaves the others. */
  lemma {:induction false} WriteSlot(buf: seq<byte>, i: nat, s: nat)
    requires 5 * i + 5 <= |buf| && 5 * s + 5 <= |buf|
    ensures CycWrite(buf, 5 * i, Frame(EOL))[5 * s..5 * s + 5]
         == if s == i then Frame(EOL) else buf[5 * s..5 * s + 5]
  {
  }

  lemma {:induction false} SlottedAdd(r: Ring, c: nat, g: Grid) returns (g': Grid)
    requires Slotted(r, c, g) && r.space >= 5
    ensures Slotted(RingAdd(r, EOL), c + 1, g')
  {
    var r' := RingAdd(r, EOL);
    AddIsCyclic(r, EOL);
    Distribute(g.turns, g.slots);
    g' := if g.in_ + 1 == g.slots then g.(in_ := 0, turns := g.turns + 1) else g.(in_ := g.in_ + 1);
    forall s | 0 <= s < g.slots && Dist(g.slots, g.out, s) < c + 1
      ensures SlotHolds(r'.buf, s)
    {
      WriteSlot(r.buf, g.in_, s);
      if c < g.slots {
        InOnFree(g, c);
      }
    }
  }

  /** A slot that holds the frame is read as the record. */
  lemma {:induction false} ReadSlot(r: Ring, s: nat)
    requires r.Shape() && 5 * s + 5 <= |r.buf| && r.out == 5 * s && SlotHolds(r.buf, s)
    ensures HeadLength(r) == 3 && CycRead(r.buf, Wrap(|r.buf|, r.out + 2), 3) == EOL
  {
    var slot := r.buf[5 * s..5 * s + 5];
    assert slot[0] == r.buf[r.out] && slot[1] == r.buf[r.out + 1];
    assert slot[2] == r.buf[r.out + 2] && slot[3] == r.buf[r.out + 3] && slot[4] == r.buf[r.out + 4];
    WalkIsWrap(|r.buf|, r.out, 1);
    ThreeBytes(r.buf, r.out + 2);
  }

  lemma ThreeBytes(buf: seq<byte>, p: nat)
    requires p + 3 <= |buf|
    ensures CycRead(buf, p, 3) == [buf[p], buf[p + 1], buf[p + 2]]
  {
    var got := CycRead(buf, p, 3);
    assert got[0] == buf[Wrap(|buf|, p + 0)] && got[1] == buf[Wrap(|buf|, p + 1)] && got[2] == buf[Wrap(|buf|, p + 2)];
  }

  lemma {:induction false} SlottedConsume(r: Ring, c: nat, g: Grid, capacity: u16) returns (g': Grid)
    requires Slotted(r, c, g) && c > 0
    ensures HeadLength(r) == 3
    ensures capacity >= 3 ==> RingConsume(r, capacity).1 == EOL && Slotted(RingConsume(r, capacity).0, c - 1, g')
  {
    assert Dist(g.slots, g.out, g.out) == 0;
    assert SlotHolds(r.buf, g.out);
    ReadSlot(r, g.out);
    g' := g;
    if capacity >= 3 {
      ConsumeIsCyclic(r, 3, capacity);
      g' := OutMoves(g, c);
      forall s | 0 <= s < g.slots && Dist(g.slots, g'.out, s) < c - 1
        ensures SlotHolds(r.buf, s)
      {
        assert Dist(g.slots, g.out, s) < c;
      }
    }
  }

  lemma {:induction false} OutMoves(g: Grid, c: nat) returns (g': Grid)
    requires g.in_ < g.slots && g.out < g.slots && g.in_ + g.turns * g.slots == g.out + c && c > 0
    ensures g'.slots == g.slots && g'.in_ == g.in_ && g'.out == if g.out + 1 == g.slots then 0 else g.out + 1
    ensures g'.in_ + g'.turns * g'.slots == g'.out + (c - 1)
  {
    if g.out + 1 == g.slots {
      assert g.turns > 0;
      Distribute(g.turns - 1, g.slots);
      g' := g.(out := 0, turns := g.turns - 1);
    } else {
      g' := g.(out := g.out + 1);
    }
  }

  ghost predicate OnlyEol(ops: seq<Op>) {
    forall i :: 0 <= i < |ops| && ops[i].Add? ==> ops[i].data == EOL
  }

  /** With such records such a ring is a queue on every run, even beyond its capacity. */
  lemma {:induction false} SlottedQueue(r: Ring, q: seq<Log>, g: Grid, ops: seq<Op>)
    requires Slotted(r, |q|, g) && AllAre(q, EOL) && OnlyEol(ops)
    ensures ActsAsQueue(r, q, ops)
    decreases |ops|
  {
    if ops == [] {
    } else {
      var g' := SlottedStep(r, q, g, ops[0]);
      SlottedQueue(RingStep(r, ops[0]).0, QueueStep(q, |r.buf|, ops[0]).0, g', ops[1..]);
    }
  }

  lemma {:induction false} SlottedStep(r: Ring, q: seq<Log>, g: Grid, op: Op) returns (g': Grid)
    requires Slotted(r, |q|, g) && AllAre(q, EOL) && (op.Add? ==> op.data == EOL)
    ensures var (r1, a) := RingStep(r, op);
            var (q1, b) := QueueStep(q, |r.buf|, op);
            a == b && Slotted(r1, |q1|, g') && AllAre(q1, EOL)
  {
    SizeOfEquals(q, 3);
    g' := g;
    if op.Add? {
      if r.space >= 5 {
        g' := SlottedAdd(r, |q|, g);
      }
    } else if q != [] {
      var next := SlottedConsume(r, |q|, g, op.capacity);
      if op.capacity >= 3 {
        g' := next;
      }
    }
  }

  lemma {:induction false} NewRingSlotted(buf: seq<byte>, ops: seq<Op>)
    requires 2 <= |buf| < 0x1_0000_0000 && |buf| % 5 == 0 && OnlyEol(ops)
    ensures ActsAsQueue(EmptyRing(buf), [], ops)
  {
    SlottedQueue(EmptyRing(buf), [], Grid(|buf| / 5, 0, 0, 0), ops);
  }

  // ---- The theorems ----

  /** Any number of the logger's records of n bytes in a new ring, followed by one read, are answered as by a queue. */
  ghost predicate LoggerSeesQueue(buf: seq<byte>, n: nat, capacity: u16)
    requires 2 <= |buf| < 0x1_0000_0000
  {
    forall ops :: LoggerAdds(ops, n) ==> ActsAsQueue(EmptyRing(buf), [], ops + [Consume(capacity)])
  }

  lemma {:induction false} OverflowIsSeen(buf: seq<byte>, n: nat, capacity: u16) returns (ops: seq<Op>)
    requires 2 <= |buf| < 0x1_0000_0000 && 3 <= n <= LOG_BUFFER_SIZE && n <= capacity
    requires n + 2 <= 2 * Room(|buf|, n) && !(n == 3 && |buf| % 5 == 0)
    ensures LoggerAdds(ops, n) && !ActsAsQueue(EmptyRing(buf), [], ops + [Consume(capacity)])
  {
    HalfAsMany(|buf|, n);
    var gap := |buf| - Room(|buf|, n) * (n + 2);
    if gap == n + 1 && n < 256 {
      ops := TwoTooManyShow(buf, n, capacity);
    } else {
      assert gap == 0 ==> n > 3;
      ops := OneTooManyShows(buf, n, capacity);
    }
  }

  /** In a ring that holds at least half as many records as a frame has bytes, a reader sees the oldest record whatever
      the text if and only if the records are the ones without text and five divides the ring. */
  lemma {:induction false} LoggerRingIff(buf: seq<byte>, n: nat, capacity: u16)
    requires 2 <= |buf| < 0x1_0000_0000 && 3 <= n <= LOG_BUFFER_SIZE && n <= capacity
    requires n + 2 <= 2 * Room(|buf|, n)
    ensures LoggerSeesQueue(buf, n, capacity) <==> n == 3 && |buf| % 5 == 0
  {
    if n == 3 && |buf| % 5 == 0 {
      forall ops | LoggerAdds(ops, n)
        ensures ActsAsQueue(EmptyRing(buf), [], ops + [Consume(capacity)])
      {
        WithoutText(ops);
        NewRingSlotted(buf, ops + [Consume(capacity)]);
      }
    } else {
      var ops := OverflowIsSeen(buf, n, capacity);
    }
  }

  lemma {:induction false} WithoutText(ops: seq<Op>)
    requires LoggerAdds(ops, 3)
    ensures OnlyEol(ops)
  {
    forall i | 0 <= i < |ops|
      ensures ops[i].data == EOL
    {
      var d := ops[i].data;
      assert d == d[|d| - 3..];
    }
  }

  /** The default ring and the dump task: for every size of record the logger can produce, the dump task reads what the
      logger added first, whatever the text, if and only if the records have no text. */
  lemma {:induction false} ShippedRingIff(buf: seq<byte>, n: nat)
    requires |buf| == LOG_RING_BUFFER_SIZE && 3 <= n <= LOG_BUFFER_SIZE
    ensures LoggerSeesQueue(buf, n, LOG_BUFFER_SIZE) <==> n == 3
  {
    ShippedRingHoldsMany(n);
    LoggerRingIff(buf, n, LOG_BUFFER_SIZE);
  }

  lemma {:induction false} ShippedRingHoldsMany(n: nat)
    requires 3 <= n <= LOG_BUFFER_SIZE
    ensures n + 2 <= 2 * Room(LOG_RING_BUFFER_SIZE, n)
  {
    assert 198 * (n + 2) <= LOG_RING_BUFFER_SIZE;
    RoomFits(LOG_RING_BUFFER_SIZE, n, 198);
  }
}
