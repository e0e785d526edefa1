/** serial_rpmsg.c and serial_uart.c: receive callbacks, the process functions and the sleep votes, interleaved. */
module SerialPorts {
  import opened Bytes
  import opened CommandStream

  const RING_SIZE: nat := 2048

  /** One serial port. `due`: bytes have arrived and the receive callback has not run yet. `draining`: the process
      function has cleared the flag and not yet read. `received` and `taken` record the port's whole input. */
  datatype Port = Port(
    pending: bool,
    ring: seq<byte>,
    due: bool,
    draining: bool,
    received: seq<byte>,
    taken: seq<seq<byte>>)

  datatype Which = Uart | Rpmsg

  /** `votes` counts PWR_DisallowDeviceToSleep less PWR_AllowDeviceToSleep. */
  datatype State = State(uart: Port, rpmsg: Port, votes: int) {
    function Get(w: Which): Port { if w.Uart? then uart else rpmsg }

    function Put(w: Which, p: Port): State { if w.Uart? then this.(uart := p) else this.(rpmsg := p) }
  }

  const Quiet := Port(false, [], false, false, [], [])
  const Initial := State(Quiet, Quiet, 0)

  datatype Event =
    | Receive(w: Which, data: seq<byte>)  // interrupt: bytes into the ring
    | Callback(w: Which)                  // rx_cb, interrupts disabled
    | Test(w: Which)                      // first half of the process function, interrupts disabled
    | Drain(w: Which)                     // SerialManager_TryRead of up to RING_SIZE bytes and their use

  predicate Can(s: State, e: Event) {
    match e
    case Receive(w, data) => data != [] && |s.Get(w).ring| + |data| <= RING_SIZE
    case Callback(w) => s.Get(w).due
    case Test(w) => !s.Get(w).draining
    case Drain(w) => s.Get(w).draining
  }

  function Do(s: State, e: Event): State
    requires Can(s, e)
  {
    match e
    case Receive(w, data) =>
      var p := s.Get(w);
      s.Put(w, p.(ring := p.ring + data, due := true, received := p.received + data))
    case Callback(w) =>
      var p := s.Get(w);
      if !p.pending then s.Put(w, p.(due := false, pending := true)).(votes := s.votes + 1)
      else s.Put(w, p.(due := false))
    case Test(w) =>
      var p := s.Get(w);
      if p.pending then s.Put(w, p.(pending := false, draining := true)).(votes := s.votes - 1) else s
    case Drain(w) =>
      var p := s.Get(w);
      var n := if |p.ring| <= RING_SIZE then |p.ring| else RING_SIZE;
      s.Put(w, p.(draining := false, ring := p.ring[n..], taken := if n == 0 then p.taken else p.taken + [p.ring[..n]]))
  }

  ghost predicate Trace(s: State, es: seq<Event>)
    decreases |es|
  {
    es != [] ==> Can(s, es[0]) && Trace(Do(s, es[0]), es[1..])
  }

  ghost function After(s: State, es: seq<Event>): State
    requires Trace(s, es)
    decreases |es|
  {
    if es == [] then s else After(Do(s, es[0]), es[1..])
  }

  function Vote(p: Port): int { One(p.pending) }

  ghost predicate PortInv(p: Port) {
    && |p.ring| <= RING_SIZE
    && (p.ring != [] ==> p.pending || p.due || p.draining)
    && p.received == Flatten(p.taken) + p.ring
  }

  ghost predicate Inv(s: State) {
    s.votes == Vote(s.uart) + Vote(s.rpmsg) && PortInv(s.uart) && PortInv(s.rpmsg)
  }

  lemma StepKeepsInv(s: State, e: Event)
    requires Inv(s) && Can(s, e)
    ensures Inv(Do(s, e))
  {
    var p := s.Get(e.w);
    if e.Receive? {
      Assoc(Flatten(p.taken), p.ring, e.data);
    } else if e.Drain? {
      FlattenAppend(p.taken, p.ring);
      assert p.ring[..|p.ring|] == p.ring && p.ring[|p.ring|..] == [];
      Units(Flatten(p.taken));
      Units(Flatten(p.taken) + p.ring);
    }
  }

  lemma {:induction false} TraceKeepsInv(s: State, es: seq<Event>)
    requires Inv(s) && Trace(s, es)
    ensures Inv(After(s, es))
    decreases |es|
  {
    if es == [] {
    } else {
      StepKeepsInv(s, es[0]);
      TraceKeepsInv(Do(s, es[0]), es[1..]);
    }
  }

  /** Whether the last callback or test of a port was a callback, told from the events alone. */
  function Asked(before: bool, es: seq<Event>, w: Which): bool
    decreases |es|
  {
    if es == [] then before
    else
      var e := es[0];
      var now := if e.w != w then before else if e.Callback? then true else if e.Test? then false else before;
      Asked(now, es[1..], w)
  }

  lemma {:induction false} PendingIsAsked(s: State, es: seq<Event>, w: Which)
    requires Trace(s, es)
    ensures After(s, es).Get(w).pending == Asked(s.Get(w).pending, es, w)
    decreases |es|
  {
    if es == [] {
    } else {
      PendingIsAsked(Do(s, es[0]), es[1..], w);
    }
  }

  /** Whether bytes have come since the last callback, told from the events alone. */
  function Arrived(before: bool, es: seq<Event>, w: Which): bool
    decreases |es|
  {
    if es == [] then before
    else
      var e := es[0];
      var now := if e.w != w then before else if e.Receive? then true else if e.Callback? then false else before;
      Arrived(now, es[1..], w)
  }

  lemma {:induction false} DueIsArrived(s: State, es: seq<Event>, w: Which)
    requires Trace(s, es)
    ensures After(s, es).Get(w).due == Arrived(s.Get(w).due, es, w)
    decreases |es|
  {
    if es == [] {
    } else {
      DueIsArrived(Do(s, es[0]), es[1..], w);
    }
  }

  function One(b: bool): int { if b then 1 else 0 }

  /** In every interleaving: sleep is voted against once for each port with a callback and no test since, and a callback
      is due exactly for bytes come since the last one, both told from the events alone; and bytes in a ring whose
      callback has run and which no test has taken up keep such a vote. */
  lemma {:induction false} VotesAndNoStrandedBytes(es: seq<Event>, w: Which)
    requires Trace(Initial, es)
    ensures var s := After(Initial, es);
            && s.votes == One(Asked(false, es, Uart)) + One(Asked(false, es, Rpmsg))
            && s.Get(w).due == Arrived(false, es, w)
            && (s.Get(w).ring != [] ==> Asked(false, es, w) || Arrived(false, es, w) || s.Get(w).draining)
            && (s.Get(w).ring != [] && !Arrived(false, es, w) && !s.Get(w).draining ==> s.votes >= 1)
  {
    TraceKeepsInv(Initial, es);
    PendingIsAsked(Initial, es, Uart);
    PendingIsAsked(Initial, es, Rpmsg);
    DueIsArrived(Initial, es, w);
  }

  /** What the parser has made of the RPMsg input so far. */
  function Decoded(s: State): (Parser, seq<CommandStream.Event>) { FeedPieces(Start, s.rpmsg.taken) }

  /** Interrupt timing does not show: at every moment of every interleaving, commands, characters and the partial
      command are those of the bytes received less the ones still in the ring. */
  lemma TimingIndependent(es: seq<Event>)
    requires Trace(Initial, es)
    ensures var p := After(Initial, es).rpmsg;
            && |p.ring| <= |p.received|
            && Decoded(After(Initial, es)) == Feed(Start, p.received[..|p.received| - |p.ring|])
  {
    TraceKeepsInv(Initial, es);
    var p := After(Initial, es).rpmsg;
    assert p.received[..|p.received| - |p.ring|] == Flatten(p.taken);
    FragmentationIndependent(Start, p.taken);
  }

  /** What is still to run on a port: the drain it is in, the callback that is due, and a test and drain of what is
      pending then. */
  function Steps(draining: bool, due: bool, pending: bool, w: Which): seq<Event>
    decreases draining, due
  {
    if draining then [Drain(w)] + Steps(false, due, pending, w)
    else if due then [Callback(w)] + Steps(false, false, true, w)
    else if pending then [Test(w)] + ([Drain(w)] + [])
    else []
  }

  function Pass(p: Port, w: Which): seq<Event> { Steps(p.draining, p.due, p.pending, w) }

  function Other(w: Which): Which { if w.Uart? then Rpmsg else Uart }

  /** At rest: nothing due, pending, being drained or in the ring. */
  predicate AtRest(p: Port) { !p.due && !p.pending && !p.draining && p.ring == [] }

  lemma {:induction false} TraceCons(s: State, e: Event, es: seq<Event>)
    requires Can(s, e) && Trace(Do(s, e), es)
    ensures Trace(s, [e] + es) && After(s, [e] + es) == After(Do(s, e), es)
  {
    assert ([e] + es)[1..] == es;
  }

  /** What a pass leaves: this port at rest with its vote given back, and the other one as it was. */
  ghost predicate PassRests(s: State, w: Which) {
    var pass := Pass(s.Get(w), w);
    && Trace(s, pass) && Inv(After(s, pass))
    && AtRest(After(s, pass).Get(w))
    && After(s, pass).Get(Other(w)) == s.Get(Other(w))
    && After(s, pass).votes == One(s.Get(Other(w)).pending)
  }

  /** From every state of the invariant: whatever is outstanding runs in order. */
  lemma {:induction false} PassRestores(s: State, w: Which)
    requires Inv(s)
    ensures PassRests(s, w)
    decreases One(s.Get(w).draining) + One(s.Get(w).due), One(s.Get(w).pending)
  {
    var p := s.Get(w);
    if p.draining || p.due {
      var e := if p.draining then Drain(w) else Callback(w);
      StepKeepsInv(s, e);
      PassRestores(Do(s, e), w);
      TraceCons(s, e, Pass(Do(s, e).Get(w), w));
    } else if p.pending {
      var s1 := Do(s, Test(w));
      StepKeepsInv(s, Test(w));
      StepKeepsInv(s1, Drain(w));
      TraceCons(s1, Drain(w), []);
      TraceCons(s, Test(w), [Drain(w)] + []);
    }
  }

  /** From every reachable state one pass on a port (its drain, callback, test and drain as far as outstanding) is
      possible and leaves it at rest with its vote given back; the other port keeps its state and its vote. */
  lemma {:induction false} OnePassDrains(es: seq<Event>, w: Which)
    requires Trace(Initial, es)
    ensures PassRests(After(Initial, es), w)
  {
    TraceKeepsInv(Initial, es);
    PassRestores(After(Initial, es), w);
  }

  /** After a pass on both ports with nothing received in between, no vote is left and the device may sleep. */
  lemma {:induction false} BothPassesAllowSleep(es: seq<Event>)
    requires Trace(Initial, es)
    ensures var s := After(Initial, es);
            && PassRests(s, Uart)
            && var s1 := After(s, Pass(s.uart, Uart));
            && PassRests(s1, Rpmsg)
            && var s2 := After(s1, Pass(s1.rpmsg, Rpmsg));
            AtRest(s2.uart) && AtRest(s2.rpmsg) && s2.votes == 0
  {
    OnePassDrains(es, Uart);
    var s := After(Initial, es);
    PassRestores(After(s, Pass(s.uart, Uart)), Rpmsg);
  }
}
