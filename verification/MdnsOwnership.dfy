/** mdns_socket.c and the message queue of br_rtos_manager.c: who releases each message, packet and context. */
module MdnsOwnership {
  import opened Bytes

  /** Messages and packets (pbufs) are known by number. */
  type Id = nat

  /** What the TCP/IP task is asked to run: LwipTaskCb on a message, the release of a packet, or something else. */
  datatype Job = Send(m: Id) | FreePacket(p: Id) | Other

  datatype State = State(
    size: nat,                      // of the TCP/IP task's mailbox
    enabled: bool,
    // messages handed to SendMulticast or SendUnicast
    given: multiset<Id>,
    sending: multiset<Id>,          // context allocated, not posted yet
    jobs: seq<Job>,                 // the TCP/IP task's mailbox
    job: Option<Job>,               // the callback it is in
    freed: multiset<Id>,
    // packets handed to MdnsSocketReceive
    received: multiset<Id>,
    arrivals: seq<Id>,              // those put into the queue, in order
    done: nat,                      // how many of them the OT task has finished with
    queue: seq<Id>,                 // sBrMsgList
    inHand: Option<Id>,             // the one being processed
    delivered: seq<Id>,             // those given to OpenThread, in order
    released: multiset<Id>,
    lost: multiset<Id>,             // pbuf_free_callback could not post, and its status is ignored
    contexts: int)                  // context blocks allocated and not freed

  datatype Event =
    | SendBegin(m: Id, indexMatches: bool, gotMemory: bool)
    | SendPost(m: Id, gotMemory: bool)
    | PostOther
    | TcpTake
    | TcpDone
    | Receive(p: Id, gotMemory: bool)
    | OtTake
    | OtProcess(room: bool, converted: bool, gotMemory: bool)
    | SetEnabled(on: bool)

  function Initial(size: nat): State {
    State(size, false, multiset{}, multiset{}, [], None, multiset{},
          multiset{}, [], 0, [], None, [], multiset{}, multiset{}, 0)
  }

  /** Each message and packet is handed over once. `tcpip_callback` waits for room in the mailbox. */
  predicate Can(s: State, e: Event) {
    match e
    case SendBegin(m, _, _) => m !in s.given
    case SendPost(m, gotMemory) => m in s.sending && (gotMemory ==> |s.jobs| < s.size)
    case PostOther => |s.jobs| < s.size
    case TcpTake => s.job.None? && s.jobs != []
    case TcpDone => s.job.Some?
    case Receive(p, _) => p !in s.received
    case OtTake => s.inHand.None? && s.queue != []
    case OtProcess(_, _, _) => s.inHand.Some?
    case SetEnabled(_) => true
  }

  /** The release of a packet is tried once: without memory or room in the mailbox it is not posted. */
  predicate ReleasePosted(s: State, gotMemory: bool) { gotMemory && |s.jobs| < s.size }

  function Do(s: State, e: Event): State
    requires Can(s, e)
  {
    match e
    case SendBegin(m, indexMatches, gotMemory) =>
      if s.enabled && indexMatches && gotMemory
      then s.(given := s.given + multiset{m}, sending := s.sending + multiset{m}, contexts := s.contexts + 1)
      else s.(given := s.given + multiset{m}, freed := s.freed + multiset{m})
    case SendPost(m, gotMemory) =>
      if gotMemory then s.(sending := s.sending - multiset{m}, jobs := s.jobs + [Send(m)])
      else s.(sending := s.sending - multiset{m}, freed := s.freed + multiset{m}, contexts := s.contexts - 1)
    case PostOther => s.(jobs := s.jobs + [Other])
    case TcpTake => s.(job := Some(s.jobs[0]), jobs := s.jobs[1..])
    case TcpDone =>
      (match s.job.value
       case Send(m) => s.(job := None, freed := s.freed + multiset{m}, contexts := s.contexts - 1)
       case FreePacket(p) => s.(job := None, released := s.released + multiset{p})
       case Other => s.(job := None))
    case Receive(p, gotMemory) =>
      if s.enabled && gotMemory
      then s.(received := s.received + multiset{p}, arrivals := s.arrivals + [p], queue := s.queue + [p],
              contexts := s.contexts + 1)
      else s.(received := s.received + multiset{p}, released := s.released + multiset{p})
    case OtTake => s.(inHand := Some(s.queue[0]), queue := s.queue[1..])
    case OtProcess(room, converted, gotMemory) =>
      var p := s.inHand.value;
      var s1 := if s.enabled && room && converted then s.(delivered := s.delivered + [p]) else s;
      var s2 := s1.(inHand := None, done := s.done + 1, contexts := s.contexts - 1);
      if ReleasePosted(s, gotMemory) then s2.(jobs := s.jobs + [FreePacket(p)]) else s2.(lost := s.lost + multiset{p})
    case SetEnabled(on) => s.(enabled := on)
  }

  ghost predicate Trace(s: State, es: seq<Event>)
    decreases |es|
  {
    es != [] ==> Can(s, es[0]) && Trace(Do(s, es[0]), es[1..])
  }

  ghost function After(s: State, es: seq<Event>): State
    requires Trace(s, es)
    decreases |es|
  {
    if es == [] then s else After(Do(s, es[0]), es[1..])
  }

  // ---- Where everything is ----

  function Pending(s: State): seq<Job> { if s.job.Some? then [s.job.value] + s.jobs else s.jobs }

  function Held(s: State): seq<Id> { if s.inHand.Some? then [s.inHand.value] + s.queue else s.queue }

  function Count<T(==)>(xs: seq<T>, x: T): nat {
    if xs == [] then 0 else (if xs[0] == x then 1 else 0) + Count(xs[1..], x)
  }

  lemma {:induction false} CountAppend<T>(xs: seq<T>, y: T, x: T)
    ensures Count(xs + [y], x) == Count(xs, x) + if y == x then 1 else 0
  {
    if xs == [] {
      assert xs + [y] == [y] && [y][1..] == [];
    } else {
      CountAppend(xs[1..], y, x);
      assert (xs + [y])[1..] == xs[1..] + [y];
    }
  }

  lemma {:induction false} CountFirst<T>(y: T, xs: seq<T>, x: T)
    ensures Count([y] + xs, x) == (if y == x then 1 else 0) + Count(xs, x)
  {
    assert ([y] + xs)[1..] == xs;
  }

  /** A message is in one place, and none is nowhere. */
  ghost predicate MessageAt(s: State, m: Id) {
    s.given[m] <= 1 && s.given[m] == s.sending[m] + Count(Pending(s), Send(m)) + s.freed[m]
  }

  ghost predicate PacketAt(s: State, p: Id) {
    && s.received[p] <= 1
    && s.received[p] == Count(Held(s), p) + Count(Pending(s), FreePacket(p)) + s.released[p] + s.lost[p]
  }

  /** The queue and the packet in hand are the arrivals not yet finished with. */
  ghost predicate QueueIsRest(s: State) {
    s.done <= |s.arrivals| && s.arrivals[s.done..] == Held(s)
  }

  function Sends(jobs: seq<Job>): nat {
    if jobs == [] then 0 else (if jobs[0].Send? then 1 else 0) + Sends(jobs[1..])
  }

  ghost predicate ContextsCounted(s: State) {
    s.contexts == |s.sending| + Sends(Pending(s)) + |Held(s)|
  }

  ghost predicate Inv(s: State) {
    && (forall m: Id :: MessageAt(s, m))
    && (forall p: Id :: PacketAt(s, p))
    && QueueIsRest(s)
    && ContextsCounted(s)
  }

  /** How the jobs move. */
  lemma {:induction false} JobsMove(s: State, e: Event)
    requires Can(s, e)
    ensures Pending(Do(s, e)) ==
            match e
            case SendPost(m, gotMemory) => if gotMemory then Pending(s) + [Send(m)] else Pending(s)
            case PostOther => Pending(s) + [Other]
            case OtProcess(_, _, gotMemory) =>
              if ReleasePosted(s, gotMemory) then Pending(s) + [FreePacket(s.inHand.value)] else Pending(s)
            case TcpDone => s.jobs
            case _ => Pending(s)
    ensures e.TcpDone? ==> Pending(s) == [s.job.value] + s.jobs
  {
    match e
    case SendPost(m, _) => if s.job.Some? { Assoc([s.job.value], s.jobs, [Send(m)]); }
    case PostOther => if s.job.Some? { Assoc([s.job.value], s.jobs, [Other]); }
    case OtProcess(_, _, _) => if s.job.Some? { Assoc([s.job.value], s.jobs, [FreePacket(s.inHand.value)]); }
    case TcpTake => assert [s.jobs[0]] + s.jobs[1..] == s.jobs;
    case _ =>
  }

  /** How the packets in hand and in the queue move. */
  lemma {:induction false} PacketsMove(s: State, e: Event)
    requires Can(s, e)
    ensures Held(Do(s, e)) ==
            match e
            case Receive(p, gotMemory) => if s.enabled && gotMemory then Held(s) + [p] else Held(s)
            case OtProcess(_, _, _) => s.queue
            case _ => Held(s)
    ensures e.OtProcess? ==> Held(s) == [s.inHand.value] + s.queue
  {
    match e
    case Receive(p, _) => if s.inHand.Some? { Assoc([s.inHand.value], s.queue, [p]); }
    case OtTake => assert [s.queue[0]] + s.queue[1..] == s.queue;
    case _ =>
  }

  /** How the number of jobs of a kind changes. */
  lemma {:induction false} JobsCounted(s: State, e: Event, j: Job)
    requires Can(s, e)
    ensures Count(Pending(Do(s, e)), j) + (if e.TcpDone? && s.job.value == j then 1 else 0) ==
            Count(Pending(s), j) +
            match e
            case SendPost(m, gotMemory) => if gotMemory && j == Send(m) then 1 else 0
            case PostOther => if j.Other? then 1 else 0
            case OtProcess(_, _, gotMemory) =>
              if ReleasePosted(s, gotMemory) && j == FreePacket(s.inHand.value) then 1 else 0
            case _ => 0
  {
    JobsMove(s, e);
    match e
    case SendPost(m, _) => CountAppend(Pending(s), Send(m), j);
    case PostOther => CountAppend(Pending(s), Other, j);
    case OtProcess(_, _, _) => CountAppend(Pending(s), FreePacket(s.inHand.value), j);
    case TcpDone => CountFirst(s.job.value, s.jobs, j);
    case _ =>
  }

  function One(b: bool): int { if b then 1 else 0 }

  predicate Starts(s: State, e: Event) { e.SendBegin? && s.enabled && e.indexMatches && e.gotMemory }

  /** How often a message is given and waiting to be posted. */
  lemma MessageMoves(s: State, e: Event, m: Id)
    requires Can(s, e)
    ensures var t := Do(s, e);
            && t.given[m] == s.given[m] + One(e.SendBegin? && e.m == m)
            && t.sending[m] == s.sending[m] + One(Starts(s, e) && e.m == m) - One(e.SendPost? && e.m == m)
  {
    match e
    case SendBegin(k, _, _) =>
      PutIn(s.given, k, m);
      PutIn(s.sending, k, m);
    case SendPost(k, _) => TakeOut(s.sending, k, m);
    case _ =>
  }

  /** And freed. */
  lemma FreedMoves(s: State, e: Event, m: Id)
    requires Can(s, e)
    ensures Do(s, e).freed[m] == s.freed[m] + One(e.SendBegin? && !Starts(s, e) && e.m == m)
            + One(e.SendPost? && !e.gotMemory && e.m == m) + One(e.TcpDone? && s.job.value == Send(m))
  {
    match e
    case SendBegin(k, _, _) => PutIn(s.freed, k, m);
    case SendPost(k, _) => PutIn(s.freed, k, m);
    case TcpDone => if s.job.value.Send? { PutIn(s.freed, s.job.value.m, m); }
    case _ =>
  }

  lemma PutIn(bag: multiset<Id>, k: Id, m: Id)
    ensures (bag + multiset{k})[m] == bag[m] + One(k == m)
  {
  }

  lemma TakeOut(bag: multiset<Id>, k: Id, m: Id)
    requires k in bag
    ensures (bag - multiset{k})[m] == bag[m] - One(k == m)
  {
  }

  /** How often a packet is received, released and lost. */
  lemma PacketMoves(s: State, e: Event, p: Id)
    requires Can(s, e)
    ensures var t := Do(s, e);
            && t.received[p] == s.received[p] + One(e.Receive? && e.p == p)
            && t.released[p] == s.released[p] + One(e.Receive? && !(s.enabled && e.gotMemory) && e.p == p)
               + One(e.TcpDone? && s.job.value == FreePacket(p))
            && t.lost[p] == s.lost[p]
               + One(e.OtProcess? && !ReleasePosted(s, e.gotMemory) && s.inHand.value == p)
  {
  }

  lemma {:induction false} StepKeepsMessage(s: State, e: Event, m: Id)
    requires MessageAt(s, m) && Can(s, e)
    ensures MessageAt(Do(s, e), m)
  {
    JobsCounted(s, e, Send(m));
    MessageMoves(s, e, m);
    FreedMoves(s, e, m);
  }

  lemma {:induction false} StepKeepsPacket(s: State, e: Event, p: Id)
    requires PacketAt(s, p) && Can(s, e)
    ensures PacketAt(Do(s, e), p)
  {
    JobsCounted(s, e, FreePacket(p));
    PacketMoves(s, e, p);
    HeldCounted(s, e, p);
  }

  lemma {:induction false} HeldCounted(s: State, e: Event, p: Id)
    requires Can(s, e)
    ensures Count(Held(Do(s, e)), p) == Count(Held(s), p)
            + One(e.Receive? && s.enabled && e.gotMemory && e.p == p) - One(e.OtProcess? && s.inHand.value == p)
  {
    PacketsMove(s, e);
    match e
    case OtProcess(_, _, _) => CountFirst(s.inHand.value, s.queue, p);
    case Receive(k, _) => CountAppend(Held(s), k, p);
    case _ =>
  }

  lemma {:induction false} StepKeepsQueue(s: State, e: Event)
    requires QueueIsRest(s) && Can(s, e)
    ensures QueueIsRest(Do(s, e))
  {
    ArrivalsMove(s, e);
    PacketsMove(s, e);
    RestMoves(s.arrivals, s.done, Held(s), Do(s, e).arrivals, Held(Do(s, e)), e);
  }

  /** An arrival joins both lists at the end, and the one processed leaves the rest at the front. */
  lemma {:induction false} RestMoves(arrivals: seq<Id>, done: nat, held: seq<Id>, arrivals': seq<Id>, held': seq<Id>,
                                     e: Event)
    requires done <= |arrivals| && arrivals[done..] == held
    requires match e
             case Receive(p, _) =>
               || (arrivals' == arrivals + [p] && held' == held + [p])
               || (arrivals' == arrivals && held' == held)
             case OtProcess(_, _, _) => arrivals' == arrivals && held != [] && held' == held[1..]
             case _ => arrivals' == arrivals && held' == held
    ensures var done' := if e.OtProcess? then done + 1 else done;
            done' <= |arrivals'| && arrivals'[done'..] == held'
  {
    if e.OtProcess? {
      assert held == [held[0]] + held';
      SuffixTail(arrivals, done, held[0], held');
    } else if e.Receive? {
      SuffixAppend(arrivals, done, e.p);
    }
  }

  lemma {:induction false} SendsAppend(jobs: seq<Job>, j: Job)
    ensures Sends(jobs + [j]) == Sends(jobs) + if j.Send? then 1 else 0
  {
    if jobs == [] {
      assert jobs + [j] == [j] && [j][1..] == [];
    } else {
      SendsAppend(jobs[1..], j);
      assert (jobs + [j])[1..] == jobs[1..] + [j];
    }
  }

  lemma {:induction false} SendsCounted(s: State, e: Event)
    requires Can(s, e)
    ensures Sends(Pending(Do(s, e))) == Sends(Pending(s))
            + One(e.SendPost? && e.gotMemory) - One(e.TcpDone? && s.job.value.Send?)
  {
    JobsMove(s, e);
    match e
    case SendPost(m, _) => SendsAppend(Pending(s), Send(m));
    case PostOther => SendsAppend(Pending(s), Other);
    case OtProcess(_, _, _) => SendsAppend(Pending(s), FreePacket(s.inHand.value));
    case TcpDone => assert Pending(s)[1..] == s.jobs;
    case _ =>
  }

  lemma ContextsMove(s: State, e: Event)
    requires Can(s, e)
    ensures var t := Do(s, e);
            var starts := e.SendBegin? && s.enabled && e.indexMatches && e.gotMemory;
            && t.contexts == s.contexts + One(starts) - One(e.SendPost? && !e.gotMemory)
               - One(e.TcpDone? && s.job.value.Send?)
               + One(e.Receive? && s.enabled && e.gotMemory) - One(e.OtProcess?)
            && |t.sending| == |s.sending| + One(starts) - One(e.SendPost?)
  {
  }

  lemma {:induction false} StepKeepsContexts(s: State, e: Event)
    requires ContextsCounted(s) && Can(s, e)
    ensures ContextsCounted(Do(s, e))
  {
    SendsCounted(s, e);
    ContextsMove(s, e);
    HeldSize(s, e);
  }

  lemma {:induction false} HeldSize(s: State, e: Event)
    requires Can(s, e)
    ensures |Held(Do(s, e))| == |Held(s)| + One(e.Receive? && s.enabled && e.gotMemory) - One(e.OtProcess?)
  {
    PacketsMove(s, e);
  }

  lemma {:induction false} TraceKeepsInv(s: State, es: seq<Event>)
    requires Inv(s) && Trace(s, es)
    ensures Inv(After(s, es))
    decreases |es|
  {
    if es == [] {
    } else {
      var e := es[0];
      forall m: Id ensures MessageAt(Do(s, e), m) { StepKeepsMessage(s, e, m); }
      forall p: Id ensures PacketAt(Do(s, e), p) { StepKeepsPacket(s, e, p); }
      StepKeepsQueue(s, e);
      StepKeepsContexts(s, e);
      TraceKeepsInv(Do(s, e), es[1..]);
    }
  }

  // ---- The theorems ----

  /** Nothing in flight. */
  predicate Quiescent(s: State) {
    s.sending == multiset{} && s.jobs == [] && s.job.None? && s.queue == [] && s.inHand.None?
  }

  lemma {:induction false} AllAccounted(s: State)
    requires Inv(s) && Quiescent(s)
    ensures s.released + s.lost == s.received
  {
    forall k: Id ensures (s.released + s.lost)[k] == s.received[k] { assert PacketAt(s, k); }
  }

  /** In every run, under every failure and every disabling in between: no message is freed twice, and when nothing
      is in flight each has been freed exactly once and no context is left. */
  lemma {:induction false} MessagesFreedExactlyOnce(size: nat, es: seq<Event>, m: Id)
    requires Trace(Initial(size), es)
    ensures var s := After(Initial(size), es);
            && s.freed[m] <= 1
            && (Quiescent(s) ==> s.freed == s.given && s.contexts == 0)
  {
    TraceKeepsInv(Initial(size), es);
    var s := After(Initial(size), es);
    assert MessageAt(s, m);
    if Quiescent(s) {
      forall k: Id ensures s.freed[k] == s.given[k] { assert MessageAt(s, k); }
    }
  }

  /** Packets are never released twice, and each is released or lost exactly once in the end. */
  lemma {:induction false} PacketsReleasedOnce(size: nat, es: seq<Event>, p: Id)
    requires Trace(Initial(size), es)
    ensures var s := After(Initial(size), es);
            && s.released[p] + s.lost[p] <= 1
            && (Quiescent(s) ==> s.released + s.lost == s.received)
  {
    TraceKeepsInv(Initial(size), es);
    var s := After(Initial(size), es);
    assert PacketAt(s, p);
    if Quiescent(s) {
      AllAccounted(s);
    }
  }

  // ---- What is delivered, told from the events alone ----

  /** The packets that arrive while listening is enabled and find memory. */
  function Accepted(enabled: bool, es: seq<Event>): seq<Id>
    decreases |es|
  {
    if es == [] then []
    else match es[0]
         case SetEnabled(on) => Accepted(on, es[1..])
         case Receive(p, gotMemory) => (if enabled && gotMemory then [p] else []) + Accepted(enabled, es[1..])
         case _ => Accepted(enabled, es[1..])
  }

  /** For each packet the OT task processes: was listening enabled, was there room, was it converted? */
  function Passed(enabled: bool, es: seq<Event>): seq<bool>
    decreases |es|
  {
    if es == [] then []
    else match es[0]
         case SetEnabled(on) => Passed(on, es[1..])
         case OtProcess(room, converted, _) => [enabled && room && converted] + Passed(enabled, es[1..])
         case _ => Passed(enabled, es[1..])
  }

  function Select<T>(xs: seq<T>, flags: seq<bool>): seq<T>
    requires |xs| == |flags|
  {
    if xs == [] then [] else (if flags[0] then [xs[0]] else []) + Select(xs[1..], flags[1..])
  }

  /** What the first event adds to the two lists. */
  lemma {:induction false} FirstEvent(s: State, es: seq<Event>)
    requires es != [] && Can(s, es[0])
    ensures var e, tail, t := es[0], es[1..], Do(s, es[0]);
            && Accepted(s.enabled, es)
               == (if e.Receive? && s.enabled && e.gotMemory then [e.p] else []) + Accepted(t.enabled, tail)
            && Passed(s.enabled, es)
               == (if e.OtProcess? then [s.enabled && e.room && e.converted] else []) + Passed(t.enabled, tail)
  {
    Units(Accepted(Do(s, es[0]).enabled, es[1..]));
    Units(Passed(Do(s, es[0]).enabled, es[1..]));
  }

  lemma ArrivalsMove(s: State, e: Event)
    requires Can(s, e)
    ensures var t := Do(s, e);
            && t.arrivals == s.arrivals + (if e.Receive? && s.enabled && e.gotMemory then [e.p] else [])
            && t.done == s.done + One(e.OtProcess?)
            && t.delivered == s.delivered
               + (if e.OtProcess? && s.enabled && e.room && e.converted then [s.inHand.value] else [])
  {
  }

  lemma {:induction false} ArrivalsAre(s: State, es: seq<Event>)
    requires Trace(s, es)
    ensures After(s, es).arrivals == s.arrivals + Accepted(s.enabled, es)
    ensures After(s, es).done == s.done + |Passed(s.enabled, es)|
    decreases |es|
  {
    if es == [] {
    } else {
      var e, s1 := es[0], Do(s, es[0]);
      FirstEvent(s, es);
      ArrivalsMove(s, e);
      ArrivalsAre(s1, es[1..]);
      Assoc(s.arrivals, if e.Receive? && s.enabled && e.gotMemory then [e.p] else [], Accepted(s1.enabled, es[1..]));
    }
  }

  lemma {:induction false} ProcessedAre(s: State, es: seq<Event>)
    requires Trace(s, es) && QueueIsRest(s)
    ensures var t := After(s, es);
            && s.done <= t.done <= |t.arrivals|
            && |Passed(s.enabled, es)| == t.done - s.done
            && t.delivered == s.delivered + Select(t.arrivals[s.done..t.done], Passed(s.enabled, es))
    decreases |es|
  {
    if es == [] {
    } else {
      var e, s1 := es[0], Do(s, es[0]);
      StepKeepsQueue(s, e);
      ProcessedAre(s1, es[1..]);
      FirstEvent(s, es);
      ArrivalsMove(s, e);
      ArrivalsAre(s1, es[1..]);
      ProcessedFirst(s, s1, e, Passed(s1.enabled, es[1..]), After(s, es));
    }
  }

  /** The packet in hand is the next arrival. */
  lemma {:induction false} ProcessedFirst(s: State, s1: State, e: Event, passed: seq<bool>, t: State)
    requires QueueIsRest(s) && Can(s, e) && s.arrivals <= t.arrivals
    requires s1.done == s.done + One(e.OtProcess?) <= t.done <= |t.arrivals| && |passed| == t.done - s1.done
    requires s1.delivered
          == s.delivered + (if e.OtProcess? && s.enabled && e.room && e.converted then [s.inHand.value] else [])
    requires t.delivered == s1.delivered + Select(t.arrivals[s1.done..t.done], passed)
    ensures var all := (if e.OtProcess? then [s.enabled && e.room && e.converted] else []) + passed;
            |all| == t.done - s.done && t.delivered == s.delivered + Select(t.arrivals[s.done..t.done], all)
  {
    if e.OtProcess? {
      var xs, p := t.arrivals[s.done..t.done], s.inHand.value;
      assert s.arrivals[s.done..][0] == p;
      assert xs[0] == p && xs[1..] == t.arrivals[s1.done..t.done];
      SelectFirst(s.delivered, xs, s.enabled && e.room && e.converted, passed);
    } else {
      Units(passed);
      Units(s.delivered);
    }
  }

  lemma {:induction false} SelectFirst(before: seq<Id>, xs: seq<Id>, flag: bool, flags: seq<bool>)
    requires |xs| == 1 + |flags|
    ensures before + Select(xs, [flag] + flags) == before + (if flag then [xs[0]] else []) + Select(xs[1..], flags)
  {
    assert ([flag] + flags)[1..] == flags;
    Assoc(before, if flag then [xs[0]] else [], Select(xs[1..], flags));
  }

  /** What OpenThread is given is, packet for packet and in order, those of the accepted packets that were processed
      while enabled, with room, and converted. */
  lemma {:induction false} DeliveredExactly(size: nat, es: seq<Event>)
    requires Trace(Initial(size), es)
    ensures var s := After(Initial(size), es);
            && s.arrivals == Accepted(false, es)
            && |Passed(false, es)| <= |Accepted(false, es)|
            && s.delivered == Select(Accepted(false, es)[..|Passed(false, es)|], Passed(false, es))
  {
    ArrivalsAre(Initial(size), es);
    ProcessedAre(Initial(size), es);
    assert [] + Accepted(false, es) == Accepted(false, es);
    var n := |Passed(false, es)|;
    assert Accepted(false, es)[0..n] == Accepted(false, es)[..n];
  }

  /** Strictly growing positions, with what is found there. */
  ghost predicate PickedAt<T(!new)>(picked: seq<T>, xs: seq<T>, pos: seq<nat>) {
    && |pos| == |picked|
    && (forall i :: 0 <= i < |pos| ==> pos[i] < |xs| && picked[i] == xs[pos[i]])
    && (forall i, j :: 0 <= i < j < |pos| ==> pos[i] < pos[j])
  }

  /** One more element before the ones picked. */
  lemma PickFirst<T(!new)>(picked: seq<T>, xs: seq<T>, pos: seq<nat>, at: nat)
    requires PickedAt(picked, xs, pos) && at < |xs| && (forall i :: 0 <= i < |pos| ==> at < pos[i])
    ensures PickedAt([xs[at]] + picked, xs, [at] + pos)
  {
  }

  lemma {:induction false} SelectPicks<T(!new)>(all: seq<T>, at: nat, flags: seq<bool>) returns (pos: seq<nat>)
    requires at + |flags| <= |all|
    ensures PickedAt(Select(all[at..at + |flags|], flags), all, pos)
    ensures forall i :: 0 <= i < |pos| ==> at <= pos[i]
    decreases |flags|
  {
    if flags == [] {
      pos := [];
    } else {
      var xs, rest := all[at..at + |flags|], flags[1..];
      assert xs[1..] == all[at + 1..at + 1 + |rest|];
      pos := SelectPicks(all, at + 1, rest);
      if flags[0] {
        PickFirst(Select(xs[1..], rest), all, pos, at);
        pos := [at] + pos;
      } else {
        Units(Select(xs[1..], rest));
      }
    }
  }

  /** The packets are delivered in the order of their arrival. */
  lemma {:induction false} DeliveredInOrder(size: nat, es: seq<Event>) returns (pos: seq<nat>)
    requires Trace(Initial(size), es)
    ensures PickedAt(After(Initial(size), es).delivered, After(Initial(size), es).arrivals, pos)
  {
    DeliveredExactly(size, es);
    var all, n := Accepted(false, es), |Passed(false, es)|;
    assert all[0..0 + n] == all[..n];
    pos := SelectPicks(all, 0, Passed(false, es));
  }

  // ---- Lost releases ----

  /** At each release there is memory and room in the mailbox, which holds `load` jobs to begin with. */
  function RoomThroughout(load: nat, size: nat, es: seq<Event>): bool
    decreases |es|
  {
    if es == [] then true
    else match es[0]
         case SendPost(_, gotMemory) => RoomThroughout(if gotMemory then load + 1 else load, size, es[1..])
         case PostOther => RoomThroughout(load + 1, size, es[1..])
         case TcpTake => RoomThroughout(if load > 0 then load - 1 else 0, size, es[1..])
         case OtProcess(_, _, gotMemory) => gotMemory && load < size && RoomThroughout(load + 1, size, es[1..])
         case _ => RoomThroughout(load, size, es[1..])
  }

  lemma {:induction false} LostGrows(s: State, es: seq<Event>)
    requires Trace(s, es)
    ensures |s.lost| <= |After(s, es).lost|
    decreases |es|
  {
    if es == [] {
    } else {
      LostGrows(Do(s, es[0]), es[1..]);
    }
  }

  lemma {:induction false} LosesNothingIff(s: State, es: seq<Event>)
    requires Trace(s, es)
    ensures |After(s, es).lost| == |s.lost| <==> RoomThroughout(|s.jobs|, s.size, es)
    decreases |es|
  {
    if es == [] {
    } else {
      var e, s1 := es[0], Do(s, es[0]);
      LosesNothingIff(s1, es[1..]);
      LostGrows(s1, es[1..]);
    }
  }

  /** When nothing is in flight, every packet has been released exactly once if and only if
      each release found memory and room in the mailbox. */
  lemma {:induction false} EveryPacketReleasedIff(size: nat, es: seq<Event>)
    requires Trace(Initial(size), es) && Quiescent(After(Initial(size), es))
    ensures var s := After(Initial(size), es);
            s.released == s.received <==> RoomThroughout(0, size, es)
  {
    var s := After(Initial(size), es);
    TraceKeepsInv(Initial(size), es);
    LosesNothingIff(Initial(size), es);
    AllAccounted(s);
    assert |s.received| == |s.released| + |s.lost|;
  }

  // ---- A lost packet, whatever the size of the mailbox ----

  predicate Supplied(e: Event) {
    match e
    case SendBegin(_, _, gotMemory) => gotMemory
    case SendPost(_, gotMemory) => gotMemory
    case Receive(_, gotMemory) => gotMemory
    case OtProcess(_, _, gotMemory) => gotMemory
    case _ => true
  }

  /** Every allocation succeeds. */
  ghost predicate AllSupplied(es: seq<Event>) { forall i :: 0 <= i < |es| ==> Supplied(es[i]) }

  lemma {:induction false} TraceConcat(s: State, es: seq<Event>, fs: seq<Event>)
    requires Trace(s, es) && Trace(After(s, es), fs)
    ensures Trace(s, es + fs) && After(s, es + fs) == After(After(s, es), fs)
    decreases |es|
  {
    if es == [] {
      assert es + fs == fs;
    } else {
      TraceConcat(Do(s, es[0]), es[1..], fs);
      assert (es + fs)[1..] == es[1..] + fs;
    }
  }

  lemma {:induction false} TraceCons(s: State, e: Event, es: seq<Event>)
    requires Can(s, e) && Trace(Do(s, e), es)
    ensures Trace(s, [e] + es) && After(s, [e] + es) == After(Do(s, e), es)
  {
    assert ([e] + es)[1..] == es;
  }

  lemma {:induction false} FillMailbox(s: State) returns (es: seq<Event>)
    requires |s.jobs| <= s.size
    ensures Trace(s, es) && AllSupplied(es)
    ensures var t := After(s, es); t == s.(jobs := t.jobs) && |t.jobs| == s.size
    decreases s.size - |s.jobs|
  {
    es := [];
    if |s.jobs| < s.size {
      var rest := FillMailbox(Do(s, PostOther));
      TraceCons(s, PostOther, rest);
      es := [PostOther] + rest;
    }
  }

  lemma {:induction false} EmptyMailbox(s: State) returns (es: seq<Event>)
    requires s.job.None?
    ensures Trace(s, es) && AllSupplied(es)
    ensures var t := After(s, es);
            && t.jobs == [] && t.job.None?
            && t.sending == s.sending && t.queue == s.queue && t.inHand == s.inHand
            && t.received == s.received && t.lost == s.lost && t.delivered == s.delivered
    decreases |s.jobs|
  {
    es := [];
    if s.jobs != [] {
      var s1 := Do(s, TcpTake);
      var rest := EmptyMailbox(Do(s1, TcpDone));
      TraceCons(s1, TcpDone, rest);
      TraceCons(s, TcpTake, [TcpDone] + rest);
      es := [TcpTake] + ([TcpDone] + rest);
    }
  }

  /** The packet in hand, processed while the mailbox is full, is never released. */
  lemma {:induction false} LoseInHand(s: State) returns (es: seq<Event>)
    requires s.enabled && s.inHand.Some? && s.job.None? && |s.jobs| <= s.size
    ensures Trace(s, es) && AllSupplied(es)
    ensures var t := After(s, es);
            && t.jobs == [] && t.job.None? && t.inHand.None?
            && t.sending == s.sending && t.queue == s.queue && t.received == s.received
            && t.lost == s.lost + multiset{s.inHand.value} && t.delivered == s.delivered + [s.inHand.value]
  {
    var fill := FillMailbox(s);
    var full := After(s, fill);
    var process := OtProcess(true, true, true);
    var empty := EmptyMailbox(Do(full, process));
    TraceCons(full, process, empty);
    TraceConcat(s, fill, [process] + empty);
    es := fill + ([process] + empty);
  }

  /** Whatever the size of the mailbox, it can be full of other work, and a packet is lost with all memory available. */
  lemma {:induction false} EverySizeCanLose(size: nat) returns (es: seq<Event>)
    ensures Trace(Initial(size), es) && AllSupplied(es)
    ensures var s := After(Initial(size), es);
            Quiescent(s) && s.received == s.lost == multiset{0} && s.delivered == [0]
  {
    var s1 := Do(Initial(size), SetEnabled(true));
    var s2 := Do(s1, Receive(0, true));
    var s3 := Do(s2, OtTake);
    var fs := LoseInHand(s3);
    TraceCons(s2, OtTake, fs);
    TraceCons(s1, Receive(0, true), [OtTake] + fs);
    TraceCons(Initial(size), SetEnabled(true), [Receive(0, true)] + ([OtTake] + fs));
    es := [SetEnabled(true)] + ([Receive(0, true)] + ([OtTake] + fs));
  }

  // ---- Everything completes ----

  /** A step that brings something in flight further. */
  ghost predicate Brings(e: Event) { !e.SendBegin? && !e.Receive? && !e.PostOther? && !e.SetEnabled? && Supplied(e) }

  function WorkLeft(s: State): nat {
    4 * |s.sending| + 4 * |s.queue| + (if s.inHand.Some? then 3 else 0) + 2 * |s.jobs| + (if s.job.Some? then 1 else 0)
  }

  lemma {:induction false} SomethingMoves(s: State) returns (e: Event)
    requires s.size >= 1 && !Quiescent(s)
    ensures Can(s, e) && Brings(e) && WorkLeft(Do(s, e)) < WorkLeft(s)
    ensures Do(s, e).size == s.size && Do(s, e).lost == s.lost
  {
    if s.job.Some? {
      e := TcpDone;
    } else if s.jobs != [] {
      e := TcpTake;
    } else if s.sending != multiset{} {
      var m :| m in s.sending;
      e := SendPost(m, true);
    } else if s.inHand.Some? {
      e := OtProcess(true, true, true);
    } else {
      e := OtTake;
    }
  }

  lemma {:induction false} Completes(s: State) returns (es: seq<Event>)
    requires s.size >= 1
    ensures Trace(s, es) && Quiescent(After(s, es)) && After(s, es).lost == s.lost && |es| <= WorkLeft(s)
    ensures forall i :: 0 <= i < |es| ==> Brings(es[i])
    decreases WorkLeft(s)
  {
    es := [];
    if !Quiescent(s) {
      var e := SomethingMoves(s);
      var rest := Completes(Do(s, e));
      TraceCons(s, e, rest);
      es := [e] + rest;
    }
  }

  /** From every reachable state the tasks can go on with what is in flight, with memory available, until nothing is:
      then every message has been freed, no context is left, and every packet not lost before has been released. */
  lemma {:induction false} EverythingCompletes(size: nat, es: seq<Event>) returns (more: seq<Event>)
    requires Trace(Initial(size), es) && size >= 1
    ensures Trace(After(Initial(size), es), more) && (forall i :: 0 <= i < |more| ==> Brings(more[i]))
    ensures var s, t := After(Initial(size), es), After(After(Initial(size), es), more);
            && Quiescent(t) && t.freed == t.given && t.contexts == 0
            && t.lost == s.lost && t.released + s.lost == t.received
  {
    SizeStays(Initial(size), es);
    more := Completes(After(Initial(size), es));
    TraceConcat(Initial(size), es, more);
    MessagesFreedExactlyOnce(size, es + more, 0);
    PacketsReleasedOnce(size, es + more, 0);
  }

  lemma {:induction false} SizeStays(s: State, es: seq<Event>)
    requires Trace(s, es)
    ensures After(s, es).size == s.size
    decreases |es|
  {
    if es == [] {
    } else {
      SizeStays(Do(s, es[0]), es[1..]);
    }
  }

  // ---- Sends that outlive the socket ----

  /** Messages between their acceptance and the end of LwipTaskCb. */
  function InFlight(s: State): nat { |s.sending| + Sends(Pending(s)) }

  /** LwipTaskCb runs while listening is disabled: it uses `sMdnsPcb`, which `udp_remove` has freed. */
  predicate UsesRemoved(s: State, e: Event) { e.TcpDone? && s.job.Some? && s.job.value.Send? && !s.enabled }

  ghost predicate RunUsesRemoved(s: State, es: seq<Event>)
    requires Trace(s, es)
    decreases |es|
  {
    es != [] && (UsesRemoved(s, es[0]) || RunUsesRemoved(Do(s, es[0]), es[1..]))
  }

  /** Listening is only disabled with no send in flight. */
  ghost predicate QuietDisables(s: State, es: seq<Event>)
    requires Trace(s, es)
    decreases |es|
  {
    es != [] ==> (es[0] == SetEnabled(false) ==> InFlight(s) == 0) && QuietDisables(Do(s, es[0]), es[1..])
  }

  predicate SocketThere(s: State) { s.enabled || InFlight(s) == 0 }

  lemma {:induction false} StepKeepsSocket(s: State, e: Event)
    requires SocketThere(s) && Can(s, e) && (e == SetEnabled(false) ==> InFlight(s) == 0)
    ensures SocketThere(Do(s, e)) && !UsesRemoved(s, e)
  {
    SendsCounted(s, e);
    ContextsMove(s, e);
  }

  lemma {:induction false} QuietRunIsSafe(s: State, es: seq<Event>)
    requires SocketThere(s) && Trace(s, es) && QuietDisables(s, es)
    ensures !RunUsesRemoved(s, es) && SocketThere(After(s, es))
    decreases |es|
  {
    if es == [] {
    } else {
      StepKeepsSocket(s, es[0]);
      QuietRunIsSafe(Do(s, es[0]), es[1..]);
    }
  }

  /** In a run that disables listening only with no send in flight, no callback uses a removed socket. */
  lemma {:induction false} NoUseAfterRemove(size: nat, es: seq<Event>)
    requires Trace(Initial(size), es) && QuietDisables(Initial(size), es)
    ensures !RunUsesRemoved(Initial(size), es)
  {
    QuietRunIsSafe(Initial(size), es);
  }

  ghost predicate NoSwitch(es: seq<Event>) { forall i :: 0 <= i < |es| ==> !es[i].SetEnabled? }

  lemma {:induction false} NoSwitchIsQuiet(s: State, es: seq<Event>)
    requires Trace(s, es) && NoSwitch(es)
    ensures QuietDisables(s, es)
    decreases |es|
  {
    if es == [] {
    } else {
      NoSwitchIsQuiet(Do(s, es[0]), es[1..]);
    }
  }

  lemma {:induction false} UseLater(s: State, e: Event, es: seq<Event>)
    requires Can(s, e) && Trace(Do(s, e), es) && RunUsesRemoved(Do(s, e), es)
    ensures Trace(s, [e] + es) && RunUsesRemoved(s, [e] + es)
  {
    TraceCons(s, e, es);
    assert ([e] + es)[1..] == es;
  }

  /** With listening disabled, a send in flight does reach the removed socket if the other steps go on. */
  lemma {:induction false} ReachesRemoved(s: State) returns (es: seq<Event>)
    requires !s.enabled && s.size >= 1 && InFlight(s) > 0
    ensures Trace(s, es) && NoSwitch(es) && RunUsesRemoved(s, es)
    decreases |s.sending|, 2 * |s.jobs| + (if s.job.Some? then 1 else 0)
  {
    var e := TcpDone;
    if s.job.None? {
      if s.jobs != [] {
        e := TcpTake;
      } else {
        var m :| m in s.sending;
        e := SendPost(m, true);
      }
    }
    SendsCounted(s, e);
    ContextsMove(s, e);
    if UsesRemoved(s, e) {
      TraceCons(s, e, []);
      es := [e] + [];
    } else {
      var rest := ReachesRemoved(Do(s, e));
      UseLater(s, e, rest);
      es := [e] + rest;
    }
  }

  /** Disabling listening is safe whatever the tasks do until the next switch if and only if no send is in flight. */
  lemma {:induction false} DisableIsSafeIff(s: State)
    requires s.size >= 1
    ensures var t := Do(s, SetEnabled(false));
            (forall es :: Trace(t, es) && NoSwitch(es) ==> !RunUsesRemoved(t, es)) <==> InFlight(s) == 0
  {
    var t := Do(s, SetEnabled(false));
    assert InFlight(t) == InFlight(s);
    if InFlight(s) == 0 {
      forall es | Trace(t, es) && NoSwitch(es)
        ensures !RunUsesRemoved(t, es)
      {
        NoSwitchIsQuiet(t, es);
        QuietRunIsSafe(t, es);
      }
    } else {
      var es := ReachesRemoved(t);
    }
  }

  /** Such a run: a message is accepted and posted, listening is disabled, and the callback runs. */
  lemma {:induction false} DisableInFlight(size: nat, m: Id) returns (es: seq<Event>)
    requires size >= 1
    ensures Trace(Initial(size), es) && RunUsesRemoved(Initial(size), es)
  {
    var s1 := Do(Initial(size), SetEnabled(true));
    var s2 := Do(s1, SendBegin(m, true, true));
    var s3 := Do(s2, SetEnabled(false));
    var rest := ReachesRemoved(s3);
    UseLater(s2, SetEnabled(false), rest);
    UseLater(s1, SendBegin(m, true, true), [SetEnabled(false)] + rest);
    UseLater(Initial(size), SetEnabled(true), [SendBegin(m, true, true)] + ([SetEnabled(false)] + rest));
    es := [SetEnabled(true)] + ([SendBegin(m, true, true)] + ([SetEnabled(false)] + rest));
  }

  // ---- The draining loop of otPlatBrProcessOtMsgQueue ----

  /** How one message fares: room for it, conversion, memory for the release. */
  datatype Fate = Fate(room: bool, converted: bool, gotMemory: bool)

  predicate OfOthers(e: Event) { !e.OtTake? && !e.OtProcess? }

  /** Those of the steps of other tasks that are possible when their turn comes, in order. */
  function Possible(s: State, steps: seq<Event>): seq<Event>
    decreases |steps|
  {
    if steps == [] then []
    else if OfOthers(steps[0]) && Can(s, steps[0]) then [steps[0]] + Possible(Do(s, steps[0]), steps[1..])
    else Possible(s, steps[1..])
  }

  /** The first group of steps. */
  function PossibleFirst(s: State, others: seq<seq<Event>>): seq<Event> {
    if others == [] then [] else Possible(s, others[0])
  }

  /** The processing steps of a run, in order. */
  function Processings(es: seq<Event>): seq<Event> {
    if es == [] then [] else (if es[0].OtProcess? then [es[0]] else []) + Processings(es[1..])
  }

  lemma {:induction false} ProcessingsConcat(a: seq<Event>, b: seq<Event>)
    ensures Processings(a + b) == Processings(a) + Processings(b)
  {
    if a == [] {
      assert a + b == b;
      Units(Processings(b));
    } else {
      assert (a + b)[1..] == a[1..] + b;
      ProcessingsConcat(a[1..], b);
      Assoc(if a[0].OtProcess? then [a[0]] else [], Processings(a[1..]), Processings(b));
    }
  }

  lemma {:induction false} OthersDoNotProcess(s: State, steps: seq<Event>)
    ensures Processings(Possible(s, steps)) == []
    decreases |steps|
  {
    if steps == [] {
    } else if OfOthers(steps[0]) && Can(s, steps[0]) {
      OthersDoNotProcess(Do(s, steps[0]), steps[1..]);
      assert Possible(s, steps)[1..] == Possible(Do(s, steps[0]), steps[1..]);
    } else {
      OthersDoNotProcess(s, steps[1..]);
    }
  }

  function ProcessStep(fate: Fate): Event { OtProcess(fate.room, fate.converted, fate.gotMemory) }

  /** The next group of other tasks' steps: those that are possible happen; sBrMutex is free. */
  method Interleave(ghost s: State, ghost before: seq<Event>, s1: State, others: seq<seq<Event>>)
    returns (t: State, ghost es: seq<Event>, rest: seq<seq<Event>>)
    requires Trace(s, before) && After(s, before) == s1
    ensures Trace(s, es) && After(s, es) == t && t.inHand == s1.inHand && t.done == s1.done
    ensures es == before + PossibleFirst(s1, others) && Processings(es) == Processings(before)
    ensures if others == [] then rest == [] && t == s1 else rest == others[1..]
  {
    t, es, rest := s1, before, others;
    if others != [] {
      t, es := Perform(s, before, s1, others[0]);
      rest := others[1..];
    } else {
      Units(before);
    }
    GroupProcessings(before, s1, others);
  }

  method Perform(ghost s: State, ghost before: seq<Event>, s1: State, steps: seq<Event>)
    returns (t: State, ghost es: seq<Event>)
    requires Trace(s, before) && After(s, before) == s1
    ensures Trace(s, es) && After(s, es) == t && t.inHand == s1.inHand && t.done == s1.done
    ensures es == before + Possible(s1, steps)
  {
    t, es := s1, before;
    assert steps[0..] == steps;
    for i := 0 to |steps|
      invariant Trace(s, es) && After(s, es) == t && t.inHand == s1.inHand && t.done == s1.done
      invariant es + Possible(t, steps[i..]) == before + Possible(s1, steps)
    {
      NextPossible(t, steps, i);
      if OfOthers(steps[i]) && Can(t, steps[i]) {
        TraceExtend(s, es, steps[i]);
        Assoc(es, [steps[i]], Possible(Do(t, steps[i]), steps[i + 1..]));
        t, es := Do(t, steps[i]), es + [steps[i]];
      }
    }
    Units(es);
  }

  lemma {:induction false} GroupProcessings(before: seq<Event>, s: State, others: seq<seq<Event>>)
    ensures Processings(before + PossibleFirst(s, others)) == Processings(before)
  {
    ProcessingsConcat(before, PossibleFirst(s, others));
    GroupsDoNotProcess(s, others);
    Units(Processings(before));
  }

  lemma {:induction false} NextPossible(s: State, steps: seq<Event>, i: nat)
    requires i < |steps|
    ensures Possible(s, steps[i..])
         == if OfOthers(steps[i]) && Can(s, steps[i]) then [steps[i]] + Possible(Do(s, steps[i]), steps[i + 1..])
            else Possible(s, steps[i + 1..])
  {
    assert steps[i..][0] == steps[i] && steps[i..][1..] == steps[i + 1..];
  }

  /** Takes the head off the list, lets the others step, processes it as its fate says and frees its context. */
  method ProcessHead(ghost s: State, ghost before: seq<Event>, s1: State, fate: Fate, others: seq<seq<Event>>)
    returns (t: State, ghost es: seq<Event>, rest: seq<seq<Event>>)
    requires Trace(s, before) && After(s, before) == s1 && s1.inHand.None? && s1.queue != []
    ensures Trace(s, es) && After(s, es) == t && t.inHand.None? && t.done == s1.done + 1
    ensures es == before + [OtTake] + PossibleFirst(Do(s1, OtTake), others) + [ProcessStep(fate)]
    ensures Processings(es) == Processings(before) + [ProcessStep(fate)]
    ensures if others == [] then rest == [] && |t.queue| < |s1.queue| else rest == others[1..]
  {
    TraceExtend(s, before, OtTake);
    t, es, rest := Interleave(s, before + [OtTake], Do(s1, OtTake), others);
    var process := OtProcess(fate.room, fate.converted, fate.gotMemory);
    TraceExtend(s, es, process);
    t, es := Do(t, process), es + [process];
    HeadProcessings(before, Do(s1, OtTake), others, process);
  }

  lemma {:induction false} GroupsDoNotProcess(s: State, others: seq<seq<Event>>)
    ensures Processings(PossibleFirst(s, others)) == []
  {
    if others != [] {
      OthersDoNotProcess(s, others[0]);
    }
  }

  /** What the steps of one message add to the processings. */
  lemma {:induction false} HeadProcessings(before: seq<Event>, s: State, others: seq<seq<Event>>, e: Event)
    requires e.OtProcess?
    ensures Processings(before + [OtTake] + PossibleFirst(s, others) + [e]) == Processings(before) + [e]
  {
    var mid := PossibleFirst(s, others);
    ProcessingsConcat(before + [OtTake] + mid, [e]);
    ProcessingsConcat(before + [OtTake], mid);
    ProcessingsConcat(before, [OtTake]);
    GroupsDoNotProcess(s, others);
    assert [OtTake][1..] == [] && [e][1..] == [];
    Units(Processings(before));
  }

  /** The k-th message processed, counted from `first`, met its own fate. */
  ghost predicate FatesMet(processings: seq<Event>, fate: nat -> Fate, first: nat) {
    forall k :: 0 <= k < |processings| ==> processings[k] == ProcessStep(fate(first + k))
  }

  lemma FatesMore(processings: seq<Event>, fate: nat -> Fate, first: nat)
    requires FatesMet(processings, fate, first)
    ensures FatesMet(processings + [ProcessStep(fate(first + |processings|))], fate, first)
  {
  }

  /** One turn of the loop: others step, and then the head is taken and processed if there is one. */
  method Turn(ghost s: State, ghost before: seq<Event>, s1: State, fate: nat -> Fate, others: seq<seq<Event>>)
    returns (t: State, ghost es: seq<Event>, rest: seq<seq<Event>>, more: bool)
    requires Trace(s, before) && After(s, before) == s1 && s1.inHand.None?
    ensures Trace(s, es) && After(s, es) == t && t.inHand.None?
    ensures if more then t.done == s1.done + 1 else t.done == s1.done && t.queue == []
    ensures Processings(es) == Processings(before) + (if more then [ProcessStep(fate(s1.done))] else [])
    ensures if others == [] then rest == [] && (if more then |t.queue| < |s1.queue| else t == s1) else |rest| < |others|
  {
    t, es, rest := Interleave(s, before, s1, others);
    more := t.queue != [];
    if more {
      t, es, rest := ProcessHead(s, es, t, fate(t.done), rest);
    } else {
      Units(Processings(before));
    }
  }

  /** Takes the head, processes it, frees its context, until the list is empty, while other tasks add packets, switch
      listening and empty the mailbox between the steps: all that was queued or came meanwhile is processed, each as
      its fate says. */
  method ProcessQueue(s: State, fate: nat -> Fate, others: seq<seq<Event>>) returns (t: State, ghost es: seq<Event>)
    requires Inv(s) && s.inHand.None?
    ensures Trace(s, es) && After(s, es) == t && Inv(t)
    ensures t.queue == [] && t.inHand.None? && t.done == |t.arrivals|
    ensures |Processings(es)| == t.done - s.done && FatesMet(Processings(es), fate, s.done)
    ensures t.arrivals == s.arrivals + Accepted(s.enabled, es)
    ensures |Passed(s.enabled, es)| == |t.arrivals| - s.done
    ensures t.delivered == s.delivered + Select(t.arrivals[s.done..], Passed(s.enabled, es))
  {
    t, es := s, [];
    var meanwhile, more := others, true;
    ghost var ps: seq<Event> := [];
    while more
      invariant Trace(s, es) && After(s, es) == t && t.inHand.None?
      invariant !more ==> t.queue == []
      invariant ps == Processings(es) && |ps| == t.done - s.done && FatesMet(ps, fate, s.done)
      decreases |meanwhile|, |t.queue|, more
    {
      FatesMore(ps, fate, s.done);
      ghost var next := ProcessStep(fate(t.done));
      t, es, meanwhile, more := Turn(s, es, t, fate, meanwhile);
      ps := ps + if more then [next] else [];
    }
    QueueProcessed(s, es);
  }

  lemma {:induction false} QueueProcessed(s: State, es: seq<Event>)
    requires Inv(s) && Trace(s, es) && Held(After(s, es)) == []
    ensures var t := After(s, es);
            && Inv(t) && t.done == |t.arrivals|
            && t.arrivals == s.arrivals + Accepted(s.enabled, es)
            && |Passed(s.enabled, es)| == |t.arrivals| - s.done
            && t.delivered == s.delivered + Select(t.arrivals[s.done..], Passed(s.enabled, es))
  {
    var t := After(s, es);
    TraceKeepsInv(s, es);
    ArrivalsAre(s, es);
    ProcessedAre(s, es);
    assert t.arrivals[s.done..t.done] == t.arrivals[s.done..];
  }

  lemma {:induction false} TraceExtend(s: State, es: seq<Event>, e: Event)
    requires Trace(s, es) && Can(After(s, es), e)
    ensures Trace(s, es + [e]) && After(s, es + [e]) == Do(After(s, es), e)
  {
    var t := After(s, es);
    assert [e][1..] == [];
    assert Trace(Do(t, e), [e][1..]);
    TraceConcat(s, es, [e]);
  }

  // ---- The control flow of SendMulticast and SendUnicast, which is the same ----

  /** `otMessageFree` calls and the post, in order of execution; a failed VerifyOrExit skips to the exit part.
      The call begins in `s`; other tasks may step before the post, which is made in `then_`. */
  method SendMessage(enabled: bool, indexMatches: bool, gotMemory: bool, postSucceeds: bool, message: Id,
                     ghost s: State, ghost then_: State)
    returns (posted: bool, freed: seq<Id>, contextsLeft: nat)
    requires s.enabled == enabled && Can(s, SendBegin(message, indexMatches, gotMemory))
    requires enabled && indexMatches && gotMemory ==> Can(then_, SendPost(message, postSucceeds))
    ensures var s1 := Do(s, SendBegin(message, indexMatches, gotMemory));
            if enabled && indexMatches && gotMemory
            then
              var t := Do(then_, SendPost(message, postSucceeds));
              && s1.freed == s.freed
              && t.jobs == then_.jobs + (if posted then [Send(message)] else [])
              && t.freed == then_.freed + multiset(freed)
              && (s1.contexts - s.contexts) + (t.contexts - then_.contexts) == contextsLeft
            else
              && s1.jobs == s.jobs
              && s1.freed == s.freed + multiset(freed)
              && s1.contexts == s.contexts + contextsLeft
    ensures posted <==> enabled && indexMatches && gotMemory && postSucceeds
    ensures freed == if posted then [] else [message]
    ensures contextsLeft == if posted then 1 else 0
  {
    var failed := false;
    var aMessage := Some(message);
    posted, freed, contextsLeft := false, [], 0;
    if enabled && indexMatches {
      if !gotMemory {
        failed := true;
      } else {
        contextsLeft := 1;
        posted := postSucceeds;
        if !posted {
          contextsLeft := 0;
          freed := freed + [message];
          aMessage := None;
          failed := true;
        }
      }
    } else {
      if aMessage.Some? {
        freed := freed + [aMessage.value];
        aMessage := None;
      }
    }
    if failed {
      if aMessage.Some? {
        freed := freed + [aMessage.value];
      }
    }
  }
}
