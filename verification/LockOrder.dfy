/** The lock protocol of ot_lwip.h between OpenThread-side tasks and the TCP/IP task. */
module LockOrder {
  import opened Bytes

  /** `depth`: how often the recursive OT lock may be held where a macro is used. `retake`: whether TCP/IP callbacks
      use the path that takes the OT lock with the core lock released and then waits for the core lock again. */
  datatype Config = Config(depth: nat, retake: bool, mailboxSize: nat)

  /** A task on the OpenThread side; the number is how often it still holds the OT lock. */
  datatype ClientPc =
    | Out
    | Entering                // waits for the OT lock
    | Inside(held: nat)
    | WantsCore(left: nat)    // CALL macro: OT lock given back once, waits for the core lock
    | HasCore(left: nat)      // CALL macro: waits for the OT lock, holding the core lock
    | InApi(left: nat)        // CALL macro: holds both
    | WantsSlot(left: nat)    // POST macro: OT lock given back once, waits for room in the mailbox
    | Posted(left: nat)       // POST macro: waits for the OT lock

  datatype TcpPc =
    | Fetching                // waits for mail, no lock held
    | TcpWantsCore
    | Running                 // a callback, holding the core lock
    | TcpWantsOt              // inside a callback
    | HasBoth
    | RetakeOt                // core lock released, waits for the OT lock
    | RetakeCore              // holds the OT lock, waits for the core lock

  datatype State = State(clients: seq<ClientPc>, tcp: TcpPc, mail: nat)

  datatype Task = Client(c: nat) | Tcp

  datatype Action =
    | Enter | Acquire | Reenter | Leave | Call | GetCore | GetOt | EndCall | Post | PutMail
    | Fetch | Finish | NeedOt | DropOt | Retake

  datatype Event = Event(task: Task, action: Action)

  // ---- Who holds and who wants what ----

  function ClientOt(pc: ClientPc): nat {
    match pc
    case Out => 0
    case Entering => 0
    case Inside(d) => d
    case WantsCore(k) => k
    case HasCore(k) => k
    case InApi(k) => k + 1
    case WantsSlot(k) => k
    case Posted(k) => k
  }

  predicate Exists(s: State, t: Task) { t.Client? ==> t.c < |s.clients| }

  predicate HoldsOt(s: State, t: Task)
    requires Exists(s, t)
  {
    match t
    case Client(c) => ClientOt(s.clients[c]) > 0
    case Tcp => s.tcp.HasBoth? || s.tcp.RetakeCore?
  }

  predicate HoldsCore(s: State, t: Task)
    requires Exists(s, t)
  {
    match t
    case Client(c) => s.clients[c].HasCore? || s.clients[c].InApi?
    case Tcp => s.tcp.Running? || s.tcp.TcpWantsOt? || s.tcp.HasBoth?
  }

  predicate WantsOt(s: State, t: Task)
    requires Exists(s, t)
  {
    match t
    case Client(c) => s.clients[c].Entering? || s.clients[c].HasCore? || s.clients[c].Posted?
    case Tcp => s.tcp.TcpWantsOt? || s.tcp.RetakeOt?
  }

  predicate WantsCoreLock(s: State, t: Task)
    requires Exists(s, t)
  {
    match t
    case Client(c) => s.clients[c].WantsCore?
    case Tcp => s.tcp.TcpWantsCore? || s.tcp.RetakeCore?
  }

  predicate WantsRoom(s: State, t: Task)
    requires Exists(s, t)
  {
    t.Client? && s.clients[t.c].WantsSlot?
  }

  ghost predicate OtFreeFor(s: State, t: Task) {
    forall u :: Exists(s, u) && u != t ==> !HoldsOt(s, u)
  }

  ghost predicate CoreFree(s: State) {
    forall u :: Exists(s, u) ==> !HoldsCore(s, u)
  }

  // ---- Steps ----

  ghost function ClientNext(cfg: Config, s: State, c: nat, a: Action): Option<ClientPc>
    requires c < |s.clients|
  {
    match (s.clients[c], a)
    case (Out, Enter) => Some(Entering)
    case (Entering, Acquire) => if OtFreeFor(s, Client(c)) then Some(Inside(1)) else None
    case (Inside(d), Reenter) => Some(Inside(d + 1))
    case (Inside(d), Leave) => if d <= 1 then Some(Out) else Some(Inside(d - 1))
    case (Inside(d), Call) => if 1 <= d <= cfg.depth then Some(WantsCore(d - 1)) else None
    case (WantsCore(k), GetCore) => if CoreFree(s) then Some(HasCore(k)) else None
    case (HasCore(k), GetOt) => if OtFreeFor(s, Client(c)) then Some(InApi(k)) else None
    case (InApi(k), EndCall) => Some(Inside(k + 1))
    case (Inside(d), Post) => if 1 <= d <= cfg.depth then Some(WantsSlot(d - 1)) else None
    case (WantsSlot(k), PutMail) => if s.mail < cfg.mailboxSize then Some(Posted(k)) else None
    case (Posted(k), GetOt) => if OtFreeFor(s, Client(c)) then Some(Inside(k + 1)) else None
    case (_, _) => None
  }

  ghost function TcpNext(cfg: Config, s: State, a: Action): Option<TcpPc> {
    match (s.tcp, a)
    case (Fetching, Fetch) => if s.mail > 0 then Some(TcpWantsCore) else None
    case (TcpWantsCore, GetCore) => if CoreFree(s) then Some(Running) else None
    case (Running, Finish) => Some(Fetching)
    case (Running, NeedOt) => Some(TcpWantsOt)
    case (TcpWantsOt, GetOt) => if OtFreeFor(s, Tcp) then Some(HasBoth) else None
    case (HasBoth, DropOt) => Some(Running)
    case (Running, Retake) => if cfg.retake then Some(RetakeOt) else None
    case (RetakeOt, GetOt) => if OtFreeFor(s, Tcp) then Some(RetakeCore) else None
    case (RetakeCore, GetCore) => if CoreFree(s) then Some(HasBoth) else None
    case (_, _) => None
  }

  ghost function Next(cfg: Config, s: State, e: Event): Option<State> {
    match e.task
    case Client(c) =>
      if c >= |s.clients| then None
      else (match ClientNext(cfg, s, c, e.action)
            case None => None
            case Some(pc) => Some(State(s.clients[c := pc], s.tcp, if e.action == PutMail then s.mail + 1 else s.mail)))
    case Tcp =>
      match TcpNext(cfg, s, e.action)
      case None => None
      case Some(pc) => Some(State(s.clients, pc, if e.action == Fetch then s.mail - 1 else s.mail))
  }

  ghost predicate Reaches(cfg: Config, s: State, es: seq<Event>, t: State)
    decreases |es|
  {
    if es == [] then s == t
    else Next(cfg, s, es[0]).Some? && Reaches(cfg, Next(cfg, s, es[0]).value, es[1..], t)
  }

  function Initial(n: nat): State { State(seq(n, _ => Out), Fetching, 0) }

  // ---- Waiting ----

  /** t cannot go on before u does something. */
  predicate WaitsOn(cfg: Config, s: State, t: Task, u: Task) {
    && Exists(s, t) && Exists(s, u) && t != u
    && (|| (WantsOt(s, t) && HoldsOt(s, u))
        || (WantsCoreLock(s, t) && HoldsCore(s, u))
        || (WantsRoom(s, t) && s.mail >= cfg.mailboxSize && u.Tcp?))
  }

  /** How far a task is from running: not waiting, for the OT lock, for the core lock, for the mailbox. */
  function Rank(s: State, t: Task): nat
    requires Exists(s, t)
  {
    if WantsRoom(s, t) then 3 else if WantsCoreLock(s, t) then 2 else if WantsOt(s, t) then 1 else 0
  }

  /** The lock order: whoever waits for the core lock or the mailbox does not hold the OT lock. */
  predicate Ordered(s: State) {
    && (forall c :: 0 <= c < |s.clients| ==>
          (match s.clients[c]
           case WantsCore(k) => k == 0
           case HasCore(k) => k == 0
           case InApi(k) => k == 0
           case WantsSlot(k) => k == 0
           case Posted(k) => k == 0
           case _ => true))
    && !s.tcp.RetakeOt? && !s.tcp.RetakeCore?
  }

  lemma NextKeepsOrder(cfg: Config, s: State, e: Event)
    requires cfg.depth == 1 && !cfg.retake && Ordered(s) && Next(cfg, s, e).Some?
    ensures Ordered(Next(cfg, s, e).value)
  {
  }

  lemma {:induction false} ReachableOrdered(cfg: Config, s: State, es: seq<Event>, t: State)
    requires cfg.depth == 1 && !cfg.retake && Ordered(s) && Reaches(cfg, s, es, t)
    ensures Ordered(t)
    decreases |es|
  {
    if es == [] {
    } else {
      NextKeepsOrder(cfg, s, es[0]);
      ReachableOrdered(cfg, Next(cfg, s, es[0]).value, es[1..], t);
    }
  }

  /** Each lock has at most one holder; a task inside holds the OT lock. */
  ghost predicate Exclusive(s: State) {
    && (forall c :: 0 <= c < |s.clients| && s.clients[c].Inside? ==> s.clients[c].held > 0)
    && (forall t, u :: Exists(s, t) && Exists(s, u) && HoldsOt(s, t) && HoldsOt(s, u) ==> t == u)
    && (forall t, u :: Exists(s, t) && Exists(s, u) && HoldsCore(s, t) && HoldsCore(s, u) ==> t == u)
  }

  /** A step changes what its own task holds only. */
  lemma OthersHoldTheSame(cfg: Config, s: State, e: Event)
    requires Next(cfg, s, e).Some?
    ensures var s' := Next(cfg, s, e).value;
            && (forall u :: Exists(s', u) <==> Exists(s, u))
            && (forall u :: Exists(s, u) && u != e.task ==> (HoldsOt(s', u) <==> HoldsOt(s, u)))
            && (forall u :: Exists(s, u) && u != e.task ==> (HoldsCore(s', u) <==> HoldsCore(s, u)))
  {
  }

  /** And it takes a free lock only. */
  lemma TakesWhatIsFree(cfg: Config, s: State, e: Event)
    requires Exclusive(s) && Next(cfg, s, e).Some?
    ensures var s' := Next(cfg, s, e).value;
            && Exists(s, e.task)
            && (HoldsOt(s', e.task) && !HoldsOt(s, e.task) ==> OtFreeFor(s, e.task))
            && (HoldsCore(s', e.task) && !HoldsCore(s, e.task) ==> CoreFree(s))
            && (e.task.Client? && s'.clients[e.task.c].Inside? ==> s'.clients[e.task.c].held > 0)
  {
  }

  lemma NextKeepsExclusive(cfg: Config, s: State, e: Event)
    requires Exclusive(s) && Next(cfg, s, e).Some?
    ensures Exclusive(Next(cfg, s, e).value)
  {
    OthersHoldTheSame(cfg, s, e);
    TakesWhatIsFree(cfg, s, e);
  }

  lemma {:induction false} ReachableExclusive(cfg: Config, s: State, es: seq<Event>, t: State)
    requires Exclusive(s) && Reaches(cfg, s, es, t)
    ensures Exclusive(t)
    decreases |es|
  {
    if es == [] {
    } else {
      NextKeepsExclusive(cfg, s, es[0]);
      ReachableExclusive(cfg, Next(cfg, s, es[0]).value, es[1..], t);
    }
  }

  // ---- The locks told from the actions alone ----

  /** What an action does to the OT lock, the core lock and the mailbox: each is one lock, unlock, put or fetch. */
  function OtChange(a: Action): int {
    match a
    case Acquire => 1
    case Reenter => 1
    case GetOt => 1
    case Leave => -1
    case Call => -1
    case Post => -1
    case DropOt => -1
    case _ => 0
  }

  function CoreChange(a: Action): int {
    match a
    case GetCore => 1
    case EndCall => -1
    case Finish => -1
    case Retake => -1
    case _ => 0
  }

  function MailChange(a: Action): int { if a.PutMail? then 1 else if a.Fetch? then -1 else 0 }

  /** A callback begins with the fetch of its message and ends once. */
  function CallbackChange(a: Action): int { if a.Fetch? then 1 else if a.Finish? then -1 else 0 }

  function Callbacks(s: State): int { if s.tcp.Fetching? then 0 else 1 }

  /** What a caller of the macros does itself: it enters, goes deeper and leaves. */
  function OwnChange(a: Action): int { if a.Acquire? || a.Reenter? then 1 else if a.Leave? then -1 else 0 }

  /** The sum of a change over the actions of one task. */
  function Sum(change: Action -> int, es: seq<Event>, t: Task): int
    decreases |es|
  {
    if es == [] then 0 else (if es[0].task == t then change(es[0].action) else 0) + Sum(change, es[1..], t)
  }

  /** The sum over all tasks. */
  function Total(change: Action -> int, es: seq<Event>): int
    decreases |es|
  {
    if es == [] then 0 else change(es[0].action) + Total(change, es[1..])
  }

  function OtHeld(s: State, t: Task): int
    requires Exists(s, t)
  {
    match t
    case Client(c) => ClientOt(s.clients[c])
    case Tcp => if HoldsOt(s, t) then 1 else 0
  }

  function CoreHeld(s: State, t: Task): int
    requires Exists(s, t)
  {
    if HoldsCore(s, t) then 1 else 0
  }

  /** Between the first and the last lock operation of a CALL or POST macro. */
  predicate InMacro(s: State, t: Task)
    requires Exists(s, t)
  {
    t.Client? && !(s.clients[t.c].Out? || s.clients[t.c].Entering? || s.clients[t.c].Inside?)
  }

  /** How often the caller of a macro had the OT lock when it used it, or has it now. */
  function OwnHeld(s: State, t: Task): int
    requires Exists(s, t)
  {
    match t
    case Client(c) =>
      (match s.clients[c]
       case WantsCore(k) => k + 1
       case HasCore(k) => k + 1
       case InApi(k) => k + 1
       case WantsSlot(k) => k + 1
       case Posted(k) => k + 1
       case pc => ClientOt(pc))
    case Tcp => 0
  }

  /** One step. */
  lemma {:induction false} StepLedger(cfg: Config, s: State, e: Event, t: Task)
    requires Exclusive(s) && Next(cfg, s, e).Some? && Exists(s, t)
    ensures var s', mine := Next(cfg, s, e).value, e.task == t;
            && Exists(s', t)
            && OtHeld(s', t) == OtHeld(s, t) + (if mine then OtChange(e.action) else 0)
            && CoreHeld(s', t) == CoreHeld(s, t) + (if mine then CoreChange(e.action) else 0)
            && OwnHeld(s', t) == OwnHeld(s, t) + (if mine && t.Client? then OwnChange(e.action) else 0)
            && s'.mail == s.mail + MailChange(e.action)
            && Callbacks(s') == Callbacks(s) + CallbackChange(e.action)
            && (s.mail <= cfg.mailboxSize ==> s'.mail <= cfg.mailboxSize)
  {
    assert e.task.Client? ==> e.task.c < |s.clients|;
  }

  lemma {:induction false} RunLedger(cfg: Config, s: State, es: seq<Event>, s': State, t: Task)
    requires Exclusive(s) && Reaches(cfg, s, es, s') && Exists(s, t) && s.mail <= cfg.mailboxSize
    ensures Exists(s', t)
    ensures OtHeld(s', t) == OtHeld(s, t) + Sum(OtChange, es, t)
    ensures CoreHeld(s', t) == CoreHeld(s, t) + Sum(CoreChange, es, t)
    ensures t.Client? ==> OwnHeld(s', t) == OwnHeld(s, t) + Sum(OwnChange, es, t)
    ensures s'.mail == s.mail + Total(MailChange, es) <= cfg.mailboxSize
    ensures Callbacks(s') == Callbacks(s) + Total(CallbackChange, es)
    decreases |es|
  {
    if es == [] {
    } else {
      StepLedger(cfg, s, es[0], t);
      NextKeepsExclusive(cfg, s, es[0]);
      RunLedger(cfg, Next(cfg, s, es[0]).value, es[1..], s', t);
    }
  }

  /** In every reachable state each task holds each lock as often as it has taken it less given it back, the mailbox
      holds what was put less fetched and is never over its size, and one callback runs for each message fetched; a
      client in no macro holds the OT lock exactly as often as it entered and went deeper less left, and not the core
      lock. */
  lemma {:induction false} LocksBalance(cfg: Config, n: nat, es: seq<Event>, s: State, t: Task)
    requires Reaches(cfg, Initial(n), es, s) && Exists(Initial(n), t)
    ensures Exists(s, t)
    ensures OtHeld(s, t) == Sum(OtChange, es, t) && CoreHeld(s, t) == Sum(CoreChange, es, t)
    ensures s.mail == Total(MailChange, es) <= cfg.mailboxSize && Callbacks(s) == Total(CallbackChange, es)
    ensures t.Client? && !InMacro(s, t) ==> OtHeld(s, t) == Sum(OwnChange, es, t) && !HoldsCore(s, t)
  {
    RunLedger(cfg, Initial(n), es, s, t);
  }

  /** A completed CALL or POST restores the OT lock: from a reachable state in no macro to a later one, with no
      entering, going deeper or leaving of its own in between, a client ends holding it as often as it did, without the
      core lock. */
  lemma {:induction false} MacroRestores(cfg: Config, n: nat, es: seq<Event>, s: State, more: seq<Event>, s': State,
                                         c: nat)
    requires c < n && Reaches(cfg, Initial(n), es, s) && Reaches(cfg, s, more, s')
    requires Exists(s, Client(c)) && !InMacro(s, Client(c))
    requires forall i :: 0 <= i < |more| && more[i].task == Client(c) ==> OwnChange(more[i].action) == 0
    ensures Exists(s', Client(c))
    ensures !InMacro(s', Client(c)) ==>
              OtHeld(s', Client(c)) == OtHeld(s, Client(c)) && !HoldsCore(s', Client(c))
  {
    RunLedger(cfg, Initial(n), es, s, Client(c));
    ReachableExclusive(cfg, Initial(n), es, s);
    RunLedger(cfg, s, more, s', Client(c));
    NothingOwn(more, Client(c));
  }

  lemma {:induction false} NothingOwn(es: seq<Event>, t: Task)
    requires forall i :: 0 <= i < |es| && es[i].task == t ==> OwnChange(es[i].action) == 0
    ensures Sum(OwnChange, es, t) == 0
    decreases |es|
  {
    if es == [] {
    } else {
      NothingOwn(es[1..], t);
    }
  }

  /** Waiting always leads to a lower rank, so no set of tasks can wait in a circle. */
  lemma NoCircularWait(cfg: Config, n: nat, es: seq<Event>, s: State, t: Task, u: Task)
    requires cfg.depth == 1 && !cfg.retake && Reaches(cfg, Initial(n), es, s)
    requires WaitsOn(cfg, s, t, u)
    ensures Rank(s, u) < Rank(s, t)
    ensures WantsCoreLock(s, t) || WantsRoom(s, t) ==> !HoldsOt(s, t)
  {
    ReachableOrdered(cfg, Initial(n), es, s);
  }

  /** The step a task that waits for nobody can take. */
  function Ready(s: State, t: Task): Action
    requires Exists(s, t)
  {
    match t
    case Client(c) =>
      (match s.clients[c]
       case Out => Enter
       case Entering => Acquire
       case Inside(_) => Leave
       case WantsCore(_) => GetCore
       case HasCore(_) => GetOt
       case InApi(_) => EndCall
       case WantsSlot(_) => PutMail
       case Posted(_) => GetOt)
    case Tcp =>
      (match s.tcp
       case Fetching => Fetch
       case TcpWantsCore => GetCore
       case Running => Finish
       case TcpWantsOt => GetOt
       case HasBoth => DropOt
       case RetakeOt => GetOt
       case RetakeCore => GetCore)
  }

  ghost predicate Enabled(cfg: Config, s: State, t: Task)
    requires Exists(s, t)
  {
    Next(cfg, s, Event(t, Ready(s, t))).Some?
  }

  /** The TCP/IP task has nothing to do. */
  predicate IdleTcp(s: State, t: Task) { t.Tcp? && s.tcp.Fetching? && s.mail == 0 }

  /** In any state: a task that waits on no one can step, unless it is the TCP/IP task with an empty mailbox. */
  lemma NotWaitingMoves(cfg: Config, s: State, t: Task)
    requires Exists(s, t) && (forall u :: !WaitsOn(cfg, s, t, u))
    ensures Enabled(cfg, s, t) || IdleTcp(s, t)
  {
    assert !WaitsOn(cfg, s, t, Tcp);
    forall u | Exists(s, u)
      ensures u != t && WantsOt(s, t) ==> !HoldsOt(s, u)
      ensures WantsCoreLock(s, t) ==> !HoldsCore(s, u)
    {
      assert !WaitsOn(cfg, s, t, u);
    }
  }

  // ---- Progress ----

  /** Each task on the path waits on the next one. */
  ghost predicate WaitPath(cfg: Config, s: State, path: seq<Task>) {
    && path != [] && (forall i :: 0 <= i < |path| ==> Exists(s, path[i]))
    && forall i :: 0 < i < |path| ==> WaitsOn(cfg, s, path[i - 1], path[i])
  }

  /** Whoever waits, someone can step: from every task at most three waits lead to a task that can go on at once.
      Only the TCP/IP task with an empty mailbox has nothing to do, and nobody waits for it then. */
  lemma {:induction false} SomeTaskCanStep(cfg: Config, n: nat, es: seq<Event>, s: State, t: Task)
    returns (path: seq<Task>)
    requires cfg.depth == 1 && !cfg.retake && cfg.mailboxSize >= 1
    requires Reaches(cfg, Initial(n), es, s) && Exists(s, t)
    ensures WaitPath(cfg, s, path) && path[0] == t && |path| <= Rank(s, t) + 1 <= 4
    ensures Enabled(cfg, s, path[|path| - 1]) || (path == [t] && IdleTcp(s, t))
    decreases Rank(s, t)
  {
    if u :| WaitsOn(cfg, s, t, u) {
      NoCircularWait(cfg, n, es, s, t, u);
      var rest := SomeTaskCanStep(cfg, n, es, s, u);
      path := [t] + rest;
      forall i | 0 < i < |path|
        ensures WaitsOn(cfg, s, path[i - 1], path[i])
      {
        assert i > 1 ==> path[i - 1] == rest[i - 2] && WaitsOn(cfg, s, rest[i - 2], rest[i - 1]);
      }
    } else {
      NotWaitingMoves(cfg, s, t);
      path := [t];
    }
  }

  // ---- Exactly when the protocol can deadlock ----

  ghost predicate WaitsWithin(cfg: Config, s: State, d: set<Task>, t: Task) {
    exists u :: u in d && WaitsOn(cfg, s, t, u)
  }

  /** Every task of the set waits on a task of the set. */
  ghost predicate Stuck(cfg: Config, s: State, d: set<Task>) {
    d != {} && forall t {:trigger WaitsWithin(cfg, s, d, t)} :: t in d ==> WaitsWithin(cfg, s, d, t)
  }

  ghost predicate Deadlock(cfg: Config, s: State) {
    exists d :: Stuck(cfg, s, d)
  }

  lemma WaitingCannotStep(cfg: Config, s: State, t: Task, u: Task, a: Action)
    requires WaitsOn(cfg, s, t, u)
    ensures Next(cfg, s, Event(t, a)).None?
  {
    assert WantsOt(s, t) && HoldsOt(s, u) ==> !OtFreeFor(s, t);
    assert WantsCoreLock(s, t) && HoldsCore(s, u) ==> !CoreFree(s);
  }

  /** A third task's step does not end a wait. */
  lemma WaitStays(cfg: Config, s: State, e: Event, t: Task, u: Task)
    requires WaitsOn(cfg, s, t, u) && e.task != t && e.task != u && Next(cfg, s, e).Some?
    ensures WaitsOn(cfg, Next(cfg, s, e).value, t, u)
  {
  }

  lemma StuckCannotStep(cfg: Config, s: State, d: set<Task>, e: Event)
    requires Stuck(cfg, s, d) && e.task in d
    ensures Next(cfg, s, e).None?
  {
    assert WaitsWithin(cfg, s, d, e.task);
    var u :| u in d && WaitsOn(cfg, s, e.task, u);
    WaitingCannotStep(cfg, s, e.task, u, e.action);
    assert e == Event(e.task, e.action);
  }

  lemma StuckTransfers(cfg: Config, s: State, s': State, d: set<Task>)
    requires Stuck(cfg, s, d)
    requires forall t, u :: t in d && u in d && WaitsOn(cfg, s, t, u) ==> WaitsOn(cfg, s', t, u)
    ensures Stuck(cfg, s', d)
  {
    forall t | t in d
      ensures WaitsWithin(cfg, s', d, t)
    {
      assert WaitsWithin(cfg, s, d, t);
      var u :| u in d && WaitsOn(cfg, s, t, u);
      assert WaitsOn(cfg, s', t, u);
    }
  }

  /** A stuck set stays stuck, whatever the other tasks do. */
  lemma {:induction false} StuckForever(cfg: Config, s: State, d: set<Task>, es: seq<Event>, s': State)
    requires Stuck(cfg, s, d) && Reaches(cfg, s, es, s')
    ensures Stuck(cfg, s', d) && forall i :: 0 <= i < |es| ==> es[i].task !in d
    decreases |es|
  {
    if es == [] {
    } else {
      var e, next := es[0], Next(cfg, s, es[0]).value;
      if e.task in d {
        StuckCannotStep(cfg, s, d, e);
      }
      forall t, u | t in d && u in d && WaitsOn(cfg, s, t, u)
        ensures WaitsOn(cfg, next, t, u)
      {
        WaitStays(cfg, s, e, t, u);
      }
      StuckTransfers(cfg, s, next, d);
      StuckForever(cfg, next, d, es[1..], s');
      assert forall i :: 0 < i < |es| ==> es[i] == es[1..][i - 1];
    }
  }

  lemma PairStuck(cfg: Config, s: State, t: Task, u: Task)
    requires WaitsOn(cfg, s, t, u) && WaitsOn(cfg, s, u, t)
    ensures Deadlock(cfg, s)
  {
    var d := {t, u};
    assert WaitsWithin(cfg, s, d, t) && WaitsWithin(cfg, s, d, u);
    assert Stuck(cfg, s, d);
  }

  /** With ranks going down along every wait, no set of tasks is stuck. */
  lemma {:induction false} NoStuckSet(cfg: Config, n: nat, es: seq<Event>, s: State, d: set<Task>, t: Task)
    requires cfg.depth == 1 && !cfg.retake && Reaches(cfg, Initial(n), es, s)
    requires t in d && Exists(s, t)
    ensures !Stuck(cfg, s, d)
    decreases Rank(s, t)
  {
    if Stuck(cfg, s, d) {
      assert WaitsWithin(cfg, s, d, t);
      var u :| u in d && WaitsOn(cfg, s, t, u);
      NoCircularWait(cfg, n, es, s, t, u);
      NoStuckSet(cfg, n, es, s, d, u);
    }
  }

  ghost predicate CanReach(cfg: Config, s: State, t: State) {
    exists es :: Reaches(cfg, s, es, t)
  }

  ghost predicate CanDeadlock(cfg: Config, n: nat) {
    exists s :: CanReach(cfg, Initial(n), s) && Deadlock(cfg, s)
  }

  lemma Here(cfg: Config, s: State)
    ensures CanReach(cfg, s, s)
  {
    assert Reaches(cfg, s, [], s);
  }

  lemma StepFirst(cfg: Config, s: State, e: Event, t: State)
    requires Next(cfg, s, e).Some? && CanReach(cfg, Next(cfg, s, e).value, t)
    ensures CanReach(cfg, s, t)
  {
    var es :| Reaches(cfg, Next(cfg, s, e).value, es, t);
    assert ([e] + es)[1..] == es;
    assert Reaches(cfg, s, [e] + es, t);
  }

  /** Only client 0 and the TCP/IP task have left their start. */
  function Pair(n: nat, pc: ClientPc, tcp: TcpPc, mail: nat): State
    requires n > 0
  {
    State(seq(n, _ => Out)[0 := pc], tcp, mail)
  }

  /** Client 0 moves to `pc'` by an action that leaves the mailbox alone. */
  lemma ClientMoves(cfg: Config, n: nat, pc: ClientPc, tcp: TcpPc, mail: nat, a: Action, pc': ClientPc, t: State)
    requires n > 0 && ClientNext(cfg, Pair(n, pc, tcp, mail), 0, a) == Some(pc') && a != PutMail
    requires CanReach(cfg, Pair(n, pc', tcp, mail), t)
    ensures CanReach(cfg, Pair(n, pc, tcp, mail), t)
  {
    var s := Pair(n, pc, tcp, mail);
    assert s.clients[0 := pc'] == Pair(n, pc', tcp, mail).clients;
    StepFirst(cfg, s, Event(Client(0), a), t);
  }

  lemma TcpMoves(cfg: Config, n: nat, pc: ClientPc, tcp: TcpPc, mail: nat, a: Action, tcp': TcpPc, t: State)
    requires n > 0 && TcpNext(cfg, Pair(n, pc, tcp, mail), a) == Some(tcp')
    requires a == Fetch ==> mail > 0
    requires CanReach(cfg, Pair(n, pc, tcp', if a == Fetch then mail - 1 else mail), t)
    ensures CanReach(cfg, Pair(n, pc, tcp, mail), t)
  {
    StepFirst(cfg, Pair(n, pc, tcp, mail), Event(Tcp, a), t);
  }

  /** From the start, client 0 can be inside with one message posted. */
  lemma AfterOnePost(cfg: Config, n: nat, t: State)
    requires n > 0 && cfg.depth >= 1 && cfg.mailboxSize >= 1
    requires CanReach(cfg, Pair(n, Inside(1), Fetching, 1), t)
    ensures CanReach(cfg, Initial(n), t)
  {
    ClientMoves(cfg, n, Posted(0), Fetching, 1, GetOt, Inside(1), t);
    var s := Pair(n, WantsSlot(0), Fetching, 0);
    assert s.clients[0 := Posted(0)] == Pair(n, Posted(0), Fetching, 1).clients;
    StepFirst(cfg, s, Event(Client(0), PutMail), t);
    ClientMoves(cfg, n, Inside(1), Fetching, 0, Post, WantsSlot(0), t);
    ClientMoves(cfg, n, Entering, Fetching, 0, Acquire, Inside(1), t);
    ClientMoves(cfg, n, Out, Fetching, 0, Enter, Entering, t);
    assert Initial(n).clients == Pair(n, Out, Fetching, 0).clients;
  }

  /** While client 0 waits for the core lock, the TCP/IP task can take the message and the core lock. */
  lemma CallbackStarts(cfg: Config, n: nat, k: nat, t: State)
    requires n > 0 && CanReach(cfg, Pair(n, WantsCore(k), Running, 0), t)
    ensures CanReach(cfg, Pair(n, WantsCore(k), Fetching, 1), t)
  {
    TcpMoves(cfg, n, WantsCore(k), TcpWantsCore, 0, GetCore, Running, t);
    TcpMoves(cfg, n, WantsCore(k), Fetching, 1, Fetch, TcpWantsCore, t);
  }

  /** Using a macro with the lock held twice: the OT lock is not really given back. */
  lemma NestedUseDeadlocks(cfg: Config, n: nat)
    requires n > 0 && cfg.depth >= 2 && cfg.mailboxSize >= 1
    ensures CanDeadlock(cfg, n)
  {
    var t := Pair(n, WantsCore(1), TcpWantsOt, 0);
    Here(cfg, t);
    TcpMoves(cfg, n, WantsCore(1), Running, 0, NeedOt, TcpWantsOt, t);
    CallbackStarts(cfg, n, 1, t);
    ClientMoves(cfg, n, Inside(2), Fetching, 1, Call, WantsCore(1), t);
    ClientMoves(cfg, n, Inside(1), Fetching, 1, Reenter, Inside(2), t);
    AfterOnePost(cfg, n, t);
    PairStuck(cfg, t, Client(0), Tcp);
  }

  /** From the start, client 0 can wait for the core lock in the CALL macro while a callback runs. */
  lemma CallMeetsCallback(cfg: Config, n: nat, t: State)
    requires n > 0 && cfg.depth >= 1 && cfg.mailboxSize >= 1
    requires CanReach(cfg, Pair(n, WantsCore(0), Running, 0), t)
    ensures CanReach(cfg, Initial(n), t)
  {
    CallbackStarts(cfg, n, 0, t);
    ClientMoves(cfg, n, Inside(1), Fetching, 1, Call, WantsCore(0), t);
    AfterOnePost(cfg, n, t);
  }

  /** The path that waits for the core lock while holding the OT lock meets the CALL macro head on. */
  lemma RetakeDeadlocks(cfg: Config, n: nat)
    requires n > 0 && cfg.depth >= 1 && cfg.retake && cfg.mailboxSize >= 1
    ensures CanDeadlock(cfg, n)
  {
    var t := Pair(n, HasCore(0), RetakeCore, 0);
    Here(cfg, t);
    TcpMoves(cfg, n, HasCore(0), RetakeOt, 0, GetOt, RetakeCore, t);
    ClientMoves(cfg, n, WantsCore(0), RetakeOt, 0, GetCore, HasCore(0), t);
    TcpMoves(cfg, n, WantsCore(0), Running, 0, Retake, RetakeOt, t);
    CallMeetsCallback(cfg, n, t);
    PairStuck(cfg, t, Client(0), Tcp);
  }

  /** Some set of tasks, of any size, can get stuck if and only if a macro is used with the OT lock held more than once,
      or the retaking path is in use. */
  lemma DeadlocksIff(cfg: Config, n: nat)
    requires n > 0 && cfg.depth >= 1 && cfg.mailboxSize >= 1
    ensures CanDeadlock(cfg, n) <==> cfg.depth >= 2 || cfg.retake
  {
    if cfg.depth >= 2 {
      NestedUseDeadlocks(cfg, n);
    } else if cfg.retake {
      RetakeDeadlocks(cfg, n);
    } else {
      forall s | CanReach(cfg, Initial(n), s)
        ensures !Deadlock(cfg, s)
      {
        var es :| Reaches(cfg, Initial(n), es, s);
        forall d
          ensures !Stuck(cfg, s, d)
        {
          if Stuck(cfg, s, d) {
            var t :| t in d;
            assert WaitsWithin(cfg, s, d, t);
            NoStuckSet(cfg, n, es, s, d, t);
          }
        }
      }
    }
  }
}
