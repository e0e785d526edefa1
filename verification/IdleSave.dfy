/** The deferred save of flash_fsa.c: writer tasks and the idle task, interleaved step by step. */
module IdleSave {
  import opened Bytes
  import opened Tlv
  import opened SettingsSpec

  /** Where a task inside a settings call is: every step from Locked on holds the mutex. */
  datatype WriterPc = Out | Locked(op: Op) | Editing(op: Op) | Edited | Flagged

  /** Where the idle task is; `at` is the number of the committed list it copied. */
  datatype IdlePc =
    | Rest
    | Tested
    | Cleared
    | Locked
    | LenCopied(n: nat)
    | Copied(snapshot: seq<byte>, at: nat)
    | Writing(snapshot: seq<byte>, at: nat)

  datatype Holder = Free | Writer(w: nat) | IdleTask

  /** `bytes` is the record part of the buffer. `history` (every committed record list, the current one last)
      and `saved` (which of them the file holds) are kept for the specification only. */
  datatype State = State(
    bytes: seq<byte>,
    flag: bool,
    mutex: Holder,
    writers: seq<WriterPc>,
    idle: IdlePc,
    file: Option<seq<byte>>,
    history: seq<seq<Record>>,
    saved: nat)

  datatype Event =
    | WriterLock(w: nat, op: Op)
    | WriterGiveUp(w: nat)              // a read, or an operation that fails: nothing is changed
    | WriterEdit(w: nat, b: seq<byte>)  // any intermediate buffer content
    | WriterFinish(w: nat)              // the last byte of the edit is written
    | WriterFlag(w: nat)
    | WriterUnlock(w: nat)
    | IdleTest | IdleClear | IdleLock | IdleCopyLen | IdleCopy | IdleUnlock | IdleWrite

  /** The record list as of the last finished operation. */
  function Current(s: State): seq<Record>
    requires s.history != []
  {
    s.history[|s.history| - 1]
  }

  /** The operation changes the buffer. */
  predicate Changes(rs: seq<Record>, op: Op) {
    !op.Get? && Step(rs, op).1.error == NoError
  }

  predicate Can(s: State, e: Event) {
    && s.history != []
    && match e
       case WriterLock(w, op) => w < |s.writers| && s.writers[w].Out? && s.mutex == Free
       case WriterGiveUp(w) => w < |s.writers| && s.writers[w].Locked? && !Changes(Current(s), s.writers[w].op)
       case WriterEdit(w, b) =>
         && w < |s.writers| && (s.writers[w].Locked? || s.writers[w].Editing?) && Changes(Current(s), s.writers[w].op)
         && |b| <= CAPACITY
       case WriterFinish(w) => w < |s.writers| && s.writers[w].Editing?
       case WriterFlag(w) => w < |s.writers| && s.writers[w].Edited?
       case WriterUnlock(w) => w < |s.writers| && s.writers[w].Flagged?
       case IdleTest => s.idle.Rest? && s.flag
       case IdleClear => s.idle.Tested?
       case IdleLock => s.idle.Cleared? && s.mutex == Free
       case IdleCopyLen => s.idle.Locked?
       case IdleCopy => s.idle.LenCopied? && s.idle.n <= |s.bytes|
       case IdleUnlock => s.idle.Copied?
       case IdleWrite => s.idle.Writing?
  }

  function Do(s: State, e: Event): State
    requires Can(s, e)
  {
    match e
    case WriterLock(w, op) => s.(mutex := Writer(w), writers := s.writers[w := WriterPc.Locked(op)])
    case WriterGiveUp(w) => s.(mutex := Free, writers := s.writers[w := Out])
    case WriterEdit(w, b) => s.(bytes := b, writers := s.writers[w := Editing(s.writers[w].op)])
    case WriterFinish(w) =>
      var rs := Step(Current(s), s.writers[w].op).0;
      s.(bytes := Encode(rs), history := s.history + [rs], writers := s.writers[w := Edited])
    case WriterFlag(w) => s.(flag := true, writers := s.writers[w := Flagged])
    case WriterUnlock(w) => s.(mutex := Free, writers := s.writers[w := Out])
    case IdleTest => s.(idle := Tested)
    case IdleClear => s.(flag := false, idle := Cleared)
    case IdleLock => s.(mutex := IdleTask, idle := IdlePc.Locked)
    case IdleCopyLen => s.(idle := LenCopied(|s.bytes|))
    case IdleCopy => s.(idle := Copied(s.bytes[..s.idle.n], |s.history| - 1))
    case IdleUnlock => s.(mutex := Free, idle := Writing(s.idle.snapshot, s.idle.at))
    case IdleWrite => s.(file := FileOf(s.idle.snapshot), idle := Rest, saved := s.idle.at)
  }

  /** The store just loaded by Init, any number of tasks outside. */
  ghost predicate Initial(s: State) {
    && |s.history| == 1 && Grouped(Current(s)) && |Encode(Current(s))| <= CAPACITY
    && s.bytes == Encode(Current(s)) && s.file == FileOf(s.bytes) && s.saved == 0
    && !s.flag && s.mutex == Free && s.idle == Rest
    && forall w :: 0 <= w < |s.writers| ==> s.writers[w].Out?
  }

  ghost predicate Trace(s: State, es: seq<Event>)
    decreases |es|
  {
    es != [] ==> Can(s, es[0]) && Trace(Do(s, es[0]), es[1..])
  }

  ghost function After(s: State, es: seq<Event>): State
    requires Trace(s, es)
    decreases |es|
  {
    if es == [] then s else After(Do(s, es[0]), es[1..])
  }

  // ---- The invariant ----

  ghost predicate MutexHeld(s: State) {
    && (forall w :: 0 <= w < |s.writers| ==> (s.writers[w].Out? <==> s.mutex != Writer(w)))
    && (s.mutex.Writer? ==> s.mutex.w < |s.writers|)
    && (s.idle.Locked? || s.idle.LenCopied? || s.idle.Copied? <==> s.mutex == IdleTask)
  }

  predicate MidEdit(s: State) {
    s.mutex.Writer? && s.mutex.w < |s.writers| && s.writers[s.mutex.w].Editing?
  }

  /** An operation has finished that the flag does not show yet. */
  predicate Unflagged(s: State) {
    s.mutex.Writer? && s.mutex.w < |s.writers| && s.writers[s.mutex.w].Edited?
  }

  ghost predicate Snapshots(s: State) {
    && s.saved < |s.history| && s.file == FileOf(Encode(s.history[s.saved]))
    && (s.idle.LenCopied? ==> s.idle.n == |s.bytes|)
    && (s.idle.Copied? || s.idle.Writing? ==>
          s.saved <= s.idle.at < |s.history| && s.idle.snapshot == Encode(s.history[s.idle.at]))
  }

  /** Either the file is current, or someone is still bound to notice. */
  predicate Accounted(s: State) {
    || s.saved + 1 == |s.history|
    || s.flag
    || Unflagged(s)
    || s.idle.Tested? || s.idle.Cleared? || s.idle.Locked? || s.idle.LenCopied?
    || ((s.idle.Copied? || s.idle.Writing?) && s.idle.at + 1 == |s.history|)
  }

  ghost predicate Committed(s: State) {
    forall k :: 0 <= k < |s.history| ==> Grouped(s.history[k]) && |Encode(s.history[k])| <= CAPACITY
  }

  /** What the flag does not show yet is not in the file, nor on its way there. */
  predicate Behind(s: State) {
    Unflagged(s) ==>
      && s.saved + 1 < |s.history|
      && (s.idle.Copied? || s.idle.Writing? ==> s.idle.at + 1 < |s.history|)
  }

  ghost predicate Inv(s: State) {
    && MutexHeld(s)
    && Snapshots(s)
    && Accounted(s)
    && Behind(s)
    && Committed(s)
    && (!MidEdit(s) ==> s.bytes == Encode(Current(s)))
  }

  lemma StepKeepsMutex(s: State, e: Event)
    requires MutexHeld(s) && Can(s, e)
    ensures MutexHeld(Do(s, e))
  {
  }

  lemma {:induction false} StepKeepsSnapshots(s: State, e: Event)
    requires Inv(s) && Can(s, e)
    ensures Snapshots(Do(s, e)) && Do(s, e).saved >= s.saved && s.history <= Do(s, e).history
  {
    if e.IdleCopy? {
      assert s.bytes[..s.idle.n] == s.bytes;
    }
  }

  lemma StepKeepsAccounted(s: State, e: Event)
    requires Inv(s) && Can(s, e)
    ensures Accounted(Do(s, e))
    ensures !MidEdit(Do(s, e)) ==> Do(s, e).bytes == Encode(Current(Do(s, e)))
  {
  }

  lemma StepKeepsBehind(s: State, e: Event)
    requires Inv(s) && Can(s, e)
    ensures Behind(Do(s, e))
  {
  }

  lemma {:induction false} StepKeepsInv(s: State, e: Event)
    requires Inv(s) && Can(s, e)
    ensures Inv(Do(s, e))
    ensures Do(s, e).saved >= s.saved && s.history <= Do(s, e).history
  {
    StepKeepsMutex(s, e);
    StepKeepsSnapshots(s, e);
    StepKeepsAccounted(s, e);
    StepKeepsBehind(s, e);
    if e.WriterFinish? {
      StepKeepsGrouped(Current(s), s.writers[e.w].op);
    }
  }

  lemma {:induction false} TraceKeepsInv(s: State, es: seq<Event>)
    requires Inv(s) && Trace(s, es)
    ensures Inv(After(s, es))
    ensures After(s, es).saved >= s.saved && s.history <= After(s, es).history
    decreases |es|
  {
    if es == [] {
    } else {
      StepKeepsInv(s, es[0]);
      TraceKeepsInv(Do(s, es[0]), es[1..]);
    }
  }

  // ---- Which calls have finished, told from the events alone ----

  /** The calls whose effect is complete, in the order in which they took the mutex; `begun` is the one inside. A call
      that reads or is refused keeps its place. */
  function Finished(begun: Option<Op>, es: seq<Event>): seq<Op>
    decreases |es|
  {
    if es == [] then []
    else match es[0]
         case WriterLock(_, op) => Finished(Some(op), es[1..])
         case WriterGiveUp(_) => Ended(begun) + Finished(None, es[1..])
         case WriterFinish(_) => Ended(begun) + Finished(None, es[1..])
         case _ => Finished(begun, es[1..])
  }

  function Ended(begun: Option<Op>): seq<Op> { if begun.Some? then [begun.value] else [] }

  /** The call that holds the mutex and has not had its effect yet. */
  function Begun(s: State): Option<Op> {
    if s.mutex.Writer? && s.mutex.w < |s.writers| then
      match s.writers[s.mutex.w]
      case Locked(op) => Some(op)
      case Editing(op) => Some(op)
      case _ => None
    else None
  }

  lemma NoChangeIsNoChange(rs: seq<Record>, op: Op)
    requires !Changes(rs, op)
    ensures Step(rs, op).0 == rs
  {
  }

  /** One step: the list changes as the call that ends with it says, and otherwise stays. */
  lemma {:induction false} StepRunsCall(s: State, e: Event)
    requires MutexHeld(s) && Can(s, e)
    ensures var t := Do(s, e);
            if e.WriterGiveUp? || e.WriterFinish? then
              && Begun(s).Some? && Begun(t).None?
              && Current(t) == Step(Current(s), Begun(s).value).0
              && (t.history == s.history || t.history == s.history + [Current(t)])
            else
              && t.history == s.history
              && Begun(t) == if e.WriterLock? then Some(e.op) else Begun(s)
  {
    if e.WriterGiveUp? {
      NoChangeIsNoChange(Current(s), s.writers[e.w].op);
    }
  }

  /** The list reached by some of the calls, from the first on. */
  ghost predicate AfterSome(rs: seq<Record>, ops: seq<Op>, result: seq<Record>) {
    exists j :: 0 <= j <= |ops| && Run(rs, ops[..j]).0 == result
  }

  lemma {:induction false} AfterSomeMore(rs: seq<Record>, op: Op, ops: seq<Op>, result: seq<Record>)
    requires AfterSome(Step(rs, op).0, ops, result)
    ensures AfterSome(rs, [op] + ops, result)
  {
    var j :| 0 <= j <= |ops| && Run(Step(rs, op).0, ops[..j]).0 == result;
    var all := [op] + ops;
    assert all[..j + 1] == [op] + ops[..j] && all[..j + 1][1..] == ops[..j];
    assert Run(rs, all[..j + 1]).0 == result;
  }

  lemma {:induction false} AfterNone(rs: seq<Record>, ops: seq<Op>)
    ensures AfterSome(rs, ops, rs)
  {
    assert Run(rs, ops[..0]).0 == rs;
  }

  predicate Ends(e: Event) { e.WriterGiveUp? || e.WriterFinish? }

  /** What the first event adds to the finished calls. */
  lemma {:induction false} FirstCall(s: State, es: seq<Event>)
    requires MutexHeld(s) && es != [] && Can(s, es[0])
    ensures var rest := Finished(Begun(Do(s, es[0])), es[1..]);
            Finished(Begun(s), es) == if Ends(es[0]) && Begun(s).Some? then [Begun(s).value] + rest else rest
  {
    StepRunsCall(s, es[0]);
  }

  lemma {:induction false} CurrentIsRun(s: State, es: seq<Event>)
    requires MutexHeld(s) && s.history != [] && Trace(s, es)
    ensures After(s, es).history != []
    ensures Current(After(s, es)) == Run(Current(s), Finished(Begun(s), es)).0
    decreases |es|
  {
    if es == [] {
    } else {
      StepRunsCall(s, es[0]);
      FirstCall(s, es);
      StepKeepsMutex(s, es[0]);
      CurrentIsRun(Do(s, es[0]), es[1..]);
      if Ends(es[0]) {
        RunCons(Current(s), Begun(s).value, Finished(Begun(Do(s, es[0])), es[1..]));
      }
    }
  }

  lemma {:induction false} RunCons(rs: seq<Record>, op: Op, ops: seq<Op>)
    ensures Run(rs, [op] + ops).0 == Run(Step(rs, op).0, ops).0
  {
    assert ([op] + ops)[1..] == ops;
  }

  lemma {:induction false} HistoryGrows(s: State, es: seq<Event>)
    requires Trace(s, es)
    ensures s.history <= After(s, es).history
    decreases |es|
  {
    if es == [] {
    } else {
      HistoryGrows(Do(s, es[0]), es[1..]);
    }
  }

  lemma {:induction false} HistoryIsRun(s: State, es: seq<Event>, k: nat)
    requires MutexHeld(s) && s.history != [] && Trace(s, es) && |s.history| - 1 <= k < |After(s, es).history|
    ensures AfterSome(Current(s), Finished(Begun(s), es), After(s, es).history[k])
    decreases |es|
  {
    if k == |s.history| - 1 {
      HistoryGrows(s, es);
      AfterNone(Current(s), Finished(Begun(s), es));
    } else {
      var t := Do(s, es[0]);
      StepRunsCall(s, es[0]);
      FirstCall(s, es);
      StepKeepsMutex(s, es[0]);
      HistoryIsRun(t, es[1..], k);
      if Ends(es[0]) {
        AfterSomeMore(Current(s), Begun(s).value, Finished(Begun(t), es[1..]), After(s, es).history[k]);
      }
    }
  }

  // ---- The theorems ----

  /** The records are what the finished calls make of those at the start, one after the other in lock order, and their
      values are those of the multimap after the same calls. */
  lemma {:induction false} RecordsAreFinishedCalls(s: State, es: seq<Event>)
    requires Initial(s) && Trace(s, es)
    ensures var t, ops := After(s, es), Finished(None, es);
            && t.history != [] && Current(t) == Run(Current(s), ops).0
            && Refines(Current(t), MapRun(Abstract(Current(s)), ops).0)
  {
    CurrentIsRun(s, es);
    AbstractRefines(Current(s));
    RunRefines(Current(s), Abstract(Current(s)), Finished(None, es));
  }

  /** No lost update: with the flag clear, the idle task at rest and no task inside a call, the file is exactly what the
      finished calls make of the records at the start, and absent when that is nothing. */
  lemma {:induction false} NoLostUpdate(s: State, es: seq<Event>)
    requires Initial(s) && Trace(s, es)
    ensures var t, rs := After(s, es), Run(Current(s), Finished(None, es)).0;
            t.history != []
            && (!t.flag && t.idle.Rest? && !t.mutex.Writer? ==>
                  && t.file == FileOf(Encode(rs)) && t.bytes == Encode(rs) && Current(t) == rs
                  && t.saved + 1 == |t.history|)
  {
    TraceKeepsInv(s, es);
    CurrentIsRun(s, es);
    if Settled(After(s, es)) {
      SettledIsCurrent(After(s, es));
    }
  }

  /** Between writes the file is always the outcome of the first so many finished calls, and never goes back: it holds
      a version at least as new as any it held before. */
  lemma {:induction false} FileIsACommittedState(s: State, es: seq<Event>, more: seq<Event>)
    requires Initial(s) && Trace(s, es + more)
    requires Trace(s, es)
    ensures var t, u := After(s, es), After(s, es + more);
            && t.saved <= u.saved < |u.history|
            && Decode(FileBytes(u.file)) == Some(u.history[u.saved])
            && AfterSome(Current(s), Finished(None, es + more), u.history[u.saved])
            && Grouped(u.history[u.saved]) && |FileBytes(u.file)| <= CAPACITY
  {
    TraceSplit(s, es, more);
    TraceKeepsInv(s, es);
    TraceKeepsInv(After(s, es), more);
    var u := After(s, es + more);
    HistoryIsRun(s, es + more, u.saved);
    DecodeEncode(u.history[u.saved]);
  }

  lemma {:induction false} TraceSplit(s: State, es: seq<Event>, more: seq<Event>)
    requires Trace(s, es + more)
    ensures Trace(s, es) && Trace(After(s, es), more) && After(s, es + more) == After(After(s, es), more)
    decreases |es|
  {
    if es == [] {
      assert es + more == more;
    } else {
      assert (es + more)[1..] == es[1..] + more;
      TraceSplit(Do(s, es[0]), es[1..], more);
    }
  }

  /** What Init loads after a completed save answers every call as the store did before the restart. */
  lemma {:induction false} RestartAnswersAsBefore(s: State, es: seq<Event>, ops: seq<Op>)
    requires Initial(s) && Trace(s, es)
    requires var t := After(s, es); !t.flag && t.idle.Rest? && !t.mutex.Writer?
    ensures var t := After(s, es);
            t.history != [] && Decode(FileBytes(t.file)).Some?
            && Run(Decode(FileBytes(t.file)).value, ops) == Run(Current(t), ops)
            && Run(Current(t), ops).1 == MapRun(Abstract(Current(t)), ops).1
  {
    NoLostUpdate(s, es);
    TraceKeepsInv(s, es);
    var t := After(s, es);
    DecodeEncode(Current(t));
    AbstractRefines(Current(t));
    RunRefines(Current(t), Abstract(Current(t)), ops);
  }

  /** `otPlatResetIdle`: the idle task saves with interrupts off, so no other task steps in between. If there is
      something to save and a task is inside a call, the save waits for the mutex for ever and there is no reset. */
  function ResetSave(s: State): Option<State>
    requires s.history != []
  {
    if !s.flag then Some(s)
    else if s.mutex != Free then None
    else Some(s.(flag := false, file := FileOf(s.bytes), saved := |s.history| - 1))
  }

  /** The reset happens, and the file then holds the records of the last finished operation. */
  ghost predicate ResetSaves(s: State)
    requires s.history != []
  {
    ResetSave(s).Some? && ResetSave(s).value.saved + 1 == |s.history|
  }

  /** From every reachable state with the idle task at rest the reset path loses nothing if and only if, with the flag
      set, no task is inside a call, or, with the flag clear, none is between its last byte and the flag. */
  lemma {:induction false} ResetLosesNothingIff(s: State, es: seq<Event>)
    requires Initial(s) && Trace(s, es) && After(s, es).idle.Rest?
    ensures var t := After(s, es);
            && t.history != []
            && (ResetSaves(t) <==> if t.flag then t.mutex == Free else !Unflagged(t))
            && (ResetSaves(t) ==> Decode(FileBytes(ResetSave(t).value.file)) == Some(Current(t)))
  {
    TraceKeepsInv(s, es);
    ResetAt(After(s, es));
  }

  lemma {:induction false} ResetAt(t: State)
    requires Inv(t) && t.idle.Rest?
    ensures ResetSaves(t) <==> if t.flag then t.mutex == Free else !Unflagged(t)
    ensures ResetSaves(t) ==> Decode(FileBytes(ResetSave(t).value.file)) == Some(Current(t))
  {
    DecodeEncode(Current(t));
    if !t.flag {
      assert ResetSave(t) == Some(t);
    }
  }

  /** A store that is empty, with one task outside. */
  const EmptyStore := State([], false, Free, [Out], Rest, None, [[]], 0)

  /** A reset between the last byte of an Add and the flag loses the value. */
  lemma {:induction false} ResetBeforeFlagLoses(key: u16) returns (es: seq<Event>)
    ensures Initial(EmptyStore) && Trace(EmptyStore, es)
    ensures var t := After(EmptyStore, es);
            && t.idle.Rest? && !t.flag && Unflagged(t)
            && t.history == [[], [Record(key, [])]]
            && ResetSave(t) == Some(t) && Decode(FileBytes(t.file)) == Some([])
  {
    var op, rs := Op.Add(key, []), [Record(key, [])];
    assert AddRecords([], key, []) == rs;
    EncodeOne(rs[0]);
    assert Step([], op) == (rs, Done);
    var lock, edit, finish := WriterLock(0, op), WriterEdit(0, []), WriterFinish(0);
    var s1 := Do(EmptyStore, lock);
    var s2 := Do(s1, edit);
    var s3 := Do(s2, finish);
    assert s3.history == [[], rs];
    TraceCons(s2, finish, []);
    TraceCons(s1, edit, [finish] + []);
    TraceCons(EmptyStore, lock, [edit] + ([finish] + []));
    es := [lock] + ([edit] + ([finish] + []));
  }

  lemma {:induction false} TraceCons(s: State, e: Event, es: seq<Event>)
    requires Can(s, e) && Trace(Do(s, e), es)
    ensures Trace(s, [e] + es) && After(s, [e] + es) == After(Do(s, e), es)
  {
    assert ([e] + es)[1..] == es;
  }

  /** The steps of a call that changes the buffer, after it has taken the mutex. */
  function EditSteps(w: nat): seq<Event> {
    [WriterEdit(w, [])] + ([WriterFinish(w)] + ([WriterFlag(w)] + ([WriterUnlock(w)] + [])))
  }

  /** A whole call, with no other task stepping in between. */
  function WholeCall(s: State, w: nat, op: Op): seq<Event>
    requires s.history != []
  {
    [WriterLock(w, op)] + if Changes(Current(s), op) then EditSteps(w) else [WriterGiveUp(w)] + []
  }

  lemma {:induction false} FinishedCons(begun: Option<Op>, e: Event, es: seq<Event>)
    ensures Finished(begun, [e] + es)
         == match e
            case WriterLock(_, op) => Finished(Some(op), es)
            case WriterGiveUp(_) => Ended(begun) + Finished(None, es)
            case WriterFinish(_) => Ended(begun) + Finished(None, es)
            case _ => Finished(begun, es)
  {
    assert ([e] + es)[1..] == es;
  }

  lemma {:induction false} OneCall(s: State, w: nat, op: Op)
    requires s.history != []
    ensures Finished(None, WholeCall(s, w, op)) == [op]
  {
    var edit, finish, flag, unlock := WriterEdit(w, []), WriterFinish(w), WriterFlag(w), WriterUnlock(w);
    FinishedCons(None, unlock, []);
    FinishedCons(None, flag, [unlock] + []);
    FinishedCons(Some(op), finish, [flag] + ([unlock] + []));
    FinishedCons(Some(op), edit, [finish] + ([flag] + ([unlock] + [])));
    FinishedCons(None, WriterLock(w, op), EditSteps(w));
    FinishedCons(Some(op), WriterGiveUp(w), []);
    FinishedCons(None, WriterLock(w, op), [WriterGiveUp(w)] + []);
  }

  /** Every call can be made whenever the mutex is free, by any task, and run through: it has its effect on the records,
      sets the flag exactly if it changes the buffer, and gives the mutex back. */
  lemma {:induction false} CallCompletes(s: State, w: nat, op: Op)
    requires Inv(s) && s.mutex == Free && w < |s.writers|
    ensures var es := WholeCall(s, w, op);
            && Trace(s, es) && After(s, es).mutex == Free && After(s, es).history != []
            && Finished(None, es) == [op] && Current(After(s, es)) == Step(Current(s), op).0
            && After(s, es).flag == (s.flag || (!op.Get? && Step(Current(s), op).1.error == NoError))
  {
    CallRuns(s, w, op);
    OneCall(s, w, op);
    CurrentIsRun(s, WholeCall(s, w, op));
    RunCons(Current(s), op, []);
  }

  lemma {:induction false} CallRuns(s: State, w: nat, op: Op)
    requires MutexHeld(s) && s.history != [] && s.mutex == Free && w < |s.writers|
    ensures var es := WholeCall(s, w, op);
            && Trace(s, es) && After(s, es).mutex == Free
            && After(s, es).flag == (s.flag || Changes(Current(s), op))
  {
    var s1 := Do(s, WriterLock(w, op));
    if Changes(Current(s), op) {
      CallEdits(s1, w, op);
      TraceCons(s, WriterLock(w, op), EditSteps(w));
    } else {
      TraceCons(s1, WriterGiveUp(w), []);
      TraceCons(s, WriterLock(w, op), [WriterGiveUp(w)] + []);
    }
  }

  lemma {:induction false} CallEdits(s: State, w: nat, op: Op)
    requires s.history != [] && w < |s.writers| && s.writers[w] == WriterPc.Locked(op) && Changes(Current(s), op)
    ensures Trace(s, EditSteps(w)) && After(s, EditSteps(w)).mutex == Free && After(s, EditSteps(w)).flag
  {
    var edit, finish, flag, unlock := WriterEdit(w, []), WriterFinish(w), WriterFlag(w), WriterUnlock(w);
    var s1 := Do(s, edit);
    var s2 := Do(s1, finish);
    var s3 := Do(s2, flag);
    TraceCons(s3, unlock, []);
    TraceCons(s2, flag, [unlock] + []);
    TraceCons(s1, finish, [flag] + ([unlock] + []));
    TraceCons(s, edit, [finish] + ([flag] + ([unlock] + [])));
  }

  // ---- Who can step ----

  predicate IdleEvent(e: Event) {
    e.IdleTest? || e.IdleClear? || e.IdleLock? || e.IdleCopyLen? || e.IdleCopy? || e.IdleUnlock? || e.IdleWrite?
  }

  predicate WriterEvent(e: Event, w: nat) {
    match e
    case WriterLock(v, _) => v == w
    case WriterGiveUp(v) => v == w
    case WriterEdit(v, _) => v == w
    case WriterFinish(v) => v == w
    case WriterFlag(v) => v == w
    case WriterUnlock(v) => v == w
    case _ => false
  }

  /** The step the idle task is at. */
  function IdleNext(pc: IdlePc): Event {
    match pc
    case Rest => IdleTest
    case Tested => IdleClear
    case Cleared => IdleLock
    case Locked => IdleCopyLen
    case LenCopied(_) => IdleCopy
    case Copied(_, _) => IdleUnlock
    case Writing(_, _) => IdleWrite
  }

  /** In every reachable state the idle task can step unless it rests with the flag clear or waits for the mutex, and a
      task can step unless it is outside and the mutex is taken. */
  lemma {:induction false} OnlyTheMutexBlocks(s: State, w: nat)
    requires Inv(s) && w < |s.writers|
    ensures (exists e :: IdleEvent(e) && Can(s, e)) <==>
            !(s.idle.Rest? && !s.flag) && !(s.idle.Cleared? && s.mutex != Free)
    ensures (exists e :: WriterEvent(e, w) && Can(s, e)) <==> s.writers[w] != Out || s.mutex == Free
  {
    assert IdleEvent(IdleNext(s.idle));
    if !(s.idle.Rest? && !s.flag) && !(s.idle.Cleared? && s.mutex != Free) {
      assert Can(s, IdleNext(s.idle));
    }
    var e := WriterNext(s, w);
    assert WriterEvent(e, w);
    if s.writers[w] != Out || s.mutex == Free {
      assert Can(s, e);
    }
  }

  /** A step a task can make next. */
  function WriterNext(s: State, w: nat): Event
    requires s.history != [] && w < |s.writers|
  {
    match s.writers[w]
    case Out => WriterLock(w, Op.Wipe)
    case Locked(op) => if Changes(Current(s), op) then WriterEdit(w, []) else WriterGiveUp(w)
    case Editing(_) => WriterFinish(w)
    case Edited => WriterFlag(w)
    case Flagged => WriterUnlock(w)
  }

  // ---- The save completes ----

  /** Nothing under way and nothing to save. */
  predicate Settled(s: State) { !s.mutex.Writer? && s.idle.Rest? && !s.flag }

  /** A step the task inside a call, or else the idle task, can make next. */
  function NextStep(s: State): Event
    requires s.history != [] && (s.mutex.Writer? ==> s.mutex.w < |s.writers|)
  {
    if s.mutex.Writer? then
      var w := s.mutex.w;
      match s.writers[w]
      case Locked(op) => if Changes(Current(s), op) then WriterEdit(w, []) else WriterGiveUp(w)
      case Editing(_) => WriterFinish(w)
      case Edited => WriterFlag(w)
      case _ => WriterUnlock(w)
    else
      match s.idle
      case Rest => IdleTest
      case Tested => IdleClear
      case Cleared => IdleLock
      case Locked => IdleCopyLen
      case LenCopied(_) => IdleCopy
      case Copied(_, _) => IdleUnlock
      case Writing(_, _) => IdleWrite
  }

  function WriterSteps(pc: WriterPc): nat {
    match pc
    case Out => 0
    case Locked(_) => 4
    case Editing(_) => 3
    case Edited => 2
    case Flagged => 1
  }

  /** The steps of the idle task until it rests with the flag clear, at most. */
  function IdleSteps(pc: IdlePc, flag: bool): nat {
    match pc
    case Rest => if flag then 7 else 0
    case Tested => 6
    case Cleared => if flag then 12 else 5
    case Locked => if flag then 11 else 4
    case LenCopied(_) => if flag then 10 else 3
    case Copied(_, _) => if flag then 9 else 2
    case Writing(_, _) => if flag then 8 else 1
  }

  function StepsLeft(s: State): nat {
    (if s.mutex.Writer? && s.mutex.w < |s.writers| then 8 * WriterSteps(s.writers[s.mutex.w]) else 0)
    + IdleSteps(s.idle, s.flag)
  }

  lemma NextStepIsPossible(s: State)
    requires Inv(s) && !Settled(s)
    ensures Can(s, NextStep(s)) && StepsLeft(Do(s, NextStep(s))) < StepsLeft(s)
  {
  }

  lemma {:induction false} Settles(s: State) returns (es: seq<Event>)
    requires Inv(s)
    ensures Trace(s, es) && Settled(After(s, es)) && |es| <= StepsLeft(s)
    ensures forall i :: 0 <= i < |es| ==> !es[i].WriterLock?
    decreases StepsLeft(s)
  {
    es := [];
    if !Settled(s) {
      var e := NextStep(s);
      NextStepIsPossible(s);
      StepKeepsInv(s, e);
      var rest := Settles(Do(s, e));
      es := [e] + rest;
      assert es[1..] == rest;
    }
  }

  /** From every reachable state, mid-call and mid-save ones included, the tasks can go on without a new call so that
      after at most 44 steps the file is exactly the current records. */
  lemma {:induction false} SaveCompletes(s: State, es: seq<Event>) returns (more: seq<Event>)
    requires Initial(s) && Trace(s, es)
    ensures Trace(After(s, es), more) && |more| <= 44
    ensures forall i :: 0 <= i < |more| ==> !more[i].WriterLock?
    ensures var t := After(After(s, es), more);
            && Settled(t) && t.history != []
            && t.file == FileOf(t.bytes) && t.bytes == Encode(Current(t)) && t.saved + 1 == |t.history|
  {
    TraceKeepsInv(s, es);
    StepsBound(After(s, es));
    more := Settles(After(s, es));
    TraceKeepsInv(After(s, es), more);
    SettledIsCurrent(After(After(s, es), more));
  }

  lemma StepsBound(s: State)
    ensures StepsLeft(s) <= 44
  {
  }

  lemma {:induction false} SettledIsCurrent(s: State)
    requires Inv(s) && Settled(s)
    ensures s.file == FileOf(s.bytes) && s.bytes == Encode(Current(s)) && s.saved + 1 == |s.history|
  {
    assert s.saved + 1 == |s.history|;
  }
}
