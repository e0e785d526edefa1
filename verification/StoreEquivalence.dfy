/** The grouped in-place store and the append-and-compact store, compared call by call and run by run. */
module StoreEquivalence {
  import opened Bytes
  import opened Tlv
  import opened SettingsSpec
  import opened RamStorage
  import FlashSettings

  /** The calls both stores have. */
  function RamStep(l: Limits, rs: seq<Record>, op: Op): Effect<Outcome>
    requires !op.Wipe?
  {
    match op
    case Get(key, index) =>
      var v := Lookup(rs, key, index);
      Effect(rs, Outcome(if v.Some? then NoError else NotFound, v))
    case Add(key, value) => Answered(RamAdd(l, rs, key, value))
    case Set(key, value) => Answered(RamSet(l, rs, key, value))
    case Delete(key, index) =>
      var (rs', e) := RamDelete(rs, key, index);
      Effect(rs', Outcome(e, None))
  }

  function Answered(e: Effect<Error>): Effect<Outcome> {
    match e
    case Effect(rs, error) => Effect(rs, Outcome(error, None))
    case Overrun => Overrun
  }

  /** Both stores give every key the same values. */
  ghost predicate Same(a: seq<Record>, b: seq<Record>) {
    forall key: u16 :: Values(a, key) == Values(b, key)
  }

  /** What a call leaves under its own key, from the values there before. */
  function FlashValues(vs: seq<Value>, op: Op): seq<Value> {
    match op
    case Get(_, _) => vs
    case Add(_, value) => vs + [value]
    case Set(_, value) => if vs == [] then [value] else vs[..|vs| - 1] + [value]
    case Delete(_, index) => if 0 <= index < |vs| then vs[..index] + vs[index + 1..] else []
    case Wipe => []
  }

  function RamValues(vs: seq<Value>, op: Op): seq<Value> {
    match op
    case Get(_, _) => vs
    case Add(_, value) => vs + [value]
    case Set(_, value) => if vs != [] && |vs[0]| == |value| then [value] + vs[1..] else [value]
    case Delete(_, index) => if vs == [] then [] else if index == 0 then vs[1..] else if index == -1 then [] else vs
    case Wipe => []
  }

  /** The answer of a call that is not refused for space. */
  function FlashOutcome(vs: seq<Value>, op: Op): Outcome {
    match op
    case Get(_, index) => if 0 <= index < |vs| then Outcome(NoError, Some(vs[index])) else Outcome(NotFound, None)
    case Delete(_, _) => if vs == [] then Outcome(NotFound, None) else Done
    case _ => Done
  }

  function RamOutcome(vs: seq<Value>, op: Op): Outcome {
    match op
    case Get(_, index) => if 0 <= index < |vs| then Outcome(NoError, Some(vs[index])) else Outcome(NotFound, None)
    case Delete(_, index) => if vs == [] || (index != 0 && index != -1) then Outcome(NotFound, None) else Done
    case _ => Done
  }

  /** When the two stores do the same with a call on a key that holds `vs`. */
  predicate Agreeable(vs: seq<Value>, op: Op) {
    match op
    case Get(_, _) => true
    case Add(_, _) => true
    case Set(_, value) => |vs| <= 1 || (vs[0] == value && vs[|vs| - 1] == value)
    case Delete(_, index) => vs == [] || index == 0 || index == -1
    case Wipe => false
  }

  ghost predicate WellFormed(a: seq<Record>) { Grouped(a) && |Encode(a)| <= CAPACITY }

  lemma {:induction false} FlashEffect(a: seq<Record>, op: Op)
    requires WellFormed(a) && !op.Wipe? && Step(a, op).1.error != NoBufs
    ensures WellFormed(Step(a, op).0)
    ensures Values(Step(a, op).0, op.key) == FlashValues(Values(a, op.key), op)
    ensures forall k: u16 :: k != op.key ==> Values(Step(a, op).0, k) == Values(a, k)
    ensures Step(a, op).1 == FlashOutcome(Values(a, op.key), op)
  {
    var m := Abstract(a);
    AbstractRefines(a);
    StepRefines(a, m, op);
    MapEffect(m, op);
  }

  lemma MapEffect(m: MultiMap, op: Op)
    requires !op.Wipe? && MapStep(m, op).1.error != NoBufs
    ensures At(MapStep(m, op).0, op.key) == FlashValues(At(m, op.key), op)
    ensures forall k: u16 :: k != op.key ==> At(MapStep(m, op).0, k) == At(m, k)
    ensures MapStep(m, op).1 == FlashOutcome(At(m, op.key), op)
  {
  }

  // ---- The other store ----

  lemma {:induction false} AppendValues(rs: seq<Record>, key: u16, value: Value, k: u16)
    ensures Values(rs + [Record(key, value)], k) == Values(rs, k) + if k == key then [value] else []
  {
    ValuesConcat(rs, [Record(key, value)], k);
    assert [Record(key, value)][1..] == [];
  }

  /** Editing the first record of a key edits its first value. */
  lemma {:induction false} FirstValues(b: seq<Record>, key: u16, mid: seq<Record>, k: u16)
    requires RunStart(b, key) < |b| && AllOf(mid, key)
    ensures var i := RunStart(b, key);
            && Values(b, key) != [] && Values(b, key)[0] == b[i].value
            && Values(Splice(b, i, i + 1, mid), k)
               == if k == key then Values(mid, key) + Values(b, key)[1..] else Values(b, k)
  {
    var i := RunStart(b, key);
    var pre, post := b[..i], b[i + 1..];
    assert b == pre + ([b[i]] + post) && pre + mid + post == pre + (mid + post);
    NoValues(pre, key);
    FirstHere(pre, b[i], mid, post, key, k);
  }

  /** The same, taken apart. */
  lemma {:induction false} FirstHere(pre: seq<Record>, r: Record, mid: seq<Record>, post: seq<Record>, key: u16, k: u16)
    requires Values(pre, key) == [] && r.key == key && AllOf(mid, key)
    ensures Values(pre + ([r] + post), key) == [r.value] + Values(post, key)
    ensures Values(pre + (mid + post), k)
         == if k == key then Values(mid, key) + Values(post, key) else Values(pre + ([r] + post), k)
  {
    PartsValues(pre, mid, post, k);
    PartsValues(pre, [r], post, key);
    OneValue(key, r.value);
    if k == key {
      Units(Values(mid, key) + Values(post, key));
    } else {
      PartsValues(pre, [r], post, k);
      NoValues(mid, k);
      NoValues([r], k);
    }
  }

  lemma {:induction false} PartsValues(pre: seq<Record>, mid: seq<Record>, post: seq<Record>, k: u16)
    ensures Values(pre + (mid + post), k) == Values(pre, k) + (Values(mid, k) + Values(post, k))
  {
    ValuesConcat(pre, mid + post, k);
    ValuesConcat(mid, post, k);
  }

  lemma {:induction false} Absent(b: seq<Record>, key: u16)
    ensures RunStart(b, key) == |b| <==> Values(b, key) == []
  {
    ValuesAbsent(b, key);
  }

  lemma {:induction false} RamSetEffect(l: Limits, b: seq<Record>, key: u16, value: Value, k: u16)
    requires RamSet(l, b, key, value).Effect? && RamSet(l, b, key, value).answer == NoError
    ensures Values(RamSet(l, b, key, value).records, k)
         == if k == key then RamValues(Values(b, key), Set(key, value)) else Values(b, k)
  {
    var i := RunStart(b, key);
    Absent(b, key);
    if i < |b| {
      FirstValues(b, key, [Record(key, value)], k);
      OneValue(key, value);
    }
    if !(i < |b| && |b[i].value| == |value|) {
      WithoutValues(b, key, k);
      AppendValues(Without(b, key), key, value, k);
    }
  }

  lemma {:induction false} RamDeleteEffect(b: seq<Record>, key: u16, index: int, k: u16)
    ensures Values(RamDelete(b, key, index).0, k)
         == if k == key then RamValues(Values(b, key), Delete(key, index)) else Values(b, k)
  {
    Absent(b, key);
    if RunStart(b, key) < |b| {
      if index == 0 {
        FirstValues(b, key, [], k);
        Units(Values(b, key)[1..]);
      } else if index == -1 {
        WithoutValues(b, key, k);
      }
    }
  }

  lemma {:induction false} RamEffect(l: Limits, b: seq<Record>, op: Op)
    requires !op.Wipe? && RamStep(l, b, op).Effect? && RamStep(l, b, op).answer.error != NoBufs
    ensures Values(RamStep(l, b, op).records, op.key) == RamValues(Values(b, op.key), op)
    ensures forall k: u16 :: k != op.key ==> Values(RamStep(l, b, op).records, k) == Values(b, k)
    ensures RamStep(l, b, op).answer == RamOutcome(Values(b, op.key), op)
  {
    Absent(b, op.key);
    forall k: u16
      ensures Values(RamStep(l, b, op).records, k)
           == if k == op.key then RamValues(Values(b, op.key), op) else Values(b, k)
    {
      match op
      case Get(_, _) =>
      case Add(key, value) => AppendValues(b, key, value, k);
      case Set(key, value) => RamSetEffect(l, b, key, value, k);
      case Delete(key, index) => RamDeleteEffect(b, key, index, k);
    }
  }

  // ---- The comparison ----

  /** On one key's values, the two Sets agree exactly on the agreeable calls. */
  lemma {:induction false} SetsAgree(vs: seq<Value>, key: u16, value: Value)
    ensures FlashValues(vs, Set(key, value)) == RamValues(vs, Set(key, value)) <==> Agreeable(vs, Set(key, value))
  {
    var f, r := FlashValues(vs, Set(key, value)), RamValues(vs, Set(key, value));
    if |vs| > 1 {
      assert |f| == |vs| && f[0] == vs[0] && f[|vs| - 1] == value;
      if |vs[0]| == |value| {
        assert r[0] == value && r[|vs| - 1] == vs[|vs| - 1];
        assert forall i :: 0 < i < |vs| - 1 ==> f[i] == vs[i] && r[i] == vs[i];
      } else {
        assert |r| == 1;
      }
    }
  }

  /** On one key's values, answer and effect agree exactly on the agreeable calls. */
  lemma {:induction false} ValuesAgree(vs: seq<Value>, op: Op)
    requires !op.Wipe?
    ensures Agreeable(vs, op) <==>
            FlashOutcome(vs, op) == RamOutcome(vs, op) && FlashValues(vs, op) == RamValues(vs, op)
  {
    match op
    case Get(_, _) =>
    case Add(_, _) =>
    case Set(key, value) => SetsAgree(vs, key, value);
    case Delete(key, index) =>
      if vs != [] && index == 0 {
        assert vs[..0] + vs[0 + 1..] == vs[1..];
      }
  }

  /** Two changes confined to one key agree when that key's values do. */
  lemma SameIff(a: seq<Record>, b: seq<Record>, a': seq<Record>, b': seq<Record>, key: u16)
    requires Same(a, b)
    requires forall k: u16 :: k != key ==> Values(a', k) == Values(a, k)
    requires forall k: u16 :: k != key ==> Values(b', k) == Values(b, k)
    ensures Same(a', b') <==> Values(a', key) == Values(b', key)
  {
  }

  /** A value the grouped store has room for is far below the 16-bit limit of the other. */
  lemma {:induction false} RoomBoundsValue(a: seq<Record>, op: Op)
    requires (op.Add? || op.Set?) && Step(a, op).1.error != NoBufs
    ensures |op.value| <= CAPACITY
  {
    var r := Record(op.key, op.value);
    EncodeOne(r);
    EncodeSplice(a, if op.Add? then RunEnd(a, op.key) else SetFrom(a, op.key), RunEnd(a, op.key), [r]);
  }

  lemma {:induction false} RoomMeansEffect(l: Limits, a: seq<Record>, b: seq<Record>, op: Op)
    requires !op.Wipe? && Step(a, op).1.error != NoBufs
    ensures RamStep(l, b, op).Effect?
  {
    if op.Add? || op.Set? {
      RoomBoundsValue(a, op);
    }
  }

  /** A call that neither store refuses for space does not write past the buffer, and has the same answer and the same
      effect in both if and only if it is agreeable. */
  lemma {:induction false} StepAgreesIff(l: Limits, a: seq<Record>, b: seq<Record>, op: Op)
    requires WellFormed(a) && Same(a, b) && !op.Wipe?
    requires Step(a, op).1.error != NoBufs && (RamStep(l, b, op).Effect? ==> RamStep(l, b, op).answer.error != NoBufs)
    ensures WellFormed(Step(a, op).0) && RamStep(l, b, op).Effect?
    ensures Step(a, op).1 == RamStep(l, b, op).answer && Same(Step(a, op).0, RamStep(l, b, op).records)
       <==> Agreeable(Values(a, op.key), op)
  {
    RoomMeansEffect(l, a, b, op);
    FlashEffect(a, op);
    RamEffect(l, b, op);
    SameIff(a, b, Step(a, op).0, RamStep(l, b, op).records, op.key);
    ValuesAgree(Values(a, op.key), op);
  }

  function RamRun(l: Limits, rs: seq<Record>, ops: seq<Op>): Effect<seq<Outcome>>
    requires forall i :: 0 <= i < |ops| ==> !ops[i].Wipe?
    decreases |ops|
  {
    if ops == [] then Effect(rs, [])
    else
      match RamStep(l, rs, ops[0])
      case Overrun => Overrun
      case Effect(rs1, o) =>
        match RamRun(l, rs1, ops[1..])
        case Overrun => Overrun
        case Effect(rs2, os) => Effect(rs2, [o] + os)
  }

  /** Every call of the run is agreeable when it is made, and neither store runs out of space. */
  predicate Comparable(l: Limits, a: seq<Record>, b: seq<Record>, ops: seq<Op>)
    decreases |ops|
  {
    ops != [] ==>
      && !ops[0].Wipe? && Agreeable(Values(a, ops[0].key), ops[0]) && Step(a, ops[0]).1.error != NoBufs
      && (RamStep(l, b, ops[0]).Effect? ==>
            && RamStep(l, b, ops[0]).answer.error != NoBufs
            && Comparable(l, Step(a, ops[0]).0, RamStep(l, b, ops[0]).records, ops[1..]))
  }

  /** Two stores, one meaning. */
  lemma {:induction false} RunsAgree(l: Limits, a: seq<Record>, b: seq<Record>, ops: seq<Op>)
    requires WellFormed(a) && Same(a, b) && Comparable(l, a, b, ops)
    requires forall i :: 0 <= i < |ops| ==> !ops[i].Wipe?
    ensures RamRun(l, b, ops).Effect?
    ensures Run(a, ops).1 == RamRun(l, b, ops).answer
    ensures Same(Run(a, ops).0, RamRun(l, b, ops).records)
    decreases |ops|
  {
    if ops == [] {
    } else {
      StepAgreesIff(l, a, b, ops[0]);
      RunsAgree(l, Step(a, ops[0]).0, RamStep(l, b, ops[0]).records, ops[1..]);
    }
  }

  // ---- A Set of the append-and-compact store that fails ----

  lemma {:induction false} WithoutShorter(rs: seq<Record>, key: u16)
    ensures |Without(rs, key)| <= |rs|
    ensures RunStart(rs, key) < |rs| ==> |Without(rs, key)| < |rs|
  {
    if rs == [] {
    } else {
      WithoutShorter(rs[1..], key);
    }
  }

  /** Nothing but the records asked for changes: the call stores the value, or it is refused and changes nothing. */
  predicate AllOrNothing(e: Effect<Error>, before: seq<Record>) {
    e.Effect? && (e.answer == NoError || e.records == before)
  }

  /** A Set stores the value or changes nothing if and only if its first value has the new length, or the key is new and
      no wrapped length passes the tests, or the record really fits once the old values are gone. */
  lemma {:induction false} RamSetAllOrNothingIff(l: Limits, b: seq<Record>, key: u16, value: Value)
    ensures AllOrNothing(RamSet(l, b, key, value), b)
       <==> if RunStart(b, key) == |b| then NoOverrun(l, |Encode(b)|, |value|)
            else || |b[RunStart(b, key)].value| == |value|
                 || (|value| <= 0xFFFB && Fits(l, |Encode(Without(b, key))|, |value|))
  {
    WithoutShorter(b, key);
    if RunStart(b, key) == |b| {
      WithoutAbsent(b, key);
    }
  }

  /** Otherwise, for a key that has values, it takes every value of the key and keeps every other key: it is refused for
      space, or it has written past the buffer. */
  lemma {:induction false} RamSetFailureLosesValues(l: Limits, b: seq<Record>, key: u16, value: Value, k: u16)
    requires RunStart(b, key) < |b| && |b[RunStart(b, key)].value| != |value|
    requires !(|value| <= 0xFFFB && Fits(l, |Encode(Without(b, key))|, |value|))
    ensures Values(b, key) != []
    ensures if Fits(l, |Encode(Without(b, key))|, |value|) then RamSet(l, b, key, value).Overrun?
            else RamSet(l, b, key, value) == Effect(Without(b, key), NoBufs)
    ensures Values(Without(b, key), k) == if k == key then [] else Values(b, k)
  {
    WithoutValues(b, key, k);
    Absent(b, key);
  }

  /** In a 12-byte buffer, setting key 1 from a one-byte to a nine-byte value loses the key; any value of 65532 bytes or
      more is written past the buffer. */
  lemma {:induction false} RamSetLosesAKey(huge: Value)
    requires 0xFFFC <= |huge|
    ensures var l, b, v := Limits(12, true, 0), [Record(1, [7])], [0, 1, 2, 3, 4, 5, 6, 7, 8];
            && |Encode(b)| <= l.maxLength && Values(b, 1) == [[7]]
            && RamSet(l, b, 1, v) == Effect([], NoBufs)
            && RamSet(l, b, 1, huge).Overrun? && RamAdd(l, b, 1, huge).Overrun?
  {
    EncodeOne(Record(1, [7]));
    OneValue(1, [7]);
    assert [Record(1, [7])][1..] == [];
  }

  // ---- The same on the two byte buffers ----

  method PerformRam(ram: RamBuffer, op: Op) returns (o: Outcome)
    requires ram.Valid() && !op.Wipe?
    modifies ram, ram.buffer
    ensures var e := RamStep(ram.limits, old(ram.Contents()), op);
            e.Effect? ==> ram.Valid() && ram.Contents() == e.records && o == e.answer
  {
    match op
    case Get(key, index) =>
      var out := new byte[0x1_0000];
      var error, length := ram.Get(key, index, out, Some(0xFFFF));
      o := Outcome(error, if error == NoError then Some(out[..length.value]) else None);
      assert error == NoError ==> out[..length.value] == Lookup(ram.Contents(), key, index).value;
    case Add(key, value) =>
      var error := ram.Add(key, value);
      o := Outcome(error, None);
    case Set(key, value) =>
      var error := ram.Set(key, value);
      o := Outcome(error, None);
    case Delete(key, index) =>
      var error := ram.Delete(key, index);
      o := Outcome(error, None);
  }

  /** Both implementations, driven by the same calls, give the same answers throughout. */
  method ExecuteBoth(store: FlashSettings.SettingsStore, ram: RamBuffer, ops: seq<Op>)
    returns (os: seq<Outcome>, ramOs: seq<Outcome>)
    requires store.Valid() && ram.Valid() && store.buffer != ram.buffer
    requires WellFormed(store.Contents()) && Same(store.Contents(), ram.Contents())
    requires Comparable(ram.limits, store.Contents(), ram.Contents(), ops)
    modifies store, store.buffer, ram, ram.buffer
    ensures store.Valid() && ram.Valid() && Same(store.Contents(), ram.Contents())
    ensures os == ramOs && |os| == |ops|
    decreases |ops|
  {
    if ops == [] {
      os, ramOs := [], [];
    } else {
      StepAgreesIff(ram.limits, store.Contents(), ram.Contents(), ops[0]);
      var o := FlashSettings.Perform(store, ops[0]);
      var r := PerformRam(ram, ops[0]);
      var rest, ramRest := ExecuteBoth(store, ram, ops[1..]);
      os, ramOs := [o] + rest, [r] + ramRest;
    }
  }
}
