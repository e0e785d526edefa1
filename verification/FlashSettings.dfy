/** The settings store of flash_fsa.c: one 1024-byte buffer of records, edited in place. */
module FlashSettings {
  import opened Bytes
  import opened Tlv
  import opened SettingsSpec

  // ---- What the scanning loops know ----

  /** A loop that has not reached the end of the bytes is at a record. */
  lemma {:induction false} StillInside(rs: seq<Record>, i: nat)
    requires i <= |rs| && Offset(rs, i) < |Encode(rs)|
    ensures i < |rs|
  {
    OffsetEnds(rs);
  }

  /** Records s..e are the first run of the key; if there is none, s and e are at the end. */
  ghost predicate FirstRun(rs: seq<Record>, key: u16, s: nat, e: nat) {
    && s <= e <= |rs| && (s < |rs| ==> s < e)
    && (forall k :: 0 <= k < s ==> rs[k].key != key)
    && (forall k :: s <= k < e ==> rs[k].key == key)
    && (e < |rs| ==> rs[e].key != key)
  }

  lemma {:induction false} RunShape(rs: seq<Record>, key: u16)
    ensures FirstRun(rs, key, RunStart(rs, key), RunEnd(rs, key))
  {
    var s := RunStart(rs, key);
    var t := rs[s..];
    var n := RunLength(t, key);
    forall k | s <= k < s + n
      ensures rs[k].key == key
    {
      assert t[k - s].key == key;
    }
    assert n < |t| ==> t[n] == rs[s + n];
  }

  // ---- The edits in bytes ----

  lemma {:induction false} SetBytes(rs: seq<Record>, key: u16, value: Value)
    ensures var i, e := SetFrom(rs, key), RunEnd(rs, key);
            && Offset(rs, i) <= Offset(rs, e) <= |Encode(rs)|
            && Encode(SetRecords(rs, key, value))
               == Encode(rs)[..Offset(rs, i)] + EncodeRecord(Record(key, value)) + Encode(rs)[Offset(rs, e)..]
  {
    EncodeSplice(rs, SetFrom(rs, key), RunEnd(rs, key), [Record(key, value)]);
    EncodeOne(Record(key, value));
  }

  lemma {:induction false} DeleteBytes(rs: seq<Record>, key: u16, index: int)
    requires RunStart(rs, key) < |rs|
    ensures var i, j := DeleteFrom(rs, key, index), DeleteTo(rs, key, index);
            && Offset(rs, i) < Offset(rs, j) <= |Encode(rs)|
            && Encode(DeleteRecords(rs, key, index)) == Encode(rs)[..Offset(rs, i)] + Encode(rs)[Offset(rs, j)..]
  {
    CutBytes(rs, DeleteFrom(rs, key, index), DeleteTo(rs, key, index));
  }

  lemma {:induction false} CutBytes(rs: seq<Record>, i: nat, j: nat)
    requires i < j <= |rs|
    ensures Offset(rs, i) < Offset(rs, j) <= |Encode(rs)|
    ensures Encode(Splice(rs, i, j, [])) == Encode(rs)[..Offset(rs, i)] + Encode(rs)[Offset(rs, j)..]
  {
    EncodeSplice(rs, i, j, []);
    OffsetLess(rs, i, j);
    var b := Encode(rs)[..Offset(rs, i)];
    assert b + Encode([]) == b;
  }

  lemma {:induction false} OffsetLess(rs: seq<Record>, i: nat, j: nat)
    requires i < j <= |rs|
    ensures Offset(rs, i) < Offset(rs, j)
    decreases j - i
  {
    OffsetStep(rs, i);
    if i + 1 < j {
      OffsetLess(rs, i + 1, j);
    }
  }

  class SettingsStore {
    const buffer: array<byte>
    var recordLen: nat
    var recordFreeLen: nat
    var isInitialized: bool
    /** `ot_settings_to_save_in_flash` */
    var toSave: bool
    const idleBuffer: array<byte>
    var idleLen: nat
    /** The settings file in flash; None when there is none. */
    var file: Option<seq<byte>>

    /** Static storage before the first Init. */
    constructor ()
      ensures Shape() && recordLen == 0 && !isInitialized && !toSave && file == None
      ensures fresh(buffer) && fresh(idleBuffer)
    {
      buffer, idleBuffer := new byte[CAPACITY], new byte[CAPACITY];
      recordLen, recordFreeLen, idleLen := 0, 0, 0;
      isInitialized, toSave, file := false, false, None;
    }

    ghost predicate Shape()
    {
      buffer.Length == CAPACITY && idleBuffer.Length == CAPACITY && buffer != idleBuffer
    }

    ghost predicate Valid()
      reads this, buffer
    {
      && Shape()
      && recordLen + recordFreeLen == CAPACITY
      && Decode(buffer[..recordLen]).Some?
    }

    ghost function Contents(): seq<Record>
      requires Valid()
      reads this, buffer
    {
      Decode(buffer[..recordLen]).value
    }

    lemma {:induction false} BytesOf()
      requires Valid()
      ensures Encode(Contents()) == buffer[..recordLen]
    {
      EncodeDecode(buffer[..recordLen]);
    }

    function Tag(pos: nat): u16
      requires pos + HEADER_SIZE <= buffer.Length
      reads buffer
    {
      U16(buffer[pos], buffer[pos + 1])
    }

    function Len(pos: nat): u16
      requires pos + HEADER_SIZE <= buffer.Length
      reads buffer
    {
      U16(buffer[pos + 2], buffer[pos + 3])
    }

    /** Visit, read off the array. */
    lemma {:induction false} VisitBuffer(rs: seq<Record>, i: nat)
      requires recordLen <= buffer.Length && buffer[..recordLen] == Encode(rs)
      requires i <= |rs| && Offset(rs, i) < recordLen
      ensures i < |rs| && Offset(rs, i + 1) == Offset(rs, i) + Size(rs[i]) <= recordLen
      ensures Tag(Offset(rs, i)) == rs[i].key && Len(Offset(rs, i)) == |rs[i].value|
      ensures buffer[Offset(rs, i) + HEADER_SIZE..Offset(rs, i) + Size(rs[i])] == rs[i].value
    {
      assert buffer[..][..recordLen] == buffer[..recordLen];
      StillInside(rs, i);
      RecordIn(buffer[..], recordLen, rs, i);
    }

    /** Shifts the tail of the record bytes from `src` to `dst`, byte by byte over itself. */
    method MoveData(src: nat, dst: nat)
      requires Shape() && src < CAPACITY && dst < CAPACITY
      requires src <= recordLen <= CAPACITY && recordLen + dst - src <= CAPACITY
      requires recordLen + recordFreeLen == CAPACITY
      modifies buffer, this`recordLen, this`recordFreeLen
      ensures recordLen == old(recordLen) + dst - src && recordLen + recordFreeLen == CAPACITY
      ensures buffer[dst..recordLen] == old(buffer[src..recordLen])
      ensures forall k :: 0 <= k < dst && k < src ==> buffer[k] == old(buffer[k])
    {
      if dst > src {
        ShiftUp(buffer, src, recordLen, dst - src);
        recordLen := recordLen + (dst - src);
      } else if dst < src {
        MemMoveDown(buffer, dst, src, recordLen - src);
        recordLen := recordLen - (src - dst);
        ghost var moved := buffer[dst..recordLen];
        MemZero(buffer, recordLen, src - dst);
        assert buffer[dst..recordLen] == moved;
      }
      recordFreeLen := CAPACITY - recordLen;
    }

    /** The three `memcpy` calls that lay down a record. */
    method WriteRecord(pos: nat, key: u16, value: Value)
      requires pos + HEADER_SIZE + |value| <= buffer.Length
      modifies buffer
      ensures buffer[..] == Overwrite(old(buffer[..]), pos, EncodeRecord(Record(key, value)))
    {
      ghost var was, k, n := buffer[..], [Lo(key), Hi(key)], [Lo(|value|), Hi(|value|)];
      MemCpy(buffer, pos, [Lo(key), Hi(key)]);
      MemCpy(buffer, pos + 2, [Lo(|value|), Hi(|value|)]);
      OverwriteTwice(was, pos, k, n);
      MemCpy(buffer, pos + HEADER_SIZE, value);
      OverwriteTwice(was, pos, k + n, value);
      assert k + n + value == EncodeRecord(Record(key, value));
    }

    /** The common tail of Add and Set: bytes p..q give way to a record; `move` when bytes follow q. */
    method Place(p: nat, q: nat, move: bool, key: u16, value: Value)
      requires Shape() && recordLen + recordFreeLen == CAPACITY
      requires p <= q <= recordLen && (move <==> q < recordLen)
      requires recordFreeLen + (q - p) >= HEADER_SIZE + |value|
      modifies buffer, this`recordLen, this`recordFreeLen
      ensures recordLen == old(recordLen) - (q - p) + HEADER_SIZE + |value|
      ensures recordLen + recordFreeLen == CAPACITY
      ensures buffer[..recordLen] == old(buffer[..p]) + EncodeRecord(Record(key, value)) + old(buffer[q..recordLen])
    {
      ghost var tail := buffer[q..recordLen];
      var dst := p + HEADER_SIZE + |value|;
      if move {
        MoveData(q, dst);
      } else {
        recordLen := recordLen - (q - p) + HEADER_SIZE + |value|;
        recordFreeLen := CAPACITY - recordLen;
      }
      ghost var was := buffer[..];
      assert was[..p] == old(buffer[..p]);
      assert was[dst..recordLen] == tail;
      WriteRecord(p, key, value);
      assert buffer[..recordLen] == Overwrite(was, p, EncodeRecord(Record(key, value)))[..recordLen];
    }

    /** The tail of Delete: bytes p..q go, by zeroing at the end of the records and by moving elsewhere. */
    method Cut(p: nat, q: nat)
      requires Shape() && recordLen + recordFreeLen == CAPACITY
      requires p < q <= recordLen
      modifies buffer, this`recordLen, this`recordFreeLen
      ensures recordLen == old(recordLen) - (q - p)
      ensures recordLen + recordFreeLen == CAPACITY
      ensures buffer[..recordLen] == old(buffer[..p]) + old(buffer[q..recordLen])
    {
      ghost var head, tail := buffer[..p], buffer[q..recordLen];
      if q >= recordLen {
        MemZero(buffer, p, q - p);
        recordLen := recordLen - (q - p);
        recordFreeLen := CAPACITY - recordLen;
      } else {
        MoveData(q, p);
        assert buffer[p..recordLen] == tail;
      }
      assert buffer[..p] == head;
      assert buffer[..recordLen] == buffer[..p] + buffer[p..recordLen];
    }

    /** The loop of Add and of Set: the end of the key's first run and its last record, in bytes. */
    method ScanRun(key: u16) returns (pos: nat, found: Option<nat>, moveRequired: bool)
      requires Valid()
      ensures var rs := Contents();
              && pos == Offset(rs, RunEnd(rs, key)) <= recordLen
              && found == (if RunStart(rs, key) < |rs| then Some(Offset(rs, SetFrom(rs, key))) else None)
              && (moveRequired <==> pos < recordLen)
    {
      ghost var rs := Contents();
      BytesOf();
      RunShape(rs, key);
      pos, found, moveRequired := ScanToRunEnd(key, rs, RunStart(rs, key), RunEnd(rs, key), SetFrom(rs, key));
    }

    /** The loop itself: records s..e are the first run of the key, and `last` is its last one. */
    method ScanToRunEnd(key: u16, ghost rs: seq<Record>, ghost s: nat, ghost e: nat, ghost last: nat)
      returns (pos: nat, found: Option<nat>, moveRequired: bool)
      requires recordLen <= buffer.Length && buffer[..recordLen] == Encode(rs) && FirstRun(rs, key, s, e)
      requires last <= e && (s < |rs| ==> last == e - 1)
      ensures pos == Offset(rs, e) <= recordLen
      ensures found == if s < |rs| then Some(Offset(rs, last)) else None
      ensures moveRequired <==> pos < recordLen
    {
      ghost var i := 0;
      OffsetEnds(rs);
      pos, found, moveRequired := 0, None, false;
      while pos < recordLen
        invariant i <= e && pos == Offset(rs, i) <= recordLen
        invariant found == if s < i then Some(Offset(rs, i - 1)) else None
        invariant !moveRequired
        decreases recordLen - pos
      {
        VisitBuffer(rs, i);
        if Tag(pos) == key {
          found := Some(pos);
        } else if found.Some? {
          moveRequired := true;
          return;
        }
        pos := pos + HEADER_SIZE + Len(pos);
        i := i + 1;
      }
      AtEnd(rs, i);
    }

    /** A scan that ran off the bytes ran off the records. */
    lemma {:induction false} AtEnd(rs: seq<Record>, i: nat)
      requires recordLen <= buffer.Length && buffer[..recordLen] == Encode(rs) && i <= |rs|
      ensures Offset(rs, i) >= recordLen ==> i == |rs|
    {
      if i < |rs| {
        RecordAt(rs, i);
      }
    }

    /** The buffer holds the encoding of `rs`: that is what it decodes to. */
    lemma {:induction false} Holds(rs: seq<Record>)
      requires Shape() && recordLen + recordFreeLen == CAPACITY && buffer[..recordLen] == Encode(rs)
      ensures Valid() && Contents() == rs
    {
      DecodeEncode(rs);
    }

    method Add(key: u16, value: Value) returns (error: Error)
      requires Valid()
      modifies buffer, this`recordLen, this`recordFreeLen, this`toSave
      ensures Valid() && (Contents(), Outcome(error, None)) == Step(old(Contents()), Op.Add(key, value))
      ensures error == NoError || (error == NoBufs && buffer[..] == old(buffer[..]) && recordLen == old(recordLen))
      ensures toSave == (old(toSave) || error == NoError)
    {
      ghost var rs := Contents();
      ghost var e := RunEnd(rs, key);
      BytesOf();
      EncodeSplice(rs, e, e, [Record(key, value)]);
      EncodeOne(Record(key, value));
      error := NoBufs;
      if recordFreeLen >= HEADER_SIZE + |value| {
        var pos, _, moveRequired := ScanRun(key);
        PartsOf(pos, pos);
        Place(pos, pos, moveRequired, key, value);
        Holds(AddRecords(rs, key, value));
        toSave := true;
        error := NoError;
      }
    }

    method Set(key: u16, value: Value) returns (error: Error)
      requires Valid()
      modifies buffer, this`recordLen, this`recordFreeLen, this`toSave
      ensures Valid() && (Contents(), Outcome(error, None)) == Step(old(Contents()), Op.Set(key, value))
      ensures error == NoError || (error == NoBufs && buffer[..] == old(buffer[..]) && recordLen == old(recordLen))
      ensures toSave == (old(toSave) || error == NoError)
    {
      ghost var rs := Contents();
      BytesOf();
      SetBytes(rs, key, value);
      error := NoBufs;
      var pos, found, moveRequired := ScanRun(key);
      var at := if found.Some? then found.value else pos;
      if recordFreeLen + (pos - at) >= HEADER_SIZE + |value| {
        PartsOf(at, pos);
        Place(at, pos, moveRequired, key, value);
        Holds(SetRecords(rs, key, value));
        toSave := true;
        error := NoError;
      }
    }

    /** Slices of the record bytes are slices of the buffer. */
    lemma {:induction false} PartsOf(p: nat, q: nat)
      requires Valid() && p <= q <= recordLen
      ensures |Encode(Contents())| == recordLen
      ensures Encode(Contents())[..p] == buffer[..p] && Encode(Contents())[q..] == buffer[q..recordLen]
    {
      BytesOf();
    }

    /** The loop of Delete: the bytes of the value asked for, or of the whole first run. */
    method ScanDelete(key: u16, index: int) returns (start: Option<nat>, end: Option<nat>)
      requires Valid()
      ensures start.None? <==> RunStart(Contents(), key) == |Contents()|
      ensures start.Some? ==> start.value == Offset(Contents(), DeleteFrom(Contents(), key, index))
      ensures start.Some? && end.Some? ==>
                end.value == Offset(Contents(), DeleteTo(Contents(), key, index)) <= recordLen
      ensures start.Some? && end.None? ==> recordLen == Offset(Contents(), DeleteTo(Contents(), key, index))
    {
      ghost var rs := Contents();
      BytesOf();
      RunShape(rs, key);
      start, end := ScanFirstRun(key, index, rs, RunStart(rs, key), RunEnd(rs, key),
                                 DeleteFrom(rs, key, index), DeleteTo(rs, key, index));
    }

    /** The loop itself: records s..e are the first run of the key, and from..to are to be deleted. */
    method ScanFirstRun(key: u16, index: int, ghost rs: seq<Record>, ghost s: nat, ghost e: nat,
                        ghost from: nat, ghost to: nat)
      returns (start: Option<nat>, end: Option<nat>)
      requires recordLen <= buffer.Length && buffer[..recordLen] == Encode(rs) && FirstRun(rs, key, s, e)
      requires if 0 <= index < e - s then from == s + index && to == from + 1 else from == s && to == e
      ensures start.None? <==> s == |rs|
      ensures start.Some? ==> start.value == Offset(rs, from)
      ensures start.Some? ==> (if end.Some? then end.value else recordLen) == Offset(rs, to) <= recordLen
    {
      ghost var i := 0;
      var pos, nbKeyFound := 0, 0;
      OffsetEnds(rs);
      start, end := None, None;
      while pos < recordLen
        invariant i <= e && pos == Offset(rs, i) <= recordLen
        invariant start == if s < i then Some(Offset(rs, s)) else None
        invariant nbKeyFound == if s < i then i - s else 0
        invariant !(0 <= index < nbKeyFound) && end.None?
        decreases recordLen - pos
      {
        VisitBuffer(rs, i);
        if Tag(pos) == key {
          if start.None? {
            start := Some(pos);
          }
          if index == nbKeyFound {
            start := Some(pos);
            end := Some(pos + HEADER_SIZE + Len(pos));
            return;
          }
          nbKeyFound := nbKeyFound + 1;
        } else if start.Some? {
          end := Some(pos);
          return;
        }
        pos := pos + HEADER_SIZE + Len(pos);
        i := i + 1;
      }
      AtEnd(rs, i);
    }

    method CutRecords(p: nat, q: nat, ghost left: seq<Record>)
      requires Valid() && p < q <= recordLen
      requires |Encode(Contents())| == recordLen && Encode(left) == Encode(Contents())[..p] + Encode(Contents())[q..]
      modifies buffer, this`recordLen, this`recordFreeLen
      ensures Valid() && Contents() == left
    {
      PartsOf(p, q);
      Cut(p, q);
      Holds(left);
    }

    method Delete(key: u16, index: int) returns (error: Error)
      requires Valid()
      modifies buffer, this`recordLen, this`recordFreeLen, this`toSave
      ensures Valid() && (Contents(), Outcome(error, None)) == Step(old(Contents()), Op.Delete(key, index))
      ensures error == NoError || (error == NotFound && buffer[..] == old(buffer[..]) && recordLen == old(recordLen))
      ensures toSave == (old(toSave) || error == NoError)
    {
      ghost var rs := Contents();
      BytesOf();
      error := NotFound;
      var start, end := ScanDelete(key, index);
      if start.Some? {
        DeleteBytes(rs, key, index);
        var p, q := start.value, if end.None? || end.value >= recordLen then recordLen else end.value;
        CutRecords(p, q, DeleteRecords(rs, key, index));
        toSave := true;
        error := NoError;
      }
    }

    method Wipe()
      requires Valid()
      modifies buffer, this`recordLen, this`recordFreeLen, this`toSave
      ensures Valid() && Contents() == Step(old(Contents()), Op.Wipe).0 && recordLen == 0
      ensures forall k :: 0 <= k < CAPACITY ==> buffer[k] == 0
      ensures toSave
    {
      MemZero(buffer, 0, CAPACITY);
      recordLen := 0;
      recordFreeLen := CAPACITY;
      toSave := true;
    }

    /** `out` is the memory from the caller's pointer on, and `capacity` how much of it the caller offers, if it passes
        a length at all. The length is overwritten before it is compared with the value's, so it does not limit the
        copy. */
    method Get(key: u16, index: int, out: array?<byte>, capacity: Option<u16>)
      returns (error: Error, length: Option<u16>)
      requires Valid() && out != buffer
      requires out != null && capacity.Some? && Lookup(Contents(), key, index).Some? ==>
                 |Lookup(Contents(), key, index).value| <= out.Length
      modifies if out == null then {} else {out}
      ensures Valid() && Contents() == old(Contents())
      ensures error == Step(Contents(), Op.Get(key, index)).1.error
      ensures length == if error == NoError && capacity.Some? then Some(|Lookup(Contents(), key, index).value|)
                        else capacity
      ensures out != null ==>
                out[..] == if capacity.Some? then CallerMemory(Contents(), key, index, old(out[..])) else old(out[..])
    {
      error, length := NotFound, capacity;
      var found := Find(key, index);
      if found.Some? {
        if length.Some? {
          length := Some(Len(found.value));
          if out != null && length.value >= Len(found.value) {
            CopyOut(found.value, out, Lookup(Contents(), key, index).value);
          }
        }
        error := NoError;
      }
    }

    method CopyOut(pos: nat, out: array<byte>, ghost v: Value)
      requires Valid() && out != buffer && pos + HEADER_SIZE <= recordLen && pos + HEADER_SIZE + Len(pos) <= recordLen
      requires v == buffer[pos + HEADER_SIZE..pos + HEADER_SIZE + Len(pos)] && |v| <= out.Length
      modifies out
      ensures out[..] == Overwrite(old(out[..]), 0, v)
    {
      MemCpy(out, 0, buffer[pos + HEADER_SIZE..pos + HEADER_SIZE + Len(pos)]);
    }

    /** The loop of Get: the offset of the record that holds the value asked for. */
    method Find(key: u16, index: int) returns (at: Option<nat>)
      requires Valid()
      ensures at.Some? <==> Lookup(Contents(), key, index).Some?
      ensures at.Some? ==> at.value + HEADER_SIZE <= recordLen && at.value + HEADER_SIZE + Len(at.value) <= recordLen
      ensures at.Some? ==>
                Lookup(Contents(), key, index).value
                == buffer[at.value + HEADER_SIZE..at.value + HEADER_SIZE + Len(at.value)]
    {
      ghost var rs := Contents();
      ghost var i := 0;
      var pos, nbKeyFound := 0, 0;
      BytesOf();
      OffsetEnds(rs);
      while pos < recordLen
        invariant i <= |rs| && pos == Offset(rs, i) <= recordLen
        invariant nbKeyFound == |Values(rs[..i], key)| && !(0 <= index < nbKeyFound)
        decreases recordLen - pos
      {
        VisitBuffer(rs, i);
        ValuesAt(rs, i, key);
        if Tag(pos) == key && nbKeyFound == index {
          return Some(pos);
        } else if Tag(pos) == key {
          nbKeyFound := nbKeyFound + 1;
        }
        pos := pos + HEADER_SIZE + Len(pos);
        i := i + 1;
      }
      AtEnd(rs, i);
      assert rs[..i] == rs;
      at := None;
    }

    /** Loads the file unless already initialized; a file the records fit makes a well-formed store. */
    method Init()
      requires Shape() && (isInitialized ==> Valid()) && |FileBytes(file)| <= CAPACITY
      modifies buffer, this`recordLen, this`recordFreeLen, this`isInitialized
      ensures isInitialized
      ensures old(isInitialized) ==> Valid() && Contents() == old(Contents())
      ensures !old(isInitialized) ==> recordLen + recordFreeLen == CAPACITY && buffer[..recordLen] == FileBytes(file)
      ensures !old(isInitialized) ==> (Valid() <==> Decode(FileBytes(file)).Some?)
    {
      if !isInitialized {
        isInitialized := true;
        MemZero(buffer, 0, CAPACITY);
        var data := FileBytes(file);
        MemCpy(buffer, 0, data);
        recordLen := |data|;
        recordFreeLen := CAPACITY - recordLen;
        assert buffer[..recordLen] == data;
      }
    }

    /** The idle-task save, run without interference. */
    method SaveIdle()
      requires Shape() && recordLen <= CAPACITY
      modifies idleBuffer, this`idleLen, this`toSave, this`file
      ensures !toSave
      ensures file == if old(toSave) then FileOf(buffer[..recordLen]) else old(file)
    {
      if toSave {
        toSave := false;
        idleLen := recordLen;
        MemCpy(idleBuffer, 0, buffer[..recordLen]);
        assert idleBuffer[..idleLen] == buffer[..recordLen];
        if idleLen == 0 {
          file := None;
        } else {
          file := Some(idleBuffer[..idleLen]);
        }
      }
    }

    /** A system reset: static memory returns to zero, flash stays. */
    method SystemReset()
      requires Shape()
      modifies buffer, this`recordLen, this`recordFreeLen, this`isInitialized, this`toSave
      ensures !isInitialized && !toSave && recordLen == 0
    {
      MemZero(buffer, 0, CAPACITY);
      recordLen, recordFreeLen, isInitialized, toSave := 0, 0, false, false;
    }

    /** A requested reset saves what is unsaved first, and the next Init finds every record again. */
    method ResetAndRestart()
      requires Valid() && (!toSave ==> file == FileOf(buffer[..recordLen]))
      modifies buffer, idleBuffer, this
      ensures Valid() && Contents() == old(Contents()) && isInitialized
      ensures file == FileOf(buffer[..recordLen]) && !toSave
    {
      ghost var bytes := buffer[..recordLen];
      SaveIdle();
      SystemReset();
      Init();
      assert buffer[..recordLen] == bytes;
    }
  }

  /** The caller's memory after a Get that passes a length: the value if there is one, whatever the length says. */
  function CallerMemory(rs: seq<Record>, key: u16, index: int, was: seq<byte>): seq<byte>
    requires Lookup(rs, key, index).Some? ==> |Lookup(rs, key, index).value| <= |was|
  {
    var v := Lookup(rs, key, index);
    if v.Some? then Overwrite(was, 0, v.value) else was
  }

  /** What follows the caller's bytes stays as it is. */
  ghost predicate Spares(rs: seq<Record>, key: u16, index: int, capacity: nat, was: seq<byte>)
    requires capacity <= |was|
    requires Lookup(rs, key, index).Some? ==> |Lookup(rs, key, index).value| <= |was|
  {
    CallerMemory(rs, key, index, was)[capacity..] == was[capacity..]
  }

  /** Get leaves what follows the caller's bytes alone, whatever is there, if and only if there is no such value or it
      is no longer than the capacity offered. */
  lemma {:induction false} GetStaysWithinIff(rs: seq<Record>, key: u16, index: int, capacity: nat, size: nat)
    requires capacity <= size && (Lookup(rs, key, index).Some? ==> |Lookup(rs, key, index).value| <= size)
    ensures (forall was: seq<byte> :: |was| == size ==> Spares(rs, key, index, capacity, was))
       <==> Lookup(rs, key, index).None? || |Lookup(rs, key, index).value| <= capacity
  {
    var v := Lookup(rs, key, index);
    if v.Some? && |v.value| > capacity {
      var was: seq<byte> := seq(size, _ => if v.value[capacity] == 0 then 1 else 0);
      assert CallerMemory(rs, key, index, was)[capacity..][0] == v.value[capacity];
      assert was[capacity..][0] != v.value[capacity];
      assert !Spares(rs, key, index, capacity, was);
    }
  }

  /** A store with one two-byte value, read with room for one byte: the second lands behind it. */
  lemma {:induction false} GetOverrunsCaller()
    ensures var rs := Step([], Op.Add(1, [7, 8])).0;
            && Lookup(rs, 1, 0) == Some([7, 8])
            && CallerMemory(rs, 1, 0, [0, 0]) == [7, 8] && !Spares(rs, 1, 0, 1, [0, 0])
  {
    OneRecordStore(1, [7, 8]);
    TwoBytesCopied([0, 0], [7, 8]);
  }

  lemma {:induction false} OneRecordStore(key: u16, value: Value)
    requires |value| == 2
    ensures var rs := Step([], Op.Add(key, value)).0;
            rs == [Record(key, value)] && Lookup(rs, key, 0) == Some(value)
  {
    assert AddRecords([], key, value) == [Record(key, value)];
    EncodeOne(Record(key, value));
    OneValue(key, value);
  }

  lemma TwoBytesCopied(was: seq<byte>, value: Value)
    requires |was| == |value| == 2 && was[1] != value[1]
    ensures Overwrite(was, 0, value) == value && value[1..] != was[1..]
  {
    assert value[1..][0] != was[1..][0];
  }

  /** One call of the API, with its answer. */
  method Perform(store: SettingsStore, op: Op) returns (o: Outcome)
    requires store.Valid()
    modifies store, store.buffer
    ensures store.Valid() && (store.Contents(), o) == Step(old(store.Contents()), op)
  {
    match op
    case Get(key, index) =>
      var out := new byte[0x1_0000];
      var error, length := store.Get(key, index, out, Some(0xFFFF));
      o := Outcome(error, if error == NoError then Some(out[..length.value]) else None);
      assert error == NoError ==> out[..length.value] == Lookup(store.Contents(), key, index).value;
    case Add(key, value) =>
      var error := store.Add(key, value);
      o := Outcome(error, None);
    case Set(key, value) =>
      var error := store.Set(key, value);
      o := Outcome(error, None);
    case Delete(key, index) =>
      var error := store.Delete(key, index);
      o := Outcome(error, None);
    case Wipe =>
      store.Wipe();
      o := Done;
  }

  /** Every sequence of calls on the byte buffer answers as the multimap does. */
  method Execute(store: SettingsStore, ops: seq<Op>, ghost m: MultiMap) returns (os: seq<Outcome>)
    requires store.Valid() && Refines(store.Contents(), m)
    modifies store, store.buffer
    ensures store.Valid() && Refines(store.Contents(), MapRun(m, ops).0)
    ensures os == MapRun(m, ops).1
    decreases |ops|
  {
    if ops == [] {
      os := [];
    } else {
      StepRefines(store.Contents(), m, ops[0]);
      var o := Perform(store, ops[0]);
      var rest := Execute(store, ops[1..], MapStep(m, ops[0]).0);
      os := [o] + rest;
    }
  }
}
