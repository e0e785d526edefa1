/** ram_storage.c: the same records appended in arrival order and compacted on removal. */
module RamStorage {
  import opened Bytes
  import opened Tlv
  import opened SettingsSpec

  datatype Limits = Limits(maxLength: u16, extendedSearch: bool, backendRegionSize: u16)

  /** `sizeof(struct settingsBlock) + aValueLength`, kept in a 16-bit variable. */
  function BlockLength(n: u16): u16 { (HEADER_SIZE + n) % 0x1_0000 }

  /** The two capacity tests of `ramStorageAdd`. */
  predicate Fits(l: Limits, used: nat, n: u16) {
    used + BlockLength(n) <= l.maxLength && (l.extendedSearch || used + BlockLength(n) < l.backendRegionSize)
  }

  lemma NotWrapped(n: u16)
    requires n <= 0xFFFB
    ensures BlockLength(n) == HEADER_SIZE + n
  {
  }

  /** The tests are not passed by a block whose length has wrapped, and which the buffer therefore cannot hold. */
  predicate NoOverrun(l: Limits, used: nat, n: u16) { n <= 0xFFFB || !Fits(l, used, n) }

  /** The tests keep a block of n value bytes inside the buffer at every fill level if and only if the block length
      does not wrap, or no fill level passes them at all. */
  lemma {:induction false} FitsIsExact(l: Limits, n: u16)
    ensures (forall used: nat :: Fits(l, used, n) ==> used + HEADER_SIZE + n <= l.maxLength)
        <==> NoOverrun(l, 0, n)
  {
    if n > 0xFFFB && Fits(l, 0, n) {
      assert !(0 + HEADER_SIZE + n <= l.maxLength);
    }
  }

  /** With extended search the tests let a wrapped block pass exactly when what is left of its length fits. */
  lemma WrappedBlockPassesIff(l: Limits, used: nat, n: u16)
    requires l.extendedSearch
    ensures !NoOverrun(l, used, n) <==> n >= 0xFFFC && used + (n - 0xFFFC) <= l.maxLength
  {
  }

  // ---- The operations on the record list ----

  /** The records left and the answer, or a write past the end of the buffer, which no record list describes. */
  datatype Effect<A> = Effect(records: seq<Record>, answer: A) | Overrun

  function Without(rs: seq<Record>, key: u16): seq<Record> {
    if rs == [] then [] else (if rs[0].key == key then [] else [rs[0]]) + Without(rs[1..], key)
  }

  function RamAdd(l: Limits, rs: seq<Record>, key: u16, value: Value): Effect<Error> {
    if !Fits(l, |Encode(rs)|, |value|) then Effect(rs, NoBufs)
    else if HEADER_SIZE + |value| >= 0x1_0000 then Overrun
    else Effect(rs + [Record(key, value)], NoError)
  }

  function RamSet(l: Limits, rs: seq<Record>, key: u16, value: Value): Effect<Error> {
    var i := RunStart(rs, key);
    if i < |rs| && |rs[i].value| == |value| then Effect(Splice(rs, i, i + 1, [Record(key, value)]), NoError)
    else RamAdd(l, Without(rs, key), key, value)
  }

  /** The occurrence counter moves only on a hit, so an index other than 0 and -1 never hits. */
  function RamDelete(rs: seq<Record>, key: u16, index: int): (seq<Record>, Error) {
    var i := RunStart(rs, key);
    if i == |rs| || (index != 0 && index != -1) then (rs, NotFound)
    else if index == 0 then (Splice(rs, i, i + 1, []), NoError)
    else (Without(rs, key), NoError)
  }

  // ---- Facts about Without ----

  lemma {:induction false} WithoutValues(rs: seq<Record>, key: u16, k: u16)
    ensures Values(Without(rs, key), k) == if k == key then [] else Values(rs, k)
  {
    if rs == [] {
    } else {
      WithoutValues(rs[1..], key, k);
      if rs[0].key == key {
        assert Without(rs, key) == Without(rs[1..], key);
      } else {
        ValuesConcat([rs[0]], Without(rs[1..], key), k);
        assert [rs[0]][1..] == [];
      }
    }
  }

  lemma {:induction false} WithoutAbsent(rs: seq<Record>, key: u16)
    requires RunStart(rs, key) == |rs|
    ensures Without(rs, key) == rs
  {
    if rs == [] {
    } else {
      WithoutAbsent(rs[1..], key);
    }
  }

  lemma {:induction false} Append(rs: seq<Record>, r: Record)
    ensures Encode(rs + [r]) == Encode(rs) + EncodeRecord(r)
  {
    EncodeConcat(rs, [r]);
    EncodeOne(r);
  }

  /** The bytes after an Add fit the buffer and, without extended search, stay below the size of the backend region. */
  predicate BytesFit(l: Limits, rs: seq<Record>, key: u16, value: Value) {
    var after := |Encode(rs + [Record(key, value)])|;
    after <= l.maxLength && (l.extendedSearch || after < l.backendRegionSize)
  }

  /** Add succeeds exactly when the resulting bytes fit, if and only if its tests are not passed by a wrapped length;
      when they are, it writes past the buffer, and otherwise a refusal changes nothing. */
  lemma {:induction false} AddSucceedsIff(l: Limits, rs: seq<Record>, key: u16, value: Value)
    ensures var e := RamAdd(l, rs, key, value);
            && (e.Overrun? <==> !NoOverrun(l, |Encode(rs)|, |value|))
            && (e.Effect? ==> (e.answer == NoError <==> BytesFit(l, rs, key, value)))
            && (e.Effect? && e.answer != NoError ==> e == Effect(rs, NoBufs))
            && (e.Overrun? ==> !BytesFit(l, rs, key, value))
  {
    Append(rs, Record(key, value));
  }

  /** Replacing a value by one of the same length is overwriting its bytes. */
  lemma {:induction false} InPlace(rs: seq<Record>, k: nat, value: Value)
    requires k < |rs| && |rs[k].value| == |value|
    ensures Offset(rs, k) + HEADER_SIZE + |value| <= |Encode(rs)|
    ensures Encode(Splice(rs, k, k + 1, [Record(rs[k].key, value)]))
         == Overwrite(Encode(rs), Offset(rs, k) + HEADER_SIZE, value)
  {
    var r := Record(rs[k].key, value);
    EncodeSplice(rs, k, k + 1, [r]);
    EncodeSplice(rs, k, k + 1, [rs[k]]);
    assert Splice(rs, k, k + 1, [rs[k]]) == rs;
    EncodeOne(r);
    EncodeOne(rs[k]);
    OffsetStep(rs, k);
    SameHeader(Encode(rs)[..Offset(rs, k)], rs[k], r, Encode(rs)[Offset(rs, k + 1)..]);
  }

  /** The same in the memory that holds the records. */
  lemma {:induction false} InPlaceMemory(was: seq<byte>, length: nat, rs: seq<Record>, k: nat, value: Value)
    requires k < |rs| && |rs[k].value| == |value| && length <= |was| && was[..length] == Encode(rs)
    ensures Offset(rs, k) + HEADER_SIZE + |value| <= length
    ensures Overwrite(was, Offset(rs, k) + HEADER_SIZE, value)[..length]
         == Encode(Splice(rs, k, k + 1, [Record(rs[k].key, value)]))
  {
    InPlace(rs, k, value);
    OverwritePrefix(was, length, Offset(rs, k) + HEADER_SIZE, value);
  }

  lemma OverwriteBelow<T>(s: seq<T>, at: nat, data: seq<T>, n: nat)
    requires at + |data| <= n <= |s|
    ensures Overwrite(s, at, data)[n..] == s[n..]
  {
  }

  lemma OverwriteAfter<T>(s: seq<T>, at: nat, kept: seq<T>, data: seq<T>)
    requires at + |data| <= |s| && s[..at] == kept
    ensures Overwrite(s, at, data)[..|kept| + |data|] == kept + data
  {
    OverwriteEnd(s, at, data);
  }

  lemma OverwriteEnd<T>(s: seq<T>, at: nat, data: seq<T>)
    requires at + |data| <= |s|
    ensures Overwrite(s, at, data)[..at + |data|] == s[..at] + data
  {
  }

  lemma {:induction false} SameSuffix<T>(a: seq<T>, b: seq<T>, i: nat, j: nat)
    requires i <= j <= |a| == |b| && a[i..] == b[i..]
    ensures a[j..] == b[j..]
  {
    assert a[j..] == a[i..][j - i..] && b[j..] == b[i..][j - i..];
  }

  /** A block written after the records is one more record. */
  lemma {:induction false} Appended(was: seq<byte>, length: nat, rs: seq<Record>, r: Record)
    requires length + Size(r) <= |was| && was[..length] == Encode(rs)
    ensures |EncodeRecord(r)| == Size(r)
    ensures Overwrite(was, length, EncodeRecord(r))[..length + Size(r)] == Encode(rs + [r])
  {
    OverwriteEnd(was, length, EncodeRecord(r));
    Append(rs, r);
  }

  lemma OverwritePrefix<T>(s: seq<T>, n: nat, at: nat, data: seq<T>)
    requires at + |data| <= n <= |s|
    ensures Overwrite(s, at, data)[..n] == Overwrite(s[..n], at, data)
  {
  }

  lemma SameHeader(pre: seq<byte>, old_: Record, new_: Record, post: seq<byte>)
    requires old_.key == new_.key && |old_.value| == |new_.value|
    ensures pre + EncodeRecord(new_) + post
         == Overwrite(pre + EncodeRecord(old_) + post, |pre| + HEADER_SIZE, new_.value)
  {
  }

  /** How far past its start a block can reach: its header and the longest value. */
  const LONGEST_BLOCK: nat := HEADER_SIZE + 0xFFFF

  class RamBuffer {
    /** The memory from the start of the buffer on. The buffer itself is the first `limits.maxLength` bytes. */
    const buffer: array<byte>
    const limits: Limits
    var length: nat

    constructor (limits: Limits)
      ensures Valid() && Contents() == [] && this.limits == limits && fresh(buffer)
    {
      this.limits := limits;
      buffer := new byte[limits.maxLength + LONGEST_BLOCK];
      length := 0;
    }

    ghost predicate Valid()
      reads this, buffer
    {
      length <= limits.maxLength <= buffer.Length - LONGEST_BLOCK && Decode(buffer[..length]).Some?
    }

    ghost function Contents(): seq<Record>
      requires Valid()
      reads this, buffer
    {
      Decode(buffer[..length]).value
    }

    function Key(i: nat): u16
      requires i + HEADER_SIZE <= buffer.Length
      reads buffer
    {
      U16(buffer[i], buffer[i + 1])
    }

    function Len(i: nat): u16
      requires i + HEADER_SIZE <= buffer.Length
      reads buffer
    {
      U16(buffer[i + 2], buffer[i + 3])
    }

    lemma {:induction false} BytesOf()
      requires Valid()
      ensures Encode(Contents()) == buffer[..length]
    {
      EncodeDecode(buffer[..length]);
    }

    lemma {:induction false} Holds(rs: seq<Record>)
      requires length <= limits.maxLength <= buffer.Length - LONGEST_BLOCK && buffer[..length] == Encode(rs)
      ensures Valid() && Contents() == rs
    {
      DecodeEncode(rs);
    }

    /** What the loops read at the offset of record k; at the end of the bytes there is none. */
    lemma {:induction false} Visit(rs: seq<Record>, k: nat)
      requires length <= buffer.Length && buffer[..length] == Encode(rs) && k <= |rs|
      ensures Offset(rs, k) < length <==> k < |rs|
      ensures k < |rs| ==>
                && Offset(rs, k + 1) == Offset(rs, k) + Size(rs[k]) <= length
                && Key(Offset(rs, k)) == rs[k].key && Len(Offset(rs, k)) == |rs[k].value|
                && buffer[Offset(rs, k) + HEADER_SIZE..Offset(rs, k) + Size(rs[k])] == rs[k].value
    {
      OffsetEnds(rs);
      if k < |rs| {
        assert buffer[..][..length] == buffer[..length];
        RecordIn(buffer[..], length, rs, k);
      }
    }

    /** What follows the buffer in memory. */
    ghost function Beyond(): seq<byte>
      requires limits.maxLength <= buffer.Length
      reads buffer
    {
      buffer[limits.maxLength..]
    }

    method Add(key: u16, value: Value) returns (error: Error)
      requires Valid()
      modifies this`length, buffer
      ensures match RamAdd(limits, old(Contents()), key, value)
              case Effect(rs, e) => Valid() && Contents() == rs && error == e && Beyond() == old(Beyond())
              case Overrun =>
                && error == NoError && length == old(length) + BlockLength(|value|)
                && buffer[..] == Overwrite(old(buffer[..]), old(length), EncodeRecord(Record(key, value)))
                && old(length) + Size(Record(key, value)) > limits.maxLength
      ensures error == NoError || (error == NoBufs && buffer[..] == old(buffer[..]) && length == old(length))
    {
      BytesOf();
      var newBlockLength := BlockLength(|value|);
      if !(length + newBlockLength <= limits.maxLength) {
        return NoBufs;
      }
      if !limits.extendedSearch && !(length + newBlockLength < limits.backendRegionSize) {
        return NoBufs;
      }
      AppendBlock(key, value, newBlockLength);
      error := NoError;
    }

    /** Lays down a block; it is one more record if its length has not wrapped. */
    method AppendBlock(key: u16, value: Value, newBlockLength: u16)
      requires Valid() && newBlockLength == BlockLength(|value|) && length + newBlockLength <= limits.maxLength
      modifies this`length, buffer
      ensures length == old(length) + newBlockLength
      ensures buffer[..] == Overwrite(old(buffer[..]), old(length), EncodeRecord(Record(key, value)))
      ensures HEADER_SIZE + |value| < 0x1_0000 ==>
                Valid() && Contents() == old(Contents()) + [Record(key, value)] && Beyond() == old(Beyond())
    {
      ghost var rs, was, at := Contents(), buffer[..], length;
      BytesOf();
      WriteBlock(key, value);
      length := length + newBlockLength;
      if HEADER_SIZE + |value| < 0x1_0000 {
        NotWrapped(|value|);
        Appended(was, at, rs, Record(key, value));
        Rewritten(was, at, EncodeRecord(Record(key, value)), rs + [Record(key, value)]);
      }
    }

    /** A write inside the buffer, after which its bytes are those of `rs`. */
    lemma {:induction false} Rewritten(was: seq<byte>, at: nat, data: seq<byte>, rs: seq<Record>)
      requires at + |data| <= limits.maxLength <= |was| - LONGEST_BLOCK && length <= limits.maxLength
      requires buffer[..] == Overwrite(was, at, data) && Overwrite(was, at, data)[..length] == Encode(rs)
      ensures Valid() && Contents() == rs && Beyond() == was[limits.maxLength..]
    {
      assert buffer[..length] == buffer[..][..length];
      assert Beyond() == buffer[..][limits.maxLength..];
      OverwriteBelow(was, at, data, limits.maxLength);
      Holds(rs);
    }

    /** The two `memcpy` calls that lay down a block at the end. */
    method WriteBlock(key: u16, value: Value)
      requires length + HEADER_SIZE + |value| <= buffer.Length
      modifies buffer
      ensures buffer[..] == Overwrite(old(buffer[..]), length, EncodeRecord(Record(key, value)))
    {
      ghost var was, head := buffer[..], [Lo(key), Hi(key), Lo(|value|), Hi(|value|)];
      MemCpy(buffer, length, [Lo(key), Hi(key), Lo(|value|), Hi(|value|)]);
      MemCpy(buffer, length + HEADER_SIZE, value);
      OverwriteTwice(was, length, head, value);
    }

    method Get(key: u16, index: int, out: array?<byte>, capacity: Option<u16>)
      returns (error: Error, valueLength: Option<u16>)
      requires Valid() && out != buffer
      requires out != null && capacity.Some? ==> capacity.value <= out.Length
      modifies if out == null then {} else {out}
      ensures Valid() && Contents() == old(Contents())
      ensures error == if Lookup(Contents(), key, index).Some? then NoError else NotFound
      ensures valueLength == if capacity.None? then None
                             else if error == NoError then Some(|Lookup(Contents(), key, index).value|) else Some(0)
      ensures out != null ==>
                out[..] == if error == NoError && capacity.Some?
                           then var v := Lookup(Contents(), key, index).value;
                                Overwrite(old(out[..]), 0, if |v| > capacity.value then v[..capacity.value] else v)
                           else old(out[..])
    {
      error, valueLength := NotFound, if capacity.Some? then Some(0) else None;
      var found := Find(key, index);
      if found.Some? {
        var i := found.value;
        if out != null && capacity.Some? {
          CopyOut(i, out, capacity.value, Lookup(Contents(), key, index).value);
        }
        error := NoError;
        if capacity.Some? {
          valueLength := Some(Len(i));
        }
      }
    }

    /** Copies the value of the block at `i`, cut to the capacity of the caller's buffer. */
    method CopyOut(i: nat, out: array<byte>, capacity: u16, ghost v: Value)
      requires Valid() && out != buffer && capacity <= out.Length
      requires i + HEADER_SIZE <= length && i + HEADER_SIZE + Len(i) <= length
      requires v == buffer[i + HEADER_SIZE..i + HEADER_SIZE + Len(i)]
      modifies out
      ensures out[..] == Overwrite(old(out[..]), 0, if |v| > capacity then v[..capacity] else v)
    {
      var readLength := Len(i);
      if readLength > capacity {
        readLength := capacity;
      }
      assert buffer[i + HEADER_SIZE..i + HEADER_SIZE + readLength] == v[..readLength];
      assert v[..|v|] == v;
      MemCpy(out, 0, buffer[i + HEADER_SIZE..i + HEADER_SIZE + readLength]);
    }

    /** One step of that loop. */
    lemma {:induction false} FindStep(rs: seq<Record>, k: nat, key: u16)
      requires length <= buffer.Length && buffer[..length] == Encode(rs) && k <= |rs| && Offset(rs, k) < length
      ensures k < |rs|
      ensures var i, n := Offset(rs, k), |Values(rs[..k], key)|;
              && i + HEADER_SIZE <= length
              && Offset(rs, k + 1) == i + HEADER_SIZE + Len(i) <= length
              && |Values(rs[..k + 1], key)| == n + (if Key(i) == key then 1 else 0)
    {
      Visit(rs, k);
      ValuesAt(rs, k, key);
    }

    /** A hit with the right number of hits before it. */
    lemma {:induction false} FoundHere(rs: seq<Record>, k: nat, key: u16)
      requires length <= buffer.Length && buffer[..length] == Encode(rs) && k < |rs|
      requires Offset(rs, k) + HEADER_SIZE <= length && Key(Offset(rs, k)) == key
      ensures var i := Offset(rs, k);
              && i + HEADER_SIZE + Len(i) <= length
              && Lookup(rs, key, |Values(rs[..k], key)|)
                 == Some(buffer[i + HEADER_SIZE..i + HEADER_SIZE + Len(i)])
    {
      Visit(rs, k);
      ValuesAt(rs, k, key);
    }

    /** The loop of Get: the offset of the block that holds the value asked for. */
    method Find(key: u16, index: int) returns (at: Option<nat>)
      requires Valid()
      ensures at.Some? <==> Lookup(Contents(), key, index).Some?
      ensures at.Some? ==> at.value + HEADER_SIZE <= length && at.value + HEADER_SIZE + Len(at.value) <= length
      ensures at.Some? ==>
                Lookup(Contents(), key, index).value
                == buffer[at.value + HEADER_SIZE..at.value + HEADER_SIZE + Len(at.value)]
    {
      ghost var rs := Contents();
      ghost var k := 0;
      var i, currentIndex := 0, 0;
      BytesOf();
      OffsetEnds(rs);
      while i < length
        invariant k <= |rs| && i == Offset(rs, k)
        invariant currentIndex == |Values(rs[..k], key)| && !(0 <= index < currentIndex)
        decreases length - i
      {
        FindStep(rs, k, key);
        if key == Key(i) {
          if currentIndex == index {
            FoundHere(rs, k, key);
            return Some(i);
          }
          currentIndex := currentIndex + 1;
        }
        i := i + HEADER_SIZE + Len(i);
        k := k + 1;
      }
      ScannedAll(rs, k);
      at := None;
    }

    /** A scan that ran off the bytes ran off the records. */
    lemma {:induction false} ScannedAll(rs: seq<Record>, k: nat)
      requires length <= buffer.Length && buffer[..length] == Encode(rs) && k <= |rs| && Offset(rs, k) >= length
      ensures rs[..k] == rs && k == |rs|
    {
      Visit(rs, k);
    }

    /** The `memmove` and the new length that take out the block after the `done` ones. */
    method RemoveBlock(i: nat, n: nat, ghost done: seq<Record>, ghost rest: seq<Record>)
      requires length <= buffer.Length && buffer[..length] == Encode(done + rest)
      requires rest != [] && i == |Encode(done)| && n == Size(rest[0])
      modifies this`length, buffer
      ensures length == old(length) - n && buffer[..length] == Encode(done + rest[1..])
      ensures old(length) <= limits.maxLength <= buffer.Length ==> Beyond() == old(buffer[limits.maxLength..])
    {
      Closed(buffer[..], length, done, rest);
      ghost var was, len := buffer[..], length;
      CloseGap(i, n);
      if len <= limits.maxLength <= buffer.Length {
        SameSuffix(was, buffer[..], len, limits.maxLength);
      }
    }

    method CloseGap(i: nat, n: nat)
      requires i + n <= length <= buffer.Length
      modifies this`length, buffer
      ensures length == old(length) - n
      ensures buffer[..length] == old(buffer[..])[..i] + old(buffer[..])[i + n..old(length)]
      ensures buffer[old(length)..] == old(buffer[length..])
    {
      ghost var was, len := buffer[..], length;
      var nextBlockStart := i + n;
      if nextBlockStart < length {
        MemMoveDown(buffer, i, nextBlockStart, length - nextBlockStart);
      }
      length := length - n;
      assert buffer[..i] == was[..i];
      assert buffer[i..length] == was[i + n..len];
      assert buffer[..length] == buffer[..i] + buffer[i..length];
    }

    method Delete(key: u16, index: int) returns (error: Error)
      requires Valid()
      modifies this`length, buffer
      ensures Valid() && (Contents(), error) == RamDelete(old(Contents()), key, index) && Beyond() == old(Beyond())
      ensures error == NoError || (error == NotFound && buffer[..] == old(buffer[..]) && length == old(length))
    {
      ghost var rs := Contents();
      ghost var done, rest: seq<Record> := [], rs;
      var i, currentIndex := 0, 0;
      error := NotFound;
      BytesOf();
      assert done + rest == rest;
      Begun(rs, key, index);
      while i < length
        invariant length <= limits.maxLength <= buffer.Length - LONGEST_BLOCK && Beyond() == old(Beyond())
        invariant buffer[..length] == Encode(done + rest) && i == |Encode(done)|
        invariant error == NotFound ==> buffer[..] == old(buffer[..]) && length == old(length)
        invariant Deleting(rs, done, rest, key, index, error)
        invariant index != -1 ==> currentIndex == 0
        decreases length - i
      {
        AtNext(done, rest);
        var n := HEADER_SIZE + Len(i);
        if key == Key(i) && (currentIndex == index || index == -1) {
          currentIndex := currentIndex + 1;
          DeletingHit(rs, done, rest, key, index, error);
          RemoveBlock(i, n, done, rest);
          error := NoError;
          rest := rest[1..];
          if index != -1 {
            Holds(done + rest);
            return;
          }
        } else {
          KeepNext(done, rest);
          DeletingKeep(rs, done, rest, key, index, error);
          done, rest := done + [rest[0]], rest[1..];
          i := i + n;
        }
      }
      AtLast(done, rest);
      DeletingEnds(rs, done, key, index, error);
      Holds(done);
    }

    /** The loop of Set: the first block of the key. */
    method FindFirst(key: u16) returns (at: Option<nat>)
      requires Valid()
      ensures at == if RunStart(Contents(), key) < |Contents()|
                    then Some(Offset(Contents(), RunStart(Contents(), key))) else None
    {
      ghost var rs := Contents();
      ghost var first := RunStart(rs, key);
      ghost var k := 0;
      var i := 0;
      BytesOf();
      OffsetEnds(rs);
      while i < length
        invariant k <= first && i == Offset(rs, k)
        decreases length - i
      {
        Visit(rs, k);
        FirstStep(rs, key, k);
        if key == Key(i) {
          return Some(i);
        }
        i := i + HEADER_SIZE + Len(i);
        k := k + 1;
      }
      Visit(rs, k);
      at := None;
    }

    /** A value of the same length is written over the old one. */
    method OverwriteValue(i: nat, value: Value, ghost k: nat)
      requires Valid() && k < |Contents()| && i == Offset(Contents(), k) && |Contents()[k].value| == |value|
      modifies buffer
      ensures Valid() && Contents() == Splice(old(Contents()), k, k + 1, [Record(old(Contents())[k].key, value)])
      ensures Beyond() == old(Beyond())
    {
      ghost var rs := Contents();
      ghost var was := buffer[..];
      BytesOf();
      assert was[..length] == buffer[..length];
      InPlaceMemory(was, length, rs, k, value);
      MemCpy(buffer, i + HEADER_SIZE, value);
      Rewritten(was, i + HEADER_SIZE, value, Splice(rs, k, k + 1, [Record(rs[k].key, value)]));
    }

    method Set(key: u16, value: Value) returns (error: Error)
      requires Valid()
      modifies this`length, buffer
      ensures match RamSet(limits, old(Contents()), key, value)
              case Effect(rs, e) => Valid() && Contents() == rs && error == e && Beyond() == old(Beyond())
              case Overrun =>
                var kept, block := Encode(Without(old(Contents()), key)), EncodeRecord(Record(key, value));
                && error == NoError && length == |kept| + BlockLength(|value|)
                && limits.maxLength < |kept| + |block| <= buffer.Length
                && buffer[..|kept| + |block|] == kept + block
    {
      ghost var rs := Contents();
      error := NoError;
      var alreadyExists := false;
      var found := FindFirst(key);
      if found.Some? {
        BytesOf();
        Visit(rs, RunStart(rs, key));
        if Len(found.value) != |value| {
          var _ := Delete(key, -1);
        } else {
          OverwriteValue(found.value, value, RunStart(rs, key));
          alreadyExists := true;
        }
      } else {
        WithoutAbsent(rs, key);
      }
      if !alreadyExists {
        BytesOf();
        assert buffer[..][..length] == buffer[..length];
        OverwriteAfter(buffer[..], length, Encode(Contents()), EncodeRecord(Record(key, value)));
        error := Add(key, value);
      }
    }

    /** Not at the end of the bytes: the next block is the first one not yet passed. */
    lemma {:induction false} AtNext(done: seq<Record>, rest: seq<Record>)
      requires length <= buffer.Length && buffer[..length] == Encode(done + rest) && |Encode(done)| < length
      ensures rest != [] && |Encode(done)| + Size(rest[0]) <= length
      ensures Key(|Encode(done)|) == rest[0].key && Len(|Encode(done)|) == |rest[0].value|
    {
      Visit(done + rest, |done|);
      assert (done + rest)[..|done|] == done;
    }

    lemma {:induction false} AtLast(done: seq<Record>, rest: seq<Record>)
      requires length <= buffer.Length && buffer[..length] == Encode(done + rest) && |Encode(done)| >= length
      ensures rest == [] && done + rest == done
    {
      Visit(done + rest, |done|);
      assert (done + rest)[..|done|] == done;
    }
  }

  // ---- The loop of Delete on the record list ----

  /** The `done` records have been passed and kept, the `rest` is ahead; NoError once something has been removed. */
  ghost predicate Deleting(rs: seq<Record>, done: seq<Record>, rest: seq<Record>, key: u16, index: int, error: Error) {
    && (error == NotFound || (error == NoError && index == -1 && RunStart(rs, key) < |rs|))
    && (error == NotFound ==> done + rest == rs)
    && (error == NotFound && (index == -1 || index == 0) ==> NoneOf(done, key))
    && (index == -1 ==> done + Without(rest, key) == Without(rs, key))
  }

  lemma {:induction false} Begun(rs: seq<Record>, key: u16, index: int)
    ensures Deleting(rs, [], rs, key, index, NotFound)
  {
    Units(rs);
    Units(Without(rs, key));
  }

  lemma {:induction false} DeletingHit(rs: seq<Record>, done: seq<Record>, rest: seq<Record>, key: u16, index: int,
                                       error: Error)
    requires Deleting(rs, done, rest, key, index, error) && rest != [] && rest[0].key == key
    requires index == 0 || index == -1
    ensures if index == -1 then Deleting(rs, done, rest[1..], key, index, NoError)
            else RamDelete(rs, key, index) == (done + rest[1..], NoError)
  {
    WithoutHit(rest, key);
    if error == NotFound {
      FirstHit(done, rest, key, rs);
    }
  }

  lemma {:induction false} DeletingKeep(rs: seq<Record>, done: seq<Record>, rest: seq<Record>, key: u16, index: int,
                                        error: Error)
    requires Deleting(rs, done, rest, key, index, error) && rest != []
    requires rest[0].key != key || (index != 0 && index != -1)
    ensures Deleting(rs, done + [rest[0]], rest[1..], key, index, error)
  {
    assert done + [rest[0]] + rest[1..] == done + rest;
    Assoc(done, [rest[0]], Without(rest[1..], key));
  }

  lemma {:induction false} DeletingEnds(rs: seq<Record>, done: seq<Record>, key: u16, index: int, error: Error)
    requires Deleting(rs, done, [], key, index, error)
    ensures RamDelete(rs, key, index) == (done, error) && (error == NotFound ==> done == rs)
  {
    Units(done);
  }

  /** Dropping the block at the scan position, in bytes. */
  lemma {:induction false} DropBytes(done: seq<Record>, rest: seq<Record>)
    requires rest != []
    ensures var b, p := Encode(done + rest), |Encode(done)|;
            p + Size(rest[0]) <= |b| && b[..p] + b[p + Size(rest[0])..] == Encode(done + rest[1..])
  {
    EncodeConcat(done, rest);
    EncodeConcat(done, rest[1..]);
    assert Encode(rest) == EncodeRecord(rest[0]) + Encode(rest[1..]);
    DropMiddle(Encode(done + rest), Encode(done), EncodeRecord(rest[0]), Encode(rest[1..]));
  }

  lemma {:induction false} DropMiddle(b: seq<byte>, x: seq<byte>, y: seq<byte>, z: seq<byte>)
    requires b == x + (y + z)
    ensures b[..|x|] + b[|x| + |y|..] == x + z
  {
    CutSeq(x, y, z);
  }

  lemma {:induction false} Closed(s: seq<byte>, len: nat, done: seq<Record>, rest: seq<Record>)
    requires len <= |s| && s[..len] == Encode(done + rest) && rest != []
    ensures var i := |Encode(done)|;
            i + Size(rest[0]) <= len && s[..i] + s[i + Size(rest[0])..len] == Encode(done + rest[1..])
  {
    DropBytes(done, rest);
    var b, i := s[..len], |Encode(done)|;
    assert b[..i] == s[..i] && b[i + Size(rest[0])..] == s[i + Size(rest[0])..len];
  }

  /** A hit on the first record of the key. */
  lemma {:induction false} FirstHit(done: seq<Record>, rest: seq<Record>, key: u16, rs: seq<Record>)
    requires rest != [] && rest[0].key == key && NoneOf(done, key) && done + rest == rs
    ensures RunStart(rs, key) == |done| < |rs|
    ensures done + rest[1..] == Splice(rs, |done|, |done| + 1, [])
  {
    assert rs[|done|].key == key;
    assert rs[..|done|] == done && rs[|done| + 1..] == rest[1..];
  }

  lemma FirstStep(rs: seq<Record>, key: u16, k: nat)
    requires k < |rs| && k <= RunStart(rs, key)
    ensures if rs[k].key == key then k == RunStart(rs, key) else k < RunStart(rs, key)
  {
  }

  lemma WithoutHit(rest: seq<Record>, key: u16)
    requires rest != [] && rest[0].key == key
    ensures Without(rest, key) == Without(rest[1..], key)
  {
  }

  lemma {:induction false} KeepNext(done: seq<Record>, rest: seq<Record>)
    requires rest != []
    ensures done + [rest[0]] + rest[1..] == done + rest
    ensures |Encode(done + [rest[0]])| == |Encode(done)| + Size(rest[0])
  {
    EncodeConcat(done, [rest[0]]);
    EncodeOne(rest[0]);
  }
}
