/** The <tag, length, value> record list both settings stores keep in a flat byte buffer. */
module Tlv {
  import opened Bytes

  /** A value length is a 16-bit field. */
  type Value = v: seq<byte> | |v| < 0x1_0000

  datatype Record = Record(key: u16, value: Value)

  const HEADER_SIZE := 4

  function Size(r: Record): nat { HEADER_SIZE + |r.value| }

  function EncodeRecord(r: Record): (b: seq<byte>)
    ensures |b| == Size(r)
  {
    [Lo(r.key), Hi(r.key), Lo(|r.value|), Hi(|r.value|)] + r.value
  }

  function Encode(rs: seq<Record>): seq<byte> {
    if rs == [] then [] else EncodeRecord(rs[0]) + Encode(rs[1..])
  }

  /** Parses a buffer the way every scanning loop walks it; None when a record is cut short. */
  function Decode(b: seq<byte>): Option<seq<Record>>
    decreases |b|
  {
    if b == [] then Some([])
    else if |b| < HEADER_SIZE then None
    else
      var n := U16(b[2], b[3]);
      if |b| < HEADER_SIZE + n then None
      else match Decode(b[HEADER_SIZE + n..])
           case None => None
           case Some(rs) => Some([Record(U16(b[0], b[1]), b[HEADER_SIZE..HEADER_SIZE + n])] + rs)
  }

  /** The layout of a record, byte for byte: tag and length low byte first, then the value. */
  lemma RecordLayout(r: Record)
    ensures var b := EncodeRecord(r);
            && |b| == 4 + |r.value| && b[4..] == r.value
            && (b[0] as int) + 256 * (b[1] as int) == r.key
            && (b[2] as int) + 256 * (b[3] as int) == |r.value|
  {
  }

  /** The first record of a buffer that starts with one. */
  lemma {:induction false} HeadRecord(r: Record, rest: seq<byte>)
    ensures var b := EncodeRecord(r) + rest;
            && U16(b[0], b[1]) == r.key
            && U16(b[2], b[3]) == |r.value|
            && b[HEADER_SIZE..Size(r)] == r.value
            && b[Size(r)..] == rest
  {
    U16RoundTrip(r.key);
    U16RoundTrip(|r.value|);
  }

  lemma {:induction false} DecodeEncode(rs: seq<Record>)
    ensures Decode(Encode(rs)) == Some(rs)
  {
    if rs == [] {
    } else {
      HeadRecord(rs[0], Encode(rs[1..]));
      DecodeEncode(rs[1..]);
      assert rs == [rs[0]] + rs[1..];
    }
  }

  lemma {:induction false} HeadBytes(b: seq<byte>, n: u16)
    requires |b| >= HEADER_SIZE + n && n == U16(b[2], b[3])
    ensures EncodeRecord(Record(U16(b[0], b[1]), b[HEADER_SIZE..HEADER_SIZE + n])) == b[..HEADER_SIZE + n]
  {
    U16Parts(b[0], b[1]);
    U16Parts(b[2], b[3]);
    assert [b[0], b[1], b[2], b[3]] + b[HEADER_SIZE..HEADER_SIZE + n] == b[..HEADER_SIZE + n];
  }

  lemma {:induction false} EncodeDecode(b: seq<byte>)
    requires Decode(b).Some?
    ensures Encode(Decode(b).value) == b
    decreases |b|
  {
    if b == [] {
    } else {
      var n := DecodeStep(b);
      HeadBytes(b, n);
      EncodeDecode(b[HEADER_SIZE + n..]);
      EncodeCons(Record(U16(b[0], b[1]), b[HEADER_SIZE..HEADER_SIZE + n]), Decode(b[HEADER_SIZE + n..]).value);
      Split(b, HEADER_SIZE + n);
    }
  }

  /** One step of the parse. */
  lemma {:induction false} DecodeStep(b: seq<byte>) returns (n: u16)
    requires b != [] && Decode(b).Some?
    ensures |b| >= HEADER_SIZE + n && n == U16(b[2], b[3]) && Decode(b[HEADER_SIZE + n..]).Some?
    ensures Decode(b).value
         == [Record(U16(b[0], b[1]), b[HEADER_SIZE..HEADER_SIZE + n])] + Decode(b[HEADER_SIZE + n..]).value
  {
    n := U16(b[2], b[3]);
  }

  lemma {:induction false} EncodeCons(r: Record, rs: seq<Record>)
    ensures Encode([r] + rs) == EncodeRecord(r) + Encode(rs)
  {
    assert ([r] + rs)[1..] == rs;
  }

  lemma {:induction false} EncodeConcat(a: seq<Record>, b: seq<Record>)
    ensures Encode(a + b) == Encode(a) + Encode(b)
  {
    if a == [] {
      assert a + b == b;
    } else {
      EncodeConcat(a[1..], b);
      assert (a + b)[1..] == a[1..] + b;
      Assoc(EncodeRecord(a[0]), Encode(a[1..]), Encode(b));
    }
  }

  /** Byte offset of record `i`. */
  function Offset(rs: seq<Record>, i: nat): nat
    requires i <= |rs|
  {
    |Encode(rs[..i])|
  }

  /** What a scanning loop reads at the offset of record `i`. */
  lemma {:induction false} RecordAt(rs: seq<Record>, i: nat)
    requires i < |rs|
    ensures Offset(rs, i + 1) == Offset(rs, i) + Size(rs[i]) <= |Encode(rs)|
    ensures var b, p := Encode(rs), Offset(rs, i);
            && U16(b[p], b[p + 1]) == rs[i].key
            && U16(b[p + 2], b[p + 3]) == |rs[i].value|
            && b[p + HEADER_SIZE..p + Size(rs[i])] == rs[i].value
  {
    OffsetStep(rs, i);
    SplitAt(rs, i);
    var suffix := Encode(rs[i..]);
    assert suffix == EncodeRecord(rs[i]) + Encode(rs[i + 1..]) by {
      assert rs[i..][1..] == rs[i + 1..];
    }
    HeadRecord(rs[i], Encode(rs[i + 1..]));
    HeaderIn(Encode(rs), Offset(rs, i), suffix, rs[i]);
  }

  /** The same in memory that holds the records. */
  lemma {:induction false} RecordIn(mem: seq<byte>, len: nat, rs: seq<Record>, i: nat)
    requires len <= |mem| && mem[..len] == Encode(rs) && i < |rs|
    ensures Offset(rs, i + 1) == Offset(rs, i) + Size(rs[i]) <= len
    ensures var p := Offset(rs, i);
            && U16(mem[p], mem[p + 1]) == rs[i].key
            && U16(mem[p + 2], mem[p + 3]) == |rs[i].value|
            && mem[p + HEADER_SIZE..p + Size(rs[i])] == rs[i].value
  {
    RecordAt(rs, i);
    var b, p := mem[..len], Offset(rs, i);
    assert b[p] == mem[p] && b[p + 1] == mem[p + 1] && b[p + 2] == mem[p + 2] && b[p + 3] == mem[p + 3];
    SliceOfPrefix(mem, len, p + HEADER_SIZE, p + Size(rs[i]));
  }

  lemma {:induction false} SplitAt(rs: seq<Record>, i: nat)
    requires i <= |rs|
    ensures Encode(rs) == Encode(rs[..i]) + Encode(rs[i..])
    ensures Offset(rs, i) <= |Encode(rs)| && Encode(rs)[Offset(rs, i)..] == Encode(rs[i..])
  {
    assert rs == rs[..i] + rs[i..];
    EncodeConcat(rs[..i], rs[i..]);
  }

  lemma {:induction false} OffsetStep(rs: seq<Record>, i: nat)
    requires i < |rs|
    ensures Offset(rs, i + 1) == Offset(rs, i) + Size(rs[i])
  {
    assert rs[..i + 1] == rs[..i] + [rs[i]];
    EncodeConcat(rs[..i], [rs[i]]);
    EncodeOne(rs[i]);
  }

  lemma {:induction false} EncodeOne(r: Record)
    ensures Encode([r]) == EncodeRecord(r)
  {
    assert [r][1..] == [];
  }

  /** Reading at `p` in `b` is reading at 0 in the suffix. */
  lemma {:induction false} HeaderIn(b: seq<byte>, p: nat, suffix: seq<byte>, r: Record)
    requires p <= |b| && b[p..] == suffix && |suffix| >= Size(r)
    requires U16(suffix[0], suffix[1]) == r.key && U16(suffix[2], suffix[3]) == |r.value|
    requires suffix[HEADER_SIZE..Size(r)] == r.value
    ensures p + Size(r) <= |b| && U16(b[p], b[p + 1]) == r.key && U16(b[p + 2], b[p + 3]) == |r.value|
    ensures b[p + HEADER_SIZE..p + Size(r)] == r.value
  {
    assert b[p] == suffix[0] && b[p + 1] == suffix[1] && b[p + 2] == suffix[2] && b[p + 3] == suffix[3];
    assert suffix[HEADER_SIZE..Size(r)] == b[p + HEADER_SIZE..p + Size(r)];
  }

  lemma {:induction false} OffsetEnds(rs: seq<Record>)
    ensures Offset(rs, 0) == 0 && Offset(rs, |rs|) == |Encode(rs)|
  {
    assert rs[..|rs|] == rs;
  }

  /** Replacing records i..j by `mid` replaces exactly their bytes. */
  lemma {:induction false} EncodeSplice(rs: seq<Record>, i: nat, j: nat, mid: seq<Record>)
    requires i <= j <= |rs|
    ensures Offset(rs, i) <= Offset(rs, j) <= |Encode(rs)|
    ensures Encode(rs[..i] + mid + rs[j..])
         == Encode(rs)[..Offset(rs, i)] + Encode(mid) + Encode(rs)[Offset(rs, j)..]
  {
    assert rs[..j] == rs[..i] + rs[i..j];
    EncodeConcat(rs[..i], rs[i..j]);
    SplitAt(rs, i);
    SplitAt(rs, j);
    EncodeConcat(rs[..i], mid);
    EncodeConcat(rs[..i] + mid, rs[j..]);
    assert Encode(rs)[..Offset(rs, i)] == Encode(rs[..i]);
  }

  // ---- The values stored under one key ----

  function Values(rs: seq<Record>, key: u16): seq<Value> {
    if rs == [] then []
    else (if rs[0].key == key then [rs[0].value] else []) + Values(rs[1..], key)
  }

  lemma {:induction false} ValuesConcat(a: seq<Record>, b: seq<Record>, key: u16)
    ensures Values(a + b, key) == Values(a, key) + Values(b, key)
  {
    if a == [] {
      assert a + b == b;
    } else {
      ValuesConcat(a[1..], b, key);
      assert (a + b)[1..] == a[1..] + b;
      Assoc(if a[0].key == key then [a[0].value] else [], Values(a[1..], key), Values(b, key));
    }
  }

  /** The `index`-th value of a key, if there is one; negative indices name nothing. */
  function Lookup(rs: seq<Record>, key: u16, index: int): Option<Value> {
    var vs := Values(rs, key);
    if 0 <= index < |vs| then Some(vs[index]) else None
  }

  /** A scan that counts the key's records so far knows the index of the value it is at. */
  lemma {:induction false} ValuesAt(rs: seq<Record>, i: nat, key: u16)
    requires i < |rs|
    ensures |Values(rs[..i + 1], key)| == |Values(rs[..i], key)| + if rs[i].key == key then 1 else 0
    ensures rs[i].key == key ==>
              |Values(rs[..i], key)| < |Values(rs, key)|
              && Values(rs, key)[|Values(rs[..i], key)|] == rs[i].value
  {
    assert rs[..i + 1] == rs[..i] + [rs[i]];
    ValuesConcat(rs[..i], [rs[i]], key);
    assert rs == rs[..i + 1] + rs[i + 1..];
    ValuesConcat(rs[..i + 1], rs[i + 1..], key);
  }

  predicate Has(rs: seq<Record>, key: u16) { exists i :: 0 <= i < |rs| && rs[i].key == key }

  lemma {:induction false} ValuesAbsent(rs: seq<Record>, key: u16)
    ensures Has(rs, key) <==> Values(rs, key) != []
  {
    if rs == [] {
    } else {
      ValuesAbsent(rs[1..], key);
      assert forall i :: 0 < i < |rs| ==> rs[i] == rs[1..][i - 1];
      assert forall i :: 0 <= i < |rs[1..]| ==> rs[1..][i] == rs[i + 1];
    }
  }

  lemma {:induction false} ValuesAll(rs: seq<Record>, key: u16)
    requires forall i :: 0 <= i < |rs| ==> rs[i].key == key
    ensures |Values(rs, key)| == |rs|
    ensures forall i :: 0 <= i < |rs| ==> Values(rs, key)[i] == rs[i].value
  {
    if rs == [] {
    } else {
      ValuesAll(rs[1..], key);
    }
  }
}
