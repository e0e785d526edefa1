/** What the settings API does to the record list, and the multimap that list stands for. */
module SettingsSpec {
  import opened Bytes
  import opened Tlv

  const CAPACITY: nat := 1024

  datatype Error = NoError | NotFound | NoBufs

  datatype Op =
    | Get(key: u16, index: int)
    | Add(key: u16, value: Value)
    | Set(key: u16, value: Value)
    | Delete(key: u16, index: int)
    | Wipe

  datatype Outcome = Outcome(error: Error, value: Option<Value>)

  const Done := Outcome(NoError, None)

  // ---- The settings file: absent stands for an empty store ----

  function FileBytes(file: Option<seq<byte>>): seq<byte> {
    match file
    case None => []
    case Some(b) => b
  }

  function FileOf(b: seq<byte>): (file: Option<seq<byte>>)
    ensures FileBytes(file) == b && (file == None <==> b == [])
  {
    if b == [] then None else Some(b)
  }

  // ---- The first run of a key, which is all that Add, Set and Delete look at ----

  function RunStart(rs: seq<Record>, key: u16): (s: nat)
    ensures s <= |rs| && (forall i :: 0 <= i < s ==> rs[i].key != key)
    ensures s < |rs| ==> rs[s].key == key
  {
    if rs == [] || rs[0].key == key then 0 else 1 + RunStart(rs[1..], key)
  }

  function RunLength(rs: seq<Record>, key: u16): (n: nat)
    ensures n <= |rs| && (forall i :: 0 <= i < n ==> rs[i].key == key)
    ensures n < |rs| ==> rs[n].key != key
  {
    if rs == [] || rs[0].key != key then 0 else 1 + RunLength(rs[1..], key)
  }

  function RunEnd(rs: seq<Record>, key: u16): (e: nat)
    ensures RunStart(rs, key) <= e <= |rs|
    ensures RunStart(rs, key) < |rs| ==> RunStart(rs, key) < e
  {
    RunStart(rs, key) + RunLength(rs[RunStart(rs, key)..], key)
  }

  /** Records i..j replaced by `mid`. */
  function Splice(rs: seq<Record>, i: nat, j: nat, mid: seq<Record>): seq<Record>
    requires i <= j <= |rs|
  {
    rs[..i] + mid + rs[j..]
  }

  // ---- The operations on the record list ----

  function AddRecords(rs: seq<Record>, key: u16, value: Value): seq<Record> {
    var e := RunEnd(rs, key);
    Splice(rs, e, e, [Record(key, value)])
  }

  /** Set replaces the last record of the run only. */
  function SetFrom(rs: seq<Record>, key: u16): (i: nat)
    ensures RunStart(rs, key) <= i <= RunEnd(rs, key)
  {
    if RunStart(rs, key) < |rs| then RunEnd(rs, key) - 1 else RunEnd(rs, key)
  }

  function SetRecords(rs: seq<Record>, key: u16, value: Value): seq<Record> {
    Splice(rs, SetFrom(rs, key), RunEnd(rs, key), [Record(key, value)])
  }

  /** Delete drops the value asked for, and the whole run when the index names no value of it. */
  function DeleteFrom(rs: seq<Record>, key: u16, index: int): (i: nat)
    ensures RunStart(rs, key) <= i <= RunEnd(rs, key)
  {
    var s := RunStart(rs, key);
    if 0 <= index < RunEnd(rs, key) - s then s + index else s
  }

  function DeleteTo(rs: seq<Record>, key: u16, index: int): (j: nat)
    ensures DeleteFrom(rs, key, index) <= j <= RunEnd(rs, key)
  {
    var s, e := RunStart(rs, key), RunEnd(rs, key);
    if 0 <= index < e - s then s + index + 1 else e
  }

  function DeleteRecords(rs: seq<Record>, key: u16, index: int): seq<Record> {
    Splice(rs, DeleteFrom(rs, key, index), DeleteTo(rs, key, index), [])
  }

  /** A change takes effect exactly when its encoding fits the buffer. */
  function Commit(rs: seq<Record>, changed: seq<Record>): (seq<Record>, Outcome) {
    if |Encode(changed)| <= CAPACITY then (changed, Done) else (rs, Outcome(NoBufs, None))
  }

  function Step(rs: seq<Record>, op: Op): (seq<Record>, Outcome) {
    match op
    case Get(key, index) =>
      var v := Lookup(rs, key, index);
      (rs, Outcome(if v.Some? then NoError else NotFound, v))
    case Add(key, value) => Commit(rs, AddRecords(rs, key, value))
    case Set(key, value) => Commit(rs, SetRecords(rs, key, value))
    case Delete(key, index) =>
      if RunStart(rs, key) == |rs| then (rs, Outcome(NotFound, None)) else (DeleteRecords(rs, key, index), Done)
    case Wipe => ([], Done)
  }

  function Run(rs: seq<Record>, ops: seq<Op>): (seq<Record>, seq<Outcome>)
    decreases |ops|
  {
    if ops == [] then (rs, [])
    else
      var (rs1, o) := Step(rs, ops[0]);
      var (rs2, os) := Run(rs1, ops[1..]);
      (rs2, [o] + os)
  }

  // ---- The abstract store: each key has a sequence of values, and the store has a byte budget ----

  datatype MultiMap = MultiMap(values: map<u16, seq<Value>>, used: int)

  const EmptyMap := MultiMap(map[], 0)

  function At(m: MultiMap, key: u16): seq<Value> {
    if key in m.values then m.values[key] else []
  }

  function Cost(v: Value): nat { HEADER_SIZE + |v| }

  function Costs(vs: seq<Value>): nat {
    if vs == [] then 0 else Cost(vs[0]) + Costs(vs[1..])
  }

  /** Gives `key` the values `vs` if the budget allows it. */
  function Put(m: MultiMap, key: u16, vs: seq<Value>): (MultiMap, Outcome) {
    var used := m.used - Costs(At(m, key)) + Costs(vs);
    if used <= CAPACITY then (MultiMap(m.values[key := vs], used), Done) else (m, Outcome(NoBufs, None))
  }

  function MapStep(m: MultiMap, op: Op): (MultiMap, Outcome) {
    match op
    case Get(key, index) =>
      var vs := At(m, key);
      if 0 <= index < |vs| then (m, Outcome(NoError, Some(vs[index]))) else (m, Outcome(NotFound, None))
    case Add(key, value) => Put(m, key, At(m, key) + [value])
    case Set(key, value) =>
      var vs := At(m, key);
      Put(m, key, if vs == [] then [value] else vs[..|vs| - 1] + [value])
    case Delete(key, index) =>
      var vs := At(m, key);
      if vs == [] then (m, Outcome(NotFound, None))
      else if 0 <= index < |vs| then Put(m, key, vs[..index] + vs[index + 1..])
      else Put(m, key, [])
    case Wipe => (EmptyMap, Done)
  }

  function MapRun(m: MultiMap, ops: seq<Op>): (MultiMap, seq<Outcome>)
    decreases |ops|
  {
    if ops == [] then (m, [])
    else
      var (m1, o) := MapStep(m, ops[0]);
      var (m2, os) := MapRun(m1, ops[1..]);
      (m2, [o] + os)
  }

  // ---- The grouping invariant ----

  ghost predicate AllOf(rs: seq<Record>, key: u16) {
    forall k :: 0 <= k < |rs| ==> rs[k].key == key
  }

  ghost predicate NoneOf(rs: seq<Record>, key: u16) {
    forall k :: 0 <= k < |rs| ==> rs[k].key != key
  }

  /** Each key's records form one block. */
  ghost predicate Grouped(rs: seq<Record>) {
    rs != [] ==>
      && Grouped(rs[1..])
      && ((|rs| > 1 && rs[1].key == rs[0].key) || NoneOf(rs[1..], rs[0].key))
  }

  ghost predicate Refines(rs: seq<Record>, m: MultiMap) {
    && Grouped(rs)
    && m.used == |Encode(rs)| <= CAPACITY
    && forall key: u16 :: At(m, key) == Values(rs, key)
  }

  /** In a grouped list the run at the front is the only one of its key. */
  lemma {:induction false} OnlyRunAtFront(rs: seq<Record>, key: u16)
    requires Grouped(rs) && rs != [] && rs[0].key == key
    ensures NoneOf(rs[RunLength(rs, key)..], key)
  {
    var t := rs[1..];
    if t != [] && t[0].key == key {
      OnlyRunAtFront(t, key);
    }
    assert rs[RunLength(rs, key)..] == t[RunLength(t, key)..];
  }

  /** In a grouped list the first run of a key is its only one. */
  lemma {:induction false} OnlyRun(rs: seq<Record>, key: u16)
    requires Grouped(rs)
    ensures NoneOf(rs[RunEnd(rs, key)..], key)
  {
    if rs != [] && rs[0].key != key {
      var t := rs[1..];
      OnlyRun(t, key);
      assert rs[RunStart(rs, key)..] == t[RunStart(t, key)..];
      assert rs[RunEnd(rs, key)..] == t[RunEnd(t, key)..];
    } else if rs != [] {
      OnlyRunAtFront(rs, key);
      assert rs[0..] == rs;
    }
  }

  // ---- Edits inside one run ----

  /** The surroundings of an edit: other keys, kept part of the run, the gap, kept part, other keys. */
  datatype Around = Around(pre: seq<Record>, left: seq<Record>, right: seq<Record>, post: seq<Record>) {
    function Fill(mid: seq<Record>): seq<Record> { pre + (left + (mid + (right + post))) }

    ghost predicate Run(key: u16) {
      NoneOf(pre, key) && AllOf(left, key) && AllOf(right, key) && NoneOf(post, key)
    }
  }

  /** Records s..e are the only block of `key`; if it has none, the block is empty and at the end. */
  ghost predicate Block(rs: seq<Record>, key: u16, s: nat, e: nat) {
    && s <= e <= |rs|
    && NoneOf(rs[..s], key) && AllOf(rs[s..e], key) && NoneOf(rs[e..], key)
    && (s == e ==> e == |rs|)
  }

  lemma {:induction false} RunIsBlock(rs: seq<Record>, key: u16)
    requires Grouped(rs)
    ensures Block(rs, key, RunStart(rs, key), RunEnd(rs, key))
  {
    OnlyRun(rs, key);
    var s := RunStart(rs, key);
    assert rs[s..RunEnd(rs, key)] == rs[s..][..RunLength(rs[s..], key)];
  }

  function Surround(rs: seq<Record>, s: nat, i: nat, j: nat, e: nat): Around
    requires s <= i <= j <= e <= |rs|
  {
    Around(rs[..s], rs[s..i], rs[j..e], rs[e..])
  }

  lemma {:induction false} SurroundBlock(rs: seq<Record>, key: u16, s: nat, i: nat, j: nat, e: nat)
    requires Block(rs, key, s, e) && s <= i <= j <= e
    ensures Surround(rs, s, i, j, e).Run(key) && AllOf(rs[i..j], key)
    ensures Surround(rs, s, i, j, e).Fill(rs[i..j]) == rs
  {
    assert forall k :: s <= k < e ==> rs[k] == rs[s..e][k - s];
    Slices(rs, s, i, j, e, rs[i..j]);
    assert Splice(rs, i, j, rs[i..j]) == rs;
  }

  lemma {:induction false} NoneOfFill(a: Around, mid: seq<Record>, k: u16)
    ensures NoneOf(a.Fill(mid), k) <==>
      NoneOf(a.pre, k) && NoneOf(a.left, k) && NoneOf(mid, k) && NoneOf(a.right, k) && NoneOf(a.post, k)
  {
    NoneOfConcat(a.pre, a.left + (mid + (a.right + a.post)), k);
    NoneOfConcat(a.left, mid + (a.right + a.post), k);
    NoneOfConcat(mid, a.right + a.post, k);
    NoneOfConcat(a.right, a.post, k);
  }

  lemma {:induction false} NoneOfConcat(a: seq<Record>, b: seq<Record>, k: u16)
    ensures NoneOf(a + b, k) <==> NoneOf(a, k) && NoneOf(b, k)
  {
    assert forall i :: 0 <= i < |b| ==> b[i] == (a + b)[|a| + i];
    assert forall i :: 0 <= i < |a| ==> a[i] == (a + b)[i];
  }

  lemma {:induction false} GroupedBlock(run: seq<Record>, post: seq<Record>, key: u16)
    requires AllOf(run, key) && NoneOf(post, key)
    ensures Grouped(run + post) <==> Grouped(post)
  {
    if run == [] {
      assert run + post == post;
    } else {
      GroupedBlock(run[1..], post, key);
      assert (run + post)[1..] == run[1..] + post;
      NoneOfConcat(run[1..], post, key);
    }
  }

  lemma {:induction false} FillNoPre(a: Around, mid: seq<Record>)
    requires a.pre == []
    ensures a.Fill(mid) == (a.left + mid + a.right) + a.post
  {
    Assoc(a.left, mid, a.right);
    Assoc(a.left, mid + a.right, a.post);
    Assoc(mid, a.right, a.post);
  }

  lemma {:induction false} FillTail(a: Around, mid: seq<Record>)
    requires a.pre != []
    ensures a.Fill(mid) == [a.pre[0]] + a.(pre := a.pre[1..]).Fill(mid)
  {
    assert a.pre == [a.pre[0]] + a.pre[1..];
    Assoc([a.pre[0]], a.pre[1..], a.left + (mid + (a.right + a.post)));
  }

  /** Editing inside the run of one key keeps every key in one block. */
  lemma {:induction false} GroupedFill(a: Around, key: u16, old_: seq<Record>, new_: seq<Record>)
    requires a.Run(key) && AllOf(old_, key) && AllOf(new_, key) && Grouped(a.Fill(old_))
    requires a.left + old_ + a.right != [] || a.post == []
    ensures Grouped(a.Fill(new_))
    decreases |a.pre|
  {
    if a.pre == [] {
      FillNoPre(a, old_);
      FillNoPre(a, new_);
      AllOfConcat(a.left, old_, a.right, key);
      AllOfConcat(a.left, new_, a.right, key);
      GroupedBlock(a.left + old_ + a.right, a.post, key);
      GroupedBlock(a.left + new_ + a.right, a.post, key);
    } else {
      var b, r := a.(pre := a.pre[1..]), a.pre[0];
      FillTail(a, old_);
      FillTail(a, new_);
      GroupedFill(b, key, old_, new_);
      NoneOfFill(b, old_, r.key);
      NoneOfFill(b, new_, r.key);
      if b.pre == [] {
        FillNoPre(b, old_);
        assert NoneOf(b.Fill(old_), r.key);
      }
    }
  }

  lemma AllOfConcat(x: seq<Record>, y: seq<Record>, z: seq<Record>, key: u16)
    requires AllOf(x, key) && AllOf(y, key) && AllOf(z, key)
    ensures AllOf(x + y + z, key)
  {
  }

  // ---- What an edit does to the value sequences and to the size ----

  lemma {:induction false} NoValues(rs: seq<Record>, key: u16)
    requires NoneOf(rs, key)
    ensures Values(rs, key) == []
  {
    ValuesAbsent(rs, key);
  }

  lemma {:induction false} FillValues(a: Around, mid: seq<Record>, k: u16)
    ensures Values(a.Fill(mid), k) == Values(a.pre, k)
      + (Values(a.left, k) + (Values(mid, k) + (Values(a.right, k) + Values(a.post, k))))
  {
    ValuesConcat(a.pre, a.left + (mid + (a.right + a.post)), k);
    ValuesConcat(a.left, mid + (a.right + a.post), k);
    ValuesConcat(mid, a.right + a.post, k);
    ValuesConcat(a.right, a.post, k);
  }

  /** A key whose records are neither removed nor inserted keeps its values. */
  lemma {:induction false} OtherKey(a: Around, key: u16, old_: seq<Record>, new_: seq<Record>, other: u16)
    requires AllOf(old_, key) && AllOf(new_, key) && key != other
    ensures Values(a.Fill(new_), other) == Values(a.Fill(old_), other)
  {
    FillValues(a, old_, other);
    FillValues(a, new_, other);
    NoValues(old_, other);
    NoValues(new_, other);
  }

  lemma {:induction false} OwnKey(a: Around, key: u16, mid: seq<Record>)
    requires a.Run(key)
    ensures Values(a.Fill(mid), key) == Values(a.left, key) + (Values(mid, key) + Values(a.right, key))
  {
    FillValues(a, mid, key);
    NoValues(a.pre, key);
    NoValues(a.post, key);
  }

  lemma {:induction false} CostsConcat(a: seq<Value>, b: seq<Value>)
    ensures Costs(a + b) == Costs(a) + Costs(b)
  {
    if a == [] {
      assert a + b == b;
    } else {
      CostsConcat(a[1..], b);
      assert (a + b)[1..] == a[1..] + b;
    }
  }

  lemma {:induction false} SizeIsCosts(rs: seq<Record>, key: u16)
    requires AllOf(rs, key)
    ensures |Encode(rs)| == Costs(Values(rs, key))
  {
    if rs == [] {
    } else {
      SizeIsCosts(rs[1..], key);
      assert Values(rs, key)[1..] == Values(rs[1..], key);
    }
  }

  lemma {:induction false} FillSize(a: Around, key: u16, mid: seq<Record>)
    requires a.Run(key) && AllOf(mid, key)
    ensures |Encode(a.Fill(mid))| == |Encode(a.pre)| + Costs(Values(a.Fill(mid), key)) + |Encode(a.post)|
  {
    EncodeConcat(a.pre, a.left + (mid + (a.right + a.post)));
    EncodeConcat(a.left, mid + (a.right + a.post));
    EncodeConcat(mid, a.right + a.post);
    EncodeConcat(a.right, a.post);
    SizeIsCosts(a.left, key);
    SizeIsCosts(mid, key);
    SizeIsCosts(a.right, key);
    OwnKey(a, key, mid);
    CostsConcat(Values(a.left, key), Values(mid, key) + Values(a.right, key));
    CostsConcat(Values(mid, key), Values(a.right, key));
  }

  /** Every edit the store makes is a splice inside one run, and that is a Put on the multimap. */
  lemma {:induction false} FillIsPut(a: Around, key: u16, old_: seq<Record>, new_: seq<Record>, m: MultiMap)
    requires a.Run(key) && AllOf(old_, key) && AllOf(new_, key)
    requires a.left + old_ + a.right != [] || a.post == []
    requires Refines(a.Fill(old_), m)
    ensures var (rs', o) := Commit(a.Fill(old_), a.Fill(new_));
            var (m', o') := Put(m, key, Values(a.Fill(new_), key));
            o == o' && Refines(rs', m')
  {
    GroupedFill(a, key, old_, new_);
    FillSize(a, key, old_);
    FillSize(a, key, new_);
    forall other: u16 | other != key
      ensures Values(a.Fill(new_), other) == Values(a.Fill(old_), other)
    {
      OtherKey(a, key, old_, new_, other);
    }
    CommitIsPut(a.Fill(old_), a.Fill(new_), key, m);
  }

  /** A change of one key's values that keeps the list grouped is a Put. */
  lemma {:induction false} CommitIsPut(rs: seq<Record>, new_: seq<Record>, key: u16, m: MultiMap)
    requires Refines(rs, m) && Grouped(new_)
    requires |Encode(new_)| - Costs(Values(new_, key)) == |Encode(rs)| - Costs(Values(rs, key))
    requires forall other: u16 :: other != key ==> Values(new_, other) == Values(rs, other)
    ensures var (rs', o) := Commit(rs, new_);
            var (m', o') := Put(m, key, Values(new_, key));
            o == o' && Refines(rs', m')
  {
    var vs := Values(new_, key);
    assert At(m, key) == Values(rs, key);
    if |Encode(new_)| <= CAPACITY {
      forall k: u16
        ensures At(Put(m, key, vs).0, k) == Values(new_, k)
      {
        assert At(m, k) == Values(rs, k);
      }
    }
  }

  /** The same for an edit of records i..j of the block. */
  lemma {:induction false} SpliceIsPut(rs: seq<Record>, m: MultiMap, key: u16, s: nat, i: nat, j: nat, e: nat,
                                       mid: seq<Record>)
    requires Refines(rs, m) && AllOf(mid, key)
    requires Block(rs, key, s, e) && s <= i <= j <= e
    ensures var (rs', o) := Commit(rs, Splice(rs, i, j, mid));
            var (m', o') := Put(m, key, Values(Splice(rs, i, j, mid), key));
            o == o' && Refines(rs', m')
  {
    SurroundBlock(rs, key, s, i, j, e);
    Slices(rs, s, i, j, e, mid);
    FillIsPut(Surround(rs, s, i, j, e), key, rs[i..j], mid, m);
  }

  /** The key's value sequence is cut at the same places as its block. */
  lemma {:induction false} SpliceValues(rs: seq<Record>, key: u16, s: nat, i: nat, j: nat, e: nat, mid: seq<Record>)
    requires Block(rs, key, s, e) && s <= i <= j <= e
    ensures |Values(rs, key)| == e - s
    ensures var vs := Values(rs, key);
            Values(Splice(rs, i, j, mid), key) == vs[..i - s] + (Values(mid, key) + vs[j - s..])
  {
    SurroundBlock(rs, key, s, i, j, e);
    Slices(rs, s, i, j, e, mid);
    CutValues(Surround(rs, s, i, j, e), key, rs[i..j], mid);
  }

  lemma {:induction false} CutValues(a: Around, key: u16, cut: seq<Record>, mid: seq<Record>)
    requires a.Run(key) && AllOf(cut, key)
    ensures var vs := Values(a.Fill(cut), key);
            && |vs| == |a.left| + |cut| + |a.right|
            && Values(a.Fill(mid), key) == vs[..|a.left|] + (Values(mid, key) + vs[|a.left| + |cut|..])
  {
    NoValues(a.pre, key);
    NoValues(a.post, key);
    ValuesAll(a.left, key);
    ValuesAll(cut, key);
    ValuesAll(a.right, key);
    CutParts(a, key, cut, mid);
  }

  lemma {:induction false} CutParts(a: Around, key: u16, cut: seq<Record>, mid: seq<Record>)
    requires Values(a.pre, key) == [] && Values(a.post, key) == []
    requires |Values(a.left, key)| == |a.left| && |Values(cut, key)| == |cut| && |Values(a.right, key)| == |a.right|
    ensures var vs := Values(a.Fill(cut), key);
            && |vs| == |a.left| + |cut| + |a.right|
            && Values(a.Fill(mid), key) == vs[..|a.left|] + (Values(mid, key) + vs[|a.left| + |cut|..])
  {
    FillValues(a, mid, key);
    FillValues(a, cut, key);
    Recut(Values(a.left, key), Values(cut, key), Values(mid, key), Values(a.right, key),
          Values(a.Fill(cut), key), Values(a.Fill(mid), key), |a.left|, |a.left| + |cut|);
  }

  /** Replacing the middle of a sequence, said with slices of the whole. */
  lemma Recut<T>(x: seq<T>, y: seq<T>, mid: seq<T>, z: seq<T>, all: seq<T>, new_: seq<T>, i: nat, j: nat)
    requires all == x + (y + z) && new_ == x + (mid + z) && i == |x| && j == |x| + |y|
    ensures |all| == j + |z| && new_ == all[..i] + (mid + all[j..])
  {
    CutSeq(x, y, z);
  }

  lemma CutSeq<T>(x: seq<T>, y: seq<T>, z: seq<T>)
    ensures var xs := x + (y + z);
            xs[..|x|] == x && xs[|x| + |y|..] == z
  {
  }

  lemma {:induction false} AddRefines(rs: seq<Record>, m: MultiMap, key: u16, value: Value)
    requires Refines(rs, m)
    ensures Step(rs, Add(key, value)).1 == MapStep(m, Add(key, value)).1
    ensures Refines(Step(rs, Add(key, value)).0, MapStep(m, Add(key, value)).0)
  {
    var s, e, vs := RunStart(rs, key), RunEnd(rs, key), At(m, key);
    RunIsBlock(rs, key);
    SpliceIsPut(rs, m, key, s, e, e, e, [Record(key, value)]);
    SpliceValues(rs, key, s, e, e, e, [Record(key, value)]);
    OneValue(key, value);
    assert vs[..|vs|] + ([value] + vs[|vs|..]) == vs + [value];
  }

  lemma {:induction false} SetValues(rs: seq<Record>, key: u16, value: Value)
    requires Grouped(rs)
    ensures Values(SetRecords(rs, key, value), key)
         == var vs := Values(rs, key); if vs == [] then [value] else vs[..|vs| - 1] + [value]
  {
    RunIsBlock(rs, key);
    ReplaceLast(rs, key, RunStart(rs, key), RunEnd(rs, key), value);
  }

  lemma {:induction false} ReplaceLast(rs: seq<Record>, key: u16, s: nat, e: nat, value: Value)
    requires Block(rs, key, s, e)
    ensures Values(Splice(rs, if s < e then e - 1 else e, e, [Record(key, value)]), key)
         == var vs := Values(rs, key); if vs == [] then [value] else vs[..|vs| - 1] + [value]
  {
    var i, vs := if s < e then e - 1 else e, Values(rs, key);
    SpliceValues(rs, key, s, i, e, e, [Record(key, value)]);
    OneValue(key, value);
    Units([value]);
  }

  lemma {:induction false} SetRefines(rs: seq<Record>, m: MultiMap, key: u16, value: Value)
    requires Refines(rs, m)
    ensures Step(rs, Set(key, value)).1 == MapStep(m, Set(key, value)).1
    ensures Refines(Step(rs, Set(key, value)).0, MapStep(m, Set(key, value)).0)
  {
    RunIsBlock(rs, key);
    SetValues(rs, key, value);
    var s, e := RunStart(rs, key), RunEnd(rs, key);
    SpliceIsPut(rs, m, key, s, SetFrom(rs, key), e, e, [Record(key, value)]);
  }

  lemma {:induction false} CutShrinks(rs: seq<Record>, i: nat, j: nat)
    requires i <= j <= |rs|
    ensures |Encode(Splice(rs, i, j, []))| <= |Encode(rs)|
  {
    EncodeSplice(rs, i, j, []);
  }

  /** The values a Delete leaves. */
  function Left(vs: seq<Value>, index: int): seq<Value> {
    if 0 <= index < |vs| then vs[..index] + vs[index + 1..] else []
  }

  lemma {:induction false} DeleteValues(rs: seq<Record>, key: u16, index: int)
    requires Grouped(rs)
    ensures var vs := Values(rs, key);
            && |vs| == RunEnd(rs, key) - RunStart(rs, key)
            && Values(DeleteRecords(rs, key, index), key) == Left(vs, index)
  {
    RunIsBlock(rs, key);
    if 0 <= index < RunEnd(rs, key) - RunStart(rs, key) {
      CutOne(rs, key, RunStart(rs, key), RunEnd(rs, key), index);
    } else {
      CutAll(rs, key, RunStart(rs, key), RunEnd(rs, key));
    }
  }

  lemma {:induction false} CutOne(rs: seq<Record>, key: u16, s: nat, e: nat, index: nat)
    requires Block(rs, key, s, e) && index < e - s
    ensures |Values(rs, key)| == e - s
    ensures var vs := Values(rs, key);
            Values(Splice(rs, s + index, s + index + 1, []), key) == vs[..index] + vs[index + 1..]
  {
    CutOut(rs, key, s, s + index, s + index + 1, e);
  }

  lemma {:induction false} CutAll(rs: seq<Record>, key: u16, s: nat, e: nat)
    requires Block(rs, key, s, e)
    ensures |Values(rs, key)| == e - s && Values(Splice(rs, s, e, []), key) == []
  {
    CutOut(rs, key, s, s, e, e);
  }

  lemma {:induction false} CutOut(rs: seq<Record>, key: u16, s: nat, i: nat, j: nat, e: nat)
    requires Block(rs, key, s, e) && s <= i <= j <= e
    ensures |Values(rs, key)| == e - s
    ensures Values(Splice(rs, i, j, []), key) == Values(rs, key)[..i - s] + Values(rs, key)[j - s..]
  {
    SpliceValues(rs, key, s, i, j, e, []);
    var after := Values(rs, key)[j - s..];
    assert [] + after == after;
  }

  lemma {:induction false} DeleteRefines(rs: seq<Record>, m: MultiMap, key: u16, index: int)
    requires Refines(rs, m)
    ensures Step(rs, Delete(key, index)).1 == MapStep(m, Delete(key, index)).1
    ensures Refines(Step(rs, Delete(key, index)).0, MapStep(m, Delete(key, index)).0)
  {
    assert At(m, key) == Values(rs, key);
    DeleteValues(rs, key, index);
    MapDelete(m, key, index);
    StepDelete(rs, key, index);
    if Values(rs, key) != [] {
      DeleteIsPut(rs, m, key, index);
    }
  }

  lemma MapDelete(m: MultiMap, key: u16, index: int)
    ensures MapStep(m, Delete(key, index))
         == if At(m, key) == [] then (m, Outcome(NotFound, None)) else Put(m, key, Left(At(m, key), index))
  {
  }

  lemma {:induction false} StepDelete(rs: seq<Record>, key: u16, index: int)
    ensures Step(rs, Delete(key, index))
         == if Values(rs, key) == [] then (rs, Outcome(NotFound, None)) else (DeleteRecords(rs, key, index), Done)
  {
    ValuesAbsent(rs, key);
  }

  lemma {:induction false} DeleteIsPut(rs: seq<Record>, m: MultiMap, key: u16, index: int)
    requires Refines(rs, m)
    ensures var (m', o) := Put(m, key, Values(DeleteRecords(rs, key, index), key));
            o == Done && Refines(DeleteRecords(rs, key, index), m')
  {
    var i, j := DeleteFrom(rs, key, index), DeleteTo(rs, key, index);
    RunIsBlock(rs, key);
    SpliceIsPut(rs, m, key, RunStart(rs, key), i, j, RunEnd(rs, key), []);
    CutShrinks(rs, i, j);
  }

  /** Add is refused exactly when the four header bytes and the value go over 1024, and Set exactly when they do without
      the last value of the key and its header. */
  lemma {:induction false} RefusedIff(rs: seq<Record>, m: MultiMap, key: u16, value: Value)
    requires Refines(rs, m)
    ensures Step(rs, Add(key, value)).1.error == NoBufs <==> |Encode(rs)| + 4 + |value| > 1024
    ensures var vs := At(m, key);
            Step(rs, Set(key, value)).1.error == NoBufs <==>
              |Encode(rs)| + 4 + |value| - (if vs == [] then 0 else 4 + |vs[|vs| - 1]|) > 1024
  {
    AddRefines(rs, m, key, value);
    SetRefines(rs, m, key, value);
    var vs := At(m, key);
    CostsAppend(vs, value);
    if vs != [] {
      var front := vs[..|vs| - 1];
      assert vs == front + [vs[|vs| - 1]];
      CostsAppend(front, vs[|vs| - 1]);
      CostsAppend(front, value);
    } else {
      CostsAppend([], value);
      Units([value]);
    }
  }

  lemma {:induction false} CostsAppend(vs: seq<Value>, value: Value)
    ensures Costs(vs + [value]) == Costs(vs) + 4 + |value|
  {
    CostsConcat(vs, [value]);
    assert [value][1..] == [];
  }

  /** Each operation of the grouped list is the operation of the multimap: same answer, refinement kept. */
  lemma {:induction false} StepRefines(rs: seq<Record>, m: MultiMap, op: Op)
    requires Refines(rs, m)
    ensures Step(rs, op).1 == MapStep(m, op).1
    ensures Refines(Step(rs, op).0, MapStep(m, op).0)
  {
    match op
    case Get(_, _) =>
    case Wipe =>
    case Add(key, value) => AddRefines(rs, m, key, value);
    case Set(key, value) => SetRefines(rs, m, key, value);
    case Delete(key, index) => DeleteRefines(rs, m, key, index);
  }

  lemma {:induction false} OneValue(key: u16, value: Value)
    ensures Values([Record(key, value)], key) == [value]
  {
    assert [Record(key, value)][1..] == [];
  }

  /** Every run of the store, from any refined state, answers as the multimap does. */
  lemma {:induction false} RunRefines(rs: seq<Record>, m: MultiMap, ops: seq<Op>)
    requires Refines(rs, m)
    ensures Run(rs, ops).1 == MapRun(m, ops).1
    ensures Refines(Run(rs, ops).0, MapRun(m, ops).0)
    decreases |ops|
  {
    if ops == [] {
    } else {
      StepRefines(rs, m, ops[0]);
      RunRefines(Step(rs, ops[0]).0, MapStep(m, ops[0]).0, ops[1..]);
    }
  }

  /** From the empty store: the grouping invariant and the byte budget hold in every reachable state. */
  lemma {:induction false} ReachableRefines(ops: seq<Op>)
    ensures Refines(Run([], ops).0, MapRun(EmptyMap, ops).0)
    ensures Run([], ops).1 == MapRun(EmptyMap, ops).1
    ensures Contiguous(Run([], ops).0) && |Encode(Run([], ops).0)| <= CAPACITY
  {
    RunRefines([], EmptyMap, ops);
    GroupedIsContiguous(Run([], ops).0);
  }

  /** The multimap a record list stands for. */
  function Abstract(rs: seq<Record>): MultiMap {
    MultiMap(map key | key in (set r | r in rs :: r.key) :: Values(rs, key), |Encode(rs)|)
  }

  lemma {:induction false} AbstractRefines(rs: seq<Record>)
    requires Grouped(rs) && |Encode(rs)| <= CAPACITY
    ensures Refines(rs, Abstract(rs))
  {
    forall key: u16
      ensures At(Abstract(rs), key) == Values(rs, key)
    {
      ValuesAbsent(rs, key);
      if i :| 0 <= i < |rs| && rs[i].key == key {
        assert rs[i] in rs;
      }
    }
  }

  /** Grouping and the byte budget survive every operation. */
  lemma {:induction false} StepKeepsGrouped(rs: seq<Record>, op: Op)
    requires Grouped(rs) && |Encode(rs)| <= CAPACITY
    ensures Grouped(Step(rs, op).0) && |Encode(Step(rs, op).0)| <= CAPACITY
  {
    AbstractRefines(rs);
    StepRefines(rs, Abstract(rs), op);
  }

  /** Grouped, said on indices: between two records of a key there are only records of that key. */
  ghost predicate Contiguous(rs: seq<Record>) {
    forall i, j, k :: 0 <= i < j < k < |rs| && rs[i].key == rs[k].key ==> rs[j].key == rs[i].key
  }

  lemma {:induction false} GroupedIsContiguous(rs: seq<Record>)
    ensures Grouped(rs) <==> Contiguous(rs)
  {
    if rs == [] {
    } else {
      var t := rs[1..];
      GroupedIsContiguous(t);
      assert forall i :: 0 <= i < |t| ==> t[i] == rs[i + 1];
      if Contiguous(t) {
        var key := rs[0].key;
        assert Contiguous(rs) <==> (forall j, k :: 0 <= j < k < |t| && t[k].key == key ==> t[j].key == key) by {
          assert forall i :: 0 < i < |rs| ==> rs[i] == t[i - 1];
        }
      } else {
        assert !Contiguous(rs);
      }
    }
  }

  // ---- Grouping is exactly what Add needs ----

  lemma {:induction false} WithinFirstRun(rs: seq<Record>, key: u16, k: nat)
    requires k < |rs| && rs[k].key == key && NoneOf(rs[RunEnd(rs, key)..], key)
    ensures k < RunEnd(rs, key)
  {
    var e := RunEnd(rs, key);
    assert forall p :: 0 <= p < |rs| - e ==> rs[e..][p] == rs[e + p];
  }

  lemma {:induction false} BetweenInRun(rs: seq<Record>, key: u16, i: nat, j: nat, k: nat)
    requires i < j < k < |rs| && rs[i].key == rs[k].key == key && NoneOf(rs[RunEnd(rs, key)..], key)
    ensures rs[j].key == key
  {
    WithinFirstRun(rs, key, k);
    var s := RunStart(rs, key);
    var t := rs[s..];
    assert t[j - s].key == key;
  }

  /** If no key occurs after its first run, every key is in one block. */
  lemma {:induction false} OnlyRunsAreGrouped(rs: seq<Record>)
    requires forall key: u16 :: NoneOf(rs[RunEnd(rs, key)..], key)
    ensures Grouped(rs)
  {
    forall i, j, k | 0 <= i < j < k < |rs| && rs[i].key == rs[k].key
      ensures rs[j].key == rs[i].key
    {
      assert NoneOf(rs[RunEnd(rs, rs[i].key)..], rs[i].key);
      BetweenInRun(rs, rs[i].key, i, j, k);
    }
    GroupedIsContiguous(rs);
  }

  /** What Add leaves under its key in any list: the new value comes right after the first run. */
  lemma {:induction false} AddedValues(rs: seq<Record>, key: u16, value: Value)
    ensures var e := RunEnd(rs, key);
            && Values(rs, key) == Values(rs[..e], key) + Values(rs[e..], key)
            && Values(AddRecords(rs, key, value), key) == Values(rs[..e], key) + ([value] + Values(rs[e..], key))
  {
    var e, r := RunEnd(rs, key), [Record(key, value)];
    Split(rs, e);
    ValuesConcat(rs[..e], rs[e..], key);
    ValuesConcat(rs[..e], r, key);
    ValuesConcat(rs[..e] + r, rs[e..], key);
    OneValue(key, value);
    Assoc(Values(rs[..e], key), [value], Values(rs[e..], key));
  }

  /** Add(key, value) appends the value to the key's values. */
  ghost predicate Appends(rs: seq<Record>, key: u16, value: Value) {
    Values(AddRecords(rs, key, value), key) == Values(rs, key) + [value]
  }

  lemma {:induction false} AppendsWhenLast(rs: seq<Record>, key: u16, value: Value)
    requires NoneOf(rs[RunEnd(rs, key)..], key)
    ensures Appends(rs, key, value)
  {
    AddedValues(rs, key, value);
    NoValues(rs[RunEnd(rs, key)..], key);
    Units([value]);
    Units(Values(rs[..RunEnd(rs, key)], key));
  }

  /** A key that occurs again later has a value that Add misplaces. */
  lemma {:induction false} MisplacedValue(rs: seq<Record>, key: u16) returns (value: Value)
    requires !NoneOf(rs[RunEnd(rs, key)..], key)
    ensures !Appends(rs, key, value)
  {
    var e := RunEnd(rs, key);
    var front, later := Values(rs[..e], key), Values(rs[e..], key);
    ValuesAbsent(rs[e..], key);
    value := if later[0] == [] then [0] else [];
    AddedValues(rs, key, value);
    assert (front + ([value] + later))[|front|] == value;
    assert (front + later + [value])[|front|] == later[0];
  }

  /** Add appends to every key's values, for every value, if and only if the list is grouped. */
  lemma {:induction false} AddAppendsIffGrouped(rs: seq<Record>)
    ensures Grouped(rs) <==> forall key: u16, value: Value :: Appends(rs, key, value)
  {
    if Grouped(rs) {
      forall key: u16, value: Value
        ensures Appends(rs, key, value)
      {
        OnlyRun(rs, key);
        AppendsWhenLast(rs, key, value);
      }
    } else if forall key: u16 :: NoneOf(rs[RunEnd(rs, key)..], key) {
      OnlyRunsAreGrouped(rs);
    } else {
      var key: u16 :| !NoneOf(rs[RunEnd(rs, key)..], key);
      var value := MisplacedValue(rs, key);
      assert !Appends(rs, key, value);
    }
  }
}
