/** ncp_basic.c: a byte stream of 5-byte commands mixed with characters, decoded piece by piece. */
module CommandStream {
  import opened Bytes

  const LAST_COMMAND_ID: byte := 3
  const RESET_ID: byte := 0
  const COMMAND_LENGTH: nat := 5

  /** What the program does with the stream: a command executed or a character printed. */
  datatype Event = Command(id: byte, addr: seq<byte>) | Character(c: byte)

  /** `tmp_cmd[..tmp_cmd_len]`, and whether a reset command has stopped the program. */
  datatype Parser = Parser(partial: seq<byte>, halted: bool)

  const Start := Parser([], false)

  /** The stream one byte at a time. */
  function Feed1(p: Parser, b: byte): (Parser, seq<Event>) {
    if p.halted then (p, [])
    else if p.partial == [] && b > LAST_COMMAND_ID then (p, [Character(b)])
    else if |p.partial| + 1 == COMMAND_LENGTH then
      var cmd := p.partial + [b];
      (Parser([], cmd[0] == RESET_ID), [Command(cmd[0], cmd[1..])])
    else (Parser(p.partial + [b], false), [])
  }

  function Feed(p: Parser, data: seq<byte>): (Parser, seq<Event>)
    decreases |data|
  {
    if data == [] then (p, [])
    else
      var (p1, e1) := Feed1(p, data[0]);
      var (p2, e2) := Feed(p1, data[1..]);
      (p2, e1 + e2)
  }

  lemma {:induction false} FeedConcat(p: Parser, a: seq<byte>, b: seq<byte>)
    ensures Feed(p, a + b) == (Feed(Feed(p, a).0, b).0, Feed(p, a).1 + Feed(Feed(p, a).0, b).1)
    decreases |a|
  {
    if a == [] {
      assert a + b == b;
      Units(Feed(p, b).1);
    } else {
      var (p1, e1) := Feed1(p, a[0]);
      FeedConcat(p1, a[1..], b);
      assert (a + b)[1..] == a[1..] + b;
      Assoc(e1, Feed(p1, a[1..]).1, Feed(Feed(p, a).0, b).1);
    }
  }

  lemma {:induction false} FeedHalted(p: Parser, data: seq<byte>)
    requires p.halted
    ensures Feed(p, data) == (p, [])
    decreases |data|
  {
    if data == [] {
    } else {
      FeedHalted(p, data[1..]);
      Units<Event>([]);
    }
  }

  /** Bytes of one command, taken together. */
  lemma {:induction false} FeedWithinCommand(p: Parser, data: seq<byte>)
    requires !p.halted && |p.partial| < COMMAND_LENGTH && data != [] && |p.partial| + |data| <= COMMAND_LENGTH
    requires p.partial != [] || data[0] <= LAST_COMMAND_ID
    ensures Feed(p, data) == var cmd := p.partial + data;
                             if |cmd| == COMMAND_LENGTH
                             then (Parser([], cmd[0] == RESET_ID), [Command(cmd[0], cmd[1..])])
                             else (Parser(cmd, false), [])
    decreases |data|
  {
    var p1 := Parser(p.partial + [data[0]], false);
    if |data| == 1 {
      assert data == [data[0]] && data[1..] == [];
      Units(Feed1(p, data[0]).1);
    } else {
      FeedWithinCommand(p1, data[1..]);
      Units(Feed(p1, data[1..]).1);
      assert p1.partial + data[1..] == p.partial + data;
    }
  }

  // ---- The parser as the program runs it ----

  class CommandParser {
    const tmpCmd: array<byte>
    var tmpCmdLen: nat
    var halted: bool
    /** Everything executed and printed so far. */
    var log: seq<Event>

    constructor ()
      ensures Valid() && State() == Start && log == [] && fresh(tmpCmd)
    {
      tmpCmd := new byte[COMMAND_LENGTH];
      tmpCmdLen, halted, log := 0, false, [];
    }

    ghost predicate Valid()
      reads this
    {
      tmpCmd.Length == COMMAND_LENGTH && tmpCmdLen < COMMAND_LENGTH
    }

    ghost function State(): Parser
      requires Valid()
      reads this, tmpCmd
    {
      Parser(tmpCmd[..tmpCmdLen], halted)
    }

    /** `plat_cmd` on a full command; a reset does not return. */
    method Execute()
      requires tmpCmd.Length == COMMAND_LENGTH
      modifies this`halted, this`log
      ensures halted == (tmpCmd[0] == RESET_ID)
      ensures log == old(log) + [Command(tmpCmd[0], tmpCmd[1..])]
    {
      log := log + [Command(tmpCmd[0], tmpCmd[1..])];
      halted := tmpCmd[0] == RESET_ID;
    }

    /** One pass of the filling branch: `delta` bytes go into the command being assembled. */
    method Fill(data: seq<byte>)
      requires Valid() && !halted && data != [] && tmpCmdLen + |data| <= COMMAND_LENGTH
      requires tmpCmdLen != 0 || data[0] <= LAST_COMMAND_ID
      modifies this`tmpCmdLen, this`halted, this`log, tmpCmd
      ensures Valid() && (State(), log) == var (p, es) := Feed(old(State()), data); (p, old(log) + es)
    {
      FeedWithinCommand(State(), data);
      ghost var cmd := tmpCmd[..tmpCmdLen] + data;
      MemCpy(tmpCmd, tmpCmdLen, data);
      assert tmpCmd[..tmpCmdLen + |data|] == cmd;
      tmpCmdLen := tmpCmdLen + |data|;
      if tmpCmdLen == COMMAND_LENGTH {
        assert tmpCmd[..] == cmd;
        Execute();
        tmpCmdLen := 0;
      }
      Units(old(log));
    }

    /** Handling a received buffer in as large copies as possible is handling it byte by byte. */
    method Process(data: seq<byte>)
      requires Valid()
      modifies this`tmpCmdLen, this`halted, this`log, tmpCmd
      ensures Valid() && (State(), log) == var (p, es) := Feed(old(State()), data); (p, old(log) + es)
    {
      var cnt := 0;
      ghost var start := State();
      Units(log);
      while cnt < |data| && !halted
        invariant Valid() && cnt <= |data|
        invariant (State(), log) == var (p, es) := Feed(start, data[..cnt]); (p, old(log) + es)
      {
        ghost var p, l, c := State(), log, cnt;
        if tmpCmdLen != 0 || data[cnt] <= LAST_COMMAND_ID {
          var delta := if |data| - cnt < COMMAND_LENGTH - tmpCmdLen then |data| - cnt else COMMAND_LENGTH - tmpCmdLen;
          Fill(data[cnt..cnt + delta]);
          cnt := cnt + delta;
        } else {
          log := log + [Character(data[cnt])];
          cnt := cnt + 1;
          FeedOne(p, data[c]);
          assert data[c..cnt] == [data[c]];
        }
        Extend(start, data, c, cnt, old(log));
      }
      Skip(start, data, cnt);
    }
  }

  lemma {:induction false} FeedOne(p: Parser, b: byte)
    ensures Feed(p, [b]) == Feed1(p, b)
  {
    assert [b][1..] == [];
    Units(Feed1(p, b).1);
  }

  /** The loop's progress from c to n. */
  lemma {:induction false} Extend(start: Parser, data: seq<byte>, c: nat, n: nat, log0: seq<Event>)
    requires c <= n <= |data|
    ensures var (p, es) := Feed(start, data[..c]);
            var (q, fs) := Feed(p, data[c..n]);
            Feed(start, data[..n]) == (q, es + fs) && (log0 + es) + fs == log0 + (es + fs)
  {
    assert data[..n] == data[..c] + data[c..n];
    FeedConcat(start, data[..c], data[c..n]);
  }

  /** Bytes after a reset have no effect. */
  lemma {:induction false} Skip(start: Parser, data: seq<byte>, n: nat)
    requires n <= |data| && (n == |data| || Feed(start, data[..n]).0.halted)
    ensures Feed(start, data) == Feed(start, data[..n])
  {
    assert data == data[..n] + data[n..];
    FeedConcat(start, data[..n], data[n..]);
    Units(Feed(start, data[..n]).1);
    if n == |data| {
      assert data[n..] == [];
    } else {
      FeedHalted(Feed(start, data[..n]).0, data[n..]);
    }
  }

  // ---- Fragmentation ----

  function Flatten<T>(pieces: seq<seq<T>>): seq<T> {
    if pieces == [] then [] else pieces[0] + Flatten(pieces[1..])
  }

  function FeedPieces(p: Parser, pieces: seq<seq<byte>>): (Parser, seq<Event>)
    decreases |pieces|
  {
    if pieces == [] then (p, [])
    else
      var (p1, e1) := Feed(p, pieces[0]);
      var (p2, e2) := FeedPieces(p1, pieces[1..]);
      (p2, e1 + e2)
  }

  /** However the stream is cut, the events and the partial command are those of the whole stream. */
  lemma {:induction false} FragmentationIndependent(p: Parser, pieces: seq<seq<byte>>)
    ensures FeedPieces(p, pieces) == Feed(p, Flatten(pieces))
    decreases |pieces|
  {
    if pieces == [] {
    } else {
      FeedConcat(p, pieces[0], Flatten(pieces[1..]));
      FragmentationIndependent(Feed(p, pieces[0]).0, pieces[1..]);
    }
  }

  lemma {:induction false} FlattenAppend<T>(pieces: seq<seq<T>>, last: seq<T>)
    ensures Flatten(pieces + [last]) == Flatten(pieces) + last
  {
    if pieces == [] {
      assert pieces + [last] == [last] && [last][1..] == [];
    } else {
      FlattenAppend(pieces[1..], last);
      assert (pieces + [last])[1..] == pieces[1..] + [last];
      Assoc(pieces[0], Flatten(pieces[1..]), last);
    }
  }

  /** `serial_rpmsg_tx`: the data goes out in order, in non-empty pieces of at most the payload size. */
  method SerialTx(initialized: bool, data: seq<byte>, payload: nat) returns (pieces: seq<seq<byte>>)
    requires payload > 0
    ensures Flatten(pieces) == if initialized then data else []
    ensures forall i :: 0 <= i < |pieces| ==> 0 < |pieces[i]| <= payload
    ensures forall i :: 0 <= i < |pieces| - 1 ==> |pieces[i]| == payload
  {
    pieces := [];
    if !initialized || data == [] {
      return;
    }
    var rest := data;
    while |rest| > payload
      invariant rest != [] && Flatten(pieces) + rest == data
      invariant forall i :: 0 <= i < |pieces| ==> |pieces[i]| == payload
      decreases |rest|
    {
      FlattenAppend(pieces, rest[..payload]);
      assert rest == rest[..payload] + rest[payload..];
      Assoc(Flatten(pieces), rest[..payload], rest[payload..]);
      pieces := pieces + [rest[..payload]];
      rest := rest[payload..];
    }
    if rest != [] {
      FlattenAppend(pieces, rest);
      pieces := pieces + [rest];
    }
  }

  // ---- Round trip ----

  predicate WellFormed(e: Event) {
    match e
    case Command(id, addr) => id <= LAST_COMMAND_ID && |addr| + 1 == COMMAND_LENGTH
    case Character(c) => c > LAST_COMMAND_ID
  }

  function Bytes1(e: Event): seq<byte> {
    match e
    case Command(id, addr) => [id] + addr
    case Character(c) => [c]
  }

  function Serialize(es: seq<Event>): seq<byte> {
    if es == [] then [] else Bytes1(es[0]) + Serialize(es[1..])
  }

  predicate Resets(e: Event) { e.Command? && e.id == RESET_ID }

  /** The events up to and including the first reset. */
  function UpToReset(es: seq<Event>): seq<Event> {
    if es == [] then [] else if Resets(es[0]) then [es[0]] else [es[0]] + UpToReset(es[1..])
  }

  predicate HasReset(es: seq<Event>) { exists i :: 0 <= i < |es| && Resets(es[i]) }

  lemma {:induction false} FeedEvent(e: Event)
    requires WellFormed(e)
    ensures Feed(Start, Bytes1(e)) == (Parser([], Resets(e)), [e])
  {
    match e
    case Command(id, addr) =>
      FeedWithinCommand(Start, [id] + addr);
      assert [] + ([id] + addr) == [id] + addr && ([id] + addr)[1..] == addr;
    case Character(c) => FeedOne(Start, c);
  }

  lemma {:induction false} FeedSerialized(es: seq<Event>)
    requires forall i :: 0 <= i < |es| ==> WellFormed(es[i])
    ensures Feed(Start, Serialize(es)) == (Parser([], HasReset(es)), UpToReset(es))
  {
    if es == [] {
    } else {
      FeedEvent(es[0]);
      FeedConcat(Start, Bytes1(es[0]), Serialize(es[1..]));
      Units([es[0]]);
      if Resets(es[0]) {
        FeedHalted(Parser([], true), Serialize(es[1..]));
      } else {
        FeedSerialized(es[1..]);
        assert HasReset(es) == HasReset(es[1..]) by {
          assert forall i :: 0 < i < |es| ==> es[i] == es[1..][i - 1];
          assert forall i :: 0 <= i < |es[1..]| ==> es[1..][i] == es[i + 1];
        }
      }
    }
  }

  /** Any mixed sequence, serialized and cut into pieces in any way (as SerialTx does), decodes to itself up to the
      first reset, with nothing left over. */
  lemma {:induction false} StreamRoundTrip(es: seq<Event>, pieces: seq<seq<byte>>)
    requires forall i :: 0 <= i < |es| ==> WellFormed(es[i])
    requires Flatten(pieces) == Serialize(es)
    ensures FeedPieces(Start, pieces) == (Parser([], HasReset(es)), UpToReset(es))
    ensures !HasReset(es) ==> FeedPieces(Start, pieces) == (Start, es)
  {
    FragmentationIndependent(Start, pieces);
    FeedSerialized(es);
    if !HasReset(es) {
      NoReset(es);
    }
  }

  lemma {:induction false} NoReset(es: seq<Event>)
    requires !HasReset(es)
    ensures UpToReset(es) == es
  {
    if es == [] {
    } else {
      assert forall i :: 0 <= i < |es[1..]| ==> es[1..][i] == es[i + 1];
      NoReset(es[1..]);
    }
  }

  // ---- The service commands byte by byte ----

  datatype Service = Reset | IeeeAddress | NvLoad | NvSave

  /** What a host sends: a service request with its four address bytes, or a character to print. */
  datatype Item = Request(service: Service, a0: byte, a1: byte, a2: byte, a3: byte) | Print(c: byte)

  function ServiceId(s: Service): byte {
    match s
    case Reset => 0
    case IeeeAddress => 1
    case NvLoad => 2
    case NvSave => 3
  }

  function Wire(i: Item): seq<byte> {
    match i
    case Request(s, a0, a1, a2, a3) => [ServiceId(s), a0, a1, a2, a3]
    case Print(c) => [c]
  }

  function Wires(items: seq<Item>): seq<byte> {
    if items == [] then [] else Wire(items[0]) + Wires(items[1..])
  }

  function Seen(i: Item): Event {
    match i
    case Request(s, a0, a1, a2, a3) => Command(ServiceId(s), [a0, a1, a2, a3])
    case Print(c) => Character(c)
  }

  predicate IsReset(i: Item) { i.Request? && i.service.Reset? }

  /** What is executed and printed: everything up to and including the first reset request. */
  function SeenUntilReset(items: seq<Item>): seq<Event> {
    if items == [] then []
    else [Seen(items[0])] + if IsReset(items[0]) then [] else SeenUntilReset(items[1..])
  }

  lemma {:induction false} FeedItem(i: Item)
    requires i.Print? ==> i.c >= 4
    ensures Feed(Start, Wire(i)) == (Parser([], IsReset(i)), [Seen(i)])
  {
    FeedEvent(Seen(i));
    assert Bytes1(Seen(i)) == Wire(i);
  }

  lemma {:induction false} FeedItems(items: seq<Item>)
    requires forall i :: 0 <= i < |items| && items[i].Print? ==> items[i].c >= 4
    ensures Feed(Start, Wires(items))
         == (Parser([], exists i :: 0 <= i < |items| && IsReset(items[i])), SeenUntilReset(items))
  {
    if items == [] {
    } else {
      var rest := items[1..];
      FeedItem(items[0]);
      FeedConcat(Start, Wire(items[0]), Wires(rest));
      if IsReset(items[0]) {
        FeedHalted(Parser([], true), Wires(rest));
      } else {
        FeedItems(rest);
        assert forall i :: 0 <= i < |rest| ==> rest[i] == items[i + 1];
        assert forall i :: 0 < i < |items| ==> items[i] == rest[i - 1];
      }
    }
  }

  /** Requests with the ids 0 to 3 and four address bytes, and characters from 4 on, sent in any pieces: each request is
      executed and each character printed once, in order, up to the first reset. */
  lemma {:induction false} ServiceStream(items: seq<Item>, pieces: seq<seq<byte>>)
    requires forall i :: 0 <= i < |items| && items[i].Print? ==> items[i].c >= 4
    requires Flatten(pieces) == Wires(items)
    ensures FeedPieces(Start, pieces).1 == SeenUntilReset(items)
    ensures FeedPieces(Start, pieces).0 == Parser([], exists i :: 0 <= i < |items| && IsReset(items[i]))
  {
    FragmentationIndependent(Start, pieces);
    FeedItems(items);
  }

  lemma {:induction false} SerializeConcat(a: seq<Event>, b: seq<Event>)
    ensures Serialize(a + b) == Serialize(a) + Serialize(b)
  {
    if a == [] {
      assert a + b == b;
    } else {
      SerializeConcat(a[1..], b);
      assert (a + b)[1..] == a[1..] + b;
      Assoc(Bytes1(a[0]), Serialize(a[1..]), Serialize(b));
    }
  }

  /** A state the parser can be in: an incomplete command starts with a command id. */
  predicate Sane(p: Parser) {
    |p.partial| < COMMAND_LENGTH && (p.partial != [] ==> !p.halted && p.partial[0] <= LAST_COMMAND_ID)
  }

  lemma {:induction false} Conserve1(p: Parser, b: byte)
    requires Sane(p) && !p.halted
    ensures var (q, es) := Feed1(p, b);
            && Sane(q) && (forall i :: 0 <= i < |es| ==> WellFormed(es[i]))
            && Serialize(es) + q.partial == p.partial + [b]
  {
    var (q, es) := Feed1(p, b);
    if es != [] {
      assert es[1..] == [] && es == [es[0]];
    }
  }

  /** Conversely, no byte is lost, invented or reordered: until a reset, the events and the partial command spell
      exactly the bytes fed; a reset drops only what follows it. */
  lemma {:induction false} Conservation(p: Parser, data: seq<byte>)
    requires Sane(p) && !p.halted
    ensures var (q, es) := Feed(p, data);
            && Sane(q) && (forall i :: 0 <= i < |es| ==> WellFormed(es[i]))
            && (!q.halted ==> Serialize(es) + q.partial == p.partial + data)
            && (q.halted ==> Serialize(es) <= p.partial + data)
    decreases |data|
  {
    if data == [] {
    } else {
      var (p1, e1) := Feed1(p, data[0]);
      var (q, e2) := Feed(p1, data[1..]);
      Conserve1(p, data[0]);
      SerializeConcat(e1, e2);
      assert data == [data[0]] + data[1..];
      if p1.halted {
        FeedHalted(p1, data[1..]);
        Units(e1);
        Units(Serialize(e1));
        Assoc(p.partial, [data[0]], data[1..]);
      } else {
        Conservation(p1, data[1..]);
        Chain(Serialize(e1), Serialize(e2), p1.partial, q.partial, p.partial, [data[0]], data[1..]);
      }
    }
  }

  /** Two pieces accounted for one after the other. */
  lemma {:induction false} Chain<T>(s1: seq<T>, s2: seq<T>, p1: seq<T>, q: seq<T>, p: seq<T>, d: seq<T>, rest: seq<T>)
    requires s1 + p1 == p + d
    ensures s2 + q == p1 + rest ==> (s1 + s2) + q == p + (d + rest)
    ensures s2 <= p1 + rest ==> s1 + s2 <= p + (d + rest)
  {
    Assoc(p, d, rest);
    Assoc(s1, p1, rest);
    Assoc(s1, s2, q);
    if s2 <= p1 + rest {
      assert p1 + rest == s2 + (p1 + rest)[|s2|..];
      Assoc(s1, s2, (p1 + rest)[|s2|..]);
    }
  }
}
