/** lwip_hooks.c: prefix matching and the decision whether a packet crosses the border router. */
module Forwarding {
  import opened Bytes

  type Octets = seq<bv8>

  type Address = a: Octets | |a| == 16 witness [0, 0, 0, 0, 0, 0, 0, 0, 0, 0, 0, 0, 0, 0, 0, 0]

  // ---- lwipAddressMatchesPrefix ----

  /** `(0xFF << (8 - prefix_len % 8)) & 0xFF` in 32 bits. */
  function Mask(len: nat): bv32 { ((0xFF as bv32) << (8 - len % 8)) & 0xFF }

  /** The byte after the whole ones may lie beyond the array; its value is then whatever memory holds. */
  function ByteAt(s: Octets, i: nat, beyond: bv8): bv8 { if i < |s| then s[i] else beyond }

  predicate MatchesPrefix(address: Address, prefix: Octets, len: nat, beyond1: bv8, beyond2: bv8)
    requires len <= 128 && len <= 8 * |prefix|
  {
    var bytes := len / 8;
    && address[..bytes] == prefix[..bytes]
    && (ByteAt(address, bytes, beyond1) as bv32) & Mask(len) == (ByteAt(prefix, bytes, beyond2) as bv32) & Mask(len)
  }

  /** Bit k of a byte, the most significant being bit 0, left in its place. */
  function BitOf(b: bv8, k: nat): bv8
    requires k < 8
  {
    match k
    case 0 => b & 0x80
    case 1 => b & 0x40
    case 2 => b & 0x20
    case 3 => b & 0x10
    case 4 => b & 0x08
    case 5 => b & 0x04
    case 6 => b & 0x02
    case 7 => b & 0x01
  }

  function Bit(s: Octets, i: nat): bv8
    requires i < 8 * |s|
  {
    BitOf(s[i / 8], i % 8)
  }

  lemma ByteBits(a: bv8, b: bv8)
    ensures a == b <==> forall k :: 0 <= k < 8 ==> BitOf(a, k) == BitOf(b, k)
  {
    if forall k :: 0 <= k < 8 ==> BitOf(a, k) == BitOf(b, k) {
      assert BitOf(a, 0) == BitOf(b, 0) && BitOf(a, 1) == BitOf(b, 1) && BitOf(a, 2) == BitOf(b, 2)
          && BitOf(a, 3) == BitOf(b, 3) && BitOf(a, 4) == BitOf(b, 4) && BitOf(a, 5) == BitOf(b, 5)
          && BitOf(a, 6) == BitOf(b, 6) && BitOf(a, 7) == BitOf(b, 7);
    }
  }

  lemma MaskValue(len: nat)
    ensures Mask(len) == match len % 8
                         case 0 => 0
                         case 1 => 0x80
                         case 2 => 0xC0
                         case 3 => 0xE0
                         case 4 => 0xF0
                         case 5 => 0xF8
                         case 6 => 0xFC
                         case _ => 0xFE
  {
  }

  /** The first r bits of two bytes agree, written out. */
  predicate TopBits(a: bv8, b: bv8, r: nat) {
    && (r > 0 ==> a & 0x80 == b & 0x80) && (r > 1 ==> a & 0x40 == b & 0x40)
    && (r > 2 ==> a & 0x20 == b & 0x20) && (r > 3 ==> a & 0x10 == b & 0x10)
    && (r > 4 ==> a & 0x08 == b & 0x08) && (r > 5 ==> a & 0x04 == b & 0x04)
    && (r > 6 ==> a & 0x02 == b & 0x02)
  }

  /** The masked comparison in eight bits. */
  lemma MaskedTop(a: bv8, b: bv8, len: nat)
    ensures (a as bv32) & Mask(len) == (b as bv32) & Mask(len) <==> TopBits(a, b, len % 8)
  {
    MaskValue(len);
  }

  /** Masking compares the first len % 8 bits of a byte, and none of them when that is zero. */
  lemma MaskedBits(a: bv8, b: bv8, len: nat)
    ensures (a as bv32) & Mask(len) == (b as bv32) & Mask(len)
       <==> forall k :: 0 <= k < len % 8 ==> BitOf(a, k) == BitOf(b, k)
  {
    var r := len % 8;
    MaskedTop(a, b, len);
    if forall k :: 0 <= k < r ==> BitOf(a, k) == BitOf(b, k) {
      assert r > 0 ==> BitOf(a, 0) == BitOf(b, 0);
      assert r > 1 ==> BitOf(a, 1) == BitOf(b, 1);
      assert r > 2 ==> BitOf(a, 2) == BitOf(b, 2);
      assert r > 3 ==> BitOf(a, 3) == BitOf(b, 3);
      assert r > 4 ==> BitOf(a, 4) == BitOf(b, 4);
      assert r > 5 ==> BitOf(a, 5) == BitOf(b, 5);
      assert r > 6 ==> BitOf(a, 6) == BitOf(b, 6);
    }
  }

  /** The first `len` bits of both agree. */
  ghost predicate AgreeOn(a: Octets, b: Octets, len: nat)
    requires len <= 8 * |a| && len <= 8 * |b|
  {
    forall i :: 0 <= i < len ==> Bit(a, i) == Bit(b, i)
  }

  lemma WholeBytes(a: Octets, b: Octets, n: nat)
    requires n <= |a| && n <= |b|
    ensures a[..n] == b[..n] <==> AgreeOn(a, b, 8 * n)
  {
    if a[..n] == b[..n] {
      forall i | 0 <= i < 8 * n
        ensures Bit(a, i) == Bit(b, i)
      {
        assert a[..n][i / 8] == b[..n][i / 8];
      }
    }
    if AgreeOn(a, b, 8 * n) {
      forall j | 0 <= j < n
        ensures a[j] == b[j]
      {
        forall k | 0 <= k < 8
          ensures BitOf(a[j], k) == BitOf(b[j], k)
        {
          assert (8 * j + k) / 8 == j && (8 * j + k) % 8 == k;
          assert Bit(a, 8 * j + k) == Bit(b, 8 * j + k);
        }
        ByteBits(a[j], b[j]);
      }
    }
  }

  /** For every length from 0 to 128: the code's test is true exactly when the first `len` bits agree,
      whatever follows either array in memory. */
  lemma MatchesPrefixIff(address: Address, prefix: Octets, len: nat, beyond1: bv8, beyond2: bv8)
    requires len <= 128 && len <= 8 * |prefix|
    ensures MatchesPrefix(address, prefix, len, beyond1, beyond2) <==> AgreeOn(address, prefix, len)
  {
    var n := len / 8;
    WholeBytes(address, prefix, n);
    var a, b := ByteAt(address, n, beyond1), ByteAt(prefix, n, beyond2);
    MaskedBits(a, b, len);
    SplitBits(address, prefix, len, a, b);
  }

  /** Agreement on `len` bits is agreement on the whole bytes and on the rest of the next one. */
  lemma SplitBits(x: Octets, y: Octets, len: nat, a: bv8, b: bv8)
    requires len <= 8 * |x| && len <= 8 * |y|
    requires len % 8 > 0 ==> a == x[len / 8] && b == y[len / 8]
    ensures AgreeOn(x, y, len) <==>
            AgreeOn(x, y, 8 * (len / 8)) && forall k :: 0 <= k < len % 8 ==> BitOf(a, k) == BitOf(b, k)
  {
    var n := len / 8;
    if AgreeOn(x, y, len) {
      forall k | 0 <= k < len % 8
        ensures BitOf(a, k) == BitOf(b, k)
      {
        assert (8 * n + k) / 8 == n && (8 * n + k) % 8 == k;
        assert Bit(x, 8 * n + k) == Bit(y, 8 * n + k);
      }
    }
    if AgreeOn(x, y, 8 * n) && (forall k :: 0 <= k < len % 8 ==> BitOf(a, k) == BitOf(b, k)) {
      forall i | 0 <= i < len
        ensures Bit(x, i) == Bit(y, i)
      {
        if i >= 8 * n {
          assert i / 8 == n && BitOf(a, i % 8) == BitOf(b, i % 8);
        }
      }
    }
  }

  // ---- The hook ----

  datatype BackboneRouter = Disabled | Secondary | Primary

  type PrefixLength = n: nat | n <= 128

  datatype OnMeshPrefix = OnMeshPrefix(prefix: Address, length: PrefixLength, domain: bool)

  type MeshLocalPrefix = p: Octets | |p| == 8 witness [0, 0, 0, 0, 0, 0, 0, 0]

  /** What the hook consults: interfaces, OpenThread's answers, the multicast filter, and stray memory bytes. */
  datatype Env = Env(
    initialized: bool,
    infraIf: nat,
    threadIf: nat,
    bbr: BackboneRouter,
    filter: set<Address>,
    onMesh: seq<OnMeshPrefix>,
    meshLocal: Option<MeshLocalPrefix>,
    beyond1: bv8,
    beyond2: bv8)

  const ADMIN_LOCAL: bv8 := 4

  /** Section 2.7 of RFC 4291: FF prefix, and the scope in the low half of the second byte. */
  predicate IsMulticast(a: Address) { a[0] == 0xFF }

  function Scope(a: Address): bv8 { a[1] & 0x0F }

  /** A packet's hop limit is changed in place; `sent` lists the interfaces the hook outputs it on. */
  class Packet {
    var hopLimit: byte
    var sent: seq<nat>

    /** `IP6H_HOPLIM(hdr)-- > 1`: the test sees the old value, and the counter is 8 bits wide. */
    method TakeHop() returns (alive: bool)
      modifies this`hopLimit
      ensures alive == (old(hopLimit) > 1)
      ensures hopLimit == (old(hopLimit) + 255) % 256
    {
      alive := hopLimit > 1;
      hopLimit := if hopLimit == 0 then 255 else hopLimit - 1;
    }
  }

  /** The interface a multicast packet would be copied to, hop limit permitting. */
  function MulticastTarget(env: Env, dest: Address, netif: nat): Option<nat> {
    if !IsMulticast(dest) || Scope(dest) < ADMIN_LOCAL then None
    else if netif == env.infraIf then (if dest in env.filter then Some(env.threadIf) else None)
    else if netif == env.threadIf && env.bbr.Primary? then Some(env.infraIf)
    else None
  }

  /** Multicast that ends in forwardMulticast, copied or not. */
  predicate MulticastEnds(env: Env, dest: Address, netif: nat) {
    IsMulticast(dest) && (Scope(dest) < ADMIN_LOCAL || netif == env.infraIf || netif == env.threadIf)
  }

  method ForwardMulticast(env: Env, dest: Address, p: Packet, netif: nat) returns (goOn: bool)
    modifies p
    ensures goOn <==> !MulticastEnds(env, dest, netif)
    ensures var target := MulticastTarget(env, dest, netif);
            && p.sent == old(p.sent) + (if target.Some? && old(p.hopLimit) > 1 then [target.value] else [])
            && p.hopLimit == if target.Some? then (old(p.hopLimit) + 255) % 256 else old(p.hopLimit)
  {
    if !IsMulticast(dest) {
      return true;
    }
    if Scope(dest) < ADMIN_LOCAL {
      return false;
    }
    if netif == env.infraIf {
      if dest in env.filter {
        var alive := p.TakeHop();
        if alive {
          p.sent := p.sent + [env.threadIf];
        }
      }
      return false;
    } else if netif == env.threadIf {
      if env.bbr.Secondary? || env.bbr.Disabled? {
        return false;
      }
      var alive := p.TakeHop();
      if alive {
        p.sent := p.sent + [env.infraIf];
      }
      return false;
    }
    return true;
  }

  ghost predicate MeshLocal(env: Env, a: Address) {
    env.meshLocal.Some? && AgreeOn(a, env.meshLocal.value, 64)
  }

  /** Inside an on-mesh prefix that is not a domain prefix. */
  ghost predicate OnMesh(env: Env, a: Address) {
    exists i :: 0 <= i < |env.onMesh| && !env.onMesh[i].domain && AgreeOn(a, env.onMesh[i].prefix, env.onMesh[i].length)
  }

  ghost predicate Legal(env: Env, src: Address, dest: Address, netif: nat) {
    && (netif == env.threadIf ==> !OnMesh(env, dest))
    && !MeshLocal(env, src) && !MeshLocal(env, dest)
  }

  method IsLegalToForward(env: Env, src: Address, dest: Address, netif: nat) returns (legal: bool)
    ensures legal <==> Legal(env, src, dest, netif)
  {
    if netif == env.threadIf {
      var i := 0;
      while i < |env.onMesh|
        invariant i <= |env.onMesh|
        invariant forall j :: 0 <= j < i && !env.onMesh[j].domain ==>
                    !AgreeOn(dest, env.onMesh[j].prefix, env.onMesh[j].length)
      {
        var config := env.onMesh[i];
        if !config.domain {
          MatchesPrefixIff(dest, config.prefix, config.length, env.beyond1, env.beyond2);
          if MatchesPrefix(dest, config.prefix, config.length, env.beyond1, env.beyond2) {
            return false;
          }
        }
        i := i + 1;
      }
    }
    if env.meshLocal.Some? {
      var p := env.meshLocal.value;
      MatchesPrefixIff(src, p, 64, env.beyond1, env.beyond2);
      MatchesPrefixIff(dest, p, 64, env.beyond1, env.beyond2);
      if MatchesPrefix(src, p, 64, env.beyond1, env.beyond2) || MatchesPrefix(dest, p, 64, env.beyond1, env.beyond2) {
        return false;
      }
    }
    return true;
  }

  /** The forwarding decision: 1 lets lwIP forward the packet, 0 ends it here. */
  method CanForwardHook(env: Env, src: Address, dest: Address, p: Packet, netif: nat) returns (r: int)
    modifies p
    ensures r == 1 <==> env.initialized && !MulticastEnds(env, dest, netif) && Legal(env, src, dest, netif)
    ensures r == 0 || r == 1
    ensures p.sent == old(p.sent) + Copies(env, dest, old(p.hopLimit), netif)
    ensures p.hopLimit == if env.initialized && MulticastTarget(env, dest, netif).Some?
                          then (old(p.hopLimit) + 255) % 256 else old(p.hopLimit)
    // never both copied and left to lwIP, and never copied back to where it came from
    ensures r == 1 ==> p.sent == old(p.sent) && p.hopLimit == old(p.hopLimit)
    ensures |p.sent| <= |old(p.sent)| + 1
    ensures env.infraIf != env.threadIf ==> netif !in p.sent[|old(p.sent)|..]
    // address by address: what multicast from the two interfaces does, whatever the source
    ensures dest[0] == 0xFF && (netif == env.infraIf || netif == env.threadIf) ==> r == 0
    ensures dest[0] == 0xFF && dest[1] & 0x0F < 4 ==> r == 0 && Untouched(p, old(p.sent), old(p.hopLimit))
    ensures env.initialized && dest[0] == 0xFF && dest[1] & 0x0F >= 4 && netif == env.infraIf ==>
              if dest in env.filter then Relayed(p, env.threadIf, old(p.sent), old(p.hopLimit))
              else Untouched(p, old(p.sent), old(p.hopLimit))
    ensures env.initialized && dest[0] == 0xFF && dest[1] & 0x0F >= 4 && netif == env.threadIf != env.infraIf ==>
              if env.bbr == Primary then Relayed(p, env.infraIf, old(p.sent), old(p.hopLimit))
              else Untouched(p, old(p.sent), old(p.hopLimit))
    // everything else is left to lwIP, or not, as it is
    ensures dest[0] != 0xFF || (netif != env.infraIf && netif != env.threadIf) ==>
              && Untouched(p, old(p.sent), old(p.hopLimit))
              && (r == 1 <==>
                    && env.initialized && NotForThread(env, src, dest, netif)
                    && (dest[0] == 0xFF ==> dest[1] & 0x0F >= 4))
    ensures !env.initialized ==> r == 0 && Untouched(p, old(p.sent), old(p.hopLimit))
  {
    if !env.initialized {
      return 0;
    }
    var goOn := ForwardMulticast(env, dest, p, netif);
    if !goOn {
      return 0;
    }
    var legal := IsLegalToForward(env, src, dest, netif);
    r := if legal then 1 else 0;
  }

  ghost predicate Untouched(p: Packet, sent: seq<nat>, hopLimit: byte)
    reads p
  {
    p.sent == sent && p.hopLimit == hopLimit
  }

  /** Output on one interface if there is a hop left, and one hop less either way, in eight bits. */
  ghost predicate Relayed(p: Packet, netif: nat, sent: seq<nat>, hopLimit: byte)
    reads p
  {
    && p.sent == (if hopLimit > 1 then sent + [netif] else sent)
    && p.hopLimit == (if hopLimit == 0 then 255 else hopLimit - 1)
  }

  /** Where the hook itself outputs a packet. */
  function Copies(env: Env, dest: Address, hopLimit: byte, netif: nat): seq<nat> {
    var target := MulticastTarget(env, dest, netif);
    if env.initialized && target.Some? && hopLimit > 1 then [target.value] else []
  }

  /** The packet leaves on some other interface, by lwIP or by the hook. */
  ghost predicate MayCross(env: Env, src: Address, dest: Address, hopLimit: byte, netif: nat) {
    || (env.initialized && !MulticastEnds(env, dest, netif) && Legal(env, src, dest, netif))
    || Copies(env, dest, hopLimit, netif) != []
  }

  /** Mesh-local packets are meant never to cross. They do exactly when the hook copies them as multicast, because
      forwardMulticast runs first and looks at the destination only. */
  lemma MeshLocalCrossesIff(env: Env, src: Address, dest: Address, hopLimit: byte, netif: nat)
    requires MeshLocal(env, src) || MeshLocal(env, dest)
    ensures MayCross(env, src, dest, hopLimit, netif)
       <==> && env.initialized && hopLimit > 1 && IsMulticast(dest) && Scope(dest) >= ADMIN_LOCAL
            && (if netif == env.infraIf then dest in env.filter else netif == env.threadIf && env.bbr.Primary?)
  {
  }

  /** No address is mesh-local, and what comes from Thread is inside no on-mesh prefix that is not a domain prefix. */
  ghost predicate NotForThread(env: Env, src: Address, dest: Address, netif: nat) {
    && (env.meshLocal.Some? ==>
          !AgreeOn(src, env.meshLocal.value, 64) && !AgreeOn(dest, env.meshLocal.value, 64))
    && (netif == env.threadIf ==>
          forall i :: 0 <= i < |env.onMesh| && !env.onMesh[i].domain ==>
            !AgreeOn(dest, env.onMesh[i].prefix, env.onMesh[i].length))
  }

  /** Which multicast packets leave on another interface, for every packet: those of admin-local scope and above, with a
      hop left, from the infrastructure side if the group is listened to, from the Thread side if this is the primary
      router; and from a third interface, if lwIP may have them. */
  lemma MulticastCrossesIff(env: Env, src: Address, dest: Address, hopLimit: byte, netif: nat)
    requires dest[0] == 0xFF
    ensures MayCross(env, src, dest, hopLimit, netif)
       <==> && env.initialized && dest[1] & 0x0F >= 4
            && if netif == env.infraIf then dest in env.filter && hopLimit > 1
               else if netif == env.threadIf then env.bbr == Primary && hopLimit > 1
               else NotForThread(env, src, dest, netif)
  {
  }

  /** And which others. */
  lemma UnicastCrossesIff(env: Env, src: Address, dest: Address, hopLimit: byte, netif: nat)
    requires dest[0] != 0xFF
    ensures MayCross(env, src, dest, hopLimit, netif) <==> env.initialized && NotForThread(env, src, dest, netif)
  {
  }

  /** Such a packet: mesh-local source, site-local multicast destination, from the Thread side of a primary router. */
  lemma MeshLocalSourceCanCross()
    ensures exists env: Env, src: Address, dest: Address, hopLimit: byte, netif: nat ::
              MeshLocal(env, src) && MayCross(env, src, dest, hopLimit, netif)
  {
    var src: Address := [0xFD, 0, 0, 0, 0, 0, 0, 0, 0, 0, 0, 0, 0, 0, 0, 1];
    var dest: Address := [0xFF, 5, 0, 0, 0, 0, 0, 0, 0, 0, 0, 0, 0, 0, 0, 0xFB];
    var prefix: MeshLocalPrefix := [0xFD, 0, 0, 0, 0, 0, 0, 0];
    var env := Env(true, 1, 2, Primary, {}, [], Some(prefix), 0, 0);
    assert src[..8] == prefix[..8];
    WholeBytes(src, prefix, 8);
    assert MeshLocal(env, src);
    MeshLocalCrossesIff(env, src, dest, 64, 2);
    assert MayCross(env, src, dest, 64, 2);
  }
}
