/** Machine words of the firmware (little-endian Cortex-M) and the byte-array primitives it uses. */
module Bytes {
  type byte = x: int | 0 <= x < 0x100
  type u16 = x: int | 0 <= x < 0x1_0000
  type u32 = x: int | 0 <= x < 0x1_0000_0000

  datatype Option<+T> = None | Some(value: T)

  function Lo(x: u16): byte { x % 0x100 }

  function Hi(x: u16): byte { x / 0x100 }

  function U16(lo: byte, hi: byte): u16 { lo + 0x100 * hi }

  lemma U16RoundTrip(x: u16)
    ensures U16(Lo(x), Hi(x)) == x
  {
  }

  lemma U16Parts(lo: byte, hi: byte)
    ensures Lo(U16(lo, hi)) == lo && Hi(U16(lo, hi)) == hi
  {
  }

  lemma Assoc<T>(a: seq<T>, b: seq<T>, c: seq<T>)
    ensures (a + b) + c == a + (b + c)
  {
  }

  lemma Units<T>(s: seq<T>)
    ensures [] + s == s && s + [] == s
  {
  }

  lemma Split<T>(s: seq<T>, i: nat)
    requires i <= |s|
    ensures s == s[..i] + s[i..]
  {
  }

  lemma SliceOfPrefix<T>(s: seq<T>, n: nat, i: nat, j: nat)
    requires i <= j <= n <= |s|
    ensures s[..n][i..j] == s[i..j]
  {
  }

  lemma SuffixTail<T>(s: seq<T>, i: nat, x: T, rest: seq<T>)
    requires i <= |s| && s[i..] == [x] + rest
    ensures i < |s| && s[i + 1..] == rest
  {
    assert s[i..][1..] == s[i + 1..];
  }

  lemma SuffixAppend<T>(s: seq<T>, i: nat, x: T)
    requires i <= |s|
    ensures (s + [x])[i..] == s[i..] + [x]
  {
  }

  /** A middle part put between slices of one sequence. */
  lemma Slices<T>(xs: seq<T>, s: nat, i: nat, j: nat, e: nat, mid: seq<T>)
    requires s <= i <= j <= e <= |xs|
    ensures xs[..s] + (xs[s..i] + (mid + (xs[j..e] + xs[e..]))) == xs[..i] + mid + xs[j..]
  {
    assert xs[j..] == xs[j..e] + xs[e..];
    assert xs[..i] == xs[..s] + xs[s..i];
    Assoc(xs[..s], xs[s..i], mid + xs[j..]);
    Assoc(xs[..i], mid, xs[j..]);
  }

  /** `data` written over `s` at `at`. */
  function Overwrite<T>(s: seq<T>, at: nat, data: seq<T>): seq<T>
    requires at + |data| <= |s|
  {
    s[..at] + data + s[at + |data|..]
  }

  /** Two adjacent copies are one copy of the concatenation. */
  lemma OverwriteTwice<T>(s: seq<T>, at: nat, a: seq<T>, b: seq<T>)
    requires at + |a| + |b| <= |s|
    ensures Overwrite(Overwrite(s, at, a), at + |a|, b) == Overwrite(s, at, a + b)
  {
    var s1 := Overwrite(s, at, a);
    assert s1[..at + |a|] == s[..at] + a;
    assert s1[at + |a| + |b|..] == s[at + |a| + |b|..];
    Assoc(s[..at], a, b);
  }

  /** `memcpy` of a value into an array. */
  method MemCpy(a: array<byte>, at: nat, data: seq<byte>)
    requires at + |data| <= a.Length
    modifies a
    ensures a[..] == Overwrite(old(a[..]), at, data)
  {
    for i := 0 to |data|
      invariant forall k :: 0 <= k < a.Length ==> a[k] == if at <= k < at + i then data[k - at] else old(a[k])
    {
      a[at + i] := data[i];
    }
  }

  /** `memset` to zero. */
  method MemZero(a: array<byte>, at: nat, n: nat)
    requires at + n <= a.Length
    modifies a
    ensures forall k :: 0 <= k < a.Length ==> a[k] == if at <= k < at + n then 0 else old(a[k])
  {
    for i := 0 to n
      invariant forall k :: 0 <= k < a.Length ==> a[k] == if at <= k < at + i then 0 else old(a[k])
    {
      a[at + i] := 0;
    }
  }

  /** `memmove` towards lower addresses: the ranges may overlap. */
  method MemMoveDown(a: array<byte>, dst: nat, src: nat, n: nat)
    requires dst <= src && src + n <= a.Length
    modifies a
    ensures a[dst..dst + n] == old(a[src..src + n])
    ensures forall k :: 0 <= k < a.Length && !(dst <= k < dst + n) ==> a[k] == old(a[k])
  {
    for i := 0 to n
      invariant forall k :: 0 <= k < a.Length ==>
                  a[k] == if dst <= k < dst + i then old(a[src + (k - dst)]) else old(a[k])
    {
      a[dst + i] := a[src + i];
    }
  }

  /** Bytes from..to shifted up by `gap`, highest byte first, so that overlap does no harm. */
  method ShiftUp(a: array<byte>, from: nat, to: nat, gap: nat)
    requires from <= to && to + gap <= a.Length
    modifies a
    ensures a[from + gap..to + gap] == old(a[from..to])
    ensures forall k :: 0 <= k < from ==> a[k] == old(a[k])
  {
    var reader := to - 1;
    while reader >= from
      invariant from - 1 <= reader < to
      invariant forall k :: 0 <= k < a.Length ==>
                  a[k] == if reader + gap < k < to + gap then old(a[k - gap]) else old(a[k])
    {
      a[reader + gap] := a[reader];
      reader := reader - 1;
    }
  }
}
