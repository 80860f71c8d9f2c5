/** Bytes, and big-endian integers in them as encoding/binary writes and reads them. */
module Bytes {
  type byte = b: int | 0 <= b < 0x100
  type u16 = n: int | 0 <= n < 0x1_0000
  type u32 = n: int | 0 <= n < 0x1_0000_0000

  /** The conversions uint16(n) and uint32(n): anything that does not fit is cut off. */
  function Cut16(n: nat): u16 {
    n % 0x1_0000
  }

  function Cut32(n: nat): u32 {
    n % 0x1_0000_0000
  }

  function U16(n: u16): (b: seq<byte>)
    ensures |b| == 2
  {
    [n / 0x100, n % 0x100]
  }

  function U32(n: u32): (b: seq<byte>)
    ensures |b| == 4
  {
    U16(n / 0x1_0000) + U16(n % 0x1_0000)
  }

  function Get16(b: seq<byte>): u16
    requires |b| == 2
  {
    (b[0] as int) * 0x100 + b[1] as int
  }

  function Get32(b: seq<byte>): u32
    requires |b| == 4
  {
    (Get16(b[..2]) as int) * 0x1_0000 + Get16(b[2..]) as int
  }

  lemma GetU16(n: u16)
    ensures Get16(U16(n)) == n
  {
  }

  lemma U16Get(b: seq<byte>)
    requires |b| == 2
    ensures U16(Get16(b)) == b
  {
  }

  lemma GetU32(n: u32)
    ensures Get32(U32(n)) == n
  {
    assert U32(n)[..2] == U16(n / 0x1_0000) && U32(n)[2..] == U16(n % 0x1_0000);
  }

  lemma U32Get(b: seq<byte>)
    requires |b| == 4
    ensures U32(Get32(b)) == b
  {
    U16Get(b[..2]);
    U16Get(b[2..]);
    assert b == b[..2] + b[2..];
  }

  /** The number that n bytes spell from position `at` on, the first of them the most significant. */
  function Spelt(b: seq<byte>, at: nat, n: nat): nat
    requires at + n <= |b|
  {
    if n == 0 then 0 else Spelt(b, at, n - 1) * 256 + b[at + n - 1] as int
  }

  lemma SpeltPair(b: seq<byte>, at: nat, n: u16)
    requires at + 2 <= |b| && b[at..at + 2] == U16(n)
    ensures Spelt(b, at, 2) == n
  {
    assert b[at] == U16(n)[0] && b[at + 1] == U16(n)[1];
    assert Spelt(b, at, 1) == b[at] as int;
  }

  lemma SpeltFour(b: seq<byte>, at: nat, n: u32)
    requires at + 4 <= |b| && b[at..at + 4] == U32(n)
    ensures Spelt(b, at, 4) == n
  {
    forall k | 0 <= k < 4 ensures b[at + k] == U32(n)[k] {
      assert b[at + k] == b[at..at + 4][k];
    }
    assert Spelt(b, at, 1) == b[at] as int;
    assert Spelt(b, at, 2) == Spelt(b, at, 1) * 256 + b[at + 1] as int;
    assert Spelt(b, at, 3) == Spelt(b, at, 2) * 256 + b[at + 2] as int;
  }

  function Zeros(n: nat): (b: seq<byte>)
    ensures |b| == n && forall i :: 0 <= i < n ==> b[i] == 0
  {
    seq(n, _ => 0)
  }

  lemma SliceOfRest(b: seq<byte>, off: nat, i: nat, j: nat)
    requires i <= j && off + j <= |b|
    ensures b[off..][i..j] == b[off + i..off + j]
  {
  }

  lemma SlicePrefix(a: seq<byte>, b: seq<byte>, lo: nat, hi: nat)
    requires lo <= hi <= |a|
    ensures (a + b)[lo..hi] == a[lo..hi]
  {
  }

  lemma SliceSuffix(a: seq<byte>, b: seq<byte>)
    ensures (a + b)[|a|..|a| + |b|] == b
  {
  }

  lemma SliceOfSlice(b: seq<byte>, lo: nat, hi: nat, i: nat, j: nat)
    requires i <= j && lo + j <= hi <= |b|
    ensures b[lo..hi][i..j] == b[lo + i..lo + j]
  {
    forall k | 0 <= k < j - i ensures b[lo..hi][i..j][k] == b[lo + i..lo + j][k] {
    }
  }

  // ----- Filling a buffer from front to back -----

  method Put(buf: array<byte>, off: nat, v: seq<byte>)
    requires off + |v| <= buf.Length
    modifies buf
    ensures buf[..] == old(buf[..])[..off] + v + old(buf[..])[off + |v|..]
  {
    ghost var was := buf[..];
    for i := 0 to |v|
      invariant buf[..] == was[..off] + v[..i] + was[off + i..]
    {
      buf[off + i] := v[i];
      assert buf[..] == was[..off] + v[..i + 1] + was[off + i + 1..];
    }
    assert v[..|v|] == v;
  }

  /** Writing v over the zeros that follow a. */
  lemma PutOverZeros(a: seq<byte>, n: nat, b: seq<byte>, v: seq<byte>)
    requires |v| <= n
    ensures var s := a + Zeros(n) + b;
      s[..|a|] + v + s[|a| + |v|..] == a + v + Zeros(n - |v|) + b
  {
    var s := a + Zeros(n) + b;
    assert s[..|a|] == a;
    assert s[|a| + |v|..] == Zeros(n - |v|) + b;
  }

  /** Writing v at the front of the zeros that end a buffer. */
  method Fill(buf: array<byte>, off: nat, ghost done: seq<byte>, v: seq<byte>)
    requires |done| == off && off + |v| <= buf.Length
    requires buf[..] == done + Zeros(buf.Length - off)
    modifies buf
    ensures buf[..] == done + v + Zeros(buf.Length - off - |v|)
  {
    PutOverZeros(done, buf.Length - off, [], v);
    assert buf[..] == done + Zeros(buf.Length - off) + [];
    Put(buf, off, v);
  }

  lemma AllZeros(s: seq<byte>)
    requires forall i :: 0 <= i < |s| ==> s[i] == 0
    ensures s == Zeros(|s|)
  {
  }

  lemma SplitZeros(n: nat, k: nat)
    requires k <= n
    ensures Zeros(n) == Zeros(k) + Zeros(n - k)
  {
  }
}
