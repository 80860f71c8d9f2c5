/** PBKDF2 over any pseudorandom function: the loops against the definition of RFC 2898, section 5.2. */
module Pbkdf2 {
  import opened Bytes

  // ----- Exclusive or -----

  /** The exclusive or of the n low bits of a and b. */
  function XorBits(a: nat, b: nat, n: nat): (r: nat)
    ensures r < Pow2(n)
  {
    if n == 0 then 0 else (a + b) % 2 + 2 * XorBits(a / 2, b / 2, n - 1)
  }

  function Pow2(n: nat): nat {
    if n == 0 then 1 else 2 * Pow2(n - 1)
  }

  function XorByte(a: byte, b: byte): byte {
    assert Pow2(8) == 0x100;
    XorBits(a, b, 8)
  }

  function Xor(a: seq<byte>, b: seq<byte>): (r: seq<byte>)
    requires |a| == |b|
    ensures |r| == |a|
  {
    seq(|a|, k requires 0 <= k < |a| => XorByte(a[k], b[k]))
  }

  predicate Bit(a: nat, n: nat) {
    if n == 0 then a % 2 == 1 else Bit(a / 2, n - 1)
  }

  lemma {:induction false} BitOfXorBits(a: nat, b: nat, m: nat, n: nat)
    requires n < m
    ensures Bit(XorBits(a, b, m), n) <==> Bit(a, n) != Bit(b, n)
  {
    Halves(a, b, XorBits(a / 2, b / 2, m - 1));
    if n > 0 {
      BitOfXorBits(a / 2, b / 2, m - 1, n - 1);
    }
  }

  lemma Halves(a: nat, b: nat, r: nat)
    ensures var x := (a + b) % 2 + 2 * r;
      x / 2 == r && (x % 2 == 1 <==> (a % 2 == 1) != (b % 2 == 1))
  {
  }

  // ----- The definition -----

  /** A pseudorandom function keyed with the password, whose results are all hLen bytes long. */
  ghost predicate IsPrf(f: seq<byte> -> seq<byte>, hLen: nat) {
    hLen >= 1 && forall x :: |f(x)| == hLen
  }

  /** U_j of the block with this index. */
  function U(f: seq<byte> -> seq<byte>, salt: seq<byte>, index: u32, j: nat): seq<byte>
    requires j >= 1
  {
    if j == 1 then f(salt + U32(index)) else f(U(f, salt, index, j - 1))
  }

  /** The exclusive or of U_1 to U_c. */
  ghost function T(f: seq<byte> -> seq<byte>, hLen: nat, salt: seq<byte>, c: nat, index: u32): (t: seq<byte>)
    requires IsPrf(f, hLen) && c >= 1
    ensures |t| == hLen
  {
    if c == 1 then U(f, salt, index, 1) else Xor(T(f, hLen, salt, c - 1, index), U(f, salt, index, c))
  }

  /** T_1 to T_n, one after the other. The index of a block is written in four bytes. */
  ghost function Blocks(f: seq<byte> -> seq<byte>, hLen: nat, salt: seq<byte>, c: nat, n: nat): (b: seq<byte>)
    requires IsPrf(f, hLen) && c >= 1
    ensures |b| == n * hLen
  {
    if n == 0 then [] else Blocks(f, hLen, salt, c, n - 1) + T(f, hLen, salt, c, Cut32(n))
  }

  function BlockCount(hLen: nat, keyLen: nat): nat
    requires hLen >= 1
  {
    (keyLen + hLen - 1) / hLen
  }

  lemma EnoughBlocks(hLen: nat, keyLen: nat)
    requires hLen >= 1
    ensures keyLen <= BlockCount(hLen, keyLen) * hLen < keyLen + hLen
  {
    var n := keyLen + hLen - 1;
    assert n == n / hLen * hLen + n % hLen;
  }

  /** The first keyLen bytes of the blocks. Fewer than one iteration is one. */
  ghost function Key(
    f: seq<byte> -> seq<byte>, hLen: nat, salt: seq<byte>, iterations: int, keyLen: nat
  ): (dk: seq<byte>)
    requires IsPrf(f, hLen)
    ensures |dk| == keyLen
  {
    EnoughBlocks(hLen, keyLen);
    Blocks(f, hLen, salt, AtLeastOne(iterations), BlockCount(hLen, keyLen))[..keyLen]
  }

  function AtLeastOne(iterations: int): nat {
    if iterations < 1 then 1 else iterations
  }

  /** The chain starts with the salt and the index in four bytes, and goes on with the digest before. */
  lemma ChainIsStandard(f: seq<byte> -> seq<byte>, salt: seq<byte>, index: u32, four: seq<byte>, j: nat)
    requires j >= 1 && |four| == 4 && Spelt(four, 0, 4) == index
    ensures U(f, salt, index, 1) == f(salt + four)
    ensures U(f, salt, index, j + 1) == f(U(f, salt, index, j))
  {
    hide U32, Spelt;
    U32Get(four);
    assert four[0..4] == four;
    SpeltFour(four, 0, Get32(four));
  }

  // ----- The loops -----

  /** The keyed hash: it digests what has been written since the last reset, into an array of its own. */
  class Mac {
    const f: seq<byte> -> seq<byte>
    var written: seq<byte>

    constructor (f: seq<byte> -> seq<byte>)
      ensures this.f == f && written == []
    {
      this.f := f;
      written := [];
    }

    method Reset()
      modifies this
      ensures written == []
    {
      written := [];
    }

    method Write(b: seq<byte>)
      modifies this
      ensures written == old(written) + b
    {
      written := written + b;
    }

    method Sum() returns (out: array<byte>)
      ensures fresh(out) && out[..] == f(written)
    {
      var digest := f(written);
      out := new byte[|digest|](i requires 0 <= i < |digest| => digest[i]);
    }
  }

  /** The digest of the salt and the block's index. */
  method FirstDigest(prf: Mac, salt: seq<byte>, i: nat) returns (u: array<byte>)
    modifies prf
    ensures fresh(u) && u[..] == U(prf.f, salt, Cut32(i), 1)
  {
    prf.Reset();
    prf.Write(salt);
    var block := new byte[4](_ => 0);
    Put(block, 0, U32(Cut32(i)));
    assert block[..] == U32(Cut32(i));
    prf.Write(block[..]);
    assert prf.written == salt + U32(Cut32(i));
    u := prf.Sum();
  }

  /** One block: the chain of digests, each folded into t in place. */
  method Block(prf: Mac, ghost hLen: nat, salt: seq<byte>, iterations: int, i: nat) returns (t: array<byte>)
    requires IsPrf(prf.f, hLen)
    modifies prf
    ensures fresh(t) && t[..] == T(prf.f, hLen, salt, AtLeastOne(iterations), Cut32(i))
  {
    hide Cut32, U, T, IsPrf;
    ghost var f, index := prf.f, Cut32(i);
    var u := FirstDigest(prf, salt, i);
    First(f, hLen, salt, index);
    t := new byte[u.Length];
    forall k | 0 <= k < u.Length {
      t[k] := u[k];
    }
    assert t[..] == u[..];
    var j := 1;
    while j < iterations
      invariant 1 <= j <= AtLeastOne(iterations)
      invariant fresh(t) && fresh(u) && t != u
      invariant u[..] == U(f, salt, index, j)
      invariant t[..] == T(f, hLen, salt, j, index)
    {
      Next(f, hLen, salt, j, index);
      u := NextDigest(prf, u);
      XorInto(t, u);
      j := j + 1;
    }
  }

  method NextDigest(prf: Mac, u: array<byte>) returns (v: array<byte>)
    modifies prf
    ensures fresh(v) && v[..] == prf.f(u[..])
  {
    prf.Reset();
    prf.Write(u[..]);
    assert prf.written == u[..];
    v := prf.Sum();
  }

  lemma First(f: seq<byte> -> seq<byte>, hLen: nat, salt: seq<byte>, index: u32)
    requires IsPrf(f, hLen)
    ensures T(f, hLen, salt, 1, index) == U(f, salt, index, 1)
  {
  }

  lemma Next(f: seq<byte> -> seq<byte>, hLen: nat, salt: seq<byte>, j: nat, index: u32)
    requires IsPrf(f, hLen) && j >= 1
    ensures U(f, salt, index, j + 1) == f(U(f, salt, index, j))
    ensures |U(f, salt, index, j + 1)| == hLen
    ensures T(f, hLen, salt, j + 1, index) == Xor(T(f, hLen, salt, j, index), U(f, salt, index, j + 1))
  {
  }

  /** The innermost loop. */
  method XorInto(t: array<byte>, u: array<byte>)
    requires t != u && t.Length == u.Length
    modifies t
    ensures t[..] == Xor(old(t[..]), u[..])
  {
    hide XorByte;
    ghost var was := t[..];
    for k := 0 to t.Length
      invariant forall n :: 0 <= n < k ==> t[n] == XorByte(was[n], u[n])
      invariant forall n :: k <= n < t.Length ==> t[n] == was[n]
    {
      t[k] := XorByte(t[k], u[k]);
    }
  }

  /** pbkdf2HMACSHA512, of any keyed hash. */
  method Derive(
    f: seq<byte> -> seq<byte>, hLen: nat, salt: seq<byte>, iterations: int, keyLen: nat
  ) returns (dk: seq<byte>)
    requires IsPrf(f, hLen)
    ensures dk == Key(f, hLen, salt, iterations, keyLen)
  {
    hide T;
    var prf := new Mac(f);
    var numBlocks := (keyLen + hLen - 1) / hLen;
    dk := [];
    EnoughBlocks(hLen, keyLen);
    for i := 1 to numBlocks + 1
      invariant dk == Blocks(f, hLen, salt, AtLeastOne(iterations), i - 1)
    {
      var t := Block(prf, hLen, salt, iterations, i);
      dk := dk + t[..];
    }
    return dk[..keyLen];
  }

  // ----- What the definition means -----

  /** How many of U_1 to U_c have this bit of this byte set. */
  function CountBits(f: seq<byte> -> seq<byte>, salt: seq<byte>, c: nat, index: u32, k: nat, n: nat): nat
    requires c >= 1
  {
    var u := U(f, salt, index, c);
    (if k < |u| && Bit(u[k], n) then 1 else 0) + if c == 1 then 0 else CountBits(f, salt, c - 1, index, k, n)
  }

  /** A bit of T is set exactly if an odd number of U_1 to U_c have it set. */
  lemma {:induction false} BitsAreParities(
    f: seq<byte> -> seq<byte>, hLen: nat, salt: seq<byte>, c: nat, index: u32, k: nat, n: nat
  )
    requires IsPrf(f, hLen) && c >= 1 && k < hLen && n < 8
    ensures Bit(T(f, hLen, salt, c, index)[k], n) <==> CountBits(f, salt, c, index, k, n) % 2 == 1
  {
    hide Bit, XorBits;
    if c > 1 {
      BitsAreParities(f, hLen, salt, c - 1, index, k, n);
      BitOfXorBits(T(f, hLen, salt, c - 1, index)[k], U(f, salt, index, c)[k], 8, n);
    }
  }

  /** Where a byte of the key comes from. */
  lemma {:induction false} BlockBytes(
    f: seq<byte> -> seq<byte>, hLen: nat, salt: seq<byte>, c: nat, n: nat, i: nat, k: nat
  )
    requires IsPrf(f, hLen) && c >= 1 && i < n && k < hLen
    ensures i * hLen + k < n * hLen
    ensures Blocks(f, hLen, salt, c, n)[i * hLen + k] == T(f, hLen, salt, c, Cut32(i + 1))[k]
  {
    hide T;
    BlockStart(hLen, i, n - 1);
    if i < n - 1 {
      BlockBytes(f, hLen, salt, c, n - 1, i, k);
    }
  }

  lemma BlockStart(hLen: nat, i: nat, n: nat)
    requires i <= n
    ensures i * hLen <= n * hLen && (n + 1) * hLen == n * hLen + hLen
  {
  }

  /**
   * Byte p of the key is byte p mod hLen of block p div hLen, whatever the
   * length of the key: longer keys extend shorter ones.
   */
  lemma KeyBytes(f: seq<byte> -> seq<byte>, hLen: nat, salt: seq<byte>, iterations: int, keyLen: nat, p: nat)
    requires IsPrf(f, hLen) && p < keyLen
    ensures Key(f, hLen, salt, iterations, keyLen)[p]
         == T(f, hLen, salt, if iterations >= 1 then iterations else 1, Cut32(p / hLen + 1))[p % hLen]
  {
    hide T, Blocks;
    EnoughBlocks(hLen, keyLen);
    var n := BlockCount(hLen, keyLen);
    WithinBlocks(p, hLen, n);
    BlockBytes(f, hLen, salt, AtLeastOne(iterations), n, p / hLen, p % hLen);
  }

  lemma WithinBlocks(p: nat, hLen: nat, n: nat)
    requires hLen >= 1 && p < n * hLen
    ensures p == p / hLen * hLen + p % hLen && p / hLen < n
  {
    if p / hLen >= n {
      BlockStart(hLen, n, p / hLen);
    }
  }

  /**
   * The standard refuses keys of more than 2^32 - 1 blocks, and the code does
   * not: up to there every block has its own index, and past it the key
   * starts to repeat itself 2^32 blocks back.
   */
  lemma IndexesRunOut(f: seq<byte> -> seq<byte>, hLen: nat, salt: seq<byte>, iterations: int, keyLen: nat, p: nat)
    requires IsPrf(f, hLen) && p < keyLen
    ensures p < 0xFFFF_FFFF * hLen ==> Cut32(p / hLen + 1) == p / hLen + 1
    ensures p >= 0x1_0000_0000 * hLen ==>
      Key(f, hLen, salt, iterations, keyLen)[p] == Key(f, hLen, salt, iterations, keyLen)[p - 0x1_0000_0000 * hLen]
  {
    hide T, Key;
    if p < 0xFFFF_FFFF * hLen {
      WithinBlocks(p, hLen, 0xFFFF_FFFF);
    }
    if p >= 0x1_0000_0000 * hLen {
      var q := p - 0x1_0000_0000 * hLen;
      KeyBytes(f, hLen, salt, iterations, keyLen, p);
      KeyBytes(f, hLen, salt, iterations, keyLen, q);
      Back(p, hLen);
    }
  }

  lemma Back(p: nat, hLen: nat)
    requires hLen >= 1 && p >= 0x1_0000_0000 * hLen
    ensures var q := p - 0x1_0000_0000 * hLen;
      p % hLen == q % hLen && Cut32(p / hLen + 1) == Cut32(q / hLen + 1)
  {
    var q := p - 0x1_0000_0000 * hLen;
    var n := q / hLen;
    assert q == n * hLen + q % hLen;
    assert p == (n + 0x1_0000_0000) * hLen + q % hLen;
    Quotient(p, hLen, n + 0x1_0000_0000, q % hLen);
  }

  lemma Quotient(p: nat, hLen: nat, d: nat, r: nat)
    requires p == d * hLen + r && r < hLen
    ensures p / hLen == d && p % hLen == r
  {
    WithinBlocks(p, hLen, d + 1);
    if p / hLen < d {
      BlockStart(hLen, p / hLen + 1, d);
    }
  }
}
