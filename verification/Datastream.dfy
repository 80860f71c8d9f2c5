/** The 20-byte host-server datastream header, and streams of datastreams. */
module Datastream {
  import opened Wrappers
  import opened Bytes

  const HEADER_LENGTH: nat := 20
  const HOST_SERVER: byte := 0xE0

  datatype Frame = Frame(
    serverID: u16, headerID: u16, correlation: u32, templateLen: u16, reqRepID: u16, body: seq<byte>)

  function Addressing(f: Frame): (b: seq<byte>)
    ensures |b| == 12
  {
    U32(Cut32(HEADER_LENGTH + |f.body|)) + U16(f.headerID) + U16(f.serverID) + Zeros(4)
  }

  function Opcode(f: Frame): (b: seq<byte>)
    ensures |b| == 8
  {
    U32(f.correlation) + U16(f.templateLen) + U16(f.reqRepID)
  }

  function Header(f: Frame): (b: seq<byte>)
    ensures |b| == HEADER_LENGTH
  {
    Addressing(f) + Opcode(f)
  }

  function Encode(f: Frame): seq<byte> {
    Header(f) + f.body
  }

  method EncodeFrame(f: Frame) returns (buf: seq<byte>)
    ensures buf == Encode(f)
  {
    hide Addressing, Opcode, Zeros;
    var b := new byte[HEADER_LENGTH + |f.body|](_ => 0);
    AllZeros(b[..]);
    FillAddressing(b, f);
    FillOpcode(b, Addressing(f), f);
    Fill(b, HEADER_LENGTH, Header(f), f.body);
    AllZeros(Zeros(0));
    return b[..];
  }

  method FillAddressing(b: array<byte>, f: Frame)
    requires b.Length == HEADER_LENGTH + |f.body| && b[..] == Zeros(b.Length)
    modifies b
    ensures b[..] == Addressing(f) + Zeros(b.Length - 12)
  {
    hide U16, U32, Zeros;
    var length := U32(Cut32(b.Length));
    assert b[..] == [] + Zeros(b.Length);
    Fill(b, 0, [], length);
    assert [] + length == length;
    Fill(b, 4, length, U16(f.headerID));
    Fill(b, 6, length + U16(f.headerID), U16(f.serverID));
    SplitZeros(b.Length - 8, 4);   // the CS instance is never set
  }

  method FillOpcode(b: array<byte>, ghost done: seq<byte>, f: Frame)
    requires |done| == 12 && b.Length >= HEADER_LENGTH && b[..] == done + Zeros(b.Length - 12)
    modifies b
    ensures b[..] == done + Opcode(f) + Zeros(b.Length - HEADER_LENGTH)
  {
    hide U16, U32, Zeros;
    Fill(b, 12, done, U32(f.correlation));
    Fill(b, 16, done + U32(f.correlation), U16(f.templateLen));
    Fill(b, 18, done + U32(f.correlation) + U16(f.templateLen), U16(f.reqRepID));
  }

  /** The fields a header holds, and the length it declares. */
  function Fields(h: seq<byte>, body: seq<byte>): Frame
    requires |h| == HEADER_LENGTH
  {
    Frame(Get16(h[6..8]), Get16(h[4..6]), Get32(h[12..16]), Get16(h[16..18]), Get16(h[18..20]), body)
  }

  function DeclaredLength(h: seq<byte>): u32
    requires |h| == HEADER_LENGTH
  {
    Get32(h[..4])
  }

  /** Reading one datastream off the front of what a stream holds: the datastream and how many bytes were taken. */
  function Read(s: seq<byte>): (r: (Option<Frame>, nat))
    ensures r.1 <= |s|
  {
    if |s| < HEADER_LENGTH then (None, |s|)
    else
      var h := s[..HEADER_LENGTH];
      var length := DeclaredLength(h);
      if h[6] != HOST_SERVER || length < HEADER_LENGTH then (None, HEADER_LENGTH)
      else if |s| < length then (None, |s|)
      else (Some(Fields(h, s[HEADER_LENGTH..length])), length)
  }

  /** A byte stream with a read position. */
  class Reader {
    const data: seq<byte>
    var pos: nat

    ghost predicate Valid()
      reads this
    {
      pos <= |data|
    }

    constructor (data: seq<byte>)
      ensures Valid() && this.data == data && pos == 0
    {
      this.data, pos := data, 0;
    }

    /** io.ReadFull: exactly n bytes, or failure with the stream used up. */
    method ReadFull(n: nat) returns (r: Option<seq<byte>>)
      requires Valid()
      modifies this
      ensures Valid()
      ensures
        if old(pos) + n <= |data| then pos == old(pos) + n && r == Some(data[old(pos)..pos])
        else pos == |data| && r.None?
    {
      if pos + n <= |data| {
        r := Some(data[pos..pos + n]);
        pos := pos + n;
      } else {
        r, pos := None, |data|;
      }
    }

    method ReadReply() returns (r: Option<Frame>)
      requires Valid()
      modifies this
      ensures Valid()
      ensures (r, pos - old(pos)) == Read(data[old(pos)..])
    {
      ghost var s := data[pos..];
      ghost var start := pos;
      var hdr := ReadFull(HEADER_LENGTH);
      if hdr.None? {
        return None;
      }
      assert hdr.value == s[..HEADER_LENGTH];
      if hdr.value[6] != HOST_SERVER {
        return None;
      }
      var length := DeclaredLength(hdr.value);
      if length < HEADER_LENGTH {
        return None;
      }
      var body: seq<byte> := [];
      if length > HEADER_LENGTH {
        var b := ReadFull(length - HEADER_LENGTH);
        if b.None? {
          return None;
        }
        body := b.value;
      }
      assert body == s[HEADER_LENGTH..length];
      return Some(Fields(hdr.value, body));
    }
  }

  // ----- Framing -----

  /** Whether a datastream says what it is: its length fits and it goes to a host server. */
  predicate Framed(f: Frame) {
    HEADER_LENGTH + |f.body| < 0x1_0000_0000 && f.serverID / 0x100 == HOST_SERVER
  }

  lemma HeaderFields(f: Frame, s: seq<byte>)
    requires |s| >= HEADER_LENGTH && s[..HEADER_LENGTH] == Header(f)
    ensures Fields(s[..HEADER_LENGTH], f.body) == f
    ensures DeclaredLength(s[..HEADER_LENGTH]) == Cut32(HEADER_LENGTH + |f.body|)
    ensures s[..HEADER_LENGTH][6] == f.serverID / 0x100
  {
    var h := s[..HEADER_LENGTH];
    assert h[..12] == Addressing(f) && h[12..] == Opcode(f);
    assert h[..4] == U32(Cut32(HEADER_LENGTH + |f.body|)) && h[4..6] == U16(f.headerID) && h[6..8] == U16(f.serverID);
    assert h[12..16] == U32(f.correlation) && h[16..18] == U16(f.templateLen) && h[18..20] == U16(f.reqRepID);
    GetU32(Cut32(HEADER_LENGTH + |f.body|));
    GetU32(f.correlation);
    assert h[6] == h[6..8][0];
  }

  /** A datastream is read back, with nothing of what follows it, exactly when it is Framed. */
  lemma ReadEncode(f: Frame, rest: seq<byte>)
    ensures Read(Encode(f) + rest) == (Some(f), |Encode(f)|) <==> Framed(f)
  {
    var s := Encode(f) + rest;
    assert s[..HEADER_LENGTH] == Header(f);
    HeaderFields(f, s);
    if Framed(f) {
      assert s[HEADER_LENGTH..HEADER_LENGTH + |f.body|] == f.body;
    }
  }

  function EncodeAll(fs: seq<Frame>): seq<byte> {
    if fs == [] then [] else Encode(fs[0]) + EncodeAll(fs[1..])
  }

  /** Every datastream in s, if s is a sequence of whole ones. */
  function ReadAll(s: seq<byte>): Option<seq<Frame>>
    decreases |s|
  {
    if s == [] then Some([])
    else
      var (f, n) := Read(s);
      if f.None? || n == 0 then None
      else
        var rest := ReadAll(s[n..]);
        if rest.None? then None else Some([f.value] + rest.value)
  }

  predicate AllFramed(fs: seq<Frame>) {
    forall i :: 0 <= i < |fs| ==> Framed(fs[i])
  }

  lemma {:induction false} ReadAllEncodeAll(fs: seq<Frame>)
    requires AllFramed(fs)
    ensures ReadAll(EncodeAll(fs)) == Some(fs)
  {
    if fs != [] {
      ReadEncode(fs[0], EncodeAll(fs[1..]));
      ReadAllEncodeAll(fs[1..]);
      assert (Encode(fs[0]) + EncodeAll(fs[1..]))[|Encode(fs[0])|..] == EncodeAll(fs[1..]);
      assert fs == [fs[0]] + fs[1..];
    }
  }

  /**
   * The bytes of a datastream: its whole length in four, header ID and server
   * ID in two each, four zeros, the correlation in four, template length and
   * code in two each, and the body.
   */
  lemma FrameBytes(f: Frame)
    requires Framed(f)
    ensures var b := Encode(f);
      && |b| == 20 + |f.body| && Spelt(b, 0, 4) == |b|
      && Spelt(b, 4, 2) == f.headerID && Spelt(b, 6, 2) == f.serverID && b[8..12] == [0, 0, 0, 0]
      && Spelt(b, 12, 4) == f.correlation && Spelt(b, 16, 2) == f.templateLen && Spelt(b, 18, 2) == f.reqRepID
      && b[20..] == f.body
  {
    hide U16, U32;
    var b := Encode(f);
    assert b[0..4] == U32(20 + |f.body|) && b[4..6] == U16(f.headerID) && b[6..8] == U16(f.serverID);
    assert b[12..16] == U32(f.correlation) && b[16..18] == U16(f.templateLen) && b[18..20] == U16(f.reqRepID);
    FrameSpells(f, b);
  }

  lemma FrameSpells(f: Frame, b: seq<byte>)
    requires |b| == 20 + |f.body| < 0x1_0000_0000
    requires b[0..4] == U32(20 + |f.body|) && b[4..6] == U16(f.headerID) && b[6..8] == U16(f.serverID)
    requires b[12..16] == U32(f.correlation) && b[16..18] == U16(f.templateLen) && b[18..20] == U16(f.reqRepID)
    ensures Spelt(b, 0, 4) == |b| && Spelt(b, 4, 2) == f.headerID && Spelt(b, 6, 2) == f.serverID
    ensures Spelt(b, 12, 4) == f.correlation && Spelt(b, 16, 2) == f.templateLen && Spelt(b, 18, 2) == f.reqRepID
  {
    hide U16, U32, Spelt;
    SpeltFour(b, 0, 20 + |f.body|);
    SpeltPair(b, 4, f.headerID);
    SpeltPair(b, 6, f.serverID);
    SpeltFour(b, 12, f.correlation);
    SpeltPair(b, 16, f.templateLen);
    SpeltPair(b, 18, f.reqRepID);
  }
}
