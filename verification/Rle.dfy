/** The run-length compression of as-rmtcmd output parameters. */
module Rle {
  import opened Wrappers
  import opened Bytes

  const ESCAPE: byte := 0x1B

  /** A record of compressed data. */
  datatype Record =
    | Literal(b: byte)
    | Escaped
    | Repeat(b1: byte, b2: byte, count: u16)

  predicate WellFormed(r: Record) {
    match r
    case Literal(b) => b != ESCAPE
    case Escaped => true
    case Repeat(b1, _, _) => b1 != ESCAPE
  }

  predicate AllWellFormed(rs: seq<Record>) {
    forall i :: 0 <= i < |rs| ==> WellFormed(rs[i])
  }

  function Pairs(b1: byte, b2: byte, n: nat): (r: seq<byte>)
    ensures |r| == 2 * n
    ensures forall i :: 0 <= i < |r| ==> r[i] == if i % 2 == 0 then b1 else b2
  {
    if n == 0 then [] else Pairs(b1, b2, n - 1) + [b1, b2]
  }

  /** What a record stands for. */
  function Expand(r: Record): seq<byte> {
    match r
    case Literal(b) => [b]
    case Escaped => [ESCAPE]
    case Repeat(b1, b2, count) => Pairs(b1, b2, count)
  }

  function ExpandAll(rs: seq<Record>): seq<byte> {
    if rs == [] then [] else Expand(rs[0]) + ExpandAll(rs[1..])
  }

  /** How a record is written. */
  function Render(r: Record): (b: seq<byte>)
    ensures |b| >= 1
  {
    match r
    case Literal(b) => [b]
    case Escaped => [ESCAPE, ESCAPE]
    case Repeat(b1, b2, count) => [ESCAPE, b1, b2] + U16(count)
  }

  function RenderAll(rs: seq<Record>): seq<byte> {
    if rs == [] then [] else Render(rs[0]) + RenderAll(rs[1..])
  }

  /** The record at the front of b, unless b ends before it does. */
  function First(b: seq<byte>): (r: Option<Record>)
    requires b != []
    ensures r.Some? ==> WellFormed(r.value) && Render(r.value) <= b
  {
    if b[0] != ESCAPE then Some(Literal(b[0]))
    else if |b| < 2 then None
    else if b[1] == ESCAPE then Some(Escaped)
    else if |b| < 5 then None
    else
      U16Get(b[3..5]);
      assert b[..5] == [ESCAPE, b[1], b[2]] + b[3..5];
      Some(Repeat(b[1], b[2], Get16(b[3..5])))
  }

  /** The records of b, if it is made of complete records. */
  function Parse(b: seq<byte>): Option<seq<Record>>
    decreases |b|
  {
    if b == [] then Some([])
    else
      var r := First(b);
      if r.None? then None
      else
        var rest := Parse(b[|Render(r.value)|..]);
        if rest.None? then None else Some([r.value] + rest.value)
  }

  /** What the decompressor makes of b. */
  function Decompressed(b: seq<byte>): Option<seq<byte>> {
    var rs := Parse(b);
    if rs.None? then None else Some(ExpandAll(rs.value))
  }

  // ----- Parsing -----

  lemma FirstRender(r: Record, rest: seq<byte>)
    requires WellFormed(r)
    ensures First(Render(r) + rest) == Some(r)
  {
    var b := Render(r) + rest;
    if r.Repeat? {
      assert b[3..5] == U16(r.count);
      GetU16(r.count);
    }
  }

  /** Well-formed records are recovered from their bytes; so no two lists of them are written alike. */
  lemma {:induction false} ParseRender(rs: seq<Record>)
    requires AllWellFormed(rs)
    ensures Parse(RenderAll(rs)) == Some(rs)
  {
    if rs != [] {
      FirstRender(rs[0], RenderAll(rs[1..]));
      ParseRender(rs[1..]);
      assert (Render(rs[0]) + RenderAll(rs[1..]))[|Render(rs[0])|..] == RenderAll(rs[1..]);
      assert rs == [rs[0]] + rs[1..];
    }
  }

  /** Whatever parses is the rendering of what it parses to. */
  lemma {:induction false} RenderParse(b: seq<byte>)
    requires Parse(b).Some?
    ensures AllWellFormed(Parse(b).value) && RenderAll(Parse(b).value) == b
    decreases |b|
  {
    hide Render, WellFormed, First;
    if b != [] {
      var r := First(b).value;
      var n := |Render(r)|;
      FirstIsPrefix(b);
      RenderParse(b[n..]);
      var rest := Parse(b[n..]).value;
      assert ([r] + rest)[1..] == rest;
      assert b[..n] + b[n..] == b;
    }
  }

  lemma FirstIsPrefix(b: seq<byte>)
    requires b != [] && First(b).Some?
    ensures var r := First(b).value;
      WellFormed(r) && |Render(r)| <= |b| && b[..|Render(r)|] == Render(r)
  {
  }

  /** The decompressor succeeds exactly on complete records, whose expansion it returns; and the records are unique. */
  lemma DecompressesRecords(b: seq<byte>, out: seq<byte>)
    ensures Decompressed(b) == Some(out) <==>
            exists rs :: AllWellFormed(rs) && RenderAll(rs) == b && ExpandAll(rs) == out
    ensures forall rs, rs' ::
              AllWellFormed(rs) && AllWellFormed(rs') && RenderAll(rs) == RenderAll(rs') == b ==> rs == rs'
  {
    if Parse(b).Some? {
      RenderParse(b);
    }
    forall rs | AllWellFormed(rs) && RenderAll(rs) == b ensures Parse(b) == Some(rs) {
      ParseRender(rs);
    }
  }

  /** A compression of any data, if a poor one. */
  function Escape(data: seq<byte>): (rs: seq<Record>)
    ensures |rs| == |data|
  {
    seq(|data|, i requires 0 <= i < |data| => if data[i] == ESCAPE then Escaped else Literal(data[i]))
  }

  /** Every byte string is the decompression of something. */
  lemma {:induction false} EverythingCompresses(data: seq<byte>)
    ensures Decompressed(RenderAll(Escape(data))) == Some(data)
  {
    ParseRender(Escape(data));
    ExpandEscape(data);
  }

  lemma {:induction false} ExpandEscape(data: seq<byte>)
    ensures ExpandAll(Escape(data)) == data
  {
    if data != [] {
      assert Escape(data)[1..] == Escape(data[1..]);
      ExpandEscape(data[1..]);
    }
  }

  // ----- The loop -----

  /**
   * decompressRLE. The stated length only sizes the destination: the result
   * does not depend on it.
   */
  method Decompress(source: seq<byte>, statedLength: nat) returns (r: Option<seq<byte>>)
    ensures r == Decompressed(source)
  {
    var dest: seq<byte> := [];
    var i := 0;
    NothingLeft([]);
    hide Decompressed, First, Get16, Pairs, After;
    assert source[0..] == source;
    NoneYet(source);
    while i < |source|
      invariant i <= |source|
      invariant Decompressed(source) == After(dest, Decompressed(source[i..]))
    {
      if source[i] != ESCAPE {
        LiteralDone(dest, source, i);
        dest := dest + [source[i]];
        i := i + 1;
      } else if i + 1 >= |source| {
        CutShort(dest, source, i);
        return None;
      } else if source[i + 1] == ESCAPE {
        EscapedDone(dest, source, i);
        dest := dest + [ESCAPE];
        i := i + 2;
      } else if i + 4 >= |source| {
        CutShort(dest, source, i);
        return None;
      } else {
        var b1, b2 := source[i + 1], source[i + 2];
        var count := Get16(source[i + 3..i + 5]);
        RepeatDone(dest, source, i);
        dest := AppendPairs(dest, b1, b2, count);
        i := i + 5;
      }
    }
    assert source[i..] == [];
    NothingLeft(dest);
    return Some(dest);
  }

  /** The inner loop. */
  method AppendPairs(dest: seq<byte>, b1: byte, b2: byte, count: nat) returns (more: seq<byte>)
    ensures more == dest + Pairs(b1, b2, count)
  {
    more := dest;
    for k := 0 to count
      invariant more == dest + Pairs(b1, b2, k)
    {
      more := more + [b1, b2];
    }
  }

  function After(done: seq<byte>, rest: Option<seq<byte>>): Option<seq<byte>> {
    if rest.None? then None else Some(done + rest.value)
  }

  lemma NoneYet(b: seq<byte>)
    ensures Decompressed(b) == After([], Decompressed(b))
  {
    if Decompressed(b).Some? {
      assert [] + Decompressed(b).value == Decompressed(b).value;
    }
  }

  /** Having decompressed the first record of b. */
  lemma RecordDone(done: seq<byte>, b: seq<byte>, r: Record)
    requires b != [] && First(b) == Some(r)
    ensures After(done, Decompressed(b)) == After(done + Expand(r), Decompressed(b[|Render(r)|..]))
  {
    hide First, Expand, Render;
    var rest := Parse(b[|Render(r)|..]);
    if rest.Some? {
      assert ([r] + rest.value)[1..] == rest.value;
      assert done + (Expand(r) + ExpandAll(rest.value)) == done + Expand(r) + ExpandAll(rest.value);
    }
  }

  lemma NothingLeft(done: seq<byte>)
    ensures Decompressed([]) == Some([]) && After(done, Decompressed([])) == Some(done)
  {
    assert done + [] == done;
  }

  lemma CutShort(done: seq<byte>, b: seq<byte>, i: nat)
    requires i < |b| && b[i] == ESCAPE && (i + 1 < |b| ==> b[i + 1] != ESCAPE && i + 4 >= |b|)
    ensures After(done, Decompressed(b[i..])) == None
  {
  }

  lemma LiteralDone(done: seq<byte>, b: seq<byte>, i: nat)
    requires i < |b| && b[i] != ESCAPE
    ensures After(done, Decompressed(b[i..])) == After(done + [b[i]], Decompressed(b[i + 1..]))
  {
    hide Decompressed, After;
    RecordDone(done, b[i..], Literal(b[i]));
    assert b[i..][1..] == b[i + 1..];
  }

  lemma EscapedDone(done: seq<byte>, b: seq<byte>, i: nat)
    requires i + 1 < |b| && b[i] == b[i + 1] == ESCAPE
    ensures After(done, Decompressed(b[i..])) == After(done + [ESCAPE], Decompressed(b[i + 2..]))
  {
    hide Decompressed, After;
    RecordDone(done, b[i..], Escaped);
    assert b[i..][2..] == b[i + 2..];
  }

  lemma RepeatDone(done: seq<byte>, b: seq<byte>, i: nat)
    requires i + 4 < |b| && b[i] == ESCAPE && b[i + 1] != ESCAPE
    ensures After(done, Decompressed(b[i..]))
         == After(done + Pairs(b[i + 1], b[i + 2], Get16(b[i + 3..i + 5])), Decompressed(b[i + 5..]))
  {
    hide Decompressed, After, Pairs, Get16;
    assert b[i..][3..5] == b[i + 3..i + 5];
    RecordDone(done, b[i..], Repeat(b[i + 1], b[i + 2], Get16(b[i + 3..i + 5])));
    assert b[i..][5..] == b[i + 5..];
  }

  // ----- In bytes -----

  lemma FirstRecord(b: seq<byte>, r: Record)
    requires b != [] && First(b) == Some(r)
    ensures Decompressed(b) == After(Expand(r), Decompressed(b[|Render(r)|..]))
  {
    hide Decompressed, First, Expand, Render;
    NoneYet(b);
    RecordDone([], b, r);
    assert [] + Expand(r) == Expand(r);
  }

  /** Any byte but 0x1B stands for itself, and 0x1B 0x1B for one 0x1B. */
  lemma LiteralBytes(b: byte, rest: seq<byte>)
    ensures Decompressed([]) == Some([])
    ensures b != 0x1B ==> Decompressed([b] + rest) == After([b], Decompressed(rest))
    ensures Decompressed([0x1B, 0x1B] + rest) == After([0x1B], Decompressed(rest))
  {
    hide Decompressed;
    NothingLeft([]);
    if b != 0x1B {
      FirstRecord([b] + rest, Literal(b));
      assert ([b] + rest)[1..] == rest;
    }
    FirstRecord([0x1B, 0x1B] + rest, Escaped);
    assert ([0x1B, 0x1B] + rest)[2..] == rest;
  }

  /** 0x1B, two bytes of which the first is not 0x1B, and a count: the two bytes, that many times. */
  lemma RepeaterBytes(b1: byte, b2: byte, hi: byte, lo: byte, rest: seq<byte>)
    requires b1 != 0x1B
    ensures Decompressed([0x1B, b1, b2, hi, lo] + rest)
         == After(Pairs(b1, b2, hi as int * 256 + lo as int), Decompressed(rest))
  {
    hide Decompressed;
    var b := [0x1B, b1, b2, hi, lo] + rest;
    assert b[3..5] == [hi, lo];
    FirstRecord(b, Repeat(b1, b2, Get16([hi, lo])));
    assert b[5..] == rest;
  }

  /** A record that is cut off is refused: 0x1B alone, or with less than four bytes behind it and no second 0x1B. */
  lemma CutOffBytes(b: seq<byte>)
    requires 1 <= |b| < 5 && b[0] == 0x1B && (|b| > 1 ==> b[1] != 0x1B)
    ensures Decompressed(b) == None
  {
  }
}
