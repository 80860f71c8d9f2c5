/** LL/CP parameters: a 4-byte length, a 2-byte code point, and the data. */
module Params {
  import opened Wrappers
  import opened Bytes

  datatype Param = Param(codePoint: u16, data: seq<byte>)

  const PREFIX: nat := 6

  /** Whether the length of an entry fits its length field. */
  predicate Fits(p: Param) {
    PREFIX + |p.data| < 0x1_0000_0000
  }

  predicate AllFit(ps: seq<Param>) {
    forall i :: 0 <= i < |ps| ==> Fits(ps[i])
  }

  function Entry(p: Param): (b: seq<byte>)
    ensures |b| == PREFIX + |p.data|
  {
    U32(Cut32(PREFIX + |p.data|)) + U16(p.codePoint) + p.data
  }

  function Encode(ps: seq<Param>): seq<byte> {
    if ps == [] then [] else Entry(ps[0]) + Encode(ps[1..])
  }

  /** The first entry of b and its length, or nothing if b does not start with a whole entry. */
  function First(b: seq<byte>): (r: Option<(Param, nat)>)
    ensures r.Some? ==> PREFIX <= r.value.1 <= |b| && PREFIX + |r.value.0.data| == r.value.1
  {
    if |b| < PREFIX then None
    else
      var ll := Get32(b[..4]);
      if ll < PREFIX || ll > |b| then None
      else Some((Param(Get16(b[4..6]), b[PREFIX..ll]), ll))
  }

  function Decode(b: seq<byte>): Option<seq<Param>>
    decreases |b|
  {
    if b == [] then Some([])
    else
      var p := First(b);
      if p.None? then None
      else Prepend([p.value.0], Decode(b[p.value.1..]))
  }

  function Prepend(ps: seq<Param>, rest: Option<seq<Param>>): Option<seq<Param>> {
    if rest.None? then None else Some(ps + rest.value)
  }

  method EncodeParams(ps: seq<Param>) returns (buf: seq<byte>)
    ensures buf == Encode(ps)
  {
    buf := [];
    for i := 0 to |ps|
      invariant buf + Encode(ps[i..]) == Encode(ps)
    {
      var p := ps[i];
      var entry := new byte[PREFIX + |p.data|](_ => 0);
      Put(entry, 0, U32(Cut32(entry.Length)));
      Put(entry, 4, U16(p.codePoint));
      Put(entry, PREFIX, p.data);
      assert entry[..] == entry[..entry.Length] == Entry(p);
      assert ps[i..][1..] == ps[i + 1..];
      assert buf + (Entry(p) + Encode(ps[i + 1..])) == buf + Entry(p) + Encode(ps[i + 1..]);
      buf := buf + entry[..];
    }
    assert buf + [] == buf;
  }

  method DecodeParams(b: seq<byte>) returns (r: Option<seq<Param>>)
    ensures r == Decode(b)
  {
    var params: seq<Param> := [];
    var offset := 0;
    assert b[0..] == b;
    assert Prepend([], Decode(b)) == Decode(b) by {
      if Decode(b).Some? {
        assert [] + Decode(b).value == Decode(b).value;
      }
    }
    while offset < |b|
      invariant offset <= |b|
      invariant Decode(b) == Prepend(params, Decode(b[offset..]))
    {
      var rest := b[offset..];
      if offset + PREFIX > |b| {
        return None;
      }
      var ll := Get32(b[offset..offset + 4]);
      SliceOfRest(b, offset, 0, 4);
      if ll < PREFIX || offset + ll > |b| {
        return None;
      }
      var p := Param(Get16(b[offset + 4..offset + 6]), b[offset + PREFIX..offset + ll]);
      SliceOfRest(b, offset, 4, 6);
      SliceOfRest(b, offset, PREFIX, ll);
      assert rest[ll..] == b[offset + ll..];
      PrependTwice(params, p, Decode(rest[ll..]));
      params := params + [p];
      offset := offset + ll;
    }
    assert b[offset..] == [] && params + [] == params;
    return Some(params);
  }

  lemma PrependTwice(ps: seq<Param>, p: Param, rest: Option<seq<Param>>)
    ensures Prepend(ps, Prepend([p], rest)) == Prepend(ps + [p], rest)
  {
    if rest.Some? {
      assert ps + ([p] + rest.value) == ps + [p] + rest.value;
    }
  }

  /** The data of the first parameter with the given code point. */
  method Find(ps: seq<Param>, cp: u16) returns (r: Option<seq<byte>>)
    ensures r.None? <==> forall i :: 0 <= i < |ps| ==> ps[i].codePoint != cp
    ensures r.Some? ==>
      exists i :: 0 <= i < |ps| && ps[i] == Param(cp, r.value) && forall j :: 0 <= j < i ==> ps[j].codePoint != cp
  {
    for i := 0 to |ps|
      invariant forall j :: 0 <= j < i ==> ps[j].codePoint != cp
    {
      if ps[i].codePoint == cp {
        assert ps[i] == Param(cp, ps[i].data);
        return Some(ps[i].data);
      }
    }
    return None;
  }

  // ----- LL/CP is a bijection -----

  /** Reading back one entry: exactly what was written if its length fits, and something shorter or nothing if not. */
  lemma FirstOfEntry(p: Param, rest: seq<byte>)
    ensures var r := First(Entry(p) + rest);
      if Fits(p) then r == Some((p, |Entry(p)|)) else r.None? || r.value.0 != p
  {
    var b := Entry(p) + rest;
    GetU32(Cut32(PREFIX + |p.data|));
    GetU16(p.codePoint);
    assert b[..4] == U32(Cut32(PREFIX + |p.data|)) && b[4..6] == U16(p.codePoint);
    assert b[PREFIX..PREFIX + |p.data|] == p.data;
  }

  /** A list of parameters survives the wire exactly when each length fits its field. */
  lemma {:induction false} DecodeEncode(ps: seq<Param>)
    ensures Decode(Encode(ps)) == Some(ps) <==> AllFit(ps)
  {
    if ps != [] {
      DecodeEncode(ps[1..]);
      FirstOfEntry(ps[0], Encode(ps[1..]));
      assert ps == [ps[0]] + ps[1..];
      assert (Entry(ps[0]) + Encode(ps[1..]))[|Entry(ps[0])|..] == Encode(ps[1..]);
      assert AllFit(ps) <==> Fits(ps[0]) && AllFit(ps[1..]) by {
        assert forall i :: 0 < i < |ps| ==> ps[i] == ps[1..][i - 1];
        assert forall i :: 0 <= i < |ps| - 1 ==> ps[1..][i] == ps[i + 1];
      }
    }
  }

  /** The bytes an entry was read from are the bytes that would be written for it. */
  lemma EntryOfFirst(b: seq<byte>)
    requires First(b).Some?
    ensures var (p, ll) := First(b).value; Fits(p) && Entry(p) == b[..ll]
  {
    hide Get16, Get32, U16, U32;
    var (p, ll) := First(b).value;
    U32Get(b[..4]);
    U16Get(b[4..6]);
    assert b[..ll] == b[..4] + b[4..6] + b[PREFIX..ll];
  }

  /** Whatever decodes is the encoding of what it decodes to. */
  lemma {:induction false} EncodeDecode(b: seq<byte>)
    requires Decode(b).Some?
    ensures Encode(Decode(b).value) == b && AllFit(Decode(b).value)
    decreases |b|
  {
    hide First, Entry, Fits;
    if b != [] {
      EntryOfFirst(b);
      var (p, ll) := First(b).value;
      var rest := Decode(b[ll..]).value;
      EncodeDecode(b[ll..]);
      assert ([p] + rest)[1..] == rest;
      assert b[..ll] + b[ll..] == b;
    }
  }

  /** The bytes of an entry: its whole length in four, its code point in two, and the data. */
  lemma EntryBytes(p: Param)
    requires Fits(p)
    ensures var b := Encode([p]);
      && |b| == 6 + |p.data| && Spelt(b, 0, 4) == |b| && Spelt(b, 4, 2) == p.codePoint && b[6..] == p.data
  {
    hide U16, U32;
    var b := Entry(p);
    assert [p][1..] == [];
    assert Encode([p]) == b + [] == b;
    assert b[0..4] == U32(6 + |p.data|) && b[4..6] == U16(p.codePoint);
    SpeltFour(b, 0, 6 + |p.data|);
    SpeltPair(b, 4, p.codePoint);
  }
}
