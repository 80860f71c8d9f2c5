/** The super-extended data format, whose fields are named in a variable-length area of their own. */
module SuperFormat {
  import opened Wrappers
  import opened Bytes
  import opened DataFormat

  const SUPER_FIELD_LENGTH: nat := 48
  const NAME: u16 := 0x3840
  const ENTRY_HEAD: nat := 8

  type Name = Option<(u16, seq<byte>)>

  /** The entry at a position of the variable information, and its length, if all of it is there. */
  function EntryAt(d: seq<byte>, at: nat): (r: Option<nat>)
    ensures r.Some? ==> ENTRY_HEAD <= r.value && at + r.value <= |d|
  {
    if at + ENTRY_HEAD > |d| then None
    else
      var ll := Get32(d[at..at + 4]);
      if ll < ENTRY_HEAD || at + ll > |d| then None else Some(ll)
  }

  /** The first name entry from pos on, within the declared length of the information at start. */
  function NameFrom(d: seq<byte>, start: nat, varLength: nat, pos: nat): Name
    decreases |d| + 1 - start - pos
  {
    if pos + ENTRY_HEAD > varLength then None
    else
      var ll := EntryAt(d, start + pos);
      if ll.None? then None
      else
        var at := start + pos;
        if Get16(d[at + 4..at + 6]) == NAME then Some((Get16(d[at + 6..at + 8]), d[at + ENTRY_HEAD..at + ll.value]))
        else NameFrom(d, start, varLength, pos + ll.value)
  }

  function SuperBase(i: nat): nat {
    FORMAT_HEADER_LENGTH + i * SUPER_FIELD_LENGTH
  }

  function SuperFieldAt(d: seq<byte>, i: nat): Field
    requires SuperBase(i + 1) <= |d|
  {
    var base := SuperBase(i);
    var b := d[base..SuperBase(i + 1)];
    Field(Get16(b[2..4]), Get32(b[4..8]), Get16(b[8..10]), Get16(b[10..12]), Get16(b[12..14]),
          NameFrom(d, base + Get32(b[32..36]), Get32(b[36..40]), 0))
  }

  function SuperFormatOf(d: seq<byte>): Option<Format> {
    if |d| < FORMAT_HEADER_LENGTH || SuperBase(DeclaredFields(d)) > |d| then None
    else
      Some(Format(
        seq(DeclaredFields(d), i requires 0 <= i < DeclaredFields(d) => SuperFieldAt(d, i)),
        Get32(d[12..16])))
  }

  /** The scan for a field's name: whatever the lengths say, it ends and stays within d. */
  method ScanForName(d: seq<byte>, base: nat, varOffset: nat, varLength: nat) returns (name: Name)
    ensures name == NameFrom(d, base + varOffset, varLength, 0)
  {
    hide Get16, Get32;
    name := None;
    var pos := 0;
    while pos + ENTRY_HEAD <= varLength
      invariant NameFrom(d, base + varOffset, varLength, 0) == NameFrom(d, base + varOffset, varLength, pos)
      decreases varLength - pos
    {
      var entry := base + varOffset + pos;
      if entry + ENTRY_HEAD > |d| {
        break;
      }
      var ll := Get32(d[entry..entry + 4]);
      if ll < ENTRY_HEAD || entry + ll > |d| {
        break;
      }
      if Get16(d[entry + 4..entry + 6]) == NAME {
        return Some((Get16(d[entry + 6..entry + 8]), d[entry + ENTRY_HEAD..entry + ll]));
      }
      pos := pos + ll;
    }
  }

  method ParseSuperExtendedFormat(d: seq<byte>) returns (r: Option<Format>)
    ensures r == SuperFormatOf(d)
  {
    hide Get16, Get32, NameFrom;
    if |d| < FORMAT_HEADER_LENGTH {
      return None;
    }
    var n := DeclaredFields(d);
    if FORMAT_HEADER_LENGTH + n * SUPER_FIELD_LENGTH > |d| {
      return None;
    }
    var fields: seq<Field> := [];
    for i := 0 to n
      invariant |fields| == i
      invariant forall j :: 0 <= j < i ==> fields[j] == SuperFieldAt(d, j)
    {
      var base := SuperBase(i);
      var b := d[base..base + SUPER_FIELD_LENGTH];
      var name := ScanForName(d, base, Get32(b[32..36]), Get32(b[36..40]));
      fields := fields + [
        Field(Get16(b[2..4]), Get32(b[4..8]), Get16(b[8..10]), Get16(b[10..12]), Get16(b[12..14]), name)];
    }
    assert fields == seq(DeclaredFields(d), i requires 0 <= i < DeclaredFields(d) => SuperFieldAt(d, i));
    return Some(Format(fields, Get32(d[12..16])));
  }

  // ----- Variable information as it is written -----

  datatype Info = Info(code: u16, ccsid: u16, text: seq<byte>)

  predicate Fits(e: Info) {
    ENTRY_HEAD + |e.text| < 0x1_0000_0000
  }

  predicate AllFit(es: seq<Info>) {
    forall i :: 0 <= i < |es| ==> Fits(es[i])
  }

  function Render(e: Info): (b: seq<byte>)
    requires Fits(e)
    ensures |b| == ENTRY_HEAD + |e.text|
  {
    U32(ENTRY_HEAD + |e.text|) + U16(e.code) + U16(e.ccsid) + e.text
  }

  function RenderAll(es: seq<Info>): seq<byte>
    requires AllFit(es)
  {
    if es == [] then [] else Render(es[0]) + RenderAll(es[1..])
  }

  /** The name among these, if there is one: the first entry with code point 0x3840. */
  ghost predicate IsName(es: seq<Info>, name: Name) {
    match name
    case None => forall i :: 0 <= i < |es| ==> es[i].code != 0x3840
    case Some((ccsid, text)) =>
      exists i :: 0 <= i < |es| && es[i] == Info(0x3840, ccsid, text) && forall j :: 0 <= j < i ==> es[j].code != 0x3840
  }

  lemma RenderedEntry(a: seq<byte>, e: Info, c: seq<byte>)
    requires Fits(e)
    ensures var d := a + Render(e) + c;
      && EntryAt(d, |a|) == Some(|Render(e)|)
      && Get16(d[|a| + 4..|a| + 6]) == e.code && Get16(d[|a| + 6..|a| + 8]) == e.ccsid
      && d[|a| + ENTRY_HEAD..|a| + |Render(e)|] == e.text
  {
    hide Get16, Get32, U16, U32;
    var d, r := a + Render(e) + c, Render(e);
    RenderParts(e);
    assert d[|a|..|a| + |r|] == r;
    assert d[|a|..|a| + 4] == r[..4] && d[|a| + 4..|a| + 6] == r[4..6] && d[|a| + 6..|a| + 8] == r[6..8];
    assert d[|a| + ENTRY_HEAD..|a| + |r|] == r[ENTRY_HEAD..];
    GetU32(ENTRY_HEAD + |e.text|);
    GetU16(e.code);
    GetU16(e.ccsid);
  }

  lemma RenderParts(e: Info)
    requires Fits(e)
    ensures var r := Render(e);
      && r[..4] == U32(ENTRY_HEAD + |e.text|) && r[4..6] == U16(e.code)
      && r[6..8] == U16(e.ccsid) && r[ENTRY_HEAD..] == e.text
  {
  }

  /** Of well-formed information, wherever in the format it lies, the parser takes exactly the first name. */
  lemma NameIsFound(before: seq<byte>, es: seq<Info>, tail: seq<byte>)
    requires AllFit(es)
    ensures IsName(es, NameFrom(before + RenderAll(es) + tail, |before|, |RenderAll(es)|, 0))
  {
    hide NameFrom, RenderAll;
    assert before + [] == before;
    assert before + RenderAll(es) + tail == before + [] + RenderAll(es) + tail;
    NameIsFoundFrom(before, [], es, tail);
  }

  lemma Regroup(before: seq<byte>, done: seq<byte>, e: seq<byte>, rest: seq<byte>, tail: seq<byte>)
    ensures before + done + (e + rest) + tail == (before + done) + e + (rest + tail)
    ensures before + done + (e + rest) + tail == before + (done + e) + rest + tail
  {
  }

  lemma NameEnd(d: seq<byte>, start: nat, pos: nat)
    ensures NameFrom(d, start, pos, pos) == None
  {
  }

  lemma NameStep(d: seq<byte>, start: nat, varLength: nat, pos: nat, ll: nat)
    requires pos + ll <= varLength && EntryAt(d, start + pos) == Some(ll)
    ensures var at := start + pos;
      NameFrom(d, start, varLength, pos) ==
      if Get16(d[at + 4..at + 6]) == NAME then Some((Get16(d[at + 6..at + 8]), d[at + ENTRY_HEAD..at + ll]))
      else NameFrom(d, start, varLength, pos + ll)
  {
    hide Get16, Get32;
  }

  lemma {:induction false} NameIsFoundFrom(before: seq<byte>, done: seq<byte>, es: seq<Info>, tail: seq<byte>)
    requires AllFit(es)
    ensures IsName(es, NameFrom(before + done + RenderAll(es) + tail, |before|, |done| + |RenderAll(es)|, |done|))
    decreases |es|
  {
    hide EntryAt, Render, Fits, Get16, NameFrom;
    NameEnd(before + done + RenderAll(es) + tail, |before|, |done|);
    if es != [] {
      var e, rest := es[0], RenderAll(es[1..]);
      var d := before + done + RenderAll(es) + tail;
      Regroup(before, done, Render(e), rest, tail);
      RenderedEntry(before + done, e, rest + tail);
      NameStep(d, |before|, |done| + |RenderAll(es)|, |done|, |Render(e)|);
      if e.code == NAME {
        assert es[0] == Info(NAME, e.ccsid, e.text);
      } else {
        NameIsFoundFrom(before, done + Render(e), es[1..], tail);
        NameBehind(es, NameFrom(d, |before|, |done| + |RenderAll(es)|, |done| + |Render(e)|));
      }
    }
  }

  lemma NameBehind(es: seq<Info>, name: Name)
    requires es != [] && es[0].code != NAME && IsName(es[1..], name)
    ensures IsName(es, name)
  {
    if name.Some? {
      var (ccsid, text) := name.value;
      var rest := es[1..];
      var i :|
        0 <= i < |rest| && rest[i] == Info(NAME, ccsid, text) && forall j :: 0 <= j < i ==> rest[j].code != NAME;
      assert es[i + 1] == Info(NAME, ccsid, text);
      assert forall j :: 0 < j < i + 1 ==> es[j] == es[1..][j - 1];
    } else {
      assert forall j :: 0 < j < |es| ==> es[j] == es[1..][j - 1];
    }
  }

  // ----- The whole format as a server lays it out -----

  /** A field as the server describes it; what the client does not look at is in `head`, `middle` and `last`. */
  datatype Described = Described(
    head: seq<byte>, sqlType: u16, length: u32, scale: u16, precision: u16, ccsid: u16,
    middle: seq<byte>, last: seq<byte>, infos: seq<Info>)

  predicate FieldFits(f: Described) {
    && |f.head| == 2 && |f.middle| == 18 && |f.last| == 8
    && AllFit(f.infos) && |RenderAll(f.infos)| < 0x1_0000_0000
  }

  predicate FieldsFit(fs: seq<Described>) {
    forall i :: 0 <= i < |fs| ==> FieldFits(fs[i])
  }

  /** The variable information of the first n fields, one after the other. */
  function Infos(fs: seq<Described>, n: nat): seq<byte>
    requires FieldsFit(fs) && n <= |fs|
  {
    if n == 0 then [] else Infos(fs, n - 1) + RenderAll(fs[n - 1].infos)
  }

  /** How far behind the start of its description the information of field i starts. */
  function Offset(fs: seq<Described>, i: nat): nat
    requires FieldsFit(fs) && i < |fs|
  {
    48 * (|fs| - i) + |Infos(fs, i)|
  }

  predicate LayoutFits(fs: seq<Described>) {
    && |fs| < 0x1_0000_0000 && FieldsFit(fs)
    && forall i :: 0 <= i < |fs| ==> Offset(fs, i) < 0x1_0000_0000
  }

  function FixedPart(f: Described, offset: u32): (b: seq<byte>)
    requires FieldFits(f)
    ensures |b| == 48
  {
    f.head + U16(f.sqlType) + U32(f.length) + U16(f.scale) + U16(f.precision) + U16(f.ccsid)
    + f.middle + U32(offset) + U32(|RenderAll(f.infos)|) + f.last
  }

  function FixedParts(fs: seq<Described>, n: nat): (b: seq<byte>)
    requires LayoutFits(fs) && n <= |fs|
    ensures |b| == 48 * n
  {
    if n == 0 then [] else FixedParts(fs, n - 1) + FixedPart(fs[n - 1], Offset(fs, n - 1))
  }

  /** A header with the number of fields and the record size, the fixed parts, and the variable information. */
  function Layout(token: seq<byte>, reserved: seq<byte>, recordSize: u32, fs: seq<Described>): seq<byte>
    requires |token| == 4 && |reserved| == 4 && LayoutFits(fs)
  {
    token + U32(|fs|) + reserved + U32(recordSize) + FixedParts(fs, |fs|) + Infos(fs, |fs|)
  }

  /** What the parser should make of a described field. */
  ghost predicate IsField(f: Described, r: Field) {
    && r.sqlType == f.sqlType && r.length == f.length && r.scale == f.scale && r.precision == f.precision
    && r.ccsid == f.ccsid && IsName(f.infos, r.name)
  }

  lemma FixedPartReads(f: Described, offset: u32)
    requires FieldFits(f)
    ensures var b := FixedPart(f, offset);
      && Get16(b[2..4]) == f.sqlType && Get32(b[4..8]) == f.length && Get16(b[8..10]) == f.scale
      && Get16(b[10..12]) == f.precision && Get16(b[12..14]) == f.ccsid
      && Get32(b[32..36]) == offset && Get32(b[36..40]) == |RenderAll(f.infos)|
  {
    hide Get16, Get32, U16, U32, RenderAll;
    FixedPartSlices(f, offset);
    GetU16(f.sqlType);
    GetU32(f.length);
    GetU16(f.scale);
    GetU16(f.precision);
    GetU16(f.ccsid);
    GetU32(offset);
    GetU32(|RenderAll(f.infos)|);
  }

  lemma FixedPartSlices(f: Described, offset: u32)
    requires FieldFits(f)
    ensures var b := FixedPart(f, offset);
      && b[2..4] == U16(f.sqlType) && b[4..8] == U32(f.length) && b[8..10] == U16(f.scale)
      && b[10..12] == U16(f.precision) && b[12..14] == U16(f.ccsid)
      && b[32..36] == U32(offset) && b[36..40] == U32(|RenderAll(f.infos)|)
  {
    hide U16, U32, RenderAll;
  }

  lemma {:induction false} FixedPartSlice(fs: seq<Described>, i: nat, n: nat)
    requires LayoutFits(fs) && i < n <= |fs|
    ensures FixedParts(fs, n)[48 * i..48 * (i + 1)] == FixedPart(fs[i], Offset(fs, i))
  {
    hide FixedPart, Offset;
    if i < n - 1 {
      FixedPartSlice(fs, i, n - 1);
      SlicePrefix(FixedParts(fs, n - 1), FixedPart(fs[n - 1], Offset(fs, n - 1)), 48 * i, 48 * (i + 1));
    } else {
      assert (FixedParts(fs, i) + FixedPart(fs[i], Offset(fs, i)))[48 * i..] == FixedPart(fs[i], Offset(fs, i));
    }
  }

  /** The information of field i has that of the others before and behind it. */
  lemma {:induction false} InfosSplit(fs: seq<Described>, i: nat, n: nat) returns (behind: seq<byte>)
    requires FieldsFit(fs) && i < n <= |fs|
    ensures Infos(fs, n) == Infos(fs, i) + RenderAll(fs[i].infos) + behind
  {
    hide RenderAll;
    if i == n - 1 {
      behind := [];
    } else {
      var b := InfosSplit(fs, i, n - 1);
      behind := b + RenderAll(fs[n - 1].infos);
    }
  }

  lemma LayoutHeader(token: seq<byte>, reserved: seq<byte>, recordSize: u32, fs: seq<Described>, extra: seq<byte>)
    requires |token| == 4 && |reserved| == 4 && LayoutFits(fs)
    ensures var d := Layout(token, reserved, recordSize, fs) + extra;
      && |d| >= 16 + 48 * |fs| && Get32(d[4..8]) == |fs| && Get32(d[12..16]) == recordSize
      && d[16..16 + 48 * |fs|] == FixedParts(fs, |fs|)
  {
    hide Get32, U32, FixedParts, Infos;
    var d := Layout(token, reserved, recordSize, fs) + extra;
    assert d[4..8] == U32(|fs|) && d[12..16] == U32(recordSize);
    GetU32(|fs|);
    GetU32(recordSize);
  }

  /** Where field i finds its information. */
  lemma LayoutInfos(
    token: seq<byte>, reserved: seq<byte>, recordSize: u32, fs: seq<Described>, extra: seq<byte>, i: nat
  )
    requires |token| == 4 && |reserved| == 4 && LayoutFits(fs) && i < |fs|
    ensures var d := Layout(token, reserved, recordSize, fs) + extra;
      IsName(fs[i].infos, NameFrom(d, 16 + 48 * i + Offset(fs, i), |RenderAll(fs[i].infos)|, 0))
  {
    hide U32, FixedParts, Infos, RenderAll, NameFrom, IsName;
    var behind := InfosSplit(fs, i, |fs|);
    var front := token + U32(|fs|) + reserved + U32(recordSize) + FixedParts(fs, |fs|) + Infos(fs, i);
    var d := Layout(token, reserved, recordSize, fs) + extra;
    assert d == front + RenderAll(fs[i].infos) + (behind + extra);
    NameIsFound(front, fs[i].infos, behind + extra);
  }

  /**
   * Parsing a format as a server lays it out, with anything behind it, gives
   * back the record size and, field by field, type, length, scale, precision,
   * CCSID and the first name.
   */
  lemma LayoutReadsBack(token: seq<byte>, reserved: seq<byte>, recordSize: u32, fs: seq<Described>, extra: seq<byte>)
    requires |token| == 4 && |reserved| == 4 && LayoutFits(fs)
    ensures var r := SuperFormatOf(Layout(token, reserved, recordSize, fs) + extra);
      && r.Some? && r.value.recordSize == recordSize && |r.value.fields| == |fs|
      && forall i :: 0 <= i < |fs| ==> IsField(fs[i], r.value.fields[i])
  {
    hide Get16, Get32, U32, Layout, FixedPart, FixedParts, RenderAll, NameFrom, IsName, Offset, FieldFits;
    var d := Layout(token, reserved, recordSize, fs) + extra;
    LayoutHeader(token, reserved, recordSize, fs, extra);
    forall i | 0 <= i < |fs| ensures IsField(fs[i], SuperFieldAt(d, i)) {
      FixedPartSlice(fs, i, |fs|);
      SliceOfSlice(d, 16, 16 + 48 * |fs|, 48 * i, 48 * (i + 1));
      FixedPartReads(fs[i], Offset(fs, i));
      LayoutInfos(token, reserved, recordSize, fs, extra, i);
    }
  }
}
