/** The extended data format: a header and one 64-byte description for each field. */
module DataFormat {
  import opened Wrappers
  import opened Bytes
  import ResultData

  const FORMAT_HEADER_LENGTH: nat := 16
  const FIELD_LENGTH: nat := 64

  /** A described field; its name is kept as the bytes and CCSID it came in. */
  datatype Field = Field(
    sqlType: u16, length: u32, scale: u16, precision: u16, ccsid: u16, name: Option<(u16, seq<byte>)>)

  datatype Format = Format(fields: seq<Field>, recordSize: u32)

  function Lengths(fields: seq<Field>): (r: seq<u32>)
    ensures |r| == |fields| && forall i :: 0 <= i < |r| ==> r[i] == fields[i].length
  {
    seq(|fields|, i requires 0 <= i < |fields| => fields[i].length)
  }

  /** f.sqlType|1: the nullable variant of a type. */
  function Nullable(t: u16): u16 {
    if t % 2 == 0 then t + 1 else t
  }

  function Description(f: Field): (b: seq<byte>)
    ensures |b| == FIELD_LENGTH
  {
    U16(FIELD_LENGTH) + U16(Nullable(f.sqlType)) + U32(f.length)
    + U16(f.scale) + U16(f.precision) + U16(f.ccsid) + Zeros(50)
  }

  function Descriptions(fields: seq<Field>, n: nat): (b: seq<byte>)
    requires n <= |fields|
    ensures |b| == n * FIELD_LENGTH
  {
    if n == 0 then [] else Descriptions(fields, n - 1) + Description(fields[n - 1])
  }

  function FormatHeader(fields: seq<Field>): (b: seq<byte>)
    ensures |b| == FORMAT_HEADER_LENGTH
  {
    U32(1) + U32(Cut32(|fields|)) + Zeros(4) + U32(Cut32(ResultData.RecordSize(Lengths(fields))))
  }

  function Encode(fields: seq<Field>): seq<byte> {
    FormatHeader(fields) + Descriptions(fields, |fields|)
  }

  method FillHeader(b: array<byte>, fields: seq<Field>)
    requires b.Length >= FORMAT_HEADER_LENGTH && b[..] == Zeros(b.Length)
    modifies b
    ensures b[..] == FormatHeader(fields) + Zeros(b.Length - FORMAT_HEADER_LENGTH)
  {
    hide U32, Zeros;
    FillCount(b, |fields|);
    SplitZeros(b.Length - 8, 4);
    ghost var done := U32(1) + U32(Cut32(|fields|)) + Zeros(4);
    Fill(b, 12, done, U32(Cut32(ResultData.RecordSize(Lengths(fields)))));
  }

  method FillCount(b: array<byte>, n: nat)
    requires b.Length >= FORMAT_HEADER_LENGTH && b[..] == Zeros(b.Length)
    modifies b
    ensures b[..] == U32(1) + U32(Cut32(n)) + Zeros(b.Length - 8)
  {
    hide U32, Zeros;
    var token := U32(1);
    assert b[..] == [] + Zeros(b.Length);
    Fill(b, 0, [], token);
    assert [] + token == token;
    Fill(b, 4, token, U32(Cut32(n)));
  }

  method FillDescription(b: array<byte>, off: nat, ghost done: seq<byte>, f: Field)
    requires |done| == off && off + FIELD_LENGTH <= b.Length && b[..] == done + Zeros(b.Length - off)
    modifies b
    ensures b[..] == done + Description(f) + Zeros(b.Length - off - FIELD_LENGTH)
  {
    hide U16, U32, Zeros;
    FillType(b, off, done, f);
    FillNumbers(b, off + 8, done + (U16(FIELD_LENGTH) + U16(Nullable(f.sqlType)) + U32(f.length)), f);
    SplitZeros(b.Length - off - 14, 50);
  }

  method FillType(b: array<byte>, off: nat, ghost done: seq<byte>, f: Field)
    requires |done| == off && off + FIELD_LENGTH <= b.Length && b[..] == done + Zeros(b.Length - off)
    modifies b
    ensures b[..] == done + (U16(FIELD_LENGTH) + U16(Nullable(f.sqlType)) + U32(f.length)) + Zeros(b.Length - off - 8)
  {
    hide U16, U32, Zeros;
    Fill(b, off, done, U16(FIELD_LENGTH));
    Fill(b, off + 2, done + U16(FIELD_LENGTH), U16(Nullable(f.sqlType)));
    Fill(b, off + 4, done + U16(FIELD_LENGTH) + U16(Nullable(f.sqlType)), U32(f.length));
  }

  method FillNumbers(b: array<byte>, off: nat, ghost done: seq<byte>, f: Field)
    requires |done| == off && off + 6 <= b.Length && b[..] == done + Zeros(b.Length - off)
    modifies b
    ensures b[..] == done + U16(f.scale) + U16(f.precision) + U16(f.ccsid) + Zeros(b.Length - off - 6)
  {
    hide U16, Zeros;
    Fill(b, off, done, U16(f.scale));
    Fill(b, off + 2, done + U16(f.scale), U16(f.precision));
    Fill(b, off + 4, done + U16(f.scale) + U16(f.precision), U16(f.ccsid));
  }

  /** encodeParameterFormat: every field nullable and unnamed. */
  method EncodeParameterFormat(fields: seq<Field>) returns (d: seq<byte>)
    ensures d == Encode(fields)
  {
    hide FormatHeader, Description, Zeros;
    var b := new byte[FORMAT_HEADER_LENGTH + |fields| * FIELD_LENGTH](_ => 0);
    AllZeros(b[..]);
    FillHeader(b, fields);
    assert FormatHeader(fields) + Descriptions(fields, 0) == FormatHeader(fields);
    for i := 0 to |fields|
      invariant b[..] == FormatHeader(fields) + Descriptions(fields, i) + Zeros((|fields| - i) * FIELD_LENGTH)
    {
      ghost var done := FormatHeader(fields) + Descriptions(fields, i);
      FillDescription(b, FORMAT_HEADER_LENGTH + i * FIELD_LENGTH, done, fields[i]);
      assert FormatHeader(fields) + Descriptions(fields, i) + Description(fields[i])
             == FormatHeader(fields) + Descriptions(fields, i + 1);
    }
    assert Zeros(0) == [];
    return b[..];
  }

  /** One field of a format; a name that does not fit its description is dropped. */
  function ReadField(b: seq<byte>): Field
    requires |b| == FIELD_LENGTH
  {
    var nameLen := Get16(b[30..32]);
    Field(Get16(b[2..4]), Get32(b[4..8]), Get16(b[8..10]), Get16(b[10..12]), Get16(b[12..14]),
          if 0 < nameLen && 34 + nameLen <= FIELD_LENGTH then Some((Get16(b[32..34]), b[34..34 + nameLen])) else None)
  }

  function DeclaredFields(d: seq<byte>): nat
    requires |d| >= FORMAT_HEADER_LENGTH
  {
    Get32(d[4..8])
  }

  function FieldAt(d: seq<byte>, i: nat): Field
    requires FORMAT_HEADER_LENGTH + (i + 1) * FIELD_LENGTH <= |d|
  {
    ReadField(d[FORMAT_HEADER_LENGTH + i * FIELD_LENGTH..FORMAT_HEADER_LENGTH + (i + 1) * FIELD_LENGTH])
  }

  /** The declared fields, if they are all there. */
  function FormatOf(d: seq<byte>): Option<Format> {
    if |d| < FORMAT_HEADER_LENGTH || FORMAT_HEADER_LENGTH + DeclaredFields(d) * FIELD_LENGTH > |d| then None
    else
      Some(Format(
        seq(DeclaredFields(d), i requires 0 <= i < DeclaredFields(d) => FieldAt(d, i)),
        Get32(d[12..16])))
  }

  method ParseDataFormat(d: seq<byte>) returns (r: Option<Format>)
    ensures r == FormatOf(d)
  {
    if |d| < FORMAT_HEADER_LENGTH {
      return None;
    }
    var n := DeclaredFields(d);
    if FORMAT_HEADER_LENGTH + n * FIELD_LENGTH > |d| {
      return None;
    }
    var fields: seq<Field> := [];
    for i := 0 to n
      invariant |fields| == i
      invariant forall j :: 0 <= j < i ==> fields[j] == FieldAt(d, j)
    {
      fields := fields + [FieldAt(d, i)];
    }
    assert fields == seq(DeclaredFields(d), i requires 0 <= i < DeclaredFields(d) => FieldAt(d, i));
    return Some(Format(fields, Get32(d[12..16])));
  }

  /** What the server is told about a parameter: its type made nullable, everything else as described to us. */
  function Told(f: Field): Field {
    f.(sqlType := f.sqlType / 2 * 2 + 1, name := None)
  }

  lemma ReadDescription(f: Field)
    ensures ReadField(Description(f)) == Told(f)
  {
    var b := Description(f);
    assert b[2..4] == U16(Nullable(f.sqlType)) && b[4..8] == U32(f.length);
    assert b[8..10] == U16(f.scale) && b[10..12] == U16(f.precision) && b[12..14] == U16(f.ccsid);
    assert b[30..32] == Zeros(2);
    GetU32(f.length);
  }

  lemma {:induction false} DescriptionSlice(fields: seq<Field>, i: nat, n: nat)
    requires i < n <= |fields|
    ensures Descriptions(fields, n)[i * FIELD_LENGTH..(i + 1) * FIELD_LENGTH] == Description(fields[i])
  {
    hide Description;
    if i < n - 1 {
      DescriptionSlice(fields, i, n - 1);
      SlicePrefix(
        Descriptions(fields, n - 1), Description(fields[n - 1]), i * FIELD_LENGTH, (i + 1) * FIELD_LENGTH);
    }
  }

  /**
   * The descriptor and the data agree: whoever parses the format sent with
   * CHANGE_DESCRIPTOR recovers every field, so the lengths by which the
   * parameter data is laid out are the ones the server was told.
   */
  lemma FormatRoundTrip(fields: seq<Field>)
    requires |fields| < 0x1_0000_0000
    ensures var r := FormatOf(Encode(fields));
      && r.Some? && |r.value.fields| == |fields|
      && (forall i :: 0 <= i < |fields| ==> r.value.fields[i] == Told(fields[i]))
      && Lengths(r.value.fields) == Lengths(fields)
      && r.value.recordSize == Cut32(ResultData.RecordSize(Lengths(fields)))
  {
    hide Description, ReadField, Get32, U32;
    var d := Encode(fields);
    HeaderSlices(fields, d);
    GetU32(|fields|);
    GetU32(Cut32(ResultData.RecordSize(Lengths(fields))));
    var r := FormatOf(d);
    forall i | 0 <= i < |fields| ensures r.value.fields[i] == Told(fields[i]) {
      DescriptionSlice(fields, i, |fields|);
      ReadDescription(fields[i]);
      assert d[FORMAT_HEADER_LENGTH + i * FIELD_LENGTH..FORMAT_HEADER_LENGTH + (i + 1) * FIELD_LENGTH]
             == Descriptions(fields, |fields|)[i * FIELD_LENGTH..(i + 1) * FIELD_LENGTH];
    }
  }

  lemma HeaderSlices(fields: seq<Field>, d: seq<byte>)
    requires d == Encode(fields)
    ensures d[4..8] == U32(Cut32(|fields|)) && d[12..16] == U32(Cut32(ResultData.RecordSize(Lengths(fields))))
  {
    hide U32;
    var h := FormatHeader(fields);
    assert d[4..8] == h[4..8] && d[12..16] == h[12..16];
  }

  // ----- The format as a server lays it out -----

  /** A field as the server describes it; what the client does not look at is in `head` and `middle`. */
  datatype Described = Described(
    head: seq<byte>, sqlType: u16, length: u32, scale: u16, precision: u16, ccsid: u16,
    middle: seq<byte>, nameLength: u16, nameCcsid: u16, nameArea: seq<byte>)

  predicate FieldFits(f: Described) {
    |f.head| == 2 && |f.middle| == 16 && |f.nameArea| == 30
  }

  predicate LayoutFits(fs: seq<Described>) {
    |fs| < 0x1_0000_0000 && forall i :: 0 <= i < |fs| ==> FieldFits(fs[i])
  }

  function Part(f: Described): (b: seq<byte>)
    requires FieldFits(f)
    ensures |b| == 64
  {
    f.head + U16(f.sqlType) + U32(f.length) + U16(f.scale) + U16(f.precision) + U16(f.ccsid)
    + f.middle + U16(f.nameLength) + U16(f.nameCcsid) + f.nameArea
  }

  function Parts(fs: seq<Described>, n: nat): (b: seq<byte>)
    requires LayoutFits(fs) && n <= |fs|
    ensures |b| == 64 * n
  {
    if n == 0 then [] else Parts(fs, n - 1) + Part(fs[n - 1])
  }

  function Layout(token: seq<byte>, reserved: seq<byte>, recordSize: u32, fs: seq<Described>): seq<byte>
    requires |token| == 4 && |reserved| == 4 && LayoutFits(fs)
  {
    token + U32(|fs|) + reserved + U32(recordSize) + Parts(fs, |fs|)
  }

  /** The field described; its name only if it fits its 30 bytes. */
  function FieldOf(f: Described): Field
    requires FieldFits(f)
  {
    Field(f.sqlType, f.length, f.scale, f.precision, f.ccsid,
          if 1 <= f.nameLength <= 30 then Some((f.nameCcsid, f.nameArea[..f.nameLength])) else None)
  }

  lemma PartSlices(f: Described)
    requires FieldFits(f)
    ensures var b := Part(f);
      && b[2..4] == U16(f.sqlType) && b[4..8] == U32(f.length) && b[8..10] == U16(f.scale)
      && b[10..12] == U16(f.precision) && b[12..14] == U16(f.ccsid)
      && b[30..32] == U16(f.nameLength) && b[32..34] == U16(f.nameCcsid) && b[34..] == f.nameArea
  {
    hide U16, U32;
  }

  lemma PartReads(f: Described)
    requires FieldFits(f)
    ensures ReadField(Part(f)) == FieldOf(f)
  {
    hide Get16, Get32, U16, U32, Part;
    PartSlices(f);
    GetU16(f.sqlType);
    GetU32(f.length);
    GetU16(f.scale);
    GetU16(f.precision);
    GetU16(f.ccsid);
    GetU16(f.nameLength);
    GetU16(f.nameCcsid);
    var b := Part(f);
    if 1 <= f.nameLength <= 30 {
      assert b[34..34 + f.nameLength] == b[34..][..f.nameLength];
    }
  }

  lemma {:induction false} PartSlice(fs: seq<Described>, i: nat, n: nat)
    requires LayoutFits(fs) && i < n <= |fs|
    ensures Parts(fs, n)[64 * i..64 * (i + 1)] == Part(fs[i])
  {
    hide Part;
    if i < n - 1 {
      PartSlice(fs, i, n - 1);
      SlicePrefix(Parts(fs, n - 1), Part(fs[n - 1]), 64 * i, 64 * (i + 1));
    } else {
      assert (Parts(fs, i) + Part(fs[i]))[64 * i..] == Part(fs[i]);
    }
  }

  lemma LayoutHeader(token: seq<byte>, reserved: seq<byte>, recordSize: u32, fs: seq<Described>, extra: seq<byte>)
    requires |token| == 4 && |reserved| == 4 && LayoutFits(fs)
    ensures var d := Layout(token, reserved, recordSize, fs) + extra;
      && |d| >= 16 + 64 * |fs| && Get32(d[4..8]) == |fs| && Get32(d[12..16]) == recordSize
      && d[16..16 + 64 * |fs|] == Parts(fs, |fs|)
  {
    hide Get32, U32, Parts;
    var d := Layout(token, reserved, recordSize, fs) + extra;
    assert d[4..8] == U32(|fs|) && d[12..16] == U32(recordSize);
    GetU32(|fs|);
    GetU32(recordSize);
  }

  /** Parsing a format as a server lays it out, with anything behind it, gives back the record size and every field. */
  lemma LayoutReadsBack(token: seq<byte>, reserved: seq<byte>, recordSize: u32, fs: seq<Described>, extra: seq<byte>)
    requires |token| == 4 && |reserved| == 4 && LayoutFits(fs)
    ensures var r := FormatOf(Layout(token, reserved, recordSize, fs) + extra);
      && r.Some? && r.value.recordSize == recordSize && |r.value.fields| == |fs|
      && forall i :: 0 <= i < |fs| ==> r.value.fields[i] == FieldOf(fs[i])
  {
    hide Get16, Get32, U32, Layout, Part, Parts, ReadField, FieldFits, FieldOf;
    var d := Layout(token, reserved, recordSize, fs) + extra;
    LayoutHeader(token, reserved, recordSize, fs, extra);
    forall i | 0 <= i < |fs| ensures FieldAt(d, i) == FieldOf(fs[i]) {
      PartSlice(fs, i, |fs|);
      SliceOfSlice(d, 16, 16 + 64 * |fs|, 64 * i, 64 * (i + 1));
      PartReads(fs[i]);
    }
  }

  // ----- The bytes of the format the client sends -----

  /** A header that says 1, the number of fields and the record size, with zeros between. */
  lemma HeaderBytes(fields: seq<Field>)
    requires |fields| < 0x1_0000_0000 && ResultData.RecordSize(Lengths(fields)) < 0x1_0000_0000
    ensures var d := Encode(fields);
      && |d| == 16 + 64 * |fields| && Spelt(d, 0, 4) == 1 && Spelt(d, 4, 4) == |fields|
      && d[8..12] == [0, 0, 0, 0] && Spelt(d, 12, 4) == ResultData.RecordSize(Lengths(fields))
  {
    hide U32, Spelt, Descriptions;
    var d := Encode(fields);
    var size := ResultData.RecordSize(Lengths(fields));
    assert d[0..4] == U32(1) && d[4..8] == U32(|fields|) && d[12..16] == U32(size);
    SpeltFour(d, 0, 1);
    SpeltFour(d, 4, |fields|);
    SpeltFour(d, 12, size);
  }

  /** And for each field its length of 64, its type with the lowest bit set, its other attributes, and zeros. */
  lemma DescriptionBytes(f: Field)
    ensures var b := Description(f);
      && |b| == 64 && Spelt(b, 0, 2) == 64 && Spelt(b, 2, 2) == f.sqlType / 2 * 2 + 1 && Spelt(b, 4, 4) == f.length
      && Spelt(b, 8, 2) == f.scale && Spelt(b, 10, 2) == f.precision && Spelt(b, 12, 2) == f.ccsid
      && forall i :: 14 <= i < 64 ==> b[i] == 0
  {
    hide U16, U32, Spelt;
    var b := Description(f);
    assert b[0..2] == U16(64) && b[2..4] == U16(Nullable(f.sqlType)) && b[4..8] == U32(f.length);
    assert b[8..10] == U16(f.scale) && b[10..12] == U16(f.precision) && b[12..14] == U16(f.ccsid);
    DescriptionSpells(f, b);
  }

  lemma DescriptionSpells(f: Field, b: seq<byte>)
    requires |b| == 64
    requires b[0..2] == U16(64) && b[2..4] == U16(Nullable(f.sqlType)) && b[4..8] == U32(f.length)
    requires b[8..10] == U16(f.scale) && b[10..12] == U16(f.precision) && b[12..14] == U16(f.ccsid)
    ensures Spelt(b, 0, 2) == 64 && Spelt(b, 2, 2) == Nullable(f.sqlType) && Spelt(b, 4, 4) == f.length
    ensures Spelt(b, 8, 2) == f.scale && Spelt(b, 10, 2) == f.precision && Spelt(b, 12, 2) == f.ccsid
  {
    hide U16, U32, Spelt;
    SpeltPair(b, 0, 64);
    SpeltPair(b, 2, Nullable(f.sqlType));
    SpeltFour(b, 4, f.length);
    SpeltPair(b, 8, f.scale);
    SpeltPair(b, 10, f.precision);
    SpeltPair(b, 12, f.ccsid);
  }
}
