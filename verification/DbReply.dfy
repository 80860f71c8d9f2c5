/** as-database replies: the template, and the parameters this client understands. */
module DbReply {
  import opened Wrappers
  import opened Bytes
  import opened Params
  import DataFormat
  import SuperFormat
  import Job
  import ResultData

  const TEMPLATE_LENGTH: nat := 20

  const MESSAGE_ID: u16 := 0x3801
  const FIRST_LEVEL_TEXT: u16 := 0x3802
  const SERVER_ATTRIBUTES: u16 := 0x3804
  const ORIGINAL_FORMAT: u16 := 0x3805
  const ORIGINAL_DATA: u16 := 0x3806
  const SQLCA: u16 := 0x3807
  const ORIGINAL_PARM_FORMAT: u16 := 0x3808
  const EXTENDED_FORMAT: u16 := 0x380C
  const EXTENDED_PARM_FORMAT: u16 := 0x380D
  const EXTENDED_DATA: u16 := 0x380E
  const SUPER_EXT_FORMAT: u16 := 0x3812
  const SUPER_EXT_PARM_FORMAT: u16 := 0x3813
  const VARIABLE_DATA: u16 := 0x3901

  /** A decoded reply. Texts are kept as the bytes and CCSID they came in. */
  datatype Reply = Reply(
    errorClass: u16,
    returnCode: int,
    messageID: Option<(u16, seq<byte>)>,
    message: Option<(u16, seq<byte>)>,
    serverAttributes: seq<byte>,
    sqlca: seq<byte>,
    dataFormat: Option<DataFormat.Format>,
    paramFormat: Option<DataFormat.Format>,
    resultData: Option<ResultData.Grid>)

  datatype Error = TooShort | Compressed | BadParameters | BadFormat | FieldsCompressed | BadResultData | UnknownFormat

  function Signed32(n: u32): int {
    if n < 0x8000_0000 then n else n - 0x1_0000_0000
  }

  /** SQLERRD(3), a signed number. */
  function RowCount(r: Reply): int {
    if |r.sqlca| < 108 then 0 else Signed32(Get32(r.sqlca[104..108]))
  }

  function LengthsOf(f: Option<DataFormat.Format>): (lengths: seq<nat>)
    ensures f.Some? ==>
      |lengths| == |f.value.fields| && forall i :: 0 <= i < |lengths| ==> lengths[i] == f.value.fields[i].length
  {
    if f.None? then [] else seq(|f.value.fields|, i requires 0 <= i < |f.value.fields| => f.value.fields[i].length)
  }

  /** A decoded reply as the session takes it: an answer to request number `answers`, with its rows as `block`. */
  function Seen(r: Reply, answers: nat, block: Option<Job.Block>): (s: Job.Reply)
    ensures r.dataFormat.Some? ==> |s.columns| == |r.dataFormat.value.fields|
    ensures r.paramFormat.Some? ==> |s.params| == |r.paramFormat.value.fields|
  {
    Job.Reply(
      answers, r.errorClass, r.returnCode, LengthsOf(r.dataFormat), LengthsOf(r.paramFormat), RowCount(r), block)
  }

  /** Whether a parameter is one of the two that name a format, and which parser reads it. */
  predicate IsFormat(cp: u16) {
    cp == EXTENDED_FORMAT || cp == EXTENDED_PARM_FORMAT || cp == SUPER_EXT_FORMAT || cp == SUPER_EXT_PARM_FORMAT
  }

  predicate IsOriginal(cp: u16) {
    cp == ORIGINAL_FORMAT || cp == ORIGINAL_PARM_FORMAT || cp == ORIGINAL_DATA || cp == VARIABLE_DATA
  }

  function ReadFormat(p: Param): Option<DataFormat.Format> {
    if p.codePoint == EXTENDED_FORMAT || p.codePoint == EXTENDED_PARM_FORMAT then DataFormat.FormatOf(p.data)
    else SuperFormat.SuperFormatOf(p.data)
  }

  // ----- The loop over the parameters -----

  /** What one parameter does to the reply read so far. */
  function Absorb(r: Reply, p: Param, vlf: bool): Result<Reply, Error> {
    var d := p.data;
    if p.codePoint == MESSAGE_ID then
      Success(if |d| > 2 then r.(messageID := Some((Get16(d[0..2]), d[2..]))) else r)
    else if p.codePoint == FIRST_LEVEL_TEXT then
      Success(if |d| > 4 then r.(message := Some((Get16(d[0..2]), d[4..]))) else r)
    else if p.codePoint == SERVER_ATTRIBUTES then
      Success(if |d| > 2 then r.(serverAttributes := d[2..]) else r)
    else if p.codePoint == SQLCA then
      Success(r.(sqlca := d))
    else if d == [] then
      Success(r)
    else if IsFormat(p.codePoint) then
      var f := ReadFormat(p);
      if f.None? then Failure(BadFormat)
      else if p.codePoint == EXTENDED_FORMAT || p.codePoint == SUPER_EXT_FORMAT then Success(r.(dataFormat := f))
      else Success(r.(paramFormat := f))
    else if p.codePoint == EXTENDED_DATA then
      if vlf then Failure(FieldsCompressed)
      else
        var g := ResultData.Parse(d);
        if g.None? then Failure(BadResultData) else Success(r.(resultData := g))
    else if IsOriginal(p.codePoint) then
      Failure(UnknownFormat)
    else
      Success(r)
  }

  function AbsorbAll(r: Reply, ps: seq<Param>, vlf: bool): Result<Reply, Error>
    decreases |ps|
  {
    if ps == [] then Success(r)
    else
      var before := AbsorbAll(r, ps[..|ps| - 1], vlf);
      if before.Failure? then before else Absorb(before.value, ps[|ps| - 1], vlf)
  }

  /** The template's part of a reply. */
  function FromTemplate(body: seq<byte>): Reply
    requires |body| >= TEMPLATE_LENGTH
  {
    Reply(Get16(body[14..16]), Signed32(Get32(body[16..20])), None, None, [], [], None, None, None)
  }

  /** Bit 0 of the reply's own flags, and the bit of the result bitmap for compressed fields. */
  predicate IsCompressed(body: seq<byte>)
    requires |body| >= TEMPLATE_LENGTH
  {
    body[4] >= 0x80
  }

  predicate HasCompressedFields(body: seq<byte>)
    requires |body| >= TEMPLATE_LENGTH
  {
    body[1] % 2 == 1
  }

  function Parsed(body: seq<byte>): Result<Reply, Error> {
    if |body| < TEMPLATE_LENGTH then Failure(TooShort)
    else if IsCompressed(body) then Failure(Compressed)
    else
      var ps := Decode(body[TEMPLATE_LENGTH..]);
      if ps.None? then Failure(BadParameters) else AbsorbAll(FromTemplate(body), ps.value, HasCompressedFields(body))
  }

  method ParseReply(body: seq<byte>) returns (r: Result<Reply, Error>)
    ensures r == Parsed(body)
  {
    hide Absorb, Decode, FromTemplate;
    if |body| < TEMPLATE_LENGTH {
      return Failure(TooShort);
    }
    if body[4] >= 0x80 {
      return Failure(Compressed);
    }
    var vlf := body[1] % 2 == 1;
    var rep := FromTemplate(body);
    var params := DecodeParams(body[TEMPLATE_LENGTH..]);
    if params.None? {
      return Failure(BadParameters);
    }
    var ps := params.value;
    for i := 0 to |ps|
      invariant AbsorbAll(FromTemplate(body), ps[..i], vlf) == Success(rep)
    {
      var next := AbsorbOne(rep, ps[i], vlf);
      assert ps[..i + 1][..i] == ps[..i];
      if next.Failure? {
        FailureStays(FromTemplate(body), ps, i + 1, vlf);
        return next;
      }
      rep := next.value;
    }
    assert ps[..|ps|] == ps;
    return Success(rep);
  }

  /** The switch over the code point. */
  method AbsorbOne(rep: Reply, p: Param, vlf: bool) returns (r: Result<Reply, Error>)
    ensures r == Absorb(rep, p, vlf)
  {
    hide DataFormat.FormatOf, SuperFormat.SuperFormatOf, ResultData.Parse;
    var cp, d := p.codePoint, p.data;
    r := Success(rep);
    if cp == MESSAGE_ID {
      if |d| > 2 {
        r := Success(rep.(messageID := Some((Get16(d[0..2]), d[2..]))));
      }
    } else if cp == FIRST_LEVEL_TEXT {
      if |d| > 4 {
        r := Success(rep.(message := Some((Get16(d[0..2]), d[4..]))));
      }
    } else if cp == SERVER_ATTRIBUTES {
      if |d| > 2 {
        r := Success(rep.(serverAttributes := d[2..]));
      }
    } else if cp == SQLCA {
      r := Success(rep.(sqlca := d));
    } else if IsFormat(cp) {
      if |d| > 0 {
        var f: Option<DataFormat.Format>;
        if cp == EXTENDED_FORMAT || cp == EXTENDED_PARM_FORMAT {
          f := DataFormat.ParseDataFormat(d);
        } else {
          f := SuperFormat.ParseSuperExtendedFormat(d);
        }
        if f.None? {
          return Failure(BadFormat);
        }
        r := Success(
          if cp == EXTENDED_FORMAT || cp == SUPER_EXT_FORMAT then rep.(dataFormat := f) else rep.(paramFormat := f));
      }
    } else if cp == EXTENDED_DATA {
      if |d| > 0 {
        if vlf {
          return Failure(FieldsCompressed);
        }
        var g := ResultData.Parse(d);
        if g.None? {
          return Failure(BadResultData);
        }
        r := Success(rep.(resultData := g));
      }
    } else if IsOriginal(cp) {
      if |d| > 0 {
        return Failure(UnknownFormat);
      }
    }
  }

  lemma {:induction false} FailureStays(r: Reply, ps: seq<Param>, i: nat, vlf: bool)
    requires i <= |ps| && AbsorbAll(r, ps[..i], vlf).Failure?
    ensures AbsorbAll(r, ps, vlf) == AbsorbAll(r, ps[..i], vlf)
    decreases |ps|
  {
    hide Absorb;
    if i == |ps| {
      assert ps[..i] == ps;
    } else {
      assert ps[..|ps| - 1][..i] == ps[..i];
      FailureStays(r, ps[..|ps| - 1], i, vlf);
    }
  }

  // ----- What a reply says -----

  /** A parameter that makes the whole reply undecodable. */
  ghost predicate Bad(p: Param, vlf: bool) {
    && p.data != []
    && (|| ((p.codePoint == 0x380C || p.codePoint == 0x380D) && DataFormat.FormatOf(p.data).None?)
        || ((p.codePoint == 0x3812 || p.codePoint == 0x3813) && SuperFormat.SuperFormatOf(p.data).None?)
        || (p.codePoint == 0x380E && (vlf || ResultData.Parse(p.data).None?))
        || p.codePoint == 0x3805 || p.codePoint == 0x3806 || p.codePoint == 0x3808 || p.codePoint == 0x3901)
  }

  lemma AbsorbRefusesTheBad(r: Reply, p: Param, vlf: bool)
    ensures Absorb(r, p, vlf).Failure? <==> Bad(p, vlf)
  {
    hide DataFormat.FormatOf, SuperFormat.SuperFormatOf, ResultData.Parse;
  }

  /** A reply is decoded exactly if it is whole, uncompressed, made of complete parameters, and none of them is bad. */
  lemma DecodedIfNothingIsBad(body: seq<byte>)
    ensures Parsed(body).Success? <==>
      && |body| >= 20 && body[4] < 0x80 && Decode(body[20..]).Some?
      && forall i :: 0 <= i < |Decode(body[20..]).value| ==> !Bad(Decode(body[20..]).value[i], body[1] % 2 == 1)
  {
    hide Decode, Bad, AbsorbAll;
    if |body| >= TEMPLATE_LENGTH && Decode(body[TEMPLATE_LENGTH..]).Some? {
      AllAbsorbed(FromTemplate(body), Decode(body[TEMPLATE_LENGTH..]).value, HasCompressedFields(body));
    }
  }

  lemma {:induction false} AllAbsorbed(r: Reply, ps: seq<Param>, vlf: bool)
    ensures AbsorbAll(r, ps, vlf).Success? <==> forall i :: 0 <= i < |ps| ==> !Bad(ps[i], vlf)
    decreases |ps|
  {
    hide Absorb, Bad;
    if ps != [] {
      var before := ps[..|ps| - 1];
      AllAbsorbed(r, before, vlf);
      if AbsorbAll(r, before, vlf).Success? {
        AbsorbRefusesTheBad(AbsorbAll(r, before, vlf).value, ps[|ps| - 1], vlf);
      }
      assert forall i :: 0 <= i < |before| ==> before[i] == ps[i];
    }
  }

  /** The last parameter with one of two code points and more than `least` bytes. */
  function Latest(ps: seq<Param>, cp: u16, or: u16, least: int): (r: Option<Param>)
    ensures r.Some? ==> (r.value.codePoint == cp || r.value.codePoint == or) && |r.value.data| > least
  {
    if ps == [] then None
    else
      var p := ps[|ps| - 1];
      if (p.codePoint == cp || p.codePoint == or) && |p.data| > least then Some(p)
      else Latest(ps[..|ps| - 1], cp, or, least)
  }

  /**
   * What a decoded reply holds: for each of its parts, what the last parameter
   * for it says, and the template's verdict.
   */
  ghost predicate Says(r: Reply, body: seq<byte>, ps: seq<Param>)
    requires |body| >= TEMPLATE_LENGTH
  {
    && r.errorClass == Get16(body[14..16]) && r.returnCode == Signed32(Get32(body[16..20]))
    && SaysTexts(r, ps)
    && SaysData(r, ps)
  }

  ghost predicate SaysTexts(r: Reply, ps: seq<Param>) {
    SaysMessages(r, ps) && SaysAreas(r, ps)
  }

  ghost predicate SaysMessages(r: Reply, ps: seq<Param>) {
    && (var m := Latest(ps, 0x3801, 0x3801, 2);
        r.messageID == if m.None? then None else Some((Get16(m.value.data[..2]), m.value.data[2..])))
    && (var m := Latest(ps, 0x3802, 0x3802, 4);
        r.message == if m.None? then None else Some((Get16(m.value.data[..2]), m.value.data[4..])))
  }

  ghost predicate SaysAreas(r: Reply, ps: seq<Param>) {
    && (var a := Latest(ps, 0x3804, 0x3804, 2); r.serverAttributes == if a.None? then [] else a.value.data[2..])
    && (var a := Latest(ps, 0x3807, 0x3807, -1); r.sqlca == if a.None? then [] else a.value.data)
  }

  ghost predicate SaysData(r: Reply, ps: seq<Param>) {
    && (var f := Latest(ps, 0x380C, 0x3812, 0); r.dataFormat == if f.None? then None else FormatIn(f.value))
    && (var f := Latest(ps, 0x380D, 0x3813, 0); r.paramFormat == if f.None? then None else FormatIn(f.value))
    && (var g := Latest(ps, 0x380E, 0x380E, 0);
        r.resultData == if g.None? then None else ResultData.Parse(g.value.data))
  }

  /** The format in a parameter: extended under 0x380C and 0x380D, super-extended otherwise. */
  ghost function FormatIn(p: Param): Option<DataFormat.Format> {
    if p.codePoint == 0x380C || p.codePoint == 0x380D then DataFormat.FormatOf(p.data)
    else SuperFormat.SuperFormatOf(p.data)
  }

  lemma AbsorbSays(body: seq<byte>, ps: seq<Param>, r: Reply, vlf: bool)
    requires |body| >= TEMPLATE_LENGTH && ps != [] && Says(r, body, ps[..|ps| - 1])
    requires Absorb(r, ps[|ps| - 1], vlf).Success?
    ensures Says(Absorb(r, ps[|ps| - 1], vlf).value, body, ps)
  {
    hide SaysTexts, SaysData, IsFormat, ReadFormat, ResultData.Parse, Get16, Get32, Signed32;
    AbsorbSaysTexts(ps, r, vlf);
    AbsorbSaysData(ps, r, vlf);
  }

  lemma AbsorbSaysTexts(ps: seq<Param>, r: Reply, vlf: bool)
    requires ps != [] && SaysTexts(r, ps[..|ps| - 1])
    requires Absorb(r, ps[|ps| - 1], vlf).Success?
    ensures SaysTexts(Absorb(r, ps[|ps| - 1], vlf).value, ps)
  {
    hide Absorb, SaysMessages, SaysAreas;
    AbsorbSaysMessages(ps, r, vlf);
    AbsorbSaysAreas(ps, r, vlf);
  }

  lemma AbsorbSaysMessages(ps: seq<Param>, r: Reply, vlf: bool)
    requires ps != [] && SaysMessages(r, ps[..|ps| - 1])
    requires Absorb(r, ps[|ps| - 1], vlf).Success?
    ensures SaysMessages(Absorb(r, ps[|ps| - 1], vlf).value, ps)
  {
    hide ReadFormat, ResultData.Parse, Get16;
  }

  lemma AbsorbSaysAreas(ps: seq<Param>, r: Reply, vlf: bool)
    requires ps != [] && SaysAreas(r, ps[..|ps| - 1])
    requires Absorb(r, ps[|ps| - 1], vlf).Success?
    ensures SaysAreas(Absorb(r, ps[|ps| - 1], vlf).value, ps)
  {
    hide ReadFormat, ResultData.Parse, Get16;
  }

  lemma AbsorbSaysData(ps: seq<Param>, r: Reply, vlf: bool)
    requires ps != [] && SaysData(r, ps[..|ps| - 1])
    requires Absorb(r, ps[|ps| - 1], vlf).Success?
    ensures SaysData(Absorb(r, ps[|ps| - 1], vlf).value, ps)
  {
    hide DataFormat.FormatOf, SuperFormat.SuperFormatOf, ResultData.Parse, Get16;
  }

  lemma {:induction false} AbsorbAllSays(body: seq<byte>, ps: seq<Param>, vlf: bool)
    requires |body| >= TEMPLATE_LENGTH && AbsorbAll(FromTemplate(body), ps, vlf).Success?
    ensures Says(AbsorbAll(FromTemplate(body), ps, vlf).value, body, ps)
    decreases |ps|
  {
    hide Absorb, Get16, Get32, Signed32, ReadFormat, ResultData.Parse;
    if ps != [] {
      AbsorbAllSays(body, ps[..|ps| - 1], vlf);
      AbsorbSays(body, ps, AbsorbAll(FromTemplate(body), ps[..|ps| - 1], vlf).value, vlf);
    }
  }

  /** Every part of a decoded reply comes from the last parameter that carries it. */
  lemma LatestWins(body: seq<byte>)
    requires Parsed(body).Success?
    ensures Says(Parsed(body).value, body, Decode(body[TEMPLATE_LENGTH..]).value)
  {
    hide Says, AbsorbAll, Decode, FromTemplate;
    AbsorbAllSays(body, Decode(body[TEMPLATE_LENGTH..]).value, HasCompressedFields(body));
  }

  /** The end of the data is never a failure, and a cursor closed by the server is always at its end. */
  lemma VerdictsAreConsistent(r: Job.Reply)
    ensures Job.EndOfData(r) ==> !Job.Failed(r)
    ensures Job.CursorClosedByServer(r) ==> Job.EndOfData(r)
  {
  }

  // ----- Replies as the server writes them -----

  function Template(errorClass: u16, returnCode: u32): (b: seq<byte>)
    ensures |b| == TEMPLATE_LENGTH
  {
    Zeros(14) + U16(errorClass) + U32(returnCode)
  }

  /**
   * A reply with a plain template and parameters that fit says exactly what they
   * say, or is refused because one is bad.
   */
  lemma ReplyRoundTrip(errorClass: u16, returnCode: u32, ps: seq<Param>)
    requires AllFit(ps)
    ensures var r := Parsed(Template(errorClass, returnCode) + Encode(ps));
      && (r.Success? <==> forall i :: 0 <= i < |ps| ==> !Bad(ps[i], false))
      && (r.Success? ==> r.value.errorClass == errorClass && r.value.returnCode == Signed32(returnCode))
      && (r.Success? ==> Says(r.value, Template(errorClass, returnCode) + Encode(ps), ps))
  {
    hide Decode, Encode, Says, Bad, AbsorbAll, Get16;
    hide Get32, U16, U32, Signed32, Template, IsCompressed, HasCompressedFields;
    var body := Template(errorClass, returnCode) + Encode(ps);
    DecodeEncode(ps);
    TemplateSlices(errorClass, returnCode, Encode(ps));
    GetU16(errorClass);
    GetU32(returnCode);
    DecodedIfNothingIsBad(body);
    if Parsed(body).Success? {
      LatestWins(body);
      SaysTemplate(Parsed(body).value, body, ps);
    }
  }

  lemma TemplateSlices(errorClass: u16, returnCode: u32, rest: seq<byte>)
    ensures var body := Template(errorClass, returnCode) + rest;
      && |body| >= TEMPLATE_LENGTH && body[TEMPLATE_LENGTH..] == rest
      && body[14..16] == U16(errorClass) && body[16..20] == U32(returnCode)
      && !IsCompressed(body) && !HasCompressedFields(body) && body[4] < 0x80 && body[1] % 2 == 0
  {
    hide U16, U32;
  }

  lemma SaysTemplate(r: Reply, body: seq<byte>, ps: seq<Param>)
    requires |body| >= TEMPLATE_LENGTH && Says(r, body, ps)
    ensures r.errorClass == Get16(body[14..16]) && r.returnCode == Signed32(Get32(body[16..20]))
  {
  }

  /**
   * The session's verdicts, down to the bytes: whatever the parameters of a
   * reply, what the session makes of it is decided by the class and the
   * signed code in its template.
   */
  lemma VerdictsOfBytes(errorClass: u16, returnCode: u32, ps: seq<Param>, answers: nat, block: Option<Job.Block>)
    requires AllFit(ps) && Parsed(Template(errorClass, returnCode) + Encode(ps)).Success?
    ensures var r := Seen(Parsed(Template(errorClass, returnCode) + Encode(ps)).value, answers, block);
      && (Job.Failed(r) <==> errorClass != 0 && returnCode >= 0x8000_0000)
      && (Job.EndOfData(r) <==> (errorClass, returnCode) in {(1, 100), (2, 700), (2, 701)})
      && (Job.CursorClosedByServer(r) <==> (errorClass, returnCode) == (2, 700))
  {
    hide Parsed, Encode, Says, Template, LengthsOf, RowCount;
    ReplyRoundTrip(errorClass, returnCode, ps);
  }

  /** The row count is the signed number in bytes 104 to 107 of the SQLCA, if it is that long. */
  lemma RowCountIsThere(r: Reply, before: seq<byte>, n: u32, behind: seq<byte>)
    requires |before| == 104 && r.sqlca == before + U32(n) + behind
    ensures RowCount(r) == if n < 0x8000_0000 then n as int else n as int - 0x1_0000_0000
  {
    hide Get32, U32;
    assert r.sqlca[104..108] == U32(n);
    GetU32(n);
  }

  lemma NoRowCount(r: Reply)
    requires |r.sqlca| < 108
    ensures RowCount(r) == 0
  {
  }
}
