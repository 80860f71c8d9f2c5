/** Program calls: the request's layout, and the reply's output parameters. */
module CallProgram {
  import opened Wrappers
  import opened Bytes
  import Ebcdic
  import Messages
  import Params
  import Rle

  /** A parameter's direction. `Unlisted` stands for any other value of the integer type. */
  datatype Usage = Input | Output | InOut | Null | Unlisted

  type i32 = n: int | -0x8000_0000 <= n < 0x8000_0000

  /** What of a parameter the request depends on. */
  datatype Arg = Arg(usage: Usage, maxLength: i32, input: seq<byte>)

  class Parameter {
    const arg: Arg
    var outputData: seq<byte>

    constructor (arg: Arg)
      ensures this.arg == arg && outputData == []
    {
      this.arg := arg;
      outputData := [];
    }
  }

  function ArgsOf(params: seq<Parameter>): (args: seq<Arg>)
    ensures |args| == |params|
  {
    seq(|params|, i requires 0 <= i < |params| => params[i].arg)
  }

  const UP_TO_10: byte := 0
  const NO_MESSAGES: byte := 1
  const ALL_MESSAGES: byte := 2

  function RemapMessageCount(level: u16, option: byte): byte {
    var count := if level < 7 && option == ALL_MESSAGES then UP_TO_10 else option;
    if level >= 11 then
      if count == UP_TO_10 then 5 else if count == ALL_MESSAGES then 6 else count
    else if level >= 10 then
      if count == UP_TO_10 then 3 else if count == ALL_MESSAGES then 4 else count
    else count
  }

  /** The byte for each option: up to ten messages, none, and all of them. */
  lemma OptionsOnTheWire(level: u16)
    ensures RemapMessageCount(level, 0) == if level >= 11 then 5 else if level == 10 then 3 else 0
    ensures RemapMessageCount(level, 1) == 1
    ensures RemapMessageCount(level, 2)
         == if level >= 11 then 6 else if level == 10 then 4 else if level >= 7 then 2 else 0
  {
  }

  /** The three options stay apart on the wire exactly from level 7 on; below it, all messages means up to ten. */
  lemma OptionsStayApart(level: u16)
    ensures RemapMessageCount(level, NO_MESSAGES) == NO_MESSAGES
    ensures RemapMessageCount(level, UP_TO_10) != NO_MESSAGES && RemapMessageCount(level, ALL_MESSAGES) != NO_MESSAGES
    ensures RemapMessageCount(level, UP_TO_10) == RemapMessageCount(level, ALL_MESSAGES) <==> level < 7
  {
  }

  // ----- Trailing zeros -----

  function Trimmed(b: seq<byte>): (t: seq<byte>)
    ensures |t| <= |b|
  {
    if b != [] && b[|b| - 1] == 0 then Trimmed(b[..|b| - 1]) else b
  }

  method TrimTrailingZeros(b: seq<byte>) returns (t: seq<byte>)
    ensures t == Trimmed(b)
  {
    var n := |b|;
    assert b[..n] == b;
    while n > 0 && b[n - 1] == 0
      invariant n <= |b| && Trimmed(b) == Trimmed(b[..n])
    {
      assert b[..n][..n - 1] == b[..n - 1];
      n := n - 1;
    }
    return b[..n];
  }

  /** What is trimmed is zeros, all of them: the server's zero-filling restores the data. */
  lemma {:induction false} ZeroFillRestores(b: seq<byte>)
    ensures Trimmed(b) + Zeros(|b| - |Trimmed(b)|) == b
    ensures Trimmed(b) != [] ==> Trimmed(b)[|Trimmed(b)| - 1] != 0
  {
    if b != [] && b[|b| - 1] == 0 {
      ZeroFillRestores(b[..|b| - 1]);
      SplitZeros(|b| - |Trimmed(b)|, |b| - 1 - |Trimmed(b)|);
      assert b == b[..|b| - 1] + [0];
    }
  }

  // ----- The request -----

  const USAGE_INPUT: u16 := 11
  const USAGE_OUTPUT: u16 := 22
  const USAGE_OUTPUT_REPEATED: u16 := 23
  const PARAMETER: u16 := 0x1103
  const HEAD: nat := 23
  const ENTRY: nat := 12

  datatype Resolved = Resolved(usage: u16, data: seq<byte>)

  function Resolve(arg: Arg, level: u16): Resolved {
    match arg.usage
    case Output => Resolved(USAGE_OUTPUT, [])
    case Null => Resolved(if level < 6 then 1 else 0xFF, [])
    case _ =>
      Resolved(
        if arg.usage == InOut then if level >= 5 then 33 else 13 else USAGE_INPUT,
        Trimmed(arg.input))
  }

  method ResolveParam(p: Parameter, level: u16) returns (r: Resolved)
    ensures r == Resolve(p.arg, level)
  {
    if p.arg.usage == Output {
      return Resolved(USAGE_OUTPUT, []);
    } else if p.arg.usage == Null {
      return Resolved(if level < 6 then 1 else 0xFF, []);
    }
    var data := TrimTrailingZeros(p.arg.input);
    var usage: u16 := USAGE_INPUT;
    if p.arg.usage == InOut {
      usage := if level >= 5 then 33 else 13;
    }
    return Resolved(usage, data);
  }

  /** uint32 of a signed integer, and back. */
  function Unsigned(n: i32): u32 {
    if n < 0 then n + 0x1_0000_0000 else n
  }

  function Signed(n: u32): i32 {
    if n < 0x8000_0000 then n else n - 0x1_0000_0000
  }

  /** One parameter as an LL/CP entry: its maximum length, its usage, and its data. */
  function EntryOf(arg: Arg, level: u16): Params.Param {
    var r := Resolve(arg, level);
    Params.Param(PARAMETER, U32(Unsigned(arg.maxLength)) + U16(r.usage) + r.data)
  }

  function EntriesOf(args: seq<Arg>, level: u16): (ps: seq<Params.Param>)
    ensures |ps| == |args|
  {
    seq(|args|, i requires 0 <= i < |args| => EntryOf(args[i], level))
  }

  function Head(prog: seq<byte>, lib: seq<byte>, count: byte, n: nat): seq<byte> {
    prog + lib + [count] + U16(Cut16(n))
  }

  function Body(prog: seq<byte>, lib: seq<byte>, args: seq<Arg>, level: u16, option: byte): seq<byte> {
    Head(prog, lib, RemapMessageCount(level, option), |args|) + Params.Encode(EntriesOf(args, level))
  }

  datatype NameError = BadProgramName | BadLibraryName

  /** buildCallProgramRequest; `upper` puts a name in upper case, however the Unicode tables have it. */
  function Request(
    upper: string -> string, library: string, program: string, args: seq<Arg>, level: u16, option: byte
  ): Result<seq<byte>, NameError> {
    var prog, lib := Ebcdic.EncodePadded(upper(program), 10), Ebcdic.EncodePadded(upper(library), 10);
    if prog.None? then Failure(BadProgramName)
    else if lib.None? then Failure(BadLibraryName)
    else Success(Body(prog.value, lib.value, args, level, option))
  }

  lemma {:induction false} EncodeAppend(ps: seq<Params.Param>, p: Params.Param)
    ensures Params.Encode(ps + [p]) == Params.Encode(ps) + Params.Entry(p)
  {
    if ps == [] {
      assert ps + [p] == [p] && [p][1..] == [];
    } else {
      assert (ps + [p])[1..] == ps[1..] + [p];
      EncodeAppend(ps[1..], p);
    }
  }

  /** The encoding of the first i entries, and of one more. */
  function EncodedUpTo(args: seq<Arg>, level: u16, i: nat): seq<byte>
    requires i <= |args|
  {
    Params.Encode(EntriesOf(args, level)[..i])
  }

  lemma OneMoreEncoded(args: seq<Arg>, level: u16, i: nat)
    requires i < |args|
    ensures EncodedUpTo(args, level, i + 1) == EncodedUpTo(args, level, i) + Params.Entry(EntryOf(args[i], level))
  {
    var ps := EntriesOf(args, level);
    assert ps[..i + 1] == ps[..i] + [ps[i]];
    EncodeAppend(ps[..i], ps[i]);
  }

  lemma {:induction false} EncodedGrows(args: seq<Arg>, level: u16, i: nat, j: nat)
    requires i <= j <= |args|
    ensures |EncodedUpTo(args, level, i)| <= |EncodedUpTo(args, level, j)|
    decreases j - i
  {
    if i < j {
      EncodedGrows(args, level, i, j - 1);
      OneMoreEncoded(args, level, j - 1);
    }
  }

  lemma AllEncoded(args: seq<Arg>, level: u16)
    ensures EncodedUpTo(args, level, 0) == []
    ensures EncodedUpTo(args, level, |args|) == Params.Encode(EntriesOf(args, level))
  {
    assert EntriesOf(args, level)[..|args|] == EntriesOf(args, level);
  }

  method BuildCallProgramRequest(
    upper: string -> string, library: string, program: string, params: seq<Parameter>, level: u16, option: byte
  ) returns (r: Result<seq<byte>, NameError>)
    ensures r == Request(upper, library, program, ArgsOf(params), level, option)
  {
    hide Params.Encode, Params.Entry, EncodedUpTo;
    var prog := Ebcdic.EncodePadded(upper(program), 10);
    if prog.None? {
      return Failure(BadProgramName);
    }
    var lib := Ebcdic.EncodePadded(upper(library), 10);
    if lib.None? {
      return Failure(BadLibraryName);
    }
    ghost var args := ArgsOf(params);
    AllEncoded(args, level);
    var resolved: seq<Resolved> := [];
    var bodyLen := HEAD;
    for i := 0 to |params|
      invariant |resolved| == i && forall j :: 0 <= j < i ==> resolved[j] == Resolve(args[j], level)
      invariant bodyLen == HEAD + |EncodedUpTo(args, level, i)|
    {
      var e := ResolveParam(params[i], level);
      resolved := resolved + [e];
      OneMoreEncoded(args, level, i);
      bodyLen := bodyLen + ENTRY + |e.data|;
    }
    var body := new byte[bodyLen](_ => 0);
    ghost var head := Head(prog.value, lib.value, RemapMessageCount(level, option), |args|);
    FillHead(body, prog.value, lib.value, RemapMessageCount(level, option), |params|);
    var idx := HEAD;
    for i := 0 to |params|
      invariant idx == HEAD + |EncodedUpTo(args, level, i)| <= bodyLen
      invariant body[..] == head + EncodedUpTo(args, level, i) + Zeros(bodyLen - idx)
    {
      OneMoreEncoded(args, level, i);
      EncodedGrows(args, level, i + 1, |args|);
      FillEntry(body, idx, head + EncodedUpTo(args, level, i), params[i].arg, resolved[i], level);
      assert head + EncodedUpTo(args, level, i) + Params.Entry(EntryOf(args[i], level))
          == head + EncodedUpTo(args, level, i + 1);
      idx := idx + ENTRY + |resolved[i].data|;
    }
    assert body[..] == Body(prog.value, lib.value, args, level, option);
    r := Success(body[..]);
  }

  method FillHead(body: array<byte>, prog: seq<byte>, lib: seq<byte>, count: byte, n: nat)
    requires |prog| == |lib| == 10 && body.Length >= HEAD && body[..] == Zeros(body.Length)
    modifies body
    ensures body[..] == Head(prog, lib, count, n) + Zeros(body.Length - HEAD)
  {
    assert body[..] == [] + Zeros(body.Length);
    Fill(body, 0, [], prog);
    assert [] + prog == prog;
    Fill(body, 10, prog, lib);
    Fill(body, 20, prog + lib, [count]);
    Fill(body, 21, prog + lib + [count], U16(Cut16(n)));
  }

  method FillEntry(body: array<byte>, idx: nat, ghost done: seq<byte>, arg: Arg, e: Resolved, level: u16)
    requires e == Resolve(arg, level) && |done| == idx && idx + ENTRY + |e.data| <= body.Length
    requires body[..] == done + Zeros(body.Length - idx)
    modifies body
    ensures body[..] == done + Params.Entry(EntryOf(arg, level)) + Zeros(body.Length - idx - ENTRY - |e.data|)
  {
    ghost var d0 := done + U32(Cut32(|e.data| + ENTRY));
    ghost var d1 := d0 + U16(PARAMETER);
    ghost var d2 := d1 + U32(Unsigned(arg.maxLength));
    ghost var d3 := d2 + U16(e.usage);
    Fill(body, idx, done, U32(Cut32(|e.data| + ENTRY)));
    Fill(body, idx + 4, d0, U16(PARAMETER));
    Fill(body, idx + 6, d1, U32(Unsigned(arg.maxLength)));
    Fill(body, idx + 10, d2, U16(e.usage));
    if |e.data| > 0 {
      Fill(body, idx + 12, d3, e.data);
    }
    EntryPieces(done, arg, e, level);
    assert d3 + [] == d3;
  }

  lemma EntryPieces(done: seq<byte>, arg: Arg, e: Resolved, level: u16)
    requires e == Resolve(arg, level)
    ensures done + U32(Cut32(|e.data| + ENTRY)) + U16(PARAMETER) + U32(Unsigned(arg.maxLength)) + U16(e.usage) + e.data
            == done + Params.Entry(EntryOf(arg, level))
    ensures |Params.Entry(EntryOf(arg, level))| == ENTRY + |e.data|
  {
    hide Resolve, U32, U16;
    var p := EntryOf(arg, level);
    assert |p.data| == 6 + |e.data|;
  }

  /** Whether a parameter's entry has a length that fits its field. */
  predicate Sendable(arg: Arg, level: u16) {
    ENTRY + |Resolve(arg, level).data| < 0x1_0000_0000
  }

  /**
   * A request body is a 23-byte head and then, exactly if every length fits
   * its field, one LL/CP entry per parameter and nothing else.
   */
  lemma RequestDecodes(prog: seq<byte>, lib: seq<byte>, args: seq<Arg>, level: u16, option: byte)
    requires |prog| == |lib| == 10
    ensures var body := Body(prog, lib, args, level, option);
      && |body| >= 23 && body[..10] == prog && body[10..20] == lib
      && body[20] == RemapMessageCount(level, option) && Get16(body[21..23]) == Cut16(|args|)
      && (Params.Decode(body[23..]) == Some(EntriesOf(args, level)) <==>
            forall i :: 0 <= i < |args| ==> Sendable(args[i], level))
  {
    hide Resolve, Params.Encode, Params.Decode;
    var ps := EntriesOf(args, level);
    var body := Body(prog, lib, args, level, option);
    Params.DecodeEncode(ps);
    GetU16(Cut16(|args|));
    assert body[21..23] == U16(Cut16(|args|));
    assert body[HEAD..] == Params.Encode(ps);
    assert forall i :: 0 <= i < |args| ==> (Params.Fits(ps[i]) <==> Sendable(args[i], level));
  }

  /** What the server finds in an entry is what the caller gave: length, usage, and, zero-filled, the input data. */
  lemma EntryHolds(arg: Arg, level: u16)
    ensures var d := EntryOf(arg, level).data;
      && |d| >= 6
      && Signed(Get32(d[..4])) == arg.maxLength
      && Get16(d[4..6]) == Resolve(arg, level).usage
      && if arg.usage == Output || arg.usage == Null then
           d[6..] == []
         else
           |d| - 6 <= |arg.input| && d[6..] + Zeros(|arg.input| - (|d| - 6)) == arg.input
  {
    hide Trimmed, Get32, Get16;
    var d := EntryOf(arg, level).data;
    var r := Resolve(arg, level);
    assert d[..4] == U32(Unsigned(arg.maxLength)) && d[4..6] == U16(r.usage) && d[6..] == r.data;
    GetU32(Unsigned(arg.maxLength));
    GetU16(r.usage);
    ZeroFillRestores(arg.input);
  }

  /** The code point of an entry, and the usage by direction: what the server tells a parameter's kind by. */
  lemma UsageOnTheWire(arg: Arg, level: u16)
    ensures EntryOf(arg, level).codePoint == 0x1103
    ensures Resolve(arg, level).usage ==
      match arg.usage
      case Input => 11
      case Output => 22
      case InOut => if level >= 5 then 33 else 13
      case Null => if level >= 6 then 255 else 1
      case Unlisted => 11
  {
  }

  /** A server that knows the level reads the direction of a parameter off its usage, an unlisted one as input. */
  lemma UsageTellsDirection(a: Arg, b: Arg, level: u16)
    requires a.usage != Unlisted && b.usage != Unlisted
    ensures Resolve(a, level).usage == Resolve(b, level).usage <==> a.usage == b.usage
  {
  }

  // ----- The reply -----

  const FIRST_OUTPUT: nat := 4

  datatype OutputError = Truncated | InvalidLength | InvalidCompression

  predicate Wants(arg: Arg) {
    (arg.usage == Output || arg.usage == InOut) && arg.maxLength > 0
  }

  /** The parameters that get an output. */
  lemma WhoWants(arg: Arg)
    ensures match arg.usage
      case Output => Wants(arg) <==> arg.maxLength >= 1
      case InOut => Wants(arg) <==> arg.maxLength >= 1
      case _ => !Wants(arg)
  {
  }

  predicate IsCompressed(usage: u16) {
    usage == USAGE_OUTPUT || usage == USAGE_OUTPUT_REPEATED
  }

  /** The output in the entry at idx, and where the next entry begins. */
  function OutputAt(body: seq<byte>, idx: nat): Result<(seq<byte>, nat), OutputError> {
    if idx + ENTRY > |body| then Failure(Truncated)
    else
      var len := Get32(body[idx..idx + 4]);
      if len < ENTRY || idx + len > |body| then Failure(InvalidLength)
      else
        var raw := body[idx + ENTRY..idx + len];
        if !IsCompressed(Get16(body[idx + 10..idx + 12])) then Success((raw, idx + len))
        else if Rle.Decompressed(raw).None? then Failure(InvalidCompression)
        else Success((Rle.Decompressed(raw).value, idx + len))
  }

  /** The outputs given to the parameters before an error, if there is one: None where a parameter gets none. */
  datatype Outcome = Outcome(outputs: seq<Option<seq<byte>>>, error: Option<OutputError>)

  function Before(outputs: seq<Option<seq<byte>>>, rest: Outcome): Outcome {
    Outcome(outputs + rest.outputs, rest.error)
  }

  function Outputs(body: seq<byte>, idx: nat, args: seq<Arg>): (r: Outcome)
    ensures |r.outputs| <= |args|
    decreases |args|
  {
    if args == [] then Outcome([], None)
    else if !Wants(args[0]) then Before([None], Outputs(body, idx, args[1..]))
    else
      match OutputAt(body, idx)
      case Failure(e) => Outcome([], Some(e))
      case Success((output, next)) => Before([Some(output)], Outputs(body, next, args[1..]))
  }

  /** The data of p after these outputs: pointers in the list may be equal, and then the last one given stays. */
  function LastGiven(params: seq<Parameter>, outputs: seq<Option<seq<byte>>>, p: Parameter, was: seq<byte>): seq<byte>
    requires |outputs| <= |params|
  {
    if outputs == [] then was
    else
      var k := |outputs| - 1;
      if params[k] == p && outputs[k].Some? then outputs[k].value else LastGiven(params, outputs[..k], p, was)
  }

  method ParseCallProgramOutput(body: seq<byte>, params: seq<Parameter>) returns (error: Option<OutputError>)
    modifies params`outputData
    ensures error == Outputs(body, 4, ArgsOf(params)).error
    ensures forall p :: p in params ==>
      p.outputData == LastGiven(params, Outputs(body, 4, ArgsOf(params)).outputs, p, old(p.outputData))
  {
    hide OutputAt;
    ghost var args := ArgsOf(params);
    ghost var given: seq<Option<seq<byte>>> := [];
    var idx := FIRST_OUTPUT;
    assert args[0..] == args;
    for i := 0 to |params|
      invariant |given| == i
      invariant Outputs(body, FIRST_OUTPUT, args) == Before(given, Outputs(body, idx, args[i..]))
      invariant forall p :: p in params ==> p.outputData == LastGiven(params, given, p, old(p.outputData))
    {
      assert args[i..][1..] == args[i + 1..];
      var p := params[i];
      if !Wants(p.arg) {
        given := GiveNone(given, Outputs(body, idx, args[i + 1..]));
        continue;
      }
      var r := ReadOutput(body, idx);
      if r.Failure? {
        assert given + [] == given;
        return Some(r.error);
      }
      p.outputData := r.value.0;
      given := Give(given, r.value.0, Outputs(body, r.value.1, args[i + 1..]));
      idx := r.value.1;
    }
    assert given + [] == given;
    return None;
  }

  lemma GiveNone(given: seq<Option<seq<byte>>>, rest: Outcome) returns (more: seq<Option<seq<byte>>>)
    ensures more == given + [None] && more[..|given|] == given
    ensures Before(given, Before([None], rest)) == Before(more, rest)
  {
    more := given + [None];
    assert given + ([None] + rest.outputs) == more + rest.outputs;
  }

  lemma Give(given: seq<Option<seq<byte>>>, output: seq<byte>, rest: Outcome) returns (more: seq<Option<seq<byte>>>)
    ensures more == given + [Some(output)] && more[..|given|] == given
    ensures Before(given, Before([Some(output)], rest)) == Before(more, rest)
  {
    more := given + [Some(output)];
    assert given + ([Some(output)] + rest.outputs) == more + rest.outputs;
  }

  /** One round of the loop of parseCallProgramOutput. */
  method ReadOutput(body: seq<byte>, idx: nat) returns (r: Result<(seq<byte>, nat), OutputError>)
    ensures r == OutputAt(body, idx)
  {
    if idx + ENTRY > |body| {
      return Failure(Truncated);
    }
    var byteLength := Get32(body[idx..idx + 4]);
    var declaredLength := Get32(body[idx + 6..idx + 10]);
    var usage := Get16(body[idx + 10..idx + 12]);
    if byteLength < ENTRY || idx + byteLength > |body| {
      return Failure(InvalidLength);
    }
    var raw := body[idx + ENTRY..idx + byteLength];
    if usage == USAGE_OUTPUT || usage == USAGE_OUTPUT_REPEATED {
      var d := Rle.Decompress(raw, declaredLength);
      if d.None? {
        return Failure(InvalidCompression);
      }
      return Success((d.value, idx + byteLength));
    }
    return Success((raw, idx + byteLength));
  }

  // ----- Well-formed replies -----

  /** An output parameter as the server writes it. */
  datatype OutputEntry = OutputEntry(code: u16, declared: u32, usage: u16, raw: seq<byte>)

  predicate WellFormed(o: OutputEntry) {
    12 + |o.raw| < 0x1_0000_0000 && (o.usage == 22 || o.usage == 23 ==> Rle.Decompressed(o.raw).Some?)
  }

  predicate AllWellFormed(os: seq<OutputEntry>) {
    forall i :: 0 <= i < |os| ==> WellFormed(os[i])
  }

  function ValueOf(o: OutputEntry): seq<byte>
    requires WellFormed(o)
  {
    if o.usage == 22 || o.usage == 23 then Rle.Decompressed(o.raw).value else o.raw
  }

  function Render(o: OutputEntry): (b: seq<byte>)
    requires WellFormed(o)
    ensures |b| == 12 + |o.raw|
  {
    U32(12 + |o.raw|) + U16(o.code) + U32(o.declared) + U16(o.usage) + o.raw
  }

  function RenderAll(os: seq<OutputEntry>): seq<byte>
    requires AllWellFormed(os)
  {
    if os == [] then [] else Render(os[0]) + RenderAll(os[1..])
  }

  function CountWanted(args: seq<Arg>): nat {
    if args == [] then 0 else (if Wants(args[0]) then 1 else 0) + CountWanted(args[1..])
  }

  /** Each parameter that wants an output gets the next one, and no other parameter gets any. */
  ghost predicate InTurn(args: seq<Arg>, os: seq<OutputEntry>, outputs: seq<Option<seq<byte>>>)
    requires AllWellFormed(os)
  {
    && |outputs| == |args| && |os| == CountWanted(args)
    && forall i :: 0 <= i < |args| ==>
      if Wants(args[i]) then
        CountWanted(args[..i]) < |os| && outputs[i] == Some(ValueOf(os[CountWanted(args[..i])]))
      else
        outputs[i] == None
  }

  function Dealt(args: seq<Arg>, os: seq<OutputEntry>): (outputs: seq<Option<seq<byte>>>)
    requires AllWellFormed(os) && |os| == CountWanted(args)
    ensures |outputs| == |args|
  {
    if args == [] then []
    else if Wants(args[0]) then [Some(ValueOf(os[0]))] + Dealt(args[1..], os[1..])
    else [None] + Dealt(args[1..], os)
  }

  lemma {:induction false} DealtInTurn(args: seq<Arg>, os: seq<OutputEntry>)
    requires AllWellFormed(os) && |os| == CountWanted(args)
    ensures InTurn(args, os, Dealt(args, os))
  {
    hide WellFormed, ValueOf, Wants;
    if args != [] {
      var rest := if Wants(args[0]) then os[1..] else os;
      DealtInTurn(args[1..], rest);
      forall i | 0 < i < |args|
        ensures CountWanted(args[..i]) == (if Wants(args[0]) then 1 else 0) + CountWanted(args[1..][..i - 1])
      {
        assert args[..i][1..] == args[1..][..i - 1];
      }
    }
  }

  lemma OutputReadsBack(a: seq<byte>, o: OutputEntry, c: seq<byte>)
    requires WellFormed(o)
    ensures OutputAt(a + Render(o) + c, |a|) == Success((ValueOf(o), |a| + ENTRY + |o.raw|))
  {
    hide Get32, Get16, U32, U16, Rle.Decompressed;
    var body := a + Render(o) + c;
    var r := Render(o);
    RenderParts(o);
    assert body[|a|..|a| + |r|] == r;
    assert body[|a|..|a| + 4] == r[..4];
    assert body[|a| + 10..|a| + 12] == r[10..12];
    assert body[|a| + ENTRY..|a| + |r|] == r[ENTRY..];
    GetU32(ENTRY + |o.raw|);
    GetU16(o.usage);
  }

  lemma RenderParts(o: OutputEntry)
    requires WellFormed(o)
    ensures var r := Render(o);
      r[..4] == U32(ENTRY + |o.raw|) && r[10..12] == U16(o.usage) && r[ENTRY..] == o.raw
  {
  }

  /** A successful read was of a rendered output. */
  lemma OutputWasRendered(body: seq<byte>, idx: nat) returns (o: OutputEntry)
    requires OutputAt(body, idx).Success?
    ensures WellFormed(o) && OutputAt(body, idx).value == (ValueOf(o), idx + ENTRY + |o.raw|)
    ensures idx + ENTRY + |o.raw| <= |body| && body[idx..idx + ENTRY + |o.raw|] == Render(o)
  {
    hide Get32, Get16, U32, U16, Rle.Decompressed;
    var len := Get32(body[idx..idx + 4]);
    var raw := body[idx + ENTRY..idx + len];
    o := OutputEntry(
      Get16(body[idx + 4..idx + 6]), Get32(body[idx + 6..idx + 10]), Get16(body[idx + 10..idx + 12]), raw);
    U32Get(body[idx..idx + 4]);
    U16Get(body[idx + 4..idx + 6]);
    U32Get(body[idx + 6..idx + 10]);
    U16Get(body[idx + 10..idx + 12]);
    assert body[idx..idx + len]
        == body[idx..idx + 4] + body[idx + 4..idx + 6] + body[idx + 6..idx + 10] + body[idx + 10..idx + 12] + raw;
  }

  lemma {:induction false} OutputsReadBack(a: seq<byte>, args: seq<Arg>, os: seq<OutputEntry>, c: seq<byte>)
    requires AllWellFormed(os) && |os| == CountWanted(args)
    ensures Outputs(a + RenderAll(os) + c, |a|, args) == Outcome(Dealt(args, os), None)
    decreases |args|
  {
    hide OutputAt, Render, WellFormed, ValueOf, Wants;
    if args != [] {
      if Wants(args[0]) {
        var next := a + Render(os[0]);
        OutputReadsBack(a, os[0], RenderAll(os[1..]) + c);
        assert a + RenderAll(os) + c == a + Render(os[0]) + (RenderAll(os[1..]) + c) == next + RenderAll(os[1..]) + c;
        OutputsReadBack(next, args[1..], os[1..], c);
      } else {
        OutputsReadBack(a, args[1..], os, c);
      }
    }
  }

  lemma {:induction false} OutputsWereRendered(body: seq<byte>, idx: nat, args: seq<Arg>) returns (os: seq<OutputEntry>)
    requires idx <= |body| && Outputs(body, idx, args).error == None
    ensures AllWellFormed(os) && |os| == CountWanted(args)
    ensures idx + |RenderAll(os)| <= |body| && body[idx..idx + |RenderAll(os)|] == RenderAll(os)
    ensures Outputs(body, idx, args).outputs == Dealt(args, os)
    decreases |args|
  {
    hide OutputAt, Render, WellFormed, ValueOf, Wants;
    os := [];
    if args != [] {
      if Wants(args[0]) {
        var o := OutputWasRendered(body, idx);
        var next := idx + ENTRY + |o.raw|;
        var rest := OutputsWereRendered(body, next, args[1..]);
        os := [o] + rest;
        assert os[1..] == rest;
        assert body[idx..next] + body[next..next + |RenderAll(rest)|] == body[idx..next + |RenderAll(rest)|];
      } else {
        os := OutputsWereRendered(body, idx, args[1..]);
      }
    }
  }

  /**
   * A reply is accepted exactly if it holds one well-formed entry for each
   * parameter that wants one, in order, with anything after them; and then
   * each such parameter gets its own entry, decompressed where compressed.
   */
  lemma OutputsGoWhereTheyBelong(rc: seq<byte>, rest: seq<byte>, args: seq<Arg>, outputs: seq<Option<seq<byte>>>)
    requires |rc| == 4
    ensures Outputs(rc + rest, 4, args) == Outcome(outputs, None)
            <==> exists os, tail :: AllWellFormed(os) && rest == RenderAll(os) + tail && InTurn(args, os, outputs)
  {
    hide Outputs, WellFormed, ValueOf, Wants, RenderAll, InTurn;
    var body := rc + rest;
    if Outputs(body, FIRST_OUTPUT, args) == Outcome(outputs, None) {
      var os := OutputsWereRendered(body, FIRST_OUTPUT, args);
      DealtInTurn(args, os);
      assert rest == RenderAll(os) + rest[|RenderAll(os)|..];
    }
    forall os, tail | AllWellFormed(os) && rest == RenderAll(os) + tail && InTurn(args, os, outputs)
      ensures Outputs(body, FIRST_OUTPUT, args) == Outcome(outputs, None)
    {
      InTurnIsDealt(args, os, outputs);
      OutputsReadBack(rc, args, os, tail);
      assert body == rc + RenderAll(os) + tail;
    }
  }

  lemma InTurnIsDealt(args: seq<Arg>, os: seq<OutputEntry>, outputs: seq<Option<seq<byte>>>)
    requires AllWellFormed(os) && InTurn(args, os, outputs)
    ensures |os| == CountWanted(args) && outputs == Dealt(args, os)
  {
    hide WellFormed, ValueOf, Wants;
    DealtInTurn(args, os);
  }

  /** With distinct parameters, each ends with what it was given, and every other one as it was. */
  lemma {:induction false} DistinctKeepTheirOwn(
    params: seq<Parameter>, outputs: seq<Option<seq<byte>>>, i: nat, was: seq<byte>
  )
    requires |outputs| <= |params| && i < |params| && forall j :: 0 <= j < |params| && j != i ==> params[j] != params[i]
    ensures LastGiven(params, outputs, params[i], was)
         == if i < |outputs| && outputs[i].Some? then outputs[i].value else was
  {
    if |outputs| > 0 {
      DistinctKeepTheirOwn(params, outputs[..|outputs| - 1], i, was);
    }
  }

  /** A parameter that takes no output is never written, whatever the reply and however pointers coincide. */
  lemma {:induction false} OthersAreUntouched(body: seq<byte>, params: seq<Parameter>, p: Parameter, was: seq<byte>)
    requires !Wants(p.arg)
    ensures LastGiven(params, Outputs(body, FIRST_OUTPUT, ArgsOf(params)).outputs, p, was) == was
  {
    NoneUnlessWanted(body, FIRST_OUTPUT, ArgsOf(params));
    NothingGiven(params, Outputs(body, FIRST_OUTPUT, ArgsOf(params)).outputs, p, was);
  }

  lemma {:induction false} NoneUnlessWanted(body: seq<byte>, idx: nat, args: seq<Arg>)
    ensures var outputs := Outputs(body, idx, args).outputs;
      forall i :: 0 <= i < |outputs| && !Wants(args[i]) ==> outputs[i] == None
    decreases |args|
  {
    hide OutputAt, Wants;
    if args != [] {
      if !Wants(args[0]) {
        NoneUnlessWanted(body, idx, args[1..]);
      } else if OutputAt(body, idx).Success? {
        NoneUnlessWanted(body, OutputAt(body, idx).value.1, args[1..]);
      }
    }
  }

  lemma {:induction false} NothingGiven(
    params: seq<Parameter>, outputs: seq<Option<seq<byte>>>, p: Parameter, was: seq<byte>
  )
    requires |outputs| <= |params| && forall i :: 0 <= i < |outputs| && params[i] == p ==> outputs[i] == None
    ensures LastGiven(params, outputs, p, was) == was
  {
    if |outputs| > 0 {
      NothingGiven(params, outputs[..|outputs| - 1], p, was);
    }
  }

  // ----- The call, once it has been answered -----

  datatype CallOutcome =
    | TooShort
    | Failed(code: u16, messages: seq<Messages.Message>)
    | BadOutput(error: OutputError, messages: seq<Messages.Message>)
    | Completed(messages: seq<Messages.Message>)

  /** CallProgram from its reply on. */
  method FinishCall(body: seq<byte>, params: seq<Parameter>) returns (r: CallOutcome)
    modifies params`outputData
    ensures r.TooShort? <==> |body| < 2
    ensures !r.TooShort? ==> r.messages == Messages.ParsedList(body)
    ensures r.Failed? <==> |body| >= 2 && Get16(body[..2]) != 0
    ensures r.TooShort? || r.Failed? ==> forall p :: p in params ==> p.outputData == old(p.outputData)
    ensures r.BadOutput? || r.Completed? ==>
      var o := Outputs(body, FIRST_OUTPUT, ArgsOf(params));
      && o.error == (if r.Completed? then None else Some(r.error))
      && forall p :: p in params ==> p.outputData == LastGiven(params, o.outputs, p, old(p.outputData))
  {
    if |body| < 2 {
      return TooShort;
    }
    var rc := Get16(body[..2]);
    var messages := Messages.ParseMessages(body);
    if rc != 0 {
      return Failed(rc, messages);
    }
    var error := ParseCallProgramOutput(body, params);
    if error.Some? {
      return BadOutput(error.value, messages);
    }
    return Completed(messages);
  }
}
