/** as-database requests on the wire: template, parameters, datastream, stream. */
module DbRequest {
  import opened Wrappers
  import opened Bytes
  import opened Params
  import D = Datastream

  const TEMPLATE_LENGTH: nat := 20
  const SERVER_DATABASE: u16 := 0xE004

  datatype Request = Request(functionID: u16, rpbID: u16, ors: u32, pmHandle: u16, params: seq<Param>)

  function Template(r: Request): (b: seq<byte>)
    ensures |b| == TEMPLATE_LENGTH
  {
    U32(r.ors) + Zeros(4) + U16(r.rpbID) + U16(r.rpbID) + Zeros(2)
    + U16(r.rpbID) + U16(r.pmHandle) + U16(Cut16(|r.params|))
  }

  function ToFrame(r: Request, correlation: u32): D.Frame {
    D.Frame(SERVER_DATABASE, 0, correlation, TEMPLATE_LENGTH, r.functionID, Template(r) + Encode(r.params))
  }

  method EncodeTemplate(r: Request) returns (t: seq<byte>)
    ensures t == Template(r)
  {
    hide U16, U32, Zeros;
    var body := new byte[TEMPLATE_LENGTH](_ => 0);
    AllZeros(body[..]);
    FillStart(body, r);
    FillEnd(body, U32(r.ors) + Zeros(4) + U16(r.rpbID) + U16(r.rpbID) + Zeros(2), r);
    return body[..];
  }

  method FillStart(body: array<byte>, r: Request)
    requires body.Length == TEMPLATE_LENGTH && body[..] == Zeros(TEMPLATE_LENGTH)
    modifies body
    ensures body[..] == U32(r.ors) + Zeros(4) + U16(r.rpbID) + U16(r.rpbID) + Zeros(2) + Zeros(6)
  {
    hide U16, U32, Zeros;
    ghost var done: seq<byte> := [];
    assert body[..] == done + Zeros(TEMPLATE_LENGTH);
    Fill(body, 0, done, U32(r.ors));
    assert done + U32(r.ors) == U32(r.ors);
    done := U32(r.ors) + Zeros(4);                   // reserved
    SplitZeros(16, 4);
    Fill(body, 8, done, U16(r.rpbID));               // return ORS handle
    done := done + U16(r.rpbID);
    Fill(body, 10, done, U16(r.rpbID));              // fill ORS handle
    SplitZeros(8, 2);                                // based-on ORS handle: no request chaining
  }

  method FillEnd(body: array<byte>, ghost done: seq<byte>, r: Request)
    requires |done| == 14 && body.Length == TEMPLATE_LENGTH && body[..] == done + Zeros(6)
    modifies body
    ensures body[..] == done + U16(r.rpbID) + U16(r.pmHandle) + U16(Cut16(|r.params|))
  {
    hide U16, Zeros;
    Fill(body, 14, done, U16(r.rpbID));              // RPB handle
    Fill(body, 16, done + U16(r.rpbID), U16(r.pmHandle));
    Fill(body, 18, done + U16(r.rpbID) + U16(r.pmHandle), U16(Cut16(|r.params|)));
  }

  method EncodeRequest(r: Request, correlation: u32) returns (f: D.Frame)
    ensures f == ToFrame(r, correlation)
  {
    var body := EncodeTemplate(r);
    var params := EncodeParams(r.params);
    return D.Frame(SERVER_DATABASE, 0, correlation, TEMPLATE_LENGTH, r.functionID, body + params);
  }

  /** How a server reads a request: all three statement handles agree and the parameter count is right. */
  function Parse(f: D.Frame): Option<Request> {
    var b := f.body;
    if f.serverID != SERVER_DATABASE || f.templateLen != TEMPLATE_LENGTH || |b| < TEMPLATE_LENGTH then None
    else
      var rpb := Get16(b[14..16]);
      var params := Decode(b[TEMPLATE_LENGTH..]);
      if Get16(b[8..10]) != rpb || Get16(b[10..12]) != rpb then None
      else if params.None? || Get16(b[18..20]) as int != |params.value| then None
      else Some(Request(f.reqRepID, rpb, Get32(b[..4]), Get16(b[16..18]), params.value))
  }

  /** Whether every length and count of a request fits its field. */
  predicate Sound(r: Request) {
    AllFit(r.params) && |r.params| < 0x1_0000
  }

  lemma TemplateFields(r: Request, b: seq<byte>)
    requires |b| >= TEMPLATE_LENGTH && b[..TEMPLATE_LENGTH] == Template(r)
    ensures Get32(b[..4]) == r.ors
    ensures Get16(b[8..10]) == Get16(b[10..12]) == Get16(b[14..16]) == r.rpbID
    ensures Get16(b[16..18]) == r.pmHandle && Get16(b[18..20]) == Cut16(|r.params|)
  {
    var t := Template(r);
    assert b[..4] == t[..4] == U32(r.ors);
    assert b[8..10] == t[8..10] == U16(r.rpbID) && b[10..12] == t[10..12] == U16(r.rpbID);
    assert b[14..16] == t[14..16] == U16(r.rpbID) && b[16..18] == t[16..18] == U16(r.pmHandle);
    assert b[18..20] == t[18..20] == U16(Cut16(|r.params|));
    GetU32(r.ors);
  }

  /** The server recovers the function, the handles, the bitmap and the parameters exactly when they fit. */
  lemma ParseToFrame(r: Request, correlation: u32)
    ensures Parse(ToFrame(r, correlation)) == Some(r) <==> Sound(r)
  {
    hide Encode, Decode, Template, U16, U32, Get16, Get32;
    var b := ToFrame(r, correlation).body;
    assert b[..TEMPLATE_LENGTH] == Template(r);
    assert b[TEMPLATE_LENGTH..] == Encode(r.params);
    TemplateFields(r, b);
    DecodeEncode(r.params);
  }

  /** The correlation counter: it wraps, but past the reserved value 0. */
  function NextCorrelation(c: u32): (n: u32)
    ensures n != 0 && n != c
  {
    var n := Cut32(c + 1);
    if n == 0 then 1 else n
  }

  /** The datastreams a connection sends for a list of requests. */
  function Frames(rs: seq<Request>, correlation: u32): (fs: seq<D.Frame>)
    ensures |fs| == |rs|
  {
    if rs == [] then []
    else
      var c := NextCorrelation(correlation);
      [ToFrame(rs[0], c)] + Frames(rs[1..], c)
  }

  /** Every request in a list of datastreams, if all of them are requests. */
  function ParseAll(fs: seq<D.Frame>): Option<seq<Request>> {
    if fs == [] then Some([])
    else
      var r, rest := Parse(fs[0]), ParseAll(fs[1..]);
      if r.None? || rest.None? then None else Some([r.value] + rest.value)
  }

  /** Whether a request fits the wire: its own fields and the length of its datastream. */
  predicate Sendable(r: Request) {
    Sound(r) && D.HEADER_LENGTH + TEMPLATE_LENGTH + |Encode(r.params)| < 0x1_0000_0000
  }

  lemma SendableArrives(r: Request, correlation: u32)
    requires Sendable(r)
    ensures D.Framed(ToFrame(r, correlation)) && Parse(ToFrame(r, correlation)) == Some(r)
  {
    ParseToFrame(r, correlation);
  }

  predicate AllSendable(rs: seq<Request>) {
    forall i :: 0 <= i < |rs| ==> Sendable(rs[i])
  }

  lemma {:induction false} FramesFramed(rs: seq<Request>, correlation: u32)
    requires AllSendable(rs)
    ensures D.AllFramed(Frames(rs, correlation))
  {
    hide Sendable, ToFrame, D.Framed;
    if rs != [] {
      var c := NextCorrelation(correlation);
      FramesFramed(rs[1..], c);
      SendableArrives(rs[0], c);
    }
  }

  lemma {:induction false} FramesParse(rs: seq<Request>, correlation: u32)
    requires AllSendable(rs)
    ensures ParseAll(Frames(rs, correlation)) == Some(rs)
  {
    assert rs == [] ==> ParseAll([]) == Some(rs);
    hide Sendable, ToFrame, Parse, NextCorrelation, ParseAll;
    if rs != [] {
      var c := NextCorrelation(correlation);
      FramesParse(rs[1..], c);
      SendableArrives(rs[0], c);
      ParseOneMore(ToFrame(rs[0], c), Frames(rs[1..], c), rs[0], rs[1..]);
      assert rs == [rs[0]] + rs[1..];
    }
  }

  lemma ParseOneMore(f: D.Frame, fs: seq<D.Frame>, r: Request, rs: seq<Request>)
    requires Parse(f) == Some(r) && ParseAll(fs) == Some(rs)
    ensures ParseAll([f] + fs) == Some([r] + rs)
  {
    hide Parse;
    assert ([f] + fs)[1..] == fs;
  }

  /** The bytes of a list of requests, recovered one by one with none left over. */
  function Received(s: seq<byte>): Option<seq<Request>> {
    var fs := D.ReadAll(s);
    if fs.None? then None else ParseAll(fs.value)
  }

  /** The whole stack, from requests to one byte stream and back. */
  lemma StreamRoundTrip(rs: seq<Request>, correlation: u32)
    requires AllSendable(rs)
    ensures Received(D.EncodeAll(Frames(rs, correlation))) == Some(rs)
  {
    FramesFramed(rs, correlation);
    FramesParse(rs, correlation);
    D.ReadAllEncodeAll(Frames(rs, correlation));
  }

  /**
   * The bytes of a request to the database server: server 0xE004, a template
   * of 20 bytes, the function; in the template the bitmap, the statement's
   * handle three times, the descriptor's handle and the number of parameters;
   * and zeros in between.
   */
  lemma RequestBytes(r: Request, correlation: u32)
    requires Sendable(r)
    ensures var b := D.Encode(ToFrame(r, correlation));
      && |b| == 40 + |Encode(r.params)| && Spelt(b, 0, 4) == |b|
      && Spelt(b, 4, 2) == 0 && Spelt(b, 6, 2) == 0xE004 && Spelt(b, 12, 4) == correlation
      && Spelt(b, 16, 2) == 20 && Spelt(b, 18, 2) == r.functionID
      && b[20..40] == Template(r) && b[40..] == Encode(r.params)
    ensures TemplateSpells(r, Template(r))
  {
    hide Encode, Spelt, Template, TemplateSpells;
    var f := ToFrame(r, correlation);
    FrameOfRequest(r, correlation);
    assert f.body[..20] == Template(r) && f.body[20..] == Encode(r.params);
    TemplateBytes(r);
  }

  predicate TemplateSpells(r: Request, t: seq<byte>) {
    && |t| == 20 && Spelt(t, 0, 4) == r.ors && t[4..8] == [0, 0, 0, 0]
    && Spelt(t, 8, 2) == r.rpbID && Spelt(t, 10, 2) == r.rpbID && t[12..14] == [0, 0]
    && Spelt(t, 14, 2) == r.rpbID && Spelt(t, 16, 2) == r.pmHandle && Spelt(t, 18, 2) == |r.params|
  }

  lemma TemplateBytes(r: Request)
    requires Sound(r)
    ensures TemplateSpells(r, Template(r))
  {
    hide U16, U32, Spelt;
    var t := Template(r);
    TemplateSlices(r);
    SpeltFour(t, 0, r.ors);
    SpeltPair(t, 8, r.rpbID);
    SpeltPair(t, 10, r.rpbID);
    SpeltPair(t, 14, r.rpbID);
    SpeltPair(t, 16, r.pmHandle);
    SpeltPair(t, 18, |r.params|);
  }

  lemma TemplateSlices(r: Request)
    requires Sound(r)
    ensures var t := Template(r);
      && t[0..4] == U32(r.ors) && t[4..8] == [0, 0, 0, 0] && t[8..10] == U16(r.rpbID) && t[10..12] == U16(r.rpbID)
      && t[12..14] == [0, 0] && t[14..16] == U16(r.rpbID) && t[16..18] == U16(r.pmHandle)
      && t[18..20] == U16(|r.params|)
  {
    hide U16, U32;
  }

  lemma FrameOfRequest(r: Request, correlation: u32)
    requires Sendable(r)
    ensures var f := ToFrame(r, correlation);
      var b := D.Encode(f);
      && |b| == 20 + |f.body| && Spelt(b, 0, 4) == |b|
      && Spelt(b, 4, 2) == 0 && Spelt(b, 6, 2) == 0xE004 && Spelt(b, 12, 4) == correlation
      && Spelt(b, 16, 2) == 20 && Spelt(b, 18, 2) == r.functionID
      && b[20..] == f.body && b[20..40] == f.body[..20] && b[40..] == f.body[20..]
  {
    hide Encode, Template, Spelt, D.Encode;
    D.FrameBytes(ToFrame(r, correlation));
  }

  /** The correlation of the k-th request of a connection. */
  function Correlation(k: nat): u32 {
    if k == 0 then 0 else NextCorrelation(Correlation(k - 1))
  }

  /** Correlations count from 1 and never repeat within 2^32 - 1 requests. */
  lemma {:induction false} CorrelationsCount(k: nat)
    requires k >= 1
    ensures Correlation(k) == (k - 1) % 0xFFFF_FFFF + 1
  {
    hide Correlation, NextCorrelation;
    if k > 1 {
      CorrelationsCount(k - 1);
      NextCounts(k - 2);
      assert Correlation(k) == NextCorrelation(Correlation(k - 1)) by {
        CorrelationStep(k);
      }
    } else {
      CorrelationStep(1);
      FirstCounts();
    }
  }

  lemma CorrelationStep(k: nat)
    requires k >= 1
    ensures Correlation(k) == NextCorrelation(Correlation(k - 1)) && Correlation(0) == 0
  {
  }

  lemma FirstCounts()
    ensures NextCorrelation(0) == 1
  {
  }

  lemma NextCounts(n: nat)
    ensures NextCorrelation(n % 0xFFFF_FFFF + 1) == (n + 1) % 0xFFFF_FFFF + 1
  {
    var x := n % 0xFFFF_FFFF;
    if x + 1 == 0xFFFF_FFFF {
      assert (n + 1) % 0xFFFF_FFFF == 0;
    } else {
      assert (n + 1) % 0xFFFF_FFFF == x + 1;
    }
  }
}
