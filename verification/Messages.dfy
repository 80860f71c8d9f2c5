/** The message list of a RunCommand or CallProgram reply, in its three entry formats. */
module Messages {
  import opened Bytes
  import Ebcdic

  datatype Message = Message(
    id: string,
    kind: nat,
    severity: nat,
    text: string,
    help: string,
    fileName: string,
    libraryName: string,
    substitution: seq<byte>)

  const NO_MESSAGE := Message("", 0, 0, "", "", "", "", [])

  const FORMAT06: byte := 6
  const FORMAT07: byte := 7
  const FIRST_ENTRY: nat := 4

  function Name(b: seq<byte>): string {
    Ebcdic.TrimRight(Ebcdic.Decode(b))
  }

  /** A message type: two zoned digits. */
  function Kind(b: seq<byte>): nat {
    if |b| >= 2 then b[0] % 0x10 * 10 + b[1] % 0x10 else 0
  }

  function SafeSlice(b: seq<byte>, start: nat, end: nat): seq<byte> {
    if end > |b| || start > end then [] else b[start..end]
  }

  // ----- What a field reader reads -----

  /** The next n bytes and the offset after them; nothing and the end of the body if there are fewer. */
  function Take(body: seq<byte>, off: nat, n: nat): (r: (seq<byte>, nat))
    ensures off <= |body| ==> off <= r.1 <= |body|
  {
    if off + n > |body| then ([], |body|) else (body[off..off + n], off + n)
  }

  function LenPrefixed(body: seq<byte>, off: nat): (r: (seq<byte>, nat))
    ensures off <= |body| ==> off <= r.1 <= |body|
  {
    var (n4, next) := Take(body, off, 4);
    if |n4| < 4 then ([], next) else Take(body, next, Get32(n4))
  }

  /** Where the k-th of the length-prefixed fields from start begins. */
  function FieldStart(body: seq<byte>, start: nat, k: nat): (off: nat)
    ensures start <= |body| ==> start <= off <= |body|
  {
    if k == 0 then start else LenPrefixed(body, FieldStart(body, start, k - 1)).1
  }

  function Field(body: seq<byte>, start: nat, k: nat): seq<byte> {
    LenPrefixed(body, FieldStart(body, start, k)).0
  }

  class FieldReader {
    const body: seq<byte>
    var off: nat

    constructor (body: seq<byte>, off: nat)
      ensures this.body == body && this.off == off
    {
      this.body := body;
      this.off := off;
    }

    method Bytes(n: nat) returns (b: seq<byte>)
      modifies this
      ensures (b, off) == Take(body, old(off), n)
    {
      if off + n > |body| {
        off := |body|;
        return [];
      }
      b := body[off..off + n];
      off := off + n;
    }

    /** The k-th length-prefixed field from start. */
    method LenPrefixed(ghost start: nat, ghost k: nat) returns (b: seq<byte>)
      requires off == FieldStart(body, start, k)
      modifies this
      ensures b == Field(body, start, k)
      ensures off == FieldStart(body, start, k + 1)
    {
      var n4 := Bytes(4);
      if |n4| < 4 {
        return [];
      }
      b := Bytes(Get32(n4));
    }
  }

  // ----- The entry formats -----

  function ClassicHead(body: seq<byte>, off: nat): Message {
    if off + 37 <= |body| then
      NO_MESSAGE.(
        id := Name(body[off + 6..off + 13]),
        kind := Kind(body[off + 13..off + 15]),
        severity := Get16(body[off + 15..off + 17]),
        fileName := Name(body[off + 17..off + 27]),
        libraryName := Name(body[off + 27..off + 37]))
    else NO_MESSAGE
  }

  function Classic(body: seq<byte>, off: nat): Message {
    var m := ClassicHead(body, off);
    if off + 41 <= |body| then
      var p := off + 41;
      var q := p + Get16(body[off + 37..off + 39]);
      m.(substitution := SafeSlice(body, p, q),
         text := Ebcdic.Decode(SafeSlice(body, q, q + Get16(body[off + 39..off + 41]))))
    else m
  }

  method ParseMessageClassic(body: seq<byte>, off: nat) returns (m: Message)
    ensures m == Classic(body, off)
  {
    hide Name, Ebcdic.TrimRight, Ebcdic.Decode;
    m := NO_MESSAGE;
    if off + 37 <= |body| {
      m := m.(id := Name(SafeSlice(body, off + 6, off + 13)));
      if off + 15 <= |body| {
        m := m.(kind := body[off + 13] % 0x10 * 10 + body[off + 14] % 0x10);
      }
      var sev := SafeSlice(body, off + 15, off + 17);
      if |sev| == 2 {
        m := m.(severity := Get16(sev));
      }
      m := m.(fileName := Name(SafeSlice(body, off + 17, off + 27)));
      m := m.(libraryName := Name(SafeSlice(body, off + 27, off + 37)));
    }
    assert m == ClassicHead(body, off);
    var lengths := SafeSlice(body, off + 37, off + 41);
    if |lengths| == 4 {
      var subLen, textLen := Get16(lengths[0..2]), Get16(lengths[2..4]);
      assert lengths[0..2] == body[off + 37..off + 39] && lengths[2..4] == body[off + 39..off + 41];
      var p := off + 41;
      m := m.(substitution := SafeSlice(body, p, p + subLen));
      p := p + subLen;
      m := m.(text := Ebcdic.Decode(SafeSlice(body, p, p + textLen)));
    }
  }

  /** The message of a severity and the seven fields of format 06. */
  function Message06(severity: nat, f: nat -> seq<byte>): Message {
    Message(Name(f(1)), Kind(f(0)), severity, Ebcdic.Decode(f(4)), Ebcdic.Decode(f(6)), Name(f(2)), Name(f(3)), f(5))
  }

  /** The message of the twenty-six fields of format 07, most of which say nothing of interest. */
  function Message07(f: nat -> seq<byte>): Message {
    Message(
      Name(f(1)),
      Kind(f(2)),
      if |f(0)| >= 4 then Get32(f(0)[..4]) else 0,
      Ebcdic.Decode(f(24)),
      Name(f(25)),
      Name(f(4)),
      Name(f(6)),
      f(23))
  }

  function Parsed06(body: seq<byte>, start: nat): Message {
    var skipped := Take(body, Take(body, start, 4).1, 4).1;
    var (sev, fields) := Take(body, skipped, 2);
    Message06(if |sev| == 2 then Get16(sev) else 0, (k: nat) => Field(body, fields, k))
  }

  function Parsed07(body: seq<byte>, entry: nat): Message {
    Message07((k: nat) => Field(body, entry + 6, k))
  }

  method ParseMessage06(body: seq<byte>, start: nat) returns (m: Message)
    ensures m == Parsed06(body, start)
  {
    var r := new FieldReader(body, start);
    var skipped := r.Bytes(4);
    skipped := r.Bytes(4);
    m := NO_MESSAGE;
    var sev := r.Bytes(2);
    if |sev| == 2 {
      m := m.(severity := Get16(sev));
    }
    ghost var fields := r.off;
    var b := r.LenPrefixed(fields, 0);
    m := m.(kind := Kind(b));
    b := r.LenPrefixed(fields, 1);
    m := m.(id := Name(b));
    b := r.LenPrefixed(fields, 2);
    m := m.(fileName := Name(b));
    b := r.LenPrefixed(fields, 3);
    m := m.(libraryName := Name(b));
    b := r.LenPrefixed(fields, 4);
    m := m.(text := Ebcdic.Decode(b));
    b := r.LenPrefixed(fields, 5);
    m := m.(substitution := b);
    b := r.LenPrefixed(fields, 6);
    m := m.(help := Ebcdic.Decode(b));
  }

  method ParseMessage07(body: seq<byte>, entry: nat) returns (m: Message)
    ensures m == Parsed07(body, entry)
  {
    hide FieldStart, Field, Name, Kind, Get32;
    ghost var start := entry + 6;
    var r := new FieldReader(body, entry + 6);
    FieldsBegin(body, start);
    m := NO_MESSAGE;
    var b := r.LenPrefixed(start, 0);
    if |b| >= 4 {
      m := m.(severity := Get32(b[..4]));
    }
    b := r.LenPrefixed(start, 1);
    m := m.(id := Name(b));
    b := r.LenPrefixed(start, 2);
    m := m.(kind := Kind(b));
    b := r.LenPrefixed(start, 3);
    b := r.LenPrefixed(start, 4);
    m := m.(fileName := Name(b));
    b := r.LenPrefixed(start, 5);
    b := r.LenPrefixed(start, 6);
    m := m.(libraryName := Name(b));
    b := r.LenPrefixed(start, 7);
    b := r.LenPrefixed(start, 8);
    b := r.LenPrefixed(start, 9);
    b := r.LenPrefixed(start, 10);
    b := r.LenPrefixed(start, 11);
    b := r.LenPrefixed(start, 12);
    b := r.LenPrefixed(start, 13);
    b := r.LenPrefixed(start, 14);
    b := r.LenPrefixed(start, 15);
    b := r.LenPrefixed(start, 16);
    b := r.LenPrefixed(start, 17);
    b := r.LenPrefixed(start, 18);
    b := r.LenPrefixed(start, 19);
    b := r.LenPrefixed(start, 20);
    b := r.LenPrefixed(start, 21);
    b := r.LenPrefixed(start, 22);
    b := r.LenPrefixed(start, 23);
    m := m.(substitution := b);
    b := r.LenPrefixed(start, 24);
    m := m.(text := Ebcdic.Decode(b));
    b := r.LenPrefixed(start, 25);
    m := m.(help := Name(b));
  }

  lemma FieldsBegin(body: seq<byte>, start: nat)
    ensures FieldStart(body, start, 0) == start
  {
  }

  // ----- The list -----

  function Parsed(body: seq<byte>, off: nat): Message
    requires off + 6 <= |body|
  {
    if body[off + 5] == FORMAT06 then Parsed06(body, off + 6)
    else if body[off + 5] == FORMAT07 then Parsed07(body, off)
    else Classic(body, off)
  }

  /** The messages of at most n entries from off on. */
  function ParsedFrom(body: seq<byte>, off: nat, n: nat): seq<Message>
    decreases n
  {
    if n == 0 || off + 6 > |body| then []
    else
      var ll := Get32(body[off..off + 4]);
      [Parsed(body, off)] + if ll == 0 then [] else ParsedFrom(body, off + ll, n - 1)
  }

  function ParsedList(body: seq<byte>): seq<Message> {
    if |body| < FIRST_ENTRY then [] else ParsedFrom(body, FIRST_ENTRY, Get16(body[2..4]))
  }

  method ParseMessages(body: seq<byte>) returns (messages: seq<Message>)
    ensures messages == ParsedList(body)
  {
    hide Parsed, Get32, ParsedFrom;
    messages := [];
    if |body| < FIRST_ENTRY {
      return;
    }
    var count: nat := Get16(body[2..4]);
    var off: nat := FIRST_ENTRY;
    var i: nat := 0;
    while i < count && off + 6 <= |body|
      invariant i <= count
      invariant ParsedList(body) == messages + ParsedFrom(body, off, count - i)
    {
      var m := ParseEntry(body, off);
      ParsedNext(body, off, count - i, messages);
      messages := messages + [m];
      var ll := Get32(body[off..off + 4]);
      if ll == 0 {
        return;
      }
      off := off + ll;
      i := i + 1;
    }
    ParsedNone(body, off, count - i, messages);
  }

  /** The dispatch on the format of one entry. */
  method ParseEntry(body: seq<byte>, off: nat) returns (m: Message)
    requires off + 6 <= |body|
    ensures m == Parsed(body, off)
  {
    hide Parsed06, Parsed07, Classic;
    var format := body[off + 5];
    if format == FORMAT06 {
      m := ParseMessage06(body, off + 6);
    } else if format == FORMAT07 {
      m := ParseMessage07(body, off);
    } else {
      m := ParseMessageClassic(body, off);
    }
  }

  lemma ParsedNone(body: seq<byte>, off: nat, n: nat, done: seq<Message>)
    requires n == 0 || off + 6 > |body|
    ensures done + ParsedFrom(body, off, n) == done
  {
  }

  lemma ParsedNext(body: seq<byte>, off: nat, n: nat, done: seq<Message>)
    requires n > 0 && off + 6 <= |body|
    ensures var ll := Get32(body[off..off + 4]);
      var next := done + [Parsed(body, off)];
      done + ParsedFrom(body, off, n) == if ll == 0 then next else next + ParsedFrom(body, off + ll, n - 1)
  {
    var rest := ParsedFrom(body, off, n)[1..];
    assert done + ([Parsed(body, off)] + rest) == done + [Parsed(body, off)] + rest;
  }

  // ----- On any bytes -----

  function Next(body: seq<byte>, off: nat): nat
    requires off + 6 <= |body|
  {
    off + Get32(body[off..off + 4])
  }

  /** The offsets of at most n entries, each following from the length of the one before. */
  ghost predicate EntriesAt(body: seq<byte>, n: nat, os: seq<nat>) {
    && |os| <= n
    && (forall i :: 0 <= i < |os| ==> os[i] + 6 <= |body|)
    && (forall i :: 0 < i < |os| ==> Follows(body, os, i))
  }

  ghost predicate Follows(body: seq<byte>, os: seq<nat>, i: nat)
    requires 0 < i < |os|
  {
    os[i - 1] + 6 <= |body| && os[i - 1] < os[i] == Next(body, os[i - 1])
  }

  /** Where a parser that visits os has to stop. */
  ghost predicate NoMore(body: seq<byte>, off: nat, n: nat, os: seq<nat>)
    requires EntriesAt(body, n, os)
  {
    if os == [] then n == 0 || off + 6 > |body|
    else
      var last := os[|os| - 1];
      os[0] == off && (|os| == n || Next(body, last) == last || Next(body, last) + 6 > |body|)
  }

  /**
   * Whatever the bytes, the parser visits strictly increasing offsets within
   * the body, no more of them than the body declares, stops early only where
   * an entry has no length or the next does not start within the body, and
   * returns one message for each.
   */
  lemma MessagesAreEntries(body: seq<byte>)
    requires |body| >= FIRST_ENTRY
    ensures exists os ::
      && EntriesAt(body, Get16(body[2..4]), os) && NoMore(body, FIRST_ENTRY, Get16(body[2..4]), os)
      && IsEach(body, os, ParsedList(body))
  {
    var os := VisitedFrom(body, FIRST_ENTRY, Get16(body[2..4]));
  }

  ghost predicate IsEach(body: seq<byte>, os: seq<nat>, ms: seq<Message>) {
    |ms| == |os| && forall i :: 0 <= i < |os| ==> os[i] + 6 <= |body| && ms[i] == Parsed(body, os[i])
  }

  lemma {:induction false} VisitedFrom(body: seq<byte>, off: nat, n: nat) returns (os: seq<nat>)
    ensures EntriesAt(body, n, os) && NoMore(body, off, n, os)
    ensures IsEach(body, os, ParsedFrom(body, off, n))
    decreases n
  {
    hide Parsed, Get32, EntriesAt, NoMore, IsEach;
    if n == 0 || off + 6 > |body| {
      os := [];
      NoneVisited(body, off, n);
    } else if Next(body, off) == off {
      os := [off];
      OneVisited(body, off, n);
      assert ParsedFrom(body, off, n) == [Parsed(body, off)] + [] == [Parsed(body, off)];
    } else {
      var rest := VisitedFrom(body, Next(body, off), n - 1);
      os := [off] + rest;
      OneMoreVisited(body, off, n, rest, ParsedFrom(body, Next(body, off), n - 1));
    }
  }

  lemma NoneVisited(body: seq<byte>, off: nat, n: nat)
    requires n == 0 || off + 6 > |body|
    ensures EntriesAt(body, n, []) && NoMore(body, off, n, []) && IsEach(body, [], [])
  {
  }

  lemma OneVisited(body: seq<byte>, off: nat, n: nat)
    requires n > 0 && off + 6 <= |body| && Next(body, off) == off
    ensures EntriesAt(body, n, [off]) && NoMore(body, off, n, [off]) && IsEach(body, [off], [Parsed(body, off)])
  {
  }

  lemma OneMoreVisited(body: seq<byte>, off: nat, n: nat, os: seq<nat>, ms: seq<Message>)
    requires n > 0 && off + 6 <= |body| && Next(body, off) != off
    requires EntriesAt(body, n - 1, os) && NoMore(body, Next(body, off), n - 1, os) && IsEach(body, os, ms)
    ensures EntriesAt(body, n, [off] + os) && NoMore(body, off, n, [off] + os)
    ensures IsEach(body, [off] + os, [Parsed(body, off)] + ms)
  {
    hide Parsed, Get32, IsEach;
    OneMoreEntry(body, off, n, os, [off] + os);
    OneMoreMessage(body, off, os, ms);
  }

  lemma OneMoreEntry(body: seq<byte>, off: nat, n: nat, os: seq<nat>, more: seq<nat>)
    requires n > 0 && off + 6 <= |body| && EntriesAt(body, n - 1, os)
    requires off < Next(body, off) && (os != [] ==> os[0] == Next(body, off))
    requires more == [off] + os
    ensures EntriesAt(body, n, more)
  {
    hide Next;
    forall i | 0 < i < |more| ensures Follows(body, more, i) {
      if i > 1 {
        assert Follows(body, os, i - 1);
      }
    }
  }

  lemma OneMoreMessage(body: seq<byte>, off: nat, os: seq<nat>, ms: seq<Message>)
    requires off + 6 <= |body| && IsEach(body, os, ms)
    ensures IsEach(body, [off] + os, [Parsed(body, off)] + ms)
  {
    hide Parsed;
  }

  /** Once a field is cut short by the end of the body, all that follow are empty. */
  lemma {:induction false} TruncatedStaysEmpty(body: seq<byte>, start: nat, k: nat, j: nat)
    requires start <= |body| && k <= j && FieldStart(body, start, k) == |body|
    ensures FieldStart(body, start, j) == |body| && Field(body, start, j) == []
  {
    if k < j {
      TruncatedStaysEmpty(body, start, k, j - 1);
    }
  }

  /** Whether the body ends before the field at this offset does, or before its length does. */
  predicate IsCutShort(body: seq<byte>, off: nat) {
    off + 4 > |body| || off + 4 + Spelt(body, off, 4) > |body|
  }

  /** A field that is cut short is empty, and so is every field behind it: the reader goes to the end of the body. */
  lemma CutShortEndsIt(body: seq<byte>, start: nat, k: nat, j: nat)
    requires start <= |body| && k <= j && IsCutShort(body, FieldStart(body, start, k))
    ensures Field(body, start, j) == [] && FieldStart(body, start, j + 1) == |body|
  {
    var off := FieldStart(body, start, k);
    if off + 4 <= |body| {
      SpeltIsGet32(body[off..]);
      assert body[off..][..4] == body[off..off + 4];
      SpeltShift(body, off, 4);
    }
    assert FieldStart(body, start, k + 1) == |body|;
    if k < j {
      TruncatedStaysEmpty(body, start, k + 1, j);
    }
  }

  lemma {:induction false} SpeltShift(body: seq<byte>, off: nat, n: nat)
    requires off + n <= |body|
    ensures Spelt(body[off..], 0, n) == Spelt(body, off, n)
  {
    if n > 0 {
      SpeltShift(body, off, n - 1);
    }
  }

  // ----- On well-formed entries -----

  predicate FitsLength(f: seq<byte>) {
    |f| < 0x1_0000_0000
  }

  predicate AllFit(fs: seq<seq<byte>>) {
    forall i :: 0 <= i < |fs| ==> FitsLength(fs[i])
  }

  function RenderField(f: seq<byte>): (b: seq<byte>)
    requires FitsLength(f)
    ensures |b| == 4 + |f|
  {
    U32(|f|) + f
  }

  function RenderFields(fs: seq<seq<byte>>): seq<byte>
    requires AllFit(fs)
  {
    if fs == [] then [] else RenderField(fs[0]) + RenderFields(fs[1..])
  }

  /** An entry as the server writes it; what of it follows the length. */
  datatype Entry =
    | EntryClassic(flag: byte, format: byte, id: seq<byte>, kind: seq<byte>, severity: u16,
                   file: seq<byte>, library: seq<byte>,
                   substitution: seq<byte>, text: seq<byte>)
    | Entry06(flag: byte, ccsids: seq<byte>, severity: u16, fields: seq<seq<byte>>)
    | Entry07(flag: byte, fields: seq<seq<byte>>)

  predicate WellFormed(e: Entry) {
    match e
    case EntryClassic(_, format, id, kind, _, file, library, substitution, text) =>
      && format != 6 && format != 7
      && |id| == 7 && |kind| == 2 && |file| == 10 && |library| == 10
      && |substitution| < 0x1_0000 && |text| < 0x1_0000
    case Entry06(_, ccsids, _, fields) => |ccsids| == 8 && |fields| == 7 && AllFit(fields)
    case Entry07(_, fields) => |fields| == 26 && AllFit(fields)
  }

  function Content(e: Entry): (b: seq<byte>)
    requires WellFormed(e)
    ensures |b| >= 2
  {
    match e
    case EntryClassic(flag, format, id, kind, severity, file, library, substitution, text) =>
      [flag, format]
      + (id + kind + U16(severity) + file + library + U16(|substitution|) + U16(|text|))
      + substitution + text
    case Entry06(flag, ccsids, severity, fields) => [flag, 6] + ccsids + U16(severity) + RenderFields(fields)
    case Entry07(flag, fields) => [flag, 7] + RenderFields(fields)
  }

  /**
   * The message of an entry. The fields of format 06 are type, ID, file,
   * library, text, substitution data and help; of the 26 of format 07,
   * severity, ID and type come first, file and library are the fifth and the
   * seventh, and substitution data, text and help the last three.
   */
  function Meaning(e: Entry): Message
    requires WellFormed(e)
  {
    match e
    case EntryClassic(_, _, id, kind, severity, file, library, substitution, text) =>
      Message(Name(id), Kind(kind), severity, Ebcdic.Decode(text), "", Name(file), Name(library), substitution)
    case Entry06(_, _, severity, fields) =>
      Message(Name(fields[1]), Kind(fields[0]), severity, Ebcdic.Decode(fields[4]), Ebcdic.Decode(fields[6]),
              Name(fields[2]), Name(fields[3]), fields[5])
    case Entry07(_, fields) =>
      Message(Name(fields[1]), Kind(fields[2]), if |fields[0]| >= 4 then Spelt(fields[0], 0, 4) else 0,
              Ebcdic.Decode(fields[24]), Name(fields[25]), Name(fields[4]), Name(fields[6]), fields[23])
  }

  /** A type of two zoned digits, and a name padded with blanks, as they read. */
  lemma KindReads(tens: nat, ones: nat, rest: seq<byte>)
    requires tens <= 9 && ones <= 9
    ensures Kind([0xF0 + tens, 0xF0 + ones] + rest) == 10 * tens + ones && Kind([]) == 0 && Kind([0xF0 + tens]) == 0
  {
  }

  lemma NameReads(s: string, n: nat)
    requires Ebcdic.EncodePadded(s, n).Some?
    ensures Name(Ebcdic.EncodePadded(s, n).value) == Ebcdic.TrimRight(s)
  {
    Ebcdic.PaddedReadsBack(s, n);
  }

  predicate Sendable(es: seq<Entry>) {
    forall i :: 0 <= i < |es| ==> WellFormed(es[i]) && 4 + |Content(es[i])| < 0x1_0000_0000
  }

  function RenderAll(es: seq<Entry>): seq<byte>
    requires Sendable(es)
  {
    if es == [] then [] else U32(4 + |Content(es[0])|) + Content(es[0]) + RenderAll(es[1..])
  }

  lemma SliceMiddle(a: seq<byte>, v: seq<byte>, c: seq<byte>)
    ensures (a + v + c)[|a|..|a| + |v|] == v
  {
  }

  lemma TakeMiddle(a: seq<byte>, v: seq<byte>, c: seq<byte>)
    ensures Take(a + v + c, |a|, |v|) == (v, |a| + |v|)
  {
  }

  lemma PrefixedMiddle(a: seq<byte>, f: seq<byte>, c: seq<byte>)
    requires FitsLength(f)
    ensures LenPrefixed(a + RenderField(f) + c, |a|) == (f, |a| + 4 + |f|)
  {
    var body := a + RenderField(f) + c;
    assert body == a + U32(|f|) + (f + c) == a + U32(|f|) + f + c;
    TakeMiddle(a, U32(|f|), f + c);
    GetU32(|f|);
    TakeMiddle(a + U32(|f|), f, c);
  }

  /** The k-th field read is the k-th field written. */
  lemma {:induction false} FieldsReadBack(a: seq<byte>, fs: seq<seq<byte>>, c: seq<byte>, k: nat)
    requires AllFit(fs) && k < |fs|
    ensures Field(a + RenderFields(fs) + c, |a|, k) == fs[k]
    decreases k
  {
    hide LenPrefixed;
    var body := a + RenderFields(fs) + c;
    assert body == a + RenderField(fs[0]) + (RenderFields(fs[1..]) + c);
    PrefixedMiddle(a, fs[0], RenderFields(fs[1..]) + c);
    if k > 0 {
      var next := a + RenderField(fs[0]);
      assert body == next + RenderFields(fs[1..]) + c;
      FieldsReadBack(next, fs[1..], c, k - 1);
      FieldsShift(body, |a|, k - 1);
    }
  }

  lemma {:induction false} FieldsShift(body: seq<byte>, start: nat, k: nat)
    ensures FieldStart(body, start, k + 1) == FieldStart(body, LenPrefixed(body, start).1, k)
  {
    hide LenPrefixed;
    if k > 0 {
      FieldsShift(body, start, k - 1);
    }
  }

  lemma Reads07(a: seq<byte>, e: Entry, c: seq<byte>)
    requires WellFormed(e) && e.Entry07? && |a| >= 4
    ensures Parsed(a + Content(e) + c, |a| - 4) == Meaning(e)
  {
    hide Field, Name, Kind, RenderFields, Get32, Spelt;
    var fs := e.fields;
    if |fs[0]| >= 4 {
      SpeltIsGet32(fs[0]);
    }
    var start := a + [e.flag, 7];
    var body := a + Content(e) + c;
    assert body == start + RenderFields(fs) + c;
    forall k: nat | k < |fs| ensures Field(body, |start|, k) == fs[k] {
      FieldsReadBack(start, fs, c, k);
    }
    assert Parsed(body, |a| - 4) == Parsed07(body, |a| - 4);
  }

  lemma SpeltIsGet32(b: seq<byte>)
    requires |b| >= 4
    ensures Spelt(b, 0, 4) == Get32(b[..4])
  {
    hide Spelt, U32, Get32;
    U32Get(b[..4]);
    assert b[0..0 + 4] == b[..4];
    SpeltFour(b, 0, Get32(b[..4]));
  }

  lemma Skips06(start: seq<byte>, ccsids: seq<byte>, severity: u16, rest: seq<byte>)
    requires |ccsids| == 8
    ensures var body := start + ccsids + U16(severity) + rest;
      var skipped := Take(body, Take(body, |start|, 4).1, 4).1;
      Take(body, skipped, 2) == (U16(severity), |start| + 10)
  {
    var sev := U16(severity);
    var c1, c2 := ccsids[..4], ccsids[4..];
    var body := start + ccsids + sev + rest;
    assert body == start + c1 + (c2 + sev + rest);
    TakeMiddle(start, c1, c2 + sev + rest);
    assert body == start + c1 + c2 + (sev + rest);
    TakeMiddle(start + c1, c2, sev + rest);
    TakeMiddle(start + ccsids, sev, rest);
  }

  lemma Reads06(a: seq<byte>, e: Entry, c: seq<byte>)
    requires WellFormed(e) && e.Entry06? && |a| >= 4
    ensures Parsed(a + Content(e) + c, |a| - 4) == Meaning(e)
  {
    hide Field, Name, Kind, RenderFields, Get16, U16, Take, Parsed06, Meaning;
    var start := a + [e.flag, 6];
    var rest := RenderFields(e.fields);
    Skips06(start, e.ccsids, e.severity, rest + c);
    GetU16(e.severity);
    Regroup06(a, [e.flag, 6], e.ccsids, U16(e.severity), rest, c);
    Means06(a + Content(e) + c, |start|, e, start + e.ccsids + U16(e.severity), c);
  }

  lemma Regroup06(a: seq<byte>, flags: seq<byte>, ccsids: seq<byte>, sev: seq<byte>, rest: seq<byte>, c: seq<byte>)
    requires |flags| == 2
    ensures var body := a + (flags + ccsids + sev + rest) + c;
      && body == a + flags + ccsids + sev + rest + c
      && body == a + flags + ccsids + sev + (rest + c)
      && body[|a| + 1] == flags[1]
  {
    assert a + (flags + ccsids + sev + rest) == a + flags + ccsids + sev + rest;
  }

  lemma Means06(body: seq<byte>, start: nat, e: Entry, fields: seq<byte>, c: seq<byte>)
    requires WellFormed(e) && e.Entry06? && body == fields + RenderFields(e.fields) + c
    requires Take(body, Take(body, Take(body, start, 4).1, 4).1, 2) == (U16(e.severity), |fields|)
    requires Get16(U16(e.severity)) == e.severity
    ensures Parsed06(body, start) == Meaning(e)
  {
    hide Field, Name, Kind, RenderFields, Get16, U16, Take;
    forall k: nat | k < |e.fields| ensures Field(body, |fields|, k) == e.fields[k] {
      FieldsReadBack(fields, e.fields, c, k);
    }
  }

  function Head(e: Entry): (b: seq<byte>)
    requires WellFormed(e) && e.EntryClassic?
    ensures |b| == 35
  {
    e.id + e.kind + U16(e.severity) + e.file + e.library + U16(|e.substitution|) + U16(|e.text|)
  }

  lemma HeadParts(e: Entry)
    requires WellFormed(e) && e.EntryClassic?
    ensures var h := Head(e);
      && h[0..7] == e.id && h[7..9] == e.kind && h[9..11] == U16(e.severity)
      && h[11..21] == e.file && h[21..31] == e.library
      && h[31..33] == U16(|e.substitution|) && h[33..35] == U16(|e.text|)
  {
  }

  lemma ReadsClassic(a: seq<byte>, e: Entry, c: seq<byte>)
    requires WellFormed(e) && e.EntryClassic? && |a| >= 4
    ensures Parsed(a + Content(e) + c, |a| - 4) == Meaning(e)
  {
    hide Name, Kind, Get16, U16, Head, Content, ClassicHead, Classic, Meaning, MeaningOfHead;
    var body := a + Content(e) + c;
    var off, front := |a| - 4, a + [e.flag, e.format] + Head(e);
    ContentClassic(e);
    Regroup(a, [e.flag, e.format], Head(e), e.substitution, e.text, c);
    SliceMiddle(front, e.substitution, e.text + c);
    SliceMiddle(front + e.substitution, e.text, c);
    HeadReads(body, off, e);
    ClassicMeans(body, off, e);
    assert body[off + 5] == e.format;
  }

  lemma ClassicMeans(body: seq<byte>, off: nat, e: Entry)
    requires WellFormed(e) && e.EntryClassic? && off + 41 + |e.substitution| + |e.text| <= |body|
    requires var p := off + 41 + |e.substitution|;
      body[off + 41..p] == e.substitution && body[p..p + |e.text|] == e.text
    requires ClassicHead(body, off) == MeaningOfHead(e)
    requires Get16(body[off + 37..off + 39]) == |e.substitution| && Get16(body[off + 39..off + 41]) == |e.text|
    ensures Classic(body, off) == Meaning(e)
  {
    hide Name, Kind, Get16, ClassicHead;
  }

  function MeaningOfHead(e: Entry): Message
    requires WellFormed(e) && e.EntryClassic?
  {
    Message(Name(e.id), Kind(e.kind), e.severity, "", "", Name(e.file), Name(e.library), [])
  }

  /** The pieces of an entry within a body. */
  lemma Regroup(a: seq<byte>, flags: seq<byte>, head: seq<byte>, sub: seq<byte>, text: seq<byte>, c: seq<byte>)
    ensures var body := a + (flags + head + sub + text) + c;
      var front := a + flags + head;
      && body == front + sub + (text + c) && body == front + sub + text + c
      && body[|a| + |flags|..|front|] == head
      && forall i :: 0 <= i < |flags| ==> body[|a| + i] == flags[i]
  {
    var body := a + (flags + head + sub + text) + c;
    assert body == a + flags + head + (sub + text + c);
    SliceMiddle(a + flags, head, sub + text + c);
  }

  lemma ContentClassic(e: Entry)
    requires WellFormed(e) && e.EntryClassic?
    ensures Content(e) == [e.flag, e.format] + Head(e) + e.substitution + e.text
  {
  }

  lemma HeadReads(body: seq<byte>, off: nat, e: Entry)
    requires WellFormed(e) && e.EntryClassic? && off + 41 <= |body| && body[off + 6..off + 41] == Head(e)
    ensures ClassicHead(body, off) == MeaningOfHead(e)
    ensures Get16(body[off + 37..off + 39]) == |e.substitution| && Get16(body[off + 39..off + 41]) == |e.text|
  {
    hide Name, Kind, Get16, U16, Head;
    HeadParts(e);
    SliceOfBody(body, off, Head(e), 0, 7);
    SliceOfBody(body, off, Head(e), 7, 9);
    SliceOfBody(body, off, Head(e), 9, 11);
    SliceOfBody(body, off, Head(e), 11, 21);
    SliceOfBody(body, off, Head(e), 21, 31);
    SliceOfBody(body, off, Head(e), 31, 33);
    SliceOfBody(body, off, Head(e), 33, 35);
    GetU16(e.severity);
    GetU16(|e.substitution|);
    GetU16(|e.text|);
  }

  lemma SliceOfBody(body: seq<byte>, off: nat, head: seq<byte>, i: nat, j: nat)
    requires off + 41 <= |body| && body[off + 6..off + 41] == head && i <= j <= |head|
    ensures body[off + 6 + i..off + 6 + j] == head[i..j]
  {
    assert forall k :: 0 <= k < |head| ==> head[k] == body[off + 6 + k];
  }

  lemma EntryReadsBack(a: seq<byte>, e: Entry, c: seq<byte>)
    requires WellFormed(e) && |a| >= 4
    ensures Parsed(a + Content(e) + c, |a| - 4) == Meaning(e)
  {
    hide Parsed, Meaning;
    match e
    case EntryClassic(_, _, _, _, _, _, _, _, _) => ReadsClassic(a, e, c);
    case Entry06(_, _, _, _) => Reads06(a, e, c);
    case Entry07(_, _) => Reads07(a, e, c);
  }

  lemma RegroupAll(a: seq<byte>, ll: seq<byte>, content: seq<byte>, others: seq<byte>, c: seq<byte>)
    ensures var body := a + (ll + content + others) + c;
      && body == a + ll + content + (others + c)
      && body == a + ll + content + others + c
      && body[|a|..|a| + |ll|] == ll
  {
  }

  lemma {:induction false} EntriesReadBack(a: seq<byte>, es: seq<Entry>, c: seq<byte>)
    requires Sendable(es)
    ensures var ms := ParsedFrom(a + RenderAll(es) + c, |a|, |es|);
      |ms| == |es| && forall i :: 0 <= i < |es| ==> ms[i] == Meaning(es[i])
    decreases |es|
  {
    hide Parsed, Meaning, Content, WellFormed, Get32;
    if es != [] {
      var body := a + RenderAll(es) + c;
      var ll := U32(4 + |Content(es[0])|);
      var rest := RenderAll(es[1..]) + c;
      var next := a + ll + Content(es[0]);
      RegroupAll(a, ll, Content(es[0]), RenderAll(es[1..]), c);
      EntryReadsBack(a + ll, es[0], rest);
      GetU32(4 + |Content(es[0])|);
      EntriesReadBack(next, es[1..], c);
    }
  }

  /** Any list of well-formed entries, in any mix of formats, comes back message by message, whatever follows it. */
  lemma ListReadsBack(rc: seq<byte>, es: seq<Entry>, tail: seq<byte>)
    requires |rc| == 2 && |es| < 0x1_0000 && Sendable(es)
    ensures var ms := ParsedList(rc + U16(|es|) + RenderAll(es) + tail);
      |ms| == |es| && forall i :: 0 <= i < |es| ==> ms[i] == Meaning(es[i])
  {
    hide Get16, Meaning, RenderAll;
    var head := rc + U16(|es|);
    var body := head + RenderAll(es) + tail;
    assert body[2..4] == U16(|es|);
    GetU16(|es|);
    EntriesReadBack(head, es, tail);
  }
}
