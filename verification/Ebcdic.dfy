/** The restricted EBCDIC character set: A-Z, 0-9, space, $, # and @ in CCSID 37. */
module Ebcdic {
  import opened Wrappers
  import opened Bytes

  const BLANK: byte := 0x40
  const UNKNOWN: char := '?'

  function ToByte(c: char): Option<byte> {
    if c == ' ' then Some(BLANK)
    else if c == '$' then Some(0x5B)
    else if c == '#' then Some(0x7B)
    else if c == '@' then Some(0x7C)
    else if 'A' <= c <= 'I' then Some(0xC1 + (c - 'A') as int)
    else if 'J' <= c <= 'R' then Some(0xD1 + (c - 'J') as int)
    else if 'S' <= c <= 'Z' then Some(0xE2 + (c - 'S') as int)
    else if '0' <= c <= '9' then Some(0xF0 + (c - '0') as int)
    else None
  }

  /** A byte outside the set reads as a question mark. */
  function FromByte(b: byte): char {
    if b == BLANK then ' '
    else if b == 0x5B then '$'
    else if b == 0x7B then '#'
    else if b == 0x7C then '@'
    else if 0xC1 <= b <= 0xC9 then 'A' + (b - 0xC1) as char
    else if 0xD1 <= b <= 0xD9 then 'J' + (b - 0xD1) as char
    else if 0xE2 <= b <= 0xE9 then 'S' + (b - 0xE2) as char
    else if 0xF0 <= b <= 0xF9 then '0' + (b - 0xF0) as char
    else UNKNOWN
  }

  function Decode(b: seq<byte>): (s: string)
    ensures |s| == |b|
  {
    seq(|b|, i requires 0 <= i < |b| => FromByte(b[i]))
  }

  predicate Encodable(s: string) {
    forall i :: 0 <= i < |s| ==> ToByte(s[i]).Some?
  }

  function Encode(s: string): (b: seq<byte>)
    requires Encodable(s)
    ensures |b| == |s|
  {
    seq(|s|, i requires 0 <= i < |s| => ToByte(s[i]).value)
  }

  function Blanks(n: nat): (b: seq<byte>)
    ensures |b| == n
  {
    seq(n, _ => BLANK)
  }

  /** A name as a blank-padded field of n bytes. */
  function EncodePadded(s: string, n: nat): (r: Option<seq<byte>>)
    ensures r.Some? ==> |r.value| == n
  {
    if |s| > n || !Encodable(s) then None else Some(Encode(s) + Blanks(n - |s|))
  }

  function TrimRight(s: string): (t: string)
    ensures t <= s && (t == "" || t[|t| - 1] != ' ')
    ensures forall i :: |t| <= i < |s| ==> s[i] == ' '
  {
    if s != "" && s[|s| - 1] == ' ' then TrimRight(s[..|s| - 1]) else s
  }

  /** The two tables are inverse, and the lossy one adds nothing but question marks. */
  lemma TablesAreInverse(c: char, b: byte)
    ensures ToByte(c) == Some(b) <==> FromByte(b) == c && c != UNKNOWN
  {
  }

  /** A name makes a field exactly if it is no longer than it and has no other characters. */
  lemma PaddedOrNot(s: string, n: nat)
    ensures EncodePadded(s, n).Some? <==>
      |s| <= n && forall i :: 0 <= i < |s| ==>
        'A' <= s[i] <= 'Z' || '0' <= s[i] <= '9' || s[i] == ' ' || s[i] == '$' || s[i] == '#' || s[i] == '@'
  {
    hide ToByte;
    forall i | 0 <= i < |s| ensures ToByte(s[i]).Some? <==>
        'A' <= s[i] <= 'Z' || '0' <= s[i] <= '9' || s[i] == ' ' || s[i] == '$' || s[i] == '#' || s[i] == '@'
    {
      NothingElse(s[i], 0);
    }
  }

  /** A padded name reads back as the name, up to trailing blanks. */
  lemma PaddedReadsBack(s: string, n: nat)
    requires EncodePadded(s, n).Some?
    ensures TrimRight(Decode(EncodePadded(s, n).value)) == TrimRight(s)
  {
    hide ToByte, FromByte;
    var t := Decode(EncodePadded(s, n).value);
    forall i | 0 <= i < |s| ensures t[i] == s[i] {
      TablesAreInverse(s[i], ToByte(s[i]).value);
    }
    BlankIsBlank();
    assert t[..|s|] == s;
    TrimBlanks(t, |s|);
  }

  lemma BlankIsBlank()
    ensures FromByte(BLANK) == ' '
  {
  }

  lemma {:induction false} TrimBlanks(t: string, n: nat)
    requires n <= |t| && forall i :: n <= i < |t| ==> t[i] == ' '
    ensures TrimRight(t) == TrimRight(t[..n])
    decreases |t|
  {
    if n < |t| {
      TrimBlanks(t[..|t| - 1], n);
      assert t[..|t| - 1][..n] == t[..n];
    } else {
      assert t[..n] == t;
    }
  }

  /** The characters there are, and their bytes in CCSID 37. */
  lemma CodePage37(i: nat)
    ensures i < 9 ==> ToByte("ABCDEFGHI"[i]) == Some(0xC1 + i) && ToByte("JKLMNOPQR"[i]) == Some(0xD1 + i)
    ensures i < 8 ==> ToByte("STUVWXYZ"[i]) == Some(0xE2 + i)
    ensures i < 10 ==> ToByte("0123456789"[i]) == Some(0xF0 + i)
    ensures ToByte(' ') == Some(0x40) && ToByte('$') == Some(0x5B)
    ensures ToByte('#') == Some(0x7B) && ToByte('@') == Some(0x7C)
  {
  }

  /** And no others. */
  lemma NothingElse(c: char, b: byte)
    ensures ToByte(c).Some? <==> 'A' <= c <= 'Z' || '0' <= c <= '9' || c == ' ' || c == '$' || c == '#' || c == '@'
    ensures FromByte(b) != '?' <==> ToByte(FromByte(b)) == Some(b)
  {
    TablesAreInverse(FromByte(b), b);
  }
}
