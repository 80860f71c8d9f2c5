/** How a statement's text tells its type: the first word after spaces, parentheses and comments. */
module Keyword {
  import opened Wrappers

  const UNDETERMINED: nat := 0
  const OTHER: nat := 1
  const SELECT: nat := 2
  const CALL: nat := 3

  /** What the code asks of the Unicode tables. */
  datatype Unicode = Unicode(isSpace: char -> bool, isLetter: char -> bool, upper: string -> string)

  /** Where t first occurs in s at or after position `from`. */
  function Index(s: string, t: string, from: nat): (r: Option<nat>)
    ensures r.Some? ==> from <= r.value && r.value + |t| <= |s| && s[r.value..r.value + |t|] == t
    ensures r.Some? ==> forall i :: from <= i < r.value ==> !(t <= s[i..])
    ensures r.None? ==> forall i :: from <= i <= |s| ==> !(t <= s[i..])
    decreases |s| + 1 - from
  {
    if from > |s| then None
    else if t <= s[from..] then Some(from)
    else Index(s, t, from + 1)
  }

  function TrimLeft(u: Unicode, s: string): (r: string)
    ensures |r| <= |s| && (r != "" ==> !u.isSpace(r[0]) && r[0] != '(')
  {
    if s != "" && (u.isSpace(s[0]) || s[0] == '(') then TrimLeft(u, s[1..]) else s
  }

  /** The letters s begins with. */
  function Letters(u: Unicode, s: string): (w: string)
    ensures w <= s && (forall i :: 0 <= i < |w| ==> u.isLetter(w[i])) && (|w| < |s| ==> !u.isLetter(s[|w|]))
  {
    if s == "" || !u.isLetter(s[0]) then "" else [s[0]] + Letters(u, s[1..])
  }

  function Word(u: Unicode, s: string): string {
    var w := Letters(u, s);
    if w == "" then "" else u.upper(w)
  }

  /**
   * The text with what comes before its first word removed. A block comment
   * is taken to end at the first asterisk and slash from position `opening`
   * of the comment on.
   */
  function Skip(u: Unicode, s: string, opening: nat): string
    decreases |s|
  {
    var t := TrimLeft(u, s);
    if "--" <= t then
      var i := Index(t, "\n", 0);
      if i.None? then "" else Skip(u, t[i.value + 1..], opening)
    else if "/*" <= t then
      var i := Index(t, "*/", opening);
      if i.None? then "" else Skip(u, t[i.value + 2..], opening)
    else t
  }

  /** The code looks for the end of a comment from its very start; the opening itself is two characters long. */
  const FROM_START: nat := 0
  const PAST_OPENING: nat := 2

  function First(u: Unicode, query: string): string {
    Word(u, Skip(u, query, FROM_START))
  }

  function StatementType(keyword: string): nat {
    if keyword == "SELECT" || keyword == "WITH" || keyword == "VALUES" then SELECT
    else if keyword == "CALL" then CALL
    else if keyword == "SET" then UNDETERMINED
    else OTHER
  }

  method FirstKeyword(u: Unicode, query: string) returns (word: string)
    ensures word == First(u, query)
  {
    var s := query;
    while true
      invariant Skip(u, query, FROM_START) == Skip(u, s, FROM_START)
      decreases |s|
    {
      var t := TrimLeft(u, s);
      if "--" <= t {
        var i := Index(t, "\n", 0);
        if i.None? {
          return "";
        }
        s := t[i.value + 1..];
      } else if "/*" <= t {
        var i := Index(t, "*/", FROM_START);
        if i.None? {
          return "";
        }
        s := t[i.value + 2..];
      } else {
        return Word(u, t);
      }
    }
  }

  // ----- What comes before the first word -----

  /** Text that says nothing: a space, a parenthesis, a comment to the end of the line, a comment between marks. */
  datatype Gap = Space(c: char) | Parenthesis | ToEndOfLine(text: string) | Between(text: string)

  predicate IsGap(u: Unicode, g: Gap) {
    match g
    case Space(c) => u.isSpace(c)
    case Parenthesis => true
    case ToEndOfLine(text) => forall i :: 0 <= i < |text| ==> text[i] != '\n'
    case Between(text) =>
      // no end mark in it, and no slash right after the opening
      && (text != "" ==> text[0] != '/')
      && forall i :: 0 <= i < |text| - 1 ==> !(text[i] == '*' && text[i + 1] == '/')
  }

  predicate AllGaps(u: Unicode, gs: seq<Gap>) {
    forall i :: 0 <= i < |gs| ==> IsGap(u, gs[i])
  }

  function Write(g: Gap): string {
    match g
    case Space(c) => [c]
    case Parenthesis => "("
    case ToEndOfLine(text) => "--" + text + "\n"
    case Between(text) => "/*" + text + "*/"
  }

  function WriteAll(gs: seq<Gap>): string {
    if gs == [] then "" else Write(gs[0]) + WriteAll(gs[1..])
  }

  /** What is asked of the tables: the marks of comments are neither spaces nor letters. */
  ghost predicate KnowsMarks(u: Unicode) {
    && !u.isSpace('-') && !u.isSpace('/')
    && forall c :: u.isLetter(c) ==> !u.isSpace(c) && c != '(' && c != '-' && c != '/'
  }

  lemma {:induction false} IndexIs(s: string, t: string, from: nat, at: nat)
    requires from <= at && at + |t| <= |s| && s[at..at + |t|] == t
    requires forall i :: from <= i < at ==> !(t <= s[i..])
    ensures Index(s, t, from) == Some(at)
    decreases at - from
  {
    if from < at {
      IndexIs(s, t, from + 1, at);
    } else {
      assert t <= s[at..];
    }
  }

  lemma LineEnds(text: string, rest: string)
    requires forall i :: 0 <= i < |text| ==> text[i] != '\n'
    ensures Index("--" + text + "\n" + rest, "\n", 0) == Some(2 + |text|)
  {
    var s := "--" + text + "\n" + rest;
    forall i | 0 <= i < 2 + |text| ensures !("\n" <= s[i..]) {
      assert s[i..][0] == s[i];
    }
    IndexIs(s, "\n", 0, 2 + |text|);
  }

  lemma BlockEnds(u: Unicode, text: string, rest: string)
    requires IsGap(u, Between(text))
    ensures Index("/*" + text + "*/" + rest, "*/", 0) == Some(2 + |text|)
  {
    var s := "/*" + text + "*/" + rest;
    forall i | 0 <= i < 2 + |text| ensures !("*/" <= s[i..]) {
      assert s[i..][0] == s[i] && s[i..][1] == s[i + 1];
      NoEarlierEnd(u, text, rest, i);
    }
    IndexIs(s, "*/", 0, 2 + |text|);
  }

  lemma NoEarlierEnd(u: Unicode, text: string, rest: string, i: nat)
    requires IsGap(u, Between(text)) && i < 2 + |text|
    ensures var s := "/*" + text + "*/" + rest; !(s[i] == '*' && s[i + 1] == '/')
  {
    var s := "/*" + text + "*/" + rest;
    assert s[0] == '/' && s[1] == '*' && s[2 + |text|] == '*';
    if i >= 2 {
      assert s[i] == text[i - 2];
      if i + 1 < 2 + |text| {
        assert s[i + 1] == text[i - 1];
      }
    } else if i == 1 && text != "" {
      assert s[2] == text[0];
    }
  }

  lemma OneGap(u: Unicode, g: Gap, rest: string)
    requires KnowsMarks(u) && IsGap(u, g)
    ensures Skip(u, Write(g) + rest, FROM_START) == Skip(u, rest, FROM_START)
  {
    hide Index, Skip, TrimLeft;
    match g
    case Space(c) => TrimmedGoes(u, Write(g) + rest, rest);
    case Parenthesis => TrimmedGoes(u, Write(g) + rest, rest);
    case ToEndOfLine(text) => LineGap(u, text, rest);
    case Between(text) => BlockGap(u, text, rest);
  }

  lemma LineGap(u: Unicode, text: string, rest: string)
    requires KnowsMarks(u) && IsGap(u, ToEndOfLine(text))
    ensures Skip(u, Write(ToEndOfLine(text)) + rest, FROM_START) == Skip(u, rest, FROM_START)
  {
    hide Index, Skip;
    LineEnds(text, rest);
    LineGoes(u, "--" + text + "\n" + rest, rest, 2 + |text|);
  }

  lemma BlockGap(u: Unicode, text: string, rest: string)
    requires KnowsMarks(u) && IsGap(u, Between(text))
    ensures Skip(u, Write(Between(text)) + rest, FROM_START) == Skip(u, rest, FROM_START)
  {
    hide Index, Skip;
    BlockEnds(u, text, rest);
    BlockGoes(u, "/*" + text + "*/" + rest, rest, FROM_START, 2 + |text|);
  }

  lemma TrimmedGoes(u: Unicode, s: string, rest: string)
    requires s != "" && (u.isSpace(s[0]) || s[0] == '(') && s[1..] == rest
    ensures Skip(u, s, FROM_START) == Skip(u, rest, FROM_START)
  {
    hide Index;
    assert TrimLeft(u, s) == TrimLeft(u, rest);
  }

  lemma LineGoes(u: Unicode, s: string, rest: string, end: nat)
    requires KnowsMarks(u) && |s| >= 2 && s[0] == '-' && s[1] == '-' && Index(s, "\n", 0) == Some(end)
    requires s[end + 1..] == rest
    ensures Skip(u, s, FROM_START) == Skip(u, rest, FROM_START)
  {
    assert TrimLeft(u, s) == s;
    hide TrimLeft, Index;
    assert s[..2] == "--";
  }

  lemma BlockGoes(u: Unicode, s: string, rest: string, opening: nat, end: nat)
    requires !u.isSpace('/') && |s| >= 2 && s[0] == '/' && s[1] == '*'
    requires Index(s, "*/", opening) == Some(end) && s[end + 2..] == rest
    ensures Skip(u, s, opening) == Skip(u, rest, opening)
  {
    assert TrimLeft(u, s) == s;
    hide TrimLeft, Index;
    assert s[..2] == "/*" && !("--" <= s);
  }

  /** Whatever gaps come first, the word found is the run of letters behind them, in upper case. */
  lemma {:induction false} GapsAreSkipped(u: Unicode, gs: seq<Gap>, word: string, rest: string)
    requires KnowsMarks(u) && AllGaps(u, gs)
    requires word != "" && (forall i :: 0 <= i < |word| ==> u.isLetter(word[i]))
    requires rest != "" ==> !u.isLetter(rest[0])
    ensures First(u, WriteAll(gs) + word + rest) == u.upper(word)
    decreases |gs|
  {
    hide Skip, IsGap, Write;
    if gs == [] {
      assert WriteAll(gs) + word + rest == word + rest;
      WordAtOnce(u, word, rest);
    } else {
      OneGap(u, gs[0], WriteAll(gs[1..]) + word + rest);
      assert WriteAll(gs) + word + rest == Write(gs[0]) + (WriteAll(gs[1..]) + word + rest);
      GapsAreSkipped(u, gs[1..], word, rest);
    }
  }

  lemma WordAtOnce(u: Unicode, word: string, rest: string)
    requires KnowsMarks(u)
    requires word != "" && (forall i :: 0 <= i < |word| ==> u.isLetter(word[i]))
    requires rest != "" ==> !u.isLetter(rest[0])
    ensures First(u, word + rest) == u.upper(word)
  {
    var s := word + rest;
    assert s[0] == word[0];
    assert TrimLeft(u, s) == s;
    assert !("--" <= s) && !("/*" <= s);
    LettersOf(u, word, rest);
  }

  lemma {:induction false} LettersOf(u: Unicode, word: string, rest: string)
    requires (forall i :: 0 <= i < |word| ==> u.isLetter(word[i])) && (rest != "" ==> !u.isLetter(rest[0]))
    ensures Letters(u, word + rest) == word
  {
    if word == "" {
      assert word + rest == rest;
    } else {
      assert (word + rest)[1..] == word[1..] + rest;
      LettersOf(u, word[1..], rest);
    }
  }

  /** A comment that does not end, and a text without a word, have no first word. */
  lemma UnendedComments(u: Unicode, s: string)
    requires KnowsMarks(u)
    ensures "--" <= s && Index(s, "\n", 0).None? ==> First(u, s) == ""
    ensures "/*" <= s && Index(s, "*/", 0).None? ==> First(u, s) == ""
    ensures s == "" ==> First(u, s) == ""
  {
    hide Index;
    if "--" <= s || "/*" <= s {
      assert TrimLeft(u, s) == s;
    }
  }

  /** The types the server is told: 2 for a query, 3 for a call, 0 for SET and 1 for anything else. */
  lemma TypesOnTheWire(word: string)
    ensures StatementType("SELECT") == 2 && StatementType("WITH") == 2 && StatementType("VALUES") == 2
    ensures StatementType("CALL") == 3 && StatementType("SET") == 0
    ensures word !in ["SELECT", "WITH", "VALUES", "CALL", "SET"] ==> StatementType(word) == 1
  {
    assert "SELECT"[0] == 'S' && "WITH"[0] == 'W' && "VALUES"[0] == 'V' && "CALL"[0] == 'C';
    assert |"SELECT"| == 6 && |"SET"| == 3;
    var ws := ["SELECT", "WITH", "VALUES", "CALL", "SET"];
    assert ws[0] == "SELECT" && ws[1] == "WITH" && ws[2] == "VALUES" && ws[3] == "CALL" && ws[4] == "SET";
  }

  // ----- Against SQL's own comments -----

  /**
   * Where the code and the language disagree about one comment: exactly if it
   * opens with a slash, an asterisk and a slash.
   */
  lemma OneCommentDiffers(t: string)
    requires "/*" <= t
    ensures Index(t, "*/", FROM_START) != Index(t, "*/", PAST_OPENING) <==> "/*/" <= t
  {
    assert t[0] == '/' && t[1] == '*';
    assert !("*/" <= t[0..]);
    assert "*/" <= t[1..] <==> "/*/" <= t by {
      assert t[1..][0] == t[1];
      if |t| > 2 {
        assert t[1..][1] == t[2];
      }
    }
  }

  /** Whether a comment before the first word opens with a slash, an asterisk and a slash. */
  predicate Confusing(u: Unicode, s: string)
    decreases |s|
  {
    var t := TrimLeft(u, s);
    if "--" <= t then
      var i := Index(t, "\n", 0);
      i.Some? && Confusing(u, t[i.value + 1..])
    else if "/*" <= t then
      "/*/" <= t || (var i := Index(t, "*/", PAST_OPENING); i.Some? && Confusing(u, t[i.value + 2..]))
    else false
  }

  /** If none does, the word found is the first word of the statement. */
  lemma {:induction false} AgreesUnlessConfusing(u: Unicode, s: string)
    requires !Confusing(u, s)
    ensures Skip(u, s, FROM_START) == Skip(u, s, PAST_OPENING)
    decreases |s|
  {
    var t := TrimLeft(u, s);
    if "--" <= t {
      var i := Index(t, "\n", 0);
      if i.Some? {
        AgreesUnlessConfusing(u, t[i.value + 1..]);
      }
    } else if "/*" <= t {
      OneCommentDiffers(t);
      var i := Index(t, "*/", PAST_OPENING);
      if i.Some? {
        AgreesUnlessConfusing(u, t[i.value + 2..]);
      }
    }
  }

  const MASKED := "/*/CALL*/DROP"

  /** What of the tables matters for that text. */
  ghost predicate Ordinary(u: Unicode) {
    && (forall c :: 'A' <= c <= 'Z' ==> u.isLetter(c) && !u.isSpace(c))
    && !u.isLetter('*') && !u.isSpace('/')
    && (forall s: string :: IsCapitals(s) ==> u.upper(s) == s)
  }

  predicate IsCapitals(s: string) {
    forall i :: 0 <= i < |s| ==> 'A' <= s[i] <= 'Z'
  }

  /** A statement that is not a call, and is taken for one. */
  lemma AConfusingStatement(u: Unicode)
    requires Ordinary(u)
    ensures Confusing(u, MASKED)
    ensures StatementType(First(u, MASKED)) == CALL
    ensures StatementType(Word(u, Skip(u, MASKED, PAST_OPENING))) == OTHER
  {
    hide Skip, Word, TrimLeft, Index;
    MaskedInCode(u);
    MaskedInSql(u);
    MaskedIsConfusing(u);
    assert "CALL"[0] == 'C' && "DROP"[0] == 'D' && "WITH"[0] == 'W';
    assert |"SELECT"| == 6 && |"VALUES"| == 6 && |"SET"| == 3;
  }

  lemma MaskedIsConfusing(u: Unicode)
    requires Ordinary(u)
    ensures Confusing(u, MASKED)
  {
    assert TrimLeft(u, MASKED) == MASKED;
    assert MASKED[0] == '/' && MASKED[..3] == "/*/";
  }

  lemma MaskedInCode(u: Unicode)
    requires Ordinary(u)
    ensures Word(u, Skip(u, MASKED, FROM_START)) == "CALL"
  {
    hide Skip, Word, TrimLeft, Index;
    EndsAt(MASKED, FROM_START, 1);
    assert MASKED[3..7] == "CALL" && IsCapitals("CALL");
    CommentThenWord(u, MASKED, FROM_START, 1, 4);
  }

  lemma MaskedInSql(u: Unicode)
    requires Ordinary(u)
    ensures Word(u, Skip(u, MASKED, PAST_OPENING)) == "DROP"
  {
    hide Skip, Word, TrimLeft, Index;
    EndsAt(MASKED, PAST_OPENING, 7);
    assert MASKED[9..13] == "DROP" && IsCapitals("DROP");
    CommentThenWord(u, MASKED, PAST_OPENING, 7, 4);
  }

  /** A comment at the front, and a word in capitals right behind it. */
  lemma CommentThenWord(u: Unicode, s: string, opening: nat, end: nat, n: nat)
    requires Ordinary(u)
    requires |s| >= 2 && s[0] == '/' && s[1] == '*' && Index(s, "*/", opening) == Some(end)
    requires end + 2 + n <= |s| && n > 0 && IsCapitals(s[end + 2..end + 2 + n])
    requires end + 2 + n < |s| ==> !u.isLetter(s[end + 2 + n])
    ensures Word(u, Skip(u, s, opening)) == s[end + 2..end + 2 + n]
  {
    var rest := s[end + 2..];
    hide Letters, Index;
    BlockGoes(u, s, rest, opening, end);
    assert rest[..n] == s[end + 2..end + 2 + n];
    assert rest[0] == rest[..n][0];
    PlainText(u, rest, opening);
    LettersAre(u, rest, n);
  }

  lemma {:induction false} EndsAt(s: string, from: nat, at: nat)
    requires from <= at < |s| - 1 && s[at] == '*' && s[at + 1] == '/' && forall i :: from <= i < at ==> s[i] != '*'
    ensures Index(s, "*/", from) == Some(at)
    decreases at - from
  {
    if from < at {
      assert s[from..][0] == s[from];
      EndsAt(s, from + 1, at);
    } else {
      assert s[at..at + 2] == "*/";
    }
  }

  lemma PlainText(u: Unicode, s: string, opening: nat)
    requires Ordinary(u) && s != "" && 'A' <= s[0] <= 'Z'
    ensures Skip(u, s, opening) == s
  {
    assert TrimLeft(u, s) == s;
  }

  /** A word in capitals, all of it. */
  lemma {:induction false} LettersAre(u: Unicode, s: string, n: nat)
    requires Ordinary(u) && n <= |s| && IsCapitals(s[..n]) && (n < |s| ==> !u.isLetter(s[n]))
    ensures Letters(u, s) == s[..n]
  {
    hide IsCapitals;
    CapitalsAreLetters(u, s[..n]);
    if n > 0 {
      assert s[0] == s[..n][0];
      assert s[1..][..n - 1] == s[..n][1..];
      CapitalsRest(s[..n]);
      LettersAre(u, s[1..], n - 1);
    }
  }

  lemma CapitalsAreLetters(u: Unicode, s: string)
    requires Ordinary(u) && IsCapitals(s)
    ensures forall i :: 0 <= i < |s| ==> u.isLetter(s[i])
  {
  }

  lemma CapitalsRest(s: string)
    requires IsCapitals(s) && s != ""
    ensures IsCapitals(s[1..])
  {
  }
}
