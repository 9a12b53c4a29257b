/** The read-only query check: index-skipping scanners, proved against a lexer that knows only single tokens. */
module SqlSafety {

  predicate IsWhitespace(c: char)
  {
    c == ' ' || c == '\n' || c == '\r' || c == '\t' || c == '\U{000C}'
  }

  predicate IsNewline(c: char)
  {
    c == '\n' || c == '\r'
  }

  predicate IsLetter(c: char)
  {
    'a' <= c <= 'z' || 'A' <= c <= 'Z'
  }

  // ----------------------------------------------------------------- the lexer

  datatype Token = Blank | Comment | Quoted | Semicolon | Other

  /** Tokens that may follow a trailing semicolon. */
  predicate Ignorable(t: Token)
  {
    t == Blank || t == Comment || t == Semicolon
  }

  predicate Pair(s: string, i: nat, a: char, b: char)
  {
    i + 1 < |s| && s[i] == a && s[i + 1] == b
  }

  /** Where a comment that runs to the end of the line stops: at the newline. */
  function LineEnd(s: string, i: nat): (e: nat)
    ensures i <= |s| ==> i <= e <= |s|
    ensures i > |s| ==> e == |s|
    decreases |s| - i
  {
    if i >= |s| then |s| else if IsNewline(s[i]) then i else LineEnd(s, i + 1)
  }

  function BlockEnd(s: string, i: nat): (e: nat)
    ensures i <= |s| ==> i <= e <= |s|
    ensures i > |s| ==> e == |s|
    decreases |s| - i
  {
    if i + 1 >= |s| then |s| else if Pair(s, i, '*', '/') then i + 2 else BlockEnd(s, i + 1)
  }

  /**
   Where a quoted text with quote `q` stops. Backslashes escape except in backticks; a doubled quote is one, except
   `""`.
   */
  function QuoteEnd(s: string, i: nat, q: char): (e: nat)
    ensures i <= |s| ==> i <= e <= |s|
    ensures i > |s| ==> e == |s|
    decreases |s| - i
  {
    if i >= |s| then |s|
    else if q != '`' && s[i] == '\\' then QuoteEnd(s, i + 2, q)
    else if q != '\"' && Pair(s, i, q, q) then QuoteEnd(s, i + 2, q)
    else if s[i] == q then i + 1
    else QuoteEnd(s, i + 1, q)
  }

  /** A line comment ends before the first newline or at the end of the text. */
  lemma {:induction false} LineStops(s: string, i: nat)
    requires i <= |s|
    ensures var e := LineEnd(s, i);
      (forall j | i <= j < e :: s[j] != '\n' && s[j] != '\r') && (e == |s| || s[e] == '\n' || s[e] == '\r')
    decreases |s| - i
  {
    if i < |s| && !IsNewline(s[i]) {
      LineStops(s, i + 1);
    }
  }

  /** A block comment ends behind the first asterisk with a slash or, unclosed, at the end of the text. */
  lemma {:induction false} BlockStops(s: string, i: nat)
    requires i <= |s|
    ensures var e := BlockEnd(s, i);
      && (forall j | i <= j && j + 2 < e :: s[j] != '*' || s[j + 1] != '/')
      && (e == |s| || (e >= i + 2 && s[e - 2] == '*' && s[e - 1] == '/'))
    decreases |s| - i
  {
    if i + 1 < |s| && !Pair(s, i, '*', '/') {
      BlockStops(s, i + 1);
    }
  }

  /** One unit of the text inside quotes: a backslash with what it escapes, a doubled quote, or a single character. */
  predicate QuoteUnit(u: string, q: char)
  {
    || (|u| == 2 && q != '`' && u[0] == '\\')
    || (u == [q, q] && q != '\"')
    || (|u| == 1 && u[0] != q && (q == '`' || u[0] != '\\'))
  }

  lemma UnitIsInside(s: string, i: nat, q: char, u: string)
    requires i + |u| <= |s| && s[i..i + |u|] == u && QuoteUnit(u, q) && q != '\\'
    ensures QuoteEnd(s, i, q) == QuoteEnd(s, i + |u|, q)
  {
    assert s[i] == u[0] && (|u| == 2 ==> s[i + 1] == u[1]);
  }

  /** A quoted text is a sequence of units: it stops behind the first quote that is not part of one. */
  lemma {:induction false} QuoteStops(s: string, i: nat, q: char, units: seq<string>, tail: string)
    requires i <= |s| && s[i..] == Join(units) + tail && (forall u | u in units :: QuoteUnit(u, q)) && q != '\\'
    requires tail == "" || (q != '`' && tail == "\\") || (tail[0] == q && (q == '\"' || |tail| == 1 || tail[1] != q))
    ensures QuoteEnd(s, i, q) == if tail != "" && tail[0] == q then |s| - |tail| + 1 else |s|
    decreases |units|
  {
    if units == [] {
      assert s[i..] == tail;
      assert tail != "" ==> s[i] == tail[0];
      assert |tail| > 1 ==> s[i + 1] == tail[1];
    } else {
      var u, rest := units[0], Join(units[1..]) + tail;
      assert QuoteUnit(u, q) && s[i..] == u + rest;
      assert s[i + |u|..] == s[i..][|u|..] == rest;
      assert s[i..i + |u|] == s[i..][..|u|] == u;
      QuoteStops(s, i + |u|, q, units[1..], tail);
      UnitIsInside(s, i, q, u);
    }
  }

  /** Every text can be read like that. */
  lemma {:induction false} QuoteUnits(s: string, i: nat, q: char) returns (units: seq<string>, tail: string)
    requires i <= |s| && q != '\\'
    ensures s[i..] == Join(units) + tail && forall u | u in units :: QuoteUnit(u, q)
    ensures tail == "" || (q != '`' && tail == "\\") || (tail[0] == q && (q == '\"' || |tail| == 1 || tail[1] != q))
    decreases |s| - i
  {
    var n := if q != '`' && i < |s| && s[i] == '\\' then 2
             else if q != '\"' && Pair(s, i, q, q) then 2
             else 1;
    if i + n > |s| || (n == 1 && s[i] == q) {
      units, tail := [], s[i..];
    } else {
      var rest;
      rest, tail := QuoteUnits(s, i + n, q);
      units := [s[i..i + n]] + rest;
      assert units[1..] == rest;
      assert s[i..] == s[i..i + n] + (Join(rest) + tail);
    }
  }

  function Join(ps: seq<string>): string
  {
    if ps == [] then "" else ps[0] + Join(ps[1..])
  }

  predicate IsQuote(c: char)
  {
    c == '\'' || c == '\"' || c == '`'
  }

  function TokenAt(s: string, i: nat): Token
    requires i < |s|
  {
    if IsWhitespace(s[i]) then Blank
    else if Pair(s, i, '-', '-') || s[i] == '#' || Pair(s, i, '/', '*') then Comment
    else if IsQuote(s[i]) then Quoted
    else if s[i] == ';' then Semicolon
    else Other
  }

  function TokenEnd(s: string, i: nat): (e: nat)
    requires i < |s|
    ensures i < e <= |s|
  {
    if Pair(s, i, '-', '-') then LineEnd(s, i + 2)
    else if s[i] == '#' then LineEnd(s, i + 1)
    else if Pair(s, i, '/', '*') then BlockEnd(s, i + 2)
    else if IsQuote(s[i]) then QuoteEnd(s, i + 1, s[i])
    else i + 1
  }

  function Tokens(s: string, i: nat): seq<Token>
    decreases |s| - i
  {
    if i >= |s| then [] else [TokenAt(s, i)] + Tokens(s, TokenEnd(s, i))
  }

  /** Some semicolon outside quotes and comments is followed by more than blanks, comments and semicolons. */
  ghost predicate NonTrailing(ts: seq<Token>)
  {
    exists a, b :: 0 <= a < b < |ts| && ts[a] == Semicolon && !Ignorable(ts[b])
  }

  ghost predicate AllIgnorable(ts: seq<Token>)
  {
    forall t | t in ts :: Ignorable(t)
  }

  lemma NonTrailingStep(s: string, i: nat)
    requires i < |s|
    ensures NonTrailing(Tokens(s, i)) <==>
            NonTrailing(Tokens(s, TokenEnd(s, i)))
            || (TokenAt(s, i) == Semicolon && !AllIgnorable(Tokens(s, TokenEnd(s, i))))
  {
    var ts, rest := Tokens(s, i), Tokens(s, TokenEnd(s, i));
    assert ts == [TokenAt(s, i)] + rest;
    if NonTrailing(ts) {
      var a, b :| 0 <= a < b < |ts| && ts[a] == Semicolon && !Ignorable(ts[b]);
      if a > 0 { assert rest[a - 1] == Semicolon && !Ignorable(rest[b - 1]); } else { assert rest[b - 1] in rest; }
    }
    if NonTrailing(rest) {
      var a, b :| 0 <= a < b < |rest| && rest[a] == Semicolon && !Ignorable(rest[b]);
      assert ts[a + 1] == Semicolon && !Ignorable(ts[b + 1]);
    }
    if TokenAt(s, i) == Semicolon && !AllIgnorable(rest) {
      var b :| 0 <= b < |rest| && !Ignorable(rest[b]);
      assert ts[0] == Semicolon && !Ignorable(ts[b + 1]);
    }
  }

  // -------------------------------------------------------------- the scanners

  /** The next position at or after `i` that starts neither a blank nor a comment. */
  function Significant(s: string, i: nat): (j: nat)
    requires i <= |s|
    ensures i <= j <= |s|
    decreases |s| - i
  {
    if i == |s| then i
    else if TokenAt(s, i) == Blank || TokenAt(s, i) == Comment then Significant(s, TokenEnd(s, i))
    else i
  }

  method SkipLine(sql: string, start: nat) returns (index: nat)
    requires start <= |sql|
    ensures index == LineEnd(sql, start)
  {
    index := start;
    while index < |sql| && sql[index] != '\n' && sql[index] != '\r'
      invariant index <= |sql| && LineEnd(sql, start) == LineEnd(sql, index)
    {
      index := index + 1;
    }
  }

  method SkipBlock(sql: string, start: nat) returns (index: nat)
    requires start <= |sql|
    ensures index == BlockEnd(sql, start)
  {
    index := start;
    while index + 1 < |sql| && !(sql[index] == '*' && sql[index + 1] == '/')
      invariant index <= |sql| && BlockEnd(sql, start) == BlockEnd(sql, index)
    {
      index := index + 1;
    }
    if index + 1 >= |sql| {
      return |sql|;
    }
    index := index + 2;
  }

  method SkipWhitespaceAndComments(sql: string, start: nat) returns (index: nat)
    requires start <= |sql|
    ensures index == Significant(sql, start)
  {
    index := start;
    while index < |sql|
      invariant index <= |sql| && Significant(sql, start) == Significant(sql, index)
      decreases |sql| - index
    {
      while index < |sql| && IsWhitespace(sql[index])
        invariant index <= |sql| && Significant(sql, start) == Significant(sql, index)
      {
        index := index + 1;
      }
      if index >= |sql| {
        return index;
      }
      if sql[index] == '-' && index + 1 < |sql| && sql[index + 1] == '-' {
        index := SkipLine(sql, index + 2);
        continue;
      }
      if sql[index] == '#' {
        index := SkipLine(sql, index + 1);
        continue;
      }
      if sql[index] == '/' && index + 1 < |sql| && sql[index + 1] == '*' {
        index := SkipBlock(sql, index + 2);
        continue;
      }
      return index;
    }
  }

  /** `AllIgnorable` of the tokens from `i` on, one token at a time. */
  predicate RestIgnorable(s: string, i: nat)
    decreases |s| - i
  {
    i >= |s| || (Ignorable(TokenAt(s, i)) && RestIgnorable(s, TokenEnd(s, i)))
  }

  lemma {:induction false} RestIgnorableIs(s: string, i: nat)
    ensures RestIgnorable(s, i) <==> AllIgnorable(Tokens(s, i))
    decreases |s| - i
  {
    if i < |s| {
      RestIgnorableIs(s, TokenEnd(s, i));
      assert Tokens(s, i) == [TokenAt(s, i)] + Tokens(s, TokenEnd(s, i));
    }
  }

  lemma {:induction false} SignificantKeepsRest(s: string, i: nat)
    requires i <= |s|
    ensures RestIgnorable(s, i) <==> RestIgnorable(s, Significant(s, i))
    ensures var j := Significant(s, i); j < |s| ==> TokenAt(s, j) != Blank && TokenAt(s, j) != Comment
    decreases |s| - i
  {
    if i < |s| && (TokenAt(s, i) == Blank || TokenAt(s, i) == Comment) {
      SignificantKeepsRest(s, TokenEnd(s, i));
    }
  }

  method CanIgnoreAfterSemicolon(sql: string, start: nat) returns (ignorable: bool)
    requires start <= |sql|
    ensures ignorable <==> AllIgnorable(Tokens(sql, start))
  {
    RestIgnorableIs(sql, start);
    SignificantKeepsRest(sql, start);
    var index := SkipWhitespaceAndComments(sql, start);
    while index < |sql| && sql[index] == ';'
      invariant index <= |sql| && (index < |sql| ==> TokenAt(sql, index) != Blank && TokenAt(sql, index) != Comment)
      invariant RestIgnorable(sql, start) == RestIgnorable(sql, index)
      decreases |sql| - index
    {
      SignificantKeepsRest(sql, index + 1);
      index := SkipWhitespaceAndComments(sql, index + 1);
    }
    ignorable := index >= |sql|;
  }

  /** The scanner's state; the program keeps one flag for each mode but `Code`, at most one of them set. */
  datatype Mode = Code | LineComment | BlockComment | Quote(q: char)

  /** Where the token that `mode` is inside of ends. */
  function ModeEnd(sql: string, index: nat, mode: Mode): nat
  {
    match mode
    case Code => index
    case LineComment => LineEnd(sql, index)
    case BlockComment => BlockEnd(sql, index)
    case Quote(q) => QuoteEnd(sql, index, q)
  }

  /** The verdict on the text from a token start on, one token at a time; `VerdictIs` says what it means. */
  ghost function Verdict(sql: string, i: nat): bool
    decreases |sql| - i
  {
    if i >= |sql| then false
    else
      (TokenAt(sql, i) == Semicolon && !AllIgnorable(Tokens(sql, TokenEnd(sql, i)))) || Verdict(sql, TokenEnd(sql, i))
  }

  lemma {:induction false} VerdictIs(sql: string, i: nat)
    ensures Verdict(sql, i) <==> NonTrailing(Tokens(sql, i))
    decreases |sql| - i
  {
    if i < |sql| {
      NonTrailingStep(sql, i);
      VerdictIs(sql, TokenEnd(sql, i));
    }
  }

  /** One turn of the scanner's loop: the next index and mode. */
  function Turn(sql: string, index: nat, mode: Mode): (nat, Mode)
    requires index < |sql|
  {
    var c := sql[index];
    match mode
    case LineComment => (index + 1, if IsNewline(c) then Code else mode)
    case BlockComment => if Pair(sql, index, '*', '/') then (index + 2, Code) else (index + 1, mode)
    case Quote(q) =>
      if (q != '`' && c == '\\') || (q != '\"' && Pair(sql, index, q, q)) then (index + 2, mode)
      else (index + 1, if c == q then Code else mode)
    case Code =>
      if Pair(sql, index, '-', '-') then (index + 2, LineComment)
      else if c == '#' then (index + 1, LineComment)
      else if Pair(sql, index, '/', '*') then (index + 2, BlockComment)
      else if IsQuote(c) then (index + 1, Quote(c))
      else (index + 1, Code)
  }

  predicate InMode(sql: string, index: nat, mode: Mode)
  {
    if mode.Quote? then IsQuote(mode.q) else index <= |sql|
  }

  /** Inside a token, a turn does not change where the token ends. */
  lemma TurnInside(sql: string, index: nat, mode: Mode)
    requires index < |sql| && InMode(sql, index, mode) && mode != Code
    requires mode == LineComment ==> !IsNewline(sql[index])
    ensures var (index', mode') := Turn(sql, index, mode);
      InMode(sql, index', mode') && ModeEnd(sql, index, mode) == ModeEnd(sql, index', mode')
  {
  }

  /** At the start of a token, a turn goes to where that token ends. */
  lemma TurnIntoToken(sql: string, index: nat)
    requires index < |sql|
    ensures var (index', mode') := Turn(sql, index, Code);
      InMode(sql, index', mode') && ModeEnd(sql, index', mode') == TokenEnd(sql, index)
  {
  }

  /** The newline after a line comment is a blank, which decides nothing. */
  lemma TurnAtNewline(sql: string, index: nat)
    requires index < |sql| && IsNewline(sql[index])
    ensures Turn(sql, index, LineComment) == (index + 1, Code) && ModeEnd(sql, index, LineComment) == index
    ensures Verdict(sql, index) == Verdict(sql, index + 1)
  {
    assert TokenAt(sql, index) == Blank && TokenEnd(sql, index) == index + 1;
  }

  /** A turn stays inside the token it is in or moves to the next, unless it meets a semicolon that is not trailing. */
  lemma TurnKeepsVerdict(sql: string, index: nat, mode: Mode)
    requires index < |sql| && InMode(sql, index, mode)
    requires mode == Code && sql[index] == ';' ==> AllIgnorable(Tokens(sql, index + 1))
    ensures var (index', mode') := Turn(sql, index, mode);
      InMode(sql, index', mode') && Verdict(sql, ModeEnd(sql, index, mode)) == Verdict(sql, ModeEnd(sql, index', mode'))
  {
    if mode == Code {
      TurnIntoToken(sql, index);
      assert TokenAt(sql, index) == Semicolon ==> TokenEnd(sql, index) == index + 1;
    } else if mode == LineComment && IsNewline(sql[index]) {
      TurnAtNewline(sql, index);
    } else {
      TurnInside(sql, index, mode);
    }
  }

  method HasNonTrailingSemicolon(sql: string) returns (found: bool)
    ensures found <==> NonTrailing(Tokens(sql, 0))
  {
    VerdictIs(sql, 0);
    var index, mode := 0, Code;
    while index < |sql|
      invariant InMode(sql, index, mode)
      invariant Verdict(sql, 0) == Verdict(sql, ModeEnd(sql, index, mode))
      decreases |sql| - index
    {
      var c := sql[index];
      ghost var at, before := index, mode;
      match mode {
      case LineComment =>
        if c == '\n' || c == '\r' {
          mode := Code;
        }
        index := index + 1;
      case BlockComment =>
        if c == '*' && index + 1 < |sql| && sql[index + 1] == '/' {
          mode := Code;
          index := index + 1;
        }
        index := index + 1;
      case Quote(q) =>
        if q != '`' && c == '\\' {
          index := index + 1;
        } else if q != '\"' && c == q && index + 1 < |sql| && sql[index + 1] == q {
          index := index + 1;
        } else if c == q {
          mode := Code;
        }
        index := index + 1;
      case Code =>
        if c == '-' && index + 1 < |sql| && sql[index + 1] == '-' {
          mode := LineComment;
          index := index + 1;
        } else if c == '#' {
          mode := LineComment;
        } else if c == '/' && index + 1 < |sql| && sql[index + 1] == '*' {
          mode := BlockComment;
          index := index + 1;
        } else if c == '\'' || c == '\"' || c == '`' {
          mode := Quote(c);
        } else if c == ';' {
          var ignorable := CanIgnoreAfterSemicolon(sql, index + 1);
          if !ignorable {
            return true;
          }
        }
        index := index + 1;
      }
      assert Turn(sql, at, before) == (index, mode);
      TurnKeepsVerdict(sql, at, before);
    }
    return false;
  }

  // ------------------------------------------------------------ the read-only check

  /** The end of the run of letters at `i`. */
  function WordEnd(s: string, i: nat): (e: nat)
    requires i <= |s|
    ensures i <= e <= |s| && (forall j | i <= j < e :: IsLetter(s[j])) && (e < |s| ==> !IsLetter(s[e]))
    decreases |s| - i
  {
    if i < |s| && IsLetter(s[i]) then WordEnd(s, i + 1) else i
  }

  function Upper(w: string): (u: string)
    ensures |u| == |w| && forall i | 0 <= i < |w| ::
              if 'a' <= w[i] <= 'z' then u[i] as int == w[i] as int - 32 else u[i] == w[i]
  {
    seq(|w|, i requires 0 <= i < |w| => if 'a' <= w[i] <= 'z' then w[i] - 'a' + 'A' else w[i])
  }

  function Word(s: string, i: nat): string
    requires i <= |s|
  {
    Upper(s[i..WordEnd(s, i)])
  }

  const ReadOnlyKeywords := {"SELECT", "SHOW", "DESCRIBE", "DESC", "EXPLAIN"}

  /** What the check accepts: a read-only keyword first, no EXPLAIN ANALYZE, and one statement only. */
  ghost predicate ReadOnly(sql: string)
  {
    var first := Significant(sql, 0);
    && Word(sql, first) in ReadOnlyKeywords
    && !(Word(sql, first) == "EXPLAIN" && Word(sql, Significant(sql, WordEnd(sql, first))) == "ANALYZE")
    && !NonTrailing(Tokens(sql, 0))
  }

  method ReadWord(sql: string, start: nat) returns (word: string, nextIndex: nat)
    requires start <= |sql|
    ensures word == Word(sql, start) && nextIndex == WordEnd(sql, start)
  {
    nextIndex := start;
    while nextIndex < |sql| && IsLetter(sql[nextIndex])
      invariant start <= nextIndex <= |sql| && WordEnd(sql, start) == WordEnd(sql, nextIndex)
    {
      nextIndex := nextIndex + 1;
    }
    word := Upper(sql[start..nextIndex]);
  }

  method IsReadOnlyMySQLQuery(sql: string) returns (readOnly: bool)
    ensures readOnly <==> ReadOnly(sql)
  {
    var firstTokenStart := SkipWhitespaceAndComments(sql, 0);
    if firstTokenStart >= |sql| {
      return false;
    }
    var word, nextIndex := ReadWord(sql, firstTokenStart);
    if |word| == 0 {
      return false;
    }
    if word !in ReadOnlyKeywords {
      return false;
    }
    if word == "EXPLAIN" {
      var secondTokenStart := SkipWhitespaceAndComments(sql, nextIndex);
      var second, _ := ReadWord(sql, secondTokenStart);
      if second == "ANALYZE" {
        return false;
      }
    }
    var several := HasNonTrailingSemicolon(sql);
    return !several;
  }

  /** The same character, or the same letter in the other case. */
  predicate SameLetter(c: char, d: char)
  {
    c == d || (IsLetter(c) && IsLetter(d) && (c as int + 32 == d as int || d as int + 32 == c as int))
  }

  /** The two texts differ at most in the case of their letters. */
  ghost predicate SameButCase(a: string, b: string)
  {
    |a| == |b| && forall i | 0 <= i < |a| :: SameLetter(a[i], b[i])
  }

  lemma {:induction false} CaseKeepsLine(a: string, b: string, i: nat)
    requires SameButCase(a, b)
    ensures LineEnd(a, i) == LineEnd(b, i)
    decreases |a| - i
  {
    if i < |a| {
      assert SameLetter(a[i], b[i]);
      CaseKeepsLine(a, b, i + 1);
    }
  }

  lemma CaseKeepsPair(a: string, b: string, i: nat, p: char, q: char)
    requires SameButCase(a, b) && !IsLetter(p) && !IsLetter(q)
    ensures Pair(a, i, p, q) <==> Pair(b, i, p, q)
  {
    if i + 1 < |a| {
      assert SameLetter(a[i], b[i]) && SameLetter(a[i + 1], b[i + 1]);
    }
  }

  lemma {:induction false} CaseKeepsBlock(a: string, b: string, i: nat)
    requires SameButCase(a, b)
    ensures BlockEnd(a, i) == BlockEnd(b, i)
    decreases |a| - i
  {
    if i < |a| {
      CaseKeepsPair(a, b, i, '*', '/');
      CaseKeepsBlock(a, b, i + 1);
    }
  }

  lemma {:induction false} CaseKeepsQuote(a: string, b: string, i: nat, q: char)
    requires SameButCase(a, b) && !IsLetter(q)
    ensures QuoteEnd(a, i, q) == QuoteEnd(b, i, q)
    decreases |a| - i
  {
    if i < |a| {
      assert SameLetter(a[i], b[i]);
      CaseKeepsPair(a, b, i, q, q);
      CaseKeepsQuote(a, b, i + 1, q);
      CaseKeepsQuote(a, b, i + 2, q);
    }
  }

  lemma CaseKeepsToken(a: string, b: string, i: nat)
    requires SameButCase(a, b) && i < |a|
    ensures TokenAt(a, i) == TokenAt(b, i)
  {
    assert SameLetter(a[i], b[i]);
    CaseKeepsPair(a, b, i, '-', '-');
    CaseKeepsPair(a, b, i, '/', '*');
  }

  lemma CaseKeepsEnd(a: string, b: string, i: nat)
    requires SameButCase(a, b) && i < |a|
    ensures TokenEnd(a, i) == TokenEnd(b, i)
  {
    assert SameLetter(a[i], b[i]);
    CaseKeepsPair(a, b, i, '-', '-');
    CaseKeepsPair(a, b, i, '/', '*');
    CaseKeepsLine(a, b, i + 1);
    CaseKeepsLine(a, b, i + 2);
    CaseKeepsBlock(a, b, i + 2);
    if IsQuote(a[i]) {
      CaseKeepsQuote(a, b, i + 1, a[i]);
    }
  }

  lemma {:induction false} CaseKeepsTokens(a: string, b: string, i: nat)
    requires SameButCase(a, b) && i <= |a|
    ensures Tokens(a, i) == Tokens(b, i) && Significant(a, i) == Significant(b, i)
    decreases |a| - i
  {
    if i < |a| {
      CaseKeepsToken(a, b, i);
      CaseKeepsEnd(a, b, i);
      CaseKeepsTokens(a, b, TokenEnd(a, i));
    }
  }

  lemma {:induction false} CaseKeepsWord(a: string, b: string, i: nat)
    requires SameButCase(a, b) && i <= |a|
    ensures WordEnd(a, i) == WordEnd(b, i) && Word(a, i) == Word(b, i)
    decreases |a| - i
  {
    if i < |a| {
      assert SameLetter(a[i], b[i]);
      if IsLetter(a[i]) {
        CaseKeepsWord(a, b, i + 1);
      }
    }
    var u, v := a[i..WordEnd(a, i)], b[i..WordEnd(b, i)];
    forall k | 0 <= k < |u| ensures Upper(u)[k] == Upper(v)[k] {
      assert SameLetter(a[i + k], b[i + k]);
    }
  }

  /** Upper or lower case makes no difference. */
  lemma CaseIsIgnored(a: string, b: string)
    requires SameButCase(a, b)
    ensures ReadOnly(a) <==> ReadOnly(b)
  {
    var first := Significant(a, 0);
    CaseKeepsTokens(a, b, 0);
    CaseKeepsWord(a, b, first);
    CaseKeepsTokens(a, b, WordEnd(a, first));
    CaseKeepsWord(a, b, Significant(a, WordEnd(a, first)));
  }

  lemma {:induction false} LettersAreCode(w: string, i: nat)
    requires i <= |w| && forall k | 0 <= k < |w| :: IsLetter(w[k])
    ensures Semicolon !in Tokens(w, i) && WordEnd(w, i) == |w|
    decreases |w| - i
  {
    if i < |w| {
      assert TokenEnd(w, i) == i + 1;
      LettersAreCode(w, i + 1);
    }
  }

  lemma LettersStart(w: string)
    requires forall k | 0 <= k < |w| :: IsLetter(w[k])
    ensures Significant(w, 0) == 0 && Significant(w, |w|) == |w|
  {
  }

  /** A lone word is accepted exactly when it is one of the five keywords. */
  lemma WordDecides(w: string)
    requires forall k | 0 <= k < |w| :: 'A' <= w[k] <= 'Z'
    ensures ReadOnly(w) <==> w == "SELECT" || w == "SHOW" || w == "DESCRIBE" || w == "DESC" || w == "EXPLAIN"
  {
    LettersAreCode(w, 0);
    LettersStart(w);
    assert Word(w, 0) == w by {
      assert w[0..|w|] == w && Upper(w) == w;
    }
    assert Word(w, Significant(w, WordEnd(w, 0))) == "";
  }

  /** The tokens cut the text into pieces without gap or overlap. */
  function Pieces(s: string, i: nat): (ps: seq<string>)
    requires i <= |s|
    ensures |ps| == |Tokens(s, i)|
    decreases |s| - i
  {
    if i == |s| then [] else [s[i..TokenEnd(s, i)]] + Pieces(s, TokenEnd(s, i))
  }

  lemma {:induction false} PiecesRejoin(s: string, i: nat)
    requires i <= |s|
    ensures Join(Pieces(s, i)) == s[i..]
    decreases |s| - i
  {
    if i < |s| {
      PiecesRejoin(s, TokenEnd(s, i));
      assert s[i..] == s[i..TokenEnd(s, i)] + s[TokenEnd(s, i)..];
    }
  }

  lemma {:induction false} JoinConcat(a: seq<string>, b: seq<string>)
    ensures Join(a + b) == Join(a) + Join(b)
  {
    if a == [] {
      assert a + b == b;
    } else {
      JoinConcat(a[1..], b);
      assert (a + b)[1..] == a[1..] + b;
    }
  }

  /** A piece that is nothing but a semicolon, a blank or a comment. */
  predicate IsFiller(p: string)
  {
    || p == ";" || (|p| == 1 && IsWhitespace(p[0]))
    || Pair(p, 0, '-', '-') || Pair(p, 0, '/', '*') || (p != "" && p[0] == '#')
  }

  lemma {:induction false} FillerIff(s: string, i: nat, k: nat)
    requires i <= |s| && k < |Tokens(s, i)|
    ensures Tokens(s, i)[k] == Semicolon <==> Pieces(s, i)[k] == ";"
    ensures Ignorable(Tokens(s, i)[k]) <==> IsFiller(Pieces(s, i)[k])
    decreases |s| - i
  {
    if k > 0 {
      FillerIff(s, TokenEnd(s, i), k - 1);
    } else {
      var p := Pieces(s, i)[0];
      assert p == s[i..TokenEnd(s, i)] && p[0] == s[i];
      assert |p| > 1 ==> p[1] == s[i + 1];
    }
  }

  function FirstSemicolon(ts: seq<Token>): (n: nat)
    ensures n <= |ts| && (forall k | 0 <= k < n :: ts[k] != Semicolon) && (n < |ts| ==> ts[n] == Semicolon)
  {
    if ts == [] || ts[0] == Semicolon then 0 else 1 + FirstSemicolon(ts[1..])
  }

  /**
   An accepted text is one statement and a tail: the statement's pieces hold no semicolon of their own, only ones inside
   quotes and comments, and the tail is made of semicolons, blanks and comments.
   */
  lemma AcceptedIsOneStatement(sql: string) returns (n: nat)
    requires ReadOnly(sql)
    ensures n <= |Pieces(sql, 0)| && sql == Join(Pieces(sql, 0)[..n]) + Join(Pieces(sql, 0)[n..])
    ensures forall k | 0 <= k < n :: Pieces(sql, 0)[k] != ";"
    ensures forall k | n <= k < |Pieces(sql, 0)| :: IsFiller(Pieces(sql, 0)[k])
  {
    var ts, ps := Tokens(sql, 0), Pieces(sql, 0);
    n := FirstSemicolon(ts);
    PiecesRejoin(sql, 0);
    assert ps[..n] + ps[n..] == ps && sql[0..] == sql;
    JoinConcat(ps[..n], ps[n..]);
    forall k | 0 <= k < |ps| ensures k < n ==> ps[k] != ";" ensures k >= n ==> IsFiller(ps[k]) {
      FillerIff(sql, 0, k);
      assert k > n ==> Ignorable(ts[k]);
    }
  }

  /** Up to `n` the pieces hold no semicolon of their own, from there on they are semicolons, blanks and comments. */
  ghost predicate OneStatement(ps: seq<string>, n: nat)
  {
    n <= |ps| && (forall k | 0 <= k < n :: ps[k] != ";") && (forall k | n <= k < |ps| :: IsFiller(ps[k]))
  }

  /** Being one statement is also enough: with a right keyword, no EXPLAIN ANALYZE, such a text is accepted. */
  lemma AcceptedIff(sql: string)
    ensures var first := Significant(sql, 0);
      var word, next := Word(sql, first), Word(sql, Significant(sql, WordEnd(sql, first)));
      ReadOnly(sql) <==>
        word in ReadOnlyKeywords && (word == "EXPLAIN" ==> next != "ANALYZE") &&
        exists n :: OneStatement(Pieces(sql, 0), n)
  {
    if ReadOnly(sql) {
      var n := AcceptedIsOneStatement(sql);
      assert OneStatement(Pieces(sql, 0), n);
    }
    var ts := Tokens(sql, 0);
    if n :| OneStatement(Pieces(sql, 0), n) {
      forall a, b | 0 <= a < b < |ts| && ts[a] == Semicolon ensures Ignorable(ts[b]) {
        FillerIff(sql, 0, a);
        FillerIff(sql, 0, b);
      }
    }
  }

  lemma {:induction false} CommentsShift(p: string, s: string, i: nat)
    ensures LineEnd(p + s, |p| + i) == |p| + LineEnd(s, i)
    ensures BlockEnd(p + s, |p| + i) == |p| + BlockEnd(s, i)
    decreases |s| - i
  {
    if i < |s| {
      CommentsShift(p, s, i + 1);
    }
  }

  lemma {:induction false} QuoteShifts(p: string, s: string, i: nat, q: char)
    ensures QuoteEnd(p + s, |p| + i, q) == |p| + QuoteEnd(s, i, q)
    decreases |s| - i
  {
    if i < |s| {
      QuoteShifts(p, s, i + 1, q);
      QuoteShifts(p, s, i + 2, q);
    }
  }

  lemma TokenShifts(p: string, s: string, i: nat)
    requires i < |s|
    ensures TokenAt(p + s, |p| + i) == TokenAt(s, i)
  {
  }

  lemma TokenEndShifts(p: string, s: string, i: nat)
    requires i < |s|
    ensures TokenEnd(p + s, |p| + i) == |p| + TokenEnd(s, i)
  {
    if IsQuote(s[i]) {
      QuoteShifts(p, s, i + 1, s[i]);
    } else {
      CommentsShift(p, s, i + 1);
      CommentsShift(p, s, i + 2);
    }
  }

  lemma {:induction false} TokensShift(p: string, s: string, i: nat)
    requires i <= |s|
    ensures Tokens(p + s, |p| + i) == Tokens(s, i)
    decreases |s| - i
  {
    if i < |s| {
      TokenShifts(p, s, i);
      TokenEndShifts(p, s, i);
      TokensShift(p, s, TokenEnd(s, i));
    }
  }

  lemma {:induction false} SignificantShifts(p: string, s: string, i: nat)
    requires i <= |s|
    ensures Significant(p + s, |p| + i) == |p| + Significant(s, i)
    decreases |s| - i
  {
    if i < |s| {
      TokenShifts(p, s, i);
      TokenEndShifts(p, s, i);
      SignificantShifts(p, s, TokenEnd(s, i));
    }
  }

  lemma {:induction false} WordShifts(p: string, s: string, i: nat)
    requires i <= |s|
    ensures WordEnd(p + s, |p| + i) == |p| + WordEnd(s, i) && Word(p + s, |p| + i) == Word(s, i)
    decreases |s| - i
  {
    if i < |s| && IsLetter(s[i]) {
      WordShifts(p, s, i + 1);
    }
    assert (p + s)[|p| + i..|p| + WordEnd(s, i)] == s[i..WordEnd(s, i)];
  }

  /** The first word behind the blanks and comments from `i` on, and where it ends. */
  function NextWord(s: string, i: nat): (r: (string, nat))
    requires i <= |s|
    ensures r.1 <= |s|
  {
    (Word(s, Significant(s, i)), WordEnd(s, Significant(s, i)))
  }

  lemma NextWordShifts(p: string, s: string, i: nat)
    requires i <= |s|
    ensures NextWord(p + s, |p| + i) == (NextWord(s, i).0, |p| + NextWord(s, i).1)
  {
    SignificantShifts(p, s, i);
    WordShifts(p, s, Significant(s, i));
  }

  /** `p` is the first token of the text and a blank or a comment. */
  predicate LeadsIn(p: string, s: string)
  {
    p != "" && TokenEnd(p + s, 0) == |p| && (TokenAt(p + s, 0) == Blank || TokenAt(p + s, 0) == Comment)
  }

  lemma FillerKeepsVerdict(p: string, s: string)
    requires LeadsIn(p, s)
    ensures NonTrailing(Tokens(p + s, 0)) <==> NonTrailing(Tokens(s, 0))
  {
    NonTrailingStep(p + s, 0);
    TokensShift(p, s, 0);
  }

  lemma FirstWordBehindFiller(p: string, s: string)
    requires LeadsIn(p, s)
    ensures NextWord(p + s, 0) == (NextWord(s, 0).0, |p| + NextWord(s, 0).1)
  {
    NextWordShifts(p, s, 0);
    assert Significant(p + s, 0) == Significant(p + s, |p| + 0);
  }

  lemma LeadingFiller(p: string, s: string)
    requires LeadsIn(p, s)
    ensures ReadOnly(p + s) <==> ReadOnly(s)
  {
    FillerKeepsVerdict(p, s);
    WordsBehindFiller(p, s);
    ReadsAlike(p + s, s);
  }

  lemma WordsBehindFiller(p: string, s: string)
    requires LeadsIn(p, s)
    ensures NextWord(p + s, 0).0 == NextWord(s, 0).0
    ensures NextWord(p + s, NextWord(p + s, 0).1).0 == NextWord(s, NextWord(s, 0).1).0
  {
    FirstWordBehindFiller(p, s);
    SecondWordShifts(p, s, NextWord(s, 0).0, NextWord(s, 0).1);
  }

  lemma SecondWordShifts(p: string, s: string, word: string, end: nat)
    requires NextWord(s, 0) == (word, end) && NextWord(p + s, 0) == (word, |p| + end)
    ensures NextWord(p + s, NextWord(p + s, 0).1).0 == NextWord(s, NextWord(s, 0).1).0
  {
    NextWordShifts(p, s, end);
  }

  /** Of a text only its first two words count, and whether a semicolon is not trailing. */
  lemma ReadsAlike(a: string, b: string)
    requires NextWord(a, 0).0 == NextWord(b, 0).0
    requires NextWord(a, NextWord(a, 0).1).0 == NextWord(b, NextWord(b, 0).1).0
    requires NonTrailing(Tokens(a, 0)) <==> NonTrailing(Tokens(b, 0))
    ensures ReadOnly(a) <==> ReadOnly(b)
  {
  }

  lemma LineCommentIgnored(mark: string, body: string, s: string)
    requires mark in {"--", "#"} && '\n' !in body && '\r' !in body
    ensures ReadOnly(mark + body + "\n" + s) <==> ReadOnly(s)
  {
    var p := mark + body;
    var t := p + ("\n" + s);
    assert t == mark + body + "\n" + s && t[|p|] == '\n';
    assert forall j | |mark| <= j < |p| :: t[j] in body;
    LineStops(t, |mark|);
    assert t[0] == mark[0] && t[|mark| - 1] == mark[|mark| - 1];
    LeadingFiller(p, "\n" + s);
    LeadingFiller("\n", s);
  }

  lemma BlockCommentIgnored(body: string, s: string)
    requires forall j | 0 <= j < |body| - 1 :: body[j] != '*' || body[j + 1] != '/'
    ensures ReadOnly("/*" + body + "*/" + s) <==> ReadOnly(s)
  {
    var p := "/*" + body + "*/";
    var t := p + s;
    assert t[0] == '/' && t[1] == '*' && t[|p| - 2] == '*' && t[|p| - 1] == '/';
    BlockStops(t, 2);
    assert forall k | 2 <= k < |p| :: t[k] == (body + "*/")[k - 2];
    LeadingFiller(p, s);
  }

  /** A comment or a blank in front makes no difference. */
  lemma LeadingIsIgnored(p: string, body: string, s: string)
    requires
      || p in {" ", "\n", "\r", "\t", "\U{000C}"}
      || (p in {"--" + body + "\n", "#" + body + "\n"} && '\n' !in body && '\r' !in body)
      || (p == "/*" + body + "*/" && forall j | 0 <= j < |body| - 1 :: body[j] != '*' || body[j + 1] != '/')
    ensures ReadOnly(p + s) <==> ReadOnly(s)
  {
    if |p| == 1 {
      LeadingFiller(p, s);
    } else if p == "/*" + body + "*/" {
      BlockCommentIgnored(body, s);
    } else {
      LineCommentIgnored(if p[0] == '#' then "#" else "--", body, s);
    }
  }
}
