/**
 What a well-formed call is, by a grammar of its own: nested terms with their quotes and brackets closed. The scans of
 `MysqlCompat`, which only count, are proved to find such a call and to take it apart as the grammar put it together.
 */
module CallTerms {
  import opened MysqlCompat
  import opened Wrappers
  import P = CompatPasses

  /** A text as it nests: plain characters, quoted texts and bracketed terms. */
  datatype Term =
    | End
    | Plain(c: char, rest: Term)
    | Quoted(q: char, body: string, rest: Term)
    | Group(square: bool, inner: Term, rest: Term)

  function Show(t: Term): string
  {
    match t
    case End => ""
    case Plain(c, rest) => [c] + Show(rest)
    case Quoted(q, body, rest) => [q] + body + [q] + Show(rest)
    case Group(square, inner, rest) => [Open(square)] + Show(inner) + [Close(square)] + Show(rest)
  }

  function Open(square: bool): char
  {
    if square then '[' else '('
  }

  function Close(square: bool): char
  {
    if square then ']' else ')'
  }

  /** Between quotes `q`, quotes of that kind come only after a backslash, and no backslash comes last. */
  predicate IsBody(q: char, body: string)
  {
    && (forall k | 0 <= k < |body| && body[k] == q :: k > 0 && body[k - 1] == '\\')
    && (body != "" ==> body[|body| - 1] != '\\')
  }

  predicate Quotes(c: char)
  {
    c == '\'' || c == '\"' || c == '`'
  }

  predicate IsPlain(c: char)
  {
    !Quotes(c) && c != '(' && c != ')' && c != '[' && c != ']'
  }

  predicate WellFormed(t: Term)
  {
    match t
    case End => true
    case Plain(c, rest) => IsPlain(c) && WellFormed(rest)
    case Quoted(q, body, rest) => Quotes(q) && IsBody(q, body) && WellFormed(rest)
    case Group(_, inner, rest) => WellFormed(inner) && WellFormed(rest)
  }

  /** An argument has commas only in its quotes and brackets. */
  predicate IsArgument(t: Term)
  {
    match t
    case End => true
    case Plain(c, rest) => c != ',' && IsArgument(rest)
    case Quoted(_, _, rest) => IsArgument(rest)
    case Group(_, _, rest) => IsArgument(rest)
  }

  predicate Occurs(s: string, i: nat, part: string)
  {
    i + |part| <= |s| && s[i..i + |part|] == part
  }

  lemma OccursApart(s: string, i: nat, a: string, b: string)
    requires Occurs(s, i, a + b)
    ensures Occurs(s, i, a) && Occurs(s, i + |a|, b)
  {
    assert s[i..i + |a|] == s[i..i + |a + b|][..|a|];
    assert s[i + |a|..i + |a| + |b|] == s[i..i + |a + b|][|a|..];
  }

  /**
   What a scan still finds from a position on with a nesting: not to change as it goes over a character means to find
   nothing there. The scan for commas counts brackets of both kinds and stops at a comma outside all of them, the one
   for the closing parenthesis counts parentheses and stops at the last of them.
   */
  type Finds<!T> = (nat, Nesting) -> T

  ghost predicate GoesOver<T>(s: string, f: Finds<T>, commas: bool, i: nat, n: Nesting)
    requires i < |s|
  {
    !Stops(s[i], n, commas) ==> f(i, n) == f(i + 1, Next(s[i], if i > 0 then s[i - 1] else ' ', n, commas))
  }

  ghost predicate GoesOn<T>(s: string, f: Finds<T>, commas: bool, from: nat)
  {
    forall i: nat, n | from <= i < |s| :: GoesOver(s, f, commas, i, n)
  }

  predicate Stops(c: char, n: Nesting, commas: bool)
  {
    n.quote.None? && if commas then c == ',' && n.depth == 0 else c == ')' && n.depth == 1
  }

  function Next(c: char, before: char, n: Nesting, commas: bool): Nesting
  {
    if n.quote.Some? then
      if c == n.quote.value && before != '\\' then n.(quote := None) else n
    else if Quotes(c) then n.(quote := Some(c))
    else if c == '(' || (commas && c == '[') then n.(depth := n.depth + 1)
    else if c == ')' || (commas && c == ']') then n.(depth := n.depth - 1)
    else n
  }

  /** Inside quotes a scan comes to the quote that closes them. */
  lemma {:induction false} BodySkipped<T>(s: string, f: Finds<T>, commas: bool, from: nat, i: nat, j: nat, n: Nesting)
    requires from <= i && GoesOn(s, f, commas, from)
    requires 0 < i <= j < |s| && n.quote.Some? && s[j] == n.quote.value && s[j - 1] != '\\'
    requires forall k | i <= k < j && s[k] == s[j] :: s[k - 1] == '\\'
    ensures f(i, n) == f(j + 1, n.(quote := None))
    decreases j - i
  {
    assert GoesOver(s, f, commas, i, n);
    if i < j {
      BodySkipped(s, f, commas, from, i + 1, j, n);
    }
  }

  function Length(t: Term): nat
  {
    match t
    case End => 0
    case Plain(_, rest) => 1 + Length(rest)
    case Quoted(_, body, rest) => |body| + 2 + Length(rest)
    case Group(_, inner, rest) => Length(inner) + 2 + Length(rest)
  }

  predicate QuotedStands(s: string, i: nat, q: char, body: string)
  {
    && i + |body| + 1 < |s| && s[i] == q && s[i + |body| + 1] == q
    && forall k | 0 <= k < |body| :: s[i + 1 + k] == body[k]
  }

  /** The term's characters stand at `i`, one after the other. */
  predicate Stands(s: string, i: nat, t: Term)
    decreases t
  {
    match t
    case End => i <= |s|
    case Plain(c, rest) => i < |s| && s[i] == c && Stands(s, i + 1, rest)
    case Quoted(q, body, rest) => QuotedStands(s, i, q, body) && Stands(s, i + |body| + 2, rest)
    case Group(square, inner, rest) =>
      var j := i + 1 + Length(inner);
      && j < |s| && s[i] == Open(square) && s[j] == Close(square)
      && Stands(s, i + 1, inner) && Stands(s, j + 1, rest)
  }

  lemma {:induction false} ShowLength(t: Term)
    ensures |Show(t)| == Length(t)
  {
    match t
    case End =>
    case Plain(_, rest) => ShowLength(rest);
    case Quoted(_, _, rest) => ShowLength(rest);
    case Group(_, inner, rest) =>
      ShowLength(inner);
      ShowLength(rest);
  }

  lemma {:induction false} OccursStands(s: string, i: nat, t: Term)
    requires Occurs(s, i, Show(t))
    ensures Stands(s, i, t)
    decreases t, 1
  {
    match t
    case End =>
    case Plain(c, rest) => PlainStands(s, i, c, rest);
    case Quoted(q, body, rest) => QuotedTermStands(s, i, q, body, rest);
    case Group(square, inner, rest) => GroupStands(s, i, square, inner, rest);
  }

  lemma {:induction false} PlainStands(s: string, i: nat, c: char, rest: Term)
    requires Occurs(s, i, Show(Plain(c, rest)))
    ensures Stands(s, i, Plain(c, rest))
    decreases Plain(c, rest), 0
  {
    PlainOccurs(s, i, c, rest);
    OccursStands(s, i + 1, rest);
  }

  lemma {:induction false} QuotedTermStands(s: string, i: nat, q: char, body: string, rest: Term)
    requires Occurs(s, i, Show(Quoted(q, body, rest)))
    ensures Stands(s, i, Quoted(q, body, rest))
    decreases Quoted(q, body, rest), 0
  {
    QuotedOccurs(s, i, q, body, rest);
    OccursStands(s, i + |body| + 2, rest);
  }

  lemma {:induction false} GroupStands(s: string, i: nat, square: bool, inner: Term, rest: Term)
    requires Occurs(s, i, Show(Group(square, inner, rest)))
    ensures Stands(s, i, Group(square, inner, rest))
    decreases Group(square, inner, rest), 0
  {
    GroupOccurs(s, i, square, inner, rest);
    OccursStands(s, i + 1, inner);
    OccursStands(s, i + Length(inner) + 2, rest);
  }

  lemma QuotedSkipped<T>(s: string, f: Finds<T>, commas: bool, from: nat, i: nat, q: char, body: string, depth: nat)
    requires from <= i && GoesOn(s, f, commas, from) && QuotedStands(s, i, q, body) && Quotes(q) && IsBody(q, body)
    ensures f(i, Nesting(depth, None)) == f(i + |body| + 2, Nesting(depth, None))
  {
    var j := i + |body| + 1;
    forall k | i + 1 <= k < j && s[k] == s[j] ensures s[k - 1] == '\\' {
      var x := k - i - 1;
      assert s[i + 1 + x] == body[x] && s[i + 1 + (x - 1)] == body[x - 1];
    }
    assert GoesOver(s, f, commas, i, Nesting(depth, None));
    BodySkipped(s, f, commas, from, i + 1, j, Nesting(depth, Some(q)));
  }

  lemma QuotedOccurs(s: string, i: nat, q: char, body: string, rest: Term)
    requires Occurs(s, i, Show(Quoted(q, body, rest)))
    ensures QuotedStands(s, i, q, body) && Occurs(s, i + |body| + 2, Show(rest))
  {
    var text := [q] + body + [q];
    OccursApart(s, i, text, Show(rest));
    assert s[i..i + |text|] == text;
    forall k | i <= k < i + |text| ensures s[k] == text[k - i] {
      assert s[i..i + |text|][k - i] == s[k];
    }
    assert text[0] == q && text[|body| + 1] == q;
    assert forall k | 0 <= k < |body| :: body[k] == text[1 + k];
  }

  lemma BracketedOccurs(s: string, i: nat, open: char, inner: string, close: char, rest: string)
    requires Occurs(s, i, [open] + inner + [close] + rest)
    ensures var j := i + 1 + |inner|;
      Occurs(s, i + 1, inner) && Occurs(s, j + 1, rest) && s[i] == open && s[j] == close
  {
    OccursApart(s, i, [open] + inner + [close], rest);
    OccursApart(s, i, [open] + inner, [close]);
    OccursApart(s, i, [open], inner);
    var j := i + 1 + |inner|;
    assert s[i] == s[i..i + 1][0] && s[j] == s[j..j + 1][0];
  }

  lemma GroupOccurs(s: string, i: nat, square: bool, inner: Term, rest: Term)
    requires Occurs(s, i, Show(Group(square, inner, rest)))
    ensures var j := i + 1 + Length(inner);
      && Occurs(s, i + 1, Show(inner)) && Occurs(s, j + 1, Show(rest))
      && s[i] == Open(square) && s[j] == Close(square)
  {
    ShowLength(inner);
    BracketedOccurs(s, i, Open(square), Show(inner), Close(square), Show(rest));
  }

  lemma PlainOccurs(s: string, i: nat, c: char, rest: Term)
    requires Occurs(s, i, Show(Plain(c, rest)))
    ensures s[i] == c && Occurs(s, i + 1, Show(rest))
  {
    OccursApart(s, i, [c], Show(rest));
    assert s[i] == s[i..i + 1][0];
  }

  lemma PlainSkipped<T>(s: string, f: Finds<T>, commas: bool, from: nat, i: nat, depth: nat)
    requires from <= i < |s| && GoesOn(s, f, commas, from) && IsPlain(s[i]) && (depth > 0 || s[i] != ',')
    ensures f(i, Nesting(depth, None)) == f(i + 1, Nesting(depth, None))
  {
    assert GoesOver(s, f, commas, i, Nesting(depth, None));
  }

  lemma BracketsSkipped<T>(s: string, f: Finds<T>, commas: bool, from: nat, i: nat, j: nat, square: bool, depth: nat)
    requires from <= i < j < |s| && GoesOn(s, f, commas, from) && (depth > 0 || commas)
    requires s[i] == Open(square) && s[j] == Close(square)
    requires var deeper := Nesting(Deeper(depth, square, commas), None); f(i + 1, deeper) == f(j, deeper)
    ensures f(i, Nesting(depth, None)) == f(j + 1, Nesting(depth, None))
  {
    assert GoesOver(s, f, commas, i, Nesting(depth, None));
    assert GoesOver(s, f, commas, j, Nesting(Deeper(depth, square, commas), None));
  }

  /**
   A scan goes over a term and finds nothing: that for commas inside brackets, or over one that has no comma of its own,
   and that for the closing parenthesis inside one.
   */
  lemma {:induction false} TermSkipped<T>(s: string, f: Finds<T>, commas: bool, from: nat, i: nat, t: Term, depth: nat)
    requires from <= i && GoesOn(s, f, commas, from) && Stands(s, i, t) && WellFormed(t)
    requires depth > 0 || (commas && IsArgument(t))
    ensures f(i, Nesting(depth, None)) == f(i + Length(t), Nesting(depth, None))
    decreases t
  {
    match t
    case End =>
    case Plain(c, rest) =>
      PlainSkipped(s, f, commas, from, i, depth);
      TermSkipped(s, f, commas, from, i + 1, rest, depth);
    case Quoted(q, body, rest) =>
      QuotedSkipped(s, f, commas, from, i, q, body, depth);
      TermSkipped(s, f, commas, from, i + |body| + 2, rest, depth);
    case Group(square, inner, rest) =>
      var j := i + 1 + Length(inner);
      TermSkipped(s, f, commas, from, i + 1, inner, Deeper(depth, square, commas));
      BracketsSkipped(s, f, commas, from, i, j, square, depth);
      TermSkipped(s, f, commas, from, j + 1, rest, depth);
  }

  /** How deep a scan is inside a bracket. */
  function Deeper(depth: nat, square: bool, commas: bool): nat
  {
    if square && !commas then depth else depth + 1
  }

  /** The two scans go on like that. */
  lemma SegmentsGoOn(s: string, start: nat) returns (f: Finds<seq<string>>)
    ensures GoesOn(s, f, true, start)
    ensures forall i: nat, n {:trigger Segments(s, i, start, n)} | start <= i <= |s| ::
              f(i, n) == Segments(s, i, start, n)
  {
    f := (i: nat, n) => if start <= i <= |s| then Segments(s, i, start, n) else [];
  }

  lemma CloseGoesOn(s: string) returns (f: Finds<Option<nat>>)
    ensures GoesOn(s, f, false, 0)
    ensures forall i: nat, n {:trigger CloseOf(s, i, n)} | i <= |s| :: f(i, n) == CloseOf(s, i, n)
  {
    f := (i: nat, n) => if i <= |s| then CloseOf(s, i, n) else None;
  }

  // ------------------------------------------------------------------ arguments

  function Shown(args: seq<Term>): (texts: seq<string>)
    ensures |texts| == |args|
  {
    seq(|args|, i requires 0 <= i < |args| => Show(args[i]))
  }

  ghost predicate AreArguments(args: seq<Term>)
  {
    args != [] && forall t | t in args :: WellFormed(t) && IsArgument(t)
  }

  lemma ArgumentOccurs(s: string, i: nat, args: seq<Term>)
    requires args != [] && Occurs(s, i, JoinWith(Shown(args), ","))
    ensures Occurs(s, i, Show(args[0]))
    ensures |args| > 1 ==>
              var j := i + |Show(args[0])|;
              Occurs(s, j + 1, JoinWith(Shown(args[1..]), ",")) && s[j] == ','
  {
    if |args| > 1 {
      var first, rest := Show(args[0]), JoinWith(Shown(args[1..]), ",");
      assert Shown(args)[1..] == Shown(args[1..]);
      OccursApart(s, i, first + ",", rest);
      OccursApart(s, i, first, ",");
      var j := i + |first|;
      assert s[j] == s[j..j + 1][0];
    }
  }

  lemma FirstArgumentSkipped(s: string, i: nat, t: Term)
    requires Occurs(s, i, Show(t)) && WellFormed(t) && IsArgument(t)
    ensures Segments(s, i, i, Outside) == Segments(s, i + |Show(t)|, i, Outside)
  {
    var f := SegmentsGoOn(s, i);
    OccursStands(s, i, t);
    ShowLength(t);
    TermSkipped(s, f, true, i, i, t, 0);
  }

  lemma ArgumentNotClosed(s: string, i: nat, t: Term)
    requires Occurs(s, i, Show(t)) && WellFormed(t)
    ensures CloseOf(s, i, Nesting(1, None)) == CloseOf(s, i + |Show(t)|, Nesting(1, None))
  {
    var f := CloseGoesOn(s);
    OccursStands(s, i, t);
    ShowLength(t);
    TermSkipped(s, f, false, 0, i, t, 1);
  }

  /** Splitting undoes joining: arguments written one after the other with commas come apart as they were. */
  lemma {:induction false} ArgumentsComeApart(s: string, i: nat, args: seq<Term>)
    requires AreArguments(args) && Occurs(s, i, JoinWith(Shown(args), ",")) &&
             i + |JoinWith(Shown(args), ",")| == |s|
    ensures Segments(s, i, i, Outside) == Shown(args)
    decreases |args|
  {
    assert args[0] in args;
    ArgumentOccurs(s, i, args);
    FirstArgumentSkipped(s, i, args[0]);
    var j := i + |Show(args[0])|;
    if |args| > 1 {
      assert Shown(args)[1..] == Shown(args[1..]);
      ArgumentsComeApart(s, j + 1, args[1..]);
      assert Segments(s, j, i, Outside) == [s[i..j]] + Segments(s, j + 1, j + 1, Outside);
      assert [Show(args[0])] + Shown(args[1..]) == Shown(args);
    } else {
      LastArgument(s, i, args);
    }
  }

  lemma LastArgument(s: string, i: nat, args: seq<Term>)
    requires |args| == 1 && Occurs(s, i, JoinWith(Shown(args), ",")) && i + |JoinWith(Shown(args), ",")| == |s|
    ensures i + |Show(args[0])| == |s| && Segments(s, |s|, i, Outside) == Shown(args)
  {
    var list := JoinWith(Shown(args), ",");
    assert Shown(args) == [Show(args[0])];
    assert s[i..] == s[i..i + |list|] == list;
  }

  lemma {:induction false} ArgumentsNotClosed(s: string, i: nat, args: seq<Term>)
    requires AreArguments(args) && Occurs(s, i, JoinWith(Shown(args), ","))
    ensures var n := Nesting(1, None); CloseOf(s, i, n) == CloseOf(s, i + |JoinWith(Shown(args), ",")|, n)
    decreases |args|
  {
    assert args[0] in args;
    ArgumentOccurs(s, i, args);
    ArgumentNotClosed(s, i, args[0]);
    if |args| > 1 {
      var j := i + |Show(args[0])|;
      assert Shown(args)[1..] == Shown(args[1..]);
      assert CloseOf(s, j, Nesting(1, None)) == CloseOf(s, j + 1, Nesting(1, None));
      ArgumentsNotClosed(s, j + 1, args[1..]);
    }
  }

  // ----------------------------------------------------------------------- calls

  lemma {:induction false} SpacesSkipped(s: string, i: nat, j: nat)
    requires i <= j < |s| && AllSpace(s[i..j]) && !IsSpace(s[j])
    ensures SkipSpace(s, i) == j
    decreases j - i
  {
    if i < j {
      assert s[i..j][0] == s[i] && s[i..j][1..] == s[i + 1..j];
      SpacesSkipped(s, i + 1, j);
    }
  }

  /** The text of a call: a name in any case, white space, and arguments in parentheses. */
  function Written(name: string, spaces: string, args: seq<Term>): string
    requires args != []
  {
    name + spaces + "(" + JoinWith(Shown(args), ",") + ")"
  }

  /** Where the parts of a call stand. */
  lemma CallOccurs(s: string, m: nat, word: string, spaces: string, args: seq<Term>)
    requires args != [] && Occurs(s, m, Written(word, spaces, args))
    ensures var list, o := JoinWith(Shown(args), ","), m + |word| + |spaces|;
      && Occurs(s, m, word) && Occurs(s, m + |word|, spaces) && Occurs(s, o + 1, list)
      && o + 1 + |list| < |s| && s[o] == '(' && s[o + 1 + |list|] == ')'
  {
    var list, o := JoinWith(Shown(args), ","), m + |word| + |spaces|;
    OccursApart(s, m, word + spaces + "(" + list, ")");
    OccursApart(s, m, word + spaces + "(", list);
    OccursApart(s, m, word + spaces, "(");
    OccursApart(s, m, word, spaces);
    assert s[o] == s[o..o + 1][0] && s[o + 1 + |list|] == s[o + 1 + |list|..o + 2 + |list|][0];
  }

  /** The same letters, whatever their case. */
  ghost predicate SameName(word: string, name: string)
  {
    |word| == |name| && forall k | 0 <= k < |name| :: Lower(word[k]) == Lower(name[k])
  }

  lemma NameOccurs(s: string, m: nat, name: string, word: string)
    requires Occurs(s, m, word) && SameName(word, name)
    ensures NameAt(s, m, name)
  {
    assert forall k | 0 <= k < |name| :: s[m + k] == s[m..m + |name|][k] == word[k];
  }

  lemma CallCloses(s: string, o: nat, args: seq<Term>)
    requires AreArguments(args) && o < |s| && s[o] == '(' && Occurs(s, o + 1, JoinWith(Shown(args), ","))
    requires var c := o + 1 + |JoinWith(Shown(args), ",")|; c < |s| && s[c] == ')'
    ensures CloseOf(s, o, Outside) == Some(o + 1 + |JoinWith(Shown(args), ",")|)
  {
    ArgumentsNotClosed(s, o + 1, args);
    assert CloseOf(s, o, Outside) == CloseOf(s, o + 1, Nesting(1, None));
  }

  predicate IsLetterOrDigit(c: char)
  {
    'a' <= c <= 'z' || 'A' <= c <= 'Z' || '0' <= c <= '9'
  }

  /** No quote, dot or part of a word stands right before. */
  predicate Unattached(s: string, m: nat)
    requires m <= |s|
  {
    m == 0 || !(Quotes(s[m - 1]) || s[m - 1] == '.' || s[m - 1] == '_' || IsLetterOrDigit(s[m - 1]))
  }

  /**
   A well-formed call is found from its name to its closing parenthesis, unless a quote, a dot or part of a word stands
   right before it.
   */
  lemma CallIsFound(s: string, m: nat, name: string, word: string, spaces: string, args: seq<Term>)
    requires AreArguments(args) && AllSpace(spaces) && Occurs(s, m, Written(word, spaces, args)) && SameName(word, name)
    ensures CallAt(s, m, name) <==> Unattached(s, m)
    ensures CallAt(s, m, name) ==>
              var o := m + |name| + |spaces|;
              SpanAt(s, m, name) == Some(Span(m, o, o + 1 + |JoinWith(Shown(args), ",")|))
  {
    var o := m + |name| + |spaces|;
    CallOccurs(s, m, word, spaces, args);
    NameOccurs(s, m, name, word);
    SpacesSkipped(s, m + |name|, o);
    CallCloses(s, o, args);
  }

  /** And taken apart into its arguments, trimmed, without the last one when it is blank. */
  lemma CallIsRead(s: string, m: nat, name: string, word: string, spaces: string, args: seq<Term>)
    requires AreArguments(args) && AllSpace(spaces) && Occurs(s, m, Written(word, spaces, args)) && SameName(word, name)
    requires CallAt(s, m, name)
    ensures SpanAt(s, m, name).Some?
    ensures AreRead(SpanArguments(s, SpanAt(s, m, name).value), args)
  {
    var list, o := JoinWith(Shown(args), ","), m + |name| + |spaces|;
    var span := Span(m, o, o + 1 + |list|);
    assert SpanAt(s, m, name) == Some(span) by {
      CallIsFound(s, m, name, word, spaces, args);
    }
    assert span.close < |s| && s[span.open + 1..span.close] == list by {
      CallOccurs(s, m, word, spaces, args);
    }
    assert SpanArguments(s, span) == Arguments(Segments(list, 0, 0, Outside));
    ArgumentsAre(list, args);
  }

  ghost predicate AreRead(read: seq<string>, args: seq<Term>)
    requires args != []
  {
    && |read| == |args| - (if Trim(Show(args[|args| - 1])) == "" then 1 else 0)
    && forall k | 0 <= k < |read| :: read[k] == Trim(Show(args[k]))
  }

  lemma ArgumentsAre(text: string, args: seq<Term>)
    requires AreArguments(args) && text == JoinWith(Shown(args), ",")
    ensures AreRead(Arguments(Segments(text, 0, 0, Outside)), args)
  {
    assert text[0..0 + |text|] == text;
    ArgumentsComeApart(text, 0, args);
    ArgumentsTrim(Shown(args));
  }

  lemma ArgumentsTrim(segments: seq<string>)
    requires segments != []
    ensures var read, last := Arguments(segments), Trim(segments[|segments| - 1]);
      && |read| == |segments| - (if last == "" then 1 else 0)
      && forall k | 0 <= k < |read| :: read[k] == Trim(segments[k])
  {
  }

  // ----------------------------------------------------------------------- words

  /** The word stands at `m`, and white space behind it up to `e`. */
  ghost predicate StandsUpTo(s: string, m: nat, word: string, e: nat)
  {
    Occurs(s, m, word) && m + |word| <= e <= |s| && AllSpace(s[m + |word|..e]) && (e < |s| ==> !IsSpace(s[e]))
  }

  lemma SpaceBehind(s: string, m: nat, word: string, e: nat)
    requires StandsUpTo(s, m, word, e)
    ensures SkipSpace(s, m + |word|) == e && (m + |word| < e ==> IsSpace(s[m + |word|]))
  {
    var i := m + |word|;
    assert i < e ==> s[i..e][0] == s[i];
    if e < |s| {
      SpacesSkipped(s, i, e);
    } else {
      assert s[i..] == s[i..e];
      SpacesReachEnd(s, i);
    }
  }

  lemma {:induction false} SpacesReachEnd(s: string, i: nat)
    requires i <= |s| && AllSpace(s[i..])
    ensures SkipSpace(s, i) == |s|
    decreases |s| - i
  {
    if i < |s| {
      assert s[i..][0] == s[i] && s[i..][1..] == s[i + 1..];
      SpacesReachEnd(s, i + 1);
    }
  }

  /** A bare word is one, in any case, that is no part of a longer one, and not called. */
  lemma BareIsFound(s: string, m: nat, k: P.Keyword, word: string, e: nat)
    requires k.Bare? && SameName(word, k.word) && StandsUpTo(s, m, word, e)
    ensures P.WordEnd(k, s, m) ==
            if Unattached(s, m) && (e < |s| ==> s[e] != '(') &&
               (e == m + |word| < |s| ==> s[e] != '_' && !IsLetterOrDigit(s[e]))
            then Some(m + |word|) else None
  {
    SpaceBehind(s, m, word, e);
    NameOccurs(s, m, k.word, word);
  }

  /** A called word is one, in any case, that does not end a longer one, up to the parenthesis behind it. */
  lemma CalledIsFound(s: string, m: nat, k: P.Keyword, word: string, e: nat)
    requires k.Called? && SameName(word, k.word) && StandsUpTo(s, m, word, e)
    ensures P.WordEnd(k, s, m) == if Unattached(s, m) && e < |s| && s[e] == '(' then Some(e + 1) else None
  {
    SpaceBehind(s, m, word, e);
    NameOccurs(s, m, k.word, word);
  }

  lemma WordStep(k: P.Keyword, s: string, i: nat)
    requires i < |s| && P.WordEnd(k, s, i).None?
    ensures P.ReplaceWords(k, s, i).0 == [s[i]] + P.ReplaceWords(k, s, i + 1).0
    ensures P.ReplaceWords(k, s, i).1 == P.ReplaceWords(k, s, i + 1).1
  {
  }

  lemma {:induction false} WordsSkipped(k: P.Keyword, s: string, i: nat, j: nat, done: string)
    requires i <= j < |s| && forall x | i <= x < j :: P.WordEnd(k, s, x).None?
    requires P.ReplaceWords(k, s, j) == (done, true)
    ensures P.ReplaceWords(k, s, i) == (s[i..j] + done, true)
    decreases j - i
  {
    if i < j {
      WordsSkipped(k, s, i + 1, j, done);
      WordStep(k, s, i);
      assert [s[i]] + (s[i + 1..j] + done) == s[i..j] + done;
    } else {
      assert s[i..j] + done == done;
    }
  }

  /** The text up to the first word found stays, the word is replaced, and the pass goes on behind it. */
  lemma FirstWordReplaced(k: P.Keyword, s: string, i: nat, j: nat)
    requires i <= j < |s| && P.WordEnd(k, s, j).Some? && forall x | i <= x < j :: P.WordEnd(k, s, x).None?
    ensures var rest := P.ReplaceWords(k, s, P.WordEnd(k, s, j).value).0;
            P.ReplaceWords(k, s, i) == (s[i..j] + (k.replacement + rest), true)
  {
    WordsSkipped(k, s, i, j, k.replacement + P.ReplaceWords(k, s, P.WordEnd(k, s, j).value).0);
  }

  /** Without one nothing changes. */
  lemma {:induction false} NoWordReplaced(k: P.Keyword, s: string, i: nat)
    requires i <= |s| && forall x | i <= x < |s| :: P.WordEnd(k, s, x).None?
    ensures P.ReplaceWords(k, s, i) == (s[i..], false)
    decreases |s| - i
  {
    if i < |s| {
      NoWordReplaced(k, s, i + 1);
      WordStep(k, s, i);
    }
  }
}
