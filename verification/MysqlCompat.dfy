/** Rewriting of MySQL function calls: argument splitting, nesting-aware call replacement, and the whole pass. */
module MysqlCompat {
  import opened Wrappers
  import opened LiteralMask

  /** White space as `\s` and `trim` know it. */
  predicate IsSpace(c: char)
  {
    || c == ' ' || '\t' <= c <= '\r' || c == '\U{00A0}' || c == '\U{1680}' || '\U{2000}' <= c <= '\U{200A}'
    || c == '\U{2028}' || c == '\U{2029}' || c == '\U{202F}' || c == '\U{205F}' || c == '\U{3000}' || c == '\U{FEFF}'
  }

  predicate IsQuote(c: char)
  {
    c == '\'' || c == '\"' || c == '`'
  }

  // ------------------------------------------------------------ splitting arguments

  /** How deep in brackets the scan is, and inside which quotes. */
  datatype Nesting = Nesting(depth: int, quote: Option<char>)

  /** The nesting after the character at `i`; a backslash before a closing quote keeps the quote open. */
  function Enter(s: string, i: nat, n: Nesting): Nesting
    requires i < |s|
  {
    var c := s[i];
    if n.quote.Some? then
      if c == n.quote.value && (i == 0 || s[i - 1] != '\\') then n.(quote := None) else n
    else if IsQuote(c) then n.(quote := Some(c))
    else if c == '(' || c == '[' then n.(depth := n.depth + 1)
    else if c == ')' || c == ']' then n.(depth := n.depth - 1)
    else n
  }

  predicate Cuts(s: string, i: nat, n: Nesting)
    requires i < |s|
  {
    n.quote.None? && s[i] == ',' && n.depth == 0
  }

  /** The text from `start` on, cut at its top-level commas; the scan has reached `i` with nesting `n`. */
  function Segments(s: string, i: nat, start: nat, n: Nesting): (segments: seq<string>)
    requires start <= i <= |s|
    ensures segments != []
    decreases |s| - i
  {
    if i == |s| then [s[start..]]
    else if Cuts(s, i, n) then [s[start..i]] + Segments(s, i + 1, i + 1, n)
    else Segments(s, i + 1, start, Enter(s, i, n))
  }

  const Outside := Nesting(0, None)

  function Trim(s: string): (t: string)
    ensures |t| <= |s|
    decreases |s|
  {
    if s != "" && IsSpace(s[0]) then Trim(s[1..])
    else if s != "" && IsSpace(s[|s| - 1]) then Trim(s[..|s| - 1])
    else s
  }

  predicate AllSpace(s: string)
  {
    forall c | c in s :: IsSpace(c)
  }

  lemma Regroup(a: string, b: string, c: string, d: string)
    ensures (a + b + c) + d == a + (b + c + d)
  {
  }

  /** Trimming takes white space off both ends, all of it and nothing else. */
  lemma {:induction false} TrimIs(s: string) returns (left: string, right: string)
    ensures s == left + Trim(s) + right && AllSpace(left) && AllSpace(right)
    ensures var t := Trim(s); t != "" ==> !IsSpace(t[0]) && !IsSpace(t[|t| - 1])
    decreases |s|
  {
    left, right := "", "";
    if s != "" && IsSpace(s[0]) {
      var rest;
      rest, right := TrimIs(s[1..]);
      left := [s[0]] + rest;
      Regroup([s[0]], rest, Trim(s), right);
    } else if s != "" && IsSpace(s[|s| - 1]) {
      var rest, last := "", [s[|s| - 1]];
      left, rest := TrimIs(s[..|s| - 1]);
      right := rest + last;
      assert s == left + Trim(s) + rest + last == left + Trim(s) + right;
    } else {
      assert s == "" + s + "";
    }
  }

  function TrimAll(segments: seq<string>): (args: seq<string>)
    ensures |args| == |segments|
  {
    seq(|segments|, i requires 0 <= i < |segments| => Trim(segments[i]))
  }

  /** The arguments: the segments trimmed, without the last one when nothing is left of it. */
  function Arguments(segments: seq<string>): seq<string>
    requires segments != []
  {
    var last := Trim(segments[|segments| - 1]);
    TrimAll(segments[..|segments| - 1]) + if last == "" then [] else [last]
  }

  function JoinWith(segments: seq<string>, separator: string): string
    requires segments != []
  {
    if |segments| == 1 then segments[0] else segments[0] + separator + JoinWith(segments[1..], separator)
  }

  /** Cutting loses nothing: the segments joined with commas are the text. */
  lemma {:induction false} SegmentsRejoin(s: string, i: nat, start: nat, n: Nesting)
    requires start <= i <= |s|
    ensures JoinWith(Segments(s, i, start, n), ",") == s[start..]
    decreases |s| - i
  {
    if i < |s| {
      if Cuts(s, i, n) {
        SegmentsRejoin(s, i + 1, i + 1, n);
        var rest := Segments(s, i + 1, i + 1, n);
        assert ([s[start..i]] + rest)[1..] == rest;
        assert s[start..] == s[start..i] + "," + s[i + 1..];
      } else {
        SegmentsRejoin(s, i + 1, start, Enter(s, i, n));
      }
    }
  }

  /** Cutting is complete: no segment can be cut again. */
  lemma {:induction false} SegmentsAreWhole(s: string, i: nat, start: nat, n: Nesting)
    requires start <= i <= |s| && (n.quote.Some? ==> start < i)
    ensures forall seg | seg in Segments(s, i, start, n)[1..] :: Segments(seg, 0, 0, Outside) == [seg]
    ensures var seg := Segments(s, i, start, n)[0]; |seg| >= i - start && Segments(seg, i - start, 0, n) == [seg]
    decreases |s| - i
  {
    if i < |s| {
      if Cuts(s, i, n) {
        SegmentsAreWhole(s, i + 1, i + 1, n);
        var rest := Segments(s, i + 1, i + 1, n);
        assert ([s[start..i]] + rest)[1..] == rest;
        assert rest == [rest[0]] + rest[1..];
      } else {
        SegmentsAreWhole(s, i + 1, start, Enter(s, i, n));
        var seg := Segments(s, i + 1, start, Enter(s, i, n))[0];
        SegmentIsPrefix(s, i + 1, start, Enter(s, i, n));
        assert seg[i - start] == s[i];
      }
    }
  }

  lemma {:induction false} SegmentIsPrefix(s: string, i: nat, start: nat, n: Nesting)
    requires start <= i <= |s|
    ensures var seg := Segments(s, i, start, n)[0]; i - start <= |seg| <= |s| - start && seg == s[start..start + |seg|]
    decreases |s| - i
  {
    if i < |s| && !Cuts(s, i, n) {
      SegmentIsPrefix(s, i + 1, start, Enter(s, i, n));
    }
  }

  method SplitArgs(argText: string) returns (args: seq<string>)
    ensures args == Arguments(Segments(argText, 0, 0, Outside))
  {
    args := [];
    var depth, quote: Option<char>, current := 0, None, "";
    var i := 0;
    ghost var start, done := 0, [];
    while i < |argText|
      invariant start <= i <= |argText| && current == argText[start..i]
      invariant Segments(argText, 0, 0, Outside) == done + Segments(argText, i, start, Nesting(depth, quote))
      invariant args == TrimAll(done)
    {
      var ch := argText[i];
      if quote.Some? {
        current := current + [ch];
        if ch == quote.value && (i == 0 || argText[i - 1] != '\\') {
          quote := None;
        }
      } else if ch == '\'' || ch == '\"' || ch == '`' {
        quote := Some(ch);
        current := current + [ch];
      } else if ch == ',' && depth == 0 {
        args := args + [Trim(current)];
        done := done + [current];
        current, start := "", i + 1;
      } else {
        if ch == '(' || ch == '[' {
          depth := depth + 1;
        }
        if ch == ')' || ch == ']' {
          depth := depth - 1;
        }
        current := current + [ch];
      }
      i := i + 1;
    }
    assert argText[start..] == current;
    assert (done + [current])[..|done|] == done;
    if Trim(current) != "" {
      args := args + [Trim(current)];
    }
  }

  // ---------------------------------------------------------- rewriting calls

  predicate IsWordChar(c: char)
  {
    'a' <= c <= 'z' || 'A' <= c <= 'Z' || '0' <= c <= '9' || c == '_'
  }

  function Lower(c: char): char
  {
    if 'A' <= c <= 'Z' then c - 'A' + 'a' else c
  }

  /** The look-behind: a call does not start after a quote, a dot or a word character. */
  predicate MayStart(s: string, i: nat)
    requires i <= |s|
  {
    i == 0 || !(IsQuote(s[i - 1]) || s[i - 1] == '.' || IsWordChar(s[i - 1]))
  }

  function SkipSpace(s: string, i: nat): (j: nat)
    requires i <= |s|
    ensures i <= j <= |s| && (j < |s| ==> !IsSpace(s[j]))
    decreases |s| - i
  {
    if i < |s| && IsSpace(s[i]) then SkipSpace(s, i + 1) else i
  }

  predicate NameAt(s: string, i: nat, name: string)
  {
    i + |name| <= |s| && forall j | 0 <= j < |name| :: Lower(s[i + j]) == Lower(name[j])
  }

  /** A call of `name` starts at `i`: not preceded by part of a word, case ignored, then a parenthesis. */
  predicate CallAt(s: string, i: nat, name: string)
  {
    NameAt(s, i, name) && MayStart(s, i) && SkipSpace(s, i + |name|) < |s| && s[SkipSpace(s, i + |name|)] == '('
  }

  /** The first call of `name` at or after `from`, see `FindCallIsFirst`. */
  function FindCall(s: string, from: nat, name: string): (m: Option<nat>)
    requires from <= |s|
    ensures m.Some? ==> from <= m.value < |s| && CallAt(s, m.value, name)
    decreases |s| - from
  {
    if from == |s| then None
    else if CallAt(s, from, name) then Some(from)
    else FindCall(s, from + 1, name)
  }

  lemma {:induction false} FindCallIsFirst(s: string, from: nat, name: string, j: nat)
    requires from <= j < |s| && CallAt(s, j, name)
    ensures FindCall(s, from, name).Some? && FindCall(s, from, name).value <= j
    decreases |s| - from
  {
    if !CallAt(s, from, name) {
      FindCallIsFirst(s, from + 1, name, j);
    }
  }

  /** The nesting after the character at `i`, counting parentheses only. */
  function EnterParen(s: string, i: nat, n: Nesting): Nesting
    requires i < |s|
  {
    if n.quote.None? && (s[i] == '[' || s[i] == ']') then n else Enter(s, i, n)
  }

  /** Where the parenthesis closes that brings the nesting back to nothing, quoted text skipped. */
  function CloseOf(s: string, i: nat, n: Nesting): (c: Option<nat>)
    requires i <= |s|
    ensures c.Some? ==> i <= c.value < |s| && s[c.value] == ')'
    decreases |s| - i
  {
    if i == |s| then None
    else if n.quote.None? && s[i] == ')' && n.depth == 1 then Some(i)
    else CloseOf(s, i + 1, EnterParen(s, i, n))
  }

  type Builder = seq<string> -> Option<string>

  /** The text of a call from `m` on: its parenthesis, its closing one if there is any. */
  function OpenIndex(s: string, m: nat, name: string): (o: nat)
    requires CallAt(s, m, name)
    ensures m + |name| <= o < |s| && s[o] == '('
  {
    SkipSpace(s, m + |name|)
  }

  /** A call: where its name starts, where its parenthesis opens and where that closes. */
  datatype Span = Span(start: nat, open: nat, close: nat)

  ghost predicate IsSpan(s: string, name: string, span: Span)
  {
    && CallAt(s, span.start, name) && span.open == OpenIndex(s, span.start, name)
    && CloseOf(s, span.open, Outside) == Some(span.close)
  }

  /** The span of the call that starts at `m`, if its parentheses are balanced. */
  function SpanAt(s: string, m: nat, name: string): (span: Option<Span>)
    requires CallAt(s, m, name)
    ensures span.Some? ==> m == span.value.start <= span.value.open < span.value.close < |s|
  {
    var open := OpenIndex(s, m, name);
    match CloseOf(s, open, Outside)
    case None => None
    case Some(close) => Some(Span(m, open, close))
  }

  /** The next call the rewriting comes to; unbalanced parentheses end it. */
  function NextSpan(s: string, from: nat, name: string): (span: Option<Span>)
    requires from <= |s|
    ensures span.Some? ==> from <= span.value.start <= span.value.open < span.value.close < |s|
  {
    match FindCall(s, from, name)
    case None => None
    case Some(m) => SpanAt(s, m, name)
  }

  function SpanArguments(s: string, span: Span): seq<string>
    requires span.open < span.close < |s|
  {
    Arguments(Segments(s[span.open + 1..span.close], 0, 0, Outside))
  }

  /** The text with a call replaced. */
  function Put(s: string, span: Span, replacement: string): string
    requires span.start <= span.close < |s|
  {
    s[..span.start] + replacement + s[span.close + 1..]
  }

  /** What a rewriting finds and puts in place, as values: `Rewrites` says that they are those of `name` and `build`. */
  datatype Rewriting = Rewriting(find: (string, nat) -> Option<Span>, edit: (string, Span) -> Option<string>)

  ghost predicate Rewrites(w: Rewriting, name: string, build: Builder)
  {
    && (forall s, i: nat {:trigger NextSpan(s, i, name)} | i <= |s| :: w.find(s, i) == NextSpan(s, i, name))
    && (forall s, span: Span {:trigger SpanArguments(s, span)} | span.open < span.close < |s| ::
          w.edit(s, span) == build(SpanArguments(s, span)))
  }

  /** Every name and builder have such a rewriting, so what asks for one asks for nothing more. */
  lemma RewritingExists(name: string, build: Builder) returns (w: Rewriting)
    ensures Rewrites(w, name, build)
  {
    w := Rewriting((s, i: nat) => if i <= |s| then NextSpan(s, i, name) else None,
                   (s, span: Span) => if span.open < span.close < |s| then build(SpanArguments(s, span)) else None);
  }

  predicate Ahead(s: string, from: nat, span: Span)
  {
    from <= span.start <= span.open < span.close < |s|
  }

  /** The text as the rewriting sees it: what it steps over, and the calls, each with what is put in its place. */
  datatype Piece = Gap(text: string) | Call(text: string, replacement: Option<string>)
  {
    function Result(): string
    {
      if Call? && replacement.Some? then replacement.value else text
    }

    function Count(): nat
    {
      if Call? && replacement.Some? then 1 else 0
    }
  }

  /** One move of the rewriting: the gap it steps over, the call it comes to, the text then and where it goes on. */
  datatype Move = Move(gap: Piece, call: Piece, text: string, from: nat)

  function NextMove(w: Rewriting, s: string, from: nat): (m: Option<Move>)
    requires from <= |s|
    ensures m.Some? ==> m.value.from <= |m.value.text| && |m.value.text| - m.value.from < |s| - from
  {
    var next := w.find(s, from);
    if next.None? || !Ahead(s, from, next.value) then None
    else
      var span := next.value;
      var edited := w.edit(s, span);
      var gap, call := Gap(s[from..span.start]), Call(s[span.start..span.close + 1], edited);
      if edited.None? then Some(Move(gap, call, s, span.close + 1))
      else Some(Move(gap, call, Put(s, span, edited.value), span.start + |edited.value|))
  }

  /**
   The text after rewriting from `from` on, and how many calls were rewritten: on what was written it never comes
   back.
   */
  function Rewrite(w: Rewriting, s: string, from: nat): (string, nat)
    requires from <= |s|
    decreases |s| - from
  {
    var m := NextMove(w, s, from);
    if m.None? then (s, 0)
    else
      var (out, count) := Rewrite(w, m.value.text, m.value.from);
      (out, count + m.value.call.Count())
  }

  method FindClose(s: string, openIdx: nat) returns (closeIdx: Option<nat>)
    requires openIdx < |s|
    ensures closeIdx == CloseOf(s, openIdx, Outside)
  {
    var depth, quote: Option<char> := 0, None;
    var i := openIdx;
    while i < |s|
      invariant openIdx <= i <= |s|
      invariant CloseOf(s, openIdx, Outside) == CloseOf(s, i, Nesting(depth, quote))
    {
      var ch := s[i];
      if quote.Some? {
        if ch == quote.value && (i == 0 || s[i - 1] != '\\') {
          quote := None;
        }
      } else if ch == '\'' || ch == '\"' || ch == '`' {
        quote := Some(ch);
      } else if ch == '(' {
        depth := depth + 1;
      } else if ch == ')' {
        depth := depth - 1;
        if depth == 0 {
          return Some(i);
        }
      }
      i := i + 1;
    }
    return None;
  }

  method FindNext(s: string, from: nat, name: string, build: Builder, ghost w: Rewriting) returns (span: Option<Span>)
    requires from <= |s| && Rewrites(w, name, build)
    ensures span == w.find(s, from) && (span.Some? ==> Ahead(s, from, span.value))
  {
    ghost var next := NextSpan(s, from, name);
    var start := FindCall(s, from, name);
    if start.None? {
      return None;
    }
    var openIdx := OpenIndex(s, start.value, name);
    var closeIdx := FindClose(s, openIdx);
    if closeIdx.None? {
      return None;
    }
    return Some(Span(start.value, openIdx, closeIdx.value));
  }

  method EditCall(s: string, span: Span, name: string, build: Builder, ghost w: Rewriting)
    returns (replacement: Option<string>)
    requires span.open < span.close < |s| && Rewrites(w, name, build)
    ensures replacement == w.edit(s, span)
  {
    ghost var arguments := SpanArguments(s, span);
    var args := SplitArgs(s[span.open + 1..span.close]);
    return build(args);
  }

  /** One round of the loop: `found` says whether there was a call, and then where the text stands. */
  method RewriteNext(s: string, from: nat, name: string, build: Builder, ghost w: Rewriting)
    returns (found: bool, text: string, searchFrom: nat, done: nat)
    requires from <= |s| && Rewrites(w, name, build)
    ensures found == NextMove(w, s, from).Some?
    ensures found ==>
              var m := NextMove(w, s, from).value;
              text == m.text && searchFrom == m.from && done == m.call.Count()
    ensures !found ==> text == s && searchFrom == from && done == 0
  {
    found, text, searchFrom, done := false, s, from, 0;
    var next := FindNext(s, from, name, build, w);
    if next.Some? {
      found := true;
      var span := next.value;
      var replacement := EditCall(s, span, name, build, w);
      if replacement.None? {
        searchFrom := span.close + 1;
      } else {
        text := Put(s, span, replacement.value);
        searchFrom := span.start + |replacement.value|;
        done := 1;
      }
    }
  }

  method ReplaceFunctionCalls(sql: string, name: string, build: Builder, ghost w: Rewriting)
    returns (out: string, count: nat)
    requires Rewrites(w, name, build)
    ensures (out, count) == Rewrite(w, sql, 0)
  {
    out, count := sql, 0;
    var searchFrom: nat := 0;
    ghost var whole := Rewrite(w, sql, 0);
    while true
      invariant searchFrom <= |out|
      invariant whole.0 == Rewrite(w, out, searchFrom).0
      invariant whole.1 == count + Rewrite(w, out, searchFrom).1
      decreases |out| - searchFrom
    {
      var found, text, next, done := RewriteNext(out, searchFrom, name, build, w);
      if !found {
        break;
      }
      out, searchFrom, count := text, next, count + done;
    }
  }

  function Original(pieces: seq<Piece>): string
  {
    if pieces == [] then "" else pieces[0].text + Original(pieces[1..])
  }

  function Rewritten(pieces: seq<Piece>): string
  {
    if pieces == [] then "" else pieces[0].Result() + Rewritten(pieces[1..])
  }

  function Replaced(pieces: seq<Piece>): nat
  {
    if pieces == [] then 0
    else pieces[0].Count() + Replaced(pieces[1..])
  }

  /** `text` is one whole call: its last character closes its first parenthesis. */
  predicate IsCall(text: string, name: string)
  {
    CallAt(text, 0, name) && CloseOf(text, OpenIndex(text, 0, name), Outside) == Some(|text| - 1)
  }

  function CallArguments(text: string, name: string): seq<string>
    requires IsCall(text, name)
  {
    var open := OpenIndex(text, 0, name);
    assert text[open] == '(' && text[|text| - 1] == ')';
    Arguments(Segments(text[open + 1..|text| - 1], 0, 0, Outside))
  }

  /** Each call piece is a whole call and carries what `build` makes of its arguments. */
  ghost predicate Faithful(p: Piece, name: string, build: Builder)
  {
    p.Call? ==> IsCall(p.text, name) && p.replacement == build(CallArguments(p.text, name))
  }

  function Pieces(w: Rewriting, s: string, from: nat): seq<Piece>
    requires from <= |s|
    decreases |s| - from
  {
    var m := NextMove(w, s, from);
    if m.None? then [Gap(s[from..])]
    else [m.value.gap, m.value.call] + Pieces(w, m.value.text, m.value.from)
  }

  lemma {:induction false} CloseOfSlice(s: string, m: nat, e: nat, i: nat, n: Nesting)
    requires m <= i <= e <= |s| && (n.quote.Some? ==> m < i)
    requires CloseOf(s, i, n).Some? && CloseOf(s, i, n).value < e
    ensures CloseOf(s[m..e], i - m, n) == Some(CloseOf(s, i, n).value - m)
    decreases |s| - i
  {
    if !(n.quote.None? && s[i] == ')' && n.depth == 1) {
      assert n.quote.Some? ==> s[m..e][i - m - 1] == s[i - 1];
      CloseOfSlice(s, m, e, i + 1, EnterParen(s, i, n));
    }
  }

  lemma {:induction false} SkipSpaceSlice(s: string, m: nat, e: nat, i: nat)
    requires m <= i <= e <= |s| && SkipSpace(s, i) < e
    ensures SkipSpace(s[m..e], i - m) == SkipSpace(s, i) - m
    decreases |s| - i
  {
    if IsSpace(s[i]) {
      SkipSpaceSlice(s, m, e, i + 1);
    }
  }

  lemma NameAtSlice(s: string, m: nat, e: nat, name: string)
    requires m <= e <= |s| && m + |name| <= e && NameAt(s, m, name)
    ensures NameAt(s[m..e], 0, name)
  {
    assert forall j | 0 <= j < |name| :: s[m..e][j] == s[m + j];
  }

  /** A call's name and parenthesis stay where they are when its text is cut out. */
  lemma CallSlice(s: string, m: nat, e: nat, name: string)
    requires m <= e <= |s| && CallAt(s, m, name) && OpenIndex(s, m, name) < e
    ensures CallAt(s[m..e], 0, name) && OpenIndex(s[m..e], 0, name) == OpenIndex(s, m, name) - m
  {
    var open, text := OpenIndex(s, m, name), s[m..e];
    NameAtSlice(s, m, e, name);
    SkipSpaceSlice(s, m, e, m + |name|);
    assert text[open - m] == s[open] == '(';
  }

  /** The span of a call, cut out of its text, is a whole call with the same arguments. */
  lemma SpanIsCall(s: string, name: string, span: Span)
    requires IsSpan(s, name, span) && span.start <= span.open < span.close < |s|
    ensures var text := s[span.start..span.close + 1];
      IsCall(text, name) && CallArguments(text, name) == SpanArguments(s, span)
  {
    SpanIsBalanced(s, name, span);
    SliceSlice(s, span.start, span.close + 1, span.open - span.start + 1, span.close - span.start);
  }

  lemma SpanIsBalanced(s: string, name: string, span: Span)
    requires IsSpan(s, name, span) && span.start <= span.open < span.close < |s|
    ensures var text := s[span.start..span.close + 1];
      IsCall(text, name) && OpenIndex(text, 0, name) == span.open - span.start
  {
    CallSlice(s, span.start, span.close + 1, name);
    CloseOfSlice(s, span.start, span.close + 1, span.open, Outside);
  }

  lemma SliceSlice(s: string, m: nat, e: nat, a: nat, b: nat)
    requires m <= e <= |s| && a <= b <= e - m
    ensures s[m..e][a..b] == s[m + a..m + b]
  {
    assert forall k | 0 <= k < b - a :: s[m..e][a..b][k] == s[m + a..m + b][k];
  }

  lemma TextOf(m: Move, rest: seq<Piece>)
    ensures Original([m.gap, m.call] + rest) == m.gap.text + m.call.text + Original(rest)
    ensures Rewritten([m.gap, m.call] + rest) == m.gap.Result() + m.call.Result() + Rewritten(rest)
    ensures Replaced([m.gap, m.call] + rest) == m.gap.Count() + m.call.Count() + Replaced(rest)
  {
    assert ([m.gap, m.call] + rest)[1..] == [m.call] + rest && ([m.call] + rest)[1..] == rest;
  }

  /** A move leaves the text after the call alone, and puts the call's result in place before it. */
  lemma MoveKeepsText(w: Rewriting, s: string, from: nat)
    requires from <= |s| && NextMove(w, s, from).Some?
    ensures var m := NextMove(w, s, from).value;
      && m.gap.Gap? && s[from..] == m.gap.text + m.call.text + m.text[m.from..]
      && m.text[..m.from] == s[..from] + m.gap.text + m.call.Result()
  {
    var span := w.find(s, from).value;
    ThreeSlices(s, from, span.start, span.close + 1);
    if w.edit(s, span).Some? {
      PutKeepsText(s, from, span, w.edit(s, span).value);
    } else {
      assert s[..span.close + 1] == s[..from] + s[from..span.start] + s[span.start..span.close + 1];
    }
  }

  lemma ThreeSlices(s: string, a: nat, b: nat, c: nat)
    requires a <= b <= c <= |s|
    ensures s[a..] == s[a..b] + s[b..c] + s[c..]
  {
  }

  lemma PutKeepsText(s: string, from: nat, span: Span, replacement: string)
    requires from <= span.start <= span.close < |s|
    ensures var text, at := Put(s, span, replacement), span.start + |replacement|;
      at <= |text| && text[at..] == s[span.close + 1..] && text[..at] == s[..from] + s[from..span.start] + replacement
  {
  }

  /** The pieces are the whole text from `from` on: nothing is lost and nothing counted twice. */
  lemma {:induction false} PiecesAreText(w: Rewriting, s: string, from: nat)
    requires from <= |s|
    ensures Original(Pieces(w, s, from)) == s[from..]
    decreases |s| - from
  {
    if NextMove(w, s, from).Some? {
      var m := NextMove(w, s, from).value;
      MoveKeepsText(w, s, from);
      PiecesAreText(w, m.text, m.from);
      TextOf(m, Pieces(w, m.text, m.from));
    }
  }

  /** The rewritten text is the pieces with the rewritten calls replaced: it differs inside those calls only. */
  lemma {:induction false} RewriteIsPiecewise(w: Rewriting, s: string, from: nat)
    requires from <= |s|
    ensures Rewrite(w, s, from).0 == s[..from] + Rewritten(Pieces(w, s, from))
    decreases |s| - from
  {
    if NextMove(w, s, from).None? {
      LastPiece(s, from);
    } else {
      var m := NextMove(w, s, from).value;
      RewriteIsPiecewise(w, m.text, m.from);
      MoveTogether(w, s, from, Pieces(w, m.text, m.from));
    }
  }

  lemma LastPiece(s: string, from: nat)
    requires from <= |s|
    ensures s[..from] + Rewritten([Gap(s[from..])]) == s
  {
    assert [Gap(s[from..])][1..] == [];
    assert Rewritten([Gap(s[from..])]) == s[from..] + "" == s[from..];
  }

  /** What stands before the next position and the pieces from there on are the same text as before and all pieces. */
  lemma MoveTogether(w: Rewriting, s: string, from: nat, rest: seq<Piece>)
    requires from <= |s| && NextMove(w, s, from).Some?
    ensures var m := NextMove(w, s, from).value;
      m.text[..m.from] + Rewritten(rest) == s[..from] + Rewritten([m.gap, m.call] + rest)
  {
    var m := NextMove(w, s, from).value;
    MoveKeepsText(w, s, from);
    TextOf(m, rest);
    assert m.gap.Result() == m.gap.text;
    Regroup(s[..from], m.gap.text, m.call.Result(), Rewritten(rest));
  }

  /** The count that comes with the text is the number of calls replaced. */
  lemma {:induction false} RewriteCounts(w: Rewriting, s: string, from: nat)
    requires from <= |s|
    ensures Rewrite(w, s, from).1 == Replaced(Pieces(w, s, from))
    decreases |s| - from
  {
    if NextMove(w, s, from).Some? {
      var m := NextMove(w, s, from).value;
      RewriteCounts(w, m.text, m.from);
      MoveKeepsText(w, s, from);
      TextOf(m, Pieces(w, m.text, m.from));
    }
  }

  /** Every call the rewriting touches is a whole call, replaced by what `build` makes of its arguments, or left. */
  lemma {:induction false} PiecesAreFaithful(w: Rewriting, s: string, from: nat, name: string, build: Builder)
    requires from <= |s| && Rewrites(w, name, build)
    ensures forall p | p in Pieces(w, s, from) :: Faithful(p, name, build)
    decreases |s| - from
  {
    if NextMove(w, s, from).Some? {
      var m := NextMove(w, s, from).value;
      MoveIsFaithful(w, s, from, name, build);
      PiecesAreFaithful(w, m.text, m.from, name, build);
    }
  }

  lemma MoveIsFaithful(w: Rewriting, s: string, from: nat, name: string, build: Builder)
    requires from <= |s| && Rewrites(w, name, build) && NextMove(w, s, from).Some?
    ensures var m := NextMove(w, s, from).value; m.gap.Gap? && m.call.Call? && Faithful(m.call, name, build)
  {
    assert w.find(s, from) == NextSpan(s, from, name);
    var span := w.find(s, from).value;
    assert w.edit(s, span) == build(SpanArguments(s, span));
    SpanIsCall(s, name, span);
  }

  /** A rewriting that rewrote nothing leaves the text as it was. */
  lemma {:induction false} NothingRewritten(w: Rewriting, s: string, from: nat)
    requires from <= |s| && Rewrite(w, s, from).1 == 0
    ensures Rewrite(w, s, from).0 == s
    decreases |s| - from
  {
    if NextMove(w, s, from).Some? {
      var m := NextMove(w, s, from).value;
      NothingRewritten(w, m.text, m.from);
    }
  }

  // ------------------------------------------------- which calls are rewritten

  /**
   No call's head is passed over: before a touched call there is none, and the end comes with none, or one
   unbalanced.
   */
  lemma MoveIsFirst(w: Rewriting, s: string, from: nat, name: string, build: Builder)
    requires from <= |s| && Rewrites(w, name, build)
    ensures var m := NextMove(w, s, from);
      && (m.Some? ==> FindCall(s, from, name) == Some(from + |m.value.gap.text|))
      && (m.None? ==> FindCall(s, from, name).None? ||
                      CloseOf(s, OpenIndex(s, FindCall(s, from, name).value, name), Outside).None?)
  {
    assert w.find(s, from) == NextSpan(s, from, name);
  }

  /** The length of what a move goes over, in the text as it was. */
  function Width(m: Move): nat
  {
    |m.gap.text| + |m.call.text|
  }

  /**
   A scan in positions of the text as it was: at each call touched, how far ahead it starts and ends, and whether its
   replacement ends so that no call can start right after it; at its end, how far ahead it still looked for heads.
   */
  datatype Scan = End(reach: nat) | Touch(start: nat, width: nat, glue: bool, rest: Scan)

  function ScanOf(w: Rewriting, s: string, from: nat, name: string): Scan
    requires from <= |s|
    decreases |s| - from
  {
    var m := NextMove(w, s, from);
    if m.Some? then
      Touch(|m.value.gap.text|, Width(m.value), !MayStart(m.value.text, m.value.from),
            ScanOf(w, m.value.text, m.value.from, name))
    else
      var head := FindCall(s, from, name);
      End(if head.Some? then head.value - from else |s| - from)
  }

  /** A call touched starts at `j`. */
  predicate Starts(c: Scan, j: nat)
  {
    c.Touch? && (j == c.start || (j >= c.width && Starts(c.rest, j - c.width)))
  }

  /** `j` lies inside a call touched, after its start. */
  predicate Inside(c: Scan, j: nat)
  {
    c.Touch? && (c.start < j < c.width || (j >= c.width && Inside(c.rest, j - c.width)))
  }

  /** `j` comes right after a call whose replacement no call can follow. */
  predicate Glued(c: Scan, j: nat)
  {
    c.Touch? && j >= c.width && ((j == c.width && c.glue) || Glued(c.rest, j - c.width))
  }

  /** Where the scan ends: at an unbalanced call, or at the end of the text. */
  function Reach(c: Scan): nat
  {
    if c.Touch? then c.width + Reach(c.rest) else c.reach
  }

  /** The heads further on, counted from there. */
  function HeadsAfter(heads: nat -> bool, width: nat, glue: bool): nat -> bool
  {
    (k: nat) => heads(width + k) && !(k == 0 && glue)
  }

  /** The heads are where the scan finds them and nowhere else. */
  ghost predicate HeadsFit(c: Scan, heads: nat -> bool)
  {
    match c
    case End(reach) => forall j: nat | j < reach :: !heads(j)
    case Touch(start, width, glue, rest) =>
      && start < width && heads(start) && (forall j: nat | j < start :: !heads(j))
      && HeadsFit(rest, HeadsAfter(heads, width, glue))
  }

  lemma {:induction false} StartsIff(c: Scan, heads: nat -> bool, j: nat)
    requires HeadsFit(c, heads)
    ensures Starts(c, j) ==> heads(j)
    ensures Starts(c, j) <==> heads(j) && !Inside(c, j) && j < Reach(c) && !Glued(c, j)
    decreases c
  {
    if c.Touch? && j >= c.width {
      StartsIff(c.rest, HeadsAfter(heads, c.width, c.glue), j - c.width);
    }
  }

  lemma {:induction false} SkipSpaceSuffix(s: string, i: nat, t: string, j: nat)
    requires i <= |s| && j <= |t| && s[i..] == t[j..]
    ensures SkipSpace(s, i) - i == SkipSpace(t, j) - j
    decreases |s| - i
  {
    assert |s| - i == |t| - j;
    if i < |s| {
      assert s[i] == s[i..][0] == t[j..][0] == t[j];
      assert s[i + 1..] == s[i..][1..] && t[j + 1..] == t[j..][1..];
      SkipSpaceSuffix(s, i + 1, t, j + 1);
    }
  }

  /** Whether a call's head stands somewhere depends on the text from there on, and on what may come before. */
  lemma CallAtSuffix(s: string, i: nat, t: string, j: nat, name: string)
    requires i <= |s| && j <= |t| && s[i..] == t[j..] && (MayStart(s, i) <==> MayStart(t, j))
    ensures CallAt(s, i, name) <==> CallAt(t, j, name)
  {
    NameAtSuffix(s, i, t, j, name);
    if i + |name| <= |s| {
      assert s[i + |name|..] == s[i..][|name|..] && t[j + |name|..] == t[j..][|name|..];
      SkipSpaceSuffix(s, i + |name|, t, j + |name|);
      var k := SkipSpace(s, i + |name|) - i;
      assert i + k < |s| ==> s[i + k] == s[i..][k] && t[j + k] == t[j..][k];
    }
  }

  lemma NameAtSuffix(s: string, i: nat, t: string, j: nat, name: string)
    requires i <= |s| && j <= |t| && s[i..] == t[j..]
    ensures NameAt(s, i, name) <==> NameAt(t, j, name)
  {
    assert |s| - i == |t| - j;
    assert forall k | 0 <= k < |s| - i :: s[i + k] == s[i..][k] && t[j + k] == t[j..][k];
  }

  /** Further on in the same text heads stand in the same places, but for its start, where what comes before counts. */
  lemma HeadInSuffix(t: string, a: nat, s: string, b: nat, k: nat, name: string)
    requires a <= |t| && b <= |s| && t[a..] == s[b..] && k <= |s| - b && MayStart(s, b)
    ensures a + k <= |t|
    ensures CallAt(t, a + k, name) <==> CallAt(s, b + k, name) && !(k == 0 && !MayStart(t, a))
  {
    assert |t| - a == |t[a..]| == |s[b..]| == |s| - b;
    assert t[a + k..] == t[a..][k..] == s[b..][k..] == s[b + k..];
    if k > 0 {
      assert t[a + k - 1] == t[a..][k - 1] == s[b..][k - 1] == s[b + k - 1];
      CallAtSuffix(t, a + k, s, b + k, name);
    } else if MayStart(t, a) {
      CallAtSuffix(t, a, s, b, name);
    }
  }

  lemma MoveSuffix(w: Rewriting, s: string, from: nat, name: string, build: Builder)
    requires from <= |s| && Rewrites(w, name, build) && NextMove(w, s, from).Some?
    ensures var m := NextMove(w, s, from).value;
      from + Width(m) <= |s| && m.text[m.from..] == s[from + Width(m)..] && MayStart(s, from + Width(m))
  {
    assert w.find(s, from) == NextSpan(s, from, name);
    var m, span := NextMove(w, s, from).value, w.find(s, from).value;
    assert from + Width(m) == span.close + 1;
  }

  /** `heads` says where, from `from` on, heads stand. */
  ghost predicate SaysHeads(heads: nat -> bool, s: string, from: nat, name: string)
    requires from <= |s|
  {
    forall j: nat {:trigger heads(j)} | j < |s| - from :: heads(j) <==> CallAt(s, from + j, name)
  }

  lemma FirstHead(s: string, from: nat, name: string, heads: nat -> bool)
    requires from <= |s| && SaysHeads(heads, s, from, name)
    ensures var first := FindCall(s, from, name);
      var reach := if first.Some? then first.value - from else |s| - from;
      (forall j: nat | j < reach :: !heads(j)) && (first.Some? ==> heads(reach))
  {
    var first := FindCall(s, from, name);
    forall j: nat | j < (if first.Some? then first.value - from else |s| - from) ensures !heads(j) {
      if CallAt(s, from + j, name) {
        FindCallIsFirst(s, from, name, from + j);
      }
    }
  }

  lemma LaterHeads(w: Rewriting, s: string, from: nat, name: string, build: Builder, heads: nat -> bool)
    requires from <= |s| && Rewrites(w, name, build) && SaysHeads(heads, s, from, name) && NextMove(w, s, from).Some?
    ensures var m := NextMove(w, s, from).value;
      SaysHeads(HeadsAfter(heads, Width(m), !MayStart(m.text, m.from)), m.text, m.from, name)
  {
    var m := NextMove(w, s, from).value;
    MoveSuffix(w, s, from, name, build);
    SuffixHeads(m.text, m.from, s, from, Width(m), name, heads);
  }

  lemma SuffixHeads(t: string, a: nat, s: string, from: nat, width: nat, name: string, heads: nat -> bool)
    requires a <= |t| && from + width <= |s| && t[a..] == s[from + width..] && MayStart(s, from + width)
    requires SaysHeads(heads, s, from, name)
    ensures SaysHeads(HeadsAfter(heads, width, !MayStart(t, a)), t, a, name)
  {
    assert |t[a..]| == |s[from + width..]|;
    var after := HeadsAfter(heads, width, !MayStart(t, a));
    forall k: nat | k < |t| - a ensures after(k) <==> CallAt(t, a + k, name) {
      SuffixHead(t, a, s, from, width, name, heads, k);
    }
  }

  lemma SuffixHead(t: string, a: nat, s: string, from: nat, width: nat, name: string, heads: nat -> bool, k: nat)
    requires a + k < |t| && from + width <= |s| && t[a..] == s[from + width..] && MayStart(s, from + width)
    requires SaysHeads(heads, s, from, name)
    ensures HeadsAfter(heads, width, !MayStart(t, a))(k) <==> CallAt(t, a + k, name)
  {
    assert |t[a..]| == |s[from + width..]|;
    HeadInSuffix(t, a, s, from + width, k, name);
    assert heads(width + k) <==> CallAt(s, from + (width + k), name);
  }

  lemma {:induction false} ScanFits(w: Rewriting, s: string, from: nat, name: string, build: Builder,
                                    heads: nat -> bool)
    requires from <= |s| && Rewrites(w, name, build) && SaysHeads(heads, s, from, name)
    ensures HeadsFit(ScanOf(w, s, from, name), heads)
    decreases |s| - from
  {
    MoveIsFirst(w, s, from, name, build);
    FirstHead(s, from, name, heads);
    if NextMove(w, s, from).Some? {
      var m := NextMove(w, s, from).value;
      LaterHeads(w, s, from, name, build, heads);
      ScanFits(w, m.text, m.from, name, build, HeadsAfter(heads, Width(m), !MayStart(m.text, m.from)));
    }
  }

  lemma {:induction false} ScanIsPieces(w: Rewriting, s: string, from: nat, name: string, j: nat)
    requires from <= |s|
    ensures Starts(ScanOf(w, s, from, name), j) <==> StartsCall(Pieces(w, s, from), j)
    ensures Inside(ScanOf(w, s, from, name), j) <==> InsideCall(Pieces(w, s, from), j)
    decreases |s| - from
  {
    if NextMove(w, s, from).None? {
      LastIsGap(w, s, from, j);
    } else {
      var m := NextMove(w, s, from).value;
      PiecesOfMove(m, Pieces(w, m.text, m.from), j);
      if j >= Width(m) {
        ScanIsPieces(w, m.text, m.from, name, j - Width(m));
      }
    }
  }

  lemma LastIsGap(w: Rewriting, s: string, from: nat, j: nat)
    requires from <= |s| && NextMove(w, s, from).None?
    ensures !StartsCall(Pieces(w, s, from), j) && !InsideCall(Pieces(w, s, from), j)
  {
    assert [Gap(s[from..])][1..] == [];
  }

  lemma PiecesOfMove(m: Move, rest: seq<Piece>, j: nat)
    requires m.gap.Gap? && m.call.Call? && m.call.text != ""
    ensures var ps, g, n := [m.gap, m.call] + rest, |m.gap.text|, Width(m);
      && (StartsCall(ps, j) <==> j == g || (j >= n && StartsCall(rest, j - n)))
      && (InsideCall(ps, j) <==> g < j < n || (j >= n && InsideCall(rest, j - n)))
  {
    var ps := [m.gap, m.call] + rest;
    assert ps[1..] == [m.call] + rest && ([m.call] + rest)[1..] == rest;
  }

  /** A piece of the text starts at `j` that is a call. */
  predicate StartsCall(ps: seq<Piece>, j: nat)
  {
    ps != [] && ((ps[0].Call? && j == 0) || (j >= |ps[0].text| && StartsCall(ps[1..], j - |ps[0].text|)))
  }

  /** `j` lies inside a call piece, after its start. */
  predicate InsideCall(ps: seq<Piece>, j: nat)
  {
    ps != [] && ((ps[0].Call? && 0 < j < |ps[0].text|) || (j >= |ps[0].text| && InsideCall(ps[1..], j - |ps[0].text|)))
  }

  /**
   Exactly which heads are touched: a head of the text is rewritten, or declined, as a call of its own if and only if it
   lies inside no call touched earlier, before the unbalanced one that ends the scan, and is not glued to a replacement.
   */
  lemma TouchedIff(w: Rewriting, s: string, name: string, build: Builder, j: nat)
    requires Rewrites(w, name, build) && j < |s|
    ensures var c := ScanOf(w, s, 0, name);
      StartsCall(Pieces(w, s, 0), j) <==>
        CallAt(s, j, name) && !InsideCall(Pieces(w, s, 0), j) && j < Reach(c) && !Glued(c, j)
  {
    var heads := (k: nat) => CallAt(s, k, name);
    ScanFits(w, s, 0, name, build, heads);
    StartsIff(ScanOf(w, s, 0, name), heads, j);
    ScanIsPieces(w, s, 0, name, j);
  }

  /** The scan ends before the end of the text only at a head that no parenthesis closes. */
  lemma {:induction false} ReachIs(w: Rewriting, s: string, from: nat, name: string, build: Builder)
    returns (t: string, at: nat)
    requires from <= |s| && Rewrites(w, name, build) && Reach(ScanOf(w, s, from, name)) < |s| - from
    ensures CallAt(t, at, name) && CloseOf(t, OpenIndex(t, at, name), Outside).None?
    ensures |t| - at == |s| - from - Reach(ScanOf(w, s, from, name))
    decreases |s| - from
  {
    MoveIsFirst(w, s, from, name, build);
    if NextMove(w, s, from).None? {
      t, at := s, FindCall(s, from, name).value;
    } else {
      var m := NextMove(w, s, from).value;
      MoveSuffix(w, s, from, name, build);
      SameLength(m.text, m.from, s, from + Width(m));
      t, at := ReachIs(w, m.text, m.from, name, build);
    }
  }

  lemma SameLength(t: string, a: nat, s: string, b: nat)
    requires a <= |t| && b <= |s| && t[a..] == s[b..]
    ensures |t| - a == |s| - b
  {
    assert |t[a..]| == |s[b..]|;
  }

  // ------------------------------------------- the same from the text as it was

  /** After this replacement no call can start. */
  predicate Glues(replacement: Option<string>)
  {
    replacement.Some? && replacement.value != "" && !MayStart(replacement.value, |replacement.value|)
  }

  /**
   The leftmost disjoint balanced calls of the text, from `from` on, by where they start: an unbalanced one ends
   them, and a head right after a call whose replacement ends like a word is none.
   */
  function Spans(w: Rewriting, s: string, from: nat, glued: bool): seq<nat>
    requires from <= |s|
    decreases |s| - from
  {
    var next := w.find(s, Skipped(s, from, glued));
    if next.None? || !Ahead(s, from, next.value) then []
    else [next.value.start] + Spans(w, s, next.value.close + 1, Glues(w.edit(s, next.value)))
  }

  function Skipped(s: string, b: nat, glued: bool): (from: nat)
    requires b <= |s|
    ensures b <= from <= |s|
  {
    if glued && b < |s| then b + 1 else b
  }

  lemma {:induction false} CloseOfSuffix(s: string, i: nat, t: string, j: nat, n: Nesting)
    requires i <= |s| && j <= |t| && s[i..] == t[j..]
    requires n.quote.Some? ==> i > 0 && j > 0 && s[i - 1] == t[j - 1]
    ensures var c, d := CloseOf(s, i, n), CloseOf(t, j, n);
      (c.Some? <==> d.Some?) && (c.Some? ==> c.value - i == d.value - j)
    decreases |s| - i
  {
    SameLength(s, i, t, j);
    if i < |s| {
      assert s[i] == s[i..][0] == t[j..][0] == t[j];
      assert s[i + 1..] == s[i..][1..] && t[j + 1..] == t[j..][1..];
      CloseOfSuffix(s, i + 1, t, j + 1, EnterParen(s, i, n));
    }
  }

  /** `t` from `a` on is `s` from `b` on, where in `s` a call may start; in `t` it may not if `glued`. */
  ghost predicate SameFrom(t: string, a: nat, s: string, b: nat, glued: bool)
  {
    a <= |t| && b <= |s| && t[a..] == s[b..] && MayStart(s, b) && glued == !MayStart(t, a)
  }

  /** `c` is the first of the heads from `from` on, before `n`. */
  ghost predicate FirstOf(heads: nat -> bool, from: nat, n: nat, c: Option<nat>)
  {
    && (c.Some? ==> from <= c.value < n && heads(c.value))
    && forall j: nat {:trigger heads(j)} | from <= j < (if c.Some? then c.value else n) :: !heads(j)
  }

  lemma FirstIsOne(heads: nat -> bool, glued: bool, n: nat, c: Option<nat>, d: Option<nat>)
    requires FirstOf(HeadsAfter(heads, 0, glued), 0, n, c) && FirstOf(heads, if glued && n > 0 then 1 else 0, n, d)
    ensures c == d
  {
    var after := HeadsAfter(heads, 0, glued);
    forall j: nat | j < n ensures after(j) <==> heads(j) && !(j == 0 && glued) {
      assert after(j) <==> heads(0 + j) && !(j == 0 && glued);
    }
  }

  function Offset(c: Option<nat>, a: nat): Option<nat>
    requires c.Some? ==> a <= c.value
  {
    if c.Some? then Some(c.value - a) else None
  }

  lemma FirstCall(s: string, b: nat, from: nat, n: nat, name: string, heads: nat -> bool) returns (c: Option<nat>)
    requires b <= from <= |s| && n == |s| - b && SaysHeads(heads, s, b, name)
    ensures c == Offset(FindCall(s, from, name), b) && FirstOf(heads, from - b, n, c)
  {
    c := Offset(FindCall(s, from, name), b);
    if c.Some? {
      assert heads(c.value) <==> CallAt(s, b + c.value, name);
    }
    forall j: nat | from - b <= j < (if c.Some? then c.value else n) ensures !heads(j) {
      if CallAt(s, b + j, name) {
        FindCallIsFirst(s, from, name, b + j);
      }
    }
  }

  lemma SameHeads(t: string, a: nat, s: string, b: nat, glued: bool, name: string) returns (heads: nat -> bool)
    requires SameFrom(t, a, s, b, glued)
    ensures SaysHeads(heads, s, b, name) && SaysHeads(HeadsAfter(heads, 0, glued), t, a, name)
  {
    heads := (k: nat) => CallAt(s, b + k, name);
    SuffixHeads(t, a, s, b, 0, name, heads);
  }

  lemma FirstCalls(t: string, a: nat, s: string, b: nat, glued: bool, name: string)
    returns (heads: nat -> bool, c: Option<nat>, d: Option<nat>)
    requires SameFrom(t, a, s, b, glued)
    ensures c == Offset(FindCall(t, a, name), a) && d == Offset(FindCall(s, Skipped(s, b, glued), name), b)
    ensures FirstOf(HeadsAfter(heads, 0, glued), 0, |s| - b, c)
    ensures FirstOf(heads, if glued && |s| - b > 0 then 1 else 0, |s| - b, d)
  {
    heads := SameHeads(t, a, s, b, glued, name);
    SameLength(t, a, s, b);
    c := FirstCall(t, a, a, |s| - b, name, HeadsAfter(heads, 0, glued));
    d := FirstCall(s, b, Skipped(s, b, glued), |s| - b, name, heads);
  }

  /** A text that goes on like another one, glued or not, has its first call at the same place. */
  lemma FindCallSame(t: string, a: nat, s: string, b: nat, glued: bool, name: string)
    requires SameFrom(t, a, s, b, glued)
    ensures Offset(FindCall(t, a, name), a) == Offset(FindCall(s, Skipped(s, b, glued), name), b)
  {
    var heads, c, d := FirstCalls(t, a, s, b, glued, name);
    FirstIsOne(heads, glued, |s| - b, c, d);
  }

  lemma SuffixOfSuffix(t: string, a: nat, s: string, b: nat, k: nat)
    requires a <= |t| && b <= |s| && t[a..] == s[b..] && a + k <= |t|
    ensures b + k <= |s| && t[a + k..] == s[b + k..]
  {
    SameLength(t, a, s, b);
    assert t[a..][k..] == t[a + k..] && s[b..][k..] == s[b + k..];
  }

  lemma SliceOfSuffix(t: string, a: nat, s: string, b: nat, i: nat, j: nat)
    requires a <= |t| && b <= |s| && t[a..] == s[b..] && i <= j && a + j <= |t|
    ensures b + j <= |s| && t[a + i..a + j] == s[b + i..b + j]
  {
    SameLength(t, a, s, b);
    assert t[a..][i..j] == t[a + i..a + j] && s[b..][i..j] == s[b + i..b + j];
  }

  lemma OpenSame(t: string, a: nat, s: string, b: nat, k: nat, name: string)
    requires a <= |t| && b <= |s| && t[a..] == s[b..] && CallAt(t, a + k, name) && CallAt(s, b + k, name)
    ensures OpenIndex(t, a + k, name) - a == OpenIndex(s, b + k, name) - b
  {
    SuffixOfSuffix(t, a, s, b, k + |name|);
    SkipSpaceSuffix(t, a + (k + |name|), s, b + (k + |name|));
  }

  lemma CloseSame(t: string, a: nat, s: string, b: nat, k: nat)
    requires a <= |t| && b <= |s| && t[a..] == s[b..] && a + k <= |t|
    ensures b + k <= |s| && Offset(CloseOf(t, a + k, Outside), a) == Offset(CloseOf(s, b + k, Outside), b)
  {
    SuffixOfSuffix(t, a, s, b, k);
    CloseOfSuffix(t, a + k, s, b + k, Outside);
  }

  function Moved(span: Option<Span>, a: nat, b: nat): Option<Span>
    requires span.Some? ==> a <= span.value.start <= span.value.open <= span.value.close
  {
    if span.None? then None
    else
      Some(Span(span.value.start - a + b, span.value.open - a + b, span.value.close - a + b))
  }

  lemma SpanSame(t: string, a: nat, s: string, b: nat, k: nat, j: nat, name: string)
    requires a <= |t| && b <= |s| && t[a..] == s[b..] && CallAt(t, a + k, name) && k == j && CallAt(s, b + j, name)
    ensures SpanAt(s, b + j, name) == Moved(SpanAt(t, a + k, name), a, b)
  {
    OpenSame(t, a, s, b, k, name);
    CloseSame(t, a, s, b, OpenIndex(t, a + k, name) - a);
  }

  lemma NextSpanIs(s: string, from: nat, name: string) returns (c: Option<nat>)
    requires from <= |s|
    ensures c == FindCall(s, from, name) && (c.None? ==> NextSpan(s, from, name).None?)
    ensures c.Some? ==> from <= c.value && CallAt(s, c.value, name)
    ensures c.Some? ==> NextSpan(s, from, name) == SpanAt(s, c.value, name)
  {
    c := FindCall(s, from, name);
  }

  /** So it has the same next call. */
  lemma NextSpanSame(t: string, a: nat, s: string, b: nat, glued: bool, name: string)
    requires SameFrom(t, a, s, b, glued)
    ensures NextSpan(s, Skipped(s, b, glued), name) == Moved(NextSpan(t, a, name), a, b)
  {
    FindCallSame(t, a, s, b, glued, name);
    var c := NextSpanIs(t, a, name);
    var d := NextSpanIs(s, Skipped(s, b, glued), name);
    SpansSame(t, a, s, b, name, c, d, NextSpan(t, a, name), NextSpan(s, Skipped(s, b, glued), name));
  }

  lemma SpansSame(t: string, a: nat, s: string, b: nat, name: string, c: Option<nat>, d: Option<nat>, x: Option<Span>,
                  y: Option<Span>)
    requires a <= |t| && b <= |s| && t[a..] == s[b..]
    requires if c.None? then x.None? else a <= c.value && CallAt(t, c.value, name) && x == SpanAt(t, c.value, name)
    requires if d.None? then y.None? else b <= d.value && CallAt(s, d.value, name) && y == SpanAt(s, d.value, name)
    requires Offset(c, a) == Offset(d, b)
    ensures x.Some? ==> a <= x.value.start <= x.value.open <= x.value.close
    ensures y == Moved(x, a, b)
  {
    if c.Some? {
      SpanSame(t, a, s, b, c.value - a, d.value - b, name);
    }
  }

  lemma ArgumentsSame(t: string, a: nat, s: string, b: nat, span: Span)
    requires a <= |t| && b <= |s| && t[a..] == s[b..] && a <= span.start <= span.open < span.close < |t|
    ensures var d := Moved(Some(span), a, b).value;
      d.open < d.close < |s| && s[d.close] == t[span.close] && SpanArguments(s, d) == SpanArguments(t, span)
  {
    SameLength(t, a, s, b);
    SliceOfSuffix(t, a, s, b, span.open + 1 - a, span.close - a);
    assert t[span.close] == t[a..][span.close - a] == s[b..][span.close - a];
  }

  /** After a move the texts go on alike, glued exactly if the replacement glues. */
  lemma MoveSame(w: Rewriting, t: string, a: nat, s: string, b: nat, glued: bool, name: string, build: Builder)
    returns (m: Move, next: Span)
    requires SameFrom(t, a, s, b, glued) && Rewrites(w, name, build) && NextMove(w, t, a).Some?
    ensures NextMove(w, t, a) == Some(m) && w.find(s, Skipped(s, b, glued)) == Some(next)
    ensures Ahead(s, Skipped(s, b, glued), next) && next.start == b + |m.gap.text| && next.close + 1 == b + Width(m)
    ensures SameFrom(m.text, m.from, s, b + Width(m), Glues(w.edit(s, next)))
  {
    var c := FindsSame(w, t, a, s, b, glued, name, build);
    m, next := NextMove(w, t, a).value, Moved(Some(c), a, b).value;
    MoveGoesOn(w, t, a, c, m);
    GoesOnSame(t, a, s, b, m.text, m.from, Width(m));
  }

  lemma GoesOnSame(t: string, a: nat, s: string, b: nat, u: string, from: nat, width: nat)
    requires a + width <= |t| && b <= |s| && t[a..] == s[b..] && from <= |u| && u[from..] == t[a + width..]
    ensures b + width <= |s| && u[from..] == s[b + width..]
  {
    SuffixOfSuffix(t, a, s, b, width);
  }

  /** Where a move goes on: right behind the call, glued exactly if the replacement glues. */
  lemma MoveGoesOn(w: Rewriting, t: string, a: nat, c: Span, m: Move)
    requires a <= |t| && w.find(t, a) == Some(c) && Ahead(t, a, c) && NextMove(w, t, a) == Some(m)
    requires MayStart(t, c.start) && t[c.close] == ')'
    ensures |m.gap.text| == c.start - a && Width(m) == c.close + 1 - a && m.text[m.from..] == t[c.close + 1..]
    ensures !MayStart(m.text, m.from) <==> Glues(w.edit(t, c))
  {
    MoveKeepsText(w, t, a);
    var edited := w.edit(t, c);
    if edited.Some? {
      assert m.text == Put(t, c, edited.value);
      if edited.value != "" {
        assert m.text[m.from - 1] == edited.value[|edited.value| - 1];
      } else if c.start > 0 {
        assert m.text[m.from - 1] == t[c.start - 1];
      }
    }
  }

  lemma FindsSame(w: Rewriting, t: string, a: nat, s: string, b: nat, glued: bool, name: string, build: Builder)
    returns (c: Span)
    requires SameFrom(t, a, s, b, glued) && Rewrites(w, name, build) && NextMove(w, t, a).Some?
    ensures Ahead(t, a, c) && w.find(t, a) == Some(c) && MayStart(t, c.start) && t[c.close] == ')'
    ensures w.find(s, Skipped(s, b, glued)) == Moved(Some(c), a, b)
    ensures Ahead(s, Skipped(s, b, glued), Moved(Some(c), a, b).value)
    ensures var d := Moved(Some(c), a, b).value;
      d.open < d.close < |s| && w.edit(s, d) == w.edit(t, c) && s[d.close] == ')'
  {
    assert w.find(t, a) == NextSpan(t, a, name);
    c := NextSpan(t, a, name).value;
    NextSpanSame(t, a, s, b, glued, name);
    assert w.find(s, Skipped(s, b, glued)) == NextSpan(s, Skipped(s, b, glued), name);
    ArgumentsSame(t, a, s, b, c);
    var d := Moved(Some(c), a, b).value;
    assert w.edit(t, c) == build(SpanArguments(t, c)) == build(SpanArguments(s, d)) == w.edit(s, d);
  }

  lemma NoMoveSame(w: Rewriting, t: string, a: nat, s: string, b: nat, glued: bool, name: string, build: Builder)
    requires SameFrom(t, a, s, b, glued) && Rewrites(w, name, build) && NextMove(w, t, a).None?
    ensures w.find(s, Skipped(s, b, glued)).None? && Spans(w, s, b, glued) == []
  {
    assert w.find(t, a) == NextSpan(t, a, name);
    NextSpanSame(t, a, s, b, glued, name);
    assert w.find(s, Skipped(s, b, glued)) == NextSpan(s, Skipped(s, b, glued), name);
  }

  lemma TouchedStep(w: Rewriting, t: string, a: nat, s: string, b: nat, glued: bool, name: string, build: Builder,
                    j: nat, k: nat) returns (m: Move, glued': bool)
    requires SameFrom(t, a, s, b, glued) && Rewrites(w, name, build) && NextMove(w, t, a).Some? && k == b + j
    ensures NextMove(w, t, a) == Some(m) && SameFrom(m.text, m.from, s, b + Width(m), glued')
    ensures j < Width(m) ==> (StartsCall(Pieces(w, t, a), j) <==> k in Spans(w, s, b, glued))
    ensures j >= Width(m) ==>
              && (StartsCall(Pieces(w, t, a), j) <==> StartsCall(Pieces(w, m.text, m.from), j - Width(m)))
              && (k in Spans(w, s, b, glued) <==> k in Spans(w, s, b + Width(m), glued'))
  {
    var next;
    m, next := MoveSame(w, t, a, s, b, glued, name, build);
    glued' := Glues(w.edit(s, next));
    PiecesStep(w, t, a, m, j);
    SpansStep(w, s, b, glued, next, k);
  }

  lemma {:induction false} TouchedAreSpansFrom(w: Rewriting, t: string, a: nat, s: string, b: nat, glued: bool,
                                               name: string, build: Builder, j: nat, k: nat)
    requires SameFrom(t, a, s, b, glued) && Rewrites(w, name, build) && k == b + j
    ensures StartsCall(Pieces(w, t, a), j) <==> k in Spans(w, s, b, glued)
    decreases |t| - a
  {
    if NextMove(w, t, a).None? {
      NoMoveSame(w, t, a, s, b, glued, name, build);
      LastIsGap(w, t, a, j);
    } else {
      var m, glued' := TouchedStep(w, t, a, s, b, glued, name, build, j, k);
      if j >= Width(m) {
        TouchedAreSpansFrom(w, m.text, m.from, s, b + Width(m), glued', name, build, j - Width(m), k);
      }
    }
  }

  lemma PiecesStep(w: Rewriting, t: string, a: nat, m: Move, j: nat)
    requires a <= |t| && NextMove(w, t, a) == Some(m)
    ensures StartsCall(Pieces(w, t, a), j) <==>
            j == |m.gap.text| || (j >= Width(m) && StartsCall(Pieces(w, m.text, m.from), j - Width(m)))
  {
    PiecesOfMove(m, Pieces(w, m.text, m.from), j);
  }

  lemma SpansStep(w: Rewriting, s: string, b: nat, glued: bool, next: Span, k: nat)
    requires b <= |s| && w.find(s, Skipped(s, b, glued)) == Some(next)
    requires Ahead(s, Skipped(s, b, glued), next)
    ensures k in Spans(w, s, b, glued) <==>
            k == next.start || (k > next.close && k in Spans(w, s, next.close + 1, Glues(w.edit(s, next))))
  {
    SpansAreLater(w, s, next.close + 1, Glues(w.edit(s, next)));
  }

  lemma {:induction false} SpansAreLater(w: Rewriting, s: string, from: nat, glued: bool)
    requires from <= |s|
    ensures forall k | k in Spans(w, s, from, glued) :: k >= from
    decreases |s| - from
  {
    var next := w.find(s, Skipped(s, from, glued));
    if next.Some? && Ahead(s, from, next.value) {
      SpansAreLater(w, s, next.value.close + 1, Glues(w.edit(s, next.value)));
    }
  }

  /** So which calls are rewritten, or declined, can be read off the text before anything is rewritten. */
  lemma TouchedAreSpans(w: Rewriting, s: string, name: string, build: Builder, j: nat)
    requires Rewrites(w, name, build)
    ensures StartsCall(Pieces(w, s, 0), j) <==> j in Spans(w, s, 0, false)
  {
    TouchedAreSpansFrom(w, s, 0, s, 0, false, name, build, j, j);
  }

  /** The nested call is not handled: whatever replaces the outer one is all that is done. */
  lemma NestedCallStays(w: Rewriting, build: Builder, replacement: string)
    requires Rewrites(w, "f", build) && build(["f(x)"]) == Some(replacement)
    ensures Rewrite(w, "f(f(x))", 0) == (replacement, 1)
  {
    NestedMove(w, "f(f(x))", build, replacement);
    NothingBehind(w, replacement, build);
  }

  lemma NestedMove(w: Rewriting, s: string, build: Builder, replacement: string)
    requires s == "f(f(x))" && Rewrites(w, "f", build) && build(["f(x)"]) == Some(replacement)
    ensures NextMove(w, s, 0) == Some(Move(Gap(""), Call(s, Some(replacement)), replacement, |replacement|))
  {
    var span := Span(0, 1, 6);
    NestedSpan(s);
    assert w.find(s, 0) == NextSpan(s, 0, "f");
    assert w.edit(s, span) == build(SpanArguments(s, span));
    NestedArguments(s, span);
    assert s[..0] == "" && s[0..7] == s && s[7..] == "" && Put(s, span, replacement) == replacement;
  }

  lemma NothingBehind(w: Rewriting, s: string, build: Builder)
    requires Rewrites(w, "f", build)
    ensures Rewrite(w, s, |s|) == (s, 0)
  {
    assert w.find(s, |s|) == NextSpan(s, |s|, "f") == None;
  }

  lemma NestedSpan(s: string)
    requires s == "f(f(x))"
    ensures NextSpan(s, 0, "f") == Some(Span(0, 1, 6))
  {
    assert CallAt(s, 0, "f") && OpenIndex(s, 0, "f") == 1;
    NestedCloses(s);
  }

  lemma NestedCloses(s: string)
    requires s == "f(f(x))"
    ensures CloseOf(s, 1, Outside) == Some(6)
  {
    assert CloseOf(s, 6, Nesting(1, None)) == Some(6);
    assert CloseOf(s, 5, Nesting(2, None)) == Some(6);
    assert CloseOf(s, 4, Nesting(2, None)) == Some(6);
    assert CloseOf(s, 3, Nesting(1, None)) == Some(6);
    assert CloseOf(s, 2, Nesting(1, None)) == Some(6);
  }

  lemma NestedArguments(s: string, span: Span)
    requires s == "f(f(x))" && span == Span(0, 1, 6)
    ensures SpanArguments(s, span) == ["f(x)"]
  {
    var a := "f(x)";
    assert s[2..6] == a;
    assert Segments(a, 4, 0, Outside) == [a[0..]] == [a];
    assert Segments(a, 3, 0, Nesting(1, None)) == [a];
    assert Segments(a, 2, 0, Nesting(1, None)) == [a];
    assert Segments(a, 1, 0, Outside) == [a];
    assert Segments(a, 0, 0, Outside) == [a];
    assert Trim(a) == a;
    assert TrimAll([a][..0]) + [a] == [a];
  }
}
