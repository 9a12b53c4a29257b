/**
 Literals come through the rewriting: their placeholders are never cut, so every pass changes the query, as it reads
 with its literals back in place, inside the words and calls it replaces and nowhere else.
 */
module LiteralsKept {
  import opened Decimal
  import opened LiteralMask
  import opened MysqlCompat
  import opened CompatPasses
  import opened Wrappers

  // ------------------------------------------------------------- whole placeholders

  /** The text consists of whole placeholders and characters other than their mark. */
  predicate Whole(t: string)
    decreases |t|
  {
    t == "" ||
    if t[0] != Mark then Whole(t[1..])
    else PlaceholderLength(t) > 0 && Whole(t[PlaceholderLength(t)..])
  }

  /** Position `j` of a whole text is in none of its placeholders. */
  predicate Boundary(t: string, j: nat)
    decreases |t|
  {
    j == 0 ||
    (t != "" &&
     if t[0] != Mark then Boundary(t[1..], j - 1)
     else var n := PlaceholderLength(t); 0 < n <= j && Boundary(t[n..], j - n))
  }

  /** How long a placeholder is depends on its own text alone. */
  lemma PlaceholderLengthOf(t: string, rest: string)
    requires PlaceholderLength(t) > 0
    ensures var n := PlaceholderLength(t);
      PlaceholderLength(t + rest) == n && PlaceholderLength(t[..n]) == n && DigitRun(t + rest, 2) == DigitRun(t, 2)
  {
    var e := DigitRun(t, 2);
    var d := t[2..e];
    assert t[2..] == d + t[e..] && (t + rest)[2..] == d + (t[e..] + rest) && t[..e + 1][2..] == d + [Mark];
    DigitRunOf(t + rest, 2, d, t[e..] + rest);
    DigitRunOf(t[..e + 1], 2, d, [Mark]);
  }

  lemma {:induction false} ResolveConcat(a: string, b: string, literals: seq<string>)
    requires Whole(a)
    ensures Resolve(a + b, literals) == Resolve(a, literals) + Resolve(b, literals)
    decreases |a|
  {
    if a == "" {
      assert a + b == b;
    } else if a[0] != Mark {
      assert (a + b)[1..] == a[1..] + b;
      ResolveConcat(a[1..], b, literals);
    } else {
      var n, e := PlaceholderLength(a), DigitRun(a, 2);
      PlaceholderLengthOf(a, b);
      assert (a + b)[n..] == a[n..] + b && (a + b)[..n] == a[..n] && (a + b)[2..e] == a[2..e];
      ResolveConcat(a[n..], b, literals);
    }
  }

  lemma {:induction false} JoinWhole(a: string, b: string)
    requires Whole(a) && Whole(b)
    ensures Whole(a + b)
    decreases |a|
  {
    if a == "" {
      assert a + b == b;
    } else if a[0] != Mark {
      assert (a + b)[1..] == a[1..] + b;
      JoinWhole(a[1..], b);
    } else {
      var n := PlaceholderLength(a);
      PlaceholderLengthOf(a, b);
      assert (a + b)[n..] == a[n..] + b;
      JoinWhole(a[n..], b);
    }
  }

  lemma {:induction false} SplitWhole(t: string, j: nat)
    requires Whole(t) && Boundary(t, j)
    ensures j <= |t| && Whole(t[..j]) && Whole(t[j..])
    decreases |t|
  {
    if j == 0 {
      assert t[..0] == "" && t[0..] == t;
    } else if t[0] != Mark {
      SplitWhole(t[1..], j - 1);
      assert t[..j][1..] == t[1..][..j - 1] && t[j..] == t[1..][j - 1..];
    } else {
      var n := PlaceholderLength(t);
      SplitWhole(t[n..], j - n);
      PlaceholderLengthOf(t, "");
      PlaceholderLengthOf(t[..n], t[n..j]);
      assert t[..j] == t[..n] + t[n..j] && t[n..j] == t[n..][..j - n] && t[j..] == t[n..][j - n..];
      assert t[..j][n..] == t[n..j];
    }
  }

  /** A character that no placeholder has. */
  predicate Foreign(c: char)
  {
    c != Mark && c != 'L' && !IsDigit(c)
  }

  lemma PlaceholderChars(t: string)
    ensures forall j | 0 <= j < PlaceholderLength(t) :: !Foreign(t[j])
  {
    forall j | 0 <= j < PlaceholderLength(t) ensures !Foreign(t[j]) {
      if j >= 2 && j < DigitRun(t, 2) {
        assert t[2..DigitRun(t, 2)][j - 2] == t[j] && t[j] in t[2..DigitRun(t, 2)];
      }
    }
  }

  lemma {:induction false} ForeignBoundary(t: string, j: nat)
    requires Whole(t) && j < |t| && Foreign(t[j])
    ensures Boundary(t, j) && Boundary(t, j + 1)
    decreases |t|
  {
    if t[0] != Mark {
      if j > 0 {
        ForeignBoundary(t[1..], j - 1);
      }
    } else {
      PlaceholderChars(t);
      ForeignBoundary(t[PlaceholderLength(t)..], j - PlaceholderLength(t));
    }
  }

  /** From a boundary on, text without marks leads to boundaries. */
  lemma {:induction false} MarklessBoundary(t: string, i: nat, j: nat)
    requires Whole(t) && Boundary(t, i) && i <= j <= |t| && forall k | i <= k < j :: t[k] != Mark
    ensures Boundary(t, j)
    decreases |t|
  {
    if j > 0 {
      if t[0] != Mark {
        if i > 0 {
          MarklessBoundary(t[1..], i - 1, j - 1);
        } else {
          MarklessBoundary(t[1..], 0, j - 1);
        }
      } else {
        var n := PlaceholderLength(t);
        assert i > 0;
        MarklessBoundary(t[n..], i - n, j - n);
      }
    }
  }

  /** What the mask makes of a text without marks is whole. */
  lemma {:induction false} MaskIsWhole(s: string, i: nat, k: nat)
    requires i <= |s| && Mark !in s
    ensures Whole(Mask(s, i, k).0)
    decreases |s| - i
  {
    if i < |s| {
      if LiteralAt(s, i) {
        var e := LiteralEnd(s, i + 1).value;
        MaskIsWhole(s, e, k + 1);
        var rest := Mask(s, e, k + 1).0;
        PlaceholderLengthIs(k, rest);
        assert (Placeholder(k) + rest)[|Placeholder(k)|..] == rest;
      } else {
        MaskIsWhole(s, i + 1, k);
        assert s[i] in s && ([s[i]] + Mask(s, i + 1, k).0)[1..] == Mask(s, i + 1, k).0;
      }
    }
  }

  /** Cut outside its placeholders, a whole text is two. */
  lemma HalvesWhole(s: string, from: nat, i: nat)
    requires from <= i <= |s| && Whole(s[from..]) && Boundary(s[from..], i - from)
    ensures Whole(s[from..i]) && Whole(s[i..])
  {
    SplitWhole(s[from..], i - from);
    assert s[from..][..i - from] == s[from..i] && s[from..][i - from..] == s[i..];
  }

  lemma {:induction false} BoundaryInSuffix(t: string, i: nat, j: nat)
    requires Boundary(t, i) && Boundary(t, j) && i <= j && i <= |t|
    ensures Boundary(t[i..], j - i)
    decreases |t|
  {
    if i == 0 {
      assert t[0..] == t;
    } else if t[0] != Mark {
      BoundaryInSuffix(t[1..], i - 1, j - 1);
      assert t[i..] == t[1..][i - 1..];
    } else {
      var n := PlaceholderLength(t);
      BoundaryInSuffix(t[n..], i - n, j - n);
      assert t[i..] == t[n..][i - n..];
    }
  }

  /** And between two such positions it is whole too. */
  lemma CutWhole(s: string, from: nat, i: nat, j: nat)
    requires from <= i <= j <= |s| && Whole(s[from..]) && Boundary(s[from..], i - from) && Boundary(s[from..], j - from)
    ensures Whole(s[from..i]) && Whole(s[i..j]) && Whole(s[j..])
  {
    HalvesWhole(s, from, i);
    LaterBoundary(s, from, i, j);
    HalvesWhole(s, i, j);
  }

  lemma LaterBoundary(s: string, from: nat, i: nat, j: nat)
    requires from <= i <= j <= |s| && Boundary(s[from..], i - from) && Boundary(s[from..], j - from)
    ensures Boundary(s[i..], j - i)
  {
    BoundaryInSuffix(s[from..], i - from, j - from);
    assert s[from..][i - from..] == s[i..];
  }

  lemma ForeignAt(s: string, from: nat, i: nat)
    requires from <= i < |s| && Whole(s[from..]) && Foreign(s[i])
    ensures Boundary(s[from..], i - from) && Boundary(s[from..], i + 1 - from)
  {
    assert s[from..][i - from] == s[i];
    ForeignBoundary(s[from..], i - from);
  }

  /** Before a foreign character, and behind it, a whole text can be cut. */
  lemma CutBefore(s: string, from: nat, i: nat)
    requires from <= i < |s| && Whole(s[from..]) && Foreign(s[i])
    ensures Whole(s[from..i]) && Whole(s[i..])
  {
    ForeignAt(s, from, i);
    HalvesWhole(s, from, i);
  }

  lemma CutBehind(s: string, from: nat, i: nat)
    requires from <= i < |s| && Whole(s[from..]) && Foreign(s[i])
    ensures Whole(s[from..i + 1]) && Whole(s[i + 1..])
  {
    ForeignAt(s, from, i);
    HalvesWhole(s, from, i + 1);
  }

  // ---------------------------------------------------------------- arguments

  lemma {:induction false} TrimIsWhole(s: string)
    requires Whole(s)
    ensures Whole(Trim(s))
    decreases |s|
  {
    if s != "" && IsSpace(s[0]) {
      TrimIsWhole(s[1..]);
    } else if s != "" && IsSpace(s[|s| - 1]) {
      ForeignBoundary(s, |s| - 1);
      SplitWhole(s, |s| - 1);
      TrimIsWhole(s[..|s| - 1]);
    }
  }

  lemma {:induction false} SegmentsWhole(s: string, i: nat, start: nat, n: Nesting)
    requires start <= i <= |s| && Whole(s[start..])
    ensures forall seg | seg in Segments(s, i, start, n) :: Whole(seg)
    decreases |s| - i
  {
    if i < |s| {
      if Cuts(s, i, n) {
        CutBefore(s, start, i);
        CutBehind(s, start, i);
        SegmentsWhole(s, i + 1, i + 1, n);
      } else {
        SegmentsWhole(s, i + 1, start, Enter(s, i, n));
      }
    }
  }

  lemma ArgumentsWhole(t: string)
    requires Whole(t)
    ensures forall a | a in Arguments(Segments(t, 0, 0, Outside)) :: Whole(a)
  {
    var segments := Segments(t, 0, 0, Outside);
    assert t[0..] == t;
    SegmentsWhole(t, 0, 0, Outside);
    forall seg | seg in segments ensures Whole(Trim(seg)) {
      TrimIsWhole(seg);
    }
    TrimmedWhole(segments);
  }

  lemma TrimmedWhole(segments: seq<string>)
    requires segments != [] && forall seg | seg in segments :: Whole(Trim(seg))
    ensures forall a | a in Arguments(segments) :: Whole(a)
  {
    var front := TrimAll(segments[..|segments| - 1]);
    forall a | a in front ensures Whole(a) {
      var k :| 0 <= k < |front| && front[k] == a;
      assert segments[k] in segments;
    }
    assert segments[|segments| - 1] in segments;
  }

  // ------------------------------------------------------------------- call passes

  /** No name found in a text can start inside a placeholder. */
  predicate Recognizable(name: string)
  {
    name != "" && Foreign(name[0]) && name[0] != 'l'
  }

  ghost predicate WholePiece(p: Piece)
  {
    Whole(p.text) && Whole(p.Result())
  }

  lemma NameStartsForeign(s: string, i: nat, name: string)
    requires Recognizable(name) && NameAt(s, i, name)
    ensures i < |s| && Foreign(s[i])
  {
    assert Lower(s[i + 0]) == Lower(name[0]);
  }

  /** No placeholder is cut where a call starts, where its arguments do, or where it ends. */
  lemma SpanCuts(s: string, from: nat, span: Span)
    requires from <= span.start <= span.open < span.close < |s| && Whole(s[from..])
    requires Foreign(s[span.start]) && s[span.open] == '(' && s[span.close] == ')'
    ensures Whole(s[from..span.start]) && Whole(s[span.start..span.close + 1]) && Whole(s[span.close + 1..])
    ensures Whole(s[span.open + 1..span.close])
  {
    CutBefore(s, from, span.start);
    CutBehind(s, span.start, span.close);
    BetweenIsWhole(s, span.start, span.open, span.close);
  }

  lemma BetweenIsWhole(s: string, from: nat, i: nat, j: nat)
    requires from <= i < j < |s| && Whole(s[from..]) && Foreign(s[i]) && Foreign(s[j])
    ensures Whole(s[i + 1..j])
  {
    CutBehind(s, from, i);
    CutBefore(s, i + 1, j);
  }

  /** The call the rewriting comes to is cut out of the text without cutting a placeholder. */
  lemma SpanIsWhole(s: string, from: nat, name: string) returns (span: Span)
    requires from <= |s| && Recognizable(name) && Whole(s[from..]) && NextSpan(s, from, name).Some?
    ensures NextSpan(s, from, name) == Some(span) && Ahead(s, from, span)
    ensures Whole(s[from..span.start]) && Whole(s[span.start..span.close + 1]) && Whole(s[span.close + 1..])
    ensures Whole(s[span.open + 1..span.close])
  {
    span := NextSpan(s, from, name).value;
    NameStartsForeign(s, span.start, name);
    SpanCuts(s, from, span);
  }

  lemma MoveRest(w: Rewriting, s: string, from: nat, span: Span)
    requires from <= |s| && w.find(s, from) == Some(span) && Ahead(s, from, span)
    ensures var m := NextMove(w, s, from).value;
      && m.gap == Gap(s[from..span.start]) && m.call == Call(s[span.start..span.close + 1], w.edit(s, span))
      && m.text[m.from..] == s[span.close + 1..]
  {
  }

  /** What the calls are replaced by is whole, where this text has calls to replace. */
  ghost predicate EditsWhole(w: Rewriting, s: string, from: nat)
    requires from <= |s|
  {
    forall p | p in Pieces(w, s, from) && p.Call? && p.replacement.Some? :: Whole(p.replacement.value)
  }

  /** The pieces of a whole text are whole. */
  lemma {:induction false} PieceTextsAreWhole(w: Rewriting, s: string, from: nat, name: string, build: Builder)
    requires from <= |s| && Rewrites(w, name, build) && Recognizable(name) && Whole(s[from..])
    ensures forall p | p in Pieces(w, s, from) :: Whole(p.text)
    decreases |s| - from
  {
    assert w.find(s, from) == NextSpan(s, from, name);
    if NextMove(w, s, from).Some? {
      var m := NextMove(w, s, from).value;
      var span := SpanIsWhole(s, from, name);
      MoveRest(w, s, from, span);
      PieceTextsAreWhole(w, m.text, m.from, name, build);
    }
  }

  /** So a call pass cuts a placeholder only by what it puts in place of a call. */
  lemma PiecesAreWholeIff(w: Rewriting, s: string, from: nat, name: string, build: Builder)
    requires from <= |s| && Rewrites(w, name, build) && Recognizable(name) && Whole(s[from..])
    ensures (forall p | p in Pieces(w, s, from) :: WholePiece(p)) <==> EditsWhole(w, s, from)
  {
    PieceTextsAreWhole(w, s, from, name, build);
    if EditsWhole(w, s, from) {
      forall p | p in Pieces(w, s, from) ensures WholePiece(p) {
      }
    } else {
      var p :| p in Pieces(w, s, from) && p.Call? && p.replacement.Some? && !Whole(p.replacement.value);
      assert !WholePiece(p);
    }
  }

  ghost predicate AllWhole(args: seq<string>)
  {
    forall a | a in args :: Whole(a)
  }

  lemma CallArgumentsWhole(text: string, name: string)
    requires Whole(text) && IsCall(text, name)
    ensures AllWhole(CallArguments(text, name))
  {
    var open := OpenIndex(text, 0, name);
    assert text[0..] == text && text[open] == '(' && text[|text| - 1] == ')';
    BetweenIsWhole(text, 0, open, |text| - 1);
    ArgumentsWhole(text[open + 1..|text| - 1]);
  }

  /** The builder keeps the placeholders whole that its arguments bring along. */
  ghost predicate KeepsWhole(build: Builder)
  {
    forall args {:trigger build(args)} | AllWhole(args) && build(args).Some? :: Whole(build(args).value)
  }

  /** Such a builder cuts no placeholder in any text. */
  lemma KeptEdits(w: Rewriting, s: string, from: nat, name: string, build: Builder)
    requires from <= |s| && Rewrites(w, name, build) && Recognizable(name) && Whole(s[from..]) && KeepsWhole(build)
    ensures EditsWhole(w, s, from)
  {
    PieceTextsAreWhole(w, s, from, name, build);
    PiecesAreFaithful(w, s, from, name, build);
    forall p | p in Pieces(w, s, from) && p.Call? && p.replacement.Some? ensures Whole(p.replacement.value) {
      assert Faithful(p, name, build);
      CallArgumentsWhole(p.text, name);
    }
  }

  // ------------------------------------------------------------------- word passes

  /** A word pass in pieces, with the gap before `i` from `start` on: each word it replaces is one. */
  function WordPieces(k: Keyword, s: string, start: nat, i: nat): seq<Piece>
    requires start <= i <= |s|
    decreases |s| - i
  {
    if i == |s| then [Gap(s[start..])]
    else if WordEnd(k, s, i).Some? then
      var e := WordEnd(k, s, i).value;
      [Gap(s[start..i]), Call(s[i..e], Some(k.replacement))] + WordPieces(k, s, e, e)
    else WordPieces(k, s, start, i + 1)
  }

  lemma TwoPieces(g: Piece, c: Piece, rest: seq<Piece>)
    ensures Original([g, c] + rest) == g.text + c.text + Original(rest)
    ensures Rewritten([g, c] + rest) == g.Result() + c.Result() + Rewritten(rest)
  {
    assert ([g, c] + rest)[1..] == [c] + rest && ([c] + rest)[1..] == rest;
  }

  lemma SliceInThree(s: string, start: nat, i: nat, e: nat)
    requires start <= i <= e <= |s|
    ensures s[start..i] + s[i..e] + s[e..] == s[start..]
  {
  }

  lemma NothingBetween(a: string, b: string, s: string, e: nat, c: string)
    requires e <= |s|
    ensures a + b + (s[e..e] + c) == a + (b + c)
  {
  }

  lemma OneMore(s: string, start: nat, i: nat, rest: string)
    requires start <= i < |s|
    ensures s[start..i + 1] + rest == s[start..i] + ([s[i]] + rest)
  {
  }

  ghost predicate AreText(k: Keyword, s: string, start: nat, i: nat)
    requires start <= i <= |s|
  {
    && Original(WordPieces(k, s, start, i)) == s[start..]
    && Rewritten(WordPieces(k, s, start, i)) == s[start..i] + ReplaceWords(k, s, i).0
  }

  lemma LastGapIsText(k: Keyword, s: string, start: nat)
    requires start <= |s|
    ensures AreText(k, s, start, |s|)
  {
    assert [Gap(s[start..])][1..] == [];
    assert s[start..|s|] + "" == s[start..] == s[start..] + "";
  }

  lemma WordIsText(k: Keyword, s: string, start: nat, i: nat, e: nat)
    requires start <= i < e <= |s| && WordEnd(k, s, i) == Some(e) && AreText(k, s, e, e)
    ensures AreText(k, s, start, i)
  {
    var rest := WordPieces(k, s, e, e);
    TwoPieces(Gap(s[start..i]), Call(s[i..e], Some(k.replacement)), rest);
    SliceInThree(s, start, i, e);
    NothingBetween(s[start..i], k.replacement, s, e, ReplaceWords(k, s, e).0);
  }

  lemma LetterIsText(k: Keyword, s: string, start: nat, i: nat)
    requires start <= i < |s| && WordEnd(k, s, i).None? && AreText(k, s, start, i + 1)
    ensures AreText(k, s, start, i)
  {
    OneMore(s, start, i, ReplaceWords(k, s, i + 1).0);
  }

  lemma {:induction false} WordPiecesAreText(k: Keyword, s: string, start: nat, i: nat)
    requires start <= i <= |s|
    ensures AreText(k, s, start, i)
    decreases |s| - i
  {
    if i == |s| {
      LastGapIsText(k, s, start);
    } else if WordEnd(k, s, i).Some? {
      var e := WordEnd(k, s, i).value;
      WordPiecesAreText(k, s, e, e);
      WordIsText(k, s, start, i, e);
    } else {
      WordPiecesAreText(k, s, start, i + 1);
      LetterIsText(k, s, start, i);
    }
  }

  predicate KeepsWords(k: Keyword)
  {
    Recognizable(k.word) && Mark !in k.word && Whole(k.replacement)
  }

  lemma NameIsMarkless(s: string, start: nat, i: nat, name: string)
    requires start <= i && NameAt(s, i, name) && Mark !in name
    ensures forall j | i - start <= j < i + |name| - start :: s[start..][j] != Mark
  {
    forall j | i - start <= j < i + |name| - start ensures s[start..][j] != Mark {
      var k := start + j - i;
      assert Lower(s[i + k]) == Lower(name[k]) && name[k] in name;
    }
  }

  /** No placeholder is cut where a word starts, or where it ends. */
  lemma WordCuts(k: Keyword, s: string, start: nat, i: nat)
    requires start <= i < |s| && KeepsWords(k) && Whole(s[start..]) && WordEnd(k, s, i).Some?
    ensures var e := WordEnd(k, s, i).value;
      Whole(s[start..i]) && Whole(s[i..e]) && Whole(s[e..])
  {
    var e := WordEnd(k, s, i).value;
    NameStartsForeign(s, i, k.word);
    ForeignAt(s, start, i);
    match k
    case Called(word, _) =>
      ForeignAt(s, start, e - 1);
      CutWhole(s, start, i, e);
    case Bare(word, _) =>
      NameIsMarkless(s, start, i, word);
      MarklessBoundary(s[start..], i - start, e - start);
      CutWhole(s, start, i, e);
  }

  lemma {:induction false} WordPiecesAreWhole(k: Keyword, s: string, start: nat, i: nat)
    requires start <= i <= |s| && KeepsWords(k) && Whole(s[start..])
    ensures forall p | p in WordPieces(k, s, start, i) :: WholePiece(p)
    decreases |s| - i
  {
    if i < |s| {
      if WordEnd(k, s, i).Some? {
        WordCuts(k, s, start, i);
        WordPiecesAreWhole(k, s, WordEnd(k, s, i).value, WordEnd(k, s, i).value);
      } else {
        WordPiecesAreWhole(k, s, start, i + 1);
      }
    }
  }

  // -------------------------------------------------------------------- all passes

  /** A piece as it reads with the literals back in place. */
  function Restored(p: Piece, literals: seq<string>): Piece
  {
    match p
    case Gap(text) => Gap(Resolve(text, literals))
    case Call(text, replacement) =>
      Call(Resolve(text, literals), if replacement.None? then None else Some(Resolve(replacement.value, literals)))
  }

  function RestoredAll(ps: seq<Piece>, literals: seq<string>): seq<Piece>
  {
    if ps == [] then [] else [Restored(ps[0], literals)] + RestoredAll(ps[1..], literals)
  }

  /** Restoring the literals of whole pieces piece by piece restores them all. */
  lemma {:induction false} RestoredPiecewise(ps: seq<Piece>, literals: seq<string>)
    requires forall p | p in ps :: WholePiece(p)
    ensures Original(RestoredAll(ps, literals)) == Resolve(Original(ps), literals)
    ensures Rewritten(RestoredAll(ps, literals)) == Resolve(Rewritten(ps), literals)
    ensures Whole(Rewritten(ps))
  {
    if ps != [] {
      RestoredPiecewise(ps[1..], literals);
      assert RestoredAll(ps, literals)[1..] == RestoredAll(ps[1..], literals);
      assert WholePiece(ps[0]);
      ResolveConcat(ps[0].text, Original(ps[1..]), literals);
      ResolveConcat(ps[0].Result(), Rewritten(ps[1..]), literals);
      JoinWhole(ps[0].Result(), Rewritten(ps[1..]));
    }
  }

  /** The pass cuts no placeholder in this text. */
  ghost predicate PassesWhole(p: Pass, w: Rewriting, text: string)
  {
    match p
    case Words(_, keyword) => KeepsWords(keyword)
    case Calls(_, name, _) => Recognizable(name) && EditsWhole(w, text, 0)
  }

  function PassPieces(p: Pass, w: Rewriting, text: string): seq<Piece>
  {
    match p
    case Words(_, keyword) => WordPieces(keyword, text, 0, 0)
    case Calls(_, _, _) => Pieces(w, text, 0)
  }

  lemma PassPiecesAre(p: Pass, w: Rewriting, text: string, literals: seq<string>)
    requires Whole(text) && PassesWhole(p, w, text) && (p.Calls? ==> Rewrites(w, p.name, p.build(literals)))
    ensures var ps := PassPieces(p, w, text);
      && Original(ps) == text && Rewritten(ps) == RunPass(p, w, text).0
      && forall q | q in ps :: WholePiece(q)
  {
    assert text[0..] == text && text[..0] == "";
    match p
    case Words(_, keyword) =>
      WordPiecesAreText(keyword, text, 0, 0);
      WordPiecesAreWhole(keyword, text, 0, 0);
      assert text[0..0] + ReplaceWords(keyword, text, 0).0 == ReplaceWords(keyword, text, 0).0;
    case Calls(_, name, build) =>
      PiecesAreText(w, text, 0);
      RewriteIsPiecewise(w, text, 0);
      PiecesAreWholeIff(w, text, 0, name, build(literals));
      assert "" + Rewritten(Pieces(w, text, 0)) == Rewritten(Pieces(w, text, 0));
  }

  /** `ps` leads from `before` to `after`: they differ in the calls and words replaced, and nowhere else. */
  ghost predicate Changes(before: string, ps: seq<Piece>, after: string)
  {
    Original(ps) == before && Rewritten(ps) == after
  }

  /**
   One pass over a whole text: with its literals restored, the query changes inside the words and calls the pass
   replaces; every literal outside them is as it was, and one inside is as the builder made use of it.
   */
  lemma PassKeepsLiterals(p: Pass, w: Rewriting, text: string, literals: seq<string>)
    requires Whole(text) && PassesWhole(p, w, text) && (p.Calls? ==> Rewrites(w, p.name, p.build(literals)))
    ensures var after := RunPass(p, w, text).0;
      Whole(after) && Changes(Resolve(text, literals), RestoredAll(PassPieces(p, w, text), literals),
                              Resolve(after, literals))
  {
    PassPiecesAre(p, w, text, literals);
    RestoredPiecewise(PassPieces(p, w, text), literals);
  }

  /** The query after the first `n` passes, with its literals restored. */
  function Query(sql: string, passes: seq<Pass>, ws: seq<Rewriting>, n: nat): string
    requires n <= |passes| == |ws|
  {
    Resolve(RunPasses(passes, ws, Mask(sql, 0, 0).0, n).0, Mask(sql, 0, 0).1)
  }

  lemma UnfoundIsUnchanged(p: Pass, w: Rewriting, text: string)
    requires !RunPass(p, w, text).1
    ensures RunPass(p, w, text).0 == text
  {
    match p
    case Words(_, _) => assert text[0..] == text;
    case Calls(_, _, _) => NothingRewritten(w, text, 0);
  }

  /** The text that pass `k` gets. */
  function Seen(sql: string, passes: seq<Pass>, ws: seq<Rewriting>, k: nat): string
    requires k <= |passes| == |ws|
  {
    RunPasses(passes, ws, Mask(sql, 0, 0).0, k).0
  }

  lemma SeenStep(sql: string, passes: seq<Pass>, ws: seq<Rewriting>, k: nat)
    requires Prepared(passes, Mask(sql, 0, 0).1, ws) && k < |passes|
    requires Whole(Seen(sql, passes, ws, k)) && PassesWhole(passes[k], ws[k], Seen(sql, passes, ws, k))
    ensures Whole(Seen(sql, passes, ws, k + 1))
  {
    var before := Seen(sql, passes, ws, k);
    PassKeepsLiterals(passes[k], ws[k], before, Mask(sql, 0, 0).1);
    if !RunPass(passes[k], ws[k], before).1 {
      UnfoundIsUnchanged(passes[k], ws[k], before);
    }
  }

  /** Pass `k` cuts no placeholder of the text it gets, if that is whole. */
  ghost predicate CutsNone(sql: string, passes: seq<Pass>, ws: seq<Rewriting>, k: nat)
    requires k < |passes| == |ws|
  {
    Whole(Seen(sql, passes, ws, k)) ==> PassesWhole(passes[k], ws[k], Seen(sql, passes, ws, k))
  }

  lemma {:induction false} PassesStayWhole(sql: string, passes: seq<Pass>, ws: seq<Rewriting>, n: nat)
    requires Mark !in sql && Prepared(passes, Mask(sql, 0, 0).1, ws) && n <= |passes|
    requires forall k | 0 <= k < n :: CutsNone(sql, passes, ws, k)
    ensures Whole(Seen(sql, passes, ws, n))
  {
    if n == 0 {
      MaskIsWhole(sql, 0, 0);
    } else {
      PassesStayWhole(sql, passes, ws, n - 1);
      assert CutsNone(sql, passes, ws, n - 1);
      SeenStep(sql, passes, ws, n - 1);
    }
  }

  /** Pass `k` changes the query, as it reads with its literals, inside the words and calls it replaces only. */
  ghost predicate ComesThrough(sql: string, passes: seq<Pass>, ws: seq<Rewriting>, k: nat)
    requires k < |passes| == |ws|
  {
    var ps := PassPieces(passes[k], ws[k], Seen(sql, passes, ws, k));
    && (forall p | p in ps :: WholePiece(p))
    && Changes(Query(sql, passes, ws, k), RestoredAll(ps, Mask(sql, 0, 0).1), Query(sql, passes, ws, k + 1))
  }

  /**
   The literals of a text without U+0001 come through every pass up to which none has cut a placeholder: it changes the
   query inside the words and calls it replaces and nowhere else.
   */
  lemma LiteralsComeThrough(sql: string, passes: seq<Pass>, ws: seq<Rewriting>, k: nat)
    requires Mark !in sql && Prepared(passes, Mask(sql, 0, 0).1, ws) && k < |passes|
    requires forall j | 0 <= j <= k :: CutsNone(sql, passes, ws, j)
    ensures ComesThrough(sql, passes, ws, k)
  {
    var before := Seen(sql, passes, ws, k);
    PassesStayWhole(sql, passes, ws, k);
    assert CutsNone(sql, passes, ws, k);
    PassPiecesAre(passes[k], ws[k], before, Mask(sql, 0, 0).1);
    PassKeepsLiterals(passes[k], ws[k], before, Mask(sql, 0, 0).1);
    if !RunPass(passes[k], ws[k], before).1 {
      UnfoundIsUnchanged(passes[k], ws[k], before);
    }
  }

  /** The first query is the text itself, the last one the result. */
  lemma QueryEnds(sql: string, passes: seq<Pass>, ws: seq<Rewriting>)
    requires Mark !in sql && |ws| == |passes|
    ensures Query(sql, passes, ws, 0) == sql && Query(sql, passes, ws, |passes|) == Compat(sql, passes, ws).0
  {
    MaskRoundTrip(sql);
  }
}
