/**
 The passes as they are: each builder but one keeps the placeholders of its arguments whole, so the literals of a query
 come through exactly when that one, for TIMESTAMPDIFF, is given none in its unit.
 */
module CompatLiterals {
  import opened Decimal
  import opened LiteralMask
  import opened MysqlCompat
  import opened CompatPasses
  import opened CompatBuilders
  import opened LiteralsKept
  import opened Wrappers

  // ------------------------------------------------------------------ the builders

  lemma {:induction false} MarklessIsWhole(t: string)
    requires Mark !in t
    ensures Whole(t)
  {
    if t != "" {
      assert t[0] in t;
      MarklessIsWhole(t[1..]);
    }
  }

  lemma {:induction false} TextIsWhole(parts: seq<string>)
    requires AllWhole(parts)
    ensures Whole(Text(parts))
  {
    if parts != [] {
      assert parts[0] in parts;
      TextIsWhole(parts[1..]);
      JoinWhole(parts[0], Text(parts[1..]));
    }
  }

  lemma FiveAreWhole(a: string, b: string, c: string, d: string, e: string)
    requires Mark !in a && Whole(b) && Mark !in c && Whole(d) && Mark !in e
    ensures Whole(Text([a, b, c, d, e]))
  {
    MarklessIsWhole(a);
    MarklessIsWhole(c);
    MarklessIsWhole(e);
    TextIsWhole([a, b, c, d, e]);
  }

  lemma CoercedIsWhole(arg: string)
    requires Whole(arg)
    ensures Whole(Coerce(arg))
  {
    var t := Trim(arg);
    TrimIsWhole(arg);
    MarklessIsWhole("parseDateTimeBestEffort(");
    MarklessIsWhole(")");
    JoinWhole("parseDateTimeBestEffort(", t);
    JoinWhole("parseDateTimeBestEffort(" + t, ")");
  }

  lemma DateDiffKeeps()
    ensures KeepsWhole(DateDiff)
  {
    forall args | AllWhole(args) && DateDiff(args).Some? ensures Whole(DateDiff(args).value) {
      CoercedIsWhole(args[0]);
      CoercedIsWhole(args[1]);
      FiveAreWhole("dateDiff('day', ", Coerce(args[1]), ", ", Coerce(args[0]), ")");
    }
  }

  lemma ZoneIsMarkless(raw: string)
    requires IsZone(raw)
    ensures Mark !in raw
  {
    var i: nat :| i < |raw| && IsZoneAt(raw, i);
    forall j | 0 <= j < |raw| ensures raw[j] != Mark {
    }
  }

  lemma PrintIsMarkless(n: nat)
    ensures Mark !in Print(n)
  {
    assert AllDigits(Print(n));
  }

  lemma ShiftIsWhole(arg: string, sign: string, n: nat)
    requires Whole(arg) && (sign == " + INTERVAL " || sign == " - INTERVAL ")
    ensures Whole(Text(["(", arg, sign, Print(n), " MINUTE)"]))
  {
    PrintIsMarkless(n);
    MarklessIsWhole(Print(n));
    FiveAreWhole("(", arg, sign, Print(n), " MINUTE)");
  }

  lemma ConvertTzKeeps(literals: seq<string>, args: seq<string>)
    requires AllWhole(args) && ConvertTz(literals, args).Some?
    ensures Whole(ConvertTz(literals, args).value)
  {
    assert args[0] in args;
    match ParseTimezoneTarget(Resolve(args[2], literals))
    case Some(Zone(name)) =>
      ZoneIsMarkless(name);
      MarklessIsWhole(name);
      FiveAreWhole("toTimeZone(", args[0], ", '", name, "')");
    case Some(OffsetMinutes(minutes)) =>
      if minutes > 0 {
        ShiftIsWhole(args[0], " + INTERVAL ", minutes);
      } else if minutes < 0 {
        ShiftIsWhole(args[0], " - INTERVAL ", -minutes);
      }
  }

  lemma WrapIsWhole(before: string, arg: string, after: string)
    requires Mark !in before && Whole(arg) && Mark !in after
    ensures Whole(Text([before, arg, after]))
  {
    MarklessIsWhole(before);
    MarklessIsWhole(after);
    TextIsWhole([before, arg, after]);
  }

  lemma WeekdayKeeps()
    ensures KeepsWhole(Weekday)
  {
    forall args | AllWhole(args) && Weekday(args).Some? ensures Whole(Weekday(args).value) {
      WrapIsWhole("(toDayOfWeek(", args[0], ") - 1)");
    }
  }

  lemma DayNameKeeps()
    ensures KeepsWhole(DayName)
  {
    forall args | AllWhole(args) && DayName(args).Some? ensures Whole(DayName(args).value) {
      WrapIsWhole("dateName('weekday', ", args[0], ")");
    }
  }

  lemma {:induction false} JoinedAreWhole(segments: seq<string>)
    requires segments != [] && AllWhole(segments)
    ensures Whole(JoinWith(segments, ", "))
  {
    assert segments[0] in segments;
    if |segments| > 1 {
      JoinedAreWhole(segments[1..]);
      MarklessIsWhole(", ");
      JoinWhole(segments[0], ", ");
      JoinWhole(segments[0] + ", ", JoinWith(segments[1..], ", "));
    }
  }

  lemma FieldKeeps()
    ensures KeepsWhole(Field)
  {
    forall args | AllWhole(args) && Field(args).Some? ensures Whole(Field(args).value) {
      JoinedAreWhole(args[1..]);
      FiveAreWhole("indexOf([", JoinWith(args[1..], ", "), "], ", args[0], ")");
    }
  }

  /** What stands before white space, and what between white space, is whole. */
  lemma CutAtSpaces(s: string, i: nat, k: nat, e: nat)
    requires Whole(s) && i < |s| && IsSpace(s[i]) && 0 < k <= e <= |s| && IsSpace(s[k - 1])
    requires e < |s| ==> IsSpace(s[e])
    ensures Whole(Trim(s[..i])) && Whole(Trim(s[k..e]))
  {
    assert s[0..] == s && s[0..i] == s[..i];
    CutBefore(s, 0, i);
    TrimIsWhole(s[..i]);
    CutBehind(s, 0, k - 1);
    if e < |s| {
      CutBefore(s, k, e);
    } else {
      assert s[k..e] == s[k..];
    }
    TrimIsWhole(s[k..e]);
  }

  lemma SeparatedIsWhole(s: string, i: nat)
    requires Whole(s) && i <= |s| && SeparatorAt(s, i).Some?
    ensures var (k, e) := SeparatorAt(s, i).value; Whole(Trim(s[..i])) && Whole(Trim(s[k..e]))
  {
    var span := SeparatorAt(s, i).value;
    CutAtSpaces(s, i, span.0, span.1);
  }

  lemma GroupConcatKeeps()
    ensures KeepsWhole(GroupConcat)
  {
    forall args | AllWhole(args) && GroupConcat(args).Some? ensures Whole(GroupConcat(args).value) {
      var s := args[0];
      var i := FindSeparator(s, 0).value;
      SeparatedIsWhole(s, i);
      var (k, e) := SeparatorAt(s, i).value;
      FiveAreWhole("arrayStringConcat(groupArray(", Trim(s[..i]), "), ", Trim(s[k..e]), ")");
    }
  }

  lemma CastIsWhole(name: string, a: string)
    requires Mark !in name && Whole(a)
    ensures Whole(Text([name, "(floor(toFloat64(", a, ") + 0.5))"]))
  {
    MarklessIsWhole(name);
    MarklessIsWhole("(floor(toFloat64(");
    MarklessIsWhole(") + 0.5))");
    TextIsWhole([name, "(floor(toFloat64(", a, ") + 0.5))"]);
  }

  lemma TypedIsWhole(s: string, i: nat)
    requires Whole(s) && i <= |s| && IntegerTypeAt(s, i).Some?
    ensures Whole(Trim(s[..i]))
  {
    CutAtSpaces(s, i, i + 1, |s|);
  }

  lemma CastKeeps()
    ensures KeepsWhole(Cast)
  {
    forall args | AllWhole(args) && Cast(args).Some? ensures Whole(Cast(args).value) {
      var s := args[0];
      var i := FindIntegerType(s, 1).value;
      TypedIsWhole(s, i);
      CastIsWhole(if IntegerTypeAt(s, i).value then "toUInt64" else "toInt64", Trim(s[..i]));
    }
  }

  lemma ExtractedIsWhole(s: string)
    requires Whole(s) && ExtractArguments(s).Some?
    ensures AllWhole(ExtractArguments(s).value)
  {
    var open := SkipSpace(s, 12);
    assert s[0..] == s;
    BetweenIsWhole(s, 0, open, |s| - 1);
    ArgumentsWhole(s[open + 1..|s| - 1]);
  }

  lemma JsonUnquoteKeeps()
    ensures KeepsWhole(JsonUnquote)
  {
    forall args | AllWhole(args) && JsonUnquote(args).Some? ensures Whole(JsonUnquote(args).value) {
      ExtractedIsWhole(args[0]);
      var inner := ExtractArguments(args[0]).value;
      FiveAreWhole("JSON_VALUE(", inner[0], ", ", inner[1], ")");
    }
  }

  // ------------------------------------------------------- the builder that cuts one

  lemma {:induction false} WholeBehind(a: string, b: string)
    requires Mark !in a
    ensures Whole(a + b) <==> Whole(b)
  {
    if a == "" {
      assert a + b == b;
    } else {
      assert a[0] in a && (a + b)[1..] == a[1..] + b;
      WholeBehind(a[1..], b);
    }
  }

  lemma {:induction false} LoweringCuts(u: string, rest: string)
    requires Whole(u) && Mark in u
    ensures !Whole(Lowered(u) + rest)
    decreases |u|
  {
    var t := Lowered(u) + rest;
    assert t[0] == Lower(u[0]);
    if u[0] != Mark {
      assert t[1..] == Lowered(u[1..]) + rest;
      LoweringCuts(u[1..], rest);
    } else {
      assert t[1] == Lower(u[1]) == 'l';
    }
  }

  lemma UnquotedIsWhole(value: string)
    requires Whole(value)
    ensures Whole(Unquote(value))
  {
    var t := Trim(value);
    TrimIsWhole(value);
    if |t| > 1 && (t[0] == '\'' || t[0] == '\"') && t[|t| - 1] == t[0] {
      assert t[0..] == t;
      BetweenIsWhole(t, 0, 0, |t| - 1);
    }
  }

  /** It keeps its placeholders whole exactly when its unit brings none along: lower-casing cuts one. */
  lemma TimestampDiffKeepsIff(args: seq<string>)
    requires |args| == 3 && AllWhole(args)
    ensures Whole(TimestampDiff(args).value) <==> Mark !in Unquote(args[0])
  {
    var u, rest := Unquote(args[0]), ["', ", Coerce(args[1]), ", ", Coerce(args[2]), ")"];
    assert args[0] in args && args[1] in args && args[2] in args;
    UnquotedIsWhole(args[0]);
    CoercedIsWhole(args[1]);
    CoercedIsWhole(args[2]);
    MarklessIsWhole("', ");
    MarklessIsWhole(", ");
    MarklessIsWhole(")");
    TextIsWhole(rest);
    assert ["age('", Lowered(u)] + rest == ["age('", Lowered(u), "', ", Coerce(args[1]), ", ", Coerce(args[2]), ")"];
    TwoParts("age('", Lowered(u), rest);
    WholeBehind("age('", Lowered(u) + Text(rest));
    if Mark in u {
      LoweringCuts(u, Text(rest));
    } else {
      LoweredIsMarkless(u);
      WholeBehind(Lowered(u), Text(rest));
    }
  }

  lemma TwoParts(a: string, b: string, rest: seq<string>)
    ensures Text([a, b] + rest) == a + (b + Text(rest))
  {
    assert ([a, b] + rest)[1..] == [b] + rest && ([b] + rest)[1..] == rest;
  }

  /** No call of the text that is replaced has a literal in its unit. */
  ghost predicate UnitsPlain(w: Rewriting, s: string, from: nat, name: string)
    requires from <= |s|
  {
    forall p | p in Pieces(w, s, from) && p.Call? && IsCall(p.text, name) && |CallArguments(p.text, name)| == 3 ::
      Mark !in Unquote(CallArguments(p.text, name)[0])
  }

  /** Exactly then does that pass cut no placeholder. */
  lemma UnitsPlainIff(w: Rewriting, s: string, from: nat, name: string)
    requires from <= |s| && Rewrites(w, name, TimestampDiff) && Recognizable(name) && Whole(s[from..])
    ensures EditsWhole(w, s, from) <==> UnitsPlain(w, s, from, name)
  {
    PieceTextsAreWhole(w, s, from, name, TimestampDiff);
    PiecesAreFaithful(w, s, from, name, TimestampDiff);
    forall p | p in Pieces(w, s, from) && p.Call?
      ensures (p.replacement.Some? ==> Whole(p.replacement.value)) <==>
              (IsCall(p.text, name) && |CallArguments(p.text, name)| == 3 ==>
                 Mark !in Unquote(CallArguments(p.text, name)[0]))
    {
      UnitPlainIff(p, name);
    }
  }

  lemma UnitPlainIff(p: Piece, name: string)
    requires p.Call? && Whole(p.text) && Faithful(p, name, TimestampDiff)
    ensures p.replacement.Some? <==> |CallArguments(p.text, name)| == 3
    ensures p.replacement.Some? ==>
              (Whole(p.replacement.value) <==> Mark !in Unquote(CallArguments(p.text, name)[0]))
  {
    CallArgumentsWhole(p.text, name);
    if p.replacement.Some? {
      TimestampDiffKeepsIff(CallArguments(p.text, name));
    }
  }

  lemma LoweredIsMarkless(u: string)
    requires Mark !in u
    ensures Mark !in Lowered(u)
  {
    forall i | 0 <= i < |u| ensures Lowered(u)[i] != Mark {
      assert u[i] in u;
    }
  }

  /** Text in which no mark has an L behind it has nothing to resolve. */
  lemma {:induction false} NothingToResolve(t: string, literals: seq<string>)
    requires forall p | 0 <= p < |t| - 1 :: t[p] == Mark ==> t[p + 1] != 'L'
    ensures Resolve(t, literals) == t
  {
    if t != "" {
      NothingToResolve(t[1..], literals);
      PlainResolves(t, literals);
    }
  }

  // ------------------------------------------------------- the passes as they are

  /** Every other pass cuts no placeholder in any whole text. */
  lemma OtherPassesWhole(k: nat, w: Rewriting, text: string, literals: seq<string>)
    requires k < 12 && k != UnitPass && Whole(text)
    requires Passes()[k].Calls? ==> Rewrites(w, Passes()[k].name, Passes()[k].build(literals))
    ensures PassesWhole(Passes()[k], w, text)
  {
    var p := Passes()[k];
    assert text[0..] == text;
    if k < 3 {
      WordsKeep(k);
    } else {
      BuilderKeeps(k, literals);
      KeptEdits(w, text, 0, p.name, p.build(literals));
    }
  }

  lemma WordsAre(k: nat) returns (word: Word, replacement: string, k': Keyword)
    requires k < 3
    ensures Passes()[k].Words? && Passes()[k].keyword == k'
    ensures k' == Bare(word, replacement) || k' == Called(word, replacement)
    ensures (word == "CURRENT_DATE" && replacement == "CURRENT_DATE()")
         || (word == "CURRENT_TIMESTAMP" && replacement == "CURRENT_TIMESTAMP()")
         || (word == "UNIX_TIMESTAMP" && replacement == "toUnixTimestamp(")
  {
    k' := Passes()[k].keyword;
    word, replacement := k'.word, k'.replacement;
  }

  lemma WordsKeep(k: nat)
    requires k < 3
    ensures Passes()[k].Words? && KeepsWords(Passes()[k].keyword)
  {
    var word, replacement, k' := WordsAre(k);
    if word == "CURRENT_DATE" {
      DateKeeps();
    } else if word == "CURRENT_TIMESTAMP" {
      TimestampKeeps();
    } else {
      UnixKeeps();
    }
  }

  lemma DateKeeps()
    ensures KeepsWords(Bare("CURRENT_DATE", "CURRENT_DATE()")) && KeepsWords(Called("CURRENT_DATE", "CURRENT_DATE()"))
  {
    WordKeeps("CURRENT_DATE", "CURRENT_DATE()");
  }

  lemma TimestampKeeps()
    ensures KeepsWords(Bare("CURRENT_TIMESTAMP", "CURRENT_TIMESTAMP()"))
    ensures KeepsWords(Called("CURRENT_TIMESTAMP", "CURRENT_TIMESTAMP()"))
  {
    WordKeeps("CURRENT_TIMESTAMP", "CURRENT_TIMESTAMP()");
  }

  lemma UnixKeeps()
    ensures KeepsWords(Bare("UNIX_TIMESTAMP", "toUnixTimestamp("))
    ensures KeepsWords(Called("UNIX_TIMESTAMP", "toUnixTimestamp("))
  {
    WordKeeps("UNIX_TIMESTAMP", "toUnixTimestamp(");
  }

  lemma WordKeeps(word: Word, replacement: string)
    requires Recognizable(word) && Mark !in word && Mark !in replacement
    ensures KeepsWords(Bare(word, replacement)) && KeepsWords(Called(word, replacement))
  {
    MarklessIsWhole(replacement);
  }

  lemma BuilderKeeps(k: nat, literals: seq<string>)
    requires 3 <= k < 12 && k != UnitPass
    ensures Passes()[k].Calls? && Recognizable(Passes()[k].name) && KeepsWhole(Passes()[k].build(literals))
  {
    DateDiffKeeps();
    WeekdayKeeps();
    DayNameKeeps();
    FieldKeeps();
    GroupConcatKeeps();
    CastKeeps();
    JsonUnquoteKeeps();
    if k == 4 {
      var build := Passes()[4].build(literals);
      forall args | AllWhole(args) && build(args).Some? ensures Whole(build(args).value) {
        ConvertTzKeeps(literals, args);
      }
    }
  }

  /** What the TIMESTAMPDIFF pass gets has no literal in a unit. */
  ghost predicate NoQuotedUnit(sql: string, ws: seq<Rewriting>)
    requires |ws| == 12
  {
    UnitsPlain(ws[UnitPass], Seen(sql, Passes(), ws, UnitPass), 0, "TIMESTAMPDIFF")
  }

  lemma PassCutsNone(sql: string, ws: seq<Rewriting>, k: nat)
    requires k < 12 && Prepared(Passes(), Mask(sql, 0, 0).1, ws)
    requires k == UnitPass ==> NoQuotedUnit(sql, ws)
    ensures CutsNone(sql, Passes(), ws, k)
  {
    var text := Seen(sql, Passes(), ws, k);
    if Whole(text) && k == UnitPass {
      UnitPassIs(ws, Mask(sql, 0, 0).1);
      assert text[0..] == text;
      UnitsPlainIff(ws[k], text, 0, "TIMESTAMPDIFF");
    } else if Whole(text) {
      OtherPassesWhole(k, ws[k], text, Mask(sql, 0, 0).1);
    }
  }

  /**
   The literals of a text without U+0001 are untouchable, as promised, exactly when no TIMESTAMPDIFF that is
   rewritten has a literal in its unit: then every pass changes the query, as it reads with its literals, inside the
   words and calls it replaces and nowhere else, and otherwise that pass cuts a placeholder.
   */
  lemma LiteralsComeThroughIff(sql: string, ws: seq<Rewriting>)
    requires Mark !in sql && Prepared(Passes(), Mask(sql, 0, 0).1, ws)
    ensures (forall k | 0 <= k < 12 :: ComesThrough(sql, Passes(), ws, k)) <==> NoQuotedUnit(sql, ws)
    ensures Query(sql, Passes(), ws, 0) == sql && Query(sql, Passes(), ws, 12) == Compat(sql, Passes(), ws).0
  {
    QueryEnds(sql, Passes(), ws);
    if NoQuotedUnit(sql, ws) {
      forall k | 0 <= k < 12 ensures CutsNone(sql, Passes(), ws, k) {
        PassCutsNone(sql, ws, k);
      }
      forall k | 0 <= k < 12 ensures ComesThrough(sql, Passes(), ws, k) {
        LiteralsComeThrough(sql, Passes(), ws, k);
      }
    } else {
      QuotedUnitCuts(sql, ws);
    }
  }

  lemma QuotedUnitCuts(sql: string, ws: seq<Rewriting>)
    requires Mark !in sql && Prepared(Passes(), Mask(sql, 0, 0).1, ws) && !NoQuotedUnit(sql, ws)
    ensures !ComesThrough(sql, Passes(), ws, UnitPass)
  {
    var text := Seen(sql, Passes(), ws, UnitPass);
    forall k | 0 <= k < UnitPass ensures CutsNone(sql, Passes(), ws, k) {
      PassCutsNone(sql, ws, k);
    }
    PassesStayWhole(sql, Passes(), ws, UnitPass);
    UnitPassIs(ws, Mask(sql, 0, 0).1);
    assert text[0..] == text;
    PiecesAreWholeIff(ws[UnitPass], text, 0, "TIMESTAMPDIFF", TimestampDiff);
    UnitsPlainIff(ws[UnitPass], text, 0, "TIMESTAMPDIFF");
  }

  lemma UnitPassIs(ws: seq<Rewriting>, literals: seq<string>)
    requires Prepared(Passes(), literals, ws)
    ensures Passes()[UnitPass].Calls? && Passes()[UnitPass].name == "TIMESTAMPDIFF"
    ensures Rewrites(ws[UnitPass], "TIMESTAMPDIFF", TimestampDiff)
  {
  }

  // ------------------------------------------------------------ a query that loses one

  /** No call or word that starts with `c` can start in the text. */
  predicate NoneStarts(text: string, c: char)
  {
    forall i | 0 <= i < |text| :: Lower(text[i]) == Lower(c) ==> !MayStart(text, i)
  }

  lemma {:induction false} NoneFound(text: string, from: nat, name: string)
    requires from <= |text| && name != "" && NoneStarts(text, name[0])
    ensures FindCall(text, from, name).None?
    decreases |text| - from
  {
    if from < |text| {
      assert NameAt(text, from, name) ==> Lower(text[from + 0]) == Lower(name[0]);
      NoneFound(text, from + 1, name);
    }
  }

  function FirstLetter(p: Pass): char
    requires p.Calls? ==> p.name != ""
  {
    match p
    case Words(_, keyword) => keyword.word[0]
    case Calls(_, name, _) => name[0]
  }

  /** A pass whose words or calls start nowhere leaves the text. */
  lemma IdlePass(p: Pass, w: Rewriting, text: string, literals: seq<string>)
    requires p.Calls? ==> p.name != "" && Rewrites(w, p.name, p.build(literals))
    requires NoneStarts(text, FirstLetter(p))
    ensures RunPass(p, w, text) == (text, false)
  {
    assert text[0..] == text;
    match p
    case Words(_, keyword) =>
      WordsFoundIff(keyword, text, 0);
      forall j: nat | j < |text| ensures WordEnd(keyword, text, j).None? {
        assert NameAt(text, j, keyword.word) ==> Lower(text[j + 0]) == Lower(keyword.word[0]);
      }
    case Calls(_, name, _) =>
      assert w.find(text, 0) == NextSpan(text, 0, name);
      NoneFound(text, 0, name);
  }

  lemma {:induction false} IdlePasses(passes: seq<Pass>, ws: seq<Rewriting>, literals: seq<string>, start: string,
                                      text: string, m: nat, n: nat)
    requires m <= n <= |passes| && Prepared(passes, literals, ws) && RunPasses(passes, ws, start, m).0 == text
    requires forall k | m <= k < n ::
               (passes[k].Calls? ==> passes[k].name != "") && NoneStarts(text, FirstLetter(passes[k]))
    ensures RunPasses(passes, ws, start, n).0 == text
  {
    if m < n {
      IdlePasses(passes, ws, literals, start, text, m, n - 1);
      IdlePass(passes[n - 1], ws[n - 1], text, literals);
    }
  }

  const Quoted: string := "TIMESTAMPDIFF(" + "'DAY'" + ",a,b)"
  const QuotedMasked: string := "TIMESTAMPDIFF(" + [Mark, 'L', '0', Mark] + ",a,b)"
  const QuotedResult: string := "age('" + [Mark, 'l', '0', Mark] + "', a, b)"

  /** One literal between text without quotes is masked as one placeholder. */
  lemma MaskOfOne(s: string, i: nat, e: nat)
    requires i < e <= |s| && s[i] == '\'' && LiteralEnd(s, i + 1) == Some(e)
    requires forall x | 0 <= x < i || e <= x < |s| :: s[x] != '\''
    ensures Mask(s, 0, 0) == (s[0..i] + (Placeholder(0) + s[e..|s|]), [s[i..e]])
  {
    MaskOfPlain(s, e, |s|, 1);
    assert Mask(s, |s|, 1) == ("", []) && s[e..|s|] + "" == s[e..|s|];
    assert Mask(s, i, 0) == (Placeholder(0) + Mask(s, e, 1).0, [s[i..e]] + Mask(s, e, 1).1);
    MaskOfPlain(s, 0, i, 0);
    assert [s[i..e]] + [] == [s[i..e]];
  }

  lemma InThree(a: string, l: string, c: string)
    ensures var s, i, e := a + l + c, |a|, |a + l|;
      && s[0..i] == a && s[i..e] == l && s[e..|s|] == c
      && (forall x | 0 <= x < i :: s[x] == a[x]) && forall x | e <= x < |s| :: s[x] == c[x - e]
  {
  }

  lemma QuotedIsMasked()
    ensures Mark !in Quoted && Mask(Quoted, 0, 0) == (QuotedMasked, ["'DAY'"])
  {
    var s := Quoted;
    assert Print(0) == "0" && Placeholder(0) == [Mark, 'L', '0', Mark];
    assert |s| == 24 && s[15] == 'D' && s[16] == 'A' && s[17] == 'Y' && s[18] == '\'' && s[19] == ',';
    assert LiteralEnd(s, 18) == Some(19);
    assert LiteralEnd(s, 17) == Some(19);
    assert LiteralEnd(s, 16) == Some(19);
    assert LiteralEnd(s, 15) == Some(19);
    InThree("TIMESTAMPDIFF(", "'DAY'", ",a,b)");
    MaskOfOne(s, 14, 19);
    assert "TIMESTAMPDIFF(" + (Placeholder(0) + ",a,b)") == QuotedMasked;
  }

  lemma QuotedNoneStarts(c: char)
    requires c == 'C' || c == 'U' || c == 'D' || c == 'W' || c == 'F' || c == 'G'
    ensures NoneStarts(QuotedMasked, c)
  {
    var s := QuotedMasked;
    assert |s| == 23 && s[13] == '(';
    forall i | 0 < i <= 13 ensures !MayStart(s, i) {
      assert s[i - 1] == "TIMESTAMPDIFF"[i - 1];
    }
  }

  lemma ResultNoneStarts(c: char)
    requires c == 'C' || c == 'J'
    ensures NoneStarts(QuotedResult, c)
  {
  }

  lemma QuotedCall()
    ensures var s := QuotedMasked;
      CallAt(s, 0, "TIMESTAMPDIFF") && OpenIndex(s, 0, "TIMESTAMPDIFF") == 13 && CloseOf(s, 13, Outside) == Some(22)
  {
    var s := QuotedMasked;
    assert |s| == 23 && s[..13] == "TIMESTAMPDIFF" && s[13] == '(' && s[22] == ')';
    assert forall j | 0 <= j < 13 :: s[j] == s[..13][j];
    assert CloseOf(s, 22, Nesting(1, None)) == Some(22);
    assert CloseOf(s, 21, Nesting(1, None)) == Some(22);
    assert CloseOf(s, 20, Nesting(1, None)) == Some(22);
    assert CloseOf(s, 19, Nesting(1, None)) == Some(22);
    assert CloseOf(s, 18, Nesting(1, None)) == Some(22);
    assert CloseOf(s, 17, Nesting(1, None)) == Some(22);
    assert CloseOf(s, 16, Nesting(1, None)) == Some(22);
    assert CloseOf(s, 15, Nesting(1, None)) == Some(22);
    assert CloseOf(s, 14, Nesting(1, None)) == Some(22);
  }

  lemma QuotedArguments(span: Span)
    requires span == Span(0, 13, 22)
    ensures |QuotedMasked| == 23 && SpanArguments(QuotedMasked, span) == [[Mark, 'L', '0', Mark], "a", "b"]
  {
    var p := [Mark, 'L', '0', Mark];
    var a := p + ",a,b";
    assert QuotedMasked[14..22] == a && a[0..4] == p && a[5..6] == "a" && a[7..] == "b";
    assert Segments(a, 8, 7, Outside) == ["b"];
    assert Segments(a, 7, 7, Outside) == ["b"];
    assert Segments(a, 6, 5, Outside) == ["a"] + ["b"];
    assert Segments(a, 5, 5, Outside) == ["a", "b"];
    assert Segments(a, 4, 0, Outside) == [p] + ["a", "b"];
    assert Segments(a, 3, 0, Outside) == [p, "a", "b"];
    assert Segments(a, 2, 0, Outside) == [p, "a", "b"];
    assert Segments(a, 1, 0, Outside) == [p, "a", "b"];
    assert Segments(a, 0, 0, Outside) == [p, "a", "b"];
    assert Trim(p) == p && Trim("a") == "a" && Trim("b") == "b";
    assert [p, "a", "b"][..2] == [p, "a"] && TrimAll([p, "a"]) == [p, "a"];
  }

  lemma QuotedUnitIsLowered()
    ensures TimestampDiff([[Mark, 'L', '0', Mark], "a", "b"]) == Some(QuotedResult)
  {
    var p, l := [Mark, 'L', '0', Mark], [Mark, 'l', '0', Mark];
    assert Trim(p) == p && Unquote(p) == p && Lowered(p) == l;
    assert Trim("a") == "a" && Trim("b") == "b" && Coerce("a") == "a" && Coerce("b") == "b";
    assert Text([")"]) == ")" && Text(["b", ")"]) == "b)" && Text([", ", "b", ")"]) == ", b)";
    assert Text(["a", ", ", "b", ")"]) == "a, b)" && Text(["', ", "a", ", ", "b", ")"]) == "', a, b)";
    assert Text([l, "', ", "a", ", ", "b", ")"]) == l + "', a, b)";
    assert Text(["age('", l, "', ", "a", ", ", "b", ")"]) == "age('" + (l + "', a, b)") == QuotedResult;
  }

  lemma QuotedIsRewritten(w: Rewriting)
    requires Rewrites(w, "TIMESTAMPDIFF", TimestampDiff)
    ensures Rewrite(w, QuotedMasked, 0) == (QuotedResult, 1)
  {
    var s, span := QuotedMasked, Span(0, 13, 22);
    QuotedCall();
    assert FindCall(s, 0, "TIMESTAMPDIFF") == Some(0);
    assert w.find(s, 0) == NextSpan(s, 0, "TIMESTAMPDIFF") == Some(span);
    QuotedArguments(span);
    QuotedUnitIsLowered();
    assert w.edit(s, span) == TimestampDiff(SpanArguments(s, span)) == Some(QuotedResult);
    assert s[..0] == "" && s[23..] == "" && Put(s, span, QuotedResult) == QuotedResult;
    assert w.find(QuotedResult, |QuotedResult|) == NextSpan(QuotedResult, |QuotedResult|, "TIMESTAMPDIFF") == None;
    assert Rewrite(w, QuotedResult, |QuotedResult|) == (QuotedResult, 0);
  }

  lemma FirstLetters(k: nat)
    requires k < 12
    ensures Passes()[k].Calls? ==> Passes()[k].name != ""
    ensures k < UnitPass ==> NoneStarts(QuotedMasked, FirstLetter(Passes()[k]))
    ensures k > UnitPass ==> NoneStarts(QuotedResult, FirstLetter(Passes()[k]))
  {
    if k < UnitPass {
      QuotedNoneStarts(FirstLetter(Passes()[k]));
    } else if k > UnitPass {
      ResultNoneStarts(FirstLetter(Passes()[k]));
    }
  }

  lemma QuotedRun(ws: seq<Rewriting>, literals: seq<string>)
    requires Prepared(Passes(), literals, ws)
    ensures RunPasses(Passes(), ws, QuotedMasked, UnitPass).0 == QuotedMasked
    ensures RunPasses(Passes(), ws, QuotedMasked, 12).0 == QuotedResult
  {
    forall k | 0 <= k < 12
      ensures Passes()[k].Calls? ==> Passes()[k].name != ""
      ensures k < UnitPass ==> NoneStarts(QuotedMasked, FirstLetter(Passes()[k]))
      ensures k > UnitPass ==> NoneStarts(QuotedResult, FirstLetter(Passes()[k]))
    {
      FirstLetters(k);
    }
    IdlePasses(Passes(), ws, literals, QuotedMasked, QuotedMasked, 0, UnitPass);
    UnitPassIs(ws, literals);
    QuotedIsRewritten(ws[UnitPass]);
    assert RunPasses(Passes(), ws, QuotedMasked, UnitPass + 1).0 == QuotedResult;
    IdlePasses(Passes(), ws, literals, QuotedMasked, QuotedResult, UnitPass + 1, 12);
  }

  /** A pass that cuts no placeholder leaves a whole text. */
  lemma LeavesWhole(w: Rewriting, text: string, name: string, build: Builder)
    requires Rewrites(w, name, build) && Recognizable(name) && Whole(text) && EditsWhole(w, text, 0)
    ensures Whole(Rewrite(w, text, 0).0)
  {
    assert text[0..] == text && text[..0] == "";
    PiecesAreWholeIff(w, text, 0, name, build);
    RestoredPiecewise(Pieces(w, text, 0), []);
    RewriteIsPiecewise(w, text, 0);
    assert "" + Rewritten(Pieces(w, text, 0)) == Rewritten(Pieces(w, text, 0));
  }

  lemma QuotedIsCut(w: Rewriting)
    requires Rewrites(w, "TIMESTAMPDIFF", TimestampDiff)
    ensures !UnitsPlain(w, QuotedMasked, 0, "TIMESTAMPDIFF")
  {
    var text := QuotedMasked;
    QuotedIsMasked();
    MaskIsWhole(Quoted, 0, 0);
    assert text[0..] == text;
    QuotedIsRewritten(w);
    ResultIsCut();
    UnitsPlainIff(w, text, 0, "TIMESTAMPDIFF");
    if EditsWhole(w, text, 0) {
      LeavesWhole(w, text, "TIMESTAMPDIFF", TimestampDiff);
    }
  }

  lemma ResultIsCut()
    ensures !Whole(QuotedResult)
  {
    assert Mark !in "age('" && QuotedResult == "age('" + ([Mark, 'l', '0', Mark] + "', a, b)");
    WholeBehind("age('", [Mark, 'l', '0', Mark] + "', a, b)");
  }

  lemma LosesLiteral(sql: string, ws: seq<Rewriting>, masked: string, literals: seq<string>, out: string)
    requires |ws| == 12 && Mask(sql, 0, 0) == (masked, literals)
    requires RunPasses(Passes(), ws, masked, UnitPass).0 == masked && RunPasses(Passes(), ws, masked, 12).0 == out
    requires Resolve(out, literals) == out && !UnitsPlain(ws[UnitPass], masked, 0, "TIMESTAMPDIFF")
    ensures !NoQuotedUnit(sql, ws) && Compat(sql, Passes(), ws).0 == out
  {
  }

  /** A query that loses one: its unit is quoted, and what the result has in its place stands for nothing any more. */
  lemma QuotedUnitIsLost(ws: seq<Rewriting>)
    requires Prepared(Passes(), ["'DAY'"], ws)
    ensures !NoQuotedUnit(Quoted, ws) && Compat(Quoted, Passes(), ws).0 == QuotedResult
  {
    QuotedIsMasked();
    QuotedRun(ws, ["'DAY'"]);
    NothingToResolve(QuotedResult, ["'DAY'"]);
    UnitPassIs(ws, ["'DAY'"]);
    QuotedIsCut(ws[UnitPass]);
    LosesLiteral(Quoted, ws, QuotedMasked, ["'DAY'"], QuotedResult);
  }
}
