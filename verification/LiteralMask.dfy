/** Masking string literals behind numbered placeholders, and restoring them. */
module LiteralMask {
  import opened Wrappers
  import opened Decimal

  const Mark: char := '\U{0001}'

  /**
   The end of a literal whose text starts at `i`, after the opening quote: a single quote that no other follows.
   When the text runs out first, the last doubled quote is split and closes it; without one there is no literal.
   */
  function LiteralEnd(s: string, i: nat): (e: Option<nat>)
    ensures e.Some? ==> i < e.value <= |s|
    decreases |s| - i
  {
    if i >= |s| then None
    else if s[i] != '\'' then LiteralEnd(s, i + 1)
    else if i + 1 < |s| && s[i + 1] == '\'' then
      var e := LiteralEnd(s, i + 2);
      if e.Some? then e else Some(i + 1)
    else Some(i + 1)
  }

  /** One unit of a literal's text: a doubled quote or any other character. A backslash is one like others. */
  predicate LiteralUnit(u: string)
  {
    u == "''" || (|u| == 1 && u[0] != '\'')
  }

  /** The text of the parts one after the other. */
  function Text(parts: seq<string>): string
  {
    if parts == [] then "" else parts[0] + Text(parts[1..])
  }

  lemma UnitIsInside(s: string, i: nat, units: seq<string>, rest: string)
    requires i <= |s| && units != [] && s[i..] == Text(units) + rest && LiteralUnit(units[0])
    ensures i + |units[0]| <= |s| && s[i + |units[0]|..] == Text(units[1..]) + rest
    ensures s[i] == units[0][0] && (|units[0]| == 2 ==> s[i + 1] == '\'')
  {
    var u, after := units[0], Text(units[1..]) + rest;
    assert s[i..] == u + after;
    assert s[i..][0] == u[0] && (|u| == 2 ==> s[i..][1] == u[1]);
    assert s[i + |u|..] == s[i..][|u|..] == after;
  }

  /** A literal ends with the first quote that no other follows, doubled ones being skipped in pairs. */
  lemma {:induction false} LiteralEndIs(s: string, i: nat, units: seq<string>, rest: string)
    requires i <= |s| && s[i..] == Text(units) + ("'" + rest) && forall u | u in units :: LiteralUnit(u)
    requires rest != "" ==> rest[0] != '\''
    ensures LiteralEnd(s, i) == Some(i + |Text(units)| + 1)
    decreases |units|
  {
    if units == [] {
      assert s[i..] == "'" + rest;
      assert s[i] == s[i..][0] && (rest != "" ==> s[i + 1] == s[i..][1]);
    } else {
      assert units[0] in units;
      UnitIsInside(s, i, units, "'" + rest);
      LiteralEndIs(s, i + |units[0]|, units[1..], rest);
    }
  }

  /** Where the text runs out before that, there is no literal without a doubled quote. */
  lemma {:induction false} OpenLiteralIsNone(s: string, i: nat, units: seq<string>)
    requires i <= |s| && s[i..] == Text(units) + "" && forall u | u in units :: |u| == 1 && u[0] != '\''
    ensures LiteralEnd(s, i).None?
    decreases |units|
  {
    if units != [] {
      assert units[0] in units;
      UnitIsInside(s, i, units, "");
      OpenLiteralIsNone(s, i + 1, units[1..]);
    }
  }

  /** Otherwise the last doubled quote is split and its first one ends the literal. */
  lemma {:induction false} OpenLiteralIsSplit(s: string, i: nat, before: seq<string>, after: seq<string>)
    requires i <= |s| && s[i..] == Text(before) + ("''" + Text(after))
    requires (forall u | u in before :: LiteralUnit(u)) && (forall u | u in after :: |u| == 1 && u[0] != '\'')
    ensures LiteralEnd(s, i) == Some(i + |Text(before)| + 1)
    decreases |before|
  {
    if before == [] {
      assert s[i..] == "''" + Text(after);
      assert s[i] == s[i..][0] && s[i + 1] == s[i..][1];
      assert s[i + 2..] == s[i..][2..] == Text(after) + "";
      OpenLiteralIsNone(s, i + 2, after);
    } else {
      assert before[0] in before;
      UnitIsInside(s, i, before, "''" + Text(after));
      OpenLiteralIsSplit(s, i + |before[0]|, before[1..], after);
    }
  }

  function Placeholder(k: nat): string
  {
    [Mark, 'L'] + Print(k) + [Mark]
  }

  /** The text from `i` on with its literals replaced by placeholders numbered from `k`, and those literals. */
  function Mask(s: string, i: nat, k: nat): (string, seq<string>)
    requires i <= |s|
    decreases |s| - i
  {
    if i == |s| then ("", [])
    else if s[i] == '\'' && LiteralEnd(s, i + 1).Some? then
      var e := LiteralEnd(s, i + 1).value;
      var (text, literals) := Mask(s, e, k + 1);
      (Placeholder(k) + text, [s[i..e]] + literals)
    else
      var (text, literals) := Mask(s, i + 1, k);
      ([s[i]] + text, literals)
  }

  method MaskLiterals(sql: string) returns (out: string, literals: seq<string>)
    ensures (out, literals) == Mask(sql, 0, 0)
  {
    out, literals := "", [];
    var i := 0;
    while i < |sql|
      invariant i <= |sql|
      invariant Mask(sql, 0, 0).0 == out + Mask(sql, i, |literals|).0
      invariant Mask(sql, 0, 0).1 == literals + Mask(sql, i, |literals|).1
      decreases |sql| - i
    {
      ghost var rest := Mask(sql, i, |literals|);
      if sql[i] == '\'' && LiteralEnd(sql, i + 1).Some? {
        var e := LiteralEnd(sql, i + 1).value;
        out := out + Placeholder(|literals|);
        literals := literals + [sql[i..e]];
        i := e;
      } else {
        out := out + [sql[i]];
        i := i + 1;
      }
    }
    assert out + "" == out && literals + [] == literals;
  }

  function DigitRun(t: string, i: nat): (e: nat)
    requires i <= |t|
    ensures i <= e <= |t| && AllDigits(t[i..e]) && (e < |t| ==> !IsDigit(t[e]))
    decreases |t| - i
  {
    if i < |t| && IsDigit(t[i]) then
      var e := DigitRun(t, i + 1);
      assert t[i..e] == [t[i]] + t[i + 1..e];
      e
    else i
  }

  /** The length of a placeholder at the start of `t`, or 0. */
  function PlaceholderLength(t: string): (n: nat)
    ensures n <= |t|
  {
    if |t| < 2 || t[0] != Mark || t[1] != 'L' then 0
    else
      var e := DigitRun(t, 2);
      if e > 2 && e < |t| && t[e] == Mark then e + 1 else 0
  }

  /** Placeholders replaced by the literals they number; one without a literal stays. */
  function Resolve(t: string, literals: seq<string>): string
    decreases |t|
  {
    if t == "" then ""
    else
      var n := PlaceholderLength(t);
      if n == 0 then [t[0]] + Resolve(t[1..], literals)
      else
        var i := Parse(t[2..DigitRun(t, 2)]);
        (if i < |literals| then literals[i] else t[..n]) + Resolve(t[n..], literals)
  }

  lemma {:induction false} DigitRunOf(t: string, i: nat, d: string, rest: string)
    requires i <= |t| && t[i..] == d + rest && AllDigits(d) && (rest != "" ==> !IsDigit(rest[0]))
    ensures DigitRun(t, i) == i + |d|
    decreases |d|
  {
    if d == "" {
      assert i < |t| ==> t[i] == rest[0];
    } else {
      assert t[i] == d[0] && d[0] in d;
      assert t[i + 1..] == d[1..] + rest;
      DigitRunOf(t, i + 1, d[1..], rest);
    }
  }

  lemma PlaceholderLengthIs(k: nat, rest: string)
    ensures DigitRun(Placeholder(k) + rest, 2) == 2 + |Print(k)|
    ensures PlaceholderLength(Placeholder(k) + rest) == |Placeholder(k)|
  {
    var t, d := Placeholder(k) + rest, Print(k);
    assert t[2..] == d + ([Mark] + rest);
    DigitRunOf(t, 2, d, [Mark] + rest);
    assert t[2 + |d|] == Mark;
  }

  lemma PlaceholderResolves(k: nat, rest: string, literals: seq<string>)
    requires k < |literals|
    ensures Resolve(Placeholder(k) + rest, literals) == literals[k] + Resolve(rest, literals)
  {
    var t := Placeholder(k) + rest;
    PlaceholderLengthIs(k, rest);
    ParsePrint(k);
    assert t[2..2 + |Print(k)|] == Print(k) && t[|Placeholder(k)|..] == rest;
  }

  lemma PlainResolves(t: string, literals: seq<string>)
    requires t != "" && PlaceholderLength(t) == 0
    ensures Resolve(t, literals) == [t[0]] + Resolve(t[1..], literals)
  {
  }

  predicate LiteralAt(s: string, i: nat)
  {
    i < |s| && s[i] == '\'' && LiteralEnd(s, i + 1).Some?
  }

  /**
   The text brings a placeholder of its own along at `i`, or the start of one that the mark of a literal completes.
   */
  function ForgedEnd(s: string, i: nat): (e: Option<nat>)
    ensures e.Some? ==> i + 2 < e.value < |s|
  {
    if i + 2 > |s| || s[i] != Mark || s[i + 1] != 'L' then None
    else
      var e := DigitRun(s, i + 2);
      if e > i + 2 && e < |s| && (s[e] == Mark || LiteralAt(s, e)) then Some(e) else None
  }

  /** Outside its literals the text has no placeholder of its own, or only closed ones numbered from `n` on. */
  predicate Harmless(s: string, i: nat, n: nat)
    requires i <= |s|
    decreases |s| - i
  {
    if i == |s| then true
    else if LiteralAt(s, i) then Harmless(s, LiteralEnd(s, i + 1).value, n)
    else
      var e := ForgedEnd(s, i);
      if e.None? then Harmless(s, i + 1, n)
      else s[e.value] == Mark && Parse(s[i + 2..e.value]) >= n && Harmless(s, e.value + 1, n)
  }

  /** Text without quotes is masked as it stands. */
  lemma {:induction false} MaskOfPlain(s: string, i: nat, j: nat, k: nat)
    requires i <= j <= |s| && forall x | i <= x < j :: s[x] != '\''
    ensures Mask(s, i, k) == (s[i..j] + Mask(s, j, k).0, Mask(s, j, k).1)
    decreases j - i
  {
    if i == j {
      assert s[i..j] + Mask(s, j, k).0 == Mask(s, j, k).0;
    } else {
      MaskOfPlain(s, i + 1, j, k);
      var rest := Mask(s, j, k).0;
      assert s[i..j] + rest == [s[i]] + (s[i + 1..j] + rest);
    }
  }

  lemma {:induction false} LiteralsAreQuoted(s: string, i: nat, k: nat)
    requires i <= |s|
    ensures forall l | l in Mask(s, i, k).1 :: l != "" && l[0] == '\''
    decreases |s| - i
  {
    if i < |s| {
      if LiteralAt(s, i) {
        LiteralsAreQuoted(s, LiteralEnd(s, i + 1).value, k + 1);
      } else {
        LiteralsAreQuoted(s, i + 1, k);
      }
    }
  }

  lemma HeadOfMask(s: string, i: nat, k: nat)
    requires i <= |s|
    ensures i < |s| ==> Mask(s, i, k).0 != "" && Mask(s, i, k).0[0] == if LiteralAt(s, i) then Mark else s[i]
    ensures i == |s| ==> Mask(s, i, k).0 == ""
  {
  }

  /** What looks like a placeholder's start is masked as it stands, and its digits end where they did. */
  lemma MaskOfForged(s: string, i: nat, k: nat)
    requires i + 2 <= |s| && s[i] == Mark && s[i + 1] == 'L'
    ensures var t, e := Mask(s, i, k).0, DigitRun(s, i + 2);
      t == s[i..e] + Mask(s, e, k).0 && Mask(s, i, k).1 == Mask(s, e, k).1 && DigitRun(t, 2) == e - i
  {
    var t, e := Mask(s, i, k).0, DigitRun(s, i + 2);
    forall x | i <= x < e ensures s[x] != '\'' {
      assert x >= i + 2 ==> s[x] == s[i + 2..e][x - (i + 2)] && s[x] in s[i + 2..e];
    }
    MaskOfPlain(s, i, e, k);
    HeadOfMask(s, e, k);
    assert t[2..] == s[i + 2..e] + Mask(s, e, k).0;
    DigitRunOf(t, 2, s[i + 2..e], Mask(s, e, k).0);
  }

  lemma UnforgedLength(s: string, i: nat, k: nat)
    requires i < |s| && !LiteralAt(s, i) && ForgedEnd(s, i).None?
    ensures PlaceholderLength(Mask(s, i, k).0) == 0
  {
    HeadOfMask(s, i, k);
    HeadOfMask(s, i + 1, k);
    if i + 2 <= |s| && s[i] == Mark && s[i + 1] == 'L' {
      MaskOfForged(s, i, k);
      HeadOfMask(s, DigitRun(s, i + 2), k);
    }
  }

  lemma ForgedText(s: string, i: nat, k: nat)
    requires i < |s| && ForgedEnd(s, i).Some?
    ensures var t, e := Mask(s, i, k).0, ForgedEnd(s, i).value;
      && |t| > e - i && t[..e - i] == s[i..e] && t[e - i] == Mark && DigitRun(t, 2) == e - i
      && t[2..e - i] == s[i + 2..e] && PlaceholderLength(t) == e - i + 1
      && (!LiteralAt(s, e) ==> t[e - i + 1..] == Mask(s, e + 1, k).0 && Mask(s, i, k).1 == Mask(s, e + 1, k).1)
  {
    var t, e := Mask(s, i, k).0, ForgedEnd(s, i).value;
    MaskOfForged(s, i, k);
    HeadOfMask(s, e, k);
    assert t[2..e - i] == t[..e - i][2..] && s[i + 2..e] == s[i..e][2..];
  }

  lemma ForgedResolves(t: string, literals: seq<string>)
    requires PlaceholderLength(t) > 0
    ensures var n := PlaceholderLength(t); var j := Parse(t[2..DigitRun(t, 2)]);
      Resolve(t, literals) == (if j < |literals| then literals[j] else t[..n]) + Resolve(t[n..], literals)
  {
  }

  lemma SamePrefix(a: string, b: string, c: string)
    ensures a + b == a + c <==> b == c
  {
    assert (a + b)[|a|..] == b && (a + c)[|a|..] == c;
  }

  /** A forged number of a literal is resolved to that literal. */
  lemma ForgedHit(s: string, i: nat, k: nat, literals: seq<string>)
    requires i < |s| && ForgedEnd(s, i).Some? && forall l | l in literals :: l != "" && l[0] == '\''
    requires Parse(s[i + 2..ForgedEnd(s, i).value]) < |literals|
    ensures Resolve(Mask(s, i, k).0, literals) != s[i..]
  {
    var t := Mask(s, i, k).0;
    ForgedText(s, i, k);
    ForgedResolves(t, literals);
    var l := literals[Parse(s[i + 2..ForgedEnd(s, i).value])];
    assert l in literals;
    assert Resolve(t, literals)[0] == l[0] && s[i..][0] == Mark;
  }

  /** Any other is left, and with it what the masked text has after it. */
  lemma ForgedMiss(s: string, i: nat, k: nat, literals: seq<string>)
    requires i < |s| && ForgedEnd(s, i).Some? && Parse(s[i + 2..ForgedEnd(s, i).value]) >= |literals|
    ensures var e := ForgedEnd(s, i).value;
      Resolve(Mask(s, i, k).0, literals) == s[i..] <==>
        s[e] == Mark && Resolve(Mask(s, e + 1, k).0, literals) == s[e + 1..]
  {
    var t, e := Mask(s, i, k).0, ForgedEnd(s, i).value;
    ForgedText(s, i, k);
    assert Resolve(t, literals) == s[i..e] + [Mark] + Resolve(t[e - i + 1..], literals) by {
      ForgedResolves(t, literals);
      assert t[..e - i + 1] == s[i..e] + [Mark];
    }
    assert s[i..] == s[i..e] + [s[e]] + s[e + 1..];
    SameAround(s[i..e], Mark, s[e], Resolve(t[e - i + 1..], literals), s[e + 1..]);
  }

  lemma SameAround(a: string, c: char, d: char, x: string, y: string)
    ensures a + [c] + x == a + [d] + y <==> c == d && x == y
  {
    if a + [c] + x == a + [d] + y {
      assert (a + [c] + x)[|a|] == c && (a + [d] + y)[|a|] == d;
      SamePrefix(a + [c], x, y);
    }
  }

  /** What the round trip is proved from: the literals from `k` on are those masked from `i` on. */
  ghost predicate Numbered(s: string, i: nat, k: nat, literals: seq<string>)
    requires i <= |s|
  {
    && k <= |literals| && literals[k..] == Mask(s, i, k).1
    && forall l | l in literals :: l != "" && l[0] == '\''
  }

  /** Masking then resolving gives the text back exactly when the placeholders it brings along itself are harmless. */
  lemma {:induction false} ResolveMaskIff(s: string, i: nat, k: nat, literals: seq<string>)
    requires i <= |s| && Numbered(s, i, k, literals)
    ensures Resolve(Mask(s, i, k).0, literals) == s[i..] <==> Harmless(s, i, |literals|)
    decreases |s| - i, 2
  {
    if i == |s| {
      assert s[i..] == "" && Mask(s, i, k).0 == "";
    } else if LiteralAt(s, i) {
      LiteralIff(s, i, k, literals);
    } else if ForgedEnd(s, i).None? {
      PlainIff(s, i, k, literals);
    } else {
      ForgedIff(s, i, k, literals);
    }
  }

  lemma {:induction false} LiteralIff(s: string, i: nat, k: nat, literals: seq<string>)
    requires LiteralAt(s, i) && Numbered(s, i, k, literals)
    ensures Resolve(Mask(s, i, k).0, literals) == s[i..] <==> Harmless(s, i, |literals|)
    decreases |s| - i, 1
  {
    var e := LiteralEnd(s, i + 1).value;
    assert literals[k] == s[i..e] && literals[k + 1..] == Mask(s, e, k + 1).1;
    PlaceholderResolves(k, Mask(s, e, k + 1).0, literals);
    assert s[i..] == s[i..e] + s[e..];
    SamePrefix(s[i..e], Resolve(Mask(s, e, k + 1).0, literals), s[e..]);
    ResolveMaskIff(s, e, k + 1, literals);
  }

  lemma {:induction false} PlainIff(s: string, i: nat, k: nat, literals: seq<string>)
    requires i < |s| && !LiteralAt(s, i) && ForgedEnd(s, i).None? && Numbered(s, i, k, literals)
    ensures Resolve(Mask(s, i, k).0, literals) == s[i..] <==> Harmless(s, i, |literals|)
    decreases |s| - i, 1
  {
    var t := Mask(s, i, k).0;
    UnforgedLength(s, i, k);
    assert t[1..] == Mask(s, i + 1, k).0;
    PlainResolves(t, literals);
    assert s[i..] == [s[i]] + s[i + 1..];
    SamePrefix([s[i]], Resolve(Mask(s, i + 1, k).0, literals), s[i + 1..]);
    ResolveMaskIff(s, i + 1, k, literals);
  }

  lemma HarmlessAtForged(s: string, i: nat, n: nat)
    requires i < |s| && !LiteralAt(s, i) && ForgedEnd(s, i).Some?
    ensures var e := ForgedEnd(s, i).value;
      Harmless(s, i, n) <==> s[e] == Mark && Parse(s[i + 2..e]) >= n && Harmless(s, e + 1, n)
  {
  }

  lemma NumberedAfterForged(s: string, i: nat, k: nat, literals: seq<string>)
    requires i < |s| && ForgedEnd(s, i).Some? && Numbered(s, i, k, literals)
    ensures var e := ForgedEnd(s, i).value; !LiteralAt(s, e) ==> Numbered(s, e + 1, k, literals)
  {
    ForgedText(s, i, k);
  }

  lemma {:induction false} ForgedIff(s: string, i: nat, k: nat, literals: seq<string>)
    requires i < |s| && !LiteralAt(s, i) && ForgedEnd(s, i).Some? && Numbered(s, i, k, literals)
    ensures Resolve(Mask(s, i, k).0, literals) == s[i..] <==> Harmless(s, i, |literals|)
    decreases |s| - i, 1
  {
    HarmlessAtForged(s, i, |literals|);
    if Parse(s[i + 2..ForgedEnd(s, i).value]) < |literals| {
      ForgedHit(s, i, k, literals);
    } else {
      ForgedMiss(s, i, k, literals);
      AfterForged(s, i, k, literals);
    }
  }

  lemma {:induction false} AfterForged(s: string, i: nat, k: nat, literals: seq<string>)
    requires i < |s| && ForgedEnd(s, i).Some? && Numbered(s, i, k, literals)
    ensures var e := ForgedEnd(s, i).value; s[e] == Mark ==>
      (Resolve(Mask(s, e + 1, k).0, literals) == s[e + 1..] <==> Harmless(s, e + 1, |literals|))
    decreases |s| - i, 0
  {
    var e := ForgedEnd(s, i).value;
    if s[e] == Mark {
      NumberedAfterForged(s, i, k, literals);
      ResolveMaskIff(s, e + 1, k, literals);
    }
  }

  /** The round trip, for the whole text: exact, in both directions. */
  lemma MaskRoundTripIff(s: string)
    ensures var (text, literals) := Mask(s, 0, 0); Resolve(text, literals) == s <==> Harmless(s, 0, |literals|)
  {
    LiteralsAreQuoted(s, 0, 0);
    ResolveMaskIff(s, 0, 0, Mask(s, 0, 0).1);
  }

  lemma {:induction false} MarklessIsHarmless(s: string, i: nat, n: nat)
    requires i <= |s| && Mark !in s
    ensures Harmless(s, i, n)
    decreases |s| - i
  {
    if i < |s| {
      if LiteralAt(s, i) {
        MarklessIsHarmless(s, LiteralEnd(s, i + 1).value, n);
      } else {
        assert s[i] in s;
        MarklessIsHarmless(s, i + 1, n);
      }
    }
  }

  /** In particular a text without U+0001 always comes back. */
  lemma MaskRoundTrip(s: string)
    requires Mark !in s
    ensures var (text, literals) := Mask(s, 0, 0); Resolve(text, literals) == s
  {
    MarklessIsHarmless(s, 0, |Mask(s, 0, 0).1|);
    MaskRoundTripIff(s);
  }

  lemma {:induction false} QuotelessIsOpen(s: string, i: nat)
    requires forall x | i <= x < |s| :: s[x] != '\''
    ensures LiteralEnd(s, i).None?
    decreases |s| - i
  {
    if i < |s| {
      QuotelessIsOpen(s, i + 1);
    }
  }

  lemma {:induction false} OpenIsQuoteless(s: string, i: nat)
    requires LiteralEnd(s, i).None?
    ensures forall x | i <= x < |s| :: s[x] != '\''
    decreases |s| - i
  {
    if i < |s| {
      OpenIsQuoteless(s, i + 1);
    }
  }

  lemma PlaceholderIsQuoteless(k: nat)
    ensures forall x | 0 <= x < |Placeholder(k)| :: Placeholder(k)[x] != '\''
  {
    forall x | 2 <= x < |Placeholder(k)| - 1 ensures Placeholder(k)[x] != '\'' {
      assert Placeholder(k)[x] == Print(k)[x - 2] && Print(k)[x - 2] in Print(k);
    }
  }

  /** At most one quote survives masking, one that opens no literal. */
  lemma {:induction false} OneQuoteIsLeft(s: string, i: nat, k: nat, p: nat, q: nat)
    requires i <= |s| && p < q < |Mask(s, i, k).0| && Mask(s, i, k).0[p] == '\''
    ensures Mask(s, i, k).0[q] != '\''
    decreases |s| - i
  {
    var t := Mask(s, i, k).0;
    if LiteralAt(s, i) {
      var e, n := LiteralEnd(s, i + 1).value, |Placeholder(k)|;
      PlaceholderIsQuoteless(k);
      OneQuoteIsLeft(s, e, k + 1, p - n, q - n);
    } else if p == 0 {
      OpenIsQuoteless(s, i + 1);
      MaskOfPlain(s, i + 1, |s|, k);
      assert t == [s[i]] + s[i + 1..];
    } else {
      OneQuoteIsLeft(s, i + 1, k, p - 1, q - 1);
    }
  }

  /** So no literal is left in the masked text: what is done to that text cannot reach into one. */
  lemma MaskLeavesNoLiteral(s: string, p: nat)
    ensures !LiteralAt(Mask(s, 0, 0).0, p)
  {
    var t := Mask(s, 0, 0).0;
    if p < |t| && t[p] == '\'' {
      forall q | p < q < |t| ensures t[q] != '\'' {
        OneQuoteIsLeft(s, 0, 0, p, q);
      }
      QuotelessIsOpen(t, p + 1);
    }
  }

  /** One that does not: the placeholder the text brings along is taken for the mask's own. */
  lemma ForgedPlaceholder()
    ensures var s := Placeholder(0) + "'a'"; var (text, literals) := Mask(s, 0, 0);
      Resolve(text, literals) == "'a''a'" != s
  {
    var p := Placeholder(0);
    var s := p + "'a'";
    assert Print(0) == "0";
    assert |p| == 4 && s == [Mark, 'L', '0', Mark, '\'', 'a', '\''];
    MaskOfPlain(s, 0, 4, 0);
    assert LiteralEnd(s, 5) == Some(7);
    assert Mask(s, 7, 1) == ("", []);
    assert s[..4] == p && s[4..7] == "'a'" && ["'a'"] + [] == ["'a'"] && p + "" == p;
    assert Mask(s, 0, 0) == (p + p, ["'a'"]);
    PlaceholderResolves(0, p, ["'a'"]);
    PlaceholderResolves(0, "", ["'a'"]);
  }
}
