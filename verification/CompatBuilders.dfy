/** The passes over a query, in their order, with what each makes of the arguments of a call. */
module CompatBuilders {
  import opened Decimal
  import opened LiteralMask
  import opened MysqlCompat
  import opened CompatPasses
  import opened Wrappers
  import T = CallTerms

  function Lowered(s: string): string
  {
    seq(|s|, i requires 0 <= i < |s| => Lower(s[i]))
  }

  predicate Same(s: string, word: string)
  {
    |s| == |word| && NameAt(s, 0, word)
  }

  function Unquote(value: string): string
  {
    var t := Trim(value);
    if t != "" && (t[0] == '\'' || t[0] == '\"') && t[|t| - 1] == t[0] then
      if |t| == 1 then "" else t[1..|t| - 1]
    else t
  }

  /** A literal where a date is expected is parsed as one. */
  function Coerce(arg: string): string
  {
    var t := Trim(arg);
    if t != "" && PlaceholderLength(t) == |t| then "parseDateTimeBestEffort(" + t + ")" else arg
  }

  /** DATEDIFF: the operands swap. */
  function DateDiff(args: seq<string>): Option<string>
  {
    if |args| != 2 then None else Some(Text(["dateDiff('day', ", Coerce(args[1]), ", ", Coerce(args[0]), ")"]))
  }

  // ------------------------------------------------------------------- time zones

  predicate IsUtcSpec(value: string)
  {
    var v := Unquote(value);
    Same(v, "UTC") || v == "+00:00" || Same(v, "GMT") || Same(v, "ETC/UTC")
  }

  datatype Target = Zone(name: string) | OffsetMinutes(minutes: int)

  predicate IsLetter(c: char)
  {
    'a' <= c <= 'z' || 'A' <= c <= 'Z'
  }

  /** Letters up to a slash at `i`, then at least one letter, digit, underscore, plus or minus. */
  predicate IsZoneAt(raw: string, i: nat)
  {
    && 0 < i < |raw| - 1 && raw[i] == '/'
    && (forall j | 0 <= j < i :: IsLetter(raw[j]))
    && forall j | i < j < |raw| :: IsLetter(raw[j]) || IsDigit(raw[j]) || raw[j] in "_+-"
  }

  predicate IsZone(raw: string)
  {
    exists i: nat | i < |raw| :: IsZoneAt(raw, i)
  }

  /** A sign, one or two digits of hours, a colon and two of minutes. */
  predicate IsOffset(raw: string)
  {
    && (|raw| == 5 || |raw| == 6) && (raw[0] == '+' || raw[0] == '-') && raw[|raw| - 3] == ':'
    && AllDigits(raw[1..|raw| - 3]) && AllDigits(raw[|raw| - 2..])
  }

  function ParseTimezoneTarget(value: string): (target: Option<Target>)
    ensures target.Some? && target.value.Zone? ==> IsZone(target.value.name)
  {
    var raw := Unquote(value);
    if IsZone(raw) then Some(Zone(raw))
    else if IsOffset(raw) then
      var minutes := Parse(raw[1..|raw| - 3]) * 60 + Parse(raw[|raw| - 2..]);
      Some(OffsetMinutes(if raw[0] == '-' then -minutes else minutes))
    else None
  }

  /** CONVERT_TZ, with its zones looked up among the literals: only from UTC. */
  function ConvertTz(literals: seq<string>, args: seq<string>): Option<string>
  {
    if |args| != 3 || !IsUtcSpec(Resolve(args[1], literals)) then None
    else
      match ParseTimezoneTarget(Resolve(args[2], literals))
      case None => None
      case Some(Zone(name)) => Some(Text(["toTimeZone(", args[0], ", '", name, "')"]))
      case Some(OffsetMinutes(minutes)) =>
        if minutes == 0 then Some(args[0])
        else if minutes > 0 then Some(Text(["(", args[0], " + INTERVAL ", Print(minutes), " MINUTE)"]))
        else Some(Text(["(", args[0], " - INTERVAL ", Print(-minutes), " MINUTE)"]))
  }

  // --------------------------------------------------------------- simple renames

  function Weekday(args: seq<string>): Option<string>
  {
    if |args| != 1 then None else Some(Text(["(toDayOfWeek(", args[0], ") - 1)"]))
  }

  function DayName(args: seq<string>): Option<string>
  {
    if |args| != 1 then None else Some(Text(["dateName('weekday', ", args[0], ")"]))
  }

  function Field(args: seq<string>): Option<string>
  {
    if |args| < 2 then None
    else Some(Text(["indexOf([", JoinWith(args[1..], ", "), "], ", args[0], ")"]))
  }

  // ------------------------------------------------------------------ GROUP_CONCAT

  function SkipText(s: string, i: nat): (e: nat)
    requires i <= |s|
    ensures i <= e <= |s| && (e < |s| ==> IsSpace(s[e])) && (i < |s| && !IsSpace(s[i]) ==> i < e)
    decreases |s| - i
  {
    if i < |s| && !IsSpace(s[i]) then SkipText(s, i + 1) else i
  }

  /** White space from `i` on, the word, and white space again: where that ends. */
  function WordBetween(s: string, i: nat, word: string): (k: Option<nat>)
    requires i <= |s|
    ensures k.Some? ==> i < |s| && IsSpace(s[i]) && i < k.value <= |s| && IsSpace(s[k.value - 1])
  {
    var j := SkipSpace(s, i);
    if j == i || !NameAt(s, j, word) then None
    else
      var k := SkipSpace(s, j + |word|);
      SkipSpaceIsSpace(s, j + |word|);
      if k == j + |word| then None else Some(k)
  }

  lemma {:induction false} SkipSpaceIsSpace(s: string, i: nat)
    requires i <= |s|
    ensures forall j | i <= j < SkipSpace(s, i) :: IsSpace(s[j])
    decreases |s| - i
  {
    if i < |s| && IsSpace(s[i]) {
      SkipSpaceIsSpace(s, i + 1);
    }
  }

  /** The separator that follows `SEPARATOR` at `i`, by where it starts and ends, if only white space follows it. */
  function SeparatorAt(s: string, i: nat): (span: Option<(nat, nat)>)
    requires i <= |s|
    ensures span.Some? ==> i < |s| && IsSpace(s[i]) && 0 < span.value.0 <= span.value.1 <= |s|
    ensures span.Some? ==> IsSpace(s[span.value.0 - 1]) && (span.value.1 < |s| ==> IsSpace(s[span.value.1]))
  {
    match WordBetween(s, i, "SEPARATOR")
    case None => None
    case Some(k) =>
      var e := SkipText(s, k);
      if k < e && SkipSpace(s, e) == |s| then Some((k, e)) else None
  }

  /** The first position from `i` on with a separator after it. */
  function FindSeparator(s: string, i: nat): (r: Option<nat>)
    requires i <= |s|
    ensures r.Some? ==> r.value <= |s| && SeparatorAt(s, r.value).Some?
    decreases |s| - i
  {
    if SeparatorAt(s, i).Some? then Some(i) else if i == |s| then None else FindSeparator(s, i + 1)
  }

  function GroupConcat(args: seq<string>): Option<string>
  {
    if |args| != 1 then None
    else
      var s := args[0];
      match FindSeparator(s, 0)
      case None => None
      case Some(i) =>
        var (k, e) := SeparatorAt(s, i).value;
        Some(Text(["arrayStringConcat(groupArray(", Trim(s[..i]), "), ", Trim(s[k..e]), ")"]))
  }

  // ----------------------------------------------------------------- TIMESTAMPDIFF

  /** TIMESTAMPDIFF: its unit is unquoted, lower-cased and quoted again. */
  function TimestampDiff(args: seq<string>): Option<string>
  {
    if |args| != 3 then None
    else Some(Text(["age('", Lowered(Unquote(args[0])), "', ", Coerce(args[1]), ", ", Coerce(args[2]), ")"]))
  }

  // -------------------------------------------------------------------------- CAST

  /** Nothing but white space from `e` on, or INTEGER between white space. */
  predicate EndsType(s: string, e: nat)
    requires e <= |s|
  {
    var f := SkipSpace(s, e);
    f == |s| || (f > e && NameAt(s, f, "INTEGER") && SkipSpace(s, f + 7) == |s|)
  }

  /** Whether the type named by `AS` at `i` is an integer type, and then whether it is unsigned. */
  function IntegerTypeAt(s: string, i: nat): (unsigned: Option<bool>)
    requires i <= |s|
    ensures unsigned.Some? ==> i < |s| && IsSpace(s[i])
  {
    match WordBetween(s, i, "AS")
    case None => None
    case Some(k) =>
      if NameAt(s, k, "UNSIGNED") && EndsType(s, k + 8) then Some(true)
      else if NameAt(s, k, "SIGNED") && EndsType(s, k + 6) then Some(false)
      else None
  }

  function FindIntegerType(s: string, i: nat): (r: Option<nat>)
    requires i <= |s|
    ensures r.Some? ==> r.value <= |s| && IntegerTypeAt(s, r.value).Some?
    decreases |s| - i
  {
    if IntegerTypeAt(s, i).Some? then Some(i) else if i == |s| then None else FindIntegerType(s, i + 1)
  }

  function Cast(args: seq<string>): Option<string>
  {
    if |args| != 1 || args[0] == "" then None
    else
      var s := args[0];
      match FindIntegerType(s, 1)
      case None => None
      case Some(i) =>
        var name := if IntegerTypeAt(s, i).value then "toUInt64" else "toInt64";
        Some(Text([name, "(floor(toFloat64(", Trim(s[..i]), ") + 0.5))"]))
  }

  // ------------------------------------------------------------------ JSON_UNQUOTE

  /** What JSON_EXTRACT is called with, if the text is nothing but such a call. */
  function ExtractArguments(s: string): Option<seq<string>>
  {
    if !NameAt(s, 0, "JSON_EXTRACT") then None
    else
      var open := SkipSpace(s, 12);
      if open >= |s| - 1 || s[open] != '(' || s[|s| - 1] != ')' then None
      else Some(Arguments(Segments(s[open + 1..|s| - 1], 0, 0, Outside)))
  }

  function JsonUnquote(args: seq<string>): Option<string>
  {
    if |args| != 1 then None
    else
      match ExtractArguments(args[0])
      case None => None
      case Some(inner) =>
        if |inner| != 2 then None else Some(Text(["JSON_VALUE(", inner[0], ", ", inner[1], ")"]))
  }

  // -------------------------------------------------------------------- the passes

  const UnitPass: nat := 9

  function Passes(): (passes: seq<Pass>)
    ensures |passes| == 12
  {
    [ Words("CURRENT_DATE", Bare("CURRENT_DATE", "CURRENT_DATE()")),
      Words("CURRENT_TIMESTAMP", Bare("CURRENT_TIMESTAMP", "CURRENT_TIMESTAMP()")),
      Words("UNIX_TIMESTAMP", Called("UNIX_TIMESTAMP", "toUnixTimestamp(")),
      Calls("DATEDIFF(a,b) -> dateDiff(day,b,a)", "DATEDIFF", _ => DateDiff),
      Calls("CONVERT_TZ -> toTimeZone", "CONVERT_TZ", literals => args => ConvertTz(literals, args)),
      Calls("WEEKDAY -> toDayOfWeek-1", "WEEKDAY", _ => Weekday),
      Calls("DAYNAME -> dateName", "DAYNAME", _ => DayName),
      Calls("FIELD -> indexOf", "FIELD", _ => Field),
      Calls("GROUP_CONCAT SEPARATOR -> arrayStringConcat", "GROUP_CONCAT", _ => GroupConcat),
      Calls("TIMESTAMPDIFF -> age (full units)", "TIMESTAMPDIFF", _ => TimestampDiff),
      Calls("CAST AS SIGNED/UNSIGNED rounding", "CAST", _ => Cast),
      Calls("JSON_UNQUOTE(JSON_EXTRACT) -> JSON_VALUE", "JSON_UNQUOTE", _ => JsonUnquote) ]
  }

  // ----------------------------------------------------------- what the builders write

  /** An argument that is not just a literal. */
  predicate NoLiteral(arg: string)
  {
    PlaceholderLength(Trim(arg)) != |Trim(arg)|
  }

  /** DATEDIFF swaps its operands, whatever they are. */
  lemma DateDiffSwaps(a: string, b: string)
    requires NoLiteral(a) && NoLiteral(b)
    ensures DateDiff([a, b]) == Some("dateDiff('day', " + b + ", " + a + ")")
    ensures forall args | |args| != 2 :: DateDiff(args) == None
  {
    FiveParts("dateDiff('day', ", b, ", ", a, ")");
  }

  /** Literals among them are parsed as dates. */
  lemma DateDiffParses(a: string, k: nat)
    requires NoLiteral(a)
    ensures var date := "parseDateTimeBestEffort(" + Placeholder(k) + ")";
      && DateDiff([a, Placeholder(k)]) == Some("dateDiff('day', " + date + ", " + a + ")")
      && DateDiff([Placeholder(k), a]) == Some("dateDiff('day', " + a + ", " + date + ")")
  {
    var date := "parseDateTimeBestEffort(" + Placeholder(k) + ")";
    LiteralIsParsed(k);
    FiveParts("dateDiff('day', ", date, ", ", a, ")");
    FiveParts("dateDiff('day', ", a, ", ", date, ")");
  }

  lemma LiteralIsParsed(k: nat)
    ensures Coerce(Placeholder(k)) == "parseDateTimeBestEffort(" + Placeholder(k) + ")"
  {
    var p := Placeholder(k);
    assert p + "" == p && p[0] == Mark == p[|p| - 1];
    PlaceholderLengthIs(k, "");
    assert Trim(p) == p;
  }

  lemma FiveParts(a: string, b: string, c: string, d: string, e: string)
    ensures Text([a, b, c, d, e]) == a + b + c + d + e
  {
    assert Text([e]) == e + "" == e;
    assert Text([d, e]) == d + e && Text([c, d, e]) == c + (d + e) && Text([b, c, d, e]) == b + (c + (d + e));
  }

  lemma ThreeParts(a: string, b: string, c: string)
    ensures Text([a, b, c]) == a + b + c
  {
    assert Text([c]) == c + "" == c;
    assert Text([b, c]) == b + c;
  }

  lemma WeekdaysAre(a: string)
    ensures Weekday([a]) == Some("(toDayOfWeek(" + a + ") - 1)")
    ensures DayName([a]) == Some("dateName('weekday', " + a + ")")
  {
    ThreeParts("(toDayOfWeek(", a, ") - 1)");
    ThreeParts("dateName('weekday', ", a, ")");
  }

  /** FIELD looks its first argument up among the others, in their order. */
  lemma FieldLooksUp(x: string, a: string, b: string)
    ensures Field([x, a, b]) == Some("indexOf([" + (a + ", " + b) + "], " + x + ")")
  {
    assert [x, a, b][1..] == [a, b] && [a, b][1..] == [b];
    assert JoinWith([a, b], ", ") == a + ", " + b;
    FiveParts("indexOf([", a + ", " + b, "], ", x, ")");
  }

  /** An offset of hours, in one digit or two, and minutes: ahead of UTC with a plus, behind it with a minus. */
  lemma OffsetsAre(value: string, sign: char, h: char, k: char, m: char, n: char)
    requires (sign == '+' || sign == '-') && IsDigit(h) && IsDigit(k) && IsDigit(m) && IsDigit(n)
    requires Unquote(value) == [sign, h, k, ':', m, n] || (h == '0' && Unquote(value) == [sign, k, ':', m, n])
    ensures var minutes :=
        60 * (10 * (h - '0') as int + (k - '0') as int) + 10 * (m - '0') as int + (n - '0') as int;
      ParseTimezoneTarget(value) == Some(OffsetMinutes(if sign == '-' then -minutes else minutes))
  {
    var zone := Unquote(value);
    TwoDigits(m, n);
    if |zone| == 6 {
      assert !IsLetter(zone[0]) && zone[1..3] == [h, k] && zone[4..] == [m, n];
      TwoDigits(h, k);
    } else {
      assert !IsLetter(zone[0]) && zone[1..2] == [k] && zone[3..] == [m, n];
      assert [k][..0] == "" && Parse([k]) == (k - '0') as nat;
    }
  }

  /** CONVERT_TZ from UTC: a named zone is converted to, and what is neither a zone nor an offset is left alone. */
  lemma ConvertTzNames(literals: seq<string>, args: seq<string>)
    requires |args| == 3 && IsUtcSpec(Resolve(args[1], literals))
    ensures var target, tz := ParseTimezoneTarget(Resolve(args[2], literals)), ConvertTz(literals, args);
      && (target.None? ==> tz == None)
      && (target.Some? && target.value.Zone? ==>
            tz == Some("toTimeZone(" + args[0] + ", '" + target.value.name + "')"))
  {
    match ParseTimezoneTarget(Resolve(args[2], literals))
    case Some(Zone(name)) => FiveParts("toTimeZone(", args[0], ", '", name, "')");
    case _ =>
  }

  /** CONVERT_TZ from UTC: minutes ahead are added and minutes behind are taken off. */
  lemma ConvertTzShifts(literals: seq<string>, args: seq<string>, m: int)
    requires |args| == 3 && IsUtcSpec(Resolve(args[1], literals))
    requires ParseTimezoneTarget(Resolve(args[2], literals)) == Some(OffsetMinutes(m))
    ensures ConvertTz(literals, args) == Some(
              if m > 0 then "(" + args[0] + " + INTERVAL " + Print(m) + " MINUTE)"
              else if m < 0 then "(" + args[0] + " - INTERVAL " + Print(-m) + " MINUTE)"
              else args[0])
  {
    if m > 0 {
      FiveParts("(", args[0], " + INTERVAL ", Print(m), " MINUTE)");
    } else if m < 0 {
      FiveParts("(", args[0], " - INTERVAL ", Print(-m), " MINUTE)");
    }
  }

  lemma TwoDigits(a: char, b: char)
    requires IsDigit(a) && IsDigit(b)
    ensures AllDigits([a, b]) && Parse([a, b]) == (a - '0') as nat * 10 + (b - '0') as nat
  {
    assert [a, b][..1] == [a] && [a][..0] == "";
    assert AllDigits([a]) && Parse([a]) == (a - '0') as nat;
  }

  /** What counts as UTC, in any case and quotes. */
  lemma UtcSpecs()
    ensures IsUtcSpec("'utc'") && IsUtcSpec("'+00:00'") && IsUtcSpec("GMT") && !IsUtcSpec("'Europe/Berlin'")
  {
    assert Trim("'utc'") == "'utc'" && "'utc'"[1..4] == "utc";
    assert Trim("'+00:00'") == "'+00:00'" && "'+00:00'"[1..7] == "+00:00";
    assert Trim("GMT") == "GMT";
    assert Trim("'Europe/Berlin'") == "'Europe/Berlin'" && |"'Europe/Berlin'"[1..14]| == 13;
  }

  /** GROUP_CONCAT with a separator, and below the casts to integers, by an example each. */
  lemma GroupConcatJoins()
    ensures GroupConcat(["x separator y"]) == Some("arrayStringConcat(groupArray(" + "x" + "), " + "y" + ")")
    ensures GroupConcat(["x"]) == None
  {
    var s := "x separator y";
    assert !IsSpace(s[0]) && SkipSpace(s, 0) == 0 && SeparatorAt(s, 0) == None;
    assert SkipSpace(s, 2) == 2 && SkipSpace(s, 1) == 2 && NameAt(s, 2, "SEPARATOR");
    assert SkipSpace(s, 12) == 12 && SkipSpace(s, 11) == 12 && SkipText(s, 13) == 13 && SkipText(s, 12) == 13;
    assert SeparatorAt(s, 1) == Some((12, 13)) && FindSeparator(s, 1) == Some(1) && FindSeparator(s, 0) == Some(1);
    assert s[..1] == "x" && s[12..13] == "y" && Trim("x") == "x" && Trim("y") == "y";
    FiveParts("arrayStringConcat(groupArray(", "x", "), ", "y", ")");
    assert SeparatorAt("x", 0) == None && SeparatorAt("x", 1) == None && FindSeparator("x", 0) == None;
  }

  lemma FourParts(a: string, b: string, c: string, d: string)
    ensures Text([a, b, c, d]) == a + b + c + d
  {
    assert Text([d]) == d + "" == d;
    assert Text([c, d]) == c + d && Text([b, c, d]) == b + (c + d);
  }

  lemma CastRounds()
    ensures Cast(["x as signed"]) == Some("toInt64" + "(floor(toFloat64(" + "x" + ") + 0.5))")
  {
    var s := "x as signed";
    assert SkipSpace(s, 2) == 2 && SkipSpace(s, 1) == 2 && SkipSpace(s, 5) == 5 && SkipSpace(s, 4) == 5;
    assert NameAt(s, 2, "AS") && NameAt(s, 5, "SIGNED") && !NameAt(s, 5, "UNSIGNED") && SkipSpace(s, 11) == 11;
    assert IntegerTypeAt(s, 1) == Some(false) && FindIntegerType(s, 1) == Some(1);
    assert s[..1] == "x" && Trim("x") == "x";
    FourParts("toInt64", "(floor(toFloat64(", "x", ") + 0.5))");
  }

  lemma CastUnsignedRounds()
    ensures Cast(["x as unsigned"]) == Some("toUInt64" + "(floor(toFloat64(" + "x" + ") + 0.5))")
  {
    var u := "x as unsigned";
    assert SkipSpace(u, 2) == 2 && SkipSpace(u, 1) == 2 && SkipSpace(u, 5) == 5 && SkipSpace(u, 4) == 5;
    assert NameAt(u, 2, "AS") && NameAt(u, 5, "UNSIGNED") && SkipSpace(u, 13) == 13;
    assert IntegerTypeAt(u, 1) == Some(true) && FindIntegerType(u, 1) == Some(1);
    assert u[..1] == "x" && Trim("x") == "x";
    FourParts("toUInt64", "(floor(toFloat64(", "x", ") + 0.5))");
  }

  /** JSON_UNQUOTE of a JSON_EXTRACT with two arguments, in any case. */
  lemma JsonExtractUnquotes(word: string, spaces: string, x: T.Term, y: T.Term)
    requires T.SameName(word, "JSON_EXTRACT") && AllSpace(spaces) && T.AreArguments([x, y]) && Trim(T.Show(y)) != ""
    ensures JsonUnquote([T.Written(word, spaces, [x, y])]) ==
            Some("JSON_VALUE(" + Trim(T.Show(x)) + ", " + Trim(T.Show(y)) + ")")
  {
    var s, list, o := T.Written(word, spaces, [x, y]), JoinWith(T.Shown([x, y]), ","), |word| + |spaces|;
    assert T.Occurs(s, 0, s);
    T.CallOccurs(s, 0, word, spaces, [x, y]);
    T.NameOccurs(s, 0, "JSON_EXTRACT", word);
    T.SpacesSkipped(s, |word|, o);
    assert s[o + 1..|s| - 1] == list;
    T.ArgumentsAre(list, [x, y]);
    FiveParts("JSON_VALUE(", Trim(T.Show(x)), ", ", Trim(T.Show(y)), ")");
  }

  /** Each pass looks for its own function and has its own builder; the words become what they are replaced by. */
  lemma PassesAre(k: nat, literals: seq<string>, args: seq<string>)
    requires 3 <= k < 12
    ensures var p := Passes()[k];
      p.Calls? && p.build(literals)(args) ==
        match p.name
        case "DATEDIFF" => DateDiff(args)
        case "CONVERT_TZ" => ConvertTz(literals, args)
        case "WEEKDAY" => Weekday(args)
        case "DAYNAME" => DayName(args)
        case "FIELD" => Field(args)
        case "GROUP_CONCAT" => GroupConcat(args)
        case "TIMESTAMPDIFF" => TimestampDiff(args)
        case "CAST" => Cast(args)
        case "JSON_UNQUOTE" => JsonUnquote(args)
        case _ => None
  {
  }
}
