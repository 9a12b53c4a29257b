/** The compatibility rewriting of a whole query: literals masked, the passes one after the other, literals restored. */
module CompatPasses {
  import opened LiteralMask
  import opened MysqlCompat
  import opened Wrappers

  type Word = w: string | w != "" witness "x"

  /** A word replaced where it stands bare, or, with its parenthesis, where it is called. */
  datatype Keyword = Bare(word: Word, replacement: string) | Called(word: Word, replacement: string)

  /** Where the word that `k` replaces ends, if it starts at `i`. */
  function WordEnd(k: Keyword, s: string, i: nat): (e: Option<nat>)
    requires i <= |s|
    ensures e.Some? ==> i < e.value <= |s|
  {
    match k
    case Called(word, _) => if CallAt(s, i, word) then Some(OpenIndex(s, i, word) + 1) else None
    case Bare(word, _) =>
      if NameAt(s, i, word) && MayStart(s, i) && IsBare(s, i + |word|) then Some(i + |word|) else None
  }

  /** The word ending before `e` ends there, and is not called. */
  predicate IsBare(s: string, e: nat)
    requires e <= |s|
  {
    && (e < |s| ==> !IsWordChar(s[e]))
    && !(SkipSpace(s, e) < |s| && s[SkipSpace(s, e)] == '(')
  }

  function ReplaceWords(k: Keyword, s: string, i: nat): (r: (string, bool))
    requires i <= |s|
    ensures !r.1 ==> r.0 == s[i..]
    decreases |s| - i
  {
    if i == |s| then ("", false)
    else
      var e := WordEnd(k, s, i);
      if e.Some? then (k.replacement + ReplaceWords(k, s, e.value).0, true)
      else
        var (rest, found) := ReplaceWords(k, s, i + 1);
        ([s[i]] + rest, found)
  }

  /** A pass over the masked text, and what it is noted as. A call's replacement may look its literals up. */
  datatype Pass =
    | Words(note: string, keyword: Keyword)
    | Calls(note: string, name: string, build: seq<string> -> Builder)

  ghost predicate Prepared(passes: seq<Pass>, literals: seq<string>, ws: seq<Rewriting>)
  {
    |ws| == |passes| &&
    forall k | 0 <= k < |passes| && passes[k].Calls? :: Rewrites(ws[k], passes[k].name, passes[k].build(literals))
  }

  function RunPass(p: Pass, w: Rewriting, text: string): (string, bool)
  {
    match p
    case Words(_, keyword) => ReplaceWords(keyword, text, 0)
    case Calls(_, _, _) => (Rewrite(w, text, 0).0, Rewrite(w, text, 0).1 > 0)
  }

  function Noted(applied: seq<string>, note: string): seq<string>
  {
    if note in applied then applied else applied + [note]
  }

  /** The text and the notes after the first `n` passes. */
  function RunPasses(passes: seq<Pass>, ws: seq<Rewriting>, text: string, n: nat): (string, seq<string>)
    requires n <= |passes| == |ws|
  {
    if n == 0 then (text, [])
    else
      var (before, applied) := RunPasses(passes, ws, text, n - 1);
      var (after, found) := RunPass(passes[n - 1], ws[n - 1], before);
      if found then (after, Noted(applied, passes[n - 1].note)) else (before, applied)
  }

  /** Pass `k` finds something in the text the passes before it left. */
  predicate Finds(passes: seq<Pass>, ws: seq<Rewriting>, text: string, k: nat)
    requires k < |passes| == |ws|
  {
    RunPass(passes[k], ws[k], RunPasses(passes, ws, text, k).0).1
  }

  /** One of the first `n` passes has that note and finds something. */
  ghost predicate FoundBy(passes: seq<Pass>, ws: seq<Rewriting>, text: string, n: nat, note: string)
    requires n <= |passes| == |ws|
  {
    exists k: nat :: k < n && passes[k].note == note && Finds(passes, ws, text, k)
  }

  ghost predicate NoDuplicates(notes: seq<string>)
  {
    forall i, j | 0 <= i < j < |notes| :: notes[i] != notes[j]
  }

  /** The notes are those of the passes that found something, each once. */
  ghost predicate NotesFinds(passes: seq<Pass>, ws: seq<Rewriting>, text: string, n: nat, notes: seq<string>)
    requires n <= |passes| == |ws|
  {
    && NoDuplicates(notes)
    && forall note :: note in notes <==> FoundBy(passes, ws, text, n, note)
  }

  lemma {:induction false} NotesAre(passes: seq<Pass>, ws: seq<Rewriting>, text: string, n: nat)
    requires n <= |passes| == |ws|
    ensures NotesFinds(passes, ws, text, n, RunPasses(passes, ws, text, n).1)
  {
    if n > 0 {
      NotesAre(passes, ws, text, n - 1);
      var before, after := RunPasses(passes, ws, text, n - 1).1, RunPasses(passes, ws, text, n).1;
      forall note ensures note in after <==> FoundBy(passes, ws, text, n, note) {
        if note in before {
          var k: nat :| k < n - 1 && passes[k].note == note && Finds(passes, ws, text, k);
        } else if note in after {
          assert Finds(passes, ws, text, n - 1);
        }
      }
    }
  }

  /** A word pass finds something exactly when the word stands somewhere as it is looked for. */
  lemma {:induction false} WordsFoundIff(k: Keyword, s: string, i: nat)
    requires i <= |s|
    ensures ReplaceWords(k, s, i).1 <==> exists j: nat :: i <= j < |s| && WordEnd(k, s, j).Some?
    decreases |s| - i
  {
    if i < |s| {
      if WordEnd(k, s, i).None? {
        WordsFoundIff(k, s, i + 1);
      }
    }
  }

  /** A call pass finds something exactly when it replaces a call. */
  lemma CallsFoundIff(p: Pass, w: Rewriting, text: string)
    requires p.Calls?
    ensures RunPass(p, w, text).1 <==> Replaced(Pieces(w, text, 0)) > 0
  {
    RewriteCounts(w, text, 0);
  }

  function Compat(sql: string, passes: seq<Pass>, ws: seq<Rewriting>): (string, seq<string>)
    requires |ws| == |passes|
  {
    var (masked, literals) := Mask(sql, 0, 0);
    var (out, applied) := RunPasses(passes, ws, masked, |passes|);
    (Resolve(out, literals), applied)
  }

  method RunOne(p: Pass, literals: seq<string>, text: string, ghost w: Rewriting) returns (out: string, found: bool)
    requires p.Calls? ==> Rewrites(w, p.name, p.build(literals))
    ensures (out, found) == RunPass(p, w, text)
  {
    match p {
      case Words(_, keyword) =>
        var r := ReplaceWords(keyword, text, 0);
        out, found := r.0, r.1;
      case Calls(_, name, build) =>
        var count;
        out, count := ReplaceFunctionCalls(text, name, build(literals), w);
        found := count > 0;
    }
  }

  method ApplyMysqlCompat(sql: string, passes: seq<Pass>, ghost ws: seq<Rewriting>)
    returns (result: string, applied: seq<string>)
    requires Prepared(passes, Mask(sql, 0, 0).1, ws)
    ensures (result, applied) == Compat(sql, passes, ws)
    ensures NotesFinds(passes, ws, Mask(sql, 0, 0).0, |passes|, applied)
  {
    NotesAre(passes, ws, Mask(sql, 0, 0).0, |passes|);
    var masked, literals := MaskLiterals(sql);
    var out := masked;
    applied := [];
    for n := 0 to |passes|
      invariant (out, applied) == RunPasses(passes, ws, masked, n)
    {
      var p := passes[n];
      var text, found := RunOne(p, literals, out, ws[n]);
      if found {
        out := text;
        applied := Noted(applied, p.note);
      }
    }
    result := Resolve(out, literals);
  }

  lemma {:induction false} NothingNoted(passes: seq<Pass>, ws: seq<Rewriting>, text: string, n: nat)
    requires n <= |passes| == |ws| && RunPasses(passes, ws, text, n).1 == []
    ensures RunPasses(passes, ws, text, n).0 == text
  {
    if n > 0 {
      NothingNoted(passes, ws, text, n - 1);
    }
  }

  /** A query with nothing to rewrite comes back as it was, exactly when it brings no harmful placeholder along. */
  lemma UnchangedIff(sql: string, passes: seq<Pass>, ws: seq<Rewriting>)
    requires |ws| == |passes| && Compat(sql, passes, ws).1 == []
    ensures Compat(sql, passes, ws).0 == sql <==> Harmless(sql, 0, |Mask(sql, 0, 0).1|)
  {
    NothingNoted(passes, ws, Mask(sql, 0, 0).0, |passes|);
    MaskRoundTripIff(sql);
  }
}
