/** Normalized location text: lower-case words joined by single spaces. */
module LocationText {
  import opened Text
  import opened Wrappers

  const FEDERAL_CAPITAL := "federal capital territory"

  predicate IsWordChar(c: char) {
    'a' <= c <= 'z' || '0' <= c <= '9'
  }

  /** Character classes of the patterns: `[a-z0-9]`, `[^a-z0-9]` and `\s`. */
  datatype Class = Alnum | Other | Blank

  predicate Is(k: Class, c: char) {
    match k
    case Alnum => IsWordChar(c)
    case Other => !IsWordChar(c)
    case Blank => IsSpace(c)
  }

  predicate IsWord(w: string) {
    w != [] && forall c :: c in w ==> IsWordChar(c)
  }

  predicate AllWords(ws: seq<string>) {
    forall w :: w in ws ==> IsWord(w)
  }

  function Join(ws: seq<string>): string {
    if |ws| == 0 then "" else if |ws| == 1 then ws[0] else ws[0] + " " + Join(ws[1..])
  }

  /** `clean` on a string or null. */
  function Clean(value: Option<string>): Option<string> {
    if value.Some? && Trim(value.value) != "" then Some(Trim(value.value)) else None
  }

  function Cleaned(values: seq<Option<string>>): seq<string> {
    if values == [] then []
    else (if Clean(values[0]).Some? then [Clean(values[0]).value] else []) + Cleaned(values[1..])
  }

  /** `replace` of every occurrence of a fixed text, from the left. */
  function ReplaceAll(s: string, pattern: string, text: string): string
    requires pattern != ""
    decreases |s|
  {
    if s == "" then ""
    else if pattern <= s then text + ReplaceAll(s[|pattern|..], pattern, text)
    else [s[0]] + ReplaceAll(s[1..], pattern, text)
  }

  /** The number of leading characters of class `k`. */
  function Run(s: string, k: Class): (n: nat)
    ensures n <= |s| && !Starts(s[n..], k)
    ensures forall i :: 0 <= i < n ==> Is(k, s[i])
  {
    if Starts(s, k) then 1 + Run(s[1..], k) else 0
  }

  predicate Starts(s: string, k: Class) {
    s != [] && Is(k, s[0])
  }

  predicate Ends(s: string, k: Class) {
    s != [] && Is(k, s[|s| - 1])
  }

  /** `replace` of every maximal run of characters of class `k` by one space. */
  function RunsToSpace(s: string, k: Class): string
    decreases |s|
  {
    if s == [] then []
    else if Is(k, s[0]) then [' '] + RunsToSpace(s[Run(s, k)..], k)
    else [s[0]] + RunsToSpace(s[1..], k)
  }

  /** normalizeLocationText; `lower` is `toLowerCase`. */
  function Normalize(lower: string -> string, values: seq<Option<string>>): string {
    Finish(lower(Join(Cleaned(values))))
  }

  /** The replacements and the last `trim`. */
  function Finish(s: string): string {
    Trim(RunsToSpace(RunsToSpace(Replaced(s), Other), Blank))
  }

  /** The maximal runs of word characters. */
  function Words(s: string): seq<string>
    decreases |s|
  {
    if s == [] then []
    else if IsWordChar(s[0]) then
      var n := Run(s, Alnum);
      [s[..n]] + Words(s[n..])
    else Words(s[1..])
  }

  // ---------- the normal form ----------

  lemma {:induction false} WordsAreWords(s: string)
    ensures AllWords(Words(s))
    decreases |s|
  {
    if Starts(s, Alnum) {
      WordsAreWords(s[Run(s, Alnum)..]);
    } else if s != [] {
      WordsAreWords(s[1..]);
    }
  }

  /** Words and single spaces only. */
  predicate Tight(s: string) {
    forall i :: 0 <= i < |s| ==>
      (IsWordChar(s[i]) || s[i] == ' ') && (i > 0 && s[i] == ' ' ==> s[i - 1] != ' ')
  }

  lemma {:induction false} TightStays(s: string, k: Class)
    requires Tight(s) && k != Alnum
    ensures RunsToSpace(s, k) == s
    decreases |s|
  {
    if s != [] {
      assert Tight(s[1..]);
      if Is(k, s[0]) {
        assert s[0] == ' ';
        if |s| > 1 { assert s[1] != ' ' && IsWordChar(s[1]); }
        assert Run(s, k) == 1;
      }
      TightStays(s[1..], k);
    }
  }

  lemma {:induction false} WordsSkip(s: string)
    ensures Words(s[Run(s, Other)..]) == Words(s)
    decreases |s|
  {
    if Starts(s, Other) { WordsSkip(s[1..]); }
  }

  lemma {:induction false} CopyWord(run: string, rest: string)
    requires forall c :: c in run ==> IsWordChar(c)
    ensures RunsToSpace(run + rest, Other) == run + RunsToSpace(rest, Other)
    decreases |run|
  {
    if run == [] {
      assert run + rest == rest;
    } else {
      CopyWord(run[1..], rest);
      assert (run + rest)[0] == run[0] && (run + rest)[1..] == run[1..] + rest;
      assert run == [run[0]] + run[1..];
    }
  }

  /** The words joined, with a space after them if text followed. */
  function Body(ws: seq<string>, more: bool): string {
    if ws == [] then "" else if more then Join(ws) + " " else Join(ws)
  }

  /** The words joined, with a space where an outer run of other characters was. */
  function Framed(s: string): string {
    Frame(Starts(s, Other), Words(s), Ends(s, Other))
  }

  function Frame(before: bool, ws: seq<string>, after: bool): string {
    if before then " " + Body(ws, after) else Body(ws, after)
  }

  lemma {:induction false} NoWords(s: string)
    requires Words(s) == [] && s != []
    ensures Ends(s, Other)
    decreases |s|
  {
    if Starts(s, Other) && |s| > 1 { NoWords(s[1..]); }
  }

  predicate SameEnd(s: string, rest: string) {
    rest == [] || (s != [] && rest[|rest| - 1] == s[|s| - 1])
  }

  lemma FrameAfterSpace(s: string, rest: string)
    requires Starts(s, Other) && !Starts(rest, Other) && Words(s) == Words(rest) && SameEnd(s, rest)
    ensures Framed(s) == " " + Framed(rest)
  {
    if rest == [] { assert Words(rest) == []; }
  }

  lemma BodyOfMore(run: string, ws: seq<string>, more: bool)
    requires ws != []
    ensures Body([run] + ws, more) == run + (" " + Body(ws, more))
  {
    assert ([run] + ws)[1..] == ws;
    assert Join([run] + ws) == run + " " + Join(ws);
    assert run + " " + Join(ws) + " " == run + (" " + (Join(ws) + " "));
    assert run + " " + Join(ws) == run + (" " + Join(ws));
  }

  lemma FrameOfMore(run: string, ws: seq<string>, more: bool)
    requires ws == [] ==> more
    ensures Frame(false, [run] + ws, more) == run + Frame(true, ws, more)
  {
    if ws == [] {
      assert Frame(true, ws, more) == " ";
    } else {
      BodyOfMore(run, ws, more);
    }
  }

  lemma FrameAfterWord(s: string, run: string, rest: string)
    requires Starts(s, Alnum) && s == run + rest && SameEnd(s, rest) && Words(s) == [run] + Words(rest)
    requires if rest == [] then Ends(s, Alnum) else Starts(rest, Other)
    ensures Framed(s) == run + Framed(rest)
  {
    var ws, more := Words(rest), Ends(s, Other);
    if rest == [] {
      assert ws == [] && [run] + ws == [run];
      assert Framed(s) == run && Framed(rest) == "";
    } else {
      if ws == [] { NoWords(rest); }
      FrameOfMore(run, ws, more);
    }
  }

  /** Replacing runs leaves the words joined by single spaces, with a space for an outer run. */
  lemma {:induction false} RunsAreWords(s: string)
    ensures RunsToSpace(s, Other) == Framed(s)
    decreases |s|
  {
    if s == [] {
      assert Framed(s) == "";
    } else if Starts(s, Other) {
      SpaceHead(s);
      RunsAreWords(s[Run(s, Other)..]);
    } else {
      WordHead(s);
      RunsAreWords(s[Run(s, Alnum)..]);
    }
  }

  lemma SpaceHead(s: string)
    requires Starts(s, Other)
    ensures var rest := s[Run(s, Other)..];
      RunsToSpace(s, Other) == " " + RunsToSpace(rest, Other) && Framed(s) == " " + Framed(rest)
  {
    WordsSkip(s);
    FrameAfterSpace(s, s[Run(s, Other)..]);
  }

  lemma WordHead(s: string)
    requires Starts(s, Alnum)
    ensures var rest := s[Run(s, Alnum)..]; var run := s[..Run(s, Alnum)];
      RunsToSpace(s, Other) == run + RunsToSpace(rest, Other) && Framed(s) == run + Framed(rest)
  {
    var rest := s[Run(s, Alnum)..];
    var run := s[..Run(s, Alnum)];
    assert s == run + rest;
    assert forall c :: c in run ==> IsWordChar(c);
    CopyWord(run, rest);
    FrameAfterWord(s, run, rest);
  }

  lemma {:induction false} JoinIsTight(ws: seq<string>)
    requires AllWords(ws)
    ensures Tight(Join(ws))
    ensures ws != [] ==> Join(ws) != "" && IsWordChar(Join(ws)[0]) && IsWordChar(Join(ws)[|Join(ws)| - 1])
    decreases |ws|
  {
    if |ws| > 0 {
      assert IsWord(ws[0]);
      assert forall i :: 0 <= i < |ws[0]| ==> IsWordChar(ws[0][i]);
      if |ws| > 1 {
        assert AllWords(ws[1..]);
        JoinIsTight(ws[1..]);
      }
    }
  }

  lemma TrimTail(s: string)
    requires s != "" && IsWordChar(s[|s| - 1])
    ensures TrimEnd(s) == s && TrimEnd(s + " ") == s
  {
    assert TrimEnd(s) == s;
    DropLastSpace(s + " ", s);
  }

  lemma DropLastSpace(t: string, s: string)
    requires t == s + " "
    ensures TrimEnd(t) == TrimEnd(s)
  {
    assert t[|t| - 1] == ' ' && t[..|t| - 1] == s;
  }

  lemma TrimHead(s: string)
    requires s != "" && IsWordChar(s[0])
    ensures TrimStart(s) == s && TrimStart(" " + s) == s
  {
    var t := " " + s;
    assert t[0] == ' ' && t[1..] == s;
  }

  lemma TrimFrame(before: bool, ws: seq<string>, after: bool)
    requires AllWords(ws)
    ensures Trim(Frame(before, ws, after)) == Join(ws)
  {
    JoinIsTight(ws);
    if ws == [] {
      assert Trim("") == "" && Trim(" ") == "";
      assert Frame(before, ws, after) == if before then " " else "";
    } else {
      var body := Body(ws, after);
      assert body[0] == Join(ws)[0];
      TrimHead(body);
      TrimTail(Join(ws));
    }
  }

  lemma FrameIsTight(before: bool, ws: seq<string>, after: bool)
    requires AllWords(ws)
    ensures Tight(Frame(before, ws, after))
  {
    JoinIsTight(ws);
    assert Tight(Body(ws, after));
  }

  function Replaced(s: string): string {
    ReplaceAll(ReplaceAll(s, FEDERAL_CAPITAL, "fct"), "&", " and ")
  }

  /** Whatever the replacements leave, the result is exactly its words joined by single spaces. */
  lemma NormalForm(s: string)
    ensures Finish(s) == Join(Words(Replaced(s)))
  {
    RunsAreWords(Replaced(s));
    var t := Replaced(s);
    WordsAreWords(t);
    TrimFrame(Starts(t, Other), Words(t), Ends(t, Other));
    FrameIsTight(Starts(t, Other), Words(t), Ends(t, Other));
    TightStays(Framed(t), Blank);
  }

  // ---------- normalizing twice ----------

  predicate Occurs(pattern: string, s: string) {
    pattern <= s || (s != "" && Occurs(pattern, s[1..]))
  }

  lemma {:induction false} ReplaceShortens(s: string, pattern: string, text: string)
    requires pattern != "" && |text| < |pattern|
    ensures |ReplaceAll(s, pattern, text)| <= |s|
    ensures Occurs(pattern, s) <==> ReplaceAll(s, pattern, text) != s
    ensures Occurs(pattern, s) <==> |ReplaceAll(s, pattern, text)| < |s|
    decreases |s|
  {
    if s != "" {
      if pattern <= s {
        ReplaceShortens(s[|pattern|..], pattern, text);
      } else {
        ReplaceShortens(s[1..], pattern, text);
        assert s == [s[0]] + s[1..];
      }
    }
  }

  lemma {:induction false} NothingToReplace(s: string, pattern: string, text: string)
    requires pattern != "" && pattern[0] !in s
    ensures ReplaceAll(s, pattern, text) == s
    decreases |s|
  {
    if s != "" { NothingToReplace(s[1..], pattern, text); }
  }

  lemma {:induction false} ReplacedChars(s: string, pattern: string, text: string, c: char)
    requires pattern != "" && c !in s && c !in text
    ensures c !in ReplaceAll(s, pattern, text)
    decreases |s|
  {
    if s != "" {
      ReplacedChars(if pattern <= s then s[|pattern|..] else s[1..], pattern, text, c);
    }
  }

  lemma {:induction false} RunsShorten(s: string, k: Class)
    ensures |RunsToSpace(s, k)| <= |s|
    decreases |s|
  {
    if s != "" { RunsShorten(if Is(k, s[0]) then s[Run(s, k)..] else s[1..], k); }
  }

  lemma {:induction false} TrimStartShortens(s: string)
    ensures |TrimStart(s)| <= |s|
  {
    if s != "" { TrimStartShortens(s[1..]); }
  }

  lemma FinishShortens(s: string)
    ensures |Finish(s)| <= |Replaced(s)|
  {
    var squeezed := RunsToSpace(Replaced(s), Other);
    RunsShorten(Replaced(s), Other);
    RunsShorten(squeezed, Blank);
    TrimStartShortens(RunsToSpace(squeezed, Blank));
  }

  lemma ReplacedText(t: string)
    requires '&' !in t
    ensures Replaced(t) == ReplaceAll(t, FEDERAL_CAPITAL, "fct")
  {
    ReplacedChars(t, FEDERAL_CAPITAL, "fct", '&');
    NothingToReplace(ReplaceAll(t, FEDERAL_CAPITAL, "fct"), "&", " and ");
  }

  lemma TrimNormalized(ws: seq<string>)
    requires AllWords(ws)
    ensures Trim(Join(ws)) == Join(ws) && Cleaned([Some(Join(ws))]) == if ws == [] then [] else [Join(ws)]
  {
    TrimFrame(false, ws, false);
    assert Frame(false, ws, false) == Join(ws);
    JoinIsTight(ws);
    assert Cleaned([Some(Join(ws))][1..]) == [];
  }

  lemma FinishTight(t: string)
    requires Tight(t) && Trim(t) == t
    ensures Finish(t) == t <==> !Occurs(FEDERAL_CAPITAL, t)
  {
    assert '&' !in t;
    ReplacedText(t);
    ReplaceShortens(t, FEDERAL_CAPITAL, "fct");
    if Occurs(FEDERAL_CAPITAL, t) {
      FinishShortens(t);
    } else {
      TightStays(t, Other);
      TightStays(t, Blank);
    }
  }

  /** Normalizing a normalized text changes it exactly when punctuation had hidden the name of the
      capital territory from the first pass. */
  lemma NormalizingTwice(lower: string -> string, values: seq<Option<string>>)
    requires lower(Normalize(lower, values)) == Normalize(lower, values)
    ensures var t := Normalize(lower, values);
      Normalize(lower, [Some(t)]) == t <==> !Occurs(FEDERAL_CAPITAL, t)
  {
    var replaced := Replaced(lower(Join(Cleaned(values))));
    var t := Normalize(lower, values);
    NormalForm(lower(Join(Cleaned(values))));
    WordsAreWords(replaced);
    TrimNormalized(Words(replaced));
    JoinIsTight(Words(replaced));
    assert Join(Cleaned([Some(t)])) == t;
    FinishTight(t);
  }

  // ---------- the fields ----------

  /** What a field adds: its text without outer white space, or nothing when that is empty. */
  function FieldText(field: Option<string>): seq<string> {
    if field.None? || Trim(field.value) == "" then [] else [Trim(field.value)]
  }

  lemma FirstField(field: Option<string>, rest: seq<Option<string>>)
    ensures Cleaned([field] + rest) == FieldText(field) + Cleaned(rest)
  {
    assert ([field] + rest)[0] == field && ([field] + rest)[1..] == rest;
  }

  /** Every field counts, one after the other; an absent or blank one adds nothing. */
  lemma {:induction false} FieldsInOrder(a: seq<Option<string>>, b: seq<Option<string>>)
    ensures Cleaned(a + b) == Cleaned(a) + Cleaned(b)
  {
    if a == [] {
      assert a + b == b;
    } else {
      var first, rest := a[0], a[1..];
      FieldsInOrder(rest, b);
      assert a == [first] + rest && a + b == [first] + (rest + b);
      FirstField(first, rest);
      FirstField(first, rest + b);
      Associates(FieldText(first), Cleaned(rest), Cleaned(b));
    }
  }

  lemma Associates(a: seq<string>, b: seq<string>, c: seq<string>)
    ensures a + (b + c) == (a + b) + c
  {
  }
}
