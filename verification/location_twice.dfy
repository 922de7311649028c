/** When normalizing a location a second time changes it again: the first pass replaces the name of the
    federal capital territory only where it is written with single spaces, and turns other separators into
    such spaces afterwards. */
module LocationTwice {
  import opened LocationText
  import opened Text
  import opened Wrappers

  const FEDERAL := "federal"
  const CAPITAL := "capital"
  const TERRITORY := "territory"

  /** What can separate two neighbouring words: `&` cannot, it becomes the word "and". */
  predicate Gap(g: string) {
    g != "" && forall c :: c in g ==> !IsWordChar(c) && c != '&'
  }

  function Name(g: string, h: string): string {
    FEDERAL + (g + (CAPITAL + (h + TERRITORY)))
  }

  /** The text starts with the end of a word "federal", the word "capital" and the start of a word
      "territory". */
  ghost predicate NameAt(s: string) {
    exists g, h :: Gap(g) && Gap(h) && Name(g, h) <= s
  }

  /** The same, but not with single spaces between the words. */
  ghost predicate HiddenAt(s: string) {
    exists g, h :: Gap(g) && Gap(h) && !(g == " " && h == " ") && Name(g, h) <= s
  }

  ghost predicate HasName(s: string) {
    NameAt(s) || (s != "" && HasName(s[1..]))
  }

  /** Somewhere in the text three neighbouring words are one ending in "federal", "capital", and one starting
      with "territory", with other separators than two single spaces. */
  ghost predicate HasHiddenName(s: string) {
    HiddenAt(s) || (s != "" && HasHiddenName(s[1..]))
  }

  // ---------- the parts of the name ----------

  lemma Parts()
    ensures FEDERAL_CAPITAL == Name(" ", " ")
    ensures forall c :: c in FEDERAL || c in CAPITAL || c in TERRITORY ==> IsWordChar(c)
    ensures 'f' !in FEDERAL[1..] && 'f' !in CAPITAL && 'f' !in TERRITORY
    ensures FEDERAL[0] == 'f' && FEDERAL[1] == 'e' && CAPITAL[0] == 'c' && TERRITORY[0] == 't' && TERRITORY[8] == 'y'
    ensures |FEDERAL| == 7 && |CAPITAL| == 7 && |TERRITORY| == 9
  {
  }

  /** The name without its first letter. */
  function Rest(g: string, h: string): string {
    FEDERAL[1..] + (g + (CAPITAL + (h + TERRITORY)))
  }

  lemma NameIsFAndRest(g: string, h: string, x: string)
    ensures Name(g, h) <= x <==> x != "" && x[0] == 'f' && Rest(g, h) <= x[1..]
  {
    Parts();
    assert Name(g, h)[1..] == Rest(g, h) && Name(g, h)[0] == 'f';
    if x != "" && x[0] == 'f' && Rest(g, h) <= x[1..] {
      assert x == [x[0]] + x[1..];
    }
  }

  lemma RestHasNoF(g: string, h: string)
    requires Gap(g) && Gap(h)
    ensures 'f' !in Rest(g, h)
  {
    Parts();
  }

  lemma OnlyAtF(s: string)
    requires s == "" || s[0] != 'f'
    ensures !NameAt(s) && !HiddenAt(s)
  {
    forall g, h ensures !(Name(g, h) <= s) { NameIsFAndRest(g, h, s); }
  }

  lemma {:induction false} SkipHidden(p: string, x: string)
    requires 'f' !in p
    ensures HasHiddenName(p + x) <==> HasHiddenName(x)
  {
    if p == "" {
      assert p + x == x;
    } else {
      OnlyAtF(p + x);
      assert (p + x)[1..] == p[1..] + x;
      SkipHidden(p[1..], x);
    }
  }

  lemma {:induction false} SkipName(p: string, x: string)
    requires 'f' !in p
    ensures HasName(p + x) <==> HasName(x)
  {
    if p == "" {
      assert p + x == x;
    } else {
      OnlyAtF(p + x);
      assert (p + x)[1..] == p[1..] + x;
      SkipName(p[1..], x);
    }
  }

  // ---------- replacing the name ----------

  /** Text without an f is copied, and only such text is found in the result. */
  lemma {:induction false} CopiesRest(t: string, p: string)
    requires 'f' !in p
    ensures p <= t <==> p <= ReplaceAll(t, FEDERAL_CAPITAL, "fct")
    decreases |p|
  {
    Parts();
    if p != "" && t != "" {
      var r := ReplaceAll(t, FEDERAL_CAPITAL, "fct");
      if FEDERAL_CAPITAL <= t {
        assert t[0] == FEDERAL_CAPITAL[0] == 'f' && r[0] == 'f' && p[0] != 'f';
      } else {
        CopiesRest(t[1..], p[1..]);
        PrefixStep(p, t);
        PrefixStep(p, r);
      }
    }
  }

  lemma PrefixStep(p: string, x: string)
    requires p != "" && x != ""
    ensures p <= x <==> p[0] == x[0] && p[1..] <= x[1..]
  {
    if p[0] == x[0] && p[1..] <= x[1..] {
      assert p == [p[0]] + p[1..] && x == [x[0]] + x[1..];
    }
  }

  lemma GapIsSpace(g: string, tail: string, x: string)
    requires Gap(g) && tail != "" && IsWordChar(tail[0]) && g + tail <= x && |x| > 1 && x[0] == ' ' && IsWordChar(x[1])
    ensures g == " "
  {
    assert (g + tail)[1] == x[1] && (g + tail)[0] == x[0];
    assert forall i :: 0 <= i < |g| ==> g[i] in g && (g + tail)[i] == g[i];
  }

  lemma DropPrefix(p: string, q: string, x: string)
    requires p + q <= x
    ensures p <= x && q <= x[|p|..]
  {
    assert x[..|p| + |q|] == p + q;
    assert x[..|p|] == p;
    assert x[|p|..][..|q|] == q;
  }

  /** Where the name stands with single spaces, it stands in no other way. */
  lemma ExactIsNotHidden(t: string)
    requires FEDERAL_CAPITAL <= t
    ensures !HiddenAt(t)
  {
    Parts();
    forall g, h | Gap(g) && Gap(h) && Name(g, h) <= t ensures g == " " && h == " " {
      assert t[7] == FEDERAL_CAPITAL[7] == ' ' && t[8] == FEDERAL_CAPITAL[8] == 'c';
      assert t[15] == FEDERAL_CAPITAL[15] == ' ' && t[16] == FEDERAL_CAPITAL[16] == 't';
      DropPrefix(FEDERAL, g + (CAPITAL + (h + TERRITORY)), t);
      assert t[7..][0] == ' ' && t[7..][1] == 'c';
      GapIsSpace(g, CAPITAL + (h + TERRITORY), t[7..]);
      DropPrefix(g, CAPITAL + (h + TERRITORY), t[7..]);
      assert t[7..][1..] == t[8..];
      DropPrefix(CAPITAL, h + TERRITORY, t[8..]);
      assert t[8..][7..] == t[15..];
      assert t[15..][0] == ' ' && t[15..][1] == 't';
      GapIsSpace(h, TERRITORY, t[15..]);
    }
  }

  /** Where the name is not replaced, it is found in the result exactly when it is hidden. */
  lemma NameAfterCopy(t: string)
    requires t != "" && !(FEDERAL_CAPITAL <= t)
    ensures NameAt(ReplaceAll(t, FEDERAL_CAPITAL, "fct")) <==> HiddenAt(t)
  {
    var r := ReplaceAll(t, FEDERAL_CAPITAL, "fct");
    assert r == [t[0]] + ReplaceAll(t[1..], FEDERAL_CAPITAL, "fct");
    assert r[1..] == ReplaceAll(t[1..], FEDERAL_CAPITAL, "fct");
    Parts();
    forall g, h | Gap(g) && Gap(h) ensures Name(g, h) <= r <==> Name(g, h) <= t {
      NameIsFAndRest(g, h, r);
      NameIsFAndRest(g, h, t);
      RestHasNoF(g, h);
      CopiesRest(t[1..], Rest(g, h));
    }
  }

  lemma FctIsNoName(u: string)
    ensures HasName("fct" + u) <==> HasName(u)
  {
    Parts();
    var x := "fct" + u;
    forall g, h ensures !(Name(g, h) <= x) {
      assert Name(g, h)[1] == 'e' && x[1] == 'c';
    }
    assert x[1..] == "ct" + u;
    SkipName("ct", u);
  }

  lemma {:induction false} ReplacingLeavesHidden(t: string)
    ensures HasName(ReplaceAll(t, FEDERAL_CAPITAL, "fct")) <==> HasHiddenName(t)
    decreases |t|
  {
    if t == "" {
      OnlyAtF(t);
    } else if FEDERAL_CAPITAL <= t {
      Parts();
      var rest := t[|FEDERAL_CAPITAL|..];
      ReplacingLeavesHidden(rest);
      FctIsNoName(ReplaceAll(rest, FEDERAL_CAPITAL, "fct"));
      ExactIsNotHidden(t);
      RestHasNoF(" ", " ");
      assert t == FEDERAL_CAPITAL + rest;
      assert FEDERAL_CAPITAL[1..] == Rest(" ", " ");
      assert t[1..] == Rest(" ", " ") + rest;
      SkipHidden(Rest(" ", " "), rest);
    } else {
      ReplacingLeavesHidden(t[1..]);
      NameAfterCopy(t);
      var r := ReplaceAll(t, FEDERAL_CAPITAL, "fct");
      assert r[1..] == ReplaceAll(t[1..], FEDERAL_CAPITAL, "fct");
    }
  }

  // ---------- replacing the ampersand ----------

  /** No ampersand, no space before an a, and no space at the end. */
  predicate Calm(p: string) {
    && '&' !in p && (p != "" ==> p[|p| - 1] != ' ')
    && forall i :: 0 <= i < |p| - 1 && p[i] == ' ' ==> p[i + 1] != 'a'
  }

  lemma CalmConcat(p: string, q: string)
    requires Calm(q) && '&' !in p && q != "" && q[0] != 'a'
    requires forall i :: 0 <= i < |p| - 1 && p[i] == ' ' ==> p[i + 1] != 'a'
    ensures Calm(p + q)
  {
  }

  lemma RestIsCalm(g: string, h: string)
    requires Gap(g) && Gap(h)
    ensures Calm(Rest(g, h))
  {
    Parts();
    assert Calm(TERRITORY) && Calm(CAPITAL) && Calm(FEDERAL[1..]);
    assert forall i :: 0 <= i < |h| ==> h[i] in h;
    assert forall i :: 0 <= i < |g| ==> g[i] in g;
    CalmConcat(h, TERRITORY);
    CalmConcat(CAPITAL, h + TERRITORY);
    CalmConcat(g, CAPITAL + (h + TERRITORY));
    CalmConcat(FEDERAL[1..], g + (CAPITAL + (h + TERRITORY)));
  }

  lemma {:induction false} CopiesCalm(t: string, p: string)
    requires Calm(p)
    ensures p <= t <==> p <= ReplaceAll(t, "&", " and ")
    decreases |p|
  {
    if p != "" && t != "" {
      var r := ReplaceAll(t, "&", " and ");
      assert p[0] in p;
      PrefixStep(p, t);
      if "&" <= t {
        assert t[0] == '&';
        assert r[0] == ' ' && r[1] == 'a';
      } else {
        assert Calm(p[1..]) by {
          assert forall c :: c in p[1..] ==> c in p;
          if |p| > 1 { assert p[1..][|p| - 2] == p[|p| - 1]; }
        }
        CopiesCalm(t[1..], p[1..]);
        PrefixStep(p, r);
      }
    }
  }

  lemma {:induction false} AmpersandsSeparate(t: string)
    ensures HasName(ReplaceAll(t, "&", " and ")) <==> HasName(t)
    decreases |t|
  {
    if t != "" {
      var r := ReplaceAll(t, "&", " and ");
      AmpersandsSeparate(t[1..]);
      if "&" <= t {
        assert t[0] == '&';
        OnlyAtF(t);
        SkipName(" and ", ReplaceAll(t[1..], "&", " and "));
      } else {
        assert r[1..] == ReplaceAll(t[1..], "&", " and ");
        forall g, h | Gap(g) && Gap(h) ensures Name(g, h) <= r <==> Name(g, h) <= t {
          NameIsFAndRest(g, h, r);
          NameIsFAndRest(g, h, t);
          RestIsCalm(g, h);
          CopiesCalm(t[1..], Rest(g, h));
        }
      }
    }
  }

  // ---------- squeezing the separators ----------

  /** A word is copied, and only a word is found in the result. */
  lemma WordIsCopied(r: string, w: string)
    requires forall c :: c in w ==> IsWordChar(c)
    ensures w <= r <==> w <= RunsToSpace(r, Other)
    ensures w <= r ==> RunsToSpace(r, Other) == w + RunsToSpace(r[|w|..], Other)
  {
    WordIsFound(r, w);
    if w <= r {
      assert r == w + r[|w|..];
      CopyWord(w, r[|w|..]);
    }
  }

  lemma {:induction false} WordIsFound(r: string, w: string)
    requires forall c :: c in w ==> IsWordChar(c)
    ensures w <= r <==> w <= RunsToSpace(r, Other)
    decreases |w|
  {
    if w != "" && r != "" {
      var x := RunsToSpace(r, Other);
      assert w[0] in w;
      PrefixStep(w, r);
      if Is(Other, r[0]) {
        assert x[0] == ' ';
      } else {
        assert x[0] == r[0] && x[1..] == RunsToSpace(r[1..], Other);
        assert forall c :: c in w[1..] ==> c in w;
        WordIsFound(r[1..], w[1..]);
        PrefixStep(w, x);
      }
    }
  }

  lemma {:induction false} GapLength(g: string, z: string)
    requires (forall c :: c in g ==> !IsWordChar(c)) && z != "" && IsWordChar(z[0])
    ensures Run(g + z, Other) == |g|
  {
    if g == "" {
      assert g + z == z;
    } else {
      assert g[0] in g;
      assert (g + z)[1..] == g[1..] + z;
      GapLength(g[1..], z);
    }
  }

  lemma GapRun(g: string, z: string)
    requires Gap(g) && z != "" && IsWordChar(z[0])
    ensures RunsToSpace(g + z, Other) == " " + RunsToSpace(z, Other)
  {
    GapLength(g, z);
    assert (g + z)[0] == g[0] && g[0] in g;
    assert (g + z)[|g|..] == z;
  }

  lemma HeadOf(r: string)
    requires r != ""
    ensures RunsToSpace(r, Other) != "" && (RunsToSpace(r, Other)[0] == ' ' ==> Is(Other, r[0]))
  {
  }

  /** A squeezed text that starts with a space comes from one that starts with a gap. */
  lemma SpaceFromGap(r: string, w: string) returns (g: string)
    requires '&' !in r && w != "" && IsWordChar(w[0]) && " " + w <= RunsToSpace(r, Other)
    ensures Gap(g) && g <= r && w <= RunsToSpace(r[|g|..], Other)
  {
    var x := RunsToSpace(r, Other);
    assert x[0] == ' ';
    HeadOf(r);
    var n := Run(r, Other);
    g := r[..n];
    assert forall c :: c in g ==> c in r;
    assert forall i :: 0 <= i < n ==> Is(Other, r[i]);
    assert x == " " + RunsToSpace(r[n..], Other);
    DropPrefix(" ", w, x);
    assert x[1..] == RunsToSpace(r[n..], Other);
  }

  lemma JoinPrefix(p: string, q: string, x: string)
    requires p <= x && q <= x[|p|..]
    ensures p + q <= x
  {
    assert x == p + x[|p|..];
  }

  /** A word, a gap and the rest. */
  lemma WordAndGap(w: string, g: string, z: string)
    requires (forall c :: c in w ==> IsWordChar(c)) && Gap(g) && z != "" && IsWordChar(z[0])
    ensures RunsToSpace(w + (g + z), Other) == w + (" " + RunsToSpace(z, Other))
  {
    var r := w + (g + z);
    WordIsCopied(r, w);
    assert r[|w|..] == g + z;
    GapRun(g, z);
  }

  function Rejoined(g: string, h: string, y: string): string {
    FEDERAL + (g + (CAPITAL + (h + (TERRITORY + y))))
  }

  lemma NameConcat(g: string, h: string, y: string)
    ensures Name(g, h) + y == Rejoined(g, h, y)
  {
    assert (h + TERRITORY) + y == h + (TERRITORY + y);
    assert (CAPITAL + (h + TERRITORY)) + y == CAPITAL + (h + (TERRITORY + y));
    assert (g + (CAPITAL + (h + TERRITORY))) + y == g + (CAPITAL + (h + (TERRITORY + y)));
  }

  lemma RejoinedSqueezes(g: string, h: string, y: string)
    requires Gap(g) && Gap(h)
    ensures RunsToSpace(Rejoined(g, h, y), Other) == Rejoined(" ", " ", RunsToSpace(y, Other))
  {
    Parts();
    var r4 := TERRITORY + y;
    var r3 := CAPITAL + (h + r4);
    WordIsCopied(r4, TERRITORY);
    assert r4[|TERRITORY|..] == y;
    WordAndGap(CAPITAL, h, r4);
    WordAndGap(FEDERAL, g, r3);
  }

  lemma NameSqueezes(r: string, g: string, h: string)
    requires Gap(g) && Gap(h) && Name(g, h) <= r
    ensures RunsToSpace(r, Other) == FEDERAL_CAPITAL + RunsToSpace(r[|Name(g, h)|..], Other)
  {
    Parts();
    var y := r[|Name(g, h)|..];
    assert r == Name(g, h) + y;
    NameConcat(g, h, y);
    RejoinedSqueezes(g, h, y);
    NameConcat(" ", " ", RunsToSpace(y, Other));
  }

  /** A word at the start of a squeezed text is one at the start of the text; the rests correspond. */
  lemma WordOff(r: string, w: string, q: string)
    requires (forall c :: c in w ==> IsWordChar(c)) && w + q <= RunsToSpace(r, Other)
    ensures w <= r && q <= RunsToSpace(r[|w|..], Other)
  {
    var x := RunsToSpace(r, Other);
    DropPrefix(w, q, x);
    WordIsCopied(r, w);
    assert x[|w|..] == RunsToSpace(r[|w|..], Other);
  }

  lemma NoAmpersandInRest(r: string, n: nat)
    requires '&' !in r && n <= |r|
    ensures '&' !in r[n..]
  {
  }

  lemma SqueezedIsName(r: string)
    requires '&' !in r && FEDERAL_CAPITAL <= RunsToSpace(r, Other)
    ensures NameAt(r)
  {
    Parts();
    WordOff(r, FEDERAL, " " + (CAPITAL + (" " + TERRITORY)));
    var r1 := r[|FEDERAL|..];
    NoAmpersandInRest(r, |FEDERAL|);
    var g := SpaceFromGap(r1, CAPITAL + (" " + TERRITORY));
    var r2 := r1[|g|..];
    NoAmpersandInRest(r1, |g|);
    WordOff(r2, CAPITAL, " " + TERRITORY);
    var r3 := r2[|CAPITAL|..];
    NoAmpersandInRest(r2, |CAPITAL|);
    var h := SpaceFromGap(r3, TERRITORY);
    WordIsCopied(r3[|h|..], TERRITORY);
    NameFromParts(r, g, h);
  }

  lemma NameFromParts(r: string, g: string, h: string)
    requires FEDERAL <= r && g <= r[|FEDERAL|..] && CAPITAL <= r[|FEDERAL|..][|g|..]
    requires h <= r[|FEDERAL|..][|g|..][|CAPITAL|..] && TERRITORY <= r[|FEDERAL|..][|g|..][|CAPITAL|..][|h|..]
    ensures Name(g, h) <= r
  {
    var r1 := r[|FEDERAL|..];
    var r2 := r1[|g|..];
    var r3 := r2[|CAPITAL|..];
    JoinPrefix(h, TERRITORY, r3);
    JoinPrefix(CAPITAL, h + TERRITORY, r2);
    JoinPrefix(g, CAPITAL + (h + TERRITORY), r1);
    JoinPrefix(FEDERAL, g + (CAPITAL + (h + TERRITORY)), r);
  }

  lemma SpaceIsNoName(u: string)
    ensures Occurs(FEDERAL_CAPITAL, " " + u) <==> Occurs(FEDERAL_CAPITAL, u)
  {
    var x := " " + u;
    assert x[1..] == u && x[0] != FEDERAL_CAPITAL[0];
  }

  lemma {:induction false} OccursIffName(r: string)
    requires '&' !in r
    ensures Occurs(FEDERAL_CAPITAL, RunsToSpace(r, Other)) <==> HasName(r)
    decreases |r|
  {
    if r == "" {
      OnlyAtF(r);
    } else if Is(Other, r[0]) {
      var n := Run(r, Other);
      assert forall c :: c in r[n..] ==> c in r;
      OccursIffName(r[n..]);
      SpaceIsNoName(RunsToSpace(r[n..], Other));
      assert 'f' !in r[..n] by {
        assert forall i :: 0 <= i < n ==> Is(Other, r[i]);
      }
      assert r == r[..n] + r[n..];
      SkipName(r[..n], r[n..]);
    } else {
      assert forall c :: c in r[1..] ==> c in r;
      OccursIffName(r[1..]);
      assert RunsToSpace(r, Other)[1..] == RunsToSpace(r[1..], Other);
      if NameAt(r) {
        var g, h :| Gap(g) && Gap(h) && Name(g, h) <= r;
        NameSqueezes(r, g, h);
      }
      if FEDERAL_CAPITAL <= RunsToSpace(r, Other) { SqueezedIsName(r); }
    }
  }

  lemma {:induction false} NoNameAtTheEnd(x: string)
    ensures Occurs(FEDERAL_CAPITAL, x + " ") <==> Occurs(FEDERAL_CAPITAL, x)
    decreases |x|
  {
    var n := |FEDERAL_CAPITAL|;
    assert FEDERAL_CAPITAL <= x + " " <==> FEDERAL_CAPITAL <= x by {
      assert FEDERAL_CAPITAL[n - 1] == 'y';
      if |x| == n - 1 { assert (x + " ")[n - 1] == ' '; }
      if |x| >= n { assert (x + " ")[..n] == x[..n]; }
    }
    if x == "" {
      assert (x + " ")[1..] == "";
    } else {
      assert (x + " ")[1..] == x[1..] + " ";
      NoNameAtTheEnd(x[1..]);
    }
  }

  lemma FrameHasNoMore(before: bool, ws: seq<string>, after: bool)
    ensures Occurs(FEDERAL_CAPITAL, Frame(before, ws, after)) <==> Occurs(FEDERAL_CAPITAL, Join(ws))
  {
    if before { SpaceIsNoName(Body(ws, after)); }
    if after { NoNameAtTheEnd(Join(ws)); }
  }

  lemma {:induction false} ReplacesAmpersands(t: string)
    ensures '&' !in ReplaceAll(t, "&", " and ")
    decreases |t|
  {
    if t != "" { ReplacesAmpersands(t[1..]); }
  }

  /** The name occurs in the normalized text exactly when it is hidden in the raw one. */
  lemma OccursIffHidden(s: string)
    ensures Occurs(FEDERAL_CAPITAL, Finish(s)) <==> HasHiddenName(s)
  {
    var replaced := ReplaceAll(s, FEDERAL_CAPITAL, "fct");
    var r := Replaced(s);
    ReplacingLeavesHidden(s);
    AmpersandsSeparate(replaced);
    ReplacesAmpersands(replaced);
    OccursIffName(r);
    RunsAreWords(r);
    NormalForm(s);
    FrameHasNoMore(Starts(r, Other), Words(r), Ends(r, Other));
  }

  /** The exact condition on the raw text: normalizing the result again changes it if and only if, in the
      lower-cased fields joined by spaces, the three words of the name are neighbours with other separators
      than two single spaces. */
  lemma NormalizingTwiceExactly(lower: string -> string, values: seq<Option<string>>)
    requires lower(Normalize(lower, values)) == Normalize(lower, values)
    ensures var t := Normalize(lower, values);
      Normalize(lower, [Some(t)]) == t <==> !HasHiddenName(lower(Join(Cleaned(values))))
  {
    NormalizingTwice(lower, values);
    OccursIffHidden(lower(Join(Cleaned(values))));
  }

  // ---------- an input ----------

  const HIDDEN := "federal, capital territory"

  lemma TrimWordText(t: string)
    requires t != "" && IsWordChar(t[0]) && IsWordChar(t[|t| - 1])
    ensures Trim(t) == t
  {
  }

  lemma CleanedSingle(t: string)
    requires t != "" && IsWordChar(t[0]) && IsWordChar(t[|t| - 1])
    ensures Join(Cleaned([Some(t)])) == t
  {
    TrimWordText(t);
    assert Cleaned([Some(t)][1..]) == [];
    assert Cleaned([Some(t)]) == [t];
  }

  lemma ReplacedStays(s: string)
    requires !Occurs(FEDERAL_CAPITAL, s) && '&' !in s
    ensures Replaced(s) == s
  {
    ReplaceShortens(s, FEDERAL_CAPITAL, "fct");
    NothingToReplace(s, "&", " and ");
  }

  lemma FinishOf(s: string, t: string)
    requires Replaced(s) == s && RunsToSpace(s, Other) == t && Tight(t)
    requires t != "" && IsWordChar(t[0]) && IsWordChar(t[|t| - 1])
    ensures Finish(s) == t
  {
    TightStays(t, Blank);
    TrimWordText(t);
  }

  lemma HiddenSqueezed()
    ensures RunsToSpace(HIDDEN, Other) == FEDERAL_CAPITAL
  {
    var comma, space := ", ", " ";
    assert HIDDEN == Name(comma, space);
    assert Gap(comma) && Gap(space);
    NameSqueezes(HIDDEN, comma, space);
    assert HIDDEN[|HIDDEN|..] == "";
    assert RunsToSpace("", Other) == "";
  }

  lemma NameIsTight()
    ensures Tight(FEDERAL_CAPITAL)
  {
  }

  lemma FirstPass(s: string, t: string)
    requires s == HIDDEN && t == FEDERAL_CAPITAL
    ensures Finish(s) == t
  {
    HiddenDoesNotOccur();
    HiddenHasNoAmpersand(s);
    ReplacedStays(s);
    HiddenSqueezed();
    NameIsTight();
    NameEnds(t);
    FinishOf(s, t);
  }

  lemma HiddenHasNoAmpersand(s: string)
    requires s == HIDDEN
    ensures '&' !in s
  {
  }

  lemma NameEnds(t: string)
    requires t == FEDERAL_CAPITAL
    ensures t != "" && IsWordChar(t[0]) && IsWordChar(t[|t| - 1])
  {
  }

  lemma HiddenDoesNotOccur()
    ensures !Occurs(FEDERAL_CAPITAL, HIDDEN)
  {
    assert !(FEDERAL_CAPITAL <= HIDDEN) by { assert FEDERAL_CAPITAL[7] == ' ' && HIDDEN[7] == ','; }
    var one := HIDDEN[1..];
    assert !(FEDERAL_CAPITAL <= one) by { assert one[0] == 'e'; }
    TooShort(one[1..], FEDERAL_CAPITAL);
  }

  lemma {:induction false} TooShort(s: string, p: string)
    requires |s| < |p|
    ensures !Occurs(p, s)
    decreases |s|
  {
    if s != "" { TooShort(s[1..], p); }
  }

  lemma SecondPass()
    ensures Finish(FEDERAL_CAPITAL) == "fct"
  {
    assert FEDERAL_CAPITAL[|FEDERAL_CAPITAL|..] == "";
    assert ReplaceAll(FEDERAL_CAPITAL, FEDERAL_CAPITAL, "fct") == "fct" + ReplaceAll("", FEDERAL_CAPITAL, "fct") == "fct";
    NothingToReplace("fct", "&", " and ");
    assert Tight("fct");
    TightStays("fct", Other);
    TightStays("fct", Blank);
    TrimWordText("fct");
  }

  /** "federal, capital territory" becomes "federal capital territory" on the first pass, and "fct" on the
      second. */
  lemma TwiceIsNotOnce(lower: string -> string)
    requires lower(HIDDEN) == HIDDEN && lower(FEDERAL_CAPITAL) == FEDERAL_CAPITAL
    ensures Normalize(lower, [Some(HIDDEN)]) == FEDERAL_CAPITAL
    ensures Normalize(lower, [Some(FEDERAL_CAPITAL)]) == "fct"
  {
    CleanedSingle(HIDDEN);
    CleanedSingle(FEDERAL_CAPITAL);
    FirstPass(HIDDEN, FEDERAL_CAPITAL);
    SecondPass();
  }
}
