/** Matching a place in a location by the pattern `(^|\s)place($|\s)`. */
module PlaceMatch {
  import opened LocationText
  import opened Text
  import opened Wrappers

  /** The pattern matches with `place` at position `i`. */
  predicate MatchesAt(text: string, place: string, i: nat) {
    var end := i + |place|;
    && end <= |text| && text[i..end] == place
    && (i == 0 || IsSpace(text[i - 1])) && (end == |text| || IsSpace(text[end]))
  }

  predicate Test(text: string, place: string) {
    exists i: nat :: i <= |text| && MatchesAt(text, place, i)
  }

  /** containsPlace */
  predicate ContainsPlace(lower: string -> string, text: string, place: string) {
    var normalized := Normalize(lower, [Some(place)]);
    normalized != "" && Test(text, normalized)
  }

  /** `ps` is a non-empty run of neighbours in `ts`. */
  ghost predicate Within(ps: seq<string>, ts: seq<string>) {
    ps != [] && exists a, b :: ts == a + ps + b
  }

  // ---------- splitting at spaces ----------

  function Split(s: string): (ws: seq<string>)
    ensures |ws| > 0
  {
    if s == [] then [""]
    else
      var rest := Split(s[1..]);
      if s[0] == ' ' then [""] + rest else [[s[0]] + rest[0]] + rest[1..]
  }

  lemma {:induction false} SplitAtSpace(x: string, y: string)
    ensures Split(x + " " + y) == Split(x) + Split(y)
  {
    var s := x + " " + y;
    if x == [] {
      assert s[0] == ' ' && s[1..] == y;
    } else {
      SplitAtSpace(x[1..], y);
      assert s[0] == x[0] && s[1..] == x[1..] + " " + y;
    }
  }

  lemma {:induction false} SplitOfWord(w: string)
    requires ' ' !in w
    ensures Split(w) == [w]
  {
    if w != [] {
      SplitOfWord(w[1..]);
      assert w == [w[0]] + w[1..];
    }
  }

  lemma WordHasNoSpace(w: string)
    requires IsWord(w)
    ensures ' ' !in w
  {
  }

  lemma {:induction false} SplitOfJoin(ws: seq<string>)
    requires AllWords(ws) && ws != []
    ensures Split(Join(ws)) == ws
  {
    WordHasNoSpace(ws[0]);
    SplitOfWord(ws[0]);
    if |ws| > 1 {
      assert AllWords(ws[1..]);
      SplitOfJoin(ws[1..]);
      SplitAtSpace(ws[0], Join(ws[1..]));
      assert ws == [ws[0]] + ws[1..];
    }
  }

  lemma {:induction false} JoinOfConcat(a: seq<string>, b: seq<string>)
    requires a != [] && b != []
    ensures Join(a + b) == Join(a) + " " + Join(b)
  {
    if |a| == 1 {
      assert (a + b)[1..] == b;
    } else {
      JoinOfConcat(a[1..], b);
      assert (a + b)[1..] == a[1..] + b;
    }
  }

  // ---------- matching is containment of words ----------

  lemma MatchAround(x: string, place: string, y: string, i: nat)
    requires x == "" || x[|x| - 1] == ' '
    requires y == "" || y[0] == ' '
    requires i == |x|
    ensures MatchesAt(x + place + y, place, i)
  {
  }

  function Before(a: seq<string>): string { if a == [] then "" else Join(a) + " " }

  function After(b: seq<string>): string { if b == [] then "" else " " + Join(b) }

  lemma JoinBefore(a: seq<string>, ps: seq<string>)
    requires ps != []
    ensures Join(a + ps) == Before(a) + Join(ps)
  {
    if a == [] { assert a + ps == ps; } else { JoinOfConcat(a, ps); }
  }

  lemma JoinAfter(ps: seq<string>, b: seq<string>)
    requires ps != []
    ensures Join(ps + b) == Join(ps) + After(b)
  {
    if b == [] { assert ps + b == ps; } else { JoinOfConcat(ps, b); }
  }

  lemma WithinMatches(ps: seq<string>, a: seq<string>, b: seq<string>)
    requires ps != []
    ensures Test(Join(a + ps + b), Join(ps))
  {
    JoinBefore(a, ps);
    JoinAfter(a + ps, b);
    MatchAround(Before(a), Join(ps), After(b), |Before(a)|);
  }

  lemma SplitAfter(tail: string, place: string)
    requires place <= tail && (place == tail || tail[|place|] == ' ')
    ensures exists b :: Split(tail) == Split(place) + b
  {
    if place == tail {
      assert Split(tail) == Split(place) + [];
    } else {
      var y := tail[|place| + 1..];
      assert tail == place + " " + y;
      SplitAtSpace(place, y);
    }
  }

  lemma SplitBefore(text: string, i: nat)
    requires i <= |text| && (i == 0 || text[i - 1] == ' ')
    ensures exists a :: Split(text) == a + Split(text[i..])
  {
    if i == 0 {
      assert text[i..] == text;
      assert Split(text) == [] + Split(text[i..]);
    } else {
      var x := text[..i - 1];
      assert text == x + " " + text[i..];
      SplitAtSpace(x, text[i..]);
    }
  }

  /** Cutting a text around a match splits it into the words before, of and after the place. */
  lemma MatchSplits(text: string, place: string, i: nat)
    requires Tight(text) && MatchesAt(text, place, i)
    ensures exists a, b :: Split(text) == a + Split(place) + b
  {
    CutAtMatch(text, place, i);
    SplitBefore(text, i);
    SplitAfter(text[i..], place);
    Compose(Split(text), Split(text[i..]), Split(place));
  }

  lemma CutAtMatch(text: string, place: string, i: nat)
    requires Tight(text) && MatchesAt(text, place, i)
    ensures place <= text[i..] && (place == text[i..] || text[i..][|place|] == ' ') && (i == 0 || text[i - 1] == ' ')
  {
    assert text[i..][..|place|] == place;
  }

  lemma Compose(all: seq<string>, tail: seq<string>, middle: seq<string>)
    requires (exists a :: all == a + tail) && (exists b :: tail == middle + b)
    ensures exists a, b :: all == a + middle + b
  {
    var a :| all == a + tail;
    var b :| tail == middle + b;
    assert all == a + middle + b;
  }

  /** On normalized texts the pattern matches exactly when the words of the place are neighbours among
      the words of the location. */
  lemma MatchIffWithin(ts: seq<string>, ps: seq<string>)
    requires AllWords(ts) && AllWords(ps)
    ensures Join(ps) != "" && Test(Join(ts), Join(ps)) <==> Within(ps, ts)
  {
    JoinIsTight(ts);
    JoinIsTight(ps);
    if Join(ps) != "" && Test(Join(ts), Join(ps)) {
      var i: nat :| i <= |Join(ts)| && MatchesAt(Join(ts), Join(ps), i);
      MatchSplits(Join(ts), Join(ps), i);
      SplitOfJoin(ps);
      SplitOfJoin(ts);
    }
    if Within(ps, ts) {
      var a, b :| ts == a + ps + b;
      WithinMatches(ps, a, b);
    }
  }

  lemma WithinTransitive(ps: seq<string>, qs: seq<string>, ts: seq<string>)
    requires Within(ps, qs) && Within(qs, ts)
    ensures Within(ps, ts)
  {
    var a, b :| qs == a + ps + b;
    var c, d :| ts == c + qs + d;
    assert ts == (c + a) + ps + (b + d);
  }

  /** The words of a normalized text. */
  function WordsOf(lower: string -> string, values: seq<Option<string>>): seq<string> {
    Words(Replaced(lower(Join(Cleaned(values)))))
  }

  lemma NormalizedIsWords(lower: string -> string, values: seq<Option<string>>)
    ensures Normalize(lower, values) == Join(WordsOf(lower, values)) && AllWords(WordsOf(lower, values))
  {
    NormalForm(lower(Join(Cleaned(values))));
    WordsAreWords(Replaced(lower(Join(Cleaned(values)))));
  }

  lemma ContainsIffWithin(lower: string -> string, values: seq<Option<string>>, place: string)
    ensures ContainsPlace(lower, Normalize(lower, values), place) <==>
      Within(WordsOf(lower, [Some(place)]), WordsOf(lower, values))
  {
    NormalizedIsWords(lower, values);
    NormalizedIsWords(lower, [Some(place)]);
    MatchIffWithin(WordsOf(lower, values), WordsOf(lower, [Some(place)]));
  }

  /** A place within a place that a location contains is contained too. */
  lemma ContainmentIsTransitive(lower: string -> string, values: seq<Option<string>>, outer: string, inner: string)
    requires ContainsPlace(lower, Normalize(lower, values), outer)
    requires ContainsPlace(lower, Normalize(lower, [Some(outer)]), inner)
    ensures ContainsPlace(lower, Normalize(lower, values), inner)
  {
    ContainsIffWithin(lower, values, outer);
    ContainsIffWithin(lower, [Some(outer)], inner);
    ContainsIffWithin(lower, values, inner);
    WithinTransitive(WordsOf(lower, [Some(inner)]), WordsOf(lower, [Some(outer)]), WordsOf(lower, values));
  }
}
