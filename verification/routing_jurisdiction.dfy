/** Whether an organization's jurisdiction covers a reported location. */
module RoutingJurisdiction {
  import opened LocationText
  import opened PlaceMatch
  import opened Text
  import opened Wrappers

  datatype Zone = Zone(country: Option<string>, state: Option<string>, lga: Option<string>, active: Option<bool>)

  datatype Organization = Organization(country: Option<string>, state: Option<string>, lga: Option<string>, zones: seq<Zone>)

  datatype Level = LgaLevel | StateLevel | CountryLevel | NoLevel
  datatype Source = JurisdictionZone | LegacyLocality | NoSource
  datatype Reason = MatchedLga | MatchedState | MatchedCountry | NotConfigured | NoLocationText | Mismatch

  datatype Match = Match(configured: bool, matched: bool, source: Source, level: Level, reason: Reason)

  function ActiveZones(zones: seq<Zone>): seq<Zone> {
    if zones == [] then []
    else (if zones[0].active.None? || zones[0].active.value then [zones[0]] else []) + ActiveZones(zones[1..])
  }

  /** matchZone: only the narrowest configured place of the zone is looked for. */
  function MatchZone(lower: string -> string, zone: Zone, text: string): Option<Level> {
    var country, state, lga := Clean(zone.country), Clean(zone.state), Clean(zone.lga);
    if text == "" then None
    else if lga.Some? then if ContainsPlace(lower, text, lga.value) then Some(LgaLevel) else None
    else if state.Some? then if ContainsPlace(lower, text, state.value) then Some(StateLevel) else None
    else if country.Some? && ContainsPlace(lower, text, country.value) then Some(CountryLevel)
    else None
  }

  /** firstMatchedZone: the loop returns the first match. */
  method FirstMatchedZone(lower: string -> string, zones: seq<Zone>, text: string) returns (level: Option<Level>)
    ensures level == FirstMatch(lower, zones, text)
  {
    for i := 0 to |zones|
      invariant FirstMatch(lower, zones, text) == FirstMatch(lower, zones[i..], text)
    {
      var m := MatchZone(lower, zones[i], text);
      if m.Some? {
        return m;
      }
    }
    return None;
  }

  function FirstMatch(lower: string -> string, zones: seq<Zone>, text: string): Option<Level> {
    if zones == [] then None
    else
      var m := MatchZone(lower, zones[0], text);
      if m.Some? then m else FirstMatch(lower, zones[1..], text)
  }

  function StrongestLevel(zones: seq<Zone>): Level {
    if exists z :: z in zones && Clean(z.lga).Some? then LgaLevel
    else if exists z :: z in zones && Clean(z.state).Some? then StateLevel
    else if exists z :: z in zones && Clean(z.country).Some? then CountryLevel
    else NoLevel
  }

  function LegacyZone(o: Organization): Option<Zone> {
    if Clean(o.lga).Some? || Clean(o.state).Some?
    then Some(Zone(Clean(o.country), Clean(o.state), Clean(o.lga), Some(true)))
    else None
  }

  function ReasonOf(level: Option<Level>, text: string): Reason {
    match level
    case Some(LgaLevel) => MatchedLga
    case Some(StateLevel) => MatchedState
    case Some(CountryLevel) => MatchedCountry
    case _ => if text != "" then Mismatch else NoLocationText
  }

  function Judge(lower: string -> string, zones: seq<Zone>, source: Source, text: string): Match {
    var level := FirstMatch(lower, zones, text);
    Match(true, level.Some? && text != "", source, level.GetOr(StrongestLevel(zones)), ReasonOf(level, text))
  }

  /** evaluateRoutingJurisdiction on the report's location fields. */
  function Evaluate(lower: string -> string, o: Organization, location: seq<Option<string>>): Match {
    var text := Normalize(lower, location);
    var zones := ActiveZones(o.zones);
    if zones != [] then Judge(lower, zones, JurisdictionZone, text)
    else
      var legacy := LegacyZone(o);
      if legacy.None? then Match(false, false, NoSource, NoLevel, NotConfigured)
      else Judge(lower, [legacy.value], LegacyLocality, text)
  }

  // ---------- what a match means ----------

  /** The place that decides for a zone, and its level. */
  function Deciding(z: Zone): Option<(string, Level)> {
    if Clean(z.lga).Some? then Some((Clean(z.lga).value, LgaLevel))
    else if Clean(z.state).Some? then Some((Clean(z.state).value, StateLevel))
    else if Clean(z.country).Some? then Some((Clean(z.country).value, CountryLevel))
    else None
  }

  ghost predicate Covers(lower: string -> string, z: Zone, location: seq<Option<string>>) {
    Deciding(z).Some? && Within(WordsOf(lower, [Some(Deciding(z).value.0)]), WordsOf(lower, location))
  }

  /** The zones that count: the active ones, or the organization's own locality when there are none. */
  function Effective(o: Organization): seq<Zone> {
    var zones := ActiveZones(o.zones);
    if zones != [] then zones else if LegacyZone(o).Some? then [LegacyZone(o).value] else []
  }

  lemma ZoneMatchesIffCovers(lower: string -> string, z: Zone, location: seq<Option<string>>)
    ensures MatchZone(lower, z, Normalize(lower, location)) ==
      if Covers(lower, z, location) then Some(Deciding(z).value.1) else None
  {
    NormalizedIsWords(lower, location);
    if Deciding(z).Some? {
      ContainsIffWithin(lower, location, Deciding(z).value.0);
    }
    if Normalize(lower, location) == "" {
      JoinIsTight(WordsOf(lower, location));
    }
  }

  lemma {:induction false} FirstMatchIsFirst(lower: string -> string, zones: seq<Zone>, location: seq<Option<string>>)
    ensures var level := FirstMatch(lower, zones, Normalize(lower, location));
      && (level.Some? <==> exists i :: 0 <= i < |zones| && Covers(lower, zones[i], location))
      && (level.Some? ==> exists i :: 0 <= i < |zones| && Covers(lower, zones[i], location)
                                      && level == Some(Deciding(zones[i]).value.1)
                                      && forall j :: 0 <= j < i ==> !Covers(lower, zones[j], location))
  {
    if zones != [] {
      ZoneMatchesIffCovers(lower, zones[0], location);
      FirstMatchIsFirst(lower, zones[1..], location);
      if !Covers(lower, zones[0], location) {
        assert forall i :: 0 <= i < |zones| - 1 ==> zones[1..][i] == zones[i + 1];
      }
    }
  }

  /** A location is matched if and only if, for some zone that counts, the words of its narrowest place
      are neighbours among the words of the location; the level is that of the first such zone. */
  lemma MatchedIffCovered(lower: string -> string, o: Organization, location: seq<Option<string>>)
    ensures var zones, m := Effective(o), Evaluate(lower, o, location);
      && (m.matched <==> exists i :: 0 <= i < |zones| && Covers(lower, zones[i], location))
      && (m.matched ==> exists i :: 0 <= i < |zones| && Covers(lower, zones[i], location)
                                    && m.level == Deciding(zones[i]).value.1
                                    && forall j :: 0 <= j < i ==> !Covers(lower, zones[j], location))
  {
    var zones := Effective(o);
    FirstMatchIsFirst(lower, zones, location);
    NormalizedIsWords(lower, location);
    if Normalize(lower, location) == "" {
      JoinIsTight(WordsOf(lower, location));
      assert WordsOf(lower, location) == [];
      forall i | 0 <= i < |zones| ensures !Covers(lower, zones[i], location) {
        ZoneMatchesIffCovers(lower, zones[i], location);
      }
    }
  }

  // ---------- zones that count ----------

  /** A zone counts unless it is switched off. */
  predicate Counts(z: Zone) {
    z.active.None? || z.active.value
  }

  ghost predicate AnyCounts(o: Organization) {
    exists i :: 0 <= i < |o.zones| && Counts(o.zones[i])
  }

  /** Zone `i` counts and covers the location, and no earlier one does. */
  ghost predicate FirstCovering(lower: string -> string, zones: seq<Zone>, location: seq<Option<string>>, i: nat) {
    && i < |zones| && Counts(zones[i]) && Covers(lower, zones[i], location)
    && forall j :: 0 <= j < i ==> !(Counts(zones[j]) && Covers(lower, zones[j], location))
  }

  lemma {:induction false} NoneActive(zones: seq<Zone>)
    ensures ActiveZones(zones) == [] <==> forall i :: 0 <= i < |zones| ==> !Counts(zones[i])
  {
    if zones != [] {
      NoneActive(zones[1..]);
      assert forall i :: 0 < i < |zones| ==> zones[i] == zones[1..][i - 1];
    }
  }

  lemma FirstOfActive(lower: string -> string, z: Zone, rest: seq<Zone>, text: string)
    ensures FirstMatch(lower, ActiveZones([z] + rest), text) ==
      if Counts(z) && MatchZone(lower, z, text).Some? then MatchZone(lower, z, text)
      else FirstMatch(lower, ActiveZones(rest), text)
  {
    var all, active := [z] + rest, ActiveZones(rest);
    assert all[0] == z && all[1..] == rest;
    if Counts(z) {
      assert ActiveZones(all) == [z] + active && ([z] + active)[1..] == active;
    } else {
      assert ActiveZones(all) == [] + active == active;
    }
  }

  lemma {:induction false} ActiveMatch(lower: string -> string, zones: seq<Zone>, location: seq<Option<string>>)
    returns (i: nat)
    ensures var level := FirstMatch(lower, ActiveZones(zones), Normalize(lower, location));
      && (level.Some? ==> FirstCovering(lower, zones, location, i) && level == Some(Deciding(zones[i]).value.1))
      && (level.None? ==> forall j: nat :: !FirstCovering(lower, zones, location, j))
  {
    i := 0;
    if zones != [] {
      assert zones == [zones[0]] + zones[1..];
      FirstOfActive(lower, zones[0], zones[1..], Normalize(lower, location));
      ZoneMatchesIffCovers(lower, zones[0], location);
      if !(Counts(zones[0]) && Covers(lower, zones[0], location)) {
        var k := ActiveMatch(lower, zones[1..], location);
        i := k + 1;
        NextCovering(lower, zones, location, k);
        if FirstMatch(lower, ActiveZones(zones), Normalize(lower, location)).None? { NoneCovering(lower, zones, location); }
      }
    }
  }

  lemma NoneCovering(lower: string -> string, zones: seq<Zone>, location: seq<Option<string>>)
    requires zones != [] && !(Counts(zones[0]) && Covers(lower, zones[0], location))
    requires forall j: nat :: !FirstCovering(lower, zones[1..], location, j)
    ensures forall j: nat :: !FirstCovering(lower, zones, location, j)
  {
    forall j: nat ensures !FirstCovering(lower, zones, location, j) {
      if j > 0 { NextCovering(lower, zones, location, j - 1); }
    }
  }

  lemma OnlyOneFirst(lower: string -> string, zones: seq<Zone>, location: seq<Option<string>>, i: nat, j: nat)
    requires FirstCovering(lower, zones, location, i) && FirstCovering(lower, zones, location, j)
    ensures i == j
  {
  }

  lemma NextCovering(lower: string -> string, zones: seq<Zone>, location: seq<Option<string>>, i: nat)
    requires zones != [] && !(Counts(zones[0]) && Covers(lower, zones[0], location))
    ensures FirstCovering(lower, zones[1..], location, i) <==> FirstCovering(lower, zones, location, i + 1)
  {
    var rest := zones[1..];
    assert forall j :: 0 <= j < |rest| ==> rest[j] == zones[j + 1];
    if FirstCovering(lower, rest, location, i) {
      forall j | 0 <= j < i + 1 ensures !(Counts(zones[j]) && Covers(lower, zones[j], location)) {
        if j > 0 { assert zones[j] == rest[j - 1]; }
      }
    }
    if FirstCovering(lower, zones, location, i + 1) {
      forall j | 0 <= j < i ensures !(Counts(rest[j]) && Covers(lower, rest[j], location)) {
        assert rest[j] == zones[j + 1];
      }
    }
  }

  lemma TextIsNeeded(lower: string -> string, zones: seq<Zone>, location: seq<Option<string>>)
    requires Normalize(lower, location) == ""
    ensures FirstMatch(lower, zones, Normalize(lower, location)).None?
  {
    if zones != [] { TextIsNeeded(lower, zones[1..], location); }
  }

  /** When some zone is not switched off, only such zones count: a location is matched if and only if one of
      them covers it, with the level of the first one, and the organization's own locality plays no part. */
  lemma ActiveZonesDecide(lower: string -> string, o: Organization, location: seq<Option<string>>)
    requires AnyCounts(o)
    ensures var m := Evaluate(lower, o, location);
      && m.configured && m.source == JurisdictionZone
      && (m.matched <==> exists i: nat :: FirstCovering(lower, o.zones, location, i))
      && (forall i: nat :: FirstCovering(lower, o.zones, location, i) ==> m.level == Deciding(o.zones[i]).value.1)
  {
    NoneActive(o.zones);
    var k := ActiveMatch(lower, o.zones, location);
    forall i: nat | FirstCovering(lower, o.zones, location, i) ensures k == i {
      OnlyOneFirst(lower, o.zones, location, i, k);
    }
    if Normalize(lower, location) == "" { TextIsNeeded(lower, ActiveZones(o.zones), location); }
  }

  /** The organization's own locality, which counts when it names a state or a local government area. */
  predicate HasLocality(o: Organization) {
    Clean(o.state).Some? || Clean(o.lga).Some?
  }

  /** When every zone is switched off, the organization's own locality decides; without one nothing is
      configured. */
  lemma LocalityDecides(lower: string -> string, o: Organization, location: seq<Option<string>>)
    requires !AnyCounts(o)
    ensures var m := Evaluate(lower, o, location);
      && (m.configured <==> HasLocality(o)) && (m.matched ==> HasLocality(o))
      && (!HasLocality(o) ==> m == Match(false, false, NoSource, NoLevel, NotConfigured))
      && (HasLocality(o) ==> m.source == LegacyLocality)
      && (HasLocality(o) ==> (m.matched <==> Covers(lower, Zone(Clean(o.country), Clean(o.state), Clean(o.lga), None), location)))
  {
    NoneActive(o.zones);
    if HasLocality(o) {
      var z := LegacyZone(o).value;
      ZoneMatchesIffCovers(lower, z, location);
      if Normalize(lower, location) == "" { TextIsNeeded(lower, [z], location); }
      assert FirstMatch(lower, [z][1..], Normalize(lower, location)).None?;
      assert Deciding(z) == Deciding(z.(active := None));
    }
  }

  /** The reason tells the level of a match, or whether the location had any text. */
  lemma ReasonsExactly(lower: string -> string, o: Organization, location: seq<Option<string>>)
    ensures var m := Evaluate(lower, o, location);
      && (m.matched ==> (m.reason == MatchedLga <==> m.level == LgaLevel) && (m.reason == MatchedState <==> m.level == StateLevel)
                        && (m.reason == MatchedCountry <==> m.level == CountryLevel))
      && (m.configured && !m.matched ==> m.reason == if Normalize(lower, location) == "" then NoLocationText else Mismatch)
  {
    var zones := ActiveZones(o.zones);
    LevelsOfMatches(lower, zones, Normalize(lower, location));
    if LegacyZone(o).Some? { LevelsOfMatches(lower, [LegacyZone(o).value], Normalize(lower, location)); }
    if Normalize(lower, location) == "" {
      TextIsNeeded(lower, zones, location);
      if LegacyZone(o).Some? { TextIsNeeded(lower, [LegacyZone(o).value], location); }
    }
  }

  /** The narrowest level that any of the zones names. */
  lemma UnmatchedLevel(lower: string -> string, o: Organization, location: seq<Option<string>>)
    requires AnyCounts(o) && !Evaluate(lower, o, location).matched
    ensures var level := Evaluate(lower, o, location).level;
      && (level == LgaLevel <==> exists i :: 0 <= i < |o.zones| && Counts(o.zones[i]) && Clean(o.zones[i].lga).Some?)
      && (level == StateLevel ==> exists i :: 0 <= i < |o.zones| && Counts(o.zones[i]) && Clean(o.zones[i].state).Some?)
      && (level == CountryLevel ==> exists i :: 0 <= i < |o.zones| && Counts(o.zones[i]) && Clean(o.zones[i].country).Some?)
      && (level == NoLevel ==> forall i :: 0 <= i < |o.zones| && Counts(o.zones[i]) ==> Deciding(o.zones[i]).None?)
  {
    NoneActive(o.zones);
    var zones := ActiveZones(o.zones);
    if Normalize(lower, location) == "" { TextIsNeeded(lower, zones, location); }
    forall z ensures z in zones <==> exists i :: 0 <= i < |o.zones| && Counts(o.zones[i]) && o.zones[i] == z {
      ActiveAre(o.zones, z);
    }
  }

  lemma {:induction false} ActiveAre(zones: seq<Zone>, z: Zone)
    ensures z in ActiveZones(zones) <==> exists i :: 0 <= i < |zones| && Counts(zones[i]) && zones[i] == z
  {
    if zones != [] {
      var rest := zones[1..];
      ActiveAre(rest, z);
      if i :| 0 <= i < |zones| && Counts(zones[i]) && zones[i] == z {
        if i > 0 { assert rest[i - 1] == z; }
      }
      if i :| 0 <= i < |rest| && Counts(rest[i]) && rest[i] == z { assert zones[i + 1] == z; }
    }
  }

  lemma LevelsOfMatches(lower: string -> string, zones: seq<Zone>, text: string)
    ensures FirstMatch(lower, zones, text) != Some(NoLevel)
  {
    if zones != [] { LevelsOfMatches(lower, zones[1..], text); }
  }
}
