/**
 * update_match_statistics: an ordered series of UPDATE statements that set the
 * `match_state` column of the official stop table and of the OSM stop table from
 * the committed `matches` relation. A later statement overwrites an earlier one,
 * so a row ends in the state of the last statement whose condition it meets.
 *
 * Tables are arrays of rows. NULL is `None`; the ids in `matches` are non-null.
 * An SQL condition holds only when it is TRUE, so a comparison with NULL never
 * selects a row, except that `x NOT IN (empty relation)` is TRUE even for NULL.
 */
module StatisticsUpdater {
  import opened Wrappers

  /** The values the statements write into `match_state`. */
  datatype MatchState =
    | Matched
    | MatchedAmbigously
    | MatchedThoughNamesDiffer
    | MatchedThoughNoName
    | MatchedThoughOsmNoName
    | MatchedThoughDistant
    | MatchedThoughImprobable
    | NoMatch
    | NoMatchButOtherPlatformMatched
    | NoMatchNoIfopt

  /** A row of the official stop table (`haltestellen_unified`), with the columns the statements read. */
  datatype OfficialStop = OfficialStop(
    globaleId: Option<string>,
    haltestelle: Option<string>,
    haltestelleLang: Option<string>,
    parent: Option<string>,
    matchState: Option<MatchState>)

  /** A row of the OSM stop table (`osm_stops`). */
  datatype OsmStop = OsmStop(
    osmId: string,
    name: Option<string>,
    emptyName: Option<int>,
    matchState: Option<MatchState>)

  /** A row of the committed `matches` relation. */
  datatype MatchRow = MatchRow(
    ifoptId: string,
    osmId: string,
    rating: real,
    distance: real,
    nameDistance: real)

  // ---------------------------------------------------------------------------
  // The subqueries

  /** The WHERE conditions on match rows that the statements use. */
  predicate AnyMatch(m: MatchRow) { true }
  predicate NamesDiffer(m: MatchRow) { m.nameDistance < 0.4 }
  predicate Distant(m: MatchRow) { m.distance > 200.0 }
  predicate Improbable(m: MatchRow) { m.rating < 0.002 }

  /** `id IN (SELECT ifopt_id FROM matches WHERE cond)`, for a condition on match rows. */
  predicate IfoptIn(id: Option<string>, matches: seq<MatchRow>, cond: MatchRow -> bool) {
    id.Some? && exists i :: 0 <= i < |matches| && matches[i].ifoptId == id.value && cond(matches[i])
  }

  /** `osm_id IN (SELECT osm_id FROM matches WHERE cond)`. */
  predicate OsmIn(id: string, matches: seq<MatchRow>, cond: MatchRow -> bool) {
    exists i :: 0 <= i < |matches| && matches[i].osmId == id && cond(matches[i])
  }

  /** How many match rows name official id `id`. */
  function MatchCount(matches: seq<MatchRow>, id: string): (n: nat)
    ensures n <= |matches|
    ensures n > 0 <==> exists i :: 0 <= i < |matches| && matches[i].ifoptId == id
  {
    if matches == [] then 0
    else
      var n := MatchCount(matches[1..], id);
      assert forall i :: 1 <= i < |matches| ==> matches[i] == matches[1..][i - 1];
      (if matches[0].ifoptId == id then 1 else 0) + n
  }

  /** `HAVING count(*) > 1` holds of an id exactly when two distinct match rows name it. */
  lemma {:induction false} MatchCountAboveOne(matches: seq<MatchRow>, id: string)
    ensures MatchCount(matches, id) > 1 <==>
      exists i, j :: 0 <= i < j < |matches| && matches[i].ifoptId == id && matches[j].ifoptId == id
    decreases |matches|
  {
    if matches != [] {
      var tail := matches[1..];
      MatchCountAboveOne(tail, id);
      assert forall i :: 1 <= i < |matches| ==> matches[i] == tail[i - 1];
      assert (exists i, j :: 1 <= i < j < |matches| && matches[i].ifoptId == id && matches[j].ifoptId == id)
        <==> exists i, j :: 0 <= i < j < |tail| && tail[i].ifoptId == id && tail[j].ifoptId == id;
    }
  }

  /** `name IS NULL OR empty_name > 0` */
  predicate OsmHasNoName(o: OsmStop) {
    o.name.None? || (o.emptyName.Some? && o.emptyName.value > 0)
  }

  /** Some OSM row with id `osmId` has no name. */
  predicate OsmIdHasNoName(osmStops: seq<OsmStop>, osmId: string) {
    exists o :: o in osmStops && o.osmId == osmId && OsmHasNoName(o)
  }

  /** `SELECT h.parent FROM matches m, haltestellen_unified h WHERE m.ifopt_id = h.globaleID`, NULLs dropped. */
  function MatchedParents(stops: seq<OfficialStop>, matches: seq<MatchRow>): (r: set<string>)
    ensures forall p :: p in r <==> exists h :: h in stops && h.parent == Some(p) && IfoptIn(h.globaleId, matches, AnyMatch)
  {
    set h | h in stops && h.parent.Some? && IfoptIn(h.globaleId, matches, AnyMatch) :: h.parent.value
  }

  // ---------------------------------------------------------------------------
  // The conditions of the statements on the official stop table, in order

  /** What the statements read besides the row itself; none of it is changed by them. */
  datatype Context = Context(matches: seq<MatchRow>, osmStops: seq<OsmStop>, matchedParents: set<string>)

  predicate IsMatched(h: OfficialStop, c: Context) {
    IfoptIn(h.globaleId, c.matches, AnyMatch)
  }

  predicate IsAmbiguous(h: OfficialStop, c: Context) {
    h.globaleId.Some? && MatchCount(c.matches, h.globaleId.value) > 1
  }

  predicate HasDifferentName(h: OfficialStop, c: Context) {
    IfoptIn(h.globaleId, c.matches, NamesDiffer)
  }

  predicate LacksNameWhileDiffering(h: OfficialStop) {
    h.matchState == Some(MatchedThoughNamesDiffer) && h.haltestelle.None? && h.haltestelleLang.None?
  }

  predicate HasNamelessOsmMatch(h: OfficialStop, c: Context) {
    h.globaleId.Some?
    && exists i :: 0 <= i < |c.matches| && c.matches[i].ifoptId == h.globaleId.value
                   && OsmIdHasNoName(c.osmStops, c.matches[i].osmId)
  }

  predicate HasDistantMatch(h: OfficialStop, c: Context) {
    IfoptIn(h.globaleId, c.matches, Distant)
  }

  predicate HasImprobableMatch(h: OfficialStop, c: Context) {
    IfoptIn(h.globaleId, c.matches, Improbable)
  }

  /** `globaleID NOT IN (SELECT ifopt_id FROM matches)`: TRUE for NULL only when `matches` is empty. */
  predicate IsUnmatched(h: OfficialStop, c: Context) {
    c.matches == [] || (h.globaleId.Some? && !IfoptIn(h.globaleId, c.matches, AnyMatch))
  }

  predicate SiblingMatched(h: OfficialStop, c: Context) {
    h.matchState == Some(NoMatch) && h.parent.Some? && h.parent.value in c.matchedParents
  }

  /** Sets `match_state` to `s` when `cond` holds of the row as it is. */
  function Set(h: OfficialStop, cond: bool, s: MatchState): OfficialStop {
    if cond then h.(matchState := Some(s)) else h
  }

  /** The official row after all ten statements, applied in order. */
  function OfficialOutcome(h0: OfficialStop, c: Context): OfficialStop {
    var h1 := ApplyOfficial(h0, SetMatched, c);
    var h2 := ApplyOfficial(h1, SetAmbiguous, c);
    var h3 := ApplyOfficial(h2, SetNamesDiffer, c);
    var h4 := ApplyOfficial(h3, SetNoName, c);
    var h5 := ApplyOfficial(h4, SetOsmNoName, c);
    var h6 := ApplyOfficial(h5, SetDistant, c);
    var h7 := ApplyOfficial(h6, SetImprobable, c);
    var h8 := ApplyOfficial(h7, SetNoMatch, c);
    var h9 := ApplyOfficial(h8, SetOtherPlatform, c);
    ApplyOfficial(h9, SetNoIfopt, c)
  }

  /** The same outcome for a matched row, read as a priority list from the last statement back. */
  function MatchedPriority(h: OfficialStop, c: Context): MatchState {
    if HasImprobableMatch(h, c) then MatchedThoughImprobable
    else if HasDistantMatch(h, c) then MatchedThoughDistant
    else if HasNamelessOsmMatch(h, c) then MatchedThoughOsmNoName
    else if HasDifferentName(h, c) && h.haltestelle.None? && h.haltestelleLang.None? then MatchedThoughNoName
    else if HasDifferentName(h, c) then MatchedThoughNamesDiffer
    else if IsAmbiguous(h, c) then MatchedAmbigously
    else Matched
  }

  /** Only `match_state` changes. */
  lemma OfficialOutcomeKeepsColumns(h: OfficialStop, c: Context)
    ensures OfficialOutcome(h, c).(matchState := h.matchState) == h
  {
  }

  /** A row without an id ends as NO_MATCH_NO_IFOPT: the last statement selects exactly those rows. */
  lemma NullIdEndsWithoutIfopt(h: OfficialStop, c: Context)
    requires h.globaleId.None?
    ensures OfficialOutcome(h, c).matchState == Some(NoMatchNoIfopt)
  {
  }

  /**
   * A row whose id no match names ends as NO_MATCH, or as
   * NO_MATCH_BUT_OTHER_PLATFORM_MATCHED exactly when its parent is the parent of a matched stop.
   */
  lemma UnmatchedOutcome(h: OfficialStop, c: Context)
    requires h.globaleId.Some? && !IsMatched(h, c)
    ensures OfficialOutcome(h, c).matchState == Some(NoMatch)
         || OfficialOutcome(h, c).matchState == Some(NoMatchButOtherPlatformMatched)
    ensures OfficialOutcome(h, c).matchState == Some(NoMatchButOtherPlatformMatched)
        <==> h.parent.Some? && h.parent.value in c.matchedParents
  {
    assert !IfoptIn(h.globaleId, c.matches, NamesDiffer);
    assert !IfoptIn(h.globaleId, c.matches, Distant);
    assert !IfoptIn(h.globaleId, c.matches, Improbable);
  }

  /** A matched row ends in the state of the last statement that applies to it. */
  lemma MatchedOutcome(h: OfficialStop, c: Context)
    requires IsMatched(h, c)
    ensures OfficialOutcome(h, c).matchState == Some(MatchedPriority(h, c))
  {
    assert c.matches != [];
  }

  /** A matched row with a match rated below 0.002 ends as MATCHED_THOUGH_IMPROBABLE. */
  lemma ImprobableOutcome(h: OfficialStop, c: Context)
    requires h.globaleId.Some?
    requires exists i :: 0 <= i < |c.matches| && c.matches[i].ifoptId == h.globaleId.value && c.matches[i].rating < 0.002
    ensures OfficialOutcome(h, c).matchState == Some(MatchedThoughImprobable)
  {
    assert IfoptIn(h.globaleId, c.matches, Improbable);
    assert IfoptIn(h.globaleId, c.matches, AnyMatch);
    MatchedOutcome(h, c);
  }

  /** A row ends as MATCHED_THOUGH_NO_NAME only if it is matched, a match's names differ and both its names are NULL. */
  lemma NoNameOutcome(h: OfficialStop, c: Context)
    requires OfficialOutcome(h, c).matchState == Some(MatchedThoughNoName)
    ensures IsMatched(h, c) && HasDifferentName(h, c)
    ensures h.haltestelle.None? && h.haltestelleLang.None?
    ensures !HasNamelessOsmMatch(h, c) && !HasDistantMatch(h, c) && !HasImprobableMatch(h, c)
  {
    if !IsMatched(h, c) {
      if h.globaleId.Some? {
        UnmatchedOutcome(h, c);
      } else {
        NullIdEndsWithoutIfopt(h, c);
      }
    } else {
      MatchedOutcome(h, c);
    }
  }

  // ---------------------------------------------------------------------------
  // The statements on the OSM stop table, in order

  predicate OsmIsMatched(o: OsmStop, c: Context) { OsmIn(o.osmId, c.matches, AnyMatch) }
  predicate OsmHasDifferentName(o: OsmStop, c: Context) { OsmIn(o.osmId, c.matches, NamesDiffer) }
  predicate OsmIsNamelessMatch(o: OsmStop, c: Context) { OsmHasNoName(o) && OsmIsMatched(o, c) }
  predicate OsmHasDistantMatch(o: OsmStop, c: Context) { OsmIn(o.osmId, c.matches, Distant) }
  predicate OsmHasImprobableMatch(o: OsmStop, c: Context) { OsmIn(o.osmId, c.matches, Improbable) }

  function SetOsm(o: OsmStop, cond: bool, s: MatchState): OsmStop {
    if cond then o.(matchState := Some(s)) else o
  }

  /** The OSM row after all six statements, applied in order. */
  function OsmOutcome(o0: OsmStop, c: Context): OsmStop {
    var o1 := ApplyOsm(o0, OsmSetMatched, c);
    var o2 := ApplyOsm(o1, OsmSetNamesDiffer, c);
    var o3 := ApplyOsm(o2, OsmSetNoName, c);
    var o4 := ApplyOsm(o3, OsmSetDistant, c);
    var o5 := ApplyOsm(o4, OsmSetImprobable, c);
    ApplyOsm(o5, OsmSetNoMatch, c)
  }

  /** The outcome of an OSM row read as a priority list from the last statement back. */
  function OsmPriority(o: OsmStop, c: Context): MatchState {
    if !OsmIsMatched(o, c) then NoMatch
    else if OsmHasImprobableMatch(o, c) then MatchedThoughImprobable
    else if OsmHasDistantMatch(o, c) then MatchedThoughDistant
    else if OsmHasNoName(o) then MatchedThoughOsmNoName
    else if OsmHasDifferentName(o, c) then MatchedThoughNamesDiffer
    else Matched
  }

  /** Every OSM row ends in the state of the last statement that applies to it, and only `match_state` changes. */
  lemma OsmOutcomeIsPriority(o: OsmStop, c: Context)
    ensures OsmOutcome(o, c) == o.(matchState := Some(OsmPriority(o, c)))
  {
    assert OsmHasDifferentName(o, c) ==> OsmIsMatched(o, c);
    assert OsmHasDistantMatch(o, c) ==> OsmIsMatched(o, c);
    assert OsmHasImprobableMatch(o, c) ==> OsmIsMatched(o, c);
  }

  // ---------------------------------------------------------------------------
  // The UPDATE statements as loops over the tables

  /** The UPDATE statements on the official stop table, in the order they run. */
  datatype OfficialUpdate =
    | SetMatched | SetAmbiguous | SetNamesDiffer | SetNoName | SetOsmNoName
    | SetDistant | SetImprobable | SetNoMatch | SetOtherPlatform | SetNoIfopt

  /** The WHERE clause of an official-table statement. */
  predicate OfficialWhere(u: OfficialUpdate, h: OfficialStop, c: Context) {
    match u
    case SetMatched => IsMatched(h, c)
    case SetAmbiguous => IsAmbiguous(h, c)
    case SetNamesDiffer => HasDifferentName(h, c)
    case SetNoName => LacksNameWhileDiffering(h)
    case SetOsmNoName => HasNamelessOsmMatch(h, c)
    case SetDistant => HasDistantMatch(h, c)
    case SetImprobable => HasImprobableMatch(h, c)
    case SetNoMatch => IsUnmatched(h, c)
    case SetOtherPlatform => SiblingMatched(h, c)
    case SetNoIfopt => h.globaleId.None?
  }

  /** The value an official-table statement writes. */
  function OfficialTarget(u: OfficialUpdate): MatchState {
    match u
    case SetMatched => Matched
    case SetAmbiguous => MatchedAmbigously
    case SetNamesDiffer => MatchedThoughNamesDiffer
    case SetNoName => MatchedThoughNoName
    case SetOsmNoName => MatchedThoughOsmNoName
    case SetDistant => MatchedThoughDistant
    case SetImprobable => MatchedThoughImprobable
    case SetNoMatch => NoMatch
    case SetOtherPlatform => NoMatchButOtherPlatformMatched
    case SetNoIfopt => NoMatchNoIfopt
  }

  /** The UPDATE statements on the OSM stop table, in the order they run. */
  datatype OsmUpdate =
    | OsmSetMatched | OsmSetNamesDiffer | OsmSetNoName | OsmSetDistant | OsmSetImprobable | OsmSetNoMatch

  predicate OsmWhere(u: OsmUpdate, o: OsmStop, c: Context) {
    match u
    case OsmSetMatched => OsmIsMatched(o, c)
    case OsmSetNamesDiffer => OsmHasDifferentName(o, c)
    case OsmSetNoName => OsmIsNamelessMatch(o, c)
    case OsmSetDistant => OsmHasDistantMatch(o, c)
    case OsmSetImprobable => OsmHasImprobableMatch(o, c)
    case OsmSetNoMatch => !OsmIsMatched(o, c)
  }

  function OsmTarget(u: OsmUpdate): MatchState {
    match u
    case OsmSetMatched => Matched
    case OsmSetNamesDiffer => MatchedThoughNamesDiffer
    case OsmSetNoName => MatchedThoughOsmNoName
    case OsmSetDistant => MatchedThoughDistant
    case OsmSetImprobable => MatchedThoughImprobable
    case OsmSetNoMatch => NoMatch
  }

  /** One statement `UPDATE haltestellen_unified SET match_state = … WHERE …`. */
  method UpdateOfficial(rows: array<OfficialStop>, u: OfficialUpdate, c: Context)
    modifies rows
    ensures forall i :: 0 <= i < rows.Length ==> rows[i] == ApplyOfficial(old(rows[i]), u, c)
  {
    for i := 0 to rows.Length
      invariant forall j :: 0 <= j < i ==> rows[j] == ApplyOfficial(old(rows[j]), u, c)
      invariant forall j :: i <= j < rows.Length ==> rows[j] == old(rows[j])
    {
      if OfficialWhere(u, rows[i], c) {
        rows[i] := rows[i].(matchState := Some(OfficialTarget(u)));
      }
    }
  }

  /** One statement `UPDATE osm_stops SET match_state = … WHERE …`. */
  method UpdateOsm(rows: array<OsmStop>, u: OsmUpdate, c: Context)
    modifies rows
    ensures forall i :: 0 <= i < rows.Length ==> rows[i] == ApplyOsm(old(rows[i]), u, c)
  {
    for i := 0 to rows.Length
      invariant forall j :: 0 <= j < i ==> rows[j] == ApplyOsm(old(rows[j]), u, c)
      invariant forall j :: i <= j < rows.Length ==> rows[j] == old(rows[j])
    {
      if OsmWhere(u, rows[i], c) {
        rows[i] := rows[i].(matchState := Some(OsmTarget(u)));
      }
    }
  }

  /** The statements on the official stop table, in the order `update_match_statistics` runs them. */
  const OfficialStatements: seq<OfficialUpdate> :=
    [SetMatched, SetAmbiguous, SetNamesDiffer, SetNoName, SetOsmNoName,
     SetDistant, SetImprobable, SetNoMatch, SetOtherPlatform, SetNoIfopt]

  /** The statements on the OSM stop table, in order. */
  const OsmStatements: seq<OsmUpdate> :=
    [OsmSetMatched, OsmSetNamesDiffer, OsmSetNoName, OsmSetDistant, OsmSetImprobable, OsmSetNoMatch]

  /** What one official-table statement does to one row. */
  function ApplyOfficial(h: OfficialStop, u: OfficialUpdate, c: Context): OfficialStop {
    Set(h, OfficialWhere(u, h, c), OfficialTarget(u))
  }

  /** What one OSM-table statement does to one row. */
  function ApplyOsm(o: OsmStop, u: OsmUpdate, c: Context): OsmStop {
    SetOsm(o, OsmWhere(u, o, c), OsmTarget(u))
  }

  /** An official row after the first `k` statements. */
  function OfficialAfter(h: OfficialStop, k: nat, c: Context): OfficialStop
    requires k <= |OfficialStatements|
  {
    if k == 0 then h else ApplyOfficial(OfficialAfter(h, k - 1, c), OfficialStatements[k - 1], c)
  }

  /** An OSM row after the first `k` statements. */
  function OsmAfter(o: OsmStop, k: nat, c: Context): OsmStop
    requires k <= |OsmStatements|
  {
    if k == 0 then o else ApplyOsm(OsmAfter(o, k - 1, c), OsmStatements[k - 1], c)
  }

  /** All ten statements, one after the other, leave a row as `OfficialOutcome` says. */
  lemma OfficialStatementsCompose(h: OfficialStop, c: Context)
    ensures OfficialAfter(h, |OfficialStatements|, c) == OfficialOutcome(h, c)
  {
    assert OfficialAfter(h, 1, c) == ApplyOfficial(h, SetMatched, c);
    assert OfficialAfter(h, 2, c) == ApplyOfficial(OfficialAfter(h, 1, c), SetAmbiguous, c);
    assert OfficialAfter(h, 3, c) == ApplyOfficial(OfficialAfter(h, 2, c), SetNamesDiffer, c);
    assert OfficialAfter(h, 4, c) == ApplyOfficial(OfficialAfter(h, 3, c), SetNoName, c);
    assert OfficialAfter(h, 5, c) == ApplyOfficial(OfficialAfter(h, 4, c), SetOsmNoName, c);
    assert OfficialAfter(h, 6, c) == ApplyOfficial(OfficialAfter(h, 5, c), SetDistant, c);
    assert OfficialAfter(h, 7, c) == ApplyOfficial(OfficialAfter(h, 6, c), SetImprobable, c);
    assert OfficialAfter(h, 8, c) == ApplyOfficial(OfficialAfter(h, 7, c), SetNoMatch, c);
    assert OfficialAfter(h, 9, c) == ApplyOfficial(OfficialAfter(h, 8, c), SetOtherPlatform, c);
  }

  /** All six statements, one after the other, leave a row as `OsmOutcome` says. */
  lemma OsmStatementsCompose(o: OsmStop, c: Context)
    ensures OsmAfter(o, |OsmStatements|, c) == OsmOutcome(o, c)
  {
    assert OsmAfter(o, 1, c) == ApplyOsm(o, OsmSetMatched, c);
    assert OsmAfter(o, 2, c) == ApplyOsm(OsmAfter(o, 1, c), OsmSetNamesDiffer, c);
    assert OsmAfter(o, 3, c) == ApplyOsm(OsmAfter(o, 2, c), OsmSetNoName, c);
    assert OsmAfter(o, 4, c) == ApplyOsm(OsmAfter(o, 3, c), OsmSetDistant, c);
    assert OsmAfter(o, 5, c) == ApplyOsm(OsmAfter(o, 4, c), OsmSetImprobable, c);
  }

  /** The ten statements on the official stop table, executed in order. */
  method UpdateOfficialStates(stops: array<OfficialStop>, c: Context)
    modifies stops
    ensures forall i :: 0 <= i < stops.Length ==> stops[i] == OfficialOutcome(old(stops[i]), c)
  {
    for k := 0 to |OfficialStatements|
      invariant forall i :: 0 <= i < stops.Length ==> stops[i] == OfficialAfter(old(stops[i]), k, c)
    {
      UpdateOfficial(stops, OfficialStatements[k], c);
    }
    forall i | 0 <= i < stops.Length ensures stops[i] == OfficialOutcome(old(stops[i]), c) {
      OfficialStatementsCompose(old(stops[i]), c);
    }
  }

  /** The six statements on the OSM stop table, executed in order. */
  method UpdateOsmStates(osmStops: array<OsmStop>, c: Context)
    modifies osmStops
    ensures forall i :: 0 <= i < osmStops.Length ==> osmStops[i] == OsmOutcome(old(osmStops[i]), c)
  {
    for k := 0 to |OsmStatements|
      invariant forall i :: 0 <= i < osmStops.Length ==> osmStops[i] == OsmAfter(old(osmStops[i]), k, c)
    {
      UpdateOsm(osmStops, OsmStatements[k], c);
    }
    forall i | 0 <= i < osmStops.Length ensures osmStops[i] == OsmOutcome(old(osmStops[i]), c) {
      OsmStatementsCompose(old(osmStops[i]), c);
    }
  }

  /** update_match_statistics: the official stop table first, then the OSM stop table. */
  method UpdateMatchStatistics(stops: array<OfficialStop>, osmStops: array<OsmStop>, matches: seq<MatchRow>)
    modifies stops, osmStops
    ensures forall i :: 0 <= i < stops.Length ==>
      stops[i] == OfficialOutcome(old(stops[i]), Context(matches, old(osmStops[..]), MatchedParents(old(stops[..]), matches)))
    ensures forall i :: 0 <= i < osmStops.Length ==>
      osmStops[i] == OsmOutcome(old(osmStops[i]), Context(matches, old(osmStops[..]), MatchedParents(old(stops[..]), matches)))
  {
    // The subqueries read only columns that no statement changes, so they are evaluated once.
    var c := Context(matches, osmStops[..], MatchedParents(stops[..], matches));
    UpdateOfficialStates(stops, c);
    UpdateOsmStates(osmStops, c);
  }
}
