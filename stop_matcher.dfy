/**
 * The stop matcher: for one official stop and the OSM stops nearest to it, which
 * candidates survive and what each scores (rank_mode, rank_successor_matching,
 * rank_candidate, rank_candidates, is_bus_station), and the accumulator that
 * records the survivors by official id and by OSM id (match_stop, store_matches),
 * with the flattening of the accumulator into candidate rows for export.
 *
 * Floating-point numbers are modelled as reals. The foreign pieces (n-gram
 * similarity, haversine distance, real exponentiation and the R-tree query) are
 * the fields of an `Env` value and are not interpreted.
 */
module StopMatcher {
  import opened Wrappers
  import opened PyStr
  import opened Sequences
  import DirectionText

  /** A geodesic distance in metres. */
  type Meters = r: real | r >= 0.0

  /** (latitude, longitude) */
  type Coord = (real, real)

  /** A row of the official stop table as the matcher reads it. */
  datatype Stop = Stop(
    globaleId: Option<string>,       // structured, colon-separated id
    haltestelle: Option<string>,     // short name
    haltestelleLang: Option<string>, // long name
    mode: Option<string>,
    nameSteig: Option<string>,       // free-text heading of the platform
    ortsteil: string,                // district name, removed from direction texts
    gemeinde: string)                // municipality name, removed from direction texts

  /** An OSM stop as load_osm_index puts it into the spatial index. */
  datatype OsmStop = OsmStop(
    id: string,
    name: Option<string>,
    network: Option<string>,
    operator: Option<string>,
    lat: real,
    lon: real,
    mode: Option<string>,
    kind: Option<string>,            // the `type` column
    ref: Option<string>,
    refKey: Option<string>,
    nextStops: Option<string>,
    prevStops: Option<string>,
    assumedPlatform: Option<string>) // the column's value as `str` renders it

  /** The collaborators the matcher calls but that are not modelled. */
  datatype Env = Env(
    compare: (Option<string>, Option<string>) -> real, // ngram.NGram.compare(a, b, N=1)
    pow: (real, real) -> real,                         // Python's `**` on floats
    haversine: (Coord, Coord) -> Meters,               // haversine(p, q, unit=Unit.METERS)
    nearest: (Coord, nat) -> seq<OsmStop>)             // the R-tree's k nearest neighbours

  // ---------------------------------------------------------------------------
  // rank_mode

  /** Modes that rate 1 against the identical mode. */
  const SameModes: set<string> := {"bus", "light_rail", "train", "tram"}

  /** Stop modes that a `trainish` candidate serves. */
  const TrainishServes: set<string> := {"train", "light_rail"}

  /** The mode compatibility of a candidate with a stop: 1, 0.7 when a mode is unknown, else 0. */
  function RankMode(stopMode: Option<string>, candidateMode: Option<string>): (r: real)
    ensures r == 1.0 <==>
      (candidateMode == stopMode && candidateMode.Some? && candidateMode.value in SameModes)
      || (candidateMode == Some("trainish") && stopMode.Some? && stopMode.value in TrainishServes)
    ensures r == 0.7 <==> r != 1.0 && (!Truthy(candidateMode) || !Truthy(stopMode))
    ensures r == 0.0 || r == 0.7 || r == 1.0
  {
    if (candidateMode == Some("bus") && stopMode == Some("bus"))
       || (candidateMode == Some("light_rail") && stopMode == Some("light_rail"))
       || (candidateMode == Some("train") && stopMode == Some("train"))
       || (candidateMode == Some("trainish") && (stopMode == Some("train") || stopMode == Some("light_rail")))
       || (candidateMode == Some("tram") && stopMode == Some("tram"))
    then 1.0
    else if !Truthy(candidateMode) || !Truthy(stopMode) then 0.7
    else 0.0
  }

  /** Compatibility is not symmetric: a `trainish` stop scores nothing against a `train` candidate. */
  lemma RankModeAsymmetric()
    ensures RankMode(Some("train"), Some("trainish")) == 1.0
    ensures RankMode(Some("trainish"), Some("train")) == 0.0
  {
  }

  // ---------------------------------------------------------------------------
  // is_bus_station

  /** Substrings of a name that mark a major interchange. */
  const StationKeywords: seq<string> := ["ahnhof", "ZOB", "Schulzentrum", "Flughafen", " Bf"]

  /** The name is_bus_station looks at: the short name, or the long name if the short one is empty. */
  function StationName(stop: Stop): (r: Option<string>)
    ensures Truthy(stop.haltestelle) ==> r == stop.haltestelle
    ensures !Truthy(stop.haltestelle) ==> r == stop.haltestelleLang
  {
    if Truthy(stop.haltestelle) then stop.haltestelle else stop.haltestelleLang
  }

  /** Whether the stop's name contains one of the interchange keywords. */
  function IsBusStation(stop: Stop): (r: bool)
    ensures r <==> (Truthy(StationName(stop))
      && exists k :: 0 <= k < |StationKeywords| && Contains(StationName(stop).value, StationKeywords[k]))
  {
    var name := StationName(stop);
    assert forall k :: 0 <= k < |StationKeywords| ==>
      StationKeywords[k] in {"ahnhof", "ZOB", "Schulzentrum", "Flughafen", " Bf"};
    assert StationKeywords[0] == "ahnhof" && StationKeywords[1] == "ZOB" && StationKeywords[2] == "Schulzentrum"
      && StationKeywords[3] == "Flughafen" && StationKeywords[4] == " Bf";
    Truthy(name)
    && (Contains(name.value, "ahnhof")
        || Contains(name.value, "ZOB")
        || Contains(name.value, "Schulzentrum")
        || Contains(name.value, "Flughafen")
        || Contains(name.value, " Bf"))
  }

  /** How many nearest neighbours match_stop asks the index for. */
  function PoolSize(stop: Stop): (k: nat)
    ensures k == 15 || k == 10
    ensures k == 15 <==> IsBusStation(stop)
  {
    if IsBusStation(stop) then 15 else 10
  }

  /** A stop with a non-empty short name is classified by that name alone. */
  lemma IsBusStationIgnoresLongName(stop: Stop, longName: Option<string>)
    requires Truthy(stop.haltestelle)
    ensures IsBusStation(stop.(haltestelleLang := longName)) == IsBusStation(stop)
  {
  }

  // ---------------------------------------------------------------------------
  // rank_successor_matching

  /**
   * The destination named in the stop's heading, with surrounding whitespace,
   * the district and municipality names removed and commas turned into spaces;
   * None when the heading is empty or names no direction marker.
   */
  function DirectionFragment(stop: Stop): (r: Option<string>)
    ensures !Truthy(stop.nameSteig) ==> r.None?
    ensures Truthy(stop.nameSteig) ==> (r.None? <==> DirectionText.Destination(stop.nameSteig.value).None?)
    ensures r.Some? ==> ',' !in r.value
  {
    if !Truthy(stop.nameSteig) then None
    else
      match DirectionText.Destination(stop.nameSteig.value)
      case None => None
      case Some(g) => Some(ReplaceChar(RemoveAll(RemoveAll(Strip(g), stop.ortsteil), stop.gemeinde), ',', ' '))
  }

  /** A candidate's list of adjacent stop names with the district and municipality removed; None when empty. */
  function CleanedStops(stops: Option<string>, stop: Stop): (r: Option<string>)
    ensures r.Some? <==> Truthy(stops)
    ensures r.Some? ==> |r.value| <= |stops.value|
  {
    if Truthy(stops) then Some(RemoveAll(RemoveAll(stops.value, stop.ortsteil), stop.gemeinde)) else None
  }

  /**
   * The text of a direction fragment: group 3 of the heading's match, stripped, with the
   * district and then the municipality name cut out and commas turned into spaces.
   */
  lemma DirectionFragmentText(stop: Stop)
    requires DirectionFragment(stop).Some?
    ensures Truthy(stop.nameSteig) && DirectionText.Destination(stop.nameSteig.value).Some?
    ensures DirectionFragment(stop).value == ReplaceChar(RemoveAll(RemoveAll(
      Strip(DirectionText.Destination(stop.nameSteig.value).value), stop.ortsteil), stop.gemeinde), ',', ' ')
  {
  }

  /** The text of a cleaned neighbour list: the list with the district and then the municipality name cut out. */
  lemma CleanedStopsText(stops: Option<string>, stop: Stop)
    requires Truthy(stops)
    ensures CleanedStops(stops, stop) == Some(RemoveAll(RemoveAll(stops.value, stop.ortsteil), stop.gemeinde))
  {
  }

  /** Similarity of the heading's destination to the candidate's next stops. */
  function NextSimilarity(stop: Stop, candidate: OsmStop, env: Env, fragment: string): real {
    env.compare(Some(fragment), CleanedStops(candidate.nextStops, stop))
  }

  /** Similarity of the heading's destination to the candidate's previous stops. */
  function PrevSimilarity(stop: Stop, candidate: OsmStop, env: Env, fragment: string): real {
    env.compare(Some(fragment), CleanedStops(candidate.prevStops, stop))
  }

  /** The direction signal: +1 when the candidate's next stops name the heading's destination, -1 for its previous stops. */
  function RankSuccessorMatching(stop: Stop, candidate: OsmStop, env: Env): (r: int)
    ensures r == -1 || r == 0 || r == 1
    ensures DirectionFragment(stop).None? ==> r == 0
    ensures r == 1 <==> (DirectionFragment(stop).Some?
      && NextSimilarity(stop, candidate, env, DirectionFragment(stop).value) > 0.7
      && PrevSimilarity(stop, candidate, env, DirectionFragment(stop).value) < 0.6)
    ensures r == -1 <==> (DirectionFragment(stop).Some?
      && PrevSimilarity(stop, candidate, env, DirectionFragment(stop).value) > 0.7
      && NextSimilarity(stop, candidate, env, DirectionFragment(stop).value) < 0.6)
  {
    match DirectionFragment(stop)
    case None => 0
    case Some(richtung) =>
      var similarityNext := NextSimilarity(stop, candidate, env, richtung);
      var similarityPrev := PrevSimilarity(stop, candidate, env, richtung);
      if similarityNext > 0.7 && similarityPrev < 0.6 then 1
      else if similarityPrev > 0.7 && similarityNext < 0.6 then -1
      else 0
  }

  // ---------------------------------------------------------------------------
  // rank_candidate

  /** Similarity used when a name is missing. */
  const NoNameSimilarity: real := 0.3

  /** The official stop has neither a short nor a long name ('' or None). */
  predicate StopHasNoName(stop: Stop) {
    !Truthy(stop.haltestelle) && !Truthy(stop.haltestelleLang)
  }

  /** The two name similarities of rank_candidate, after its sentinel branches. */
  datatype NameScores = NameScores(short: real, long: real)

  function NameScoresFor(stop: Stop, osmName: Option<string>, env: Env): NameScores {
    var short := env.compare(stop.haltestelle, osmName);
    var long := env.compare(stop.haltestelleLang, osmName);
    if StopHasNoName(stop) then NameScores(NoNameSimilarity, long)
    else if !Truthy(osmName) then NameScores(NoNameSimilarity, NoNameSimilarity)
    else NameScores(short, long)
  }

  /** Python's `max(a, b)`. */
  function Max(a: real, b: real): (r: real)
    ensures r >= a && r >= b && (r == a || r == b)
  {
    if b > a then b else a
  }

  /** The name similarity of rank_candidate: the better of the short- and long-name similarities. */
  function NameDistance(stop: Stop, osmName: Option<string>, env: Env): (r: real)
    ensures !StopHasNoName(stop) && !Truthy(osmName) ==> r == NoNameSimilarity
    ensures !StopHasNoName(stop) && Truthy(osmName) ==>
      r == Max(env.compare(stop.haltestelle, osmName), env.compare(stop.haltestelleLang, osmName))
    ensures StopHasNoName(stop) ==> r == Max(NoNameSimilarity, env.compare(stop.haltestelleLang, osmName))
  {
    var scores := NameScoresFor(stop, osmName, env);
    Max(scores.short, scores.long)
  }

  /** The platform part of a structured id: the text after its last ':' when it has more than three. */
  function IfoptPlatform(globaleId: Option<string>): (r: Option<string>)
    ensures r.Some? <==> globaleId.Some? && Count(globaleId.value, ':') > 3
    ensures r.Some? ==> ':' !in r.value && |r.value| < |globaleId.value|
    ensures r.Some? ==> globaleId.value == globaleId.value[..|globaleId.value| - |r.value| - 1] + [':'] + r.value
  {
    if Truthy(globaleId) && Count(globaleId.value, ':') > 3 then
      var s := globaleId.value;
      assert ':' in multiset(s);
      var i := RFind(s, ':');
      assert s == s[..i] + [':'] + s[i + 1..];
      Some(s[i + 1..])
    else
      None
  }

  /** `str(candidate["assumed_platform"])`: Python renders None as "None". */
  function PlatformText(assumed: Option<string>): string {
    match assumed
    case None => "None"
    case Some(t) => t
  }

  predicate PlatformMatches(ifoptPlatform: Option<string>, assumed: Option<string>) {
    ifoptPlatform == Some(PlatformText(assumed))
  }

  predicate PlatformMismatches(ifoptPlatform: Option<string>, assumed: Option<string>) {
    ifoptPlatform.Some? && assumed.Some? && !PlatformMatches(ifoptPlatform, assumed)
  }

  /** The exponent of the composite rating: corroborating signals lower it. */
  function Exponent(successorRating: int, modeRating: real, platformMatches: bool): real {
    1.0 - successorRating as real * 0.2 - modeRating * 0.1
        - modeRating * (if platformMatches then 1.0 else 0.0) * 0.5
  }

  /** The base of the composite rating: name similarity per metre, halved on a platform mismatch. */
  function BaseRating(nameDistance: real, distance: Meters, platformMismatches: bool): (r: real)
    ensures !platformMismatches ==> r * (1.0 + distance) == nameDistance
    ensures platformMismatches ==> r == BaseRating(nameDistance, distance, false) * 0.5
  {
    var base := nameDistance / (1.0 + distance);
    if platformMismatches then base * 0.5 else base
  }

  /** What rank_candidate returns. */
  datatype Ranking = Ranking(
    rating: real,
    nameDistance: real,
    matchedName: Option<string>,
    osmName: Option<string>,
    platformMatches: bool,
    successorRating: int,
    modeRating: real)

  /** The composite rating of one candidate at `distance` metres from the stop. */
  function RankCandidate(stop: Stop, candidate: OsmStop, distance: Meters, env: Env): (r: Ranking)
    ensures candidate.ref == stop.globaleId ==> r.rating == 1.0
    ensures candidate.ref != stop.globaleId ==>
      r.rating == env.pow(
        BaseRating(r.nameDistance, distance, PlatformMismatches(IfoptPlatform(stop.globaleId), candidate.assumedPlatform)),
        Exponent(r.successorRating, r.modeRating, r.platformMatches))
    ensures r.nameDistance == NameDistance(stop, candidate.name, env)
    ensures r.platformMatches == PlatformMatches(IfoptPlatform(stop.globaleId), candidate.assumedPlatform)
    ensures !(r.platformMatches && PlatformMismatches(IfoptPlatform(stop.globaleId), candidate.assumedPlatform))
    ensures r.modeRating == RankMode(stop.mode, candidate.mode)
    ensures r.successorRating == RankSuccessorMatching(stop, candidate, env)
  {
    var osmName := candidate.name;
    var scores := NameScoresFor(stop, osmName, env);
    var matchedName := if scores.short < scores.long then stop.haltestelleLang else stop.haltestelle;
    var nameDistance := Max(scores.short, scores.long);
    var ifoptPlatform := IfoptPlatform(stop.globaleId);
    var platformMatches := PlatformMatches(ifoptPlatform, candidate.assumedPlatform);
    var platformMismatches := PlatformMismatches(ifoptPlatform, candidate.assumedPlatform);
    var modeRating := RankMode(stop.mode, candidate.mode);
    var successorRating := RankSuccessorMatching(stop, candidate, env);
    var rating :=
      if candidate.ref == stop.globaleId then 1.0
      else
        env.pow(BaseRating(nameDistance, distance, platformMismatches),
                Exponent(successorRating, modeRating, platformMatches));
    Ranking(rating, nameDistance, matchedName, osmName, platformMatches, successorRating, modeRating)
  }

  /**
   * A platform id that reads "None" matches a candidate whose assumed platform
   * is missing, because the comparison is made against `str(None)`.
   */
  lemma MissingPlatformMatchesNoneText(stop: Stop, candidate: OsmStop, distance: Meters, env: Env)
    requires IfoptPlatform(stop.globaleId) == Some("None")
    requires candidate.assumedPlatform.None?
    ensures RankCandidate(stop, candidate, distance, env).platformMatches
  {
  }

  // ---------------------------------------------------------------------------
  // rank_candidates

  /** Candidates farther away than this end the search. */
  const MaxDistance: real := 400.0

  /** Ratings below this are dropped. */
  const MinRating: real := 0.001

  /** Name similarities below this are subject to the running-name rule. */
  const WeakNameDistance: real := 0.3

  /** A rail candidate for a bus stop. */
  predicate RailForBus(stopMode: Option<string>, candidateMode: Option<string>) {
    candidateMode.Some? && candidateMode.value in {"trainish", "train", "light_rail", "tram"}
    && stopMode == Some("bus")
  }

  /** A bus candidate for a rail stop. */
  predicate BusForRail(stopMode: Option<string>, candidateMode: Option<string>) {
    candidateMode == Some("bus")
    && stopMode.Some? && stopMode.value in {"tram", "light_rail", "train"}
  }

  /** A mode-excluded pair never rates above 0 on mode. */
  lemma ExcludedModesRateZero(stopMode: Option<string>, candidateMode: Option<string>)
    requires RailForBus(stopMode, candidateMode) || BusForRail(stopMode, candidateMode)
    ensures RankMode(stopMode, candidateMode) == 0.0
  {
  }

  /** A candidate that survived rank_candidates, as the matches list holds it. */
  datatype Match = Match(
    globalId: string,
    candidate: OsmStop,
    nameDistance: real,
    distance: Meters,
    platformMatches: bool,
    successorRating: int,
    rating: real,
    modeRating: real)

  function DistanceTo(coords: Coord, candidate: OsmStop, env: Env): Meters {
    env.haversine(coords, (candidate.lat, candidate.lon))
  }

  /** What one iteration of rank_candidates does with a candidate. */
  datatype Verdict = Halt | Skip | Keep(m: Match)

  function Examine(stop: Stop, stopId: string, coords: Coord, candidate: OsmStop, lastNameDistance: real, env: Env): Verdict {
    var distance := DistanceTo(coords, candidate, env);
    if distance > MaxDistance then Halt
    else if RailForBus(stop.mode, candidate.mode) then Skip
    else if BusForRail(stop.mode, candidate.mode) then Skip
    else
      var rk := RankCandidate(stop, candidate, distance, env);
      if lastNameDistance > rk.nameDistance && rk.nameDistance < WeakNameDistance then Skip
      else if rk.rating < MinRating then Skip
      else Keep(Match(stopId, candidate, rk.nameDistance, distance, rk.platformMatches,
                      rk.successorRating, rk.rating, rk.modeRating))
  }

  /** The matches rank_candidates returns, starting with `lastNameDistance` as the running name similarity. */
  function Ranked(stop: Stop, stopId: string, coords: Coord, candidates: seq<OsmStop>, lastNameDistance: real, env: Env): seq<Match>
    decreases |candidates|
  {
    if candidates == [] then []
    else
      match Examine(stop, stopId, coords, candidates[0], lastNameDistance, env)
      case Halt => []
      case Skip => Ranked(stop, stopId, coords, candidates[1..], lastNameDistance, env)
      case Keep(m) => [m] + Ranked(stop, stopId, coords, candidates[1..], m.nameDistance, env)
  }

  /** One step of `Ranked`, at index `i` of the candidates. */
  lemma RankedAt(stop: Stop, stopId: string, coords: Coord, candidates: seq<OsmStop>, i: nat, last: real, env: Env)
    requires i < |candidates|
    ensures Ranked(stop, stopId, coords, candidates[i..], last, env) ==
      match Examine(stop, stopId, coords, candidates[i], last, env)
      case Halt => []
      case Skip => Ranked(stop, stopId, coords, candidates[i + 1..], last, env)
      case Keep(m) => [m] + Ranked(stop, stopId, coords, candidates[i + 1..], m.nameDistance, env)
  {
    assert candidates[i..][0] == candidates[i];
    assert candidates[i..][1..] == candidates[i + 1..];
  }

  /** rank_candidates: walks the candidates nearest first and keeps those that pass every rule. */
  method RankCandidates(stop: Stop, stopId: string, coords: Coord, candidates: seq<OsmStop>, env: Env)
    returns (matches: seq<Match>)
    ensures matches == Ranked(stop, stopId, coords, candidates, 0.0, env)
  {
    matches := [];
    var lastNameDistance: real := 0.0;
    for i := 0 to |candidates|
      invariant matches + Ranked(stop, stopId, coords, candidates[i..], lastNameDistance, env)
             == Ranked(stop, stopId, coords, candidates, 0.0, env)
    {
      var candidate := candidates[i];
      ghost var rest := Ranked(stop, stopId, coords, candidates[i..], lastNameDistance, env);
      ghost var skipped := Ranked(stop, stopId, coords, candidates[i + 1..], lastNameDistance, env);
      RankedAt(stop, stopId, coords, candidates, i, lastNameDistance, env);
      var distance := env.haversine(coords, (candidate.lat, candidate.lon));
      if distance > MaxDistance {
        assert rest == [];
        return;
      }
      // Ignore rail candidates when looking for a bus stop.
      if RailForBus(stop.mode, candidate.mode) {
        assert rest == skipped;
        continue;
      }
      // Ignore bus candidates when looking for a railway stop.
      if BusForRail(stop.mode, candidate.mode) {
        assert rest == skipped;
        continue;
      }
      var rk := RankCandidate(stop, candidate, distance, env);
      if lastNameDistance > rk.nameDistance && rk.nameDistance < WeakNameDistance {
        assert rest == skipped;
        continue;
      } else if rk.rating < MinRating {
        assert rest == skipped;
        continue;
      }
      var kept := Match(stopId, candidate, rk.nameDistance, distance, rk.platformMatches,
                        rk.successorRating, rk.rating, rk.modeRating);
      assert rest == [kept] + Ranked(stop, stopId, coords, candidates[i + 1..], rk.nameDistance, env);
      matches := matches + [kept];
      lastNameDistance := rk.nameDistance;
    }
  }

  /** A kept match passed every rule of rank_candidates and carries the candidate's ranking. */
  predicate Admissible(stop: Stop, stopId: string, coords: Coord, env: Env, m: Match) {
    var rk := RankCandidate(stop, m.candidate, m.distance, env);
    m.globalId == stopId
    && m.distance == DistanceTo(coords, m.candidate, env)
    && m.distance <= MaxDistance
    && !RailForBus(stop.mode, m.candidate.mode)
    && !BusForRail(stop.mode, m.candidate.mode)
    && m.rating >= MinRating
    && m.rating == rk.rating && m.nameDistance == rk.nameDistance
    && m.platformMatches == rk.platformMatches && m.successorRating == rk.successorRating
    && m.modeRating == rk.modeRating
  }

  lemma {:induction false} RankedAdmissible(stop: Stop, stopId: string, coords: Coord, candidates: seq<OsmStop>, last: real, env: Env)
    ensures forall m :: m in Ranked(stop, stopId, coords, candidates, last, env) ==> Admissible(stop, stopId, coords, env, m)
    decreases |candidates|
  {
    if candidates != [] {
      match Examine(stop, stopId, coords, candidates[0], last, env)
      case Halt =>
      case Skip => RankedAdmissible(stop, stopId, coords, candidates[1..], last, env);
      case Keep(m) => RankedAdmissible(stop, stopId, coords, candidates[1..], m.nameDistance, env);
    }
  }

  /** The candidates of a list of matches. */
  function CandidatesOf(ms: seq<Match>): (r: seq<OsmStop>)
    ensures |r| == |ms| && forall i :: 0 <= i < |ms| ==> r[i] == ms[i].candidate
  {
    seq(|ms|, i requires 0 <= i < |ms| => ms[i].candidate)
  }

  /** The kept matches are candidates of the input, in input order. */
  lemma {:induction false} RankedIsSubsequence(stop: Stop, stopId: string, coords: Coord, candidates: seq<OsmStop>, last: real, env: Env)
    ensures IsSubsequence(CandidatesOf(Ranked(stop, stopId, coords, candidates, last, env)), candidates)
    decreases |candidates|
  {
    if candidates != [] {
      match Examine(stop, stopId, coords, candidates[0], last, env)
      case Halt =>
      case Skip =>
        RankedIsSubsequence(stop, stopId, coords, candidates[1..], last, env);
      case Keep(m) =>
        var rest := Ranked(stop, stopId, coords, candidates[1..], m.nameDistance, env);
        RankedIsSubsequence(stop, stopId, coords, candidates[1..], m.nameDistance, env);
        assert CandidatesOf([m] + rest)[1..] == CandidatesOf(rest);
    }
  }

  /** Nothing after a candidate farther than 400 m is examined. */
  lemma {:induction false} RankedStopsAtFarCandidate(stop: Stop, stopId: string, coords: Coord, candidates: seq<OsmStop>, last: real, env: Env, k: nat)
    requires k < |candidates| && DistanceTo(coords, candidates[k], env) > MaxDistance
    ensures Ranked(stop, stopId, coords, candidates, last, env) == Ranked(stop, stopId, coords, candidates[..k], last, env)
    decreases k
  {
    if k > 0 {
      var prefix := candidates[..k];
      assert prefix[0] == candidates[0];
      assert prefix[1..] == candidates[1..][..k - 1];
      match Examine(stop, stopId, coords, candidates[0], last, env)
      case Halt =>
      case Skip =>
        RankedStopsAtFarCandidate(stop, stopId, coords, candidates[1..], last, env, k - 1);
      case Keep(m) =>
        RankedStopsAtFarCandidate(stop, stopId, coords, candidates[1..], m.nameDistance, env, k - 1);
    }
  }

  /** A kept match with a weak name similarity is no weaker than the match kept before it. */
  lemma {:induction false} RankedWeakNamesDoNotDecrease(stop: Stop, stopId: string, coords: Coord, candidates: seq<OsmStop>, last: real, env: Env)
    ensures var r := Ranked(stop, stopId, coords, candidates, last, env);
      (r != [] && r[0].nameDistance < WeakNameDistance ==> last <= r[0].nameDistance)
      && forall j :: 1 <= j < |r| && r[j].nameDistance < WeakNameDistance ==> r[j - 1].nameDistance <= r[j].nameDistance
    decreases |candidates|
  {
    if candidates != [] {
      match Examine(stop, stopId, coords, candidates[0], last, env)
      case Halt =>
      case Skip =>
        RankedWeakNamesDoNotDecrease(stop, stopId, coords, candidates[1..], last, env);
      case Keep(m) =>
        var rest := Ranked(stop, stopId, coords, candidates[1..], m.nameDistance, env);
        RankedWeakNamesDoNotDecrease(stop, stopId, coords, candidates[1..], m.nameDistance, env);
        var r := [m] + rest;
        forall j | 1 <= j < |r| && r[j].nameDistance < WeakNameDistance
          ensures r[j - 1].nameDistance <= r[j].nameDistance
        {
          if j > 1 {
            assert r[j] == rest[j - 1] && r[j - 1] == rest[j - 2];
          }
        }
    }
  }

  /** The running `last_name_distance` after the matches `ms` were kept, starting from `last`. */
  function LastNameDistance(ms: seq<Match>, last: real): real {
    if ms == [] then last else ms[|ms| - 1].nameDistance
  }

  /** The matches one iteration adds: the candidate's match when it is kept, else none. */
  function KeptBy(v: Verdict): seq<Match> {
    if v.Keep? then [v.m] else []
  }

  /** The goal of `RankedAppend`: ranking `xs + [c]` adds what `c`'s iteration keeps after `xs`. */
  predicate AppendRanks(stop: Stop, stopId: string, coords: Coord, xs: seq<OsmStop>, c: OsmStop, last: real, env: Env) {
    var before := Ranked(stop, stopId, coords, xs, last, env);
    Ranked(stop, stopId, coords, xs + [c], last, env)
      == before + KeptBy(Examine(stop, stopId, coords, c, LastNameDistance(before, last), env))
  }

  /** The step of `RankedAppend` when the first candidate is skipped. */
  lemma RankedAppendSkip(stop: Stop, stopId: string, coords: Coord, xs: seq<OsmStop>, c: OsmStop, last: real, env: Env)
    requires xs != [] && Examine(stop, stopId, coords, xs[0], last, env).Skip?
    requires AppendRanks(stop, stopId, coords, xs[1..], c, last, env)
    ensures AppendRanks(stop, stopId, coords, xs, c, last, env)
  {
    assert (xs + [c])[0] == xs[0] && (xs + [c])[1..] == xs[1..] + [c];
  }

  /** The step of `RankedAppend` when the first candidate is kept as `m`. */
  lemma RankedAppendKeep(stop: Stop, stopId: string, coords: Coord, xs: seq<OsmStop>, c: OsmStop, last: real, env: Env, m: Match)
    requires xs != [] && Examine(stop, stopId, coords, xs[0], last, env) == Keep(m)
    requires AppendRanks(stop, stopId, coords, xs[1..], c, m.nameDistance, env)
    ensures AppendRanks(stop, stopId, coords, xs, c, last, env)
  {
    assert (xs + [c])[0] == xs[0] && (xs + [c])[1..] == xs[1..] + [c];
    var rest := Ranked(stop, stopId, coords, xs[1..], m.nameDistance, env);
    var lastKept := LastNameDistance(rest, m.nameDistance);
    assert LastNameDistance([m] + rest, last) == lastKept;
    assert Examine(stop, stopId, coords, c, LastNameDistance([m] + rest, last), env)
        == Examine(stop, stopId, coords, c, lastKept, env);
  }

  /**
   * While no candidate of `xs` is farther than 400 m, ranking one more candidate `c` adds
   * exactly what its iteration keeps, judged against the name distance of the last match
   * kept from `xs`.
   */
  lemma {:induction false} RankedAppend(stop: Stop, stopId: string, coords: Coord, xs: seq<OsmStop>, c: OsmStop, last: real, env: Env)
    requires forall j :: 0 <= j < |xs| ==> DistanceTo(coords, xs[j], env) <= MaxDistance
    ensures AppendRanks(stop, stopId, coords, xs, c, last, env)
    decreases |xs|
  {
    if xs == [] {
      assert [] + [c] == [c] && [c][1..] == [];
    } else {
      var v := Examine(stop, stopId, coords, xs[0], last, env);
      if v.Skip? {
        RankedAppend(stop, stopId, coords, xs[1..], c, last, env);
        RankedAppendSkip(stop, stopId, coords, xs, c, last, env);
      } else if v.Keep? {
        RankedAppend(stop, stopId, coords, xs[1..], c, v.m.nameDistance, env);
        RankedAppendKeep(stop, stopId, coords, xs, c, last, env, v.m);
      } else {
        assert false;
      }
    }
  }

  /** `RankedAppend` at index `i` of the candidates. */
  lemma RankedSnoc(stop: Stop, stopId: string, coords: Coord, candidates: seq<OsmStop>, i: nat, last: real, env: Env)
    requires i < |candidates|
    requires forall j :: 0 <= j < i ==> DistanceTo(coords, candidates[j], env) <= MaxDistance
    ensures var before := Ranked(stop, stopId, coords, candidates[..i], last, env);
      Ranked(stop, stopId, coords, candidates[..i + 1], last, env)
        == before + KeptBy(Examine(stop, stopId, coords, candidates[i], LastNameDistance(before, last), env))
  {
    assert candidates[..i + 1] == candidates[..i] + [candidates[i]];
    RankedAppend(stop, stopId, coords, candidates[..i], candidates[i], last, env);
    assert AppendRanks(stop, stopId, coords, candidates[..i], candidates[i], last, env);
  }

  /** Ranking a prefix of the candidates gives a prefix of the matches. */
  lemma {:induction false} RankedPrefix(stop: Stop, stopId: string, coords: Coord, candidates: seq<OsmStop>, k: nat, last: real, env: Env)
    requires k <= |candidates|
    ensures Ranked(stop, stopId, coords, candidates[..k], last, env) <= Ranked(stop, stopId, coords, candidates, last, env)
    decreases k
  {
    if k > 0 {
      var tail := candidates[1..];
      assert candidates[..k][0] == candidates[0];
      assert candidates[..k][1..] == tail[..k - 1];
      match Examine(stop, stopId, coords, candidates[0], last, env)
      case Halt =>
      case Skip =>
        RankedPrefix(stop, stopId, coords, tail, k - 1, last, env);
      case Keep(m) =>
        RankedPrefix(stop, stopId, coords, tail, k - 1, m.nameDistance, env);
    }
  }

  /**
   * The converse of `RankedAdmissible`: a candidate reached before any candidate farther
   * than 400 m is kept exactly when it passes the mode, name and rating rules, the name rule
   * judged against the last match kept before it (or 0 for the first); it is then the
   * next match in the result, carrying its ranking, and otherwise nothing is added for it.
   */
  lemma RankedKeepsExactlyPassing(stop: Stop, stopId: string, coords: Coord, candidates: seq<OsmStop>, i: nat, env: Env)
    requires i < |candidates|
    requires forall j :: 0 <= j <= i ==> DistanceTo(coords, candidates[j], env) <= MaxDistance
    ensures var before := Ranked(stop, stopId, coords, candidates[..i], 0.0, env);
      var after := Ranked(stop, stopId, coords, candidates[..i + 1], 0.0, env);
      var c := candidates[i];
      var d := DistanceTo(coords, c, env);
      var rk := RankCandidate(stop, c, d, env);
      var passes := !RailForBus(stop.mode, c.mode) && !BusForRail(stop.mode, c.mode)
        && !(LastNameDistance(before, 0.0) > rk.nameDistance && rk.nameDistance < WeakNameDistance)
        && rk.rating >= MinRating;
      after <= Ranked(stop, stopId, coords, candidates, 0.0, env)
      && (passes ==> after == before + [Match(stopId, c, rk.nameDistance, d, rk.platformMatches,
                                             rk.successorRating, rk.rating, rk.modeRating)])
      && (!passes ==> after == before)
  {
    RankedSnoc(stop, stopId, coords, candidates, i, 0.0, env);
    RankedPrefix(stop, stopId, coords, candidates, i + 1, 0.0, env);
  }

  // ---------------------------------------------------------------------------
  // store_matches / match_stop: the two indexes

  /** The list stored under `k`, or the empty list. */
  function Lookup(index: map<string, seq<Match>>, k: string): seq<Match> {
    if k in index then index[k] else []
  }

  /** The matches of `ms` whose candidate is OSM stop `osmId`, in order. */
  function MatchesFor(ms: seq<Match>, osmId: string): (r: seq<Match>)
    ensures |r| <= |ms|
    ensures forall m :: m in r <==> m in ms && m.candidate.id == osmId
    ensures IsSubsequence(r, ms)
  {
    if ms == [] then []
    else
      var last := ms[|ms| - 1];
      var prev := MatchesFor(ms[..|ms| - 1], osmId);
      assert ms == ms[..|ms| - 1] + [last];
      SubsequenceSnoc(prev, ms[..|ms| - 1], last);
      if last.candidate.id == osmId then prev + [last] else assert prev + [] == prev; prev + []
  }

  /** Each match of `ms` for `osmId` is kept as often as it occurs, and no other match is. */
  lemma {:induction false} MatchesForCounts(ms: seq<Match>, osmId: string)
    ensures forall m :: multiset(MatchesFor(ms, osmId))[m] == if m.candidate.id == osmId then multiset(ms)[m] else 0
    decreases |ms|
  {
    if ms != [] {
      var last := ms[|ms| - 1];
      MatchesForCounts(ms[..|ms| - 1], osmId);
      assert ms == ms[..|ms| - 1] + [last];
    }
  }

  /** The OSM-side index after appending each match of `ms`, in order, under its candidate's id. */
  function AppendedByCandidate(index: map<string, seq<Match>>, ms: seq<Match>): map<string, seq<Match>> {
    if ms == [] then index
    else
      var last := ms[|ms| - 1];
      var prev := AppendedByCandidate(index, ms[..|ms| - 1]);
      prev[last.candidate.id := Lookup(prev, last.candidate.id) + [last]]
  }

  /** Appending one more match extends the index by that match alone. */
  lemma AppendedByCandidateSnoc(index: map<string, seq<Match>>, ms: seq<Match>, m: Match)
    ensures AppendedByCandidate(index, ms + [m]) ==
      AppendedByCandidate(index, ms)[m.candidate.id := Lookup(AppendedByCandidate(index, ms), m.candidate.id) + [m]]
  {
    assert (ms + [m])[..|ms|] == ms;
  }

  /** The index gains exactly the candidates' OSM ids as keys. */
  lemma {:induction false} AppendedByCandidateKeys(index: map<string, seq<Match>>, ms: seq<Match>)
    ensures forall k :: k in AppendedByCandidate(index, ms) <==> k in index || exists m :: m in ms && m.candidate.id == k
    decreases |ms|
  {
    if ms != [] {
      var last := ms[|ms| - 1];
      AppendedByCandidateKeys(index, ms[..|ms| - 1]);
      assert ms == ms[..|ms| - 1] + [last];
    }
  }

  /** Each OSM id's list grows by exactly the new matches for it, in order; other lists are unchanged. */
  lemma {:induction false} AppendedByCandidateContents(index: map<string, seq<Match>>, ms: seq<Match>, k: string)
    ensures Lookup(AppendedByCandidate(index, ms), k) == Lookup(index, k) + MatchesFor(ms, k)
    decreases |ms|
  {
    if ms != [] {
      AppendedByCandidateContents(index, ms[..|ms| - 1], k);
    }
  }

  /** A row of the `candidates` table. */
  datatype CandidateRow = CandidateRow(
    ifoptId: string,
    osmId: string,
    rating: real,
    distance: real,
    nameDistance: real,
    platformMatches: bool,
    successorRating: int,
    modeRating: real)

  function ToRow(m: Match): (r: CandidateRow)
    ensures r.ifoptId == m.globalId && r.osmId == m.candidate.id && r.rating == m.rating
    ensures r.distance == m.distance && r.nameDistance == m.nameDistance
    ensures r.platformMatches == m.platformMatches && r.successorRating == m.successorRating
    ensures r.modeRating == m.modeRating
  {
    CandidateRow(m.globalId, m.candidate.id, m.rating, m.distance, m.nameDistance,
                 m.platformMatches, m.successorRating, m.modeRating)
  }

  function Rows(ms: seq<Match>): (r: seq<CandidateRow>)
    ensures |r| == |ms| && forall i :: 0 <= i < |ms| ==> r[i] == ToRow(ms[i])
  {
    seq(|ms|, i requires 0 <= i < |ms| => ToRow(ms[i]))
  }

  /** The rows export_match_candidates inserts: each official id's matches, in key order. */
  function ExportRows(order: seq<string>, officialMatches: map<string, seq<Match>>): seq<CandidateRow>
    requires forall k :: k in order ==> k in officialMatches
  {
    if order == [] then []
    else ExportRows(order[..|order| - 1], officialMatches) + Rows(officialMatches[order[|order| - 1]])
  }

  /** Every stored match is exported, and every exported row comes from a stored match. */
  lemma {:induction false} ExportRowsExactlyTheMatches(order: seq<string>, officialMatches: map<string, seq<Match>>)
    requires forall k :: k in order ==> k in officialMatches
    ensures forall k, m :: k in order && m in officialMatches[k] ==> ToRow(m) in ExportRows(order, officialMatches)
    ensures forall r :: r in ExportRows(order, officialMatches) ==>
      exists k, m :: k in order && m in officialMatches[k] && r == ToRow(m)
    decreases |order|
  {
    if order != [] {
      var init := order[..|order| - 1];
      var last := order[|order| - 1];
      ExportRowsExactlyTheMatches(init, officialMatches);
      assert order == init + [last];
      forall k, m | k in order && m in officialMatches[k]
        ensures ToRow(m) in ExportRows(order, officialMatches)
      {
        if k == last {
          var i :| 0 <= i < |officialMatches[k]| && officialMatches[k][i] == m;
          assert Rows(officialMatches[k])[i] == ToRow(m);
        } else {
          assert k in init;
        }
      }
      forall r | r in ExportRows(order, officialMatches)
        ensures exists k, m :: k in order && m in officialMatches[k] && r == ToRow(m)
      {
        if r !in ExportRows(init, officialMatches) {
          var i :| 0 <= i < |officialMatches[last]| && Rows(officialMatches[last])[i] == r;
          assert officialMatches[last][i] in officialMatches[last];
        }
      }
    }
  }

  /**
   * The accumulator: official_matches keyed by official id (with its keys in
   * insertion order, which a Python dict keeps) and osm_matches keyed by OSM id.
   */
  class Accumulator {
    var officialMatches: map<string, seq<Match>>
    var officialOrder: seq<string>
    var osmMatches: map<string, seq<Match>>

    ghost predicate Valid()
      reads this
    {
      (forall k :: k in officialMatches <==> k in officialOrder)
      && (forall i, j :: 0 <= i < j < |officialOrder| ==> officialOrder[i] != officialOrder[j])
      && (forall k :: k in officialMatches ==>
            officialMatches[k] != [] && forall m :: m in officialMatches[k] ==> m.globalId == k)
      && (forall k :: k in osmMatches ==>
            osmMatches[k] != [] && forall m :: m in osmMatches[k] ==> m.candidate.id == k)
    }

    constructor ()
      ensures Valid()
      ensures officialMatches == map[] && officialOrder == [] && osmMatches == map[]
    {
      officialMatches := map[];
      officialOrder := [];
      osmMatches := map[];
    }

    /** store_matches: records `matches` under the official id and under each candidate's OSM id. */
    method StoreMatches(officialStopId: string, matches: seq<Match>)
      modifies this
      ensures officialMatches == old(officialMatches)[officialStopId := matches]
      ensures officialOrder ==
        if officialStopId in old(officialMatches) then old(officialOrder) else old(officialOrder) + [officialStopId]
      ensures osmMatches == AppendedByCandidate(old(osmMatches), matches)
      ensures forall k :: Lookup(osmMatches, k) == Lookup(old(osmMatches), k) + MatchesFor(matches, k)
    {
      if officialStopId !in officialMatches {
        officialOrder := officialOrder + [officialStopId];
      }
      officialMatches := officialMatches[officialStopId := matches];
      for i := 0 to |matches|
        invariant officialMatches == old(officialMatches)[officialStopId := matches]
        invariant officialOrder ==
          if officialStopId in old(officialMatches) then old(officialOrder) else old(officialOrder) + [officialStopId]
        invariant osmMatches == AppendedByCandidate(old(osmMatches), matches[..i])
      {
        var stored := matches[i];
        var osmId := stored.candidate.id;
        ghost var before := osmMatches;
        if osmId !in osmMatches {
          osmMatches := osmMatches[osmId := []];
        }
        osmMatches := osmMatches[osmId := osmMatches[osmId] + [stored]];
        assert osmMatches == before[osmId := Lookup(before, osmId) + [stored]];
        AppendedByCandidateSnoc(old(osmMatches), matches[..i], stored);
        assert matches[..i + 1] == matches[..i] + [stored];
      }
      assert matches[..|matches|] == matches;
      forall k ensures Lookup(osmMatches, k) == Lookup(old(osmMatches), k) + MatchesFor(matches, k) {
        AppendedByCandidateContents(old(osmMatches), matches, k);
      }
    }

    /** match_stop: ranks the stop's nearest candidates and stores the survivors, if any. */
    method MatchStop(stop: Stop, stopId: string, coords: Coord, env: Env)
      requires Valid()
      modifies this
      ensures Valid()
      ensures var ms := Ranked(stop, stopId, coords, env.nearest(coords, PoolSize(stop)), 0.0, env);
        if ms == [] then
          officialMatches == old(officialMatches) && officialOrder == old(officialOrder)
          && osmMatches == old(osmMatches)
        else
          officialMatches == old(officialMatches)[stopId := ms]
          && officialOrder == (if stopId in old(officialMatches) then old(officialOrder) else old(officialOrder) + [stopId])
          && osmMatches == AppendedByCandidate(old(osmMatches), ms)
    {
      var noOfCandidates := if IsBusStation(stop) then 15 else 10;
      var candidates := env.nearest(coords, noOfCandidates);
      var matches := RankCandidates(stop, stopId, coords, candidates, env);
      if matches != [] {
        RankedAdmissible(stop, stopId, coords, candidates, 0.0, env);
        StoreMatches(stopId, matches);
        AppendedByCandidateKeys(old(osmMatches), matches);
        forall k | k in osmMatches
          ensures osmMatches[k] != [] && forall m :: m in osmMatches[k] ==> m.candidate.id == k
        {
          assert Lookup(osmMatches, k) == Lookup(old(osmMatches), k) + MatchesFor(matches, k);
          if k !in old(osmMatches) {
            var m :| m in matches && m.candidate.id == k;
            assert m in MatchesFor(matches, k);
          }
        }
      }
    }

    /** The rows export_match_candidates writes to the `candidates` table. */
    method CandidateRows() returns (rows: seq<CandidateRow>)
      requires Valid()
      ensures rows == ExportRows(officialOrder, officialMatches)
      ensures forall r :: r in rows ==> r.ifoptId in officialMatches
    {
      rows := [];
      for i := 0 to |officialOrder|
        invariant rows == ExportRows(officialOrder[..i], officialMatches)
      {
        var stopId := officialOrder[i];
        var matches := officialMatches[stopId];
        for j := 0 to |matches|
          invariant rows == ExportRows(officialOrder[..i], officialMatches) + Rows(matches[..j])
        {
          rows := rows + [ToRow(matches[j])];
        }
        assert matches[..|matches|] == matches;
        assert officialOrder[..i + 1][..i] == officialOrder[..i];
      }
      assert officialOrder[..|officialOrder|] == officialOrder;
      ExportRowsExactlyTheMatches(officialOrder, officialMatches);
    }
  }
}
