# OSM stop matcher, modelled in Dafny

This project models the core of a tool that matches official public-transport stops
(rows of `haltestellen_unified`, identified by a structured, colon-separated
`globaleID`) to OpenStreetMap stops. It covers two parts.

- **The stop matcher** (`StopMatcher`, with `DirectionText` and `PyStr`). For one
  official stop and its nearest OSM candidates, it decides which candidates survive and
  what each scores. Scoring combines name similarity, distance, mode compatibility,
  platform agreement and the direction named in the stop's heading. The survivors go
  into an accumulator with two indexes, one keyed by official id and one keyed by OSM id,
  and the accumulator is flattened into rows of the `candidates` table.
- **The statistics updater** (`StatisticsUpdater`). It runs an ordered series of
  `UPDATE … SET match_state = …` statements over the official and the OSM stop tables,
  and the last statement that applies to a row wins.

The collaborators that are not modelled are fields of an `Env` value:

- n-gram similarity (`ngram.NGram.compare`);
- haversine distance, which returns `Meters`, a non-negative real;
- real exponentiation (`**`);
- the R-tree nearest-neighbour query.

Floats are reals. Nullable columns and dictionary entries are `Option`.

Files:

- `wrappers.dfy`: the `Option` type.
- `sequences.dfy`: order-preserving subsequences.
- `py_str.dfy`: the Python `str` operations the matcher uses (`in`, `count`, `rfind`,
  `replace`, `strip`, truthiness), with Python's semantics.
- `direction_text.dfy`: the split that the regular expression `(.*)(markers)(.*)` makes
  of a heading.
- `stop_matcher.dfy`: `rank_mode` through `rank_candidates`, the accumulator class and
  the export flattening.
- `statistics_updater.dfy`: the `match_state` statements as loops over row arrays. The
  consecutive `execute` calls become one loop over the list of statements, kept in
  source order (`OfficialStatements`, `OsmStatements`).

Quirks of the code that the model keeps:

- An unknown mode rates the literal 0.7. The constant `UNKNOWN_MODE_RATING = 0.3` is
  never used.
- When the official stop has no name, only the short-name similarity is forced to 0.3.
  The long-name similarity is still computed, and the name distance is the larger of
  the two.
- The platform comparison is made against `str(assumed_platform)`. A missing platform
  therefore reads "None", and a stop id whose platform part is "None" matches it
  (`MissingPlatformMatchesNoneText`).
- The heading split uses Python's regex semantics:
  - `.` does not match a newline, so only the first line counts;
  - the marker found is the rightmost one, and the first listed alternative is tried
    first at that position;
  - the alternative "eRtg" can never be the one chosen (`DirectionText.ERtgNeverChosen`).
- Mode compatibility is not symmetric (`RankModeAsymmetric`).

## Model

| member | source | states |
|---|---|---|
| `PyStr.Contains` | osm_stop_matcher/StopMatcher.py:180-184 | Python's `sub in s` holds exactly when `sub` occurs in `s` at some index |
| `PyStr.Count` | osm_stop_matcher/StopMatcher.py:117 | `s.count(c)` is the number of occurrences of `c` in `s` |
| `PyStr.RFind` | osm_stop_matcher/StopMatcher.py:117 | `s.rfind(c)` is -1 exactly when `c` is absent; otherwise it indexes a `c` with no `c` after it |
| `PyStr.RemoveAll` | osm_stop_matcher/StopMatcher.py:76 | `s.replace(pat, '')` cuts only whole copies of `pat` out of `s` and keeps every other character in order; when `pat` occurs, at least one copy is cut, so the result is at least `|pat|` shorter; `s` is unchanged when `pat` is empty or absent |
| `PyStr.ReplaceChar` | osm_stop_matcher/StopMatcher.py:77 | `s.replace(',', ' ')` keeps the length, writes a space at every comma's position, leaves no comma and keeps every other character |
| `PyStr.IsSpace` | osm_stop_matcher/StopMatcher.py:75 | the characters Python's `str.isspace()` accepts, which `strip()` removes: tab to carriage return, the separators 0x1c-0x1f, space, 0x85, 0xa0, the Unicode space separators (0x1680, 0x2000-0x200a, 0x202f, 0x205f, 0x3000) and the line and paragraph separators 0x2028 and 0x2029 |
| `PyStr.Strip` | osm_stop_matcher/StopMatcher.py:75 | `s.strip()` is a slice of `s` with only whitespace around it, and has no whitespace at either end |
| `DirectionText.LineEnd` | osm_stop_matcher/StopMatcher.py:73 | `.*` stops at the first newline: the first line is newline-free and ends at a newline or at the end |
| `DirectionText.FirstMarkerAt` | osm_stop_matcher/StopMatcher.py:73 | at one position, the alternative chosen is the first listed one that matches there |
| `DirectionText.LastMarker` | osm_stop_matcher/StopMatcher.py:73 | the greedy first group picks the rightmost position where any marker matches; no marker matches further right |
| `DirectionText.Destination` | osm_stop_matcher/StopMatcher.py:73-75 | `re.match` fails exactly when no marker occurs on the first line; otherwise group 3 is the text after the rightmost marker on that line (the first listed alternative at that position), up to the end of the line |
| `DirectionText.RtgFollowsERtg` | osm_stop_matcher/StopMatcher.py:73 | wherever the alternative "eRtg" matches, "Rtg" matches one position to the right, within the same line |
| `DirectionText.ERtgNeverChosen` | osm_stop_matcher/StopMatcher.py:73 | the alternative "eRtg" is never the chosen marker, because "Rtg" matches one position further right |
| `StopMatcher.RankMode` | osm_stop_matcher/StopMatcher.py:90-100 | the result is 1 exactly for identical bus/light_rail/train/tram modes, or a trainish candidate against a train or light_rail stop; otherwise 0.7 exactly when either mode is missing or empty; otherwise 0 |
| `StopMatcher.RankModeAsymmetric` | osm_stop_matcher/StopMatcher.py:94 | a trainish candidate rates 1 against a train stop, but a train candidate rates 0 against a trainish stop |
| `StopMatcher.StationName` | osm_stop_matcher/StopMatcher.py:179 | the name tested is the short name when it is non-empty, else the long name |
| `StopMatcher.IsBusStation` | osm_stop_matcher/StopMatcher.py:178-184 | true exactly when the tested name is non-empty and contains one of the five interchange keywords |
| `StopMatcher.PoolSize` | osm_stop_matcher/StopMatcher.py:187 | the pool size is 15 for an interchange and 10 otherwise |
| `StopMatcher.IsBusStationIgnoresLongName` | osm_stop_matcher/StopMatcher.py:179 | with a non-empty short name, the long name does not affect the classification |
| `StopMatcher.DirectionFragment` | osm_stop_matcher/StopMatcher.py:72-77 | no fragment when the heading is empty or the regex does not match; a fragment, when present, contains no comma |
| `StopMatcher.DirectionFragmentText` | osm_stop_matcher/StopMatcher.py:72-77 | a fragment is group 3 of the heading's match, stripped, with the district and then the municipality name removed and commas turned into spaces |
| `StopMatcher.CleanedStops` | osm_stop_matcher/StopMatcher.py:79-80 | a neighbour list becomes None exactly when it is empty or None; the cleaned list is never longer |
| `StopMatcher.CleanedStopsText` | osm_stop_matcher/StopMatcher.py:79-80 | a non-empty neighbour list becomes the list with the district and then the municipality name removed |
| `StopMatcher.RankSuccessorMatching` | osm_stop_matcher/StopMatcher.py:67-88 | the result is in {-1, 0, 1} and is 0 without a direction fragment; +1 exactly when next > 0.7 and prev < 0.6; -1 exactly when prev > 0.7 and next < 0.6 |
| `StopMatcher.Max` | osm_stop_matcher/StopMatcher.py:115 | `max(a, b)` is one of its arguments and at least both |
| `StopMatcher.NameScoresFor` | osm_stop_matcher/StopMatcher.py:103-112 | the short- and long-name similarities after the sentinel branches: with no stop name only the short term is 0.3; with no candidate name both are 0.3; otherwise both are the n-gram similarities |
| `StopMatcher.NameDistance` | osm_stop_matcher/StopMatcher.py:103-115 | a named stop against an unnamed candidate gives exactly 0.3; a named stop against a named candidate gives the larger of the two similarities; an unnamed stop gives max(0.3, long-name similarity) |
| `StopMatcher.IfoptPlatform` | osm_stop_matcher/StopMatcher.py:116-117 | a platform exists exactly when the id has more than three colons; it is the colon-free text after the id's last colon |
| `StopMatcher.PlatformMatches` | osm_stop_matcher/StopMatcher.py:118 | the platform part exists and equals the text `str()` gives for the assumed platform |
| `StopMatcher.PlatformMismatches` | osm_stop_matcher/StopMatcher.py:119 | both the platform part and the assumed platform are present and the platforms do not match |
| `StopMatcher.Exponent` | osm_stop_matcher/StopMatcher.py:133 | the exponent `1 - 0.2·successor - 0.1·mode - 0.5·mode·platform_matches`, with the boolean read as 1 or 0 |
| `StopMatcher.BaseRating` | osm_stop_matcher/StopMatcher.py:127-131 | the base is the name distance divided by 1 + distance, halved on a platform mismatch |
| `StopMatcher.RankCandidate` | osm_stop_matcher/StopMatcher.py:102-136 | a `ref` equal to the stop's id gives rating 1 whatever else holds; otherwise the rating is `pow(base, 1 - 0.2·successor - 0.1·mode - 0.5·mode·platform_matches)`; platform match and mismatch are never both true; mode and successor ratings come from their functions |
| `StopMatcher.MissingPlatformMatchesNoneText` | osm_stop_matcher/StopMatcher.py:118 | a platform part "None" matches a candidate without an assumed platform |
| `StopMatcher.RailForBus` | osm_stop_matcher/StopMatcher.py:149-150 | a trainish, train, light_rail or tram candidate for a stop whose mode is bus |
| `StopMatcher.BusForRail` | osm_stop_matcher/StopMatcher.py:152-153 | a bus candidate for a stop whose mode is tram, light_rail or train |
| `StopMatcher.ExcludedModesRateZero` | osm_stop_matcher/StopMatcher.py:149-153 | a stop and candidate pair excluded by mode always has mode rating 0 |
| `StopMatcher.Examine` | osm_stop_matcher/StopMatcher.py:144-166 | one iteration: halt beyond 400 m; skip on either mode exclusion, on a name distance below both 0.3 and the running one, or on a rating below 0.001; otherwise keep the candidate's match |
| `StopMatcher.Ranked` | osm_stop_matcher/StopMatcher.py:138-167 | the matches the loop returns: iterations applied in input order, the running name distance replaced by each kept match's |
| `StopMatcher.RankedAt` | osm_stop_matcher/StopMatcher.py:138-167 | from candidate `i` on, the result is decided by what the loop does with candidate `i`: stop, skip it, or keep it and go on with its name similarity |
| `StopMatcher.RankCandidates` | osm_stop_matcher/StopMatcher.py:138-167 | the loop, with its early return and its `continue`s, returns exactly the list of matches that `Ranked` specifies |
| `StopMatcher.RankedAdmissible` | osm_stop_matcher/StopMatcher.py:145-166 | every kept match belongs to this stop and is within 400 m. It is not a rail candidate for a bus stop, nor a bus candidate for a rail stop. Its rating is at least 0.001, and its fields are the candidate's ranking at its haversine distance |
| `StopMatcher.CandidatesOf` | osm_stop_matcher/StopMatcher.py:165 | the candidate list has one entry per match, in order |
| `StopMatcher.RankedIsSubsequence` | osm_stop_matcher/StopMatcher.py:141-167 | the kept candidates are an in-order subsequence of the input |
| `StopMatcher.RankedStopsAtFarCandidate` | osm_stop_matcher/StopMatcher.py:145-146 | the result depends only on the candidates before any one farther than 400 m |
| `StopMatcher.RankedWeakNamesDoNotDecrease` | osm_stop_matcher/StopMatcher.py:157-166 | a kept match with name distance < 0.3 is no lower than the previous kept match, or than the starting 0 for the first |
| `StopMatcher.RankedAppend` | osm_stop_matcher/StopMatcher.py:141-166 | while no candidate of a list is beyond 400 m, one more candidate at its end adds exactly what its iteration keeps, judged against the last kept match's name distance |
| `StopMatcher.RankedSnoc` | osm_stop_matcher/StopMatcher.py:141-166 | while no earlier candidate is beyond 400 m, one more candidate adds exactly what its iteration keeps, judged against the last kept match's name distance |
| `StopMatcher.RankedPrefix` | osm_stop_matcher/StopMatcher.py:141-167 | ranking a prefix of the candidates gives a prefix of the matches, as the list only grows |
| `StopMatcher.RankedKeepsExactlyPassing` | osm_stop_matcher/StopMatcher.py:145-166 | a candidate reached before any one beyond 400 m is appended, with its ranking, exactly when it passes both mode rules, the name rule against the previous kept match (or 0) and the rating floor; otherwise nothing is appended for it |
| `StopMatcher.MatchesFor` | osm_stop_matcher/StopMatcher.py:172-176 | the matches for one OSM id are exactly those of the list with that candidate id, kept in list order |
| `StopMatcher.MatchesForCounts` | osm_stop_matcher/StopMatcher.py:172-176 | each match for the OSM id appears in its list as often as in the stored matches, and no other match appears, so repeated matches are all appended |
| `StopMatcher.AppendedByCandidate` | osm_stop_matcher/StopMatcher.py:172-176 | the OSM index after appending each match, in order, to the list under its candidate's id, created empty when absent |
| `StopMatcher.AppendedByCandidateKeys` | osm_stop_matcher/StopMatcher.py:172-176 | the OSM index gains exactly the ids of the stored matches as keys |
| `StopMatcher.AppendedByCandidateSnoc` | osm_stop_matcher/StopMatcher.py:172-176 | storing one more match appends it to its own OSM id's list and changes no other list |
| `StopMatcher.AppendedByCandidateContents` | osm_stop_matcher/StopMatcher.py:172-176 | each OSM id's list becomes its old list (or none) followed by the new matches for that id, in order |
| `StopMatcher.Accumulator.constructor` | osm_stop_matcher/StopMatcher.py:13-14 | both indexes start empty |
| `StopMatcher.Accumulator.StoreMatches` | osm_stop_matcher/StopMatcher.py:169-176 | `official_matches[id]` becomes exactly the list, and a new key goes last in dict order. Each OSM id's list is extended by its matches in order. No other key changes |
| `StopMatcher.Accumulator.MatchStop` | osm_stop_matcher/StopMatcher.py:186-192 | the stop's ranked matches from a pool of 15 or 10 are stored only when non-empty. The invariant is kept: every official list is non-empty and its matches carry its key; every OSM list holds only matches for its id |
| `StopMatcher.ToRow` | osm_stop_matcher/StopMatcher.py:202-211 | a row carries, column by column, the match's official id, OSM id, rating, distance, name distance, platform agreement, successor rating and mode rating |
| `StopMatcher.Rows` | osm_stop_matcher/StopMatcher.py:201-211 | one row per match, in order |
| `StopMatcher.ExportRows` | osm_stop_matcher/StopMatcher.py:198-211 | the rows of every official id's matches, ids in dict insertion order |
| `StopMatcher.ExportRowsExactlyTheMatches` | osm_stop_matcher/StopMatcher.py:198-211 | every stored match is exported, and every exported row comes from a stored match |
| `StopMatcher.Accumulator.CandidateRows` | osm_stop_matcher/StopMatcher.py:198-211 | the nested loops produce the rows of `ExportRows` in dict order, and each row's official id is a key |
| `StatisticsUpdater.MatchCount` | osm_stop_matcher/StatisticsUpdater.py:13-14 | the count of match rows for an id is positive exactly when some row names it |
| `StatisticsUpdater.MatchCountAboveOne` | osm_stop_matcher/StatisticsUpdater.py:13-14 | the count is above 1 exactly when two distinct match rows name the id, which is what `HAVING count(*)>1` selects for MATCHED_AMBIGOUSLY |
| `StatisticsUpdater.MatchedParents` | osm_stop_matcher/StatisticsUpdater.py:28-29 | a parent is in the set exactly when some stop with that parent has a match row |
| `StatisticsUpdater.HasNamelessOsmMatch` | osm_stop_matcher/StatisticsUpdater.py:20-21 | the id has a match row whose OSM stop has a NULL name or a positive `empty_name` |
| `StatisticsUpdater.IsUnmatched` | osm_stop_matcher/StatisticsUpdater.py:26-27 | `NOT IN` holds for a non-null id in no match row, and for every row, a NULL id included, when `matches` is empty |
| `StatisticsUpdater.SiblingMatched` | osm_stop_matcher/StatisticsUpdater.py:28-29 | the row is in state NO_MATCH and its non-null parent is a matched stop's parent |
| `StatisticsUpdater.OfficialOutcome` | osm_stop_matcher/StatisticsUpdater.py:10-31 | the official row after the ten statements, each applied to the result of the one before |
| `StatisticsUpdater.MatchedPriority` | osm_stop_matcher/StatisticsUpdater.py:10-25 | for a matched row, the state of the last applicable rule: IMPROBABLE, DISTANT, OSM_NO_NAME, NO_NAME, NAMES_DIFFER, AMBIGOUSLY, then MATCHED |
| `StatisticsUpdater.OfficialOutcomeKeepsColumns` | osm_stop_matcher/StatisticsUpdater.py:10-31 | the statements change no column except `match_state` |
| `StatisticsUpdater.NullIdEndsWithoutIfopt` | osm_stop_matcher/StatisticsUpdater.py:30-31 | a row with NULL `globaleID` ends as NO_MATCH_NO_IFOPT |
| `StatisticsUpdater.UnmatchedOutcome` | osm_stop_matcher/StatisticsUpdater.py:26-29 | an id in no match row ends as NO_MATCH or NO_MATCH_BUT_OTHER_PLATFORM_MATCHED, the latter exactly when its parent is a matched stop's parent |
| `StatisticsUpdater.MatchedOutcome` | osm_stop_matcher/StatisticsUpdater.py:10-25 | a matched row ends in the state of the last applicable rule among MATCHED, AMBIGOUSLY, NAMES_DIFFER, NO_NAME, OSM_NO_NAME, DISTANT and IMPROBABLE |
| `StatisticsUpdater.ImprobableOutcome` | osm_stop_matcher/StatisticsUpdater.py:24-25 | a row with a match rated below 0.002 ends as MATCHED_THOUGH_IMPROBABLE |
| `StatisticsUpdater.NoNameOutcome` | osm_stop_matcher/StatisticsUpdater.py:17-19 | a row ends as MATCHED_THOUGH_NO_NAME only if it is matched, has a match with name distance < 0.4, has both names NULL, and no later rule applies |
| `StatisticsUpdater.OsmOutcome` | osm_stop_matcher/StatisticsUpdater.py:33-44 | the OSM row after the six statements, each applied to the result of the one before |
| `StatisticsUpdater.OsmPriority` | osm_stop_matcher/StatisticsUpdater.py:33-44 | NO_MATCH when unmatched; otherwise the last applicable of IMPROBABLE, DISTANT, OSM_NO_NAME, NAMES_DIFFER, then MATCHED |
| `StatisticsUpdater.OsmOutcomeIsPriority` | osm_stop_matcher/StatisticsUpdater.py:33-44 | an OSM row ends as NO_MATCH when unmatched. Otherwise it takes the state of the last applicable rule: IMPROBABLE, DISTANT, OSM_NO_NAME, NAMES_DIFFER, then MATCHED. No other column changes |
| `StatisticsUpdater.OfficialWhere` | osm_stop_matcher/StatisticsUpdater.py:10-31 | the WHERE clauses of the ten official-table statements, one per statement, with SQL's NULL reading for ids and names |
| `StatisticsUpdater.OsmWhere` | osm_stop_matcher/StatisticsUpdater.py:33-44 | the WHERE clauses of the six OSM-table statements |
| `StatisticsUpdater.UpdateOfficial` | osm_stop_matcher/StatisticsUpdater.py:10-31 | any one of the ten UPDATEs sets `match_state` on exactly the rows that meet its condition, judged on the row as it was |
| `StatisticsUpdater.UpdateOsm` | osm_stop_matcher/StatisticsUpdater.py:33-44 | the same for any one of the six UPDATEs of the OSM table |
| `StatisticsUpdater.OfficialStatementsCompose` | osm_stop_matcher/StatisticsUpdater.py:10-31 | running the ten statements one after another, in source order, leaves a row as `OfficialOutcome` says |
| `StatisticsUpdater.OsmStatementsCompose` | osm_stop_matcher/StatisticsUpdater.py:33-44 | running the six statements one after another, in source order, leaves a row as `OsmOutcome` says |
| `StatisticsUpdater.UpdateOfficialStates` | osm_stop_matcher/StatisticsUpdater.py:10-31 | after the ten statements, every official row equals `OfficialOutcome` of its old value |
| `StatisticsUpdater.UpdateOsmStates` | osm_stop_matcher/StatisticsUpdater.py:33-44 | after the six statements, every OSM row equals `OsmOutcome` of its old value |
| `StatisticsUpdater.UpdateMatchStatistics` | osm_stop_matcher/StatisticsUpdater.py:8-47 | both tables end as their outcome functions say. The subqueries are evaluated on the tables as they were |

## Left out

- PyStr.RemoveAll: the contract says the result is `s` with whole copies of `pat` cut out, and at least one when `pat` occurs, but not that every copy found by Python's left-to-right scan (the leftmost non-overlapping ones) is cut; the body follows that scan.
- The R-tree index: `load_osm_index` and `nearest` are a foreign library. `Env.nearest`
  stands for the query. Ascending distance order is not assumed, because no property
  proved here needs it.
- Haversine distance, `ngram.NGram.compare` and `**` are uninterpreted fields of `Env`.
  So nothing is proved about rating monotonicity in distance or name, nor that a rating
  stays below 1 without the `ref` override.
- Floating-point rounding is not modelled, because floats are reals.
- `_match_stops` / `match_stops` is not modelled: it selects the stops with SQL and
  loops over `match_stop`. The unused `row` argument of `match_stop`, the unused `stop`
  argument of `store_matches`, and the unused `errors` dict are dropped.
- `export_match_candidates` is modelled only as the flattening into 8-column rows. Left
  out are table creation, the two indexes, the backup of `matches`, the empty `matches`
  copy and the spatialite geometry calls, because they are database I/O.
- All logging is left out.
- The two dicts are class attributes, shared by every `StopMatcher` instance. The model
  holds them in one accumulator object. Python's sharing of the same match dict between
  both indexes is not modelled, because matches are values here.
- `DirectionFragment`: `Ortsteil` and `Gemeinde` are taken as non-null strings. A NULL
  there would make `str.replace` raise `TypeError`, and the model does not capture that
  crash.
- `assumed_platform` is modelled as the text `str()` gives for the column's value, so
  the type of the stored value is not modelled.
- `StatisticsUpdater`: the ids in `matches` and `osm_stops.osm_id` are non-null.
  Three-valued NULL logic is modelled only for `globaleID`, the names, `PARENT` and
  `empty_name`. The `match_state` values earlier runs left in the tables are any
  `Option<MatchState>`.
- `MatchCount`, `MatchedParents` and the other subqueries are evaluated once, on the
  tables before the first statement. The columns they read are never written by any
  statement.
- `MatchPicker`, `MatchResultValidator`, the importers and `compare_stops.py` are not
  part of this model.
