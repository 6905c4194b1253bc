/**
 * The split `re.match('(.*)(markers)(.*)', heading)` that the stop matcher uses to
 * find the destination named in a stop's heading text (its `Name_Steig` column).
 *
 * Python's `.` does not match '\n' and `re.match` anchors at the start, so only the
 * first line of the heading takes part. The greedy first group makes the engine try
 * the marker alternatives at the rightmost position first, and at one position in
 * the order they are listed; the third group then runs to the end of the line.
 */
module DirectionText {
  import opened Wrappers

  /** The alternatives of the marker group, in the order the pattern lists them. */
  const Markers: seq<string> :=
    ["eRtg", "Ri ", ">", "Ri.", "Rtg", "Richt ", "Fahrtrichtung", "Ri-", "Ri:", "Richtung", "Richtg.", "FR "]

  /** Index of the first '\n' in `s`, or `|s|`: where `.*` has to stop. */
  function LineEnd(s: string): (r: nat)
    ensures r <= |s|
    ensures forall i :: 0 <= i < r ==> s[i] != '\n'
    ensures r < |s| ==> s[r] == '\n'
  {
    if s == [] || s[0] == '\n' then 0
    else 1 + LineEnd(s[1..])
  }

  /** Alternative `j` of the marker group matches `s` at position `p` without passing `end`. */
  predicate MarkerAt(s: string, end: int, p: int, j: int) {
    0 <= j < |Markers| && 0 <= p && p + |Markers[j]| <= end <= |s| && s[p..p + |Markers[j]|] == Markers[j]
  }

  /** No alternative is empty, so a match at `p` ends after `p`. */
  lemma MarkersNonEmpty()
    ensures forall j :: 0 <= j < |Markers| ==> |Markers[j]| > 0
  {
  }

  /** The first alternative, from index `k` on, that matches at position `p`. */
  function FirstMarkerAt(s: string, end: nat, p: nat, k: nat): (r: Option<nat>)
    ensures r.Some? ==> k <= r.value && MarkerAt(s, end, p, r.value)
    ensures r.Some? ==> forall j :: k <= j < r.value ==> !MarkerAt(s, end, p, j)
    ensures r.None? ==> forall j :: k <= j ==> !MarkerAt(s, end, p, j)
    decreases |Markers| - k
  {
    if k >= |Markers| then None
    else if MarkerAt(s, end, p, k) then Some(k)
    else FirstMarkerAt(s, end, p, k + 1)
  }

  /** Where the marker group matched: its position and which alternative. */
  datatype MarkerMatch = MarkerMatch(pos: nat, marker: nat)

  /**
   * The match the backtracking engine settles on among positions below `p`: the
   * rightmost position at which some alternative matches, and there the first
   * alternative in listed order.
   */
  function LastMarker(s: string, end: nat, p: nat): (r: Option<MarkerMatch>)
    ensures r.Some? ==> r.value.pos < p && MarkerAt(s, end, r.value.pos, r.value.marker)
    ensures r.Some? ==> forall j :: j < r.value.marker ==> !MarkerAt(s, end, r.value.pos, j)
    ensures r.Some? ==> forall q, j :: r.value.pos < q < p ==> !MarkerAt(s, end, q, j)
    ensures r.None? ==> forall q, j :: q < p ==> !MarkerAt(s, end, q, j)
  {
    if p == 0 then None
    else
      match FirstMarkerAt(s, end, p - 1, 0)
      case Some(j) => Some(MarkerMatch(p - 1, j))
      case None => LastMarker(s, end, p - 1)
  }

  /** The marker match on the first line of `s`, if there is one. */
  function HeadingMarker(s: string): Option<MarkerMatch> {
    var end := LineEnd(s);
    LastMarker(s, end, end)
  }

  /** `match.group(3)` of the pattern, or None when `re.match` finds no match. */
  function Destination(s: string): (r: Option<string>)
    ensures r.None? <==> forall q, j :: !MarkerAt(s, LineEnd(s), q, j)
    ensures r.Some? ==> exists q, j ::
      MarkerAt(s, LineEnd(s), q, j) && r.value == s[q + |Markers[j]|..LineEnd(s)]
      && (forall q2, j2 :: q < q2 ==> !MarkerAt(s, LineEnd(s), q2, j2))
      && (forall j2 :: j2 < j ==> !MarkerAt(s, LineEnd(s), q, j2))
  {
    var end := LineEnd(s);
    match LastMarker(s, end, end)
    case None => None
    case Some(mm) =>
      MarkersNonEmpty();
      assert MarkerAt(s, end, mm.pos, mm.marker);
      assert forall q2, j2 :: mm.pos < q2 ==> !MarkerAt(s, end, q2, j2);
      Some(s[mm.pos + |Markers[mm.marker]|..end])
  }

  /**
   * The alternative "eRtg" is never the one chosen: wherever it matches,
   * "Rtg" matches one position further right, and the greedy first group
   * prefers that position.
   */
  lemma {:induction false} ERtgNeverChosen(s: string)
    ensures HeadingMarker(s).Some? ==> Markers[HeadingMarker(s).value.marker] != "eRtg"
  {
    var end := LineEnd(s);
    match LastMarker(s, end, end)
    case None =>
    case Some(mm) =>
      if mm.marker == 0 {
        RtgFollowsERtg(s, end, mm.pos);
        assert false;
      }
  }

  /** Wherever "eRtg" matches, "Rtg" matches one position to the right. */
  lemma RtgFollowsERtg(s: string, end: int, p: int)
    requires MarkerAt(s, end, p, 0)
    ensures MarkerAt(s, end, p + 1, 4)
  {
    assert s[p + 1..p + 4] == s[p..p + 4][1..];
  }
}
