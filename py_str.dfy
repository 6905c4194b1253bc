/**
 * The few operations on Python `str` values that the stop matcher relies on,
 * with Python's semantics written out over `seq<char>`.
 */
module PyStr {
  import opened Wrappers
  import opened Sequences

  /** Python truthiness of a nullable string: neither None nor ''. */
  predicate Truthy(s: Option<string>) {
    s.Some? && s.value != ""
  }

  /** `sub` occurs in `s` starting at index `i`. */
  predicate OccursAt(s: string, sub: string, i: int) {
    0 <= i && i + |sub| <= |s| && s[i..i + |sub|] == sub
  }

  /** Python's `sub in s`. */
  function Contains(s: string, sub: string): (r: bool)
    ensures r <==> exists i :: OccursAt(s, sub, i)
    decreases |s|
  {
    if |sub| <= |s| && s[..|sub|] == sub then
      assert OccursAt(s, sub, 0);
      true
    else if s == [] then
      false
    else
      var r := Contains(s[1..], sub);
      assert forall i :: OccursAt(s[1..], sub, i) <==> OccursAt(s, sub, i + 1) by {
        forall i ensures OccursAt(s[1..], sub, i) <==> OccursAt(s, sub, i + 1) {
          if 0 <= i && i + |sub| <= |s| - 1 {
            assert s[1..][i..i + |sub|] == s[i + 1..i + 1 + |sub|];
          }
        }
      }
      assert !OccursAt(s, sub, 0);
      assert forall i :: OccursAt(s, sub, i) && i != 0 ==> OccursAt(s[1..], sub, i - 1);
      r
  }

  /** Python's `s.count(c)` for a one-character `c`. */
  function Count(s: string, c: char): (r: nat)
    ensures r == multiset(s)[c]
  {
    if s == [] then 0
    else
      assert s == [s[0]] + s[1..];
      (if s[0] == c then 1 else 0) + Count(s[1..], c)
  }

  /** Python's `s.rfind(c)` for a one-character `c`: the last index of `c`, or -1. */
  function RFind(s: string, c: char): (r: int)
    ensures -1 <= r < |s|
    ensures r == -1 <==> c !in s
    ensures r >= 0 ==> s[r] == c && c !in s[r + 1..]
  {
    if s == [] then -1
    else if s[|s| - 1] == c then |s| - 1
    else
      var r := RFind(s[..|s| - 1], c);
      assert s == s[..|s| - 1] + [s[|s| - 1]];
      r
  }

  /** `r` is `s` with whole copies of `pat` cut out, the other characters kept in order. */
  predicate CopiesRemoved(s: string, pat: string, r: string)
    decreases |s|
  {
    if s == [] then r == []
    else
      (pat != "" && |pat| <= |s| && s[..|pat|] == pat && CopiesRemoved(s[|pat|..], pat, r))
      || (r != [] && r[0] == s[0] && CopiesRemoved(s[1..], pat, r[1..]))
  }

  /** Python's `s.replace(pat, '')`: removes the non-overlapping occurrences of `pat`, scanning left to right. */
  function RemoveAll(s: string, pat: string): (r: string)
    ensures |r| <= |s|
    ensures pat == "" || !Contains(s, pat) ==> r == s
    ensures IsSubsequence(r, s)
    ensures pat != "" ==> CopiesRemoved(s, pat, r)
    ensures pat != "" && Contains(s, pat) ==> |r| + |pat| <= |s|
    decreases |s|
  {
    if pat == "" then SubsequenceRefl(s); s
    else if |pat| <= |s| && s[..|pat|] == pat then
      var rest := RemoveAll(s[|pat|..], pat);
      SubsequenceOfSuffix(rest, s, |pat|);
      rest
    else if s == [] then s
    else
      assert forall i :: OccursAt(s[1..], pat, i) <==> OccursAt(s, pat, i + 1) by {
        forall i ensures OccursAt(s[1..], pat, i) <==> OccursAt(s, pat, i + 1) {
          if 0 <= i && i + |pat| <= |s| - 1 {
            assert s[1..][i..i + |pat|] == s[i + 1..i + 1 + |pat|];
          }
        }
      }
      assert !OccursAt(s, pat, 0);
      assert forall i :: OccursAt(s, pat, i) ==> OccursAt(s[1..], pat, i - 1);
      var rest := RemoveAll(s[1..], pat);
      assert ([s[0]] + rest)[1..] == rest;
      [s[0]] + rest
  }

  /** Python's `s.replace(a, b)` for one-character `a` and `b`. */
  function ReplaceChar(s: string, a: char, b: char): (r: string)
    ensures |r| == |s|
    ensures a != b ==> a !in r
    ensures forall i :: 0 <= i < |s| && s[i] != a ==> r[i] == s[i]
    ensures forall i :: 0 <= i < |s| && s[i] == a ==> r[i] == b
  {
    seq(|s|, i requires 0 <= i < |s| => if s[i] == a then b else s[i])
  }

  /** The characters for which Python's `str.isspace()` holds. */
  predicate IsSpace(c: char) {
    var n := c as int;
    (9 <= n <= 13) || (0x1c <= n <= 0x20) || n == 0x85 || n == 0xa0 || n == 0x1680
    || (0x2000 <= n <= 0x200a) || n == 0x2028 || n == 0x2029 || n == 0x202f
    || n == 0x205f || n == 0x3000
  }

  /** Python's `s.lstrip()`: the suffix left after dropping leading whitespace. */
  function StripStart(s: string): (r: string)
    ensures |r| <= |s| && r == s[|s| - |r|..]
    ensures forall i :: 0 <= i < |s| - |r| ==> IsSpace(s[i])
    ensures r != [] ==> !IsSpace(r[0])
  {
    if s != [] && IsSpace(s[0]) then StripStart(s[1..]) else s
  }

  /** Python's `s.rstrip()`: the prefix left after dropping trailing whitespace. */
  function StripEnd(s: string): (r: string)
    ensures |r| <= |s| && r == s[..|r|]
    ensures forall i :: |r| <= i < |s| ==> IsSpace(s[i])
    ensures r != [] ==> !IsSpace(r[|r| - 1])
  {
    if s != [] && IsSpace(s[|s| - 1]) then StripEnd(s[..|s| - 1]) else s
  }

  /** `r` is the slice of `s` at index `i`, and everything of `s` around it is whitespace. */
  predicate TrimmedAt(s: string, r: string, i: int) {
    OccursAt(s, r, i)
    && (forall k :: 0 <= k < i ==> IsSpace(s[k]))
    && (forall k :: i + |r| <= k < |s| ==> IsSpace(s[k]))
  }

  /**
   * A prefix `r` of a suffix `t` of `s`, with only whitespace before `t` and after `r`
   * inside `t`, sits in `s` with only whitespace around it.
   */
  lemma TrimmedFromParts(s: string, t: string, r: string)
    requires |t| <= |s| && t == s[|s| - |t|..]
    requires forall k :: 0 <= k < |s| - |t| ==> IsSpace(s[k])
    requires |r| <= |t| && r == t[..|r|]
    requires forall j :: |r| <= j < |t| ==> IsSpace(t[j])
    ensures TrimmedAt(s, r, |s| - |t|)
  {
    var i := |s| - |t|;
    assert s[i..i + |r|] == t[..|r|];
    forall k | i + |r| <= k < |s| ensures IsSpace(s[k]) {
      assert s[k] == t[k - i];
    }
  }

  /** Python's `s.strip()`. */
  function Strip(s: string): (r: string)
    ensures exists i :: TrimmedAt(s, r, i)
    ensures r != [] ==> !IsSpace(r[0]) && !IsSpace(r[|r| - 1])
  {
    TrimmedFromParts(s, StripStart(s), StripEnd(StripStart(s)));
    StripEnd(StripStart(s))
  }
}
