/** The `std::string` searches and the ASCII lower-casing that the command
    line parser and the OBJ loader use. */
module Strings {
  import opened Wrappers

  /** `std::string::find_last_of(cs)`: the position of the last character of
      `s` that belongs to `cs`, or None (`npos`) when there is none. */
  function LastIndexIn(s: string, cs: set<char>): (r: Option<nat>)
    ensures r.None? <==> forall i :: 0 <= i < |s| ==> s[i] !in cs
    ensures r.Some? ==> r.value < |s| && s[r.value] in cs
    ensures r.Some? ==> forall j :: r.value < j < |s| ==> s[j] !in cs
    decreases |s|
  {
    if s == [] then None
    else if s[|s| - 1] in cs then Some(|s| - 1)
    else LastIndexIn(s[..|s| - 1], cs)
  }

  /** True when `pat` occurs in `s` starting at position `k`. */
  predicate OccursAt(s: string, pat: string, k: int)
  {
    0 <= k && k + |pat| <= |s| && s[k..k + |pat|] == pat
  }

  /** `std::string::rfind(pat)` for a non-empty pattern: the start of the last
      occurrence of `pat` in `s`, or None (`npos`). */
  function LastOccurrence(s: string, pat: string): (r: Option<nat>)
    requires pat != []
    ensures r.None? <==> forall k :: 0 <= k <= |s| - |pat| ==> !OccursAt(s, pat, k)
    ensures r.Some? ==> OccursAt(s, pat, r.value)
    ensures r.Some? ==> forall k :: r.value < k <= |s| - |pat| ==> !OccursAt(s, pat, k)
  {
    LastOccurrenceAtOrBefore(s, pat, |s| - |pat|)
  }

  /** The last occurrence of `pat` that starts at or before `start`. */
  function LastOccurrenceAtOrBefore(s: string, pat: string, start: int): (r: Option<nat>)
    requires start <= |s| - |pat|
    ensures r.None? <==> forall k :: 0 <= k <= start ==> !OccursAt(s, pat, k)
    ensures r.Some? ==> r.value <= start && OccursAt(s, pat, r.value)
    ensures r.Some? ==> forall k :: r.value < k <= start ==> !OccursAt(s, pat, k)
    decreases start + 1
  {
    if start < 0 then None
    else if s[start..start + |pat|] == pat then
      assert OccursAt(s, pat, start);
      Some(start)
    else LastOccurrenceAtOrBefore(s, pat, start - 1)
  }

  /** True when `s` ends with `suffix`. */
  predicate EndsWith(s: string, suffix: string)
  {
    |suffix| <= |s| && s[|s| - |suffix|..] == suffix
  }

  /** `std::tolower` in the "C" locale: only 'A'..'Z' change. */
  function AsciiLower(c: char): (r: char)
    ensures 'A' <= c <= 'Z' ==> r != c && r as int - c as int == 'a' as int - 'A' as int
    ensures !('A' <= c <= 'Z') ==> r == c
  {
    if 'A' <= c <= 'Z' then (c as int - 'A' as int + 'a' as int) as char else c
  }

  /** Every character of `s` lower-cased, one for one. */
  function LowerAscii(s: string): (r: string)
    ensures |r| == |s|
    ensures forall i :: 0 <= i < |s| ==> r[i] == AsciiLower(s[i])
  {
    seq(|s|, i requires 0 <= i < |s| => AsciiLower(s[i]))
  }

  /** Lower-casing leaves '.' alone and produces '.' from nothing else. */
  lemma LowerKeepsDots(c: char)
    ensures AsciiLower(c) == '.' <==> c == '.'
  {
  }

  /** Lower-casing twice is lower-casing once. */
  lemma {:induction false} LowerAsciiIdempotent(s: string)
    ensures LowerAscii(LowerAscii(s)) == LowerAscii(s)
  {
    var once := LowerAscii(s);
    assert forall i :: 0 <= i < |s| ==> AsciiLower(once[i]) == once[i];
  }
}
