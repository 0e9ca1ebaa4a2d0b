/**
 * The two regular expressions the agents use, written out as the scans
 * Python's `re` module performs for them:
 *   - `re.findall(r'[a-f0-9]{8}', s)`, which collects task-id prefixes, and
 *   - `re.search(r'at\s*(\d{1,2})(?::(\d{2}))?\s*(am|pm)?', s)`, which finds a clock time.
 */
module Patterns {
  import opened Options
  import opened Text

  predicate IsHexDigit(c: char) {
    '0' <= c <= '9' || 'a' <= c <= 'f'
  }

  /** A match of `[a-f0-9]{8}`. */
  predicate IsHexRun(w: string) {
    |w| == 8 && forall i :: 0 <= i < |w| ==> IsHexDigit(w[i])
  }

  /**
   * `re.findall(r'[a-f0-9]{8}', s)`: scanning from the left, a run of eight
   * hex digits is taken and the scan resumes after it; otherwise the scan
   * moves on by one character.
   */
  function HexTokens(s: string): (r: seq<string>)
    ensures forall k :: 0 <= k < |r| ==> IsHexRun(r[k])
    decreases |s|
  {
    if |s| < 8 then []
    else if IsHexRun(s[..8]) then [s[..8]] + HexTokens(s[8..])
    else HexTokens(s[1..])
  }

  /** Every token found occurs in the scanned text. */
  lemma {:induction false} HexTokensOccur(s: string)
    ensures forall k :: 0 <= k < |HexTokens(s)| ==> Contains(s, HexTokens(s)[k])
    decreases |s|
  {
    if |s| < 8 {
    } else if IsHexRun(s[..8]) {
      HexTokensOccur(s[8..]);
      var r := HexTokens(s);
      assert s == s[..8] + s[8..];
      forall k | 0 <= k < |r| ensures Contains(s, r[k]) {
        if k == 0 {
          assert OccursAt(s, r[0], 0);
        } else {
          assert r[k] == HexTokens(s[8..])[k - 1];
          ContainsInSuffix(s[..8], s[8..], r[k]);
        }
      }
    } else {
      HexTokensOccur(s[1..]);
      assert s == s[..1] + s[1..];
      assert HexTokens(s) == HexTokens(s[1..]);
      forall k | 0 <= k < |HexTokens(s)| ensures Contains(s, HexTokens(s)[k]) {
        ContainsInSuffix(s[..1], s[1..], HexTokens(s)[k]);
      }
    }
  }

  /** Eight hex digits start at position i. */
  predicate HexRunAt(s: string, i: nat) {
    i + 8 <= |s| && IsHexRun(s[i..i + 8])
  }

  /** findall comes back empty exactly when no eight consecutive characters are hex digits. */
  lemma {:induction false} HexTokensEmptyIff(s: string)
    ensures HexTokens(s) == [] <==> forall i: nat :: !HexRunAt(s, i)
    decreases |s|
  {
    if |s| < 8 {
    } else if IsHexRun(s[..8]) {
      assert s[0..8] == s[..8];
      assert HexRunAt(s, 0);
    } else {
      HexTokensEmptyIff(s[1..]);
      forall i: nat | i >= 1 ensures HexRunAt(s, i) <==> HexRunAt(s[1..], i - 1) {
        if i + 8 <= |s| { assert s[i..i + 8] == s[1..][i - 1..i + 7]; }
      }
      assert s[0..8] == s[..8];
      assert !HexRunAt(s, 0);
      assert HexTokens(s) == HexTokens(s[1..]);
      if HexTokens(s) != [] {
        var i: nat :| HexRunAt(s[1..], i);
        assert HexRunAt(s, i + 1);
      }
    }
  }

  /** An id prefix standing at the start of the text is the first token found. */
  lemma HexTokensOfRun(id: string, rest: string)
    requires IsHexRun(id)
    ensures HexTokens(id + rest) == [id] + HexTokens(rest)
  {
    assert (id + rest)[..8] == id;
    assert (id + rest)[8..] == rest;
  }

  // ---------------------------------------------------------------------
  // at\s*(\d{1,2})(?::(\d{2}))?\s*(am|pm)?

  /** Python's `\s` in a `str` pattern: the characters for which `str.isspace()` holds. */
  predicate IsSpace(c: char) {
    var n := c as int;
    (9 <= n <= 13) || (28 <= n <= 32) || n == 133 || n == 160 || n == 5760 ||
    (8192 <= n <= 8202) || n == 8232 || n == 8233 || n == 8239 || n == 8287 || n == 12288
  }

  predicate IsDigit(c: char) {
    '0' <= c <= '9'
  }

  function DigitValue(c: char): nat
    requires IsDigit(c)
  {
    c as int - '0' as int
  }

  datatype Meridiem = Am | Pm

  /** The three groups of one match: hour digits, minute digits (if any), am/pm (if any). */
  datatype TimeMatch = TimeMatch(hour: nat, minute: Option<nat>, meridiem: Option<Meridiem>)

  /** `\s*` from position j: the first position at or after j that is not white space. */
  function SkipSpaces(s: string, j: nat): (k: nat)
    requires j <= |s|
    ensures j <= k <= |s|
    ensures forall m :: j <= m < k ==> IsSpace(s[m])
    ensures k < |s| ==> !IsSpace(s[k])
    decreases |s| - j
  {
    if j < |s| && IsSpace(s[j]) then SkipSpaces(s, j + 1) else j
  }

  /** `(\d{1,2})` at position d, greedy: where the hour digits end. */
  function HourEnd(s: string, d: nat): (p: nat)
    requires d < |s| && IsDigit(s[d])
    ensures d < p <= |s| && p <= d + 2
  {
    if d + 1 < |s| && IsDigit(s[d + 1]) then d + 2 else d + 1
  }

  /** The value of the digits between d and p. */
  function HourValue(s: string, d: nat): (h: nat)
    requires d < |s| && IsDigit(s[d])
    ensures h < 100
  {
    if HourEnd(s, d) == d + 2 then 10 * DigitValue(s[d]) + DigitValue(s[d + 1]) else DigitValue(s[d])
  }

  /** `(?::(\d{2}))?` at position p. */
  predicate HasMinute(s: string, p: nat) {
    p + 2 < |s| && s[p] == ':' && IsDigit(s[p + 1]) && IsDigit(s[p + 2])
  }

  function MinuteValue(s: string, p: nat): (m: Option<nat>)
    ensures m.Some? <==> HasMinute(s, p)
    ensures m.Some? ==> m.value < 100
  {
    if HasMinute(s, p) then Some(10 * DigitValue(s[p + 1]) + DigitValue(s[p + 2])) else None
  }

  /** `(am|pm)?` at position q. */
  function MeridiemAt(s: string, q: nat): Option<Meridiem> {
    if q + 1 < |s| && s[q] == 'a' && s[q + 1] == 'm' then Some(Am)
    else if q + 1 < |s| && s[q] == 'p' && s[q + 1] == 'm' then Some(Pm)
    else None
  }

  /** The groups captured once the first hour digit is found at position d. */
  function GroupsFrom(s: string, d: nat): (m: TimeMatch)
    requires d < |s| && IsDigit(s[d])
    ensures m.hour < 100
    ensures m.minute.Some? ==> m.minute.value < 100
  {
    var p := HourEnd(s, d);
    var minute := MinuteValue(s, p);
    var q := SkipSpaces(s, if minute.Some? then p + 3 else p);
    TimeMatch(HourValue(s, d), minute, MeridiemAt(s, q))
  }

  /** `\d{1,2}` and `\d{2}` bound the hour and minute groups. */
  predicate TwoDigitGroups(m: TimeMatch) {
    m.hour < 100 && (m.minute.Some? ==> m.minute.value < 100)
  }

  /** What follows "at": the groups, once `\s*` has been skipped up to position d and a digit stands there. */
  function AfterAt(s: string, d: nat): (r: Option<TimeMatch>)
    requires d <= |s|
    ensures r.Some? ==> r.value.hour < 100 && (r.value.minute.Some? ==> r.value.minute.value < 100)
  {
    if d == |s| || !IsDigit(s[d]) then None else Some(GroupsFrom(s, d))
  }

  /**
   * The match of the pattern anchored at position i. The quantifiers are
   * greedy and everything after the hour is optional, so the first way the
   * pattern can match is the match `re` reports.
   */
  function MatchAt(s: string, i: nat): (r: Option<TimeMatch>)
    ensures r.Some? ==> OccursAt(s, "at", i)
    ensures r.Some? ==> r.value.hour < 100 && (r.value.minute.Some? ==> r.value.minute.value < 100)
  {
    if i + 2 > |s| || s[i] != 'a' || s[i + 1] != 't' then None
    else
      assert s[i..i + 2] == "at";
      AfterAt(s, SkipSpaces(s, i + 2))
  }

  /** `re.search` from position i: the match at the leftmost position at or after i. */
  function SearchFrom(s: string, i: nat): (r: Option<TimeMatch>)
    ensures r.None? ==> forall j: nat :: i <= j ==> MatchAt(s, j).None?
    ensures r.Some? ==> exists j: nat :: i <= j && MatchAt(s, j) == r &&
                          forall k: nat :: i <= k < j ==> MatchAt(s, k).None?
    decreases |s| - i
  {
    if i >= |s| then None
    else if MatchAt(s, i).Some? then MatchAt(s, i)
    else
      var r := SearchFrom(s, i + 1);
      assert r.Some? ==> exists j: nat :: i + 1 <= j && MatchAt(s, j) == r &&
                           forall k: nat :: i + 1 <= k < j ==> MatchAt(s, k).None?;
      r
  }

  /** Whatever the search reports is a match of the pattern, so its groups have at most two digits. */
  lemma {:induction false} SearchFromBounded(s: string, i: nat)
    ensures SearchFrom(s, i).Some? ==> TwoDigitGroups(SearchFrom(s, i).value)
    decreases |s| - i
  {
    if i < |s| && MatchAt(s, i).None? {
      SearchFromBounded(s, i + 1);
    }
  }

  function SearchTime(s: string): (r: Option<TimeMatch>)
    ensures r.Some? ==> r.value.hour < 100 && (r.value.minute.Some? ==> r.value.minute.value < 100)
  {
    SearchFromBounded(s, 0);
    SearchFrom(s, 0)
  }

  /** When no match starts before position n and one starts at n, the search reports that one. */
  lemma SearchFindsFirst(s: string, n: nat)
    requires forall j: nat :: j < n ==> MatchAt(s, j).None?
    requires MatchAt(s, n).Some?
    ensures SearchTime(s) == MatchAt(s, n)
  {
    var r := SearchTime(s);
    assert r.Some?;
    var j: nat :| MatchAt(s, j) == r && forall k: nat :: k < j ==> MatchAt(s, k).None?;
    assert j <= n;
    assert j >= n;
  }

  lemma SkipSpacesShift(pre: string, t: string, j: nat)
    requires j <= |t|
    ensures SkipSpaces(pre + t, |pre| + j) == |pre| + SkipSpaces(t, j)
    decreases |t| - j
  {
    if j < |t| {
      assert (pre + t)[|pre| + j] == t[j];
      if IsSpace(t[j]) { SkipSpacesShift(pre, t, j + 1); }
    }
  }

  lemma HourShift(pre: string, t: string, d: nat)
    requires d < |t| && IsDigit(t[d])
    ensures (pre + t)[|pre| + d] == t[d]
    ensures HourEnd(pre + t, |pre| + d) == |pre| + HourEnd(t, d)
    ensures HourValue(pre + t, |pre| + d) == HourValue(t, d)
  {
    assert (pre + t)[|pre| + d] == t[d];
    if d + 1 < |t| { assert (pre + t)[|pre| + d + 1] == t[d + 1]; }
  }

  lemma MinuteShift(pre: string, t: string, p: nat)
    ensures HasMinute(pre + t, |pre| + p) == HasMinute(t, p)
    ensures MinuteValue(pre + t, |pre| + p) == MinuteValue(t, p)
  {
    if p + 2 < |t| {
      assert (pre + t)[|pre| + p] == t[p];
      assert (pre + t)[|pre| + p + 1] == t[p + 1];
      assert (pre + t)[|pre| + p + 2] == t[p + 2];
    }
  }

  lemma MeridiemShift(pre: string, t: string, q: nat)
    ensures MeridiemAt(pre + t, |pre| + q) == MeridiemAt(t, q)
  {
    if q + 1 < |t| {
      assert (pre + t)[|pre| + q] == t[q];
      assert (pre + t)[|pre| + q + 1] == t[q + 1];
    }
  }

  lemma GroupsFromShift(pre: string, t: string, d: nat)
    requires d < |t| && IsDigit(t[d])
    ensures (pre + t)[|pre| + d] == t[d]
    ensures GroupsFrom(pre + t, |pre| + d) == GroupsFrom(t, d)
  {
    HourShift(pre, t, d);
    var p := HourEnd(t, d);
    MinuteShift(pre, t, p);
    var j := if HasMinute(t, p) then p + 3 else p;
    SkipSpacesShift(pre, t, j);
    MeridiemShift(pre, t, SkipSpaces(t, j));
  }

  lemma AfterAtShift(pre: string, t: string, d: nat)
    requires d <= |t|
    ensures AfterAt(pre + t, |pre| + d) == AfterAt(t, d)
  {
    if d < |t| {
      assert (pre + t)[|pre| + d] == t[d];
      if IsDigit(t[d]) { GroupsFromShift(pre, t, d); }
    }
  }

  /** The pattern only looks forward: text in front of a position does not change the match there. */
  lemma MatchAtShift(pre: string, t: string, i: nat)
    ensures MatchAt(pre + t, |pre| + i) == MatchAt(t, i)
  {
    if i + 2 <= |t| {
      assert (pre + t)[|pre| + i] == t[i] && (pre + t)[|pre| + i + 1] == t[i + 1];
      if t[i] == 'a' && t[i + 1] == 't' {
        SkipSpacesShift(pre, t, i + 2);
        AfterAtShift(pre, t, SkipSpaces(t, i + 2));
      }
    }
  }
}
