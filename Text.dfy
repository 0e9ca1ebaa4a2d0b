/**
 * The string primitives the agents rely on: Python's `str.lower`, the
 * substring test `w in s`, `any(w in s for w in words)` and `str.startswith`.
 */
module Text {

  /** `str.lower` on one character; only the ASCII letters A-Z are mapped. */
  function LowerChar(c: char): char {
    if 'A' <= c <= 'Z' then (c as int + 32) as char else c
  }

  function Lower(s: string): (r: string)
    ensures |r| == |s|
    ensures forall i :: 0 <= i < |s| ==> r[i] == LowerChar(s[i])
  {
    if s == [] then [] else [LowerChar(s[0])] + Lower(s[1..])
  }

  /** A string with no upper-case ASCII letter is its own lower case. */
  lemma {:induction false} LowerOfLower(s: string)
    requires forall i :: 0 <= i < |s| ==> !('A' <= s[i] <= 'Z')
    ensures Lower(s) == s
  {
    var l := Lower(s);
    forall i | 0 <= i < |s| ensures l[i] == s[i] { }
  }

  predicate StartsWith(s: string, prefix: string) {
    |prefix| <= |s| && s[..|prefix|] == prefix
  }

  /** `w` occurs in `s` starting at position `i`. */
  ghost predicate OccursAt(s: string, w: string, i: nat) {
    i + |w| <= |s| && s[i..i + |w|] == w
  }

  /** Python's `w in s`: scans `s` from the left for an occurrence of `w`. */
  function Contains(s: string, w: string): (r: bool)
    ensures r <==> exists i: nat :: OccursAt(s, w, i)
    decreases |s|
  {
    if |w| > |s| then
      assert forall i: nat :: !OccursAt(s, w, i);
      false
    else if StartsWith(s, w) then
      assert OccursAt(s, w, 0);
      true
    else if |s| == 0 then
      false
    else
      var r := Contains(s[1..], w);
      assert forall i: nat :: OccursAt(s[1..], w, i) ==> OccursAt(s, w, i + 1) by {
        forall i: nat | OccursAt(s[1..], w, i) ensures OccursAt(s, w, i + 1) {
          assert s[i + 1..i + 1 + |w|] == s[1..][i..i + |w|];
        }
      }
      assert forall i: nat :: OccursAt(s, w, i) && i > 0 ==> OccursAt(s[1..], w, i - 1) by {
        forall i: nat | OccursAt(s, w, i) && i > 0 ensures OccursAt(s[1..], w, i - 1) {
          var here, there := s[i..i + |w|], s[1..][i - 1..i - 1 + |w|];
          forall k | 0 <= k < |w| ensures here[k] == there[k] {
            assert s[1..][i - 1 + k] == s[i + k];
          }
          assert here == there;
        }
      }
      assert !OccursAt(s, w, 0);
      r
  }

  /** Python's `any(w in s for w in words)`, tried in list order. */
  function ContainsAny(s: string, words: seq<string>): (r: bool)
    ensures r <==> exists k :: 0 <= k < |words| && Contains(s, words[k])
  {
    if words == [] then false
    else if Contains(s, words[0]) then true
    else
      var r := ContainsAny(s, words[1..]);
      assert forall k :: 1 <= k < |words| ==> words[k] == words[1..][k - 1];
      r
  }

  /** An occurrence of `w` in `s` carries every character of `w` into `s`. */
  lemma CharsOfOccurrence(s: string, w: string, c: char)
    requires Contains(s, w) && c in w
    ensures c in s
  {
    var i: nat :| OccursAt(s, w, i);
    var k :| 0 <= k < |w| && w[k] == c;
    assert s[i + k] == s[i..i + |w|][k];
  }

  /** Occurrence is transitive: a word containing `v`, found in `s`, puts `v` in `s`. */
  lemma ContainsTrans(s: string, w: string, v: string)
    requires Contains(s, w) && Contains(w, v)
    ensures Contains(s, v)
  {
    var i: nat :| OccursAt(s, w, i);
    var j: nat :| OccursAt(w, v, j);
    forall k | 0 <= k < |v| ensures s[i + j + k] == v[k] {
      assert v[k] == w[j..j + |v|][k] == w[j + k];
      assert w[j + k] == s[i..i + |w|][j + k];
    }
    assert OccursAt(s, v, i + j);
  }

  lemma ContainsInSuffix(a: string, b: string, w: string)
    requires Contains(b, w)
    ensures Contains(a + b, w)
  {
    var i: nat :| OccursAt(b, w, i);
    assert (a + b)[|a| + i..|a| + i + |w|] == b[i..i + |w|];
    assert OccursAt(a + b, w, |a| + i);
  }

  /**
   * A word that does not contain the separator `c` and occurs in `a + [c] + b`
   * occurs in `a` or in `b`: no occurrence can straddle the separator.
   */
  lemma ContainsAcrossSeparator(a: string, c: char, b: string, w: string)
    requires c !in w
    requires Contains(a + [c] + b, w)
    ensures Contains(a, w) || Contains(b, w)
  {
    var s := a + [c] + b;
    var i: nat :| OccursAt(s, w, i);
    assert forall k :: 0 <= k < |w| ==> w[k] == s[i + k] by {
      forall k | 0 <= k < |w| ensures w[k] == s[i + k] { assert w[k] == s[i..i + |w|][k]; }
    }
    assert s[|a|] == c;
    assert !(i <= |a| < i + |w|);
    if i + |w| <= |a| {
      assert a[i..i + |w|] == s[i..i + |w|];
      assert OccursAt(a, w, i);
    } else {
      assert b[i - |a| - 1..i - |a| - 1 + |w|] == s[i..i + |w|];
      assert OccursAt(b, w, i - |a| - 1);
    }
  }
}
