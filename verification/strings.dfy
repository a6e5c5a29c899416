/**
 The three Python string operations `computeBLEU` relies on: `sep.join(words)`,
 substring membership `p in s`, and `s.count(p)`, the number of
 non-overlapping occurrences of p found scanning s left to right (for the
 empty p, Python's `len(s) + 1`).
 */
module Strings {

  /** `sep.join(ws)`: the words with one separator between neighbours. */
  function Join(ws: seq<string>, sep: string): string
    decreases |ws|
  {
    if |ws| == 0 then ""
    else if |ws| == 1 then ws[0]
    else Join(ws[..|ws| - 1], sep) + sep + ws[|ws| - 1]
  }

  /** p occurs in s starting at index i. */
  predicate IsAt(s: string, p: string, i: nat)
  {
    i + |p| <= |s| && s[i..i + |p|] == p
  }

  /** `p in s`. */
  predicate Contains(s: string, p: string)
  {
    exists i: nat :: i <= |s| && IsAt(s, p, i)
  }

  /** The non-overlapping occurrences of a non-empty p in s[i..], scanning left to right. */
  function CountFrom(s: string, p: string, i: nat): nat
    requires |p| > 0
    decreases |s| - i
  {
    if i + |p| > |s| then 0
    else if IsAt(s, p, i) then 1 + CountFrom(s, p, i + |p|)
    else CountFrom(s, p, i + 1)
  }

  /** `s.count(p)`. */
  function Count(s: string, p: string): nat
  {
    if |p| == 0 then |s| + 1 else CountFrom(s, p, 0)
  }

  /** The scan from i finds an occurrence exactly when p occurs at some index from i on. */
  lemma {:induction false} CountFromPositive(s: string, p: string, i: nat)
    requires |p| > 0
    ensures CountFrom(s, p, i) >= 1 <==> exists k: nat :: i <= k <= |s| && IsAt(s, p, k)
    decreases |s| - i
  {
    if i + |p| > |s| {
    } else if IsAt(s, p, i) {
    } else {
      CountFromPositive(s, p, i + 1);
      if exists k: nat :: i <= k <= |s| && IsAt(s, p, k) {
        var k: nat :| i <= k <= |s| && IsAt(s, p, k);
        assert k != i;
      }
    }
  }

  /** `p in s` holds exactly when `s.count(p) >= 1`, the empty p included. */
  lemma ContainsIffCount(s: string, p: string)
    ensures Contains(s, p) <==> Count(s, p) >= 1
  {
    if |p| == 0 {
      assert IsAt(s, p, 0);
    } else {
      CountFromPositive(s, p, 0);
    }
  }

  /** An occurrence inside a prefix is an occurrence in the whole string. */
  lemma IsAtExtend(s: string, t: string, p: string, i: nat)
    requires IsAt(s, p, i)
    ensures IsAt(s + t, p, i)
  {
    assert (s + t)[i..i + |p|] == s[i..i + |p|];
  }

  /** Every word of `sep.join(ws)` occurs in it: a word of the reference is always `in` the joined reference. */
  lemma {:induction false} JoinContainsWords(ws: seq<string>, sep: string, k: nat)
    requires k < |ws|
    ensures Contains(Join(ws, sep), ws[k])
    decreases |ws|
  {
    if |ws| == 1 {
      assert IsAt(Join(ws, sep), ws[k], 0);
    } else {
      var init := ws[..|ws| - 1];
      var front := Join(init, sep) + sep;
      if k < |ws| - 1 {
        JoinContainsWords(init, sep, k);
        assert init[k] == ws[k];
        var i: nat :| i <= |Join(init, sep)| && IsAt(Join(init, sep), ws[k], i);
        IsAtExtend(Join(init, sep), sep + ws[|ws| - 1], ws[k], i);
        assert Join(init, sep) + (sep + ws[|ws| - 1]) == Join(ws, sep);
      } else {
        assert Join(ws, sep) == front + ws[k];
        assert IsAt(Join(ws, sep), ws[k], |front|);
      }
    }
  }
}
