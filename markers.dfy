/**
  What the four marker-removal passes at the end of `render_template` do to
  text around a block: a marker alone on its line goes with its line break,
  a marker followed by more text on the same line goes without it, and text
  with no `<` passes through untouched.
 */
module Markers {
  import opened Wrappers
  import opened Strings
  import opened Template

  /** Both regular expressions start with `<`. */
  predicate Opener(open: string) {
    open != [] && open[0] == '<'
  }

  /** No `<` in `s`, so no pattern can start a match inside it. */
  predicate NoOpen(s: string) {
    '<' !in s
  }

  /** Text in which no pattern opens is returned unchanged. */
  lemma {:induction false} RemoveMatchesAbsent(s: string, open: string, tail: string)
    requires !Contains(s, open)
    ensures RemoveMatches(s, open, tail) == s
    decreases |s|
  {
    if s != [] {
      assert !OccursAt(s, open, 0);
      assert !Contains(s[1..], open) by {
        forall i ensures !OccursAt(s[1..], open, i) {
          OccursInSuffix(s, open, 1, i);
        }
      }
      RemoveMatchesAbsent(s[1..], open, tail);
    }
  }

  /** A prefix without `<` is copied as it is and scanning resumes after it. */
  lemma {:induction false} RemoveMatchesSkip(x: string, z: string, open: string, tail: string)
    requires Opener(open) && NoOpen(x)
    ensures RemoveMatches(x + z, open, tail) == x + RemoveMatches(z, open, tail)
    decreases |x|
  {
    if x != [] {
      var s := x + z;
      OccursAtChars(s, open, 0);
      assert s[0] == x[0] && x[0] != '<';
      assert MatchEnd(s, open, tail) == None;
      assert s[1..] == x[1..] + z;
      calc {
        RemoveMatches(s, open, tail);
        [x[0]] + RemoveMatches(x[1..] + z, open, tail);
        { RemoveMatchesSkip(x[1..], z, open, tail); }
        [x[0]] + (x[1..] + RemoveMatches(z, open, tail));
        { assert x == [x[0]] + x[1..]; }
        x + RemoveMatches(z, open, tail);
      }
    } else {
      assert x + z == z;
    }
  }

  /** `LineEnd` pinned down by the line break it finds. */
  lemma LineEndAt(s: string, i: nat, l: nat)
    requires i <= l < |s| && s[l] == '\n'
    requires forall k :: i <= k < l ==> s[k] != '\n'
    ensures LineEnd(s, i) == l
  {
    var r := LineEnd(s, i);
    assert !(r < l);
    assert !(l < r);
  }

  /** `LineEnd` is no earlier than the end of a run without line breaks. */
  lemma LineEndAtLeast(s: string, i: nat, l: nat)
    requires i <= l <= |s|
    requires forall k :: i <= k < l ==> s[k] != '\n'
    ensures l <= LineEnd(s, i)
  {
    var r := LineEnd(s, i);
    assert !(r < l);
  }

  /** `LastOccurrence` pinned down by an occurrence with none after it. */
  lemma LastOccurrenceAt(s: string, t: string, lo: nat, hi: int, m: nat)
    requires lo <= m <= hi && OccursAt(s, t, m)
    requires forall j :: m < j <= hi ==> !OccursAt(s, t, j)
    ensures LastOccurrence(s, t, lo, hi) == m
  {
    var r := LastOccurrence(s, t, lo, hi);
    assert !(r < m);
    assert !(m < r);
  }

  /** An occurrence in the text after `d` characters, seen from the whole text. */
  lemma OccursFromSuffix(s: string, p: string, d: nat, j: int)
    requires d <= |s| && d <= j
    ensures OccursAt(s, p, j) ==> OccursAt(s[d..], p, j - d)
  {
    if OccursAt(s, p, j) {
      assert s[d..][j - d..j - d + |p|] == s[j..j + |p|];
    }
  }

  /** The greedy match ends after the last `tail` on the first line. */
  lemma MatchEndAt(z: string, open: string, tail: string, l: nat, m: nat)
    requires OccursAt(z, open, 0) && LineEnd(z, |open|) == l
    requires LastOccurrence(z, tail, |open| + 1, l) == m
    ensures MatchEnd(z, open, tail) == Some(m + |tail|)
  {
  }

  /** The BEGIN and END patterns differ at index 5, so neither matches at the other's marker. */
  lemma OtherMarker(w: string, open: string, tail: string)
    requires |open| > 5 && |w| > 5 && w[5] != open[5]
    ensures MatchEnd(w, open, tail) == None
  {
    OccursAtChars(w, open, 0);
  }

  /** The rest of a line, seen from a later point on it. */
  lemma SuffixLineEnd(z: string, d: nat, k: nat)
    requires d <= |z| && d <= k <= LineEnd(z, d)
    ensures LineEnd(z, d) - k <= LineEnd(z[k..], 0)
  {
    var l := LineEnd(z, d);
    forall i | 0 <= i < l - k ensures z[k..][i] != '\n' {
      assert z[k..][i] == z[k + i];
    }
    LineEndAtLeast(z[k..], 0, l - k);
  }

  /** Where the parts of a marker `open name t` followed by `y` sit. */
  lemma MarkerParts(open: string, name: string, t: string, y: string)
    ensures var z, c := open + name + t + y, |open| + |name|;
      OccursAt(z, open, 0) && OccursAt(z, t, c) && z[c + |t|..] == y
  {
    var z, c := open + name + t + y, |open| + |name|;
    assert z[..|open|] == open;
    assert z[c..c + |t|] == t;
    assert z[c + |t|..] == y;
  }

  /**
    A name without a line break keeps the marker, up to the end of the
    ` -->` that opens its tail `t`, on one line.
   */
  lemma MarkerOneLine(open: string, name: string, t: string, y: string)
    requires '\n' !in name
    requires |t| >= 4 && t[0] != '\n' && t[1] != '\n' && t[2] != '\n' && t[3] != '\n'
    ensures |open| + |name| + 4 <= LineEnd(open + name + t + y, |open|)
  {
    var z, d, c := open + name + t + y, |open|, |open| + |name|;
    forall k | d <= k < c + 4 ensures z[k] != '\n' {
      if k < c {
        assert z[k] == name[k - d];
      } else {
        assert z[k] == t[k - c];
      }
    }
    LineEndAtLeast(z, d, c + 4);
  }

  /** No ` -->` starts inside another ` -->`. */
  lemma TailNotInside(z: string, c: int, j: int)
    requires OccursAt(z, Tail, c) && c < j < c + 4
    ensures !OccursAt(z, Tail, j)
  {
    OccursAtChars(z, Tail, c);
    OccursAtChars(z, Tail, j);
    assert z[j] == Tail[j - c];
  }

  /** A marker that ends its line matches up to and including the line break. */
  lemma LineMarkerMatch(open: string, name: string, y: string)
    requires name != [] && '\n' !in name
    ensures MatchEnd(open + name + LineTail + y, open, LineTail) == Some(|open| + |name| + 5)
  {
    var z := open + name + LineTail + y;
    var d, c := |open|, |open| + |name|;
    MarkerParts(open, name, LineTail, y);
    MarkerLineEnd(open, name, y);
    forall j | c < j <= c + 4 ensures !OccursAt(z, LineTail, j) {
      LineTailNotInside(z, c, j);
    }
    LastOccurrenceAt(z, LineTail, d + 1, c + 4, c);
    MatchEndAt(z, open, LineTail, c + 4, c);
  }

  /** The first line of a marker that ends its line ends at the marker's line break. */
  lemma MarkerLineEnd(open: string, name: string, y: string)
    requires '\n' !in name
    ensures LineEnd(open + name + LineTail + y, |open|) == |open| + |name| + 4
  {
    var z, c := open + name + LineTail + y, |open| + |name|;
    MarkerOneLine(open, name, LineTail, y);
    assert z[c + 4] == LineTail[4];
    var l := LineEnd(z, |open|);
    assert !(c + 4 < l);
  }

  /** No ` -->` plus line break starts inside another one. */
  lemma LineTailNotInside(z: string, c: int, j: int)
    requires OccursAt(z, LineTail, c) && c < j <= c + 4
    ensures !OccursAt(z, LineTail, j)
  {
    OccursAtChars(z, LineTail, c);
    OccursAtChars(z, LineTail, j);
    assert z[j] == LineTail[j - c];
  }

  /**
    Passes 1 and 2: a marker `open name -->` that ends its line is removed
    together with its line break, and scanning goes on after it.
   */
  lemma LineMarkerRemoved(x: string, open: string, name: string, y: string)
    requires Opener(open) && NoOpen(x)
    requires name != [] && '\n' !in name
    ensures RemoveMatches(x + open + name + LineTail + y, open, LineTail)
         == x + RemoveMatches(y, open, LineTail)
  {
    var z := open + name + LineTail + y;
    calc {
      RemoveMatches(x + open + name + LineTail + y, open, LineTail);
      { MarkerRegroup(x, open, name, LineTail, y); }
      RemoveMatches(x + z, open, LineTail);
      { RemoveMatchesSkip(x, z, open, LineTail); }
      x + RemoveMatches(z, open, LineTail);
      { LineMarkerMatch(open, name, y);
        assert z[|open| + |name| + 5..] == y; }
      x + RemoveMatches(y, open, LineTail);
    }
  }

  /** No ` -->` starts on the first line of `y`. */
  predicate TailFreeFirstLine(y: string) {
    forall j :: 0 <= j <= LineEnd(y, 0) ==> !OccursAt(y, Tail, j)
  }

  /** A marker followed on its line by no further ` -->` matches up to its own ` -->`. */
  lemma InlineMarkerMatch(open: string, name: string, y: string)
    requires name != [] && '\n' !in name
    requires TailFreeFirstLine(y)
    ensures MatchEnd(open + name + Tail + y, open, Tail) == Some(|open| + |name| + 4)
  {
    var z := open + name + Tail + y;
    var d, c := |open|, |open| + |name|;
    MarkerParts(open, name, Tail, y);
    MarkerOneLine(open, name, Tail, y);
    var l := LineEnd(z, d);
    SuffixLineEnd(z, d, c + 4);
    forall j | c < j <= l ensures !OccursAt(z, Tail, j) {
      if j < c + 4 {
        TailNotInside(z, c, j);
      } else {
        OccursFromSuffix(z, Tail, c + 4, j);
      }
    }
    LastOccurrenceAt(z, Tail, d + 1, l, c);
    MatchEndAt(z, open, Tail, l, c);
  }

  /**
    Passes 3 and 4: a marker `open name -->` followed on the same line by
    text with no further ` -->` is removed, the line break stays.
   */
  lemma InlineMarkerRemoved(x: string, open: string, name: string, y: string)
    requires Opener(open) && NoOpen(x)
    requires name != [] && '\n' !in name
    requires TailFreeFirstLine(y)
    ensures RemoveMatches(x + open + name + Tail + y, open, Tail)
         == x + RemoveMatches(y, open, Tail)
  {
    var z := open + name + Tail + y;
    calc {
      RemoveMatches(x + open + name + Tail + y, open, Tail);
      { MarkerRegroup(x, open, name, Tail, y); }
      RemoveMatches(x + z, open, Tail);
      { RemoveMatchesSkip(x, z, open, Tail); }
      x + RemoveMatches(z, open, Tail);
      { InlineMarkerMatch(open, name, y);
        assert z[|open| + |name| + 4..] == y; }
      x + RemoveMatches(y, open, Tail);
    }
  }

  /** A pattern ending in a line break occurs only in text holding one. */
  lemma LineTailAbsent(s: string, m: int)
    ensures '\n' !in s ==> !OccursAt(s, LineTail, m)
  {
    OccursAtChars(s, LineTail, m);
    if OccursAt(s, LineTail, m) {
      assert s[m + 4] == '\n';
    }
  }

  /** Passes 1 and 2 leave text without a line break unchanged: their tail needs one. */
  lemma {:induction false} RemoveMatchesNoBreak(s: string, open: string)
    requires '\n' !in s
    ensures RemoveMatches(s, open, LineTail) == s
    decreases |s|
  {
    if s != [] {
      forall m ensures !OccursAt(s, LineTail, m) {
        LineTailAbsent(s, m);
      }
      MatchEndGreedy(s, open, LineTail);
      assert '\n' !in s[1..] by {
        forall k | 0 <= k < |s[1..]| ensures s[1..][k] != '\n' {
          assert s[1..][k] == s[k + 1];
        }
      }
      RemoveMatchesNoBreak(s[1..], open);
      assert s == [s[0]] + s[1..];
    }
  }

  /**
    Pass 3 on a BEGIN marker whose line runs to the end of the text and ends
    in ` -->`: the greedy `.+` reaches that last ` -->`, so everything from
    the marker on is removed.
   */
  lemma InlineToEndRemoved(x: string, z: string)
    requires NoOpen(x) && OccursAt(z, BeginOpen, 0) && '\n' !in z
    requires |BeginOpen| + 5 <= |z| && OccursAt(z, Tail, |z| - 4)
    ensures RemoveMatches(x + z, BeginOpen, Tail) == x
  {
    RemoveMatchesSkip(x, z, BeginOpen, Tail);
    var l := LineEnd(z, |BeginOpen|);
    LastOccurrenceAt(z, Tail, |BeginOpen| + 1, l, |z| - 4);
    MatchEndAt(z, BeginOpen, Tail, l, |z| - 4);
    assert z[|z|..] == [];
    assert x + [] == x;
  }

  /** Regroups a concatenation; kept apart so that sequence associativity stays out of the larger proofs. */
  lemma MarkerRegroup(x: string, open: string, name: string, t: string, y: string)
    ensures x + (open + name + t + y) == x + open + name + t + y
  {
  }
}
