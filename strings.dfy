/**
  The parts of Python's `str` type (and of `sorted` on a set of strings) that
  the fetcher's templating and extraction code relies on: `find`, `replace`,
  `strip`, `"".join`, the `in` substring test and code-point ordering.
 */
module Strings {

  /* ---------------------------------------------------------------------- */
  /* Substring occurrences                                                   */
  /* ---------------------------------------------------------------------- */

  /** `p` occurs in `s` starting at index `i`. */
  predicate OccursAt(s: string, p: string, i: int) {
    0 <= i && i + |p| <= |s| && s[i..i + |p|] == p
  }

  /** An occurrence fixes every character it covers. */
  lemma OccursAtChars(s: string, p: string, j: int)
    ensures OccursAt(s, p, j) ==> forall k :: 0 <= k < |p| ==> s[j + k] == p[k]
  {
    if OccursAt(s, p, j) {
      forall k | 0 <= k < |p| ensures s[j + k] == p[k] {
        assert s[j..j + |p|][k] == s[j + k];
      }
    }
  }

  /** Python's `p in s` for two strings. */
  predicate Contains(s: string, p: string) {
    exists i :: 0 <= i <= |s| - |p| && OccursAt(s, p, i)
  }

  /** The lowest occurrence of `p` at or after `i`, or -1. */
  function FindFrom(s: string, p: string, i: nat): (r: int)
    requires i <= |s|
    ensures r == -1 || (i <= r && OccursAt(s, p, r))
    ensures forall j :: i <= j && (r == -1 || j < r) ==> !OccursAt(s, p, j)
    decreases |s| - i
  {
    if i + |p| > |s| then -1
    else if s[i..i + |p|] == p then i
    else FindFrom(s, p, i + 1)
  }

  /** Python's `s.find(p)`: the lowest index where `p` occurs, or -1 when it does not occur. */
  function Find(s: string, p: string): (r: int)
    ensures r == -1 <==> !Contains(s, p)
    ensures r != -1 ==> OccursAt(s, p, r) && forall j :: 0 <= j < r ==> !OccursAt(s, p, j)
  {
    FindFrom(s, p, 0)
  }

  /** An occurrence whose every predecessor is no occurrence is what `Find` returns. */
  lemma FindIsFirst(s: string, p: string, b: nat)
    requires OccursAt(s, p, b)
    requires forall j :: 0 <= j < b ==> !OccursAt(s, p, j)
    ensures Find(s, p) == b
  {
  }

  /* ---------------------------------------------------------------------- */
  /* str.replace                                                             */
  /* ---------------------------------------------------------------------- */

  /**
    Python's `s.replace(p, r)` for a non-empty `p`: the text is scanned from
    the left; every occurrence found is replaced and the scan resumes after
    it, so occurrences never overlap.
   */
  function Replace(s: string, p: string, r: string): string
    requires p != []
    decreases |s|
  {
    if |s| < |p| then s
    else if s[..|p|] == p then r + Replace(s[|p|..], p, r)
    else [s[0]] + Replace(s[1..], p, r)
  }

  /** Replacing a pattern that does not occur leaves the text as it is. */
  lemma {:induction false} ReplaceAbsent(s: string, p: string, r: string)
    requires p != []
    requires !Contains(s, p)
    ensures Replace(s, p, r) == s
    decreases |s|
  {
    if |s| < |p| {
    } else if s[..|p|] == p {
      assert OccursAt(s, p, 0);
    } else {
      forall i ensures !OccursAt(s[1..], p, i) {
        OccursInSuffix(s, p, 1, i);
      }
      ReplaceAbsent(s[1..], p, r);
    }
  }

  /** Replacing a pattern by itself is the identity. */
  lemma {:induction false} ReplaceSelf(s: string, p: string)
    requires p != []
    ensures Replace(s, p, p) == s
    decreases |s|
  {
    if |s| < |p| {
    } else if s[..|p|] == p {
      ReplaceSelf(s[|p|..], p);
      assert s == s[..|p|] + s[|p|..];
    } else {
      ReplaceSelf(s[1..], p);
      assert s == [s[0]] + s[1..];
    }
  }

  /** No occurrence of `p` in `s` starts before `k` and ends after it. */
  predicate NoStraddle(s: string, p: string, k: int) {
    forall j :: 0 <= j < k && OccursAt(s, p, j) ==> j + |p| <= k
  }

  /**
    When no occurrence straddles index `k`, replacing in `s` is replacing in
    the two halves separately.
   */
  lemma {:induction false} ReplaceSplit(s: string, p: string, r: string, k: nat)
    requires p != [] && k <= |s|
    requires NoStraddle(s, p, k)
    ensures Replace(s, p, r) == Replace(s[..k], p, r) + Replace(s[k..], p, r)
    decreases k
  {
    if k == 0 {
      assert s[..0] == [] && s[0..] == s;
    } else if |s| < |p| {
      assert |s[..k]| < |p| && |s[k..]| < |p|;
      assert s[..k] + s[k..] == s;
    } else if s[..|p|] == p {
      ReplaceSplitMatch(s, p, r, k);
    } else {
      ReplaceSplitSkip(s, p, r, k);
    }
  }

  /** An occurrence in a suffix is an occurrence in the whole text. */
  lemma OccursInSuffix(s: string, p: string, d: nat, j: int)
    requires d <= |s|
    ensures OccursAt(s[d..], p, j) ==> OccursAt(s, p, j + d)
  {
    if OccursAt(s[d..], p, j) {
      assert s[d..][j..j + |p|] == s[j + d..j + d + |p|];
    }
  }

  /** An occurrence in a prefix is an occurrence in the whole text. */
  lemma OccursInPrefix(s: string, p: string, k: nat, j: int)
    requires k <= |s|
    ensures OccursAt(s[..k], p, j) ==> OccursAt(s, p, j)
  {
    if OccursAt(s[..k], p, j) {
      assert s[..k][j..j + |p|] == s[j..j + |p|];
    }
  }

  /** An occurrence that does not straddle index `|t|` of `t + u` lies in `t` or in `u`. */
  lemma OccursInConcat(t: string, u: string, p: string, j: int)
    requires OccursAt(t + u, p, j) && NoStraddle(t + u, p, |t|)
    ensures j < |t| ==> OccursAt(t, p, j)
    ensures j >= |t| ==> OccursAt(u, p, j - |t|)
  {
    var s := t + u;
    if j < |t| {
      assert t[j..j + |p|] == s[j..j + |p|];
    } else {
      assert u[j - |t|..j - |t| + |p|] == s[j..j + |p|];
    }
  }

  /** A string placed between two others occurs where the first one ends. */
  lemma OccursBetween(u: string, p: string, v: string)
    ensures OccursAt(u + p + v, p, |u|)
  {
    assert (u + p + v)[|u|..|u| + |p|] == p;
  }

  lemma {:induction false} ReplaceSplitMatch(s: string, p: string, r: string, k: nat)
    requires p != [] && 0 < k <= |s| && |p| <= |s| && s[..|p|] == p
    requires NoStraddle(s, p, k)
    ensures Replace(s, p, r) == Replace(s[..k], p, r) + Replace(s[k..], p, r)
    decreases k, 0
  {
    assert |p| <= k by { assert OccursAt(s, p, 0); }
    var t := s[|p|..];
    var n := k - |p|;
    assert NoStraddle(t, p, n) by {
      forall j | 0 <= j < n && OccursAt(t, p, j) ensures j + |p| <= n {
        OccursInSuffix(s, p, |p|, j);
      }
    }
    calc {
      Replace(s, p, r);
      { ReplaceAtStart(s, p, r); }
      r + Replace(t, p, r);
      { ReplaceSplit(t, p, r, n); }
      r + (Replace(t[..n], p, r) + Replace(t[n..], p, r));
      { ConcatAssoc(r, Replace(t[..n], p, r), Replace(t[n..], p, r)); }
      r + Replace(t[..n], p, r) + Replace(t[n..], p, r);
      { assert s[..k][..|p|] == p && s[..k][|p|..] == t[..n];
        ReplaceAtStart(s[..k], p, r); }
      Replace(s[..k], p, r) + Replace(t[n..], p, r);
      { assert t[n..] == s[k..]; }
      Replace(s[..k], p, r) + Replace(s[k..], p, r);
    }
  }

  /** A text that does not start with the pattern keeps its first character. */
  lemma ReplaceSkipStart(t: string, p: string, r: string)
    requires p != [] && t != [] && (|t| < |p| || t[..|p|] != p)
    ensures Replace(t, p, r) == [t[0]] + Replace(t[1..], p, r)
  {
    if |t| < |p| {
      assert Replace(t[1..], p, r) == t[1..];
      assert t == [t[0]] + t[1..];
    }
  }

  lemma {:induction false} ReplaceSplitSkip(s: string, p: string, r: string, k: nat)
    requires p != [] && 0 < k <= |s| && |p| <= |s| && s[..|p|] != p
    requires NoStraddle(s, p, k)
    ensures Replace(s, p, r) == Replace(s[..k], p, r) + Replace(s[k..], p, r)
    decreases k, 0
  {
    var t := s[1..];
    assert NoStraddle(t, p, k - 1) by {
      forall j | 0 <= j < k - 1 && OccursAt(t, p, j) ensures j + |p| <= k - 1 {
        OccursInSuffix(s, p, 1, j);
      }
    }
    var h := [s[0]];
    calc {
      Replace(s, p, r);
      { ReplaceSkipStart(s, p, r); }
      h + Replace(t, p, r);
      { ReplaceSplit(t, p, r, k - 1); }
      h + (Replace(t[..k - 1], p, r) + Replace(t[k - 1..], p, r));
      { ConcatAssoc(h, Replace(t[..k - 1], p, r), Replace(t[k - 1..], p, r)); }
      h + Replace(t[..k - 1], p, r) + Replace(t[k - 1..], p, r);
      { assert s[..k][0] == s[0] && s[..k][1..] == t[..k - 1];
        assert |s[..k]| < |p| || s[..k][..|p|] == s[..|p|];
        ReplaceSkipStart(s[..k], p, r); }
      Replace(s[..k], p, r) + Replace(t[k - 1..], p, r);
      { assert t[k - 1..] == s[k..]; }
      Replace(s[..k], p, r) + Replace(s[k..], p, r);
    }
  }

  /** A text that starts with the pattern: that occurrence is replaced. */
  lemma ReplaceAtStart(t: string, p: string, r: string)
    requires p != [] && |p| <= |t| && t[..|p|] == p
    ensures Replace(t, p, r) == r + Replace(t[|p|..], p, r)
  {
  }

  /** A text before the first occurrence holds no occurrence. */
  lemma BeforeFirstAbsent(s: string, p: string, b: nat)
    requires p != [] && b <= |s|
    requires forall j :: 0 <= j < b ==> !OccursAt(s, p, j)
    ensures !Contains(s[..b], p)
  {
    forall i ensures !OccursAt(s[..b], p, i) {
      OccursInPrefix(s, p, b, i);
    }
  }

  /** The first occurrence is replaced and the text before it is kept. */
  lemma ReplaceAtFirst(s: string, p: string, r: string, b: nat)
    requires p != []
    requires OccursAt(s, p, b)
    requires forall j :: 0 <= j < b ==> !OccursAt(s, p, j)
    ensures Replace(s, p, r) == s[..b] + r + Replace(s[b + |p|..], p, r)
  {
    ReplaceBeforeFirst(s, p, r, b);
    ReplaceAtOccurrence(s, p, r, b);
    ConcatAssoc(s[..b], r, Replace(s[b + |p|..], p, r));
  }

  /** Regroups a concatenation; kept apart so that sequence associativity stays out of the larger proofs. */
  lemma ConcatAssoc(x: string, y: string, z: string)
    ensures x + (y + z) == x + y + z
  {
  }

  /** The text from an occurrence on: that occurrence is replaced. */
  lemma ReplaceAtOccurrence(s: string, p: string, r: string, b: nat)
    requires p != [] && OccursAt(s, p, b)
    ensures Replace(s[b..], p, r) == r + Replace(s[b + |p|..], p, r)
  {
    var t := s[b..];
    assert t[..|p|] == p && t[|p|..] == s[b + |p|..];
    ReplaceAtStart(t, p, r);
  }

  /** The text before the first occurrence is kept as it is. */
  lemma ReplaceBeforeFirst(s: string, p: string, r: string, b: nat)
    requires p != [] && b <= |s|
    requires forall j :: 0 <= j < b ==> !OccursAt(s, p, j)
    ensures Replace(s, p, r) == s[..b] + Replace(s[b..], p, r)
  {
    assert NoStraddle(s, p, b);
    ReplaceSplit(s, p, r, b);
    BeforeFirstAbsent(s, p, b);
    ReplaceAbsent(s[..b], p, r);
  }

  /* ---------------------------------------------------------------------- */
  /* str.strip                                                               */
  /* ---------------------------------------------------------------------- */

  /** The characters Python's `str.isspace` accepts, which `str.strip()` removes. */
  predicate IsSpace(c: char) {
    var n := c as int;
    (9 <= n <= 13) || (28 <= n <= 32) || n == 0x85 || n == 0xA0 || n == 0x1680
    || (0x2000 <= n <= 0x200A) || n == 0x2028 || n == 0x2029 || n == 0x202F
    || n == 0x205F || n == 0x3000
  }

  /** Neither the first nor the last character is whitespace. */
  predicate Trimmed(s: string) {
    s == [] || (!IsSpace(s[0]) && !IsSpace(s[|s| - 1]))
  }

  /** Where `s.lstrip()` starts: the first index at or after `i` that is not whitespace, or the end. */
  function FirstNonSpace(s: string, i: nat): (a: nat)
    requires i <= |s|
    ensures i <= a <= |s|
    ensures forall k :: i <= k < a ==> IsSpace(s[k])
    ensures a == |s| || !IsSpace(s[a])
    decreases |s| - i
  {
    if i == |s| || !IsSpace(s[i]) then i else FirstNonSpace(s, i + 1)
  }

  /** Where `s.rstrip()` ends, looking no further left than `a`: just after the last non-whitespace before `e`. */
  function LastNonSpaceEnd(s: string, a: nat, e: nat): (r: nat)
    requires a <= e <= |s|
    ensures a <= r <= e
    ensures forall k :: r <= k < e ==> IsSpace(s[k])
    ensures r == a || !IsSpace(s[r - 1])
    decreases e
  {
    if e == a || !IsSpace(s[e - 1]) then e else LastNonSpaceEnd(s, a, e - 1)
  }

  /**
    `r` is `s` with a run of leading and a run of trailing whitespace cut
    off, and does not itself start or end with whitespace.
   */
  ghost predicate StrippedFrom(s: string, r: string) {
    Trimmed(r) && exists a :: StrippedAt(s, r, a)
  }

  /** `r` sits at index `a` of `s`, with only whitespace before and after it. */
  predicate StrippedAt(s: string, r: string, a: int) {
    0 <= a && a + |r| <= |s| && r == s[a..a + |r|]
    && (forall k :: 0 <= k < a ==> IsSpace(s[k]))
    && (forall k :: a + |r| <= k < |s| ==> IsSpace(s[k]))
  }

  /** Python's `s.strip()`. */
  function Strip(s: string): (r: string)
    ensures StrippedFrom(s, r)
    ensures Trimmed(r)
    ensures Trimmed(s) ==> r == s
    ensures forall c :: c in r ==> c in s
  {
    var a := FirstNonSpace(s, 0);
    var e := LastNonSpaceEnd(s, a, |s|);
    StrippedSlice(s, a, e);
    s[a..e]
  }

  /** The text between the two cut points is `s` stripped. */
  lemma StrippedSlice(s: string, a: nat, e: nat)
    requires a == FirstNonSpace(s, 0) && e == LastNonSpaceEnd(s, a, |s|)
    ensures StrippedAt(s, s[a..e], a) && Trimmed(s[a..e])
    ensures StrippedFrom(s, s[a..e])
    ensures Trimmed(s) ==> s[a..e] == s
    ensures forall c :: c in s[a..e] ==> c in s
  {
    var r := s[a..e];
    if r != [] {
      assert r[0] == s[a] && r[|r| - 1] == s[e - 1];
    }
    StrippedParts(s, r, a);
  }

  /** What being `s` stripped implies: a trimmed text is its own strip, and no character is new. */
  lemma StrippedParts(s: string, r: string, a: int)
    requires StrippedAt(s, r, a) && Trimmed(r)
    ensures StrippedFrom(s, r)
    ensures Trimmed(s) ==> r == s
    ensures forall c :: c in r ==> c in s
  {
    if Trimmed(s) {
      assert StrippedAt(s, s, 0);
      StrippedUnique(s, r, s);
    }
    forall c | c in r ensures c in s {
      var k :| 0 <= k < |r| && r[k] == c;
      assert s[a + k] == c;
    }
  }

  /** Only one string is `s` stripped: whatever meets that description is what `Strip` returns. */
  lemma StripUnique(s: string, r: string)
    requires StrippedFrom(s, r)
    ensures r == Strip(s)
  {
    StrippedUnique(s, r, Strip(s));
  }

  lemma StrippedUnique(s: string, r1: string, r2: string)
    requires StrippedFrom(s, r1) && StrippedFrom(s, r2)
    ensures r1 == r2
  {
    var a1 :| StrippedAt(s, r1, a1);
    var a2 :| StrippedAt(s, r2, a2);
    if r1 != [] && r2 != [] {
      assert r1[0] == s[a1] && r2[0] == s[a2];
      assert a1 == a2;
      assert r1[|r1| - 1] == s[a1 + |r1| - 1] && r2[|r2| - 1] == s[a2 + |r2| - 1];
      assert |r1| == |r2|;
    }
  }

  /* ---------------------------------------------------------------------- */
  /* "".join                                                                 */
  /* ---------------------------------------------------------------------- */

  /** Python's `"".join(parts)`. */
  function Join(parts: seq<string>): string {
    if parts == [] then [] else Join(parts[..|parts| - 1]) + parts[|parts| - 1]
  }

  /* ---------------------------------------------------------------------- */
  /* Ordering of strings and sorted()                                        */
  /* ---------------------------------------------------------------------- */

  /** Python's `a < b` on strings: lexicographic by code point, a proper prefix first. */
  predicate Less(a: string, b: string) {
    if a == [] then b != []
    else if b == [] then false
    else if a[0] != b[0] then a[0] < b[0]
    else Less(a[1..], b[1..])
  }

  lemma {:induction false} LessIrreflexive(a: string)
    ensures !Less(a, a)
  {
    if a != [] {
      LessIrreflexive(a[1..]);
    }
  }

  lemma {:induction false} LessTransitive(a: string, b: string, c: string)
    requires Less(a, b) && Less(b, c)
    ensures Less(a, c)
  {
    if a != [] && b != [] && c != [] && a[0] == b[0] && b[0] == c[0] {
      LessTransitive(a[1..], b[1..], c[1..]);
    }
  }

  lemma {:induction false} LessTotal(a: string, b: string)
    requires a != b
    ensures Less(a, b) || Less(b, a)
  {
    if a != [] && b != [] && a[0] == b[0] {
      assert a == [a[0]] + a[1..] && b == [b[0]] + b[1..];
      LessTotal(a[1..], b[1..]);
    }
  }

  /** Every element is below every later one: sorted, with no duplicates. */
  predicate StrictlyAscending(xs: seq<string>) {
    forall i, j :: 0 <= i < j < |xs| ==> Less(xs[i], xs[j])
  }

  /** A finite non-empty set of strings has a least element. */
  lemma {:induction false} LeastExists(items: set<string>) returns (m: string)
    requires items != {}
    ensures m in items && forall x :: x in items && x != m ==> Less(m, x)
    decreases |items|
  {
    var y :| y in items;
    if items == {y} {
      m := y;
    } else {
      var n := LeastExists(items - {y});
      if Less(y, n) {
        m := y;
        forall x | x in items && x != m ensures Less(m, x) {
          if x != n { LessTransitive(y, n, x); }
        }
      } else {
        LessTotal(y, n);
        m := n;
      }
    }
  }

  /**
    Python's `sorted(items)` for a set of strings: the elements in ascending
    order, each once.
   */
  method SortedSet(items: set<string>) returns (r: seq<string>)
    ensures StrictlyAscending(r)
    ensures forall x :: x in r <==> x in items
  {
    r := [];
    var rest := items;
    while rest != {}
      invariant StrictlyAscending(r)
      invariant forall x :: x in items <==> x in r || x in rest
      invariant forall x :: x in rest ==> x !in r
      invariant forall i, x :: 0 <= i < |r| && x in rest ==> Less(r[i], x)
      decreases |rest|
    {
      // The lemma shows a least element exists; the choice below picks it.
      ghost var least := LeastExists(rest);
      var m :| m in rest && forall x :: x in rest && x != m ==> Less(m, x);
      r := r + [m];
      rest := rest - {m};
    }
  }

  /** Two strictly ascending sequences with the same elements are the same sequence. */
  lemma {:induction false} AscendingUnique(a: seq<string>, b: seq<string>)
    requires StrictlyAscending(a) && StrictlyAscending(b)
    requires forall x :: x in a <==> x in b
    ensures a == b
  {
    assert a == [] <==> b == [] by {
      if a != [] { assert a[0] in b; }
      if b != [] { assert b[0] in a; }
    }
    if a != [] {
      if a[0] != b[0] {
        assert b[0] in b && a[0] in a;
        var i :| 0 <= i < |a| && a[i] == b[0];
        var j :| 0 <= j < |b| && b[j] == a[0];
        assert i != 0 && j != 0;
        assert Less(a[0], a[i]) && Less(b[0], b[j]);
        LessTransitive(a[0], b[0], a[0]);
        LessIrreflexive(a[0]);
      }
      forall x ensures x in a[1..] <==> x in b[1..] {
        if x in a[1..] {
          var i :| 1 <= i < |a| && a[i] == x;
          assert Less(a[0], x);
          if x == b[0] { LessIrreflexive(x); }
          assert x in b;
          var j :| 0 <= j < |b| && b[j] == x;
          assert j != 0;
        }
        if x in b[1..] {
          var j :| 1 <= j < |b| && b[j] == x;
          assert Less(b[0], x);
          if x == a[0] { LessIrreflexive(x); }
          assert x in a;
          var i :| 0 <= i < |a| && a[i] == x;
          assert i != 0;
        }
      }
      AscendingUnique(a[1..], b[1..]);
      assert a == [a[0]] + a[1..] && b == [b[0]] + b[1..];
    }
  }
}
