/**
  End-to-end behaviour of `render_template` on a template with one repeated
  section whose markers sit on lines of their own.
 */
module Rendering {
  import opened Strings
  import opened Template
  import opened Blocks
  import opened Markers

  /* ---------------------------------------------------------------------- */
  /* Character bookkeeping                                                   */
  /* ---------------------------------------------------------------------- */

  lemma {:induction false} ReplaceChars(s: string, p: string, r: string)
    requires p != []
    ensures forall c :: c in Replace(s, p, r) ==> c in s || c in r
    decreases |s|
  {
    if |s| >= |p| {
      if s[..|p|] == p {
        ReplaceChars(s[|p|..], p, r);
        assert forall c :: c in s[|p|..] ==> c in s;
      } else {
        ReplaceChars(s[1..], p, r);
        assert forall c :: c in s[1..] ==> c in s;
      }
    }
  }

  /** No value of a binding contains `<`. */
  predicate ValuesNoOpen(vars: Bindings) {
    forall i :: 0 <= i < |vars| ==> NoOpen(vars[i].1)
  }

  predicate RowsNoOpen(rows: seq<Bindings>) {
    forall i :: 0 <= i < |rows| ==> ValuesNoOpen(rows[i])
  }

  lemma {:induction false} SubstituteNoOpen(text: string, vars: Bindings)
    requires NoOpen(text) && ValuesNoOpen(vars)
    ensures NoOpen(Substitute(text, vars))
    decreases |vars|
  {
    if vars != [] {
      var (key, value) := vars[|vars| - 1];
      SubstituteNoOpen(text, vars[..|vars| - 1]);
      ReplaceChars(Substitute(text, vars[..|vars| - 1]), Placeholder(key), value);
    }
  }

  lemma {:induction false} JoinNoOpen(parts: seq<string>)
    requires forall i :: 0 <= i < |parts| ==> NoOpen(parts[i])
    ensures NoOpen(Join(parts))
    decreases |parts|
  {
    if parts != [] {
      JoinNoOpen(parts[..|parts| - 1]);
    }
  }

  /** A text that does not start with `{` keeps its first character. */
  lemma {:induction false} SubstituteHead(text: string, vars: Bindings)
    requires text != [] && text[0] != '{'
    ensures Substitute(text, vars) != [] && Substitute(text, vars)[0] == text[0]
    decreases |vars|
  {
    if vars != [] {
      var (key, value) := vars[|vars| - 1];
      var s := Substitute(text, vars[..|vars| - 1]);
      SubstituteHead(text, vars[..|vars| - 1]);
      var p := Placeholder(key);
      assert p[0] == '{';
      if |s| >= |p| {
        assert s[..|p|][0] == s[0];
      }
    }
  }

  lemma {:induction false} JoinHead(parts: seq<string>)
    requires parts != [] && parts[0] != []
    ensures Join(parts) != [] && Join(parts)[0] == parts[0][0]
    decreases |parts|
  {
    if |parts| > 1 {
      JoinHead(parts[..|parts| - 1]);
    }
  }

  /* ---------------------------------------------------------------------- */
  /* Locating the markers                                                    */
  /* ---------------------------------------------------------------------- */

  /** Positions before `v` that hold no occurrence shift the first occurrence in `v`. */
  lemma FindAfter(u: string, v: string, p: string)
    requires forall j :: 0 <= j < |u| ==> !OccursAt(u + v, p, j)
    ensures Find(u + v, p) == if Find(v, p) == -1 then -1 else |u| + Find(v, p)
  {
    var s := u + v;
    assert s[|u|..] == v;
    forall j | |u| <= j ensures OccursAt(s, p, j) ==> OccursAt(v, p, j - |u|) {
      OccursFromSuffix(s, p, |u|, j);
    }
    var r := Find(v, p);
    if r == -1 {
      assert !Contains(s, p);
    } else {
      OccursInSuffix(s, p, |u|, r);
      FindIsFirst(s, p, |u| + r);
    }
  }

  /** A pattern starting with `<` cannot occur where there is no `<`. */
  lemma NoOpenNoOccurrence(u: string, v: string, p: string)
    requires Opener(p) && NoOpen(u)
    ensures forall j :: 0 <= j < |u| ==> !OccursAt(u + v, p, j)
  {
    forall j | 0 <= j < |u| ensures !OccursAt(u + v, p, j) {
      OccursAtChars(u + v, p, j);
      assert (u + v)[j] == u[j];
    }
  }

  lemma BeginMarkerShape(name: string)
    requires NoOpen(name)
    ensures BeginMarker(name) == "<" + BeginMarker(name)[1..]
    ensures NoOpen(BeginMarker(name)[1..])
    ensures |BeginMarker(name)| > 5 && BeginMarker(name)[5] == 'B'
    ensures BeginMarker(name) + "\n" == BeginOpen + name + LineTail
  {
    assert BeginMarker(name)[1..] == "!-- BEGIN " + name + " -->";
  }

  lemma EndMarkerShape(name: string)
    requires NoOpen(name)
    ensures EndMarker(name) == "<" + EndMarker(name)[1..]
    ensures NoOpen(EndMarker(name)[1..])
    ensures |EndMarker(name)| > 5 && EndMarker(name)[5] == 'E'
    ensures EndMarker(name) + "\n" == EndOpen + name + LineTail
  {
    assert EndMarker(name)[1..] == "!-- END " + name + " -->";
  }

  /* ---------------------------------------------------------------------- */
  /* The cleanup passes around one block                                     */
  /* ---------------------------------------------------------------------- */

  /** The first pass leaves an END marker line alone. */
  lemma EndLineKept(name: string, y: string)
    requires NoOpen(name)
    ensures RemoveMatches(EndMarker(name) + "\n" + y, BeginOpen, LineTail)
         == EndMarker(name) + "\n" + RemoveMatches(y, BeginOpen, LineTail)
  {
    var e := EndMarker(name);
    var w := e + "\n" + y;
    EndMarkerShape(name);
    assert w[5] == e[5];
    OtherMarker(w, BeginOpen, LineTail);
    assert w[1..] == (e[1..] + "\n") + y;
    assert NoOpen(e[1..] + "\n");
    var h, rest := [e[0]], RemoveMatches(y, BeginOpen, LineTail);
    calc {
      RemoveMatches(w, BeginOpen, LineTail);
      { assert w[0] == e[0]; }
      h + RemoveMatches(w[1..], BeginOpen, LineTail);
      { RemoveMatchesSkip(e[1..] + "\n", y, BeginOpen, LineTail); }
      h + ((e[1..] + "\n") + rest);
      { ConcatAssoc(h, e[1..] + "\n", rest); }
      h + (e[1..] + "\n") + rest;
      { ConcatAssoc(h, e[1..], "\n");
        assert h + e[1..] == e; }
      e + "\n" + rest;
    }
  }

  /** The first pass removes the BEGIN marker line and keeps the END marker line. */
  lemma BlockFirstPass(x: string, name: string, body: string, y: string)
    requires NoOpen(x) && NoOpen(body) && NoOpen(name)
    requires name != [] && '\n' !in name
    ensures RemoveMatches(x + BeginMarker(name) + ("\n" + body) + EndMarker(name) + ("\n" + y), BeginOpen, LineTail)
         == x + body + EndMarker(name) + "\n" + RemoveMatches(y, BeginOpen, LineTail)
  {
    var b, e := BeginMarker(name), EndMarker(name);
    var w := body + (e + ("\n" + y));
    var rest := RemoveMatches(y, BeginOpen, LineTail);
    calc {
      RemoveMatches(x + b + ("\n" + body) + e + ("\n" + y), BeginOpen, LineTail);
      { RegroupFirst(x, b, "\n", body, e, "\n" + y); }
      RemoveMatches(x + (b + "\n") + w, BeginOpen, LineTail);
      { BeginMarkerShape(name);
        RegroupSecond(x, BeginOpen, name, LineTail, w); }
      RemoveMatches(x + BeginOpen + name + LineTail + w, BeginOpen, LineTail);
      { LineMarkerRemoved(x, BeginOpen, name, w); }
      x + RemoveMatches(w, BeginOpen, LineTail);
      { RemoveMatchesSkip(body, e + ("\n" + y), BeginOpen, LineTail); }
      x + (body + RemoveMatches(e + ("\n" + y), BeginOpen, LineTail));
      { ConcatAssoc(e, "\n", y);
        EndLineKept(name, y); }
      x + (body + (e + "\n" + rest));
      { RegroupTail(x, body, e, "\n", rest); }
      x + body + e + "\n" + rest;
    }
  }

  /** Regroups a concatenation; kept apart so that sequence associativity stays out of the larger proofs. */
  lemma RegroupTail(x: string, body: string, e: string, n: string, r: string)
    ensures x + (body + (e + n + r)) == x + body + e + n + r
  {
  }

  /** The second pass removes the END marker line. */
  lemma BlockSecondPass(x: string, name: string, body: string, y: string)
    requires NoOpen(x) && NoOpen(body) && NoOpen(name)
    requires name != [] && '\n' !in name
    ensures RemoveMatches(x + body + EndMarker(name) + "\n" + y, EndOpen, LineTail)
         == x + body + RemoveMatches(y, EndOpen, LineTail)
  {
    EndMarkerShape(name);
    assert x + body + EndMarker(name) + "\n" + y == (x + body) + EndOpen + name + LineTail + y;
    LineMarkerRemoved(x + body, EndOpen, name, y);
  }

  /** The four passes remove two marker lines and keep everything between them. */
  lemma CleanupBlock(x: string, name: string, body: string, y: string)
    requires NoOpen(x) && NoOpen(body) && NoOpen(name)
    requires name != [] && '\n' !in name
    ensures Cleanup(x + BeginMarker(name) + ("\n" + body) + EndMarker(name) + ("\n" + y))
         == x + body + Cleanup(y)
  {
    var y1 := RemoveMatches(y, BeginOpen, LineTail);
    var y2 := RemoveMatches(y1, EndOpen, LineTail);
    var y3 := RemoveMatches(y2, BeginOpen, Tail);
    BlockFirstPass(x, name, body, y);
    BlockSecondPass(x, name, body, y1);
    RemoveMatchesSkip(x + body, y2, BeginOpen, Tail);
    RemoveMatchesSkip(x + body, y3, EndOpen, Tail);
  }

  /**
    A block whose list is empty leaves BEGIN and END markers side by side
    on one line; the first pass removes that whole line.
   */
  lemma CleanupEmptyBlock(x: string, name: string, y: string)
    requires NoOpen(x) && NoOpen(name)
    requires name != [] && '\n' !in name
    ensures Cleanup(x + BeginMarker(name) + EndMarker(name) + ("\n" + y)) == x + Cleanup(y)
  {
    var line := name + Tail + EndOpen + name;
    assert '\n' !in line by {
      assert forall c :: c in line ==> c in name || c in Tail + EndOpen;
    }
    assert x + BeginMarker(name) + EndMarker(name) + ("\n" + y)
        == x + BeginOpen + line + LineTail + y;
    LineMarkerRemoved(x, BeginOpen, line, y);
    var y1 := RemoveMatches(y, BeginOpen, LineTail);
    var y2 := RemoveMatches(y1, EndOpen, LineTail);
    var y3 := RemoveMatches(y2, BeginOpen, Tail);
    RemoveMatchesSkip(x, y1, EndOpen, LineTail);
    RemoveMatchesSkip(x, y2, BeginOpen, Tail);
    RemoveMatchesSkip(x, y3, EndOpen, Tail);
  }

  /* ---------------------------------------------------------------------- */
  /* One section, end to end                                                 */
  /* ---------------------------------------------------------------------- */

  /** A section whose markers sit on lines of their own, after substitution. */
  function SectionText(x: string, name: string, inner: string, y: string): string {
    x + BeginMarker(name) + ("\n" + inner) + EndMarker(name) + ("\n" + y)
  }

  /** Two distinct markers, each with a single `<` at its start. */
  predicate MarkerPair(b: string, e: string) {
    Opener(b) && Opener(e) && NoOpen(b[1..]) && |b| > 5 && |e| > 5 && b[5] != e[5]
  }

  /** Where each of five concatenated parts sits. */
  lemma ConcatParts(x: string, b: string, m: string, e: string, z: string)
    ensures var t := x + b + m + e + z;
      var i1, i2, i3 := |x| + |b|, |x| + |b| + |m|, |x| + |b| + |m| + |e|;
      && t[..|x|] == x && t[|x|..i1] == b && t[i1..i2] == m && t[i2..i3] == e && t[i3..] == z
      && (forall j :: 0 <= j < |x| ==> t[j] == x[j])
      && (forall j :: |x| <= j < i1 ==> t[j] == b[j - |x|])
      && (forall j :: i1 <= j < i2 ==> t[j] == m[j - i1])
  {
  }

  lemma RegroupBlock(x: string, b: string, m: string, e: string, z: string)
    ensures x + (b + m + e) + z == x + b + m + e + z
  {
  }

  lemma RegroupPairs(a: string, b: string, c: string, d: string)
    ensures (a + b) + (c + d) == a + (b + c + d)
  {
  }

  lemma RegroupFirst(x: string, b: string, n: string, m: string, e: string, z: string)
    ensures x + b + (n + m) + e + z == x + (b + n) + (m + (e + z))
  {
  }

  lemma RegroupSecond(x: string, o: string, k: string, l: string, w: string)
    ensures x + (o + k + l) + w == x + o + k + l + w
  {
  }

  /** A pattern starting with `<` is first found at the first `<` where it occurs. */
  lemma FindAtFirstOpen(t: string, p: string, k: nat)
    requires Opener(p) && OccursAt(t, p, k)
    requires forall j :: 0 <= j < k ==> t[j] != '<'
    ensures Find(t, p) == k
  {
    forall j | 0 <= j < k ensures !OccursAt(t, p, j) {
      OccursAtChars(t, p, j);
    }
    FindIsFirst(t, p, k);
  }

  /** Both markers are found where the section puts them. */
  lemma MarkersFound(x: string, b: string, m: string, e: string, z: string)
    requires MarkerPair(b, e) && NoOpen(x) && NoOpen(m)
    ensures Find(x + b + m + e + z, b) == |x|
    ensures Find(x + b + m + e + z, e) == |x| + |b| + |m|
  {
    var t := x + b + m + e + z;
    var i1, i2 := |x| + |b|, |x| + |b| + |m|;
    ConcatParts(x, b, m, e, z);
    FindAtFirstOpen(t, b, |x|);
    forall j | 0 <= j < i2 ensures !OccursAt(t, e, j) {
      OccursAtChars(t, e, j);
      if j == |x| {
        assert t[j + 5] == b[5];
      } else if |x| < j < i1 {
        assert t[j] == b[1..][j - |x| - 1];
      }
    }
    FindIsFirst(t, e, i2);
  }

  /** The text after the END marker holds no second copy of the block. */
  lemma NoSecondCopy(b: string, rest: string, y: string)
    requires Opener(b) && !Contains(y, b)
    ensures !Contains("\n" + y, b + rest)
  {
    var block := b + rest;
    forall j ensures !OccursAt(y, block, j) {
      OccursPrefixOf(y, b, rest, j);
    }
    assert Find(y, block) == -1;
    forall j | 0 <= j < 1 ensures !OccursAt("\n" + y, block, j) {
      OccursAtChars("\n" + y, block, j);
      assert block[0] == b[0] == '<';
      assert ("\n" + y)[0] == '\n';
    }
    FindAfter("\n", y, block);
  }

  /** `SpliceExpands` with the pieces of the text named. */
  lemma SpliceRewrite(t: string, b: string, e: string, rows: seq<Bindings>, p: nat, q: nat,
                      x: string, m: string, z: string)
    requires b != [] && p == Find(t, b) && q == Find(t, e) && p + |b| <= q
    requires t[..p] == x && t[p + |b|..q] == m && t[q + |e|..] == z
    ensures Splice(t, b, e, rows)
         == x + (b + Join(Instances(m, rows)) + e) + Replace(z, b + m + e, b + Join(Instances(m, rows)) + e)
  {
    SpliceExpands(t, b, e, rows, p, q);
  }

  /** Expansion of one section: one copy of its body per row, the markers kept. */
  lemma SpliceSection(x: string, b: string, m: string, e: string, z: string, rows: seq<Bindings>)
    requires MarkerPair(b, e)
    requires NoOpen(x) && NoOpen(m)
    requires !Contains(z, b + m + e)
    ensures Splice(x + b + m + e + z, b, e, rows) == x + b + Join(Instances(m, rows)) + e + z
  {
    var t := x + b + m + e + z;
    var filled := b + Join(Instances(m, rows)) + e;
    ConcatParts(x, b, m, e, z);
    MarkersFound(x, b, m, e, z);
    SpliceRewrite(t, b, e, rows, |x|, |x| + |b| + |m|, x, m, z);
    ReplaceAbsent(z, b + m + e, filled);
    RegroupBlock(x, b, Join(Instances(m, rows)), e, z);
  }

  /** The section's markers are a marker pair. */
  lemma SectionMarkers(name: string)
    requires NoOpen(name)
    ensures MarkerPair(BeginMarker(name), EndMarker(name))
  {
    BeginMarkerShape(name);
    EndMarkerShape(name);
  }

  /** The rows of a section are the only list, so expansion is one splice. */
  lemma SectionExpanded(x: string, name: string, inner: string, y: string, rows: seq<Bindings>)
    requires NoOpen(x) && NoOpen(inner) && NoOpen(name)
    requires !Contains(y, BeginMarker(name))
    ensures ExpandAll(SectionText(x, name, inner, y), [(name, rows)])
         == x + BeginMarker(name) + Join(Instances("\n" + inner, rows)) + EndMarker(name) + ("\n" + y)
  {
    assert [(name, rows)][..0] == [];
    SectionMarkers(name);
    NoSecondCopy(BeginMarker(name), "\n" + inner + EndMarker(name), y);
    assert BeginMarker(name) + ("\n" + inner + EndMarker(name))
        == BeginMarker(name) + ("\n" + inner) + EndMarker(name);
    assert NoOpen("\n" + inner);
    SpliceSection(x, BeginMarker(name), "\n" + inner, EndMarker(name), "\n" + y, rows);
  }

  /** Python's `"\n".join(parts)`. */
  function JoinLines(parts: seq<string>): string
    decreases |parts|
  {
    if |parts| <= 1 then Join(parts)
    else JoinLines(parts[..|parts| - 1]) + "\n" + parts[|parts| - 1]
  }

  /** A placeholder never starts at a line break, so one in front passes through. */
  lemma {:induction false} SubstituteAfterBreak(text: string, vars: Bindings)
    ensures Substitute("\n" + text, vars) == "\n" + Substitute(text, vars)
    decreases |vars|
  {
    if vars != [] {
      var (key, value) := vars[|vars| - 1];
      var s := Substitute(text, vars[..|vars| - 1]);
      SubstituteAfterBreak(text, vars[..|vars| - 1]);
      var p := Placeholder(key);
      assert p[0] == '{';
      var t := "\n" + s;
      if |t| >= |p| {
        assert t[..|p|][0] == '\n';
        assert t[1..] == s;
      }
    }
  }

  /** Copies that each start with a line break join into the copies separated by line breaks. */
  lemma {:induction false} JoinedCopies(inner: string, rows: seq<Bindings>)
    ensures Join(Instances("\n" + inner, rows))
         == if rows == [] then "" else "\n" + JoinLines(Instances(inner, rows))
    decreases |rows|
  {
    if rows != [] {
      var n := |rows| - 1;
      var ps, qs := Instances("\n" + inner, rows), Instances(inner, rows);
      assert ps[..n] == Instances("\n" + inner, rows[..n]);
      assert qs[..n] == Instances(inner, rows[..n]);
      assert ps[n] == "\n" + qs[n] by {
        SubstituteAfterBreak(inner, rows[n]);
      }
      JoinedCopies(inner, rows[..n]);
      if n == 0 {
        calc {
          Join(ps);
          Join(ps[..0]) + ps[0];
          "\n" + qs[0];
          "\n" + (Join(qs[..0]) + qs[0]);
          "\n" + JoinLines(qs);
        }
      } else {
        JoinedCopiesStep(ps, qs, n);
      }
    }
  }

  /** One more copy: the step of `JoinedCopies`, on the lists alone. */
  lemma JoinedCopiesStep(ps: seq<string>, qs: seq<string>, n: nat)
    requires 0 < n && |ps| == n + 1 && |qs| == n + 1
    requires Join(ps[..n]) == "\n" + JoinLines(qs[..n]) && ps[n] == "\n" + qs[n]
    ensures Join(ps) == "\n" + JoinLines(qs)
  {
    calc {
      Join(ps);
      Join(ps[..n]) + ps[n];
      ("\n" + JoinLines(qs[..n])) + ("\n" + qs[n]);
      { RegroupPairs("\n", JoinLines(qs[..n]), "\n", qs[n]); }
      "\n" + (JoinLines(qs[..n]) + "\n" + qs[n]);
      "\n" + JoinLines(qs);
    }
  }

  /** The rendered rows have no `<`. */
  lemma RowsText(inner: string, rows: seq<Bindings>)
    requires NoOpen(inner) && RowsNoOpen(rows)
    ensures NoOpen(JoinLines(Instances(inner, rows)))
  {
    var parts := Instances("\n" + inner, rows);
    forall i | 0 <= i < |parts| ensures NoOpen(parts[i]) {
      SubstituteNoOpen("\n" + inner, rows[i]);
    }
    JoinNoOpen(parts);
    JoinedCopies(inner, rows);
    if rows != [] {
      assert forall c :: c in JoinLines(Instances(inner, rows)) ==> c in Join(parts);
    }
  }

  /**
    A section whose BEGIN and END markers each sit on a line of their own is
    rendered as one copy of the text between them per row, the copies
    separated by the line break that followed the BEGIN marker, and as
    nothing at all when its list is empty; the text before it is kept and
    the text after it goes through the cleanup passes on its own.
   */
  lemma RenderOneSection(template: string, variables: Bindings, name: string, rows: seq<Bindings>,
                         x: string, inner: string, y: string)
    requires Substitute(template, variables) == SectionText(x, name, inner, y)
    requires NoOpen(x) && NoOpen(inner) && NoOpen(name) && name != [] && '\n' !in name
    requires RowsNoOpen(rows)
    requires !Contains(y, BeginMarker(name))
    ensures Rendered(template, variables, [(name, rows)])
         == x + JoinLines(Instances(inner, rows)) + Cleanup(y)
  {
    var b, e := BeginMarker(name), EndMarker(name);
    var lines := JoinLines(Instances(inner, rows));
    SectionExpanded(x, name, inner, y, rows);
    JoinedCopies(inner, rows);
    RowsText(inner, rows);
    if rows == [] {
      assert x + b + "" == x + b;
      CleanupEmptyBlock(x, name, y);
    } else {
      CleanupBlock(x, name, lines, y);
    }
  }
}
