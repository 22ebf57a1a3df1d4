/**
  End-to-end behaviour of `render_template` on a template whose section
  markers share their lines with other text: the BEGIN marker is followed on
  its line by the first row and the END marker closes the template. Neither
  marker is alone on its line, so the first two cleanup passes leave them
  and the last two remove each marker without a line break.
 */
module InlineSections {
  import opened Wrappers
  import opened Strings
  import opened Template
  import opened Placeholders
  import opened Markers
  import opened Rendering

  /* ---------------------------------------------------------------------- */
  /* Scanning past a marker that does not match                              */
  /* ---------------------------------------------------------------------- */

  /** A text whose first `<` starts no match is kept up to its next `<`. */
  lemma RemoveMatchesKeepHead(u: string, v: string, open: string, tail: string)
    requires Opener(open) && u != [] && NoOpen(u[1..])
    requires MatchEnd(u + v, open, tail) == None
    ensures RemoveMatches(u + v, open, tail) == u + RemoveMatches(v, open, tail)
  {
    var s, h, w := u + v, [u[0]], RemoveMatches(v, open, tail);
    calc {
      RemoveMatches(s, open, tail);
      { assert s[0] == u[0] && s[1..] == u[1..] + v; }
      h + RemoveMatches(u[1..] + v, open, tail);
      { RemoveMatchesSkip(u[1..], v, open, tail); }
      h + (u[1..] + w);
      { ConcatAssoc(h, u[1..], w); }
      h + u[1..] + w;
      { assert h + u[1..] == u; }
      u + w;
    }
  }

  /** A pattern ending in a line break matches nowhere in a text without one. */
  lemma NoBreakNoLineMatch(w: string, open: string)
    requires '\n' !in w
    ensures MatchEnd(w, open, LineTail) == None
  {
    forall j ensures !OccursAt(w, LineTail, j) {
      OccursAtChars(w, LineTail, j);
      if 0 <= j && j + 5 <= |w| {
        assert w[j + 4] in w;
      }
    }
  }

  /**
    `v` starts a new line and has no `>` among its next three characters,
    so no ` -->` can end a line within reach of it.
   */
  predicate BreakAhead(v: string) {
    v != [] && v[0] == '\n' && forall k :: 1 <= k < 4 && k < |v| ==> v[k] != '>'
  }

  /**
    A line that does not end in `>` holds no ` -->` just before its line
    break, so the greedy ` -->\n` pattern has nothing to end at.
   */
  lemma NoLineMatch(u: string, v: string, open: string)
    requires |open| <= |u| && forall k :: |open| <= k < |u| ==> u[k] != '\n'
    requires u != [] && u[|u| - 1] != '>'
    requires BreakAhead(v)
    ensures MatchEnd(u + v, open, LineTail) == None
  {
    var s := u + v;
    var l := |u|;
    assert s[l] == '\n';
    LineEndAt(s, |open|, l);
    forall j | |open| + 1 <= j <= l ensures !OccursAt(s, LineTail, j) {
      OccursAtChars(s, LineTail, j);
      if j + 4 < l {
        assert s[j + 4] == u[j + 4];
      } else if j + 4 == l {
        assert s[j + 3] == u[l - 1];
      } else if j + 5 <= |s| {
        assert s[j + 3] == v[j + 3 - l];
      }
    }
  }

  /** A first line made of characters other than `>` holds no ` -->`. */
  lemma FirstLineTailFree(u: string, v: string)
    requires forall k :: 0 <= k < |u| ==> u[k] != '\n' && u[k] != '>'
    requires BreakAhead(v)
    ensures TailFreeFirstLine(u + v)
  {
    var s := u + v;
    assert s[|u|] == '\n';
    LineEndAt(s, 0, |u|);
    forall j | 0 <= j <= |u| ensures !OccursAt(s, Tail, j) {
      OccursAtChars(s, Tail, j);
      if j + 3 < |u| {
        assert s[j + 3] == u[j + 3];
      } else if j + 4 <= |s| {
        assert s[j + 3] == v[j + 3 - |u|];
      }
    }
  }

  /* ---------------------------------------------------------------------- */
  /* The four passes                                                         */
  /* ---------------------------------------------------------------------- */

  /**
    The rows of an inline block render to text with no `<` or `>` that does
    not start with a line break but holds one: the first row shares the
    BEGIN marker's line and the END marker follows the last line break.
   */
  predicate InlineRows(j: string) {
    NoOpen(j) && '>' !in j && j != [] && j[0] != '\n' && '\n' in j
  }

  /** Marker names that keep a marker to one line and its `<` at its start. */
  predicate PlainName(name: string) {
    NoOpen(name) && name != [] && '\n' !in name
  }

  lemma EndMarkerStart(name: string)
    ensures |EndMarker(name)| > 3
    ensures EndMarker(name)[0] == '<' && EndMarker(name)[1] == '!' && EndMarker(name)[2] == '-'
  {
    assert EndMarker(name) == EndOpen + name + Tail;
  }

  /** The rows' first line ends at a line break inside them and holds no `>`. */
  lemma RowsFirstLine(j: string, l: nat)
    requires InlineRows(j) && l == LineEnd(j, 0)
    ensures 0 < l < |j|
    ensures forall k :: 0 <= k < l ==> j[..l][k] != '\n' && j[..l][k] != '>'
  {
    RowsLineEnds(j, l);
    forall k | 0 <= k < l ensures j[..l][k] != '\n' && j[..l][k] != '>' {
      CharAbsent(j, '>', k);
      assert j[..l][k] == j[k];
    }
  }

  /** The rows' first line is not empty and ends before the rows do. */
  lemma RowsLineEnds(j: string, l: nat)
    requires InlineRows(j) && l == LineEnd(j, 0)
    ensures 0 < l < |j|
  {
    var k :| 0 <= k < |j| && j[k] == '\n';
    assert l <= k;
  }

  lemma CharAbsent(s: string, c: char, k: nat)
    requires c !in s && k < |s|
    ensures s[k] != c
  {
    assert s[k] in s;
  }

  /** The text after the first line of the rows, END marker included, starts a new line. */
  lemma RowsBreak(j: string, name: string, l: nat)
    requires InlineRows(j) && 0 < l < |j| && j[l] == '\n'
    ensures BreakAhead(j[l..] + EndMarker(name))
  {
    var e := EndMarker(name);
    var v := j[l..] + e;
    EndMarkerStart(name);
    forall i | 1 <= i < 4 && i < |v| ensures v[i] != '>' {
      if l + i < |j| {
        assert v[i] == j[l + i] && j[l + i] in j;
      } else {
        assert v[i] == e[l + i - |j|];
      }
    }
  }

  /** A marker that starts no match of the pattern is kept as it is. */
  lemma MarkerKept(e: string, open: string, tail: string)
    requires Opener(open) && e != [] && NoOpen(e[1..])
    requires MatchEnd(e, open, tail) == None
    ensures RemoveMatches(e, open, tail) == e
  {
    assert e + [] == e;
    RemoveMatchesKeepHead(e, [], open, tail);
  }

  /** Splits a text at an index; kept apart, like the regrouping lemmas below, so that sequence associativity stays out of the larger proofs. */
  lemma SplitAt(j: string, l: nat)
    requires l <= |j|
    ensures j[..l] + j[l..] == j
  {
  }

  lemma RegroupLine(b: string, p: string, q: string, e: string)
    ensures (b + p) + (q + e) == b + (p + q + e)
  {
  }

  lemma RegroupMarker(x: string, o: string, n: string, t: string, y: string)
    ensures x + ((o + n + t) + y) == x + o + n + t + y
  {
  }

  /** Only the name of a BEGIN marker can hold a line break after its opening. */
  lemma BeginMarkerLine(name: string)
    requires '\n' !in name
    ensures forall k :: |BeginOpen| <= k < |BeginMarker(name)| ==> BeginMarker(name)[k] != '\n'
  {
    var b := BeginMarker(name);
    assert b == BeginOpen + name + Tail;
    forall k | |BeginOpen| <= k < |b| ensures b[k] != '\n' {
      if k < |BeginOpen| + |name| {
        assert b[k] == name[k - |BeginOpen|];
      } else {
        assert b[k] == Tail[k - |BeginOpen| - |name|];
      }
    }
  }

  /** The BEGIN marker's line ends in a row, not in ` -->`, so pass 1 does not match there. */
  lemma BeginLineNoMatch(name: string, j: string)
    requires PlainName(name) && InlineRows(j)
    ensures MatchEnd(BeginMarker(name) + (j + EndMarker(name)), BeginOpen, LineTail) == None
  {
    var b, e := BeginMarker(name), EndMarker(name);
    var l := LineEnd(j, 0);
    RowsFirstLine(j, l);
    RowsBreak(j, name, l);
    var p := j[..l];
    var u := b + p;
    BeginMarkerLine(name);
    assert forall k :: |BeginOpen| <= k < |u| ==> u[k] != '\n' by {
      forall k | |b| <= k < |u| ensures u[k] == p[k - |b|] {
      }
    }
    assert l > 0 by {
      assert j[0] != '\n';
    }
    assert u[|u| - 1] == p[l - 1];
    NoLineMatch(u, j[l..] + e, BeginOpen);
    RegroupLine(b, p, j[l..], e);
    SplitAt(j, l);
  }

  /** Pass 1 leaves a block with inline markers as it is. */
  lemma FirstPassKeeps(x: string, name: string, j: string)
    requires NoOpen(x) && PlainName(name) && InlineRows(j)
    ensures var r := BeginMarker(name) + (j + EndMarker(name));
      RemoveMatches(x + r, BeginOpen, LineTail) == x + r
  {
    var b, e := BeginMarker(name), EndMarker(name);
    BeginMarkerShape(name);
    EndMarkerShape(name);
    BeginLineNoMatch(name, j);
    OtherMarker(e, BeginOpen, LineTail);
    RemoveMatchesSkip(x, b + (j + e), BeginOpen, LineTail);
    RemoveMatchesKeepHead(b, j + e, BeginOpen, LineTail);
    RemoveMatchesSkip(j, e, BeginOpen, LineTail);
    MarkerKept(e, BeginOpen, LineTail);
  }

  /** Pass 2 leaves it as it is too: no line break follows the END marker. */
  lemma SecondPassKeeps(x: string, name: string, j: string)
    requires NoOpen(x) && PlainName(name) && InlineRows(j)
    ensures var r := BeginMarker(name) + (j + EndMarker(name));
      RemoveMatches(x + r, EndOpen, LineTail) == x + r
  {
    var b, e := BeginMarker(name), EndMarker(name);
    BeginMarkerShape(name);
    EndMarkerShape(name);
    OtherMarker(b + (j + e), EndOpen, LineTail);
    assert '\n' !in e by {
      assert e == EndOpen + name + Tail;
    }
    NoBreakNoLineMatch(e, EndOpen);
    RemoveMatchesSkip(x, b + (j + e), EndOpen, LineTail);
    RemoveMatchesKeepHead(b, j + e, EndOpen, LineTail);
    RemoveMatchesSkip(j, e, EndOpen, LineTail);
    MarkerKept(e, EndOpen, LineTail);
  }

  /** On the rows' first line, ahead of the END marker, there is no ` -->`. */
  lemma RowsTailFree(name: string, j: string)
    requires PlainName(name) && InlineRows(j)
    ensures TailFreeFirstLine(j + EndMarker(name))
  {
    var e := EndMarker(name);
    var l := LineEnd(j, 0);
    RowsFirstLine(j, l);
    RowsBreak(j, name, l);
    FirstLineTailFree(j[..l], j[l..] + e);
    SplitAt(j, l);
    ConcatAssoc(j[..l], j[l..], e);
  }

  /** Pass 3 leaves the rows and the END marker alone. */
  lemma RowsAndEndKept(name: string, j: string)
    requires PlainName(name) && InlineRows(j)
    ensures RemoveMatches(j + EndMarker(name), BeginOpen, Tail) == j + EndMarker(name)
  {
    var e := EndMarker(name);
    EndMarkerShape(name);
    OtherMarker(e, BeginOpen, Tail);
    RemoveMatchesSkip(j, e, BeginOpen, Tail);
    MarkerKept(e, BeginOpen, Tail);
  }

  /** Pass 3 removes the BEGIN marker up to its own ` -->`. */
  lemma ThirdPassRemoves(x: string, name: string, j: string)
    requires NoOpen(x) && PlainName(name) && InlineRows(j)
    ensures var r := BeginMarker(name) + (j + EndMarker(name));
      RemoveMatches(x + r, BeginOpen, Tail) == x + (j + EndMarker(name))
  {
    var y := j + EndMarker(name);
    calc {
      RemoveMatches(x + (BeginMarker(name) + y), BeginOpen, Tail);
      { assert BeginMarker(name) == BeginOpen + name + Tail;
        RegroupMarker(x, BeginOpen, name, Tail, y); }
      RemoveMatches(x + BeginOpen + name + Tail + y, BeginOpen, Tail);
      { RowsTailFree(name, j);
        InlineMarkerRemoved(x, BeginOpen, name, y); }
      x + RemoveMatches(y, BeginOpen, Tail);
      { RowsAndEndKept(name, j); }
      x + y;
    }
  }

  /** Pass 4 removes the END marker that closes the text. */
  lemma FourthPassRemoves(x: string, name: string, j: string)
    requires NoOpen(x) && PlainName(name) && InlineRows(j)
    ensures RemoveMatches(x + (j + EndMarker(name)), EndOpen, Tail) == x + j
  {
    var e, y: string := EndMarker(name), [];
    calc {
      RemoveMatches(x + (j + e), EndOpen, Tail);
      { ConcatAssoc(x, j, e); }
      RemoveMatches((x + j) + e, EndOpen, Tail);
      { assert e == EndOpen + name + Tail + y;
        MarkerRegroup(x + j, EndOpen, name, Tail, y); }
      RemoveMatches((x + j) + EndOpen + name + Tail + y, EndOpen, Tail);
      { assert TailFreeFirstLine(y);
        InlineMarkerRemoved(x + j, EndOpen, name, y); }
      (x + j) + RemoveMatches(y, EndOpen, Tail);
      { assert (x + j) + y == x + j; }
      x + j;
    }
  }

  /** The cleanup removes both inline markers and keeps the rows as they are. */
  lemma CleanupInlineBlock(x: string, name: string, j: string)
    requires NoOpen(x) && PlainName(name) && InlineRows(j)
    ensures Cleanup(x + BeginMarker(name) + j + EndMarker(name)) == x + j
  {
    var b, e := BeginMarker(name), EndMarker(name);
    assert x + b + j + e == x + (b + (j + e));
    FirstPassKeeps(x, name, j);
    SecondPassKeeps(x, name, j);
    ThirdPassRemoves(x, name, j);
    FourthPassRemoves(x, name, j);
  }

  /**
    A block whose rows hold no line break, the empty block included, leaves
    BEGIN marker, rows and END marker on the last line. The first two passes
    need a line break and change nothing; the third matches from the BEGIN
    marker up to the last ` -->`, which closes the END marker, so the rows
    are removed together with both markers.
   */
  lemma CleanupOneLineBlock(x: string, name: string, j: string)
    requires NoOpen(x) && PlainName(name) && '\n' !in j
    ensures Cleanup(x + BeginMarker(name) + j + EndMarker(name)) == x
  {
    var b, e := BeginMarker(name), EndMarker(name);
    var z := b + j + e;
    assert x + b + j + e == x + z;
    assert b == BeginOpen + name + Tail && e == EndOpen + name + Tail;
    assert '\n' !in z;
    assert OccursAt(z, BeginOpen, 0) by {
      assert z[..|BeginOpen|] == BeginOpen;
    }
    assert OccursAt(z, Tail, |z| - 4) by {
      assert z[|z| - 4..] == e[|e| - 4..] == Tail;
    }
    RemoveMatchesSkip(x, z, BeginOpen, LineTail);
    RemoveMatchesNoBreak(z, BeginOpen);
    RemoveMatchesSkip(x, z, EndOpen, LineTail);
    RemoveMatchesNoBreak(z, EndOpen);
    InlineToEndRemoved(x, z);
    RemoveMatchesSkip(x, [], EndOpen, Tail);
    assert x + [] == x;
  }

  /* ---------------------------------------------------------------------- */
  /* End to end                                                              */
  /* ---------------------------------------------------------------------- */

  /**
    A template that, after substitution, ends in one section whose BEGIN
    marker is followed on its line by the block text and whose END marker
    closes the template renders as the text before the section followed by
    the rows concatenated in list order; both markers disappear.
   */
  lemma RenderInlineSection(template: string, variables: Bindings, name: string, rows: seq<Bindings>,
                            x: string, m: string)
    requires Substitute(template, variables) == x + BeginMarker(name) + m + EndMarker(name)
    requires NoOpen(x) && NoOpen(m) && PlainName(name)
    requires InlineRows(Join(Instances(m, rows)))
    ensures Rendered(template, variables, [(name, rows)]) == x + Join(Instances(m, rows))
  {
    var b, e := BeginMarker(name), EndMarker(name);
    var j := Join(Instances(m, rows));
    var t := x + b + m + e;
    InlineSpliced(x, name, m, rows);
    calc {
      Rendered(template, variables, [(name, rows)]);
      Cleanup(ExpandAll(t, [(name, rows)]));
      { ExpandOne(t, name, rows); }
      Cleanup(Splice(t, b, e, rows));
      Cleanup(x + b + j + e);
      { CleanupInlineBlock(x, name, j); }
      x + j;
    }
  }

  /**
    A template ending in such a section whose rows hold no line break, in
    particular one whose list is empty, renders as the text before the
    section alone: the rows go with the markers.
   */
  lemma RenderInlineOneLine(template: string, variables: Bindings, name: string, rows: seq<Bindings>,
                            x: string, m: string)
    requires Substitute(template, variables) == x + BeginMarker(name) + m + EndMarker(name)
    requires NoOpen(x) && NoOpen(m) && PlainName(name)
    requires '\n' !in Join(Instances(m, rows))
    ensures Rendered(template, variables, [(name, rows)]) == x
  {
    var b, e := BeginMarker(name), EndMarker(name);
    var j := Join(Instances(m, rows));
    var t := x + b + m + e;
    InlineSpliced(x, name, m, rows);
    ExpandOne(t, name, rows);
    CleanupOneLineBlock(x, name, j);
  }

  /** An empty list renders such a section as nothing. */
  lemma RenderInlineEmpty(template: string, variables: Bindings, name: string, x: string, m: string)
    requires Substitute(template, variables) == x + BeginMarker(name) + m + EndMarker(name)
    requires NoOpen(x) && NoOpen(m) && PlainName(name)
    ensures Rendered(template, variables, [(name, [])]) == x
  {
    assert Instances(m, []) == [];
    assert Join([]) == "";
    RenderInlineOneLine(template, variables, name, [], x, m);
  }

  /** The section is the only block, so the splice fills it in place. */
  lemma InlineSpliced(x: string, name: string, m: string, rows: seq<Bindings>)
    requires NoOpen(x) && NoOpen(m) && PlainName(name)
    ensures var b, e := BeginMarker(name), EndMarker(name);
      Splice(x + b + m + e, b, e, rows) == x + b + Join(Instances(m, rows)) + e
  {
    var b, e := BeginMarker(name), EndMarker(name);
    var j := Join(Instances(m, rows));
    var t := x + b + m + e;
    SectionMarkers(name);
    assert !Contains([], b + m + e);
    assert t + [] == t;
    SpliceSection(x, b, m, e, [], rows);
    assert x + b + j + e + [] == x + b + j + e;
  }

  /** With one list, expansion is one splice. */
  lemma ExpandOne(text: string, name: string, rows: seq<Bindings>)
    ensures ExpandAll(text, [(name, rows)]) == Splice(text, BeginMarker(name), EndMarker(name), rows)
  {
    assert [(name, rows)][..0] == [];
  }

  lemma FlattenFive(a: Piece, b: Piece, c: Piece, d: Piece, e: Piece)
    ensures Flatten([a, b, c, d, e])
         == PieceText(a) + PieceText(b) + PieceText(c) + PieceText(d) + PieceText(e)
  {
    var ta, tb, tc, td, te := PieceText(a), PieceText(b), PieceText(c), PieceText(d), PieceText(e);
    FlattenNested(a, b, c, d, e);
    calc {
      Flatten([a, b, c, d, e]);
      ta + (tb + (tc + (td + te)));
      { ConcatAssoc(tc, td, te); }
      ta + (tb + ((tc + td) + te));
      { ConcatAssoc(tb, tc + td, te); ConcatAssoc(tb, tc, td); }
      ta + (((tb + tc) + td) + te);
      { ConcatAssoc(ta, (tb + tc) + td, te); ConcatAssoc(ta, tb + tc, td); ConcatAssoc(ta, tb, tc); }
      ta + tb + tc + td + te;
    }
  }

  lemma FlattenNested(a: Piece, b: Piece, c: Piece, d: Piece, e: Piece)
    ensures Flatten([a, b, c, d, e])
         == PieceText(a) + (PieceText(b) + (PieceText(c) + (PieceText(d) + PieceText(e))))
  {
    assert Flatten([e]) == PieceText(e) by {
      assert [e][1..] == [];
      assert PieceText(e) + [] == PieceText(e);
    }
    FlattenCons([d, e], [e]);
    FlattenCons([c, d, e], [d, e]);
    FlattenCons([b, c, d, e], [c, d, e]);
    FlattenCons([a, b, c, d, e], [b, c, d, e]);
  }

  lemma FlattenCons(ps: seq<Piece>, rest: seq<Piece>)
    requires ps != [] && ps[1..] == rest
    ensures Flatten(ps) == PieceText(ps[0]) + Flatten(rest)
  {
  }

  /** One row: a placeholder and a line break, filled with the row's value. */
  lemma PlaceholderLine(key: string, f: string)
    requires BraceFree(key)
    ensures Substitute(Placeholder(key) + "\n", [(key, f)]) == f + "\n"
  {
    var ps := [Hole(key), Lit("\n")];
    assert ps[1..] == [Lit("\n")] && ps[1..][1..] == [];
    assert Flatten(ps) == Placeholder(key) + "\n" by {
      assert Flatten([Lit("\n")]) == "\n" + [];
      assert "\n" + [] == "\n";
    }
    assert [(key, f)][..0] == [];
    ReplacePieces(ps, key, f);
    var qs := Fill(ps, key, f);
    assert qs == [Lit(f), Lit("\n")];
    assert qs[1..] == [Lit("\n")] && qs[1..][1..] == [];
  }

  lemma JoinTwo(a: string, b: string)
    ensures Join([a, b]) == a + b
  {
    assert [a, b][..1] == [a];
    assert [a][..0] == [];
    assert Join([a]) == [] + a;
    assert [] + a == a;
  }

  lemma RegroupTemplate(h: string, v: string, b: string, p: string, e: string)
    ensures h + v + ("\n" + b) + p + ("\n" + e) == (h + v + "\n") + b + (p + "\n") + e
  {
  }

  /** One placeholder filled in a text of five pieces, the other left. */
  lemma FillFirstOfTwo(h: string, k1: string, v: string, c: string, k2: string, d: string)
    requires BraceFree(h) && BraceFree(k1) && BraceFree(k2) && k1 != k2 && BraceFree(v)
    requires BraceFree(c) && BraceFree(d)
    ensures Replace(h + Placeholder(k1) + c + Placeholder(k2) + d, Placeholder(k1), v)
         == h + v + c + Placeholder(k2) + d
  {
    var ps := [Lit(h), Hole(k1), Lit(c), Hole(k2), Lit(d)];
    FlattenFive(Lit(h), Hole(k1), Lit(c), Hole(k2), Lit(d));
    ReplacePieces(ps, k1, v);
    assert Fill(ps, k1, v) == [Lit(h), Lit(v), Lit(c), Hole(k2), Lit(d)];
    FlattenFive(Lit(h), Lit(v), Lit(c), Hole(k2), Lit(d));
  }

  /** A marker on a line of its own has no braces when its name has none. */
  lemma MarkerLinesBraceFree(name: string)
    requires BraceFree(name)
    ensures BraceFree("\n" + BeginMarker(name)) && BraceFree("\n" + EndMarker(name))
  {
    BeginBraceFree(name);
    EndBraceFree(name);
    assert BraceFree("\n");
    BraceFreeConcat("\n", BeginMarker(name));
    BraceFreeConcat("\n", EndMarker(name));
  }

  lemma BeginBraceFree(name: string)
    requires BraceFree(name)
    ensures BraceFree(BeginMarker(name))
  {
    assert BraceFree("<!-- BEGIN ") && BraceFree(" -->");
    BraceFreeConcat("<!-- BEGIN ", name);
    BraceFreeConcat("<!-- BEGIN " + name, " -->");
  }

  lemma EndBraceFree(name: string)
    requires BraceFree(name)
    ensures BraceFree(EndMarker(name))
  {
    assert BraceFree("<!-- END ") && BraceFree(" -->");
    BraceFreeConcat("<!-- END ", name);
    BraceFreeConcat("<!-- END " + name, " -->");
  }

  lemma BraceFreeConcat(a: string, b: string)
    requires BraceFree(a) && BraceFree(b)
    ensures BraceFree(a + b)
  {
    forall i | 0 <= i < |a + b| ensures (a + b)[i] != '{' && (a + b)[i] != '}' {
      if i < |a| {
        assert (a + b)[i] == a[i];
      } else {
        assert (a + b)[i] == b[i - |a|];
      }
    }
  }

  /** A single binding is a single replacement. */
  lemma SubstituteOne(text: string, key: string, value: string)
    ensures Substitute(text, [(key, value)]) == Replace(text, Placeholder(key), value)
  {
    assert [(key, value)][..0] == [];
  }

  /** The example's template after its one variable is substituted. */
  lemma ExampleSubstituted(h: string, k1: string, v: string, name: string, k2: string)
    requires BraceFree(h) && BraceFree(k1) && BraceFree(k2) && k1 != k2 && BraceFree(v)
    requires BraceFree(name)
    ensures var b, e := BeginMarker(name), EndMarker(name);
      Substitute(h + Placeholder(k1) + ("\n" + b) + Placeholder(k2) + ("\n" + e), [(k1, v)])
        == (h + v + "\n") + b + (Placeholder(k2) + "\n") + e
  {
    var b, e, p := BeginMarker(name), EndMarker(name), Placeholder(k2);
    MarkerLinesBraceFree(name);
    var text := h + Placeholder(k1) + ("\n" + b) + p + ("\n" + e);
    calc {
      Substitute(text, [(k1, v)]);
      { SubstituteOne(text, k1, v); }
      Replace(text, Placeholder(k1), v);
      { FillFirstOfTwo(h, k1, v, "\n" + b, k2, "\n" + e); }
      h + v + ("\n" + b) + p + ("\n" + e);
      { RegroupTemplate(h, v, b, p, e); }
      (h + v + "\n") + b + (p + "\n") + e;
    }
  }

  /** The example's two rows, each its value and a line break. */
  lemma ExampleRows(k2: string, f1: string, f2: string)
    requires BraceFree(k2)
    ensures Join(Instances(Placeholder(k2) + "\n", [[(k2, f1)], [(k2, f2)]])) == f1 + "\n" + (f2 + "\n")
  {
    var m := Placeholder(k2) + "\n";
    PlaceholderLine(k2, f1);
    PlaceholderLine(k2, f2);
    assert Instances(m, [[(k2, f1)], [(k2, f2)]]) == [f1 + "\n", f2 + "\n"];
    JoinTwo(f1 + "\n", f2 + "\n");
  }

  /**
    The worked example of the renderer, with its strings as parameters: a
    label `h`, a placeholder `{{k1}}` bound to `v`, a line break, then a
    block named `name` that opens on the line of its first row, holds
    `{{k2}}` and a line break, and closes the template; two rows bind `k2`
    to `f1` and `f2`. The result is the label and `v` on the first line and
    one line per row, the markers gone. With `h = "Name: "`,
    `k1 = "model_name"`, `v = "X"`, `name = "FILES"`, `k2 = "file_name"`,
    `f1 = "a.safetensors"` and `f2 = "b.safetensors"` this is
    `Name: X\na.safetensors\nb.safetensors\n`.
   */
  lemma FilesExample(h: string, k1: string, v: string, name: string, k2: string, f1: string, f2: string)
    requires BraceFree(h) && NoOpen(h) && BraceFree(k1) && BraceFree(k2) && NoOpen(k2) && k1 != k2
    requires BraceFree(v) && NoOpen(v)
    requires BraceFree(name) && PlainName(name)
    requires NoOpen(f1) && '>' !in f1 && '\n' !in f1 && f1 != []
    requires NoOpen(f2) && '>' !in f2
    ensures Rendered(h + Placeholder(k1) + ("\n" + BeginMarker(name)) + Placeholder(k2) + ("\n" + EndMarker(name)),
                     [(k1, v)],
                     [(name, [[(k2, f1)], [(k2, f2)]])])
         == h + v + "\n" + (f1 + "\n" + (f2 + "\n"))
  {
    var x, m := h + v + "\n", Placeholder(k2) + "\n";
    var rows := [[(k2, f1)], [(k2, f2)]];
    var j := f1 + "\n" + (f2 + "\n");
    ExampleSubstituted(h, k1, v, name, k2);
    ExampleRows(k2, f1, f2);
    assert InlineRows(j) by {
      assert j[0] == f1[0] && f1[0] in f1;
      assert j[|f1|] == '\n';
    }
    assert NoOpen(m) by {
      assert m == "{{" + k2 + "}}" + "\n";
    }
    RenderInlineSection(h + Placeholder(k1) + ("\n" + BeginMarker(name)) + Placeholder(k2) + ("\n" + EndMarker(name)),
                        [(k1, v)], name, rows, x, m);
  }
}
