/**
  The Markdown template renderer (`render_template`): `{{key}}` placeholders
  are replaced by the string form of a value, `<!-- BEGIN NAME -->` ...
  `<!-- END NAME -->` blocks are repeated once per row of the list called
  NAME, and the marker comments are removed at the end by four regular
  expression passes.

  A Python dict is modelled by the sequence of its `items()` in iteration
  order; values are already converted with `str`.
 */
module Template {
  import opened Wrappers
  import opened Strings

  /** The `items()` of a dict of string keys and string values. */
  type Bindings = seq<(string, string)>

  /** The `items()` of the `lists` dict: section name and its rows. */
  type Sections = seq<(string, seq<Bindings>)>

  function Placeholder(key: string): (p: string)
    ensures |p| == |key| + 4
  {
    "{{" + key + "}}"
  }

  function BeginMarker(name: string): string {
    "<!-- BEGIN " + name + " -->"
  }

  function EndMarker(name: string): string {
    "<!-- END " + name + " -->"
  }

  /* ---------------------------------------------------------------------- */
  /* Step 1: placeholder substitution                                        */
  /* ---------------------------------------------------------------------- */

  /** Each binding in turn replaces every occurrence of its placeholder. */
  function Substitute(text: string, vars: Bindings): string
    decreases |vars|
  {
    if vars == [] then text
    else
      var (key, value) := vars[|vars| - 1];
      Replace(Substitute(text, vars[..|vars| - 1]), Placeholder(key), value)
  }

  /* ---------------------------------------------------------------------- */
  /* Step 2: block expansion                                                 */
  /* ---------------------------------------------------------------------- */

  /** One copy of the block body per row, with that row's keys substituted. */
  function Instances(body: string, rows: seq<Bindings>): (r: seq<string>)
    ensures |r| == |rows|
    ensures forall i :: 0 <= i < |rows| ==> r[i] == Substitute(body, rows[i])
    decreases |rows|
  {
    if rows == [] then []
    else Instances(body, rows[..|rows| - 1]) + [Substitute(body, rows[|rows| - 1])]
  }

  /**
    The text between the end of the first BEGIN marker at `b` and the first
    END marker at `e`; a Python slice whose start is past its stop is empty.
   */
  function Body(text: string, start: nat, e: nat): string
    requires start <= |text| && e <= |text|
  {
    if start <= e then text[start..e] else ""
  }

  /**
    Repeats the body between the first `begin` and the first `end` once per
    row and puts the result back between the markers, in place of every copy
    of that block; the text is left alone when either marker is missing.
   */
  function Splice(text: string, begin: string, end: string, rows: seq<Bindings>): string
    requires begin != []
  {
    var b, e := Find(text, begin), Find(text, end);
    if b == -1 || e == -1 then text
    else
      var body := Body(text, b + |begin|, e);
      Replace(text, begin + body + end, begin + Join(Instances(body, rows)) + end)
  }

  /** One iteration of the loop over `lists`. */
  function ExpandSection(text: string, name: string, rows: seq<Bindings>): string {
    Splice(text, BeginMarker(name), EndMarker(name), rows)
  }

  /** The sections expanded in the order of `lists`. */
  function ExpandAll(text: string, lists: Sections): string
    decreases |lists|
  {
    if lists == [] then text
    else
      var (name, rows) := lists[|lists| - 1];
      ExpandSection(ExpandAll(text, lists[..|lists| - 1]), name, rows)
  }

  /* ---------------------------------------------------------------------- */
  /* Step 3: marker cleanup with re.sub                                      */
  /* ---------------------------------------------------------------------- */

  const BeginOpen: string := "<!-- BEGIN "
  const EndOpen: string := "<!-- END "
  /** The tail of the first two patterns, which consume the line break. */
  const LineTail: string := " -->\n"
  /** The tail of the last two patterns. */
  const Tail: string := " -->"

  /** The index of the first line break at or after `i`, or the length of `s`. */
  function LineEnd(s: string, i: nat): (r: nat)
    requires i <= |s|
    ensures i <= r <= |s|
    ensures r < |s| ==> s[r] == '\n'
    ensures forall k :: i <= k < r ==> s[k] != '\n'
    decreases |s| - i
  {
    if i == |s| || s[i] == '\n' then i else LineEnd(s, i + 1)
  }

  /** The greatest index in `[lo, hi]` where `t` occurs, or -1. */
  function LastOccurrence(s: string, t: string, lo: nat, hi: int): (r: int)
    ensures r == -1 || (lo <= r <= hi && OccursAt(s, t, r))
    ensures forall j :: lo <= j <= hi && r < j ==> !OccursAt(s, t, j)
    decreases hi - lo + 1
  {
    if hi < lo then -1
    else if OccursAt(s, t, hi) then hi
    else LastOccurrence(s, t, lo, hi - 1)
  }

  /**
    Where a match of the regular expression `open .+ tail` that starts at
    index 0 of `s` ends. `.` matches any character but a line break and `+`
    is greedy, so the match ends at the last `tail` that starts after at
    least one character and no later than the end of the first line.
   */
  function MatchEnd(s: string, open: string, tail: string): (r: Option<nat>)
    ensures r.Some? ==> |open| + 1 + |tail| <= r.value <= |s|
  {
    if !OccursAt(s, open, 0) then None
    else
      var m := LastOccurrence(s, tail, |open| + 1, LineEnd(s, |open|));
      if m == -1 then None else Some(m + |tail|)
  }

  /**
    The match of `open .+ tail` at index 0: there is one exactly when `open`
    starts the text and `tail` starts on the first line at least one
    character after it, and the match then takes the last such `tail`.
   */
  lemma MatchEndGreedy(s: string, open: string, tail: string)
    ensures MatchEnd(s, open, tail).Some? <==>
      OccursAt(s, open, 0) && exists m :: |open| + 1 <= m <= LineEnd(s, |open|) && OccursAt(s, tail, m)
    ensures MatchEnd(s, open, tail).Some? ==>
      OccursAt(s, open, 0) &&
      var m := MatchEnd(s, open, tail).value - |tail|;
      |open| + 1 <= m <= LineEnd(s, |open|) && OccursAt(s, tail, m)
      && forall j :: m < j <= LineEnd(s, |open|) ==> !OccursAt(s, tail, j)
  {
    if OccursAt(s, open, 0) {
      var hi := LineEnd(s, |open|);
      var m := LastOccurrence(s, tail, |open| + 1, hi);
      if m == -1 {
        assert forall j :: |open| + 1 <= j <= hi ==> !OccursAt(s, tail, j);
      } else {
        assert MatchEnd(s, open, tail) == Some(m + |tail|);
      }
    }
  }

  /** Python's `re.sub(open + ".+" + tail, "", s)`: every match, scanning from the left, removed. */
  function RemoveMatches(s: string, open: string, tail: string): string
    decreases |s|
  {
    if s == [] then []
    else match MatchEnd(s, open, tail)
      case Some(e) => RemoveMatches(s[e..], open, tail)
      case None => [s[0]] + RemoveMatches(s[1..], open, tail)
  }

  /** The four cleanup passes in source order. */
  function Cleanup(s: string): string {
    var s1 := RemoveMatches(s, BeginOpen, LineTail);
    var s2 := RemoveMatches(s1, EndOpen, LineTail);
    var s3 := RemoveMatches(s2, BeginOpen, Tail);
    RemoveMatches(s3, EndOpen, Tail)
  }

  /** What `render_template(template, variables, lists)` returns. */
  function Rendered(template: string, variables: Bindings, lists: Sections): string {
    Cleanup(ExpandAll(Substitute(template, variables), lists))
  }

  /* ---------------------------------------------------------------------- */
  /* The renderer                                                            */
  /* ---------------------------------------------------------------------- */

  /** The loop that replaces each key's placeholder (lines 73-75 and 98-100). */
  method SubstituteLoop(text: string, vars: Bindings) returns (result: string)
    ensures result == Substitute(text, vars)
  {
    result := text;
    for i := 0 to |vars|
      invariant result == Substitute(text, vars[..i])
    {
      var (key, value) := vars[i];
      result := Replace(result, Placeholder(key), value);
      assert vars[..i + 1][..i] == vars[..i];
    }
    assert vars[..|vars|] == vars;
  }

  /** One pass of the loop over `lists`: find the markers, repeat the body, splice. */
  method ExpandSectionStep(text: string, name: string, items: seq<Bindings>) returns (result: string)
    ensures result == ExpandSection(text, name, items)
  {
    var beginMarker, endMarker := BeginMarker(name), EndMarker(name);
    var beginIdx, endIdx := Find(text, beginMarker), Find(text, endMarker);
    if beginIdx == -1 || endIdx == -1 {
      return text;
    }
    var blockStart := beginIdx + |beginMarker|;
    var blockContent := if blockStart <= endIdx then text[blockStart..endIdx] else "";
    var renderedItems: seq<string> := [];
    for j := 0 to |items|
      invariant renderedItems == Instances(blockContent, items[..j])
    {
      var itemText := SubstituteLoop(blockContent, items[j]);
      renderedItems := renderedItems + [itemText];
      assert items[..j + 1][..j] == items[..j];
    }
    assert items[..|items|] == items;
    var fullBlock := beginMarker + blockContent + endMarker;
    var replacement := beginMarker + Join(renderedItems) + endMarker;
    result := Replace(text, fullBlock, replacement);
  }

  method Render(template: string, variables: Bindings, lists: Sections) returns (result: string)
    ensures result == Rendered(template, variables, lists)
  {
    result := SubstituteLoop(template, variables);
    ghost var substituted := result;
    for i := 0 to |lists|
      invariant result == ExpandAll(substituted, lists[..i])
    {
      var (name, items) := lists[i];
      result := ExpandSectionStep(result, name, items);
      assert lists[..i + 1][..i] == lists[..i];
    }
    assert lists[..|lists|] == lists;

    result := RemoveMatches(result, BeginOpen, LineTail);
    result := RemoveMatches(result, EndOpen, LineTail);
    result := RemoveMatches(result, BeginOpen, Tail);
    result := RemoveMatches(result, EndOpen, Tail);
  }
}

/**
  Properties of placeholder substitution, stated over templates written as a
  sequence of pieces: literal text without braces, and `{{key}}` holes whose
  keys have no braces either (the template's own placeholders).
 */
module Placeholders {
  import opened Strings
  import opened Template

  predicate BraceFree(s: string) {
    forall i :: 0 <= i < |s| ==> s[i] != '{' && s[i] != '}'
  }

  datatype Piece = Lit(text: string) | Hole(key: string)

  function PieceText(pc: Piece): string {
    match pc
    case Lit(t) => t
    case Hole(k) => Placeholder(k)
  }

  predicate PieceOk(pc: Piece) {
    match pc
    case Lit(t) => BraceFree(t)
    case Hole(k) => BraceFree(k)
  }

  predicate WellFormed(ps: seq<Piece>) {
    forall i :: 0 <= i < |ps| ==> PieceOk(ps[i])
  }

  /** The template text the pieces spell. */
  function Flatten(ps: seq<Piece>): string
    decreases |ps|
  {
    if ps == [] then [] else PieceText(ps[0]) + Flatten(ps[1..])
  }

  /** Every hole for `key` becomes the literal `value`. */
  function Fill(ps: seq<Piece>, key: string, value: string): (r: seq<Piece>)
    ensures |r| == |ps|
    ensures forall i :: 0 <= i < |ps| ==> r[i] == if ps[i] == Hole(key) then Lit(value) else ps[i]
    decreases |ps|
  {
    if ps == [] then []
    else [if ps[0] == Hole(key) then Lit(value) else ps[0]] + Fill(ps[1..], key, value)
  }

  /** The holes filled for every binding in turn. */
  function FillAll(ps: seq<Piece>, vars: Bindings): (r: seq<Piece>)
    ensures |r| == |ps|
    decreases |vars|
  {
    if vars == [] then ps
    else
      var (key, value) := vars[|vars| - 1];
      Fill(FillAll(ps, vars[..|vars| - 1]), key, value)
  }

  predicate BraceFreeBindings(vars: Bindings) {
    forall i :: 0 <= i < |vars| ==> BraceFree(vars[i].0) && BraceFree(vars[i].1)
  }

  predicate IsKey(vars: Bindings, key: string) {
    exists i :: 0 <= i < |vars| && vars[i].0 == key
  }

  /** The only braces of `{{key}}` are the two opening and the two closing ones. */
  lemma PlaceholderBraces(key: string)
    requires BraceFree(key)
    ensures forall i :: 0 <= i < |key| + 4 ==> (Placeholder(key)[i] == '{' <==> i < 2)
    ensures forall i :: 0 <= i < |key| + 4 ==> (Placeholder(key)[i] == '}' <==> i >= |key| + 2)
  {
    var p := Placeholder(key);
    forall i | 2 <= i < |key| + 2 ensures p[i] == key[i - 2] {}
  }

  /** No placeholder occurrence starts inside a piece and ends after it. */
  lemma PieceNoStraddle(pc: Piece, rest: string, key: string)
    requires PieceOk(pc) && BraceFree(key)
    ensures NoStraddle(PieceText(pc) + rest, Placeholder(key), |PieceText(pc)|)
  {
    var t, p := PieceText(pc), Placeholder(key);
    var s := t + rest;
    PlaceholderBraces(key);
    if pc.Hole? {
      PlaceholderBraces(pc.key);
    }
    match pc
    case Lit(_) =>
      forall j | 0 <= j < |t| ensures !OccursAt(s, p, j) {
        OccursAtChars(s, p, j);
        assert s[j] == t[j];
      }
    case Hole(n) =>
      forall j | 0 <= j < |t| < j + |p| ensures !OccursAt(s, p, j) {
        OccursAtChars(s, p, j);
        var m := |t| - 1 - j;
        var a, c := s[|t| - 1], p[m];
        assert a == t[|t| - 1];
        if m >= 1 {
          var a2, c2 := s[|t| - 2], p[m - 1];
          assert a2 == t[|t| - 2];
        }
      }
  }

  lemma PlaceholderInjective(a: string, b: string)
    ensures Placeholder(a) == Placeholder(b) ==> a == b
  {
    if Placeholder(a) == Placeholder(b) {
      assert a == Placeholder(a)[2..|a| + 2];
    }
  }

  /** A piece contains the placeholder of `key` exactly when it is the hole for `key`. */
  lemma PieceContains(pc: Piece, key: string)
    requires PieceOk(pc) && BraceFree(key)
    ensures Contains(PieceText(pc), Placeholder(key)) <==> pc == Hole(key)
  {
    var t, p := PieceText(pc), Placeholder(key);
    PlaceholderBraces(key);
    if pc == Hole(key) {
      assert OccursAt(t, p, 0);
    } else {
      if pc.Hole? {
        PlaceholderBraces(pc.key);
        PlaceholderInjective(pc.key, key);
      }
      forall j ensures OccursAt(t, p, j) ==> forall k :: 0 <= k < |p| ==> t[j + k] == p[k] {
        OccursAtChars(t, p, j);
      }
      assert forall j :: OccursAt(t, p, j) ==> t[j + 0] == p[0] && t[j + 1] == p[1];
      var c := |key| + 2;
      assert c < |p| && c < |t| ==> t[0 + c] == p[c] || !OccursAt(t, p, 0);
      assert |p| == |t| && OccursAt(t, p, 0) ==> t == p;
    }
  }

  /** One binding: the holes for its key become its value and nothing else changes. */
  lemma {:induction false} ReplacePieces(ps: seq<Piece>, key: string, value: string)
    requires WellFormed(ps) && BraceFree(key)
    ensures Replace(Flatten(ps), Placeholder(key), value) == Flatten(Fill(ps, key, value))
    decreases |ps|
  {
    var p := Placeholder(key);
    if ps != [] {
      var t, rest := PieceText(ps[0]), Flatten(ps[1..]);
      var s := t + rest;
      PieceNoStraddle(ps[0], rest, key);
      ReplaceSplit(s, p, value, |t|);
      assert s[..|t|] == t && s[|t|..] == rest;
      PieceContains(ps[0], key);
      if ps[0] == Hole(key) {
        assert Replace(t, p, value) == value + Replace([], p, value);
      } else {
        ReplaceAbsent(t, p, value);
      }
      ReplacePieces(ps[1..], key, value);
      assert Fill(ps, key, value)[1..] == Fill(ps[1..], key, value);
    }
  }

  lemma FillWellFormed(ps: seq<Piece>, key: string, value: string)
    requires WellFormed(ps) && BraceFree(value)
    ensures WellFormed(Fill(ps, key, value))
  {
  }

  /** All bindings: substitution is filling the holes of the bound keys. */
  lemma {:induction false} SubstitutePieces(ps: seq<Piece>, vars: Bindings)
    requires WellFormed(ps) && BraceFreeBindings(vars)
    ensures WellFormed(FillAll(ps, vars))
    ensures Substitute(Flatten(ps), vars) == Flatten(FillAll(ps, vars))
    decreases |vars|
  {
    if vars != [] {
      var init := vars[..|vars| - 1];
      var (key, value) := vars[|vars| - 1];
      assert BraceFreeBindings(init);
      SubstitutePieces(ps, init);
      ReplacePieces(FillAll(ps, init), key, value);
      FillWellFormed(FillAll(ps, init), key, value);
    }
  }

  /** After filling, a hole remains exactly where the template had a hole for an unbound key. */
  lemma {:induction false} FillAllHoles(ps: seq<Piece>, vars: Bindings, i: nat)
    requires i < |ps|
    ensures FillAll(ps, vars)[i].Hole? <==> ps[i].Hole? && !IsKey(vars, ps[i].key)
    ensures ps[i].Hole? && !IsKey(vars, ps[i].key) ==> FillAll(ps, vars)[i] == ps[i]
    decreases |vars|
  {
    if vars != [] {
      var init := vars[..|vars| - 1];
      FillAllHoles(ps, init, i);
      if ps[i].Hole? && IsKey(vars, ps[i].key) && !IsKey(init, ps[i].key) {
        assert vars[|vars| - 1].0 == ps[i].key;
      }
      if ps[i].Hole? && IsKey(init, ps[i].key) {
        var j :| 0 <= j < |init| && init[j].0 == ps[i].key;
        assert vars[j].0 == ps[i].key;
      }
    }
  }

  /** The text of well-formed pieces contains `{{key}}` only where the pieces have that hole. */
  lemma {:induction false} FlattenContains(ps: seq<Piece>, key: string)
    requires WellFormed(ps) && BraceFree(key)
    requires Contains(Flatten(ps), Placeholder(key))
    ensures Hole(key) in ps
    decreases |ps|
  {
    var p := Placeholder(key);
    var t, rest := PieceText(ps[0]), Flatten(ps[1..]);
    var j :| 0 <= j <= |t + rest| - |p| && OccursAt(t + rest, p, j);
    PieceNoStraddle(ps[0], rest, key);
    OccursInConcat(t, rest, p, j);
    if j < |t| {
      PieceContains(ps[0], key);
    } else {
      assert WellFormed(ps[1..]);
      assert Contains(rest, p);
      FlattenContains(ps[1..], key);
    }
  }

  /** Substitution with no placeholder of any of its keys present changes nothing. */
  lemma {:induction false} SubstituteAbsent(text: string, vars: Bindings)
    requires forall i :: 0 <= i < |vars| ==> !Contains(text, Placeholder(vars[i].0))
    ensures Substitute(text, vars) == text
    decreases |vars|
  {
    if vars != [] {
      SubstituteAbsent(text, vars[..|vars| - 1]);
      ReplaceAbsent(text, Placeholder(vars[|vars| - 1].0), vars[|vars| - 1].1);
    }
  }

  /**
    An unknown placeholder stays literal: rendering the pieces gives the text
    of the filled pieces, where every hole of an unbound key is still a hole,
    at its original position.
   */
  lemma UnknownPlaceholderKept(ps: seq<Piece>, vars: Bindings, i: nat)
    requires WellFormed(ps) && BraceFreeBindings(vars)
    requires i < |ps| && ps[i].Hole? && !IsKey(vars, ps[i].key)
    ensures Substitute(Flatten(ps), vars) == Flatten(FillAll(ps, vars))
    ensures FillAll(ps, vars)[i] == ps[i]
  {
    SubstitutePieces(ps, vars);
    FillAllHoles(ps, vars, i);
  }

  /** Every supplied key's placeholder is gone after substitution. */
  lemma KnownPlaceholdersReplaced(ps: seq<Piece>, vars: Bindings, key: string)
    requires WellFormed(ps) && BraceFreeBindings(vars) && IsKey(vars, key)
    ensures !Contains(Substitute(Flatten(ps), vars), Placeholder(key))
  {
    var j :| 0 <= j < |vars| && vars[j].0 == key;
    SubstitutePieces(ps, vars);
    var filled := FillAll(ps, vars);
    if Contains(Flatten(filled), Placeholder(key)) {
      FlattenContains(filled, key);
      var i :| 0 <= i < |filled| && filled[i] == Hole(key);
      FillAllHoles(ps, vars, i);
    }
  }

  /** Substituting a second time is a no-op: the first pass left none of the keys' placeholders. */
  lemma SubstituteIdempotent(ps: seq<Piece>, vars: Bindings)
    requires WellFormed(ps) && BraceFreeBindings(vars)
    ensures Substitute(Substitute(Flatten(ps), vars), vars) == Substitute(Flatten(ps), vars)
  {
    forall i | 0 <= i < |vars|
      ensures !Contains(Substitute(Flatten(ps), vars), Placeholder(vars[i].0))
    {
      KnownPlaceholdersReplaced(ps, vars, vars[i].0);
    }
    SubstituteAbsent(Substitute(Flatten(ps), vars), vars);
  }

  /* ---------------------------------------------------------------------- */
  /* Unknown placeholders in any text                                        */
  /* ---------------------------------------------------------------------- */

  predicate BraceFreeKeys(vars: Bindings) {
    forall i :: 0 <= i < |vars| ==> BraceFree(vars[i].0)
  }

  /** Two occurrences of placeholders of different brace-free keys never overlap. */
  lemma PlaceholdersApart(s: string, u: string, k: string, i: int, j: int)
    requires BraceFree(u) && BraceFree(k) && u != k
    requires OccursAt(s, Placeholder(u), i) && OccursAt(s, Placeholder(k), j)
    ensures j + |k| + 4 <= i || i + |u| + 4 <= j
  {
    var p, q := Placeholder(u), Placeholder(k);
    PlaceholderBraces(u);
    PlaceholderBraces(k);
    if j < i < j + |q| {
      CharAt(s, p, i, 0);
      CharAt(s, q, j, i - j);
      CharAt(s, p, i, 1);
      CharAt(s, q, j, i + 1 - j);
    } else if i < j < i + |p| {
      CharAt(s, q, j, 0);
      CharAt(s, p, i, j - i);
      CharAt(s, q, j, 1);
      CharAt(s, p, i, j + 1 - i);
    } else if i == j && |u| < |k| {
      CharAt(s, p, i, |u| + 2);
      CharAt(s, q, j, |u| + 2);
    } else if i == j && |k| < |u| {
      CharAt(s, q, j, |k| + 2);
      CharAt(s, p, i, |k| + 2);
    } else if i == j {
      assert p == s[i..i + |p|] == q;
      PlaceholderInjective(u, k);
    }
  }

  /** The character an occurrence puts at a given offset. */
  lemma CharAt(s: string, p: string, i: int, k: int)
    ensures OccursAt(s, p, i) && 0 <= k < |p| ==> s[i + k] == p[k]
  {
    if OccursAt(s, p, i) && 0 <= k < |p| {
      assert s[i..i + |p|][k] == s[i + k];
    }
  }

  /** Replacing the placeholder of another brace-free key leaves an occurrence of `{{u}}`. */
  lemma ReplaceKeepsPlaceholder(s: string, k: string, v: string, u: string)
    requires BraceFree(k) && BraceFree(u) && k != u
    requires Contains(s, Placeholder(u))
    ensures Contains(Replace(s, Placeholder(k), v), Placeholder(u))
  {
    var p, q := Placeholder(u), Placeholder(k);
    var i :| 0 <= i <= |s| - |p| && OccursAt(s, p, i);
    NothingStraddlesBefore(s, u, k, i);
    ReplaceSplit(s, q, v, i);
    var w := s[i..];
    PlaceholderStaysWhole(s, u, k, v, i);
    var a, b := Replace(s[..i], q, v), Replace(w[|p|..], q, v);
    OccursBetween(a, p, b);
    ConcatAssoc(a, p, b);
  }

  /** No placeholder of `k` runs into an occurrence of `{{u}}` from the left. */
  lemma NothingStraddlesBefore(s: string, u: string, k: string, i: int)
    requires BraceFree(k) && BraceFree(u) && k != u && OccursAt(s, Placeholder(u), i)
    ensures NoStraddle(s, Placeholder(k), i)
  {
    forall j | 0 <= j < i && OccursAt(s, Placeholder(k), j) ensures j + |Placeholder(k)| <= i {
      PlaceholdersApart(s, u, k, i, j);
    }
  }

  /** From an occurrence of `{{u}}` on, replacing `{{k}}` keeps `{{u}}` in front. */
  lemma PlaceholderStaysWhole(s: string, u: string, k: string, v: string, i: nat)
    requires BraceFree(k) && BraceFree(u) && k != u && OccursAt(s, Placeholder(u), i)
    ensures Replace(s[i..], Placeholder(k), v)
         == Placeholder(u) + Replace(s[i..][|Placeholder(u)|..], Placeholder(k), v)
  {
    var p, q := Placeholder(u), Placeholder(k);
    var w := s[i..];
    forall j | 0 <= j < |p| ensures !OccursAt(w, q, j) {
      OccursInSuffix(s, q, i, j);
      if OccursAt(w, q, j) {
        PlaceholdersApart(s, u, k, i, i + j);
      }
    }
    ReplaceSplit(w, q, v, |p|);
    assert w[..|p|] == p;
    forall j ensures !OccursAt(p, q, j) {
      OccursInPrefix(w, q, |p|, j);
    }
    ReplaceAbsent(p, q, v);
  }

  /**
    An unknown placeholder stays literal in any text: when `{{u}}` occurs in
    the text, `u` is bound by no key and no key holds a brace, `{{u}}` still
    occurs after substitution, whatever the literal text and the values hold.
   */
  lemma {:induction false} UnknownPlaceholderSurvives(text: string, vars: Bindings, u: string)
    requires BraceFree(u) && BraceFreeKeys(vars) && !IsKey(vars, u)
    requires Contains(text, Placeholder(u))
    ensures Contains(Substitute(text, vars), Placeholder(u))
    decreases |vars|
  {
    if vars != [] {
      var n := |vars| - 1;
      var prefix := vars[..n];
      assert forall i :: 0 <= i < |prefix| ==> prefix[i] == vars[i];
      UnknownPlaceholderSurvives(text, prefix, u);
      assert vars[n].0 != u;
      ReplaceKeepsPlaceholder(Substitute(text, prefix), vars[n].0, vars[n].1, u);
    }
  }
}
