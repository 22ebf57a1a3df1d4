/** What one pass of the block-expansion loop of `render_template` does to the text. */
module Blocks {
  import opened Strings
  import opened Template

  /** A placeholder can only be replaced by something if there is text around it. */
  lemma {:induction false} SubstituteEmpty(vars: Bindings)
    ensures Substitute("", vars) == ""
    decreases |vars|
  {
    if vars != [] {
      SubstituteEmpty(vars[..|vars| - 1]);
    }
  }

  lemma {:induction false} JoinEmpty(parts: seq<string>)
    requires forall i :: 0 <= i < |parts| ==> parts[i] == ""
    ensures Join(parts) == ""
    decreases |parts|
  {
    if parts != [] {
      JoinEmpty(parts[..|parts| - 1]);
    }
  }

  /** An occurrence of `p + q` starts with an occurrence of `p`. */
  lemma OccursPrefixOf(s: string, p: string, q: string, j: int)
    ensures OccursAt(s, p + q, j) ==> OccursAt(s, p, j)
  {
    if OccursAt(s, p + q, j) {
      assert s[j..j + |p|] == s[j..j + |p + q|][..|p|];
    }
  }

  /**
    A section is skipped, and the text left as it is, when either marker is
    missing; when the first `end` comes before the end of the first `begin`
    the body is empty, every row renders to nothing and the splice puts back
    exactly what it removes.
   */
  lemma SpliceUnchanged(text: string, begin: string, end: string, rows: seq<Bindings>)
    requires begin != []
    requires var b, e := Find(text, begin), Find(text, end);
      b == -1 || e == -1 || e < b + |begin|
    ensures Splice(text, begin, end, rows) == text
  {
    var b, e := Find(text, begin), Find(text, end);
    if b != -1 && e != -1 {
      assert Body(text, b + |begin|, e) == "";
      var parts := Instances("", rows);
      forall i | 0 <= i < |parts| ensures parts[i] == "" {
        SubstituteEmpty(rows[i]);
      }
      JoinEmpty(parts);
      assert begin + "" + end == begin + end;
      ReplaceSelf(text, begin + end);
    }
  }

  /** The block from one marker occurrence to a later one is the first occurrence of its text. */
  lemma BlockFirstAt(text: string, begin: string, end: string, b: nat, e: nat, block: string)
    requires OccursAt(text, begin, b) && OccursAt(text, end, e) && b + |begin| <= e
    requires forall j :: 0 <= j < b ==> !OccursAt(text, begin, j)
    requires block == begin + text[b + |begin|..e] + end
    ensures OccursAt(text, block, b)
    ensures forall j :: 0 <= j < b ==> !OccursAt(text, block, j)
  {
    var body := text[b + |begin|..e];
    assert text[b..e + |end|] == text[b..b + |begin|] + body + text[e..e + |end|];
    forall j | 0 <= j < b ensures !OccursAt(text, block, j) {
      OccursPrefixOf(text, begin, body + end, j);
      assert begin + (body + end) == block;
    }
  }

  /** When both markers are found, in order, the block is replaced by its filled copy. */
  lemma SpliceFound(text: string, begin: string, end: string, rows: seq<Bindings>, b: nat, e: nat)
    requires begin != []
    requires b == Find(text, begin) && e == Find(text, end) && b + |begin| <= e
    ensures Splice(text, begin, end, rows)
         == Replace(text, begin + text[b + |begin|..e] + end,
                    begin + Join(Instances(text[b + |begin|..e], rows)) + end)
  {
    assert Body(text, b + |begin|, e) == text[b + |begin|..e];
  }

  /** The first copy of the block starts at the first `begin`. */
  lemma BlockReplacedAt(text: string, begin: string, end: string, b: nat, e: nat, filled: string)
    requires begin != []
    requires b == Find(text, begin) && e == Find(text, end) && b + |begin| <= e
    ensures var block := begin + text[b + |begin|..e] + end;
      Replace(text, block, filled) == text[..b] + filled + Replace(text[e + |end|..], block, filled)
  {
    var block := begin + text[b + |begin|..e] + end;
    BlockFirstAt(text, begin, end, b, e, block);
    ReplaceAtFirst(text, block, filled, b);
    assert text[b + |block|..] == text[e + |end|..];
  }

  /**
    When both markers are found and the first `end` follows the first
    `begin`, the text before `begin` is kept, the body between the markers
    becomes the row instances concatenated in list order (nothing for an
    empty list), the markers stay, and every later copy of the same block is
    replaced the same way.
   */
  lemma SpliceExpands(text: string, begin: string, end: string, rows: seq<Bindings>, b: nat, e: nat)
    requires begin != []
    requires b == Find(text, begin) && e == Find(text, end) && b + |begin| <= e
    ensures
      var body := text[b + |begin|..e];
      var filled := begin + Join(Instances(body, rows)) + end;
      Splice(text, begin, end, rows)
        == text[..b] + filled + Replace(text[e + |end|..], begin + body + end, filled)
  {
    SpliceFound(text, begin, end, rows, b, e);
    BlockReplacedAt(text, begin, end, b, e, begin + Join(Instances(text[b + |begin|..e], rows)) + end);
  }
}
