/**
  Names derived from API strings: the file-name sanitiser applied to model
  and version names, and the precision tag read off a file's download URL.
 */
module Naming {
  import opened Strings

  /* ---------------------------------------------------------------------- */
  /* sanitize_filename                                                       */
  /* ---------------------------------------------------------------------- */

  /**
    The characters the class `[\w\d\-_ ]` keeps. `isWord` is the Unicode
    word-character class `\w`, given as a parameter. In a `str` pattern `\d`
    means the Unicode decimal digits and `\w` already holds all of them, as
    it holds `_`; the digit and `_` tests below follow the pattern and add
    nothing to the real `\w`.
   */
  predicate Allowed(c: char, isWord: char -> bool) {
    isWord(c) || ('0' <= c <= '9') || c == '-' || c == '_' || c == ' '
  }

  /** The substitution step: every character outside the class becomes `_`, one for one. */
  function ReplaceDisallowed(text: string, isWord: char -> bool): (r: string)
    ensures |r| == |text|
    ensures forall i :: 0 <= i < |r| ==> Allowed(r[i], isWord)
    ensures forall i :: 0 <= i < |r| ==> Allowed(text[i], isWord) ==> r[i] == text[i]
    ensures forall i :: 0 <= i < |r| ==> !Allowed(text[i], isWord) ==> r[i] == '_'
  {
    seq(|text|, i requires 0 <= i < |text| => if Allowed(text[i], isWord) then text[i] else '_')
  }

  /** `sanitize_filename`: substitute, then strip surrounding whitespace. */
  function Sanitize(text: string, isWord: char -> bool): (r: string)
    ensures forall c :: c in r ==> Allowed(c, isWord)
    ensures Trimmed(r)
  {
    var s := ReplaceDisallowed(text, isWord);
    assert forall c :: c in s ==> Allowed(c, isWord);
    Strip(s)
  }

  /** A name already made of allowed characters, with no surrounding whitespace, is kept. */
  lemma SanitizeKeeps(text: string, isWord: char -> bool)
    requires forall c :: c in text ==> Allowed(c, isWord)
    requires Trimmed(text)
    ensures Sanitize(text, isWord) == text
  {
    var s := ReplaceDisallowed(text, isWord);
    forall i | 0 <= i < |text| ensures s[i] == text[i] {
      assert text[i] in text;
    }
    assert s == text;
  }

  /** Sanitising twice gives what sanitising once gives. */
  lemma SanitizeIdempotent(text: string, isWord: char -> bool)
    ensures Sanitize(Sanitize(text, isWord), isWord) == Sanitize(text, isWord)
  {
    SanitizeKeeps(Sanitize(text, isWord), isWord);
  }

  /**
    Path separators are not word characters, so a sanitised name has no
    `/` or `\` and stays one path component.
   */
  lemma SanitizeNoSeparators(text: string, isWord: char -> bool)
    requires !isWord('/') && !isWord('\\')
    ensures '/' !in Sanitize(text, isWord) && '\\' !in Sanitize(text, isWord)
  {
  }

  /* ---------------------------------------------------------------------- */
  /* The precision tag of a file                                             */
  /* ---------------------------------------------------------------------- */

  const Fp16Query := "fp=fp16"
  const Fp32Query := "fp=fp32"

  /** `fp16` when the URL carries `fp=fp16`, else `fp32` when it carries `fp=fp32`, else empty. */
  function FpTag(url: string): (r: string)
    ensures r == "fp16" || r == "fp32" || r == ""
    ensures r == "fp16" <==> Contains(url, Fp16Query)
  {
    if Contains(url, Fp16Query) then "fp16"
    else if Contains(url, Fp32Query) then "fp32"
    else ""
  }

  /** `fp=fp16` anywhere in the URL gives `fp16`, whatever else the URL carries. */
  lemma FpTagHalf(u: string, v: string)
    ensures FpTag(u + Fp16Query + v) == "fp16"
  {
    OccursBetween(u, Fp16Query, v);
  }

  /** `fp=fp32` gives `fp32` when no `fp=fp16` is there too. */
  lemma FpTagFull(u: string, v: string)
    requires !Contains(u + Fp32Query + v, Fp16Query)
    ensures FpTag(u + Fp32Query + v) == "fp32"
  {
    OccursBetween(u, Fp32Query, v);
  }

  /** A URL with neither query, such as one asking for `fp=fp8`, gets no tag. */
  lemma FpTagAbsent(url: string)
    requires !Contains(url, Fp16Query) && !Contains(url, Fp32Query)
    ensures FpTag(url) == ""
  {
  }
}
