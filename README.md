# Civitai model fetcher: templating and metadata extraction

A Dafny model of the core of `civitai_fetch_model.py`. That module downloads
a model's metadata from the Civitai API and writes a Markdown note from a
template. The model covers:

- **`render_template`.** It has three steps:
  - every `{{key}}` placeholder is replaced with `str.replace`;
  - each `<!-- BEGIN NAME -->` ... `<!-- END NAME -->` block is repeated once per row of the list `NAME`;
  - four `re.sub` passes remove the marker comments.

  The model keeps Python's exact behaviour:
  - `str.find` returns the lowest index, or -1;
  - `str.replace` scans from the left and its matches never overlap;
  - a slice whose start is past its end is empty;
  - the greedy `.+` of the regular expressions cannot cross a line break.

  `Template.Render` is the imperative renderer. Its loops are proved against the functional definition `Template.Rendered`.
- **The four extractors** (`extract_sampler_scheduler`, `extract_resolutions`,
  `extract_prompts`, `extract_loras`).
  - The first three are loops with a seen-set. Each is proved to return `Dedup.Distinct` of the stream of values the images offer: every value once, in the order the values are first seen.
  - `extract_loras` collects names into a set and returns `sorted(...)`. It is proved to return the unique strictly ascending list of exactly the collected names.
  - The two ways the source picks a value from a `meta` dict are modelled separately: the first *present* key (`next(...)`) and the first *truthy* value (an `or` chain).
- **`sanitize_filename`**: the character-class substitution followed by `strip()`.
- **The precision tag** (`fp16` / `fp32` / empty) read off a file's download URL.

The model makes these representation choices:
- A Python dict is modelled by the sequence of its `items()` in iteration order.
- Template values are already converted with `str`.
- A JSON value inside `meta` is `None` (null) or a string. A truthy value is the string `str` gives for it. A falsy value other than null (`0`, `0.0`, `false`, `""`, `[]`, `{}`) is the empty string: the extractors only test such a value for truthiness or turn it into `""`, so this reproduces what they do.

Module layout:

| file | module | content |
|---|---|---|
| `wrappers.dfy` | `Wrappers` | `Option` |
| `strings.dfy` | `Strings` | `find`, `replace`, `strip`, `"".join`, `in`, string order, `sorted` of a set |
| `template.dfy` | `Template`, `Placeholders` | the renderer and its specification; placeholder substitution on templates written as pieces |
| `blocks.dfy` | `Blocks` | one pass of the block-expansion loop |
| `markers.dfy` | `Markers` | what the regular-expression passes do around a marker |
| `rendering.dfy` | `Rendering` | a section whose markers sit on lines of their own, rendered end to end |
| `inline.dfy` | `InlineSections` | a section whose BEGIN marker shares its line with the rows, and the worked example |
| `dedup.dfy` | `Dedup` | the seen-set list |
| `extract.dfy` | `Extract` | payload datatypes and the four extractors |
| `naming.dfy` | `Naming` | `sanitize_filename` and the precision tag |

## Model

| member | source | states |
|---|---|---|
| Strings.Find | civitai_fetch_model.py:83-84 | `find` returns -1 exactly when the marker does not occur; otherwise it returns an occurrence with none before it |
| Strings.FindIsFirst | civitai_fetch_model.py:83-84 | an occurrence with no occurrence before it is the index `find` returns |
| Strings.ReplaceAbsent | civitai_fetch_model.py:75 | replacing a placeholder that does not occur leaves the text unchanged |
| Strings.ReplaceSelf | civitai_fetch_model.py:106 | replacing a block by itself leaves the text unchanged |
| Strings.ReplaceSplit | civitai_fetch_model.py:106 | when no occurrence straddles a cut, replacing in the whole text equals replacing in each half |
| Strings.ReplaceAtFirst | civitai_fetch_model.py:106 | the text before the first occurrence is kept; that occurrence becomes the replacement; the rest is replaced in turn |
| Strings.Strip | civitai_fetch_model.py:160 | the result is a slice of the input with only whitespace before and after it, and itself neither starts nor ends with whitespace: only a leading and a trailing run of whitespace are cut; a text with none is returned unchanged |
| Strings.StripUnique | civitai_fetch_model.py:160 | any text obtained by cutting leading and trailing whitespace runs and left with no whitespace at either end is the strip |
| Strings.SortedSet | civitai_fetch_model.py:279 | `sorted` of a set of strings is strictly ascending and holds exactly the set's elements |
| Strings.LessTotal | civitai_fetch_model.py:279 | of two different strings one sorts before the other |
| Strings.LessTransitive | civitai_fetch_model.py:279 | string order is transitive |
| Strings.AscendingUnique | civitai_fetch_model.py:279 | two strictly ascending lists with the same elements are equal, so `sorted` has exactly one possible result |
| Template.SubstituteLoop | civitai_fetch_model.py:73-75 | the loop over `variables.items()` replaces each key's placeholder in turn, as `Substitute` specifies |
| Template.ExpandSectionStep | civitai_fetch_model.py:78-106 | one pass over `lists`: the text is unchanged when a marker is missing; otherwise the body between the markers is repeated once per row and spliced back in place of every copy of the block |
| Template.Render | civitai_fetch_model.py:56-116 | the renderer returns substitution, then expansion in the order of `lists`, then the four cleanup passes |
| Template.Instances | civitai_fetch_model.py:95-101 | one rendered copy per row, in row order, each the body with that row's bindings substituted |
| Template.LineEnd | civitai_fetch_model.py:110-114 | the first line break at or after a position, or the end of the text, with no line break before it |
| Template.LastOccurrence | civitai_fetch_model.py:110-114 | the greatest occurrence in a range, or -1, and no occurrence after it in the range |
| Template.MatchEndGreedy | civitai_fetch_model.py:110-114 | `open .+ tail` matches at a position exactly when `open` is there and `tail` starts somewhere after at least one character on the same line; the match ends after the last such `tail` on that line |
| Placeholders.UnknownPlaceholderKept | civitai_fetch_model.py:73-75 | a placeholder whose key is not bound stays in the output as it was, at its position |
| Placeholders.UnknownPlaceholderSurvives | civitai_fetch_model.py:73-75 | in any text, a `{{u}}` whose key is not bound still occurs after substitution, when `u` and the keys hold no braces |
| Placeholders.KnownPlaceholdersReplaced | civitai_fetch_model.py:73-75 | no placeholder of a bound key is left after substitution, when values and literal text hold no braces |
| Placeholders.SubstituteIdempotent | civitai_fetch_model.py:73-75 | substituting a second time changes nothing |
| Placeholders.SubstitutePieces | civitai_fetch_model.py:73-75 | substitution on a template of pieces fills each hole of a bound key with its value |
| Blocks.SpliceUnchanged | civitai_fetch_model.py:83-88 | a section with a missing marker, or whose END comes before its BEGIN ends, leaves the text unchanged |
| Blocks.SpliceExpands | civitai_fetch_model.py:90-106 | with both markers in order, the text before BEGIN is kept; the body becomes the row copies joined in order, between the kept markers; later copies of the block are replaced the same way |
| Markers.RemoveMatchesAbsent | civitai_fetch_model.py:110-114 | text with no marker opening is left unchanged by a cleanup pass |
| Markers.RemoveMatchesSkip | civitai_fetch_model.py:110-114 | a prefix with no `<` is copied, and the pass goes on after it |
| Markers.LineMarkerRemoved | civitai_fetch_model.py:110-111 | passes 1 and 2 remove a marker that ends its line, together with its line break |
| Markers.RemoveMatchesNoBreak | civitai_fetch_model.py:110-111 | passes 1 and 2 leave text without a line break unchanged, since their pattern ends in one |
| Markers.InlineToEndRemoved | civitai_fetch_model.py:113 | pass 3 removes everything from a BEGIN marker to the end of the text when the rest is one line ending in ` -->` |
| Markers.InlineMarkerRemoved | civitai_fetch_model.py:113-114 | passes 3 and 4 remove a marker followed on its line by text without ` -->`, keeping the line break |
| Rendering.CleanupBlock | civitai_fetch_model.py:108-114 | two marker lines are removed and everything between them is kept |
| Rendering.CleanupEmptyBlock | civitai_fetch_model.py:108-114 | an empty block leaves BEGIN and END markers on one line, and the first pass removes the whole line |
| Rendering.JoinedCopies | civitai_fetch_model.py:95-105 | row copies of a body that starts with a line break join into the copies separated by line breaks |
| Rendering.RenderOneSection | civitai_fetch_model.py:56-116 | a section with its markers on lines of their own renders as one copy per row, separated by line breaks, or as nothing for an empty list; the text before it is kept |
| InlineSections.CleanupInlineBlock | civitai_fetch_model.py:108-114 | a BEGIN marker followed on its line by rows, and an END marker closing the text, are both removed and the rows are kept |
| InlineSections.RenderInlineSection | civitai_fetch_model.py:56-116 | a template ending in such a section renders as the text before it followed by the rows joined in list order |
| InlineSections.CleanupOneLineBlock | civitai_fetch_model.py:108-114 | a BEGIN marker, rows without a line break and an END marker closing the text are removed together: the first two passes need a line break, and the greedy third pass runs to the END marker's ` -->` |
| InlineSections.RenderInlineOneLine | civitai_fetch_model.py:56-116 | a template ending in such a section whose joined rows hold no line break renders as the text before the section alone |
| InlineSections.RenderInlineEmpty | civitai_fetch_model.py:56-116 | with an empty list such a section renders as nothing, markers included |
| InlineSections.FilesExample | civitai_fetch_model.py:56-116 | the worked example: a label line with a filled variable, then one line per row of a two-row list, with the markers gone |
| Dedup.Distinct | civitai_fetch_model.py:209-211 | the seen-set list holds each value of the stream exactly once |
| Dedup.DistinctFirstSeenOrder | civitai_fetch_model.py:209-211 | values appear in the order they were first seen |
| Dedup.DistinctOfDistinct | civitai_fetch_model.py:209-211 | deduplicating twice gives what deduplicating once gives |
| Extract.FirstPresentIsEarliest | civitai_fetch_model.py:204-205 | `next(...)` yields the value of the earliest candidate key present, even a null or empty one, and `None` when no candidate is present |
| Extract.FirstTruthyIsEarliest | civitai_fetch_model.py:247 | the `or` chain yields a truthy value exactly when some candidate holds one, and then the first such value |
| Extract.ExtractSamplerScheduler | civitai_fetch_model.py:194-213 | the loop returns the distinct non-blank (sampler, scheduler) pairs in first-seen order |
| Extract.SamplerSchedulerMember | civitai_fetch_model.py:194-213 | a pair is returned exactly when it is not blank and some image yields it |
| Extract.SamplerSchedulerResult | civitai_fetch_model.py:209 | no pair is returned twice, and `("", "")` never is |
| Extract.ExtractResolutions | civitai_fetch_model.py:216-233 | the loop returns the distinct stripped truthy sizes in first-seen order |
| Extract.ResolutionsResult | civitai_fetch_model.py:216-233 | no repeats; each entry stripped; exactly the stripped truthy sizes of the images |
| Extract.BlankSizeGivesEmpty | civitai_fetch_model.py:227-228 | truthiness is tested before stripping, so a whitespace-only size yields `""` |
| Extract.ExtractPrompts | civitai_fetch_model.py:236-261 | the loop returns the distinct kept positive prompts and the distinct kept negative prompts, each in first-seen order |
| Extract.PromptsResult | civitai_fetch_model.py:236-261 | in each prompt list: no repeats, no empty entry, each entry stripped, exactly the values the images offer |
| Extract.LoraNamesAre | civitai_fetch_model.py:270-277 | a name is collected exactly when some file lists a required or optional resource with that truthy name |
| Extract.ExtractLoras | civitai_fetch_model.py:264-279 | the result is strictly ascending and holds exactly the collected names |
| Extract.LorasDetermined | civitai_fetch_model.py:279 | only one list meets that description |
| Naming.ReplaceDisallowed | civitai_fetch_model.py:160 | the substitution keeps the length, keeps every allowed character, and turns every other character into `_` |
| Naming.Sanitize | civitai_fetch_model.py:156-160 | a sanitised name holds only allowed characters and no surrounding whitespace |
| Naming.SanitizeKeeps | civitai_fetch_model.py:156-160 | a name that is already clean is returned unchanged |
| Naming.SanitizeIdempotent | civitai_fetch_model.py:156-160 | sanitising twice gives what sanitising once gives |
| Naming.SanitizeNoSeparators | civitai_fetch_model.py:160 | a sanitised name holds no `/` or `\` |
| Naming.FpTag | civitai_fetch_model.py:479-483 | the tag is `fp16`, `fp32` or empty, and it is `fp16` exactly when the URL contains `fp=fp16` |
| Naming.FpTagHalf | civitai_fetch_model.py:480-481 | `fp=fp16` anywhere gives `fp16` |
| Naming.FpTagFull | civitai_fetch_model.py:482-483 | `fp=fp32` without `fp=fp16` gives `fp32` |
| Naming.FpTagAbsent | civitai_fetch_model.py:479-483 | a URL holding neither `fp=fp16` nor `fp=fp32` (for instance one asking for `fp=fp8`) gets no tag |

## Left out

- Reading and writing files, HTTP requests, image downloads (`download_image`), loading the template (`load_template`), and the `main` and `run` orchestration. These are I/O.
- Inside `main`:
  - the version lookup, which compares version names without regard to case (line 361);
  - the regular expression that strips edge media from the description;
  - the size formatting with floats.

  These lie outside the templating and extraction core.
- `render_file_tables`. Its precision-tag rule (lines 302-306) is the same rule as lines 479-483, modelled once by `Naming.FpTag`.
- The user interface, configuration, API helper and packaging modules: `ui.py`, `config.py`, `civitai_api_helper.py`, `setup.py` and `__init__.py` are not part of this model.
- JSON values other than strings and null inside `meta`: the `str` conversion of a truthy number, list or dict is not modelled; the model takes the converted string as given. The same goes for `str(value)` on template values.
- Payloads on which the source raises: a `meta` that is truthy but not a dict, a `files` that is present but null (line 270), and a `requiredResources` or `optionalResources` that is present but null (line 272). The model's payload types cannot express them.
- Naming.Sanitize: Unicode `\w` is a parameter (`isWord`), not a character table.
- Strings.Replace: an empty pattern is excluded (`requires p != []`). No placeholder, marker or block is ever empty.
- InlineSections.FilesExample: the worked example is proved with its strings as parameters under conditions they meet, not evaluated on the literal template.
- Rendering.RenderOneSection: stated for a template with one list; no `<` before the section, in its name, in the text between its markers or in any row value; and no second BEGIN marker of the section in the text after it. A `<` after the section is allowed. The `<` conditions keep the cleanup passes from finding a marker the rows or the text around them would form; a second BEGIN marker would start another block.
- InlineSections.RenderInlineSection: stated for a template with one list ending in the section, with no `<` before the section, in its name or in the block text. The joined rows must be non-empty, hold no `>`, not start with a line break and contain one, so that the BEGIN marker's line ends inside the rows and the inline pass stops at the BEGIN marker's own ` -->`. When the rows hold no line break, the empty list included, the greedy pass takes the rows with the markers instead; `InlineSections.RenderInlineOneLine` and `InlineSections.RenderInlineEmpty` state that case. Rows starting with a line break, or holding a `>`, are not covered.
- Placeholders.KnownPlaceholdersReplaced: stated for templates and values without braces. A value that itself contains a placeholder can make a later key's replacement apply inside it.
- Placeholders.SubstituteIdempotent: stated for templates and values without braces, for the same reason.
- Placeholders.UnknownPlaceholderKept: stated for a template written as pieces and holes whose literal text and values hold no braces, so that it can also say where the placeholder ends up. For arbitrary text, `Placeholders.UnknownPlaceholderSurvives` states only that the placeholder still occurs.
- Rendering.CleanupBlock: requires that no `<` occurs before the block, between the two marker lines or in the section name. A `<` left at the end of one line could join with the text after a removed marker line into a new marker, so requiring only that no full marker opening occurs would not be enough.
- Rendering.CleanupEmptyBlock: requires no `<` before the block or in the section name, for the same reason.
- InlineSections.CleanupInlineBlock: requires no `<` before the block, in the rows or in the section name, for the same reason; the rows must also hold no `>`, must not start with a line break, and must contain one, so that the BEGIN marker is removed by an inline pass.
- InlineSections.CleanupOneLineBlock: requires no `<` before the block, and a section name that is non-empty and holds no `<` and no line break, for the same reason as Rendering.CleanupBlock.
- InlineSections.RenderInlineOneLine: stated for a template with one list ending in the section, with no `<` before the section, in its name or in the block text, and a name without a line break.
- InlineSections.RenderInlineEmpty: stated for a template with one list ending in the section, with no `<` before the section, in its name or in the block text, and a name without a line break.
- Placeholders.SubstitutePieces: stated for literal text, keys and values without braces, for the reason given for Placeholders.KnownPlaceholdersReplaced.
- Markers.LineMarkerRemoved: stated for a marker preceded by text without `<` and whose name is non-empty and holds no line break; a `<` earlier could open a match that swallows the marker.
- Markers.InlineMarkerRemoved: stated for a marker preceded by text without `<` and whose name is non-empty and holds no line break, for the same reason.
- Markers.InlineToEndRemoved: stated for a BEGIN marker preceded by text without `<`, for the same reason.
