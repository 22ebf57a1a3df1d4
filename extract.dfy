/**
  The metadata extractors: each walks the loosely typed API payload and
  collects values into a list kept free of repeats by a seen-set, in the
  order the values are first seen; LoRA names are collected into a set and
  returned sorted.

  A JSON value of a `meta` dict is `None` (JSON null) or `Some(s)`. A
  truthy value is `Some(str(v))`; a falsy one other than null (`0`, `0.0`,
  `false`, `""`, `[]`, `{}`) is `Some("")`, which every test on it in the
  extractors treats as Python treats the value itself.
 */
module Extract {
  import opened Wrappers
  import opened Strings
  import opened Dedup

  /* ---------------------------------------------------------------------- */
  /* Payload                                                                 */
  /* ---------------------------------------------------------------------- */

  type Meta = map<string, Option<string>>

  /** One entry of `images`; `meta` is `None` when the key is missing, null or falsy. */
  datatype Image = Image(meta: Option<Meta>)

  /** One entry of `requiredResources` or `optionalResources`. */
  datatype Resource = Resource(name: Option<string>)

  /** A missing resource list is the empty list. */
  datatype Training = Training(required: seq<Resource>, optional: seq<Resource>)

  /** `training` is `None` when the key is missing, null or falsy. */
  datatype ModelFile = ModelFile(training: Option<Training>)

  /** A missing `files` list is the empty list. */
  datatype Version = Version(files: seq<ModelFile>)

  const SamplerFieldNames: seq<string> := ["sampler", "samplerName", "Sampler"]
  const SchedulerFieldNames: seq<string> := ["scheduler", "schedulerName", "Scheduler"]
  const SizeFieldNames: seq<string> := ["size", "resolution", "Size"]
  const NegativeFieldNames: seq<string> := ["negativePrompt", "negativeprompt", "negative_prompt"]

  /** Python truthiness of a value. */
  predicate Truthy(v: Option<string>) {
    v.Some? && v.value != ""
  }

  /** `str(v or "")`. */
  function OrEmpty(v: Option<string>): (s: string)
    ensures s != "" <==> Truthy(v)
  {
    if Truthy(v) then v.value else ""
  }

  /** `img.get("meta") or {}`. */
  function MetaOf(img: Image): Meta {
    if img.meta.Some? then img.meta.value else map[]
  }

  /** `meta.get(key)`. */
  function Get(meta: Meta, key: string): Option<string> {
    if key in meta then meta[key] else None
  }

  /** `next((meta.get(f) for f in names if f in meta), None)`. */
  function FirstPresent(meta: Meta, names: seq<string>): Option<string>
    decreases |names|
  {
    if names == [] then None
    else if names[0] in meta then meta[names[0]]
    else FirstPresent(meta, names[1..])
  }

  /** `meta.get(names[0]) or meta.get(names[1]) or ...`: the first truthy value. */
  function FirstTruthy(meta: Meta, names: seq<string>): Option<string>
    decreases |names|
  {
    if names == [] then None
    else if Truthy(Get(meta, names[0])) then Get(meta, names[0])
    else FirstTruthy(meta, names[1..])
  }

  /**
    The value of the earliest candidate key that is present, whatever that
    value is, and `None` when no candidate is present.
   */
  lemma {:induction false} FirstPresentIsEarliest(meta: Meta, names: seq<string>)
    ensures FirstPresent(meta, names)
         == if exists i :: 0 <= i < |names| && names[i] in meta
            then meta[names[FirstKeyIndex(meta, names)]]
            else None
    decreases |names|
  {
    if names != [] && names[0] !in meta {
      FirstPresentIsEarliest(meta, names[1..]);
      if exists i :: 0 <= i < |names| && names[i] in meta {
        var i :| 0 <= i < |names| && names[i] in meta;
        assert names[1..][i - 1] in meta;
      }
      if exists i :: 0 <= i < |names[1..]| && names[1..][i] in meta {
        var i :| 0 <= i < |names[1..]| && names[1..][i] in meta;
        assert names[i + 1] in meta;
      }
    }
  }

  /** The index of the first candidate key present in `meta`. */
  function FirstKeyIndex(meta: Meta, names: seq<string>): (i: nat)
    requires exists i :: 0 <= i < |names| && names[i] in meta
    ensures i < |names| && names[i] in meta
    ensures forall j :: 0 <= j < i ==> names[j] !in meta
    decreases |names|
  {
    if names[0] in meta then 0
    else
      var k :| 0 <= k < |names| && names[k] in meta;
      assert names[1..][k - 1] in meta;
      1 + FirstKeyIndex(meta, names[1..])
  }

  /**
    The first truthy value among the candidate keys, and `None` when none
    of them holds one.
   */
  lemma {:induction false} FirstTruthyIsEarliest(meta: Meta, names: seq<string>)
    ensures Truthy(FirstTruthy(meta, names)) <==> exists i :: 0 <= i < |names| && Truthy(Get(meta, names[i]))
    ensures Truthy(FirstTruthy(meta, names)) ==>
      exists i :: 0 <= i < |names| && FirstTruthy(meta, names) == Get(meta, names[i])
        && forall j :: 0 <= j < i ==> !Truthy(Get(meta, names[j]))
    decreases |names|
  {
    if names != [] && !Truthy(Get(meta, names[0])) {
      FirstTruthyIsEarliest(meta, names[1..]);
      if exists i :: 0 <= i < |names| && Truthy(Get(meta, names[i])) {
        var i :| 0 <= i < |names| && Truthy(Get(meta, names[i]));
        assert Truthy(Get(meta, names[1..][i - 1]));
      }
      if Truthy(FirstTruthy(meta, names)) {
        var i :| 0 <= i < |names[1..]| && FirstTruthy(meta, names[1..]) == Get(meta, names[1..][i])
          && forall j :: 0 <= j < i ==> !Truthy(Get(meta, names[1..][j]));
        assert FirstTruthy(meta, names) == Get(meta, names[i + 1]);
        assert forall j :: 1 <= j < i + 1 ==> names[j] == names[1..][j - 1];
      }
    } else if names != [] {
      assert FirstTruthy(meta, names) == Get(meta, names[0]);
    }
  }
  /* ---------------------------------------------------------------------- */
  /* The candidate lists                                                     */
  /* ---------------------------------------------------------------------- */

  /**
    The values `entry` yields for the elements of `xs` that yield one, in
    order: the stream of values a seen-set loop offers to its list.
   */
  function Collect<A, T>(xs: seq<A>, entry: A -> Option<T>): seq<T>
    decreases |xs|
  {
    if xs == [] then []
    else
      var rest := Collect(xs[..|xs| - 1], entry);
      var v := entry(xs[|xs| - 1]);
      if v.Some? then rest + [v.value] else rest
  }

  lemma {:induction false} CollectMember<A, T>(xs: seq<A>, entry: A -> Option<T>, t: T)
    ensures t in Collect(xs, entry) <==> exists i :: 0 <= i < |xs| && entry(xs[i]) == Some(t)
    decreases |xs|
  {
    if xs != [] {
      var n := |xs| - 1;
      CollectMember(xs[..n], entry, t);
      if t in Collect(xs, entry) {
        if t in Collect(xs[..n], entry) {
          var i :| 0 <= i < n && entry(xs[..n][i]) == Some(t);
          assert xs[i] == xs[..n][i];
        } else {
          assert entry(xs[n]) == Some(t);
        }
      }
      if exists i :: 0 <= i < |xs| && entry(xs[i]) == Some(t) {
        var i :| 0 <= i < |xs| && entry(xs[i]) == Some(t);
        if i < n {
          assert xs[..n][i] == xs[i];
        }
      }
    }
  }

  lemma CollectMembers<A, T>(xs: seq<A>, entry: A -> Option<T>)
    ensures forall t :: t in Collect(xs, entry) <==> exists i :: 0 <= i < |xs| && entry(xs[i]) == Some(t)
  {
    forall t ensures t in Collect(xs, entry) <==> exists i :: 0 <= i < |xs| && entry(xs[i]) == Some(t) {
      CollectMember(xs, entry, t);
    }
  }

  /** One more element offers its value, if it yields one, after the others. */
  lemma CollectSnoc<A, T>(xs: seq<A>, n: nat, entry: A -> Option<T>)
    requires n < |xs|
    ensures Collect(xs[..n + 1], entry)
         == if entry(xs[n]).Some? then Collect(xs[..n], entry) + [entry(xs[n]).value] else Collect(xs[..n], entry)
  {
    assert xs[..n + 1][..n] == xs[..n];
  }

  /* ---------------------------------------------------------------------- */
  /* extract_sampler_scheduler                                               */
  /* ---------------------------------------------------------------------- */

  /** The (sampler, scheduler) pair an image yields, before the seen test. */
  function SamplerKey(img: Image): (string, string) {
    var meta := MetaOf(img);
    (Strip(OrEmpty(FirstPresent(meta, SamplerFieldNames))),
     Strip(OrEmpty(FirstPresent(meta, SchedulerFieldNames))))
  }

  /** `any(key)`: at least one component is non-empty. */
  predicate AnySet(key: (string, string)) {
    key.0 != "" || key.1 != ""
  }

  /** The pair an image offers to the list; a blank pair is not offered. */
  function SamplerEntry(img: Image): Option<(string, string)> {
    if AnySet(SamplerKey(img)) then Some(SamplerKey(img)) else None
  }

  method ExtractSamplerScheduler(images: seq<Image>) returns (results: seq<(string, string)>)
    ensures results == Distinct(Collect(images, SamplerEntry))
  {
    results := [];
    var seen: set<(string, string)> := {};
    for i := 0 to |images|
      invariant results == Distinct(Collect(images[..i], SamplerEntry))
      invariant forall k :: k in seen <==> k in results
    {
      var meta := MetaOf(images[i]);
      var sampler := FirstPresent(meta, SamplerFieldNames);
      var scheduler := FirstPresent(meta, SchedulerFieldNames);
      var key := (Strip(OrEmpty(sampler)), Strip(OrEmpty(scheduler)));
      CollectSnoc(images, i, SamplerEntry);
      if AnySet(key) {
        DistinctSnoc(Collect(images[..i], SamplerEntry), key);
      }
      if key !in seen && AnySet(key) {
        seen := seen + {key};
        results := results + [key];
      }
    }
    assert images[..|images|] == images;
  }

  lemma SamplerEntryIs(img: Image, k: (string, string))
    ensures SamplerEntry(img) == Some(k) <==> AnySet(k) && SamplerKey(img) == k
  {
  }

  /** A pair is returned exactly when it is not blank and some image yields it. */
  lemma SamplerSchedulerMember(images: seq<Image>, k: (string, string))
    ensures k in Distinct(Collect(images, SamplerEntry)) <==>
      AnySet(k) && exists i :: 0 <= i < |images| && SamplerKey(images[i]) == k
  {
    CollectMember(images, SamplerEntry, k);
    forall i | 0 <= i < |images| {
      SamplerEntryIs(images[i], k);
    }
  }

  /** No pair is returned twice, and `("", "")` never is. */
  lemma SamplerSchedulerResult(images: seq<Image>)
    ensures NoDuplicates(Distinct(Collect(images, SamplerEntry)))
    ensures ("", "") !in Distinct(Collect(images, SamplerEntry))
  {
    SamplerSchedulerMember(images, ("", ""));
  }

  /* ---------------------------------------------------------------------- */
  /* extract_resolutions                                                     */
  /* ---------------------------------------------------------------------- */

  /** `str(size).strip()` for a truthy size; a falsy size is not offered. */
  function SizeEntry(img: Image): Option<string> {
    var size := FirstPresent(MetaOf(img), SizeFieldNames);
    if Truthy(size) then Some(Strip(size.value)) else None
  }

  method ExtractResolutions(images: seq<Image>) returns (results: seq<string>)
    ensures results == Distinct(Collect(images, SizeEntry))
  {
    results := [];
    var seen: set<string> := {};
    for i := 0 to |images|
      invariant results == Distinct(Collect(images[..i], SizeEntry))
      invariant forall s :: s in seen <==> s in results
    {
      var meta := MetaOf(images[i]);
      var size := FirstPresent(meta, SizeFieldNames);
      CollectSnoc(images, i, SizeEntry);
      if Truthy(size) {
        var value := Strip(size.value);
        DistinctSnoc(Collect(images[..i], SizeEntry), value);
        if value !in seen {
          seen := seen + {value};
          results := results + [value];
        }
      }
    }
    assert images[..|images|] == images;
  }

  /**
    The resolutions returned: no repeats, each stripped, and exactly the
    stripped truthy sizes of the images.
   */
  lemma ResolutionsResult(images: seq<Image>)
    ensures NoDuplicates(Distinct(Collect(images, SizeEntry)))
    ensures forall s :: s in Distinct(Collect(images, SizeEntry)) ==> Trimmed(s)
    ensures forall s :: s in Distinct(Collect(images, SizeEntry)) <==>
      exists i :: 0 <= i < |images| && Truthy(FirstPresent(MetaOf(images[i]), SizeFieldNames))
        && Strip(FirstPresent(MetaOf(images[i]), SizeFieldNames).value) == s
  {
    var d := Distinct(Collect(images, SizeEntry));
    forall s
      ensures s in d <==>
        exists i :: 0 <= i < |images| && Truthy(FirstPresent(MetaOf(images[i]), SizeFieldNames))
          && Strip(FirstPresent(MetaOf(images[i]), SizeFieldNames).value) == s
      ensures s in d ==> Trimmed(s)
    {
      CollectMember(images, SizeEntry, s);
      forall i | 0 <= i < |images|
        ensures SizeEntry(images[i]) == Some(s) <==>
          Truthy(FirstPresent(MetaOf(images[i]), SizeFieldNames))
          && Strip(FirstPresent(MetaOf(images[i]), SizeFieldNames).value) == s
      {
      }
    }
  }

  /**
    Truthiness is tested before stripping: a size made only of whitespace
    is truthy and is recorded as the empty string.
   */
  lemma BlankSizeGivesEmpty(images: seq<Image>, i: nat)
    requires i < |images|
    requires FirstPresent(MetaOf(images[i]), SizeFieldNames).Some?
    requires var size := FirstPresent(MetaOf(images[i]), SizeFieldNames).value;
      size != [] && forall k :: 0 <= k < |size| ==> IsSpace(size[k])
    ensures "" in Distinct(Collect(images, SizeEntry))
  {
    var size := FirstPresent(MetaOf(images[i]), SizeFieldNames).value;
    var v := Strip(size);
    assert v == [];
    CollectMembers(images, SizeEntry);
    assert SizeEntry(images[i]) == Some("");
  }

  /* ---------------------------------------------------------------------- */
  /* extract_prompts                                                         */
  /* ---------------------------------------------------------------------- */

  /** `str(v).strip()` when `v` is truthy and the result is non-empty. */
  function Kept(v: Option<string>): (r: Option<string>)
    ensures r.Some? ==> r.value != "" && Trimmed(r.value)
  {
    if Truthy(v) && Strip(v.value) != "" then Some(Strip(v.value)) else None
  }

  /** The positive prompt reads the `prompt` key alone. */
  function PositiveEntry(img: Image): Option<string> {
    Kept(Get(MetaOf(img), "prompt"))
  }

  /** The negative prompt is the first truthy of its three spellings. */
  function NegativeEntry(img: Image): Option<string> {
    Kept(FirstTruthy(MetaOf(img), NegativeFieldNames))
  }

  method ExtractPrompts(images: seq<Image>) returns (positive: seq<string>, negative: seq<string>)
    ensures positive == Distinct(Collect(images, PositiveEntry))
    ensures negative == Distinct(Collect(images, NegativeEntry))
  {
    positive, negative := [], [];
    var seenPos: set<string>, seenNeg: set<string> := {}, {};
    for i := 0 to |images|
      invariant positive == Distinct(Collect(images[..i], PositiveEntry))
      invariant negative == Distinct(Collect(images[..i], NegativeEntry))
      invariant forall s :: s in seenPos <==> s in positive
      invariant forall s :: s in seenNeg <==> s in negative
    {
      var meta := MetaOf(images[i]);
      var pos := Get(meta, "prompt");
      var neg := FirstTruthy(meta, NegativeFieldNames);
      CollectSnoc(images, i, PositiveEntry);
      CollectSnoc(images, i, NegativeEntry);
      if Truthy(pos) {
        var p := Strip(pos.value);
        DistinctSnoc(Collect(images[..i], PositiveEntry), p);
        if p != "" && p !in seenPos {
          seenPos := seenPos + {p};
          positive := positive + [p];
        }
      }
      if Truthy(neg) {
        var q := Strip(neg.value);
        DistinctSnoc(Collect(images[..i], NegativeEntry), q);
        if q != "" && q !in seenNeg {
          seenNeg := seenNeg + {q};
          negative := negative + [q];
        }
      }
    }
    assert images[..|images|] == images;
  }

  /**
    Each prompt list returned: no repeats, no empty string, each entry
    stripped, and exactly the kept values of its kind.
   */
  lemma PromptsResult(images: seq<Image>, entry: Image -> Option<string>)
    requires entry == PositiveEntry || entry == NegativeEntry
    ensures NoDuplicates(Distinct(Collect(images, entry)))
    ensures forall s :: s in Distinct(Collect(images, entry)) ==> s != "" && Trimmed(s)
    ensures forall s :: s in Distinct(Collect(images, entry)) <==>
      exists i :: 0 <= i < |images| && entry(images[i]) == Some(s)
  {
    CollectMembers(images, entry);
    forall s | s in Distinct(Collect(images, entry)) ensures s != "" && Trimmed(s) {
      var i :| 0 <= i < |images| && entry(images[i]) == Some(s);
      if entry == PositiveEntry {
        assert PositiveEntry(images[i]) == Some(s);
      } else {
        assert NegativeEntry(images[i]) == Some(s);
      }
    }
  }

  /* ---------------------------------------------------------------------- */
  /* extract_loras                                                           */
  /* ---------------------------------------------------------------------- */

  /** `requiredResources + optionalResources` of a file, nothing without `training`. */
  function Resources(f: ModelFile): seq<Resource> {
    if f.training.Some? then f.training.value.required + f.training.value.optional else []
  }

  /** The union of the sets `part` gives for the elements of `xs`, built front to back. */
  function Union<A, T>(xs: seq<A>, part: A -> set<T>): set<T>
    decreases |xs|
  {
    if xs == [] then {} else Union(xs[..|xs| - 1], part) + part(xs[|xs| - 1])
  }

  lemma {:induction false} UnionMember<A, T>(xs: seq<A>, part: A -> set<T>, t: T)
    ensures t in Union(xs, part) <==> exists i :: 0 <= i < |xs| && t in part(xs[i])
    decreases |xs|
  {
    if xs != [] {
      var n := |xs| - 1;
      UnionMember(xs[..n], part, t);
      if t in Union(xs, part) {
        if t in Union(xs[..n], part) {
          var i :| 0 <= i < n && t in part(xs[..n][i]);
          assert xs[i] == xs[..n][i];
        } else {
          assert t in part(xs[n]);
        }
      }
      if exists i :: 0 <= i < |xs| && t in part(xs[i]) {
        var i :| 0 <= i < |xs| && t in part(xs[i]);
        if i < n {
          assert xs[..n][i] == xs[i];
        }
      }
    }
  }

  /** The name a resource contributes: its name when truthy, else none. */
  function NameOf(r: Resource): set<string> {
    if Truthy(r.name) then {r.name.value} else {}
  }

  /** The names one file contributes. */
  function FileNames(f: ModelFile): set<string> {
    Union(Resources(f), NameOf)
  }

  /** The names collected over all files. */
  function LoraNames(files: seq<ModelFile>): set<string> {
    Union(files, FileNames)
  }

  lemma FileNameMember(f: ModelFile, s: string)
    ensures s in FileNames(f) <==> exists r :: r in Resources(f) && Truthy(r.name) && r.name.value == s
  {
    var rs := Resources(f);
    UnionMember(rs, NameOf, s);
    if s in FileNames(f) {
      var k :| 0 <= k < |rs| && s in NameOf(rs[k]);
      assert rs[k] in rs;
    }
    if exists r :: r in rs && Truthy(r.name) && r.name.value == s {
      var r :| r in rs && Truthy(r.name) && r.name.value == s;
      var k :| 0 <= k < |rs| && rs[k] == r;
      assert s in NameOf(rs[k]);
    }
  }

  /**
    A name is collected exactly when some file lists a resource with that
    truthy name, required or optional; a file without training adds none.
   */
  lemma LoraNamesAre(files: seq<ModelFile>)
    ensures forall s :: s in LoraNames(files) <==>
      exists i, r :: 0 <= i < |files| && r in Resources(files[i]) && Truthy(r.name) && r.name.value == s
  {
    forall s
      ensures s in LoraNames(files) <==>
        exists i, r :: 0 <= i < |files| && r in Resources(files[i]) && Truthy(r.name) && r.name.value == s
    {
      UnionMember(files, FileNames, s);
      if s in LoraNames(files) {
        var i :| 0 <= i < |files| && s in FileNames(files[i]);
        FileNameMember(files[i], s);
      }
      if exists i, r :: 0 <= i < |files| && r in Resources(files[i]) && Truthy(r.name) && r.name.value == s {
        var i, r :| 0 <= i < |files| && r in Resources(files[i]) && Truthy(r.name) && r.name.value == s;
        FileNameMember(files[i], s);
      }
    }
  }

  method ExtractLoras(version: Version) returns (names: seq<string>)
    ensures StrictlyAscending(names)
    ensures forall s :: s in names <==> s in LoraNames(version.files)
  {
    var files := version.files;
    var loras: set<string> := {};
    for i := 0 to |files|
      invariant loras == LoraNames(files[..i])
    {
      var resources := Resources(files[i]);
      for j := 0 to |resources|
        invariant loras == LoraNames(files[..i]) + Union(resources[..j], NameOf)
      {
        var name := resources[j].name;
        assert resources[..j + 1][..j] == resources[..j];
        if Truthy(name) {
          loras := loras + {name.value};
        }
      }
      assert resources[..|resources|] == resources;
      assert files[..i + 1][..i] == files[..i];
    }
    assert files[..|files|] == files;
    names := SortedSet(loras);
  }

  /** Sorted, repeat-free and holding exactly the collected names, the result is unique. */
  lemma LorasDetermined(version: Version, a: seq<string>, b: seq<string>)
    requires StrictlyAscending(a) && forall s :: s in a <==> s in LoraNames(version.files)
    requires StrictlyAscending(b) && forall s :: s in b <==> s in LoraNames(version.files)
    ensures a == b
  {
    AscendingUnique(a, b);
  }
}
