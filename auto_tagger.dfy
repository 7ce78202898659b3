/**
 * The auto-tagger: it asks a language model for tags in a closed
 * four-category taxonomy, then keeps only tags from that taxonomy, falling
 * back to each category's first label; it also cuts a long document down
 * to a head/middle/tail sample for the prompt.
 *
 * Validation is stated for any taxonomy shaped like `tag_structure` (a dict
 * from category name to a non-empty label list) and then applied to the
 * tagger's own one.
 */
module AutoTagger {
  import opened Wrappers
  import opened PyText
  import opened Json

  /** A taxonomy: category names in their declared order, each with its allowed labels. */
  type Taxonomy = seq<(string, seq<string>)>

  const ActionTags: seq<string> :=
    ["Lecture", "Assignment", "Reading", "Exercise", "Quiz", "Lab", "Project", "Discussion", "Demonstration"]
  const RelationshipTags: seq<string> :=
    ["Student-Led", "Group Work", "Prerequisite", "Follow-up", "Reference", "Supplemental", "Core", "Optional", "Collaborative"]
  const DisciplineTags: seq<string> :=
    ["Mathematics", "Biology", "Chemistry", "Physics", "Computer Science", "Literature", "History", "Psychology", "Economics", "Art", "Music"]
  const PurposeTags: seq<string> :=
    ["Conceptual Understanding", "Skill Building", "Assessment", "Critical Thinking", "Application", "Review", "Introduction", "Analysis", "Synthesis"]

  /** The tagger's `tag_structure`, category by category in its declared order. */
  const TagStructure: Taxonomy := [
    ("Action", ActionTags),
    ("Relationships", RelationshipTags),
    ("Discipline", DisciplineTags),
    ("Purpose", PurposeTags)
  ]

  const Categories: set<string> := {"Action", "Relationships", "Discipline", "Purpose"}

  /** Every category has a first label to fall back on. */
  predicate Labelled(structure: Taxonomy)
  {
    forall k | 0 <= k < |structure| :: structure[k].1 != []
  }

  /** Labelled, and, as the keys of a dict, the category names are distinct. */
  predicate WellFormed(structure: Taxonomy)
  {
    Labelled(structure) && forall i, j | 0 <= i < j < |structure| :: structure[i].0 != structure[j].0
  }

  /** The first `n` category names. */
  function NamesUpTo(structure: Taxonomy, n: nat): set<string>
    requires n <= |structure|
  {
    set k | 0 <= k < n :: structure[k].0
  }

  function Name(k: nat): string
    requires k < |TagStructure|
  {
    TagStructure[k].0
  }

  function Allowed(k: nat): seq<string>
    requires k < |TagStructure|
  {
    TagStructure[k].1
  }

  /** The tagger's taxonomy is well formed, with four categories holding 9, 9, 11 and 9 labels. */
  lemma TaxonomyShape()
    ensures |TagStructure| == 4
    ensures |Allowed(0)| == 9 && |Allowed(1)| == 9 && |Allowed(2)| == 11 && |Allowed(3)| == 9
    ensures WellFormed(TagStructure)
    ensures NamesUpTo(TagStructure, 4) == Categories
  {
    assert Name(0) == "Action" && Name(1) == "Relationships" && Name(2) == "Discipline" && Name(3) == "Purpose";
    assert forall c :: c in Categories ==> c in NamesUpTo(TagStructure, 4);
  }

  /** A validated tag map: category name to the tags kept for it. */
  type TagMap = map<string, seq<string>>

  // ---------------------------------------------------------------------
  // _validate_tags

  /** Python's `category in tags`: dict keys, list items, substrings; `None` where Python raises `TypeError`. */
  function PyIn(tags: Json, category: string): (r: Option<bool>)
    ensures r.Some? <==> (tags.JObj? || tags.JArr? || tags.JStr?)
  {
    match tags
    case JObj(fields) => Some(Lookup(fields, category).Some?)
    case JArr(items) => Some(JStr(category) in items)
    case JStr(s) => Some(Contains(s, category))
    case _ => None
  }

  /** `[tag for tag in items if tag in values]`: the string items that are allowed labels, in order. */
  function FilterAllowed(items: seq<Json>, values: seq<string>): (r: seq<string>)
    ensures |r| <= |items|
    ensures forall t :: t in r ==> t in values && JStr(t) in items
    ensures forall i :: 0 <= i < |items| && items[i].JStr? && items[i].s in values ==> items[i].s in r
  {
    if items == [] then []
    else
      var rest := FilterAllowed(items[1..], values);
      assert forall i :: 1 <= i < |items| ==> items[i] == items[1..][i - 1];
      if items[0].JStr? && items[0].s in values then [items[0].s] + rest else rest
  }

  /** The filter keeps every allowed item: nothing is capped, reordered or de-duplicated. */
  lemma {:induction false} FilterKeepsAllowed(items: seq<Json>, values: seq<string>)
    requires forall i :: 0 <= i < |items| ==> items[i].JStr? && items[i].s in values
    ensures |FilterAllowed(items, values)| == |items|
    ensures forall i :: 0 <= i < |items| ==> FilterAllowed(items, values)[i] == items[i].s
  {
    if items != [] {
      FilterKeepsAllowed(items[1..], values);
    }
  }

  /** What one pass of the loop stores for a category, or `None` where it raises. */
  function CategoryTags(tags: Json, category: string, values: seq<string>): (r: Option<seq<string>>)
    requires values != []
    ensures r.Some? ==> r.value != [] && forall t :: t in r.value ==> t in values
  {
    match PyIn(tags, category)
    case None => None
    case Some(present) =>
      if !present then Some([values[0]])
      else
        match Subscript(tags, category)
        case None => None
        case Some(v) =>
          if v.JArr? then
            var valid := FilterAllowed(v.items, values);
            if valid != [] then Some(valid) else Some([values[0]])
          else Some([values[0]])
  }

  /** The map after the first `n` categories of the loop, or `None` once one raised. */
  function ValidatedUpTo(tags: Json, structure: Taxonomy, n: nat): Option<TagMap>
    requires n <= |structure| && Labelled(structure)
  {
    if n == 0 then Some(map[])
    else
      match ValidatedUpTo(tags, structure, n - 1)
      case None => None
      case Some(m) =>
        match CategoryTags(tags, structure[n - 1].0, structure[n - 1].1)
        case None => None
        case Some(v) => Some(m[structure[n - 1].0 := v])
  }

  function Validate(tags: Json, structure: Taxonomy): Option<TagMap>
    requires Labelled(structure)
  {
    ValidatedUpTo(tags, structure, |structure|)
  }

  /** `_validate_tags` over the tagger's own taxonomy. */
  function Validated(tags: Json): Option<TagMap>
  {
    TaxonomyShape();
    Validate(tags, TagStructure)
  }

  /** `_validate_tags`: the loop over the taxonomy filling `validated`; `None` is an exception. */
  method ValidateTags(tags: Json, structure: Taxonomy) returns (validated: Option<TagMap>)
    requires WellFormed(structure)
    ensures validated == Validate(tags, structure)
    ensures validated.Some? ==> validated.value.Keys == NamesUpTo(structure, |structure|)
    ensures tags.JObj? ==> validated.Some?
  {
    var m: TagMap := map[];
    for i := 0 to |structure|
      invariant ValidatedUpTo(tags, structure, i) == Some(m)
    {
      var (category, values) := structure[i];
      var present := PyIn(tags, category);
      if present.None? {
        RaiseStays(tags, structure, i + 1, |structure|);
        return None;
      }
      if present.value {
        var value := Subscript(tags, category);
        if value.None? {
          RaiseStays(tags, structure, i + 1, |structure|);
          return None;
        }
        if value.value.JArr? {
          var valid := FilterAllowed(value.value.items, values);
          if valid != [] {
            m := m[category := valid];
          } else {
            m := m[category := [values[0]]];
          }
        } else {
          m := m[category := [values[0]]];
        }
      } else {
        m := m[category := [values[0]]];
      }
    }
    validated := Some(m);
    ValidatedSpec(tags, structure, |structure|);
    if tags.JObj? {
      DictNeverRaises(tags, structure);
    }
  }

  /** Once a pass raises, the loop raises. */
  lemma {:induction false} RaiseStays(tags: Json, structure: Taxonomy, i: nat, n: nat)
    requires i <= n <= |structure| && Labelled(structure) && ValidatedUpTo(tags, structure, i).None?
    ensures ValidatedUpTo(tags, structure, n).None?
    decreases n - i
  {
    if i < n {
      RaiseStays(tags, structure, i + 1, n);
    }
  }

  /** The fold raises exactly when one of the first `n` passes raises. */
  lemma {:induction false} ValidatedRaises(tags: Json, structure: Taxonomy, n: nat)
    requires n <= |structure| && Labelled(structure)
    ensures ValidatedUpTo(tags, structure, n).Some? <==>
      forall k :: 0 <= k < n ==> CategoryTags(tags, structure[k].0, structure[k].1).Some?
  {
    if n > 0 {
      ValidatedRaises(tags, structure, n - 1);
    }
  }

  /** The fold's keys are the first `n` category names. */
  lemma {:induction false} ValidatedKeys(tags: Json, structure: Taxonomy, n: nat)
    requires n <= |structure| && Labelled(structure) && ValidatedUpTo(tags, structure, n).Some?
    ensures ValidatedUpTo(tags, structure, n).value.Keys == NamesUpTo(structure, n)
  {
    if n > 0 {
      ValidatedKeys(tags, structure, n - 1);
      assert NamesUpTo(structure, n) == NamesUpTo(structure, n - 1) + {structure[n - 1].0};
    }
  }

  /** With distinct names, each of the first `n` categories holds what its own pass computed. */
  lemma {:induction false} ValidatedValues(tags: Json, structure: Taxonomy, n: nat)
    requires n <= |structure| && WellFormed(structure) && ValidatedUpTo(tags, structure, n).Some?
    ensures forall k :: 0 <= k < n ==>
      var m := ValidatedUpTo(tags, structure, n).value;
      structure[k].0 in m && Some(m[structure[k].0]) == CategoryTags(tags, structure[k].0, structure[k].1)
  {
    if n > 0 {
      ValidatedValues(tags, structure, n - 1);
      var m := ValidatedUpTo(tags, structure, n - 1).value;
      var c := structure[n - 1].0;
      var v := CategoryTags(tags, c, structure[n - 1].1).value;
      assert ValidatedUpTo(tags, structure, n).value == m[c := v];
      forall k | 0 <= k < n - 1 ensures structure[k].0 != c {
      }
    }
  }

  /** The fold stores exactly the first `n` categories, each with what its own pass computes. */
  lemma ValidatedSpec(tags: Json, structure: Taxonomy, n: nat)
    requires n <= |structure| && WellFormed(structure)
    ensures ValidatedUpTo(tags, structure, n).Some? <==>
      forall k :: 0 <= k < n ==> CategoryTags(tags, structure[k].0, structure[k].1).Some?
    ensures ValidatedUpTo(tags, structure, n).Some? ==>
      ValidatedUpTo(tags, structure, n).value.Keys == NamesUpTo(structure, n) &&
      forall k :: 0 <= k < n ==>
        ValidatedUpTo(tags, structure, n).value[structure[k].0] == CategoryTags(tags, structure[k].0, structure[k].1).value
  {
    ValidatedRaises(tags, structure, n);
    if ValidatedUpTo(tags, structure, n).Some? {
      ValidatedKeys(tags, structure, n);
      ValidatedValues(tags, structure, n);
    }
  }

  /** The output's keys are exactly the categories; every list is non-empty and holds only that category's labels. */
  lemma ValidatedWellFormed(tags: Json, structure: Taxonomy)
    requires WellFormed(structure) && Validate(tags, structure).Some?
    ensures Validate(tags, structure).value.Keys == NamesUpTo(structure, |structure|)
    ensures forall k :: 0 <= k < |structure| ==>
      var v := Validate(tags, structure).value[structure[k].0];
      v != [] && forall t :: t in v ==> t in structure[k].1
  {
    ValidatedSpec(tags, structure, |structure|);
  }

  /** Each category holds what its own pass of the loop computed. */
  lemma ValidatedAt(tags: Json, structure: Taxonomy, k: nat)
    requires WellFormed(structure) && Validate(tags, structure).Some? && k < |structure|
    ensures CategoryTags(tags, structure[k].0, structure[k].1).Some?
    ensures structure[k].0 in Validate(tags, structure).value
    ensures Validate(tags, structure).value[structure[k].0] == CategoryTags(tags, structure[k].0, structure[k].1).value
  {
    ValidatedSpec(tags, structure, |structure|);
    assert structure[k].0 in NamesUpTo(structure, |structure|);
  }

  /** A dict from the model never makes validation raise. */
  lemma DictNeverRaises(tags: Json, structure: Taxonomy)
    requires WellFormed(structure) && tags.JObj?
    ensures Validate(tags, structure).Some?
  {
    ValidatedSpec(tags, structure, |structure|);
  }

  /**
   * For a dict, each category keeps the allowed labels of its list, in
   * order and with duplicates; a missing category, a value that is not a
   * list, or a list with no allowed label gives the category's first label.
   */
  lemma ValidatedCategory(tags: Json, structure: Taxonomy, k: nat)
    requires WellFormed(structure) && tags.JObj? && k < |structure|
    ensures Validate(tags, structure).Some? && structure[k].0 in Validate(tags, structure).value
    ensures var v := Validate(tags, structure).value[structure[k].0];
      var values := structure[k].1;
      match Lookup(tags.fields, structure[k].0)
      case Some(JArr(items)) =>
        v == if FilterAllowed(items, values) != [] then FilterAllowed(items, values) else [values[0]]
      case _ => v == [values[0]]
  {
    DictNeverRaises(tags, structure);
    ValidatedAt(tags, structure, k);
  }

  /** Each category's first label. */
  function FallbackOf(structure: Taxonomy): (r: TagMap)
    requires WellFormed(structure)
    ensures r.Keys == NamesUpTo(structure, |structure|)
    ensures forall k :: 0 <= k < |structure| ==> r[structure[k].0] == [structure[k].1[0]]
  {
    map k | 0 <= k < |structure| :: structure[k].0 := [structure[k].1[0]]
  }

  /** `_generate_fallback_tags`: each category's first label; the filename plays no part. */
  function FallbackTags(filename: string): (r: TagMap)
    ensures r.Keys == Categories
    ensures forall k :: 0 <= k < |TagStructure| ==> r[Name(k)] == [Allowed(k)[0]]
  {
    TaxonomyShape();
    FallbackOf(TagStructure)
  }

  /** Two maps over the same categories that agree on each category are equal. */
  lemma SameTags(structure: Taxonomy, m: TagMap, f: TagMap)
    requires m.Keys == NamesUpTo(structure, |structure|) && f.Keys == m.Keys
    requires forall k :: 0 <= k < |structure| ==> m[structure[k].0] == f[structure[k].0]
    ensures m == f
  {
    forall c | c in m ensures m[c] == f[c] {
      var k :| 0 <= k < |structure| && structure[k].0 == c;
    }
  }

  /** The fallback tags are what validating an empty dict gives. */
  lemma FallbackIsValidatedEmpty(structure: Taxonomy)
    requires WellFormed(structure)
    ensures Validate(EmptyObject, structure) == Some(FallbackOf(structure))
  {
    DictNeverRaises(EmptyObject, structure);
    ValidatedWellFormed(EmptyObject, structure);
    forall k | 0 <= k < |structure|
      ensures Validate(EmptyObject, structure).value[structure[k].0] == FallbackOf(structure)[structure[k].0]
    {
      ValidatedCategory(EmptyObject, structure, k);
    }
    SameTags(structure, Validate(EmptyObject, structure).value, FallbackOf(structure));
  }

  /** Off a dict, a pass raises exactly when the category is `in` the value, and otherwise stores the first label. */
  lemma CategoryOffDict(tags: Json, category: string, values: seq<string>)
    requires !tags.JObj? && values != []
    ensures CategoryTags(tags, category, values).None? <==> PyIn(tags, category) != Some(false)
    ensures CategoryTags(tags, category, values).Some? ==> CategoryTags(tags, category, values).value == [values[0]]
  {
  }

  /** Off a dict, validation raises exactly when some category name is `in` the value. */
  lemma NonDictRaises(tags: Json, structure: Taxonomy)
    requires WellFormed(structure) && !tags.JObj?
    ensures Validate(tags, structure).None? <==>
      exists c :: c in NamesUpTo(structure, |structure|) && PyIn(tags, c) != Some(false)
  {
    ValidatedSpec(tags, structure, |structure|);
    if Validate(tags, structure).None? {
      var k :| 0 <= k < |structure| && CategoryTags(tags, structure[k].0, structure[k].1).None?;
      CategoryOffDict(tags, structure[k].0, structure[k].1);
      assert structure[k].0 in NamesUpTo(structure, |structure|);
    } else {
      forall c | c in NamesUpTo(structure, |structure|) ensures PyIn(tags, c) == Some(false) {
        var k :| 0 <= k < |structure| && structure[k].0 == c;
        CategoryOffDict(tags, structure[k].0, structure[k].1);
      }
    }
  }

  /** Off a dict, validation that does not raise gives the fallback tags. */
  lemma NonDictFallback(tags: Json, structure: Taxonomy)
    requires WellFormed(structure) && !tags.JObj? && Validate(tags, structure).Some?
    ensures Validate(tags, structure) == Some(FallbackOf(structure))
  {
    ValidatedWellFormed(tags, structure);
    forall k | 0 <= k < |structure|
      ensures Validate(tags, structure).value[structure[k].0] == FallbackOf(structure)[structure[k].0]
    {
      ValidatedAt(tags, structure, k);
      CategoryOffDict(tags, structure[k].0, structure[k].1);
    }
    SameTags(structure, Validate(tags, structure).value, FallbackOf(structure));
  }

  /**
   * For the tagger's taxonomy, anything but a dict makes validation raise or
   * fall back: other scalars raise, and a list or string raises exactly when
   * a category name is an item of it or a piece of it.
   */
  lemma NonDictInput(tags: Json)
    requires !tags.JObj?
    ensures !tags.JArr? && !tags.JStr? ==> Validated(tags).None?
    ensures tags.JArr? ==> (Validated(tags).None? <==> exists c :: c in Categories && JStr(c) in tags.items)
    ensures tags.JStr? ==> (Validated(tags).None? <==> exists c :: c in Categories && Contains(tags.s, c))
    ensures Validated(tags).Some? ==> Validated(tags) == Some(FallbackTags(""))
  {
    TaxonomyShape();
    NonDictRaises(tags, TagStructure);
    assert PyIn(tags, "Action") != Some(false) ==> "Action" in Categories;
    if Validated(tags).Some? {
      NonDictFallback(tags, TagStructure);
    }
  }

  // ----- idempotence

  function Strs(v: seq<string>): (r: seq<Json>)
    ensures |r| == |v| && forall i :: 0 <= i < |v| ==> r[i] == JStr(v[i])
  {
    seq(|v|, i requires 0 <= i < |v| => JStr(v[i]))
  }

  /** The dict a tag map stands for, in taxonomy order, as `json.loads` would give it back. */
  function ToJson(m: TagMap, structure: Taxonomy): Json
  {
    JObj(FieldsUpTo(m, structure, |structure|))
  }

  function FieldsUpTo(m: TagMap, structure: Taxonomy, n: nat): seq<(string, Json)>
    requires n <= |structure|
  {
    if n == 0 then []
    else FieldsUpTo(m, structure, n - 1) + Field(m, structure[n - 1].0)
  }

  /** The entry for one category, when the map has it. */
  function Field(m: TagMap, c: string): seq<(string, Json)>
  {
    if c in m then [(c, JArr(Strs(m[c])))] else []
  }

  lemma {:induction false} FieldsUpToLookup(m: TagMap, structure: Taxonomy, n: nat, k: nat)
    requires k < n <= |structure| && WellFormed(structure) && structure[k].0 in m
    ensures Lookup(FieldsUpTo(m, structure, n), structure[k].0) == Some(JArr(Strs(m[structure[k].0])))
  {
    var prev := FieldsUpTo(m, structure, n - 1);
    if k < n - 1 {
      FieldsUpToLookup(m, structure, n - 1, k);
      LookupAppend(prev, Field(m, structure[n - 1].0), structure[k].0);
    } else {
      FieldsUpToMissing(m, structure, n - 1, structure[k].0);
      LookupAppend(prev, Field(m, structure[k].0), structure[k].0);
    }
  }

  lemma {:induction false} FieldsUpToMissing(m: TagMap, structure: Taxonomy, n: nat, c: string)
    requires n <= |structure| && forall k :: 0 <= k < n ==> structure[k].0 != c
    ensures Lookup(FieldsUpTo(m, structure, n), c).None?
  {
    if n > 0 {
      FieldsUpToMissing(m, structure, n - 1, c);
      LookupAppend(FieldsUpTo(m, structure, n - 1), Field(m, structure[n - 1].0), c);
    }
  }

  lemma {:induction false} LookupAppend(xs: seq<(string, Json)>, ys: seq<(string, Json)>, key: string)
    ensures Lookup(xs + ys, key) == if Lookup(xs, key).Some? then Lookup(xs, key) else Lookup(ys, key)
  {
    if xs != [] {
      assert (xs + ys)[1..] == xs[1..] + ys;
      LookupAppend(xs[1..], ys, key);
    } else {
      assert xs + ys == ys;
    }
  }

  /** Validating an already-validated map, read back as JSON, returns it unchanged. */
  lemma ValidateIdempotent(tags: Json, structure: Taxonomy)
    requires WellFormed(structure) && Validate(tags, structure).Some?
    ensures Validate(ToJson(Validate(tags, structure).value, structure), structure) == Validate(tags, structure)
  {
    var m := Validate(tags, structure).value;
    ValidatedWellFormed(tags, structure);
    var j := ToJson(m, structure);
    DictNeverRaises(j, structure);
    ValidatedWellFormed(j, structure);
    forall k | 0 <= k < |structure| ensures Validate(j, structure).value[structure[k].0] == m[structure[k].0] {
      ValidatedCategory(j, structure, k);
      FieldsUpToLookup(m, structure, |structure|, k);
      var v := m[structure[k].0];
      FilterKeepsAllowed(Strs(v), structure[k].1);
      assert FilterAllowed(Strs(v), structure[k].1) == v;
    }
    SameTags(structure, Validate(j, structure).value, m);
  }

  // ---------------------------------------------------------------------
  // _extract_sample

  const SampleBreak := "\n\n[...]\n\n"

  /** `_extract_sample(text, max_length)`: the text itself when short enough, else head, middle and tail. */
  function ExtractSample(text: string, maxLength: int): (r: string)
    ensures |text| <= maxLength ==> r == text
    ensures |text| > maxLength >= 3 ==> |r| == 3 * (maxLength / 3) + 18
  {
    if |text| <= maxLength then text
    else
      var third := maxLength / 3;
      var beginning := Take(text, third);
      var middleStart := |text| / 2 - third / 2;
      var middle := Slice(text, middleStart, middleStart + third);
      var end := TakeLast(text, third);
      beginning + SampleBreak + middle + SampleBreak + end
  }

  /** A text within the limit is the sample itself. */
  lemma SampleOfShortText(text: string, maxLength: int)
    requires |text| <= maxLength
    ensures ExtractSample(text, maxLength) == text
  {
  }

  /**
   * Past the limit (of at least 3), the sample is the first, middle and last
   * third of the limit, in that order, between two break markers, and its
   * length is fixed by the limit alone.
   */
  lemma SampleOfLongText(text: string, maxLength: int)
    requires maxLength >= 3 && |text| > maxLength
    ensures var third := maxLength / 3;
      var middleStart := |text| / 2 - third / 2;
      0 <= middleStart && middleStart + third <= |text| &&
      ExtractSample(text, maxLength) ==
        text[..third] + SampleBreak + text[middleStart..middleStart + third] + SampleBreak + text[|text| - third..]
    ensures |ExtractSample(text, maxLength)| == 3 * (maxLength / 3) + 18
  {
    var third := maxLength / 3;
    assert 1 <= third && 3 * third <= maxLength;
  }

  /** Below 3 the third is empty, and `text[-0:]` is the whole text: the sample is two markers and all of it. */
  lemma SampleOfTinyLimit(text: string, maxLength: int)
    requires 0 <= maxLength < 3 && |text| > maxLength
    ensures ExtractSample(text, maxLength) == SampleBreak + SampleBreak + text
  {
  }

  // ---------------------------------------------------------------------
  // tag_document

  /**
   * `tag_document`: sample the text, ask the model (`complete`, which
   * builds the prompt from the sample and filename; `None` is an API
   * exception), parse with `loads` and validate. Every exception on the
   * way yields the fallback tags.
   */
  function TagDocument(text: string, filename: string,
                       complete: (string, string) -> Option<string>,
                       loads: string -> Option<Json>): (r: TagMap)
    ensures r.Keys == Categories
    ensures complete(ExtractSample(text, 2000), filename).None? ==> r == FallbackTags(filename)
    ensures var reply := complete(ExtractSample(text, 2000), filename);
      reply.Some? && (loads(reply.value).None? || Validated(loads(reply.value).value).None?) ==>
        r == FallbackTags(filename)
    ensures var reply := complete(ExtractSample(text, 2000), filename);
      reply.Some? && loads(reply.value).Some? && Validated(loads(reply.value).value).Some? ==>
        r == Validated(loads(reply.value).value).value
  {
    var sample := ExtractSample(text, 2000);
    match complete(sample, filename)
    case None => FallbackTags(filename)
    case Some(content) =>
      match loads(content)
      case None => FallbackTags(filename)
      case Some(tags) =>
        match Validated(tags)
        case None => FallbackTags(filename)
        case Some(m) => TaxonomyShape(); ValidatedWellFormed(tags, TagStructure); m
  }

  /** Whatever the model answers, every tag returned is a label of its own category. */
  lemma TagDocumentInTaxonomy(text: string, filename: string,
                              complete: (string, string) -> Option<string>,
                              loads: string -> Option<Json>, k: nat)
    requires k < |TagStructure|
    ensures var v := TagDocument(text, filename, complete, loads)[Name(k)];
      v != [] && forall t :: t in v ==> t in Allowed(k)
  {
    TaxonomyShape();
    var r := TagDocument(text, filename, complete, loads);
    if r != FallbackTags(filename) {
      var content := complete(ExtractSample(text, 2000), filename).value;
      var tags := loads(content).value;
      ValidatedWellFormed(tags, TagStructure);
    }
  }
}
