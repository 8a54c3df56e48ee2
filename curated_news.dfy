/** The decision logic of the CuratedNews web part: the query template built
    from the user's preference terms, the tag labels shown on a news card,
    the preference cache consulted before the Graph profile extension, the
    "preferences saved" handler, and the search that `fetchData` issues. */
module CuratedNews {
  import opened Strings
  import SPService

  /** A preference term (`ITerm`); the component reads only its id. */
  datatype Term = Term(id: string)

  /** What `getUserPreferences` resolves to: an array of terms, or any other
      value (which `Array.isArray` rejects). */
  datatype TagsValue = TagArray(terms: seq<Term>) | NotAnArray

  /** The marker an admin template uses to place the filter. */
  const Placeholder: string := "{FILTER}"

  /** The query template used when the admin gives none. */
  const DefaultTemplate: string :=
    "{searchTerms} (ContentTypeId:0x0101009D1CB255DA76424F860D91F20E6C4118*) PromotedState=2"

  /** The managed property whose value labels a news card. */
  const DisplayProp: string := "RefinableString01"

  const PreferenceKeyPrefix: string := "CuratedNews-UserPreferences-"

  // ---------------------------------------------------------------------
  // composeQueryTemplate
  // ---------------------------------------------------------------------

  function Ids(terms: seq<Term>): seq<string> {
    seq(|terms|, k requires 0 <= k < |terms| => terms[k].id)
  }

  /** `(id1 OR id2 ...)`. */
  function TaxValues(terms: seq<Term>): string {
    "(" + Join(Ids(terms), " OR ") + ")"
  }

  /** The property-scoped OR filter `({|mp:(id1 OR id2 ...)})`. */
  function BuildFilter(managedPropertyName: string, terms: seq<Term>): string {
    "({|" + managedPropertyName + ":" + TaxValues(terms) + "})"
  }

  /** What precedes the first id in the filter. */
  function FilterHead(managedPropertyName: string): string {
    "({|" + managedPropertyName + ":("
  }

  /** Where the filter holds the id of `terms[k]`. */
  function IdOffset(managedPropertyName: string, terms: seq<Term>, k: nat): nat {
    |FilterHead(managedPropertyName)| + JoinOffset(Ids(terms), " OR ", k)
  }

  /** The admin template is given and `trim()` leaves something of it. */
  predicate HasUsableTemplate(customQueryTemplate: Option<string>) {
    customQueryTemplate.Some? && |Trim(customQueryTemplate.value)| > 0
  }

  /** `composeQueryTemplate`: `None` (JavaScript's null, "do not search")
      exactly when there are no terms; otherwise the filter placed at the
      first `{FILTER}` of the trimmed admin template, appended to it, or
      appended to the default template. */
  function ComposeQueryTemplate(tags: TagsValue, managedPropertyName: string, customQueryTemplate: Option<string>): (r: Option<string>)
    ensures r.None? <==> tags.NotAnArray? || tags.terms == []
  {
    if tags.NotAnArray? || |tags.terms| == 0 then None
    else
      var filter := BuildFilter(managedPropertyName, tags.terms);
      if HasUsableTemplate(customQueryTemplate) then
        var template := Trim(customQueryTemplate.value);
        if Contains(template, Placeholder) then Some(ReplaceFirst(template, Placeholder, filter))
        else Some(template + " " + filter)
      else
        Some(DefaultTemplate + " " + filter)
  }

  lemma FilterParts(managedPropertyName: string, terms: seq<Term>)
    ensures BuildFilter(managedPropertyName, terms)
      == FilterHead(managedPropertyName) + Join(Ids(terms), " OR ") + ")})"
  {
  }

  /** The filter is `({|`, the property name, `:(`, the ids separated by
      ` OR ` in input order, and `)})`, and nothing else. */
  lemma FilterShape(managedPropertyName: string, terms: seq<Term>)
    requires |terms| >= 1
    ensures var f := BuildFilter(managedPropertyName, terms);
      && f[..|FilterHead(managedPropertyName)|] == FilterHead(managedPropertyName)
      && f[|f| - 3..] == ")})"
      && |f| == IdOffset(managedPropertyName, terms, |terms| - 1) + |terms[|terms| - 1].id| + 3
      && (forall k :: 0 <= k < |terms| ==>
            OccursAt(f, terms[k].id, IdOffset(managedPropertyName, terms, k)))
      && (forall k :: 0 <= k < |terms| - 1 ==>
            OccursAt(f, " OR ", IdOffset(managedPropertyName, terms, k) + |terms[k].id|))
  {
    FilterEnds(managedPropertyName, terms);
    forall k | 0 <= k < |terms|
      ensures OccursAt(BuildFilter(managedPropertyName, terms), terms[k].id, IdOffset(managedPropertyName, terms, k))
      ensures k < |terms| - 1 ==>
        OccursAt(BuildFilter(managedPropertyName, terms), " OR ", IdOffset(managedPropertyName, terms, k) + |terms[k].id|)
    {
      FilterIdAt(managedPropertyName, terms, k);
      if k < |terms| - 1 {
        FilterSeparatorAt(managedPropertyName, terms, k);
      }
    }
  }

  lemma FilterEnds(managedPropertyName: string, terms: seq<Term>)
    requires |terms| >= 1
    ensures var f := BuildFilter(managedPropertyName, terms);
      && f[..|FilterHead(managedPropertyName)|] == FilterHead(managedPropertyName)
      && f[|f| - 3..] == ")})"
      && |f| == IdOffset(managedPropertyName, terms, |terms| - 1) + |terms[|terms| - 1].id| + 3
  {
    var ids := Ids(terms);
    FilterParts(managedPropertyName, terms);
    JoinLength(ids, " OR ");
    assert ids[|terms| - 1] == terms[|terms| - 1].id;
  }

  lemma FilterIdAt(managedPropertyName: string, terms: seq<Term>, k: nat)
    requires k < |terms|
    ensures OccursAt(BuildFilter(managedPropertyName, terms), terms[k].id, IdOffset(managedPropertyName, terms, k))
  {
    var ids := Ids(terms);
    FilterParts(managedPropertyName, terms);
    JoinPieceAt(ids, " OR ", k);
    OccursWithin(FilterHead(managedPropertyName), Join(ids, " OR "), ")})", ids[k], JoinOffset(ids, " OR ", k));
  }

  lemma FilterSeparatorAt(managedPropertyName: string, terms: seq<Term>, k: nat)
    requires k + 1 < |terms|
    ensures OccursAt(BuildFilter(managedPropertyName, terms), " OR ", IdOffset(managedPropertyName, terms, k) + |terms[k].id|)
  {
    var ids := Ids(terms);
    FilterParts(managedPropertyName, terms);
    JoinSeparatorAfter(ids, " OR ", k);
    OccursWithin(FilterHead(managedPropertyName), Join(ids, " OR "), ")})", " OR ", JoinOffset(ids, " OR ", k) + |ids[k]|);
  }

  /** No `$` in the property name or the ids: no `$` in the filter. */
  lemma FilterDollarFree(managedPropertyName: string, terms: seq<Term>)
    requires '$' !in managedPropertyName
    requires forall k :: 0 <= k < |terms| ==> '$' !in terms[k].id
    ensures '$' !in BuildFilter(managedPropertyName, terms)
  {
    JoinExcludes(Ids(terms), " OR ", '$');
  }

  /** A usable admin template with `{FILTER}` goes through `replace`. */
  lemma ComposePlaceholderBranch(terms: seq<Term>, managedPropertyName: string, customQueryTemplate: Option<string>)
    requires |terms| >= 1 && HasUsableTemplate(customQueryTemplate)
    requires Contains(Trim(customQueryTemplate.value), Placeholder)
    ensures ComposeQueryTemplate(TagArray(terms), managedPropertyName, customQueryTemplate)
      == Some(ReplaceFirst(Trim(customQueryTemplate.value), Placeholder, BuildFilter(managedPropertyName, terms)))
  {
  }

  /** A usable admin template with `{FILTER}`: the trimmed template with its
      first `{FILTER}` cut out and the filter put there; the text around it,
      later `{FILTER}`s included, is unchanged. */
  lemma ComposeAtPlaceholder(terms: seq<Term>, managedPropertyName: string, customQueryTemplate: Option<string>)
    requires |terms| >= 1 && HasUsableTemplate(customQueryTemplate)
    requires Contains(Trim(customQueryTemplate.value), Placeholder)
    requires '$' !in managedPropertyName
    requires forall k :: 0 <= k < |terms| ==> '$' !in terms[k].id
    ensures var template := Trim(customQueryTemplate.value);
      var i := IndexOf(template, Placeholder).value;
      && template == template[..i] + Placeholder + template[i + |Placeholder|..]
      && (forall j :: 0 <= j < i ==> !OccursAt(template, Placeholder, j))
      && ComposeQueryTemplate(TagArray(terms), managedPropertyName, customQueryTemplate)
         == Some(template[..i] + BuildFilter(managedPropertyName, terms) + template[i + |Placeholder|..])
  {
    ComposePlaceholderBranch(terms, managedPropertyName, customQueryTemplate);
    FilterDollarFree(managedPropertyName, terms);
    ReplaceFirstLiteral(Trim(customQueryTemplate.value), Placeholder, BuildFilter(managedPropertyName, terms));
  }

  /** Only the first `{FILTER}` is replaced: a later, non-overlapping one is
      still in the result, shifted by the length difference. */
  lemma LaterPlaceholderKept(terms: seq<Term>, managedPropertyName: string, customQueryTemplate: Option<string>, j: nat)
    requires |terms| >= 1 && HasUsableTemplate(customQueryTemplate)
    requires Contains(Trim(customQueryTemplate.value), Placeholder)
    requires '$' !in managedPropertyName
    requires forall k :: 0 <= k < |terms| ==> '$' !in terms[k].id
    requires var template := Trim(customQueryTemplate.value);
      j >= IndexOf(template, Placeholder).value + |Placeholder| && OccursAt(template, Placeholder, j)
    ensures var r := ComposeQueryTemplate(TagArray(terms), managedPropertyName, customQueryTemplate);
      r.Some? && OccursAt(r.value, Placeholder, j - |Placeholder| + |BuildFilter(managedPropertyName, terms)|)
  {
    var template := Trim(customQueryTemplate.value);
    var filter := BuildFilter(managedPropertyName, terms);
    ComposePlaceholderBranch(terms, managedPropertyName, customQueryTemplate);
    FilterDollarFree(managedPropertyName, terms);
    ReplaceFirstKeepsLater(template, Placeholder, filter, j);
    var composed := ReplaceFirst(template, Placeholder, filter);
    assert OccursAt(composed, Placeholder, j - |Placeholder| + |filter|);
  }

  /** A usable admin template without `{FILTER}`: the filter is appended
      after one space. */
  lemma ComposeAppended(terms: seq<Term>, managedPropertyName: string, customQueryTemplate: Option<string>)
    requires |terms| >= 1 && HasUsableTemplate(customQueryTemplate)
    requires !Contains(Trim(customQueryTemplate.value), Placeholder)
    ensures ComposeQueryTemplate(TagArray(terms), managedPropertyName, customQueryTemplate)
      == Some(Trim(customQueryTemplate.value) + " " + BuildFilter(managedPropertyName, terms))
  {
  }

  /** No admin template, or one that is only whitespace: the default template
      followed by one space and the filter. */
  lemma ComposeDefault(terms: seq<Term>, managedPropertyName: string, customQueryTemplate: Option<string>)
    requires |terms| >= 1
    requires customQueryTemplate.Some? ==>
      forall k :: 0 <= k < |customQueryTemplate.value| ==> IsWhitespace(customQueryTemplate.value[k])
    ensures ComposeQueryTemplate(TagArray(terms), managedPropertyName, customQueryTemplate)
      == Some(DefaultTemplate + " " + BuildFilter(managedPropertyName, terms))
  {
    if customQueryTemplate.Some? {
      TrimEmptyIffBlank(customQueryTemplate.value);
    }
  }

  /** Whichever branch is taken, a composed template contains the filter
      (the filter being free of `$`, it is inserted literally). */
  lemma ComposeContainsFilter(terms: seq<Term>, managedPropertyName: string, customQueryTemplate: Option<string>)
    requires |terms| >= 1
    requires '$' !in managedPropertyName
    requires forall k :: 0 <= k < |terms| ==> '$' !in terms[k].id
    ensures var r := ComposeQueryTemplate(TagArray(terms), managedPropertyName, customQueryTemplate);
      r.Some? && Contains(r.value, BuildFilter(managedPropertyName, terms))
  {
    var filter := BuildFilter(managedPropertyName, terms);
    var r := ComposeQueryTemplate(TagArray(terms), managedPropertyName, customQueryTemplate);
    if HasUsableTemplate(customQueryTemplate) {
      var template := Trim(customQueryTemplate.value);
      if Contains(template, Placeholder) {
        ComposeAtPlaceholder(terms, managedPropertyName, customQueryTemplate);
        var i := IndexOf(template, Placeholder).value;
        OccursInMiddle(template[..i], filter, template[i + |Placeholder|..]);
        ContainsIff(r.value, filter);
      } else {
        OccursInMiddle(template + " ", filter, []);
        assert template + " " + filter + [] == r.value;
        ContainsIff(r.value, filter);
      }
    } else {
      OccursInMiddle(DefaultTemplate + " ", filter, []);
      assert DefaultTemplate + " " + filter + [] == r.value;
      ContainsIff(r.value, filter);
    }
  }

  /** Two terms, the property `RefinableString00` and no admin template. */
  lemma ComposeExample()
    ensures ComposeQueryTemplate(TagArray([Term("A"), Term("B")]), "RefinableString00", None)
      == Some(DefaultTemplate + " " + "({|RefinableString00:(A OR B)})")
  {
    FilterExample();
    ComposeDefault([Term("A"), Term("B")], "RefinableString00", None);
  }

  lemma FilterExample()
    ensures BuildFilter("RefinableString00", [Term("A"), Term("B")]) == "({|RefinableString00:(A OR B)})"
  {
    TaxValuesExample();
    assert "({|" + "RefinableString00" + ":" == "({|RefinableString00:";
    assert "({|RefinableString00:" + "(A OR B)" + "})" == "({|RefinableString00:(A OR B)})";
  }

  lemma TaxValuesExample()
    ensures TaxValues([Term("A"), Term("B")]) == "(A OR B)"
  {
    IdsExample();
    JoinTwo("A", "B", " OR ");
    assert "A" + " OR " + "B" == "A OR B";
  }

  lemma IdsExample()
    ensures Ids([Term("A"), Term("B")]) == ["A", "B"]
  {
    var ids := Ids([Term("A"), Term("B")]);
    assert ids[0] == "A" && ids[1] == "B";
  }

  // ---------------------------------------------------------------------
  // fetchData: whether and what to search
  // ---------------------------------------------------------------------

  /** The query template `fetchData` hands to the search service, or `None`
      when it sets the data to `[]` without searching: no array of terms, an
      empty one, or a falsy composed template. Its first guard and its test
      of the composed value never decide anything composeQueryTemplate does
      not already decide. */
  function SearchTemplate(tags: TagsValue, managedPropertyName: string, customQueryTemplate: Option<string>): (r: Option<string>)
    ensures r == ComposeQueryTemplate(tags, managedPropertyName, customQueryTemplate)
    ensures r.None? <==> tags.NotAnArray? || tags.terms == []
  {
    if tags.NotAnArray? || |tags.terms| == 0 then None
    else
      assert tags == TagArray(tags.terms);
      var queryTemplate := ComposeQueryTemplate(tags, managedPropertyName, customQueryTemplate);
      ComposedNonEmpty(tags.terms, managedPropertyName, customQueryTemplate);
      if queryTemplate.None? || queryTemplate.value == "" then None
      else queryTemplate
  }

  lemma ComposedNonEmpty(terms: seq<Term>, managedPropertyName: string, customQueryTemplate: Option<string>)
    requires |terms| >= 1
    ensures var r := ComposeQueryTemplate(TagArray(terms), managedPropertyName, customQueryTemplate);
      r.Some? && r.value != ""
  {
    if HasUsableTemplate(customQueryTemplate) {
      var template := Trim(customQueryTemplate.value);
      if Contains(template, Placeholder) {
        ComposePlaceholderBranch(terms, managedPropertyName, customQueryTemplate);
        FilterStartsWithParen(managedPropertyName, terms);
        ReplaceFirstNonEmpty(template, Placeholder, BuildFilter(managedPropertyName, terms));
      }
    }
  }

  lemma FilterStartsWithParen(managedPropertyName: string, terms: seq<Term>)
    ensures var f := BuildFilter(managedPropertyName, terms);
      |f| > 0 && f[0] == '('
  {
    FilterParts(managedPropertyName, terms);
  }

  /** The search `fetchData` asks for: `getSearchResults(queryTemplate,
      managedPropertyName, DISPLAY_PROP)` with the default page. */
  function FetchRequest(tags: TagsValue, managedPropertyName: string, customQueryTemplate: Option<string>): (q: Option<SPService.SearchQuery>)
    ensures q.None? <==> tags.NotAnArray? || tags.terms == []
    ensures q.Some? ==>
      && Some(q.value.queryTemplate) == ComposeQueryTemplate(tags, managedPropertyName, customQueryTemplate)
      && q.value.startRow == 0 && q.value.rowLimit == 12
      && q.value.selectProperties == SPService.FixedSelectProperties + [managedPropertyName, DisplayProp]
  {
    match SearchTemplate(tags, managedPropertyName, customQueryTemplate)
    case None => None
    case Some(queryTemplate) =>
      var q := SPService.BuildSearchQuery(queryTemplate, managedPropertyName, Some(DisplayProp));
      assert q.selectProperties == SPService.FixedSelectProperties + [managedPropertyName, DisplayProp];
      Some(q)
  }

  // ---------------------------------------------------------------------
  // Tag labels of a news card
  // ---------------------------------------------------------------------

  /** `newsItem[DISPLAY_PROP] ?? newsItem[managedPropertyName]`: the display
      property whenever the row has it, even when it is empty. */
  function RawTagValue(item: SPService.SearchResult, managedPropertyName: string): (raw: Option<string>)
    ensures DisplayProp in item ==> raw == Some(item[DisplayProp])
    ensures DisplayProp !in item && managedPropertyName in item ==> raw == Some(item[managedPropertyName])
    ensures DisplayProp !in item && managedPropertyName !in item ==> raw.None?
  {
    if DisplayProp in item then Some(item[DisplayProp])
    else if managedPropertyName in item then Some(item[managedPropertyName])
    else None
  }

  /** A label as shown: non-empty, no whitespace at either end, and neither
      `;` nor `|` inside. */
  predicate IsLabel(text: string) {
    text != [] && !IsWhitespace(text[0]) && !IsWhitespace(text[|text| - 1])
    && ';' !in text && '|' !in text
  }

  /** One `;`-separated segment: the part before the first `|`, trimmed. */
  function CleanSegment(segment: string): (text: string)
    ensures ';' !in segment ==> text == [] || IsLabel(text)
  {
    var name := BeforeFirst(segment, '|');
    SliceKeepsOnly(segment, 0, |name|, ';');
    TrimKeepsOnly(name, '|');
    TrimKeepsOnly(name, ';');
    Trim(name)
  }

  /** A label followed by `|` and anything (the term id) cleans to the
      label: the segment is cut at its first `|`. */
  lemma CleanSegmentCutsAtPipe(text: string, rest: string)
    requires IsLabel(text)
    ensures CleanSegment(text + "|" + rest) == text
  {
    BeforeFirstOfPrefix(text, rest, '|');
    TrimOfTrimmed(text);
  }

  /** Whitespace around a label is trimmed away, with or without a `|` and
      a term id after it: the label is kept, not dropped. */
  lemma CleanSegmentTrims(pre: string, text: string, post: string, rest: string)
    requires IsLabel(text) && AllWhitespace(pre) && AllWhitespace(post)
    ensures CleanSegment(pre + text + post) == text
    ensures CleanSegment(pre + text + post + "|" + rest) == text
  {
    var padded := pre + text + post;
    assert !IsWhitespace('|');
    assert forall k :: 0 <= k < |padded| ==> padded[k] != '|' by {
      forall k | 0 <= k < |padded| ensures padded[k] != '|' {
        if k < |pre| {
          assert padded[k] == pre[k];
        } else if k < |pre| + |text| {
          assert padded[k] == text[k - |pre|];
        } else {
          assert padded[k] == post[k - |pre| - |text|];
        }
      }
    }
    TrimPadded(pre, text, post);
    BeforeFirstOfPrefix(padded, rest, '|');
  }

  /** A blank segment, or one blank before its first `|`, gives the empty
      string, which `filter(Boolean)` then drops. */
  lemma CleanSegmentBlank(pre: string, rest: string)
    requires AllWhitespace(pre)
    ensures CleanSegment(pre) == []
    ensures CleanSegment(pre + "|" + rest) == []
  {
    assert !IsWhitespace('|');
    assert '|' !in pre by {
      forall k | 0 <= k < |pre| ensures pre[k] != '|' {
      }
    }
    BeforeFirstOfPrefix(pre, rest, '|');
    TrimEmptyIffBlank(pre);
  }

  /** `map` of `CleanSegment` over the segments. */
  function CleanSegments(segments: seq<string>): (r: seq<string>)
    ensures |r| == |segments|
    ensures forall k :: 0 <= k < |r| ==> r[k] == CleanSegment(segments[k])
  {
    if segments == [] then []
    else
      var tail := CleanSegments(segments[1..]);
      MapCons(CleanSegment, segments, tail);
      [CleanSegment(segments[0])] + tail
  }

  /** Helper for `CleanSegments`: consing `f` of the head onto a mapped
      tail maps the whole sequence. */
  lemma MapCons<A, B>(f: A -> B, xs: seq<A>, tail: seq<B>)
    requires xs != [] && |tail| == |xs| - 1
    requires forall k :: 0 <= k < |tail| ==> tail[k] == f(xs[1..][k])
    ensures forall k :: 0 <= k < |xs| ==> ([f(xs[0])] + tail)[k] == f(xs[k])
  {
    forall k | 0 < k < |xs|
      ensures ([f(xs[0])] + tail)[k] == f(xs[k])
    {
      assert xs[1..][k - 1] == xs[k];
    }
  }

  /** Cleaning `;`-free segments gives labels and empty strings only. */
  lemma {:induction false} CleanSegmentsShape(segments: seq<string>)
    requires forall k :: 0 <= k < |segments| ==> ';' !in segments[k]
    ensures forall x :: x in CleanSegments(segments) ==> x == [] || IsLabel(x)
  {
    if segments != [] {
      CleanSegmentsShape(segments[1..]);
      assert ';' !in segments[0];
    }
  }

  /** `filter(Boolean)` on strings: the non-empty ones, in order. */
  function DropEmpty(xs: seq<string>): (r: seq<string>)
    ensures |r| <= |xs|
    ensures forall k :: 0 <= k < |r| ==> r[k] != [] && r[k] in xs
  {
    if xs == [] then []
    else if xs[0] == [] then DropEmpty(xs[1..])
    else [xs[0]] + DropEmpty(xs[1..])
  }

  /** The split/map/filter pipeline on a raw value. */
  function SegmentLabels(s: string): (labels: seq<string>)
    ensures forall k :: 0 <= k < |labels| ==> IsLabel(labels[k])
    ensures |labels| <= Count(s, ';') + 1
  {
    SplitLength(s, ';');
    CleanSegmentsShape(Split(s, ';'));
    DropEmpty(CleanSegments(Split(s, ';')))
  }

  /** The tag labels of a card: none for a missing or empty raw value;
      otherwise the segments between `;`, each cut at its first `|` and
      trimmed, with the empty ones dropped. */
  function TagLabels(raw: Option<string>): (labels: seq<string>)
    ensures raw.None? || raw.value == [] ==> labels == []
    ensures forall k :: 0 <= k < |labels| ==> IsLabel(labels[k])
    ensures raw.Some? ==> |labels| <= Count(raw.value, ';') + 1
  {
    if raw.None? || raw.value == [] then [] else SegmentLabels(raw.value)
  }

  /** The empty raw value would give no labels through the pipeline too. */
  lemma SegmentLabelsOfEmpty()
    ensures SegmentLabels([]) == []
  {
    assert Split([], ';') == [[]];
    assert CleanSegment([]) == [];
    assert CleanSegments([[]]) == [[]];
  }

  lemma TagLabelsSome(s: string)
    ensures TagLabels(Some(s)) == SegmentLabels(s)
  {
    if s == [] {
      SegmentLabelsOfEmpty();
    }
  }

  lemma {:induction false} DropEmptyAppend(xs: seq<string>, ys: seq<string>)
    ensures DropEmpty(xs + ys) == DropEmpty(xs) + DropEmpty(ys)
  {
    if xs != [] {
      assert (xs + ys)[1..] == xs[1..] + ys;
      DropEmptyAppend(xs[1..], ys);
    } else {
      assert xs + ys == ys;
    }
  }

  lemma {:induction false} DropEmptyKeepsLabels(xs: seq<string>)
    requires forall k :: 0 <= k < |xs| ==> xs[k] != []
    ensures DropEmpty(xs) == xs
  {
    if xs != [] {
      DropEmptyKeepsLabels(xs[1..]);
    }
  }

  /** Labels keep the order of the segments: the labels of `a;b` are those
      of `a` followed by those of `b`. */
  lemma TagLabelsAppend(a: string, b: string)
    ensures TagLabels(Some(a + ";" + b)) == TagLabels(Some(a)) + TagLabels(Some(b))
  {
    TagLabelsSome(a + ";" + b);
    TagLabelsSome(a);
    TagLabelsSome(b);
    SplitAppend(a, b, ';');
    var sa := Split(a, ';');
    var sb := Split(b, ';');
    assert Split(a + ";" + b, ';') == sa + sb;
    CleanSegmentsAppend(sa, sb);
    DropEmptyAppend(CleanSegments(sa), CleanSegments(sb));
    assert SegmentLabels(a + ";" + b) == DropEmpty(CleanSegments(sa + sb));
  }

  lemma {:induction false} CleanLabels(labels: seq<string>)
    requires forall k :: 0 <= k < |labels| ==> IsLabel(labels[k])
    ensures CleanSegments(labels) == labels
  {
    if labels != [] {
      TrimOfTrimmed(labels[0]);
      CleanLabels(labels[1..]);
    }
  }

  lemma {:induction false} CleanSegmentsAppend(xs: seq<string>, ys: seq<string>)
    ensures CleanSegments(xs + ys) == CleanSegments(xs) + CleanSegments(ys)
  {
    if xs == [] {
      assert xs + ys == ys;
    } else {
      assert (xs + ys)[1..] == xs[1..] + ys;
      CleanSegmentsAppend(xs[1..], ys);
    }
  }

  /** Labels joined with `;` parse back to themselves. */
  lemma TagLabelsRoundTrip(labels: seq<string>)
    requires forall k :: 0 <= k < |labels| ==> IsLabel(labels[k])
    ensures TagLabels(Some(Join(labels, ";"))) == labels
  {
    if labels != [] {
      var s := Join(labels, ";");
      TagLabelsSome(s);
      SplitJoin(labels, ';');
      assert Split(s, ';') == labels;
      CleanLabels(labels);
      DropEmptyKeepsLabels(labels);
      assert SegmentLabels(s) == DropEmpty(CleanSegments(labels));
    }
  }

  /** Parsing the labels again after joining them changes nothing. */
  lemma TagLabelsIdempotent(raw: Option<string>)
    ensures TagLabels(Some(Join(TagLabels(raw), ";"))) == TagLabels(raw)
  {
    TagLabelsRoundTrip(TagLabels(raw));
  }

  /** An empty display property hides the labels of the filter property. */
  lemma EmptyDisplayPropHidesLabels(item: SPService.SearchResult, managedPropertyName: string)
    requires DisplayProp in item && item[DisplayProp] == ""
    ensures TagLabels(RawTagValue(item, managedPropertyName)) == []
  {
  }

  // ---------------------------------------------------------------------
  // The preference cache and the "preferences saved" handler
  // ---------------------------------------------------------------------

  /** `CuratedNews-UserPreferences-<loginName>`. */
  function PreferenceCacheKey(loginName: string): (key: string)
    ensures |key| == |PreferenceKeyPrefix| + |loginName|
    ensures key[..|PreferenceKeyPrefix|] == PreferenceKeyPrefix
    ensures key[|PreferenceKeyPrefix|..] == loginName
  {
    PreferenceKeyPrefix + loginName
  }

  /** Different users never share a cache entry. */
  lemma PreferenceCacheKeyInjective(a: string, b: string)
    requires PreferenceCacheKey(a) == PreferenceCacheKey(b)
    ensures a == b
  {
    assert a == PreferenceCacheKey(a)[|PreferenceKeyPrefix|..];
  }

  /** What `GraphService.GetPreferences` resolves to: nothing, or an object
      whose `Tags` may be missing. */
  datatype Preferences = Preferences(tags: Option<seq<Term>>)

  /** `result?.Tags || []`. */
  function GraphTags(result: Option<Preferences>): seq<Term> {
    if result.Some? && result.value.tags.Some? then result.value.tags.value else []
  }

  /** The tags are written to the cache only when there are some and caching
      is enabled. */
  predicate ShouldCache(result: Option<Preferences>, enableCaching: bool) {
    result.Some? && result.value.tags.Some? && |result.value.tags.value| > 0 && enableCaching
  }

  /** The login check of the handler: an event naming no login (or an empty
      one) or this user's login is acted on; one naming another login is not. */
  predicate HandlesEvent(eventLoginName: Option<string>, loginName: string) {
    eventLoginName.None? || eventLoginName.value == "" || eventLoginName.value == loginName
  }

  lemma HandlesEventIff(eventLoginName: Option<string>, loginName: string)
    ensures !HandlesEvent(eventLoginName, loginName) <==>
      exists other: string :: other != "" && other != loginName && eventLoginName == Some(other)
  {
    if !HandlesEvent(eventLoginName, loginName) {
      var other := eventLoginName.value;
      assert other != "" && other != loginName && eventLoginName == Some(other);
    }
  }

  /** One mounted CuratedNews web part for one user, with the shared cache
      it reads and writes as its state. */
  class CuratedNewsPart {
    const loginName: string
    const enableCaching: bool
    var cache: map<string, seq<Term>>

    function CacheKey(): string {
      PreferenceCacheKey(loginName)
    }

    /** This user's cache entry, when present, holds at least one term: what
        this part writes never breaks it, though a cache handed to it may. */
    ghost predicate OwnEntryNonEmpty()
      reads this
    {
      CacheKey() in cache ==> cache[CacheKey()] != []
    }

    constructor (loginName: string, enableCaching: bool, cache: map<string, seq<Term>>)
      ensures this.loginName == loginName && this.enableCaching == enableCaching
      ensures this.cache == cache
    {
      this.loginName := loginName;
      this.enableCaching := enableCaching;
      this.cache := cache;
    }

    /** `getUserPreferences`: a cached entry is returned as it is and Graph's
        answer plays no part; otherwise Graph's tags (or `[]`) are returned
        and stored only when non-empty and caching is enabled. */
    method GetUserPreferences(graphResult: Option<Preferences>) returns (tags: seq<Term>)
      modifies this
      ensures old(CacheKey() in cache) ==> tags == old(cache[CacheKey()]) && cache == old(cache)
      ensures old(CacheKey() !in cache) ==> tags == GraphTags(graphResult)
      ensures old(CacheKey() !in cache) ==>
        cache == if ShouldCache(graphResult, enableCaching) then old(cache)[CacheKey() := tags] else old(cache)
      ensures old(OwnEntryNonEmpty()) ==> OwnEntryNonEmpty()
    {
      var key := CacheKey();
      if key in cache {
        return cache[key];
      }
      if ShouldCache(graphResult, enableCaching) {
        cache := cache[key := graphResult.value.tags.value];
      }
      tags := GraphTags(graphResult);
    }

    /** The `curated:preferencesSaved` handler: unless the event names another
        login, this user's entry is removed and `fetchData` runs again
        (`refetch`). Nothing else in the cache changes. */
    method OnPreferencesSaved(eventLoginName: Option<string>) returns (refetch: bool)
      modifies this
      ensures refetch == HandlesEvent(eventLoginName, loginName)
      ensures cache == if refetch then old(cache) - {CacheKey()} else old(cache)
      ensures refetch ==> CacheKey() !in cache
      ensures old(OwnEntryNonEmpty()) ==> OwnEntryNonEmpty()
    {
      refetch := HandlesEvent(eventLoginName, loginName);
      if refetch {
        cache := cache - {CacheKey()};
      }
    }
  }

  /** After a "preferences saved" event this part acts on (one naming no login
      or this user's own), the next lookup asks Graph: the stale entry
      cannot be returned. */
  method SavedThenReloaded(part: CuratedNewsPart, eventLoginName: Option<string>, graphResult: Option<Preferences>)
    returns (tags: seq<Term>)
    requires HandlesEvent(eventLoginName, part.loginName)
    modifies part
    ensures tags == GraphTags(graphResult)
  {
    var refetch := part.OnPreferencesSaved(eventLoginName);
    tags := part.GetUserPreferences(graphResult);
  }
}
