# Curated News: query composition, tag labels, preference cache and search paging

This project is a Dafny model of the decision logic in the SharePoint
"curated news" web part (`react-news-extension`). It covers:

- **Query-template composition** (`composeQueryTemplate`). The user's
  preference terms become the property-scoped OR filter
  `({|MP:(id1 OR id2 ...)})`. The filter goes in place of the first
  `{FILTER}` of the trimmed admin template, or is appended to that
  template. When there is no usable template it is appended to the fixed
  default template. With no terms the result is `null` (`None` here),
  and `fetchData` then does not search.
- **The search that `fetchData` issues.** This is the composed template
  with the filter property, the display property `RefinableString01` and
  the default page.
- **Tag labels of a news card.** The raw property value is split on `;`.
  Each segment is cut at its first `|` and trimmed, and the empty
  segments are dropped.
- **The preference cache.** Lookups use the key
  `CuratedNews-UserPreferences-<login>`. `getUserPreferences` consults
  the cache, then the Graph result, and writes the cache only for a
  non-empty result with caching enabled. The "preferences saved" handler
  drops this user's entry unless the event names another login. The web
  part and its cache are the class `CuratedNewsPart`, and its two methods
  update the cache map in place.
- **`SPService.getSearchResults`.** This covers the select-property
  list, the page window (`StartRow = (page - 1) * pageSize`,
  `RowLimit = pageSize`), the fixed request flags, and the normalisation
  of the answer (items, and the `TotalRows` → nested `TotalRows` → item
  count chain). Any thrown error yields the empty page.

The ECMAScript string operations are modelled over `seq<char>`, with the
branches and edge cases of ECMA-262,
in `strings.dfy`:

- `trim` uses the WhiteSpace and LineTerminator code points of
  ECMAScript.
- `split` on one character; `"".split(";")` is `[""]`.
- `Array.prototype.join`.
- `includes`/`indexOf` on a substring.
- `replace` with a string pattern. It replaces the first occurrence only,
  and it honours the `$$`, `$&`, `` $` `` and `$'` patterns of the
  replacement (GetSubstitution, section 22.1.3.19.1 of ECMA-262).

The literal-insertion properties of the placeholder branch are lemmas with
a "no `$` in the property name or the ids" hypothesis. They are not
preconditions of the composition itself.

Files:

- `strings.dfy` (module `Strings`): `Option` and the string operations
  with their lemmas.
- `sp_service.dfy` (module `SPService`): the request, the page window
  and the result normalisation.
- `curated_news.dfy` (module `CuratedNews`): composition, the
  `fetchData` search decision, tag labels, and the cache class and
  handler.

The search call is a parameter of type `SearchQuery -> SearchOutcome`. An
outcome is one of:

- `Rejected`: the call throws.
- `ResolvedNullish`: it resolves to null or undefined, so reading
  `PrimarySearchResults` throws.
- `Resolved(results)`.

The Graph service's answer is a parameter of `GetUserPreferences`.
`CachingService` is the `cache` map field.

`replace` with a string pattern replaces only the first `{FILTER}`;
`LaterPlaceholderKept` proves that a later one survives.

## Model

| member | source | states |
|---|---|---|
| CuratedNews.ComposeQueryTemplate | samples/react-news-extension/src/webparts/curatedNews/components/CuratedNews.tsx:179-195 | the result is null exactly when the tags are not an array or the array is empty |
| CuratedNews.FilterParts | samples/react-news-extension/src/webparts/curatedNews/components/CuratedNews.tsx:183-184 | the filter is exactly the fixed head (open paren, open brace, pipe), the property, `:(`, the ids joined with ` OR `, and `)})` |
| CuratedNews.FilterShape | samples/react-news-extension/src/webparts/curatedNews/components/CuratedNews.tsx:183-184 | the filter starts with `FilterHead(MP)` and ends with `)})`; id k sits at its offset and is followed by ` OR ` unless it is the last, so the ids appear in input order and nothing else is in the filter |
| CuratedNews.FilterEnds | samples/react-news-extension/src/webparts/curatedNews/components/CuratedNews.tsx:183-184 | the filter's head and its `)})` tail, and its exact length |
| CuratedNews.FilterIdAt | samples/react-news-extension/src/webparts/curatedNews/components/CuratedNews.tsx:183 | the id of term k occurs at its offset in the filter |
| CuratedNews.FilterSeparatorAt | samples/react-news-extension/src/webparts/curatedNews/components/CuratedNews.tsx:183 | every id but the last is followed by ` OR ` in the filter |
| CuratedNews.BuildFilter | samples/react-news-extension/src/webparts/curatedNews/components/CuratedNews.tsx:183-184 | the filter template literal; its exact shape is stated by `FilterParts` and `FilterShape` |
| CuratedNews.Ids | samples/react-news-extension/src/webparts/curatedNews/components/CuratedNews.tsx:183 | `tags.map(t => t.id)`; `FilterShape` places id k of the filter at its offset, in input order |
| CuratedNews.TaxValues | samples/react-news-extension/src/webparts/curatedNews/components/CuratedNews.tsx:183 | the parenthesised ` OR ` list; `FilterParts` and `FilterShape` state its place and shape in the filter |
| CuratedNews.FilterDollarFree | samples/react-news-extension/src/webparts/curatedNews/components/CuratedNews.tsx:183-184 | with no `$` in the property name or the ids, the filter has no `$` |
| CuratedNews.ComposeAtPlaceholder | samples/react-news-extension/src/webparts/curatedNews/components/CuratedNews.tsx:187-190 | a usable template containing `{FILTER}` gives the trimmed template with its first `{FILTER}` (no earlier occurrence) replaced by the filter and everything around it unchanged |
| CuratedNews.ComposePlaceholderBranch | samples/react-news-extension/src/webparts/curatedNews/components/CuratedNews.tsx:187-190 | a usable template containing `{FILTER}` goes through `replace` with the filter, unconditionally |
| CuratedNews.LaterPlaceholderKept | samples/react-news-extension/src/webparts/curatedNews/components/CuratedNews.tsx:190 | a later `{FILTER}` of the trimmed template is still in the result, shifted by the length difference |
| CuratedNews.ComposeAppended | samples/react-news-extension/src/webparts/curatedNews/components/CuratedNews.tsx:189-190 | a usable template without `{FILTER}` gives trimmed template + `" "` + filter |
| CuratedNews.HasUsableTemplate | samples/react-news-extension/src/webparts/curatedNews/components/CuratedNews.tsx:187 | the admin-template test; `TrimEmptyIffBlank` states when it fails, and `ComposeDefault`/`ComposeAppended` give the composition on either side of it |
| CuratedNews.ComposeDefault | samples/react-news-extension/src/webparts/curatedNews/components/CuratedNews.tsx:187-194 | an absent or whitespace-only template gives the default template + `" "` + filter |
| CuratedNews.ComposeContainsFilter | samples/react-news-extension/src/webparts/curatedNews/components/CuratedNews.tsx:183-194 | with a `$`-free filter every composed template contains the filter |
| CuratedNews.ComposeExample | samples/react-news-extension/src/webparts/curatedNews/components/CuratedNews.tsx:179-195 | terms A, B on `RefinableString00` with no template give the default template followed by a space and the filter `FilterExample` states |
| CuratedNews.FilterExample | samples/react-news-extension/src/webparts/curatedNews/components/CuratedNews.tsx:183-184 | terms A, B on `RefinableString00` give the filter on `RefinableString00` with the ids `(A OR B)` |
| CuratedNews.TaxValuesExample | samples/react-news-extension/src/webparts/curatedNews/components/CuratedNews.tsx:183 | terms A, B give `(A OR B)` |
| CuratedNews.IdsExample | samples/react-news-extension/src/webparts/curatedNews/components/CuratedNews.tsx:183 | terms A, B give the ids A, B |
| CuratedNews.SearchTemplate | samples/react-news-extension/src/webparts/curatedNews/components/CuratedNews.tsx:49-58 | the template `fetchData` searches with is exactly `composeQueryTemplate`'s result, and there is none (data set to `[]`, no search) exactly when the tags are not a non-empty array |
| CuratedNews.ComposedNonEmpty | samples/react-news-extension/src/webparts/curatedNews/components/CuratedNews.tsx:55-58 | for a non-empty term list the composed template is never null or empty, so the falsy test never stops the search |
| CuratedNews.FetchRequest | samples/react-news-extension/src/webparts/curatedNews/components/CuratedNews.tsx:43-64 | the search request `fetchData` sends: none without terms, otherwise the composed template, start row 0, row limit 12, and the fixed properties followed by the filter property and `RefinableString01` |
| CuratedNews.RawTagValue | samples/react-news-extension/src/webparts/curatedNews/components/CuratedNews.tsx:118-119 | the display property whenever the row has it (even empty), else the filter property, else nothing |
| CuratedNews.CleanSegment | samples/react-news-extension/src/webparts/curatedNews/components/CuratedNews.tsx:124-125 | a `;`-free segment gives the empty string or a label |
| CuratedNews.CleanSegmentCutsAtPipe | samples/react-news-extension/src/webparts/curatedNews/components/CuratedNews.tsx:124-125 | a label followed by a pipe character and any term id cleans to exactly the label |
| CuratedNews.CleanSegmentTrims | samples/react-news-extension/src/webparts/curatedNews/components/CuratedNews.tsx:124-125 | a label padded with whitespace, alone or followed by a pipe character and a term id, cleans to exactly the label: padding is trimmed away, the segment is not dropped |
| CuratedNews.CleanSegmentBlank | samples/react-news-extension/src/webparts/curatedNews/components/CuratedNews.tsx:123-125 | a whitespace-only segment, alone or before a pipe character and a term id, cleans to the empty string, which filter(Boolean) then drops |
| Strings.TrimPadded | samples/react-news-extension/src/webparts/curatedNews/components/CuratedNews.tsx:125 | `trim` of whitespace + a string with non-whitespace ends + whitespace is that string |
| CuratedNews.CleanSegments | samples/react-news-extension/src/webparts/curatedNews/components/CuratedNews.tsx:124-125 | element k of the result is the cleaning of segment k, so the map keeps the number and order of the segments |
| CuratedNews.CleanSegmentsShape | samples/react-news-extension/src/webparts/curatedNews/components/CuratedNews.tsx:124-125 | cleaning `;`-free segments gives only labels and empty strings |
| CuratedNews.DropEmpty | samples/react-news-extension/src/webparts/curatedNews/components/CuratedNews.tsx:126 | `filter(Boolean)` keeps only non-empty members of the input and never lengthens it |
| CuratedNews.SegmentLabels | samples/react-news-extension/src/webparts/curatedNews/components/CuratedNews.tsx:122-126 | every label is non-empty, has no whitespace at either end and holds neither `;` nor the pipe character, and there are at most (number of `;`) + 1 |
| CuratedNews.TagLabels | samples/react-news-extension/src/webparts/curatedNews/components/CuratedNews.tsx:121-127 | a missing or empty raw value gives no labels; otherwise as for the pipeline |
| CuratedNews.SegmentLabelsOfEmpty | samples/react-news-extension/src/webparts/curatedNews/components/CuratedNews.tsx:121-127 | the pipeline alone also gives no labels for the empty string |
| CuratedNews.TagLabelsSome | samples/react-news-extension/src/webparts/curatedNews/components/CuratedNews.tsx:121-127 | a present raw value's labels are exactly the pipeline's |
| CuratedNews.DropEmptyAppend | samples/react-news-extension/src/webparts/curatedNews/components/CuratedNews.tsx:126 | `filter(Boolean)` distributes over concatenation |
| CuratedNews.DropEmptyKeepsLabels | samples/react-news-extension/src/webparts/curatedNews/components/CuratedNews.tsx:126 | a list without empty strings passes `filter(Boolean)` unchanged |
| CuratedNews.TagLabelsAppend | samples/react-news-extension/src/webparts/curatedNews/components/CuratedNews.tsx:121-127 | labels keep segment order: the labels of `a;b` are those of `a` followed by those of `b` |
| CuratedNews.CleanLabels | samples/react-news-extension/src/webparts/curatedNews/components/CuratedNews.tsx:124-125 | labels pass the segment cleaning unchanged |
| CuratedNews.CleanSegmentsAppend | samples/react-news-extension/src/webparts/curatedNews/components/CuratedNews.tsx:124-125 | the segment cleaning distributes over concatenation |
| CuratedNews.TagLabelsRoundTrip | samples/react-news-extension/src/webparts/curatedNews/components/CuratedNews.tsx:121-127 | labels joined with `;` parse back to the same labels |
| CuratedNews.TagLabelsIdempotent | samples/react-news-extension/src/webparts/curatedNews/components/CuratedNews.tsx:121-127 | re-parsing the joined labels changes nothing |
| CuratedNews.EmptyDisplayPropHidesLabels | samples/react-news-extension/src/webparts/curatedNews/components/CuratedNews.tsx:118-127 | an empty display property hides the filter property's labels (`??` keeps `""`) |
| CuratedNews.PreferenceCacheKey | samples/react-news-extension/src/webparts/curatedNews/components/CuratedNews.tsx:28 | the key is `CuratedNews-UserPreferences-` followed by the login |
| CuratedNews.PreferenceCacheKeyInjective | samples/react-news-extension/src/webparts/curatedNews/components/CuratedNews.tsx:28 | different logins never share a cache key |
| CuratedNews.HandlesEventIff | samples/react-news-extension/src/webparts/curatedNews/components/CuratedNews.tsx:83-84 | the handler returns early exactly when the event names a non-empty login other than this user's |
| CuratedNews.HandlesEvent | samples/react-news-extension/src/webparts/curatedNews/components/CuratedNews.tsx:84 | the handler's go-ahead test; `HandlesEventIff` states when it fails |
| CuratedNews.GraphTags | samples/react-news-extension/src/webparts/curatedNews/components/CuratedNews.tsx:40 | the tags of the Graph result, or none when it or its `Tags` is missing; `GetUserPreferences` returns it on a miss |
| CuratedNews.ShouldCache | samples/react-news-extension/src/webparts/curatedNews/components/CuratedNews.tsx:37 | the write condition; `GetUserPreferences` stores the tags exactly when it holds |
| CuratedNews.CuratedNewsPart.constructor | samples/react-news-extension/src/webparts/curatedNews/components/CuratedNews.tsx:14-28 | the part holds the login, the caching flag and the given cache |
| CuratedNews.CuratedNewsPart.GetUserPreferences | samples/react-news-extension/src/webparts/curatedNews/components/CuratedNews.tsx:32-41 | a hit returns the cached tags and leaves the cache as it was; a miss returns Graph's `Tags` or `[]` and stores them under the key only when non-empty with caching on; if this user's entry held terms it still does (`OwnEntryNonEmpty`) |
| CuratedNews.CuratedNewsPart.OnPreferencesSaved | samples/react-news-extension/src/webparts/curatedNews/components/CuratedNews.tsx:82-88 | refetches exactly when the event is for this user (or names none), then with this user's key removed and every other entry unchanged; otherwise the cache is untouched |
| CuratedNews.SavedThenReloaded | samples/react-news-extension/src/webparts/curatedNews/components/CuratedNews.tsx:84-86 | after a saved event the handler acts on (one naming no login or this user's own), the next lookup returns what Graph answers, never the stale entry |
| SPService.SelectProperties | samples/react-news-extension/src/services/SPService.ts:63-79 | the ten fixed names in order, then the filter property, then the display property only when truthy: 11 or 12 entries |
| SPService.IsTruthy | samples/react-news-extension/src/services/SPService.ts:77 | the truthiness test of the optional display property; `SelectProperties` appends the property exactly when it holds |
| SPService.BuildSearchQuery | samples/react-news-extension/src/services/SPService.ts:81-89 | template passed through, query text `*`, interleaving on, duplicate trimming off, row limit `pageSize`, start row `(page - 1) * pageSize`, the select properties |
| SPService.DefaultWindow | samples/react-news-extension/src/services/SPService.ts:59-60 | the defaults ask for start row 0, row limit 12 and 11 properties |
| SPService.StartRow | samples/react-news-extension/src/services/SPService.ts:85 | the first row of a page; `StartRowNonNegative`, `StartRowUnclamped`, `NextPageFollows` and `RowOnExactlyOnePage` state its properties |
| SPService.StartRowNonNegative | samples/react-news-extension/src/services/SPService.ts:85 | a page of at least 1 gives a non-negative start row |
| SPService.StartRowUnclamped | samples/react-news-extension/src/services/SPService.ts:85 | a page below 1 is not clamped and gives a negative start row |
| SPService.NextPageFollows | samples/react-news-extension/src/services/SPService.ts:84-85 | page p + 1 starts where page p's window ends |
| SPService.RowOnExactlyOnePage | samples/react-news-extension/src/services/SPService.ts:84-85 | with a positive page size every row lies in the window of page `row / pageSize + 1` and of no other page |
| SPService.NestedTotalRows | samples/react-news-extension/src/services/SPService.ts:94 | the optional chain is present exactly when every level is, and then it is the innermost `TotalRows` |
| SPService.NormaliseResults | samples/react-news-extension/src/services/SPService.ts:91-97 | items are `PrimarySearchResults` or `[]`; total is `TotalRows` when present, else the nested `TotalRows`, else the item count |
| SPService.GetSearchResults | samples/react-news-extension/src/services/SPService.ts:55-102 | a resolved search is normalised; a thrown error or a nullish result gives exactly `{items: [], total: 0}` |
| SPService.ZeroTotalRowsKept | samples/react-news-extension/src/services/SPService.ts:92-93 | a reported `TotalRows` of 0 is kept (`??` skips only null and undefined) |
| SPService.TotalMatchesItemsWithoutCounts | samples/react-news-extension/src/services/SPService.ts:92-100 | when neither the top-level nor the nested `TotalRows` is reported, and on error, the total equals the number of items |
| Strings.Trim | samples/react-news-extension/src/webparts/curatedNews/components/CuratedNews.tsx:125 | the trimmed string is no longer and has no whitespace at either end |
| Strings.TrimIsSlice | samples/react-news-extension/src/webparts/curatedNews/components/CuratedNews.tsx:125 | the trim is a slice of the input with only whitespace cut on both sides |
| Strings.TrimKeepsOnly | samples/react-news-extension/src/webparts/curatedNews/components/CuratedNews.tsx:125 | trimming adds no character |
| Strings.TrimOfTrimmed | samples/react-news-extension/src/webparts/curatedNews/components/CuratedNews.tsx:125 | a string without whitespace at its ends is its own trim |
| Strings.TrimEmptyIffBlank | samples/react-news-extension/src/webparts/curatedNews/components/CuratedNews.tsx:187 | `trim().length > 0` exactly when some character is not whitespace |
| Strings.Split | samples/react-news-extension/src/webparts/curatedNews/components/CuratedNews.tsx:123 | a split has at least one piece and no piece holds the separator |
| Strings.SplitLength | samples/react-news-extension/src/webparts/curatedNews/components/CuratedNews.tsx:123 | a split has one more piece than the separator has occurrences |
| Strings.SplitAppend | samples/react-news-extension/src/webparts/curatedNews/components/CuratedNews.tsx:123 | splitting `a + c + b` on `c` gives the pieces of `a` and then those of `b` |
| Strings.JoinSplit | samples/react-news-extension/src/webparts/curatedNews/components/CuratedNews.tsx:123 | joining a split with its separator gives back the string |
| Strings.SplitJoin | samples/react-news-extension/src/webparts/curatedNews/components/CuratedNews.tsx:123 | splitting a join of separator-free pieces gives back the pieces |
| Strings.JoinExcludes | samples/react-news-extension/src/webparts/curatedNews/components/CuratedNews.tsx:183 | a character in neither the pieces nor the separator is not in the join |
| Strings.Join | samples/react-news-extension/src/webparts/curatedNews/components/CuratedNews.tsx:183 | `Array.prototype.join`; `JoinSplit`, `SplitJoin`, `JoinPieceAt`, `JoinSeparatorAfter`, `JoinLength` and `JoinExcludes` state its properties |
| Strings.JoinPieceAt | samples/react-news-extension/src/webparts/curatedNews/components/CuratedNews.tsx:183 | piece k of a join sits at its offset |
| Strings.JoinSeparatorAfter | samples/react-news-extension/src/webparts/curatedNews/components/CuratedNews.tsx:183 | every piece but the last is followed by the separator |
| Strings.JoinLength | samples/react-news-extension/src/webparts/curatedNews/components/CuratedNews.tsx:183 | the join ends with its last piece |
| Strings.BeforeFirst | samples/react-news-extension/src/webparts/curatedNews/components/CuratedNews.tsx:124 | the part before the first pipe character: a prefix of the segment without that character, ending just before its first occurrence, and the whole segment when it has none |
| Strings.IndexOf | samples/react-news-extension/src/webparts/curatedNews/components/CuratedNews.tsx:190 | `indexOf` gives the first occurrence of the pattern, and none when there is no occurrence |
| Strings.ContainsIff | samples/react-news-extension/src/webparts/curatedNews/components/CuratedNews.tsx:190 | `includes` holds exactly when the pattern occurs at some index |
| Strings.Contains | samples/react-news-extension/src/webparts/curatedNews/components/CuratedNews.tsx:190 | `includes`; `ContainsIff` states it exactly |
| Strings.ReplaceFirst | samples/react-news-extension/src/webparts/curatedNews/components/CuratedNews.tsx:190 | `replace` leaves a string without the pattern unchanged |
| Strings.SubstitutionLiteral | samples/react-news-extension/src/webparts/curatedNews/components/CuratedNews.tsx:190 | a replacement without `$` is inserted literally |
| Strings.Substitution | samples/react-news-extension/src/webparts/curatedNews/components/CuratedNews.tsx:190 | the `$` patterns of `replace`'s replacement; `SubstitutionLiteral` and `SubstitutionHead` state its properties |
| Strings.ReplaceFirstNonEmpty | samples/react-news-extension/src/webparts/curatedNews/components/CuratedNews.tsx:190 | a replacement not starting with `$` leaves a non-empty result when the pattern occurs |
| Strings.ReplaceFirstLiteral | samples/react-news-extension/src/webparts/curatedNews/components/CuratedNews.tsx:190 | with a literal replacement only the first occurrence is cut out and replaced, the rest untouched |
| Strings.ReplaceFirstKeepsLater | samples/react-news-extension/src/webparts/curatedNews/components/CuratedNews.tsx:190 | occurrences after the first survive the replacement, shifted by the length change |

## Left out

- React rendering is not modelled because it is UI. This covers JSX, the antd components, the `Placeholder`, the spinner, navigation and the card markup.
- Hooks, `setLoading`/`setData`, `window.addEventListener` and the async scheduling of `fetchData` are browser plumbing. Only the decisions inside `fetchData` and the handler are modelled.
- `GraphService.GetPreferences` is a foreign call. Its answer is an input to `GetUserPreferences`. A rejected Graph call ends in `fetchData`'s `catch` (data `[]`); that path is not modelled.
- `CachingService` is the `cache` map field. Its storage, expiry and serialisation are not part of this model.
- `LogHelper` and `console.error` are logging only.
- `SPService.Init`, `getListItemsAsync`, `getAllTermsByTermSet` and the `_sp.search` call are left out because they are network and library code. The search call is an abstract parameter.
- `SPService.SelectProperties` builds the list as a value. The in-place `push` onto a fresh local array is not modelled: the array is not shared, so only the final value is observable.
- `SPService.StartRow` uses unbounded integers. JavaScript numbers are doubles, and their rounding for huge or fractional pages is not modelled.
- `fetchData` hands the `{items, total}` page object to `setData`, which expects an array. This rendering-layer type mismatch is not modelled.
- TypeScript's typing of the raw tag value is not modelled: values other than strings are not modelled.
- Strings are sequences of Unicode scalar values (Dafny `char`), while JavaScript strings are sequences of UTF-16 code units. A lone surrogate cannot be represented, and lengths and indices count characters outside the Basic Multilingual Plane once rather than twice.
