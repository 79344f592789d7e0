# Kickstarter graveyard: the view's logic in Dafny

The graveyard view (`src/components/GraveyardClient.tsx`) lists failed
crowdfunding projects (`src/types/project.ts`). It has search, category and
tag filters, three sort buttons, the drop-down options, three headline
figures and some display helpers. This project models that logic and proves
properties of it:

- **Record.** `ProjectModel.Project` mirrors the record. A record whose
  `tags` list is missing has `tags == None`.
- **Filter.** `Filter.FilterProjects` keeps the projects that pass the
  case-insensitive search, the exact category test and the tag test.
- **Sort.** `Sort.SortInPlace` sorts an array in place with the view's
  comparator `(aVal > bVal ? 1 : -1) * sortDirection`.
- **Component.** `Graveyard.GraveyardClient` is a class holding the loaded
  projects and the user's selections. It has:
  - the setters;
  - `handleSort` (as `HandleSort`, specified by the function `NextSort`);
  - the memos `categories`, `allTags`, `stats` and `filteredProjects`.
- **Drop-downs and figures.** `Facets` builds `[...new Set(values)].sort()`.
  `Stats` holds the three `reduce` sums.
- **Display helpers.** `Format` has `formatNumber` and the category badge.
  `TagStyle` has `getTagClass`. `SourceName` has the part of `getSourceName`
  after URL parsing. `Text` has ASCII case mapping, `includes` and the default
  string order.
- **Object lookups.** `JsRecord` describes how a plain object used as a table
  answers an index expression. That lookup includes the members inherited
  from `Object.prototype`.

Both lookup tables, the 32 source domains and the 11 failure-tag styles, are
copied entry by entry.

Two behaviours of the code worth spelling out:

- **First "www." anywhere.** `hostname.replace('www.', '')` removes the first
  occurrence of "www." wherever it stands, not only a leading one
  (`SourceName.StripWwwFirstOnly`, `SourceName.DoubleWwwNotFound`).
- **Equal keys.** The comparator never returns 0, and it answers
  `-sortDirection` for both orders of two projects with equal keys (even for
  a project compared with itself). The order of equal-key projects is
  therefore not specified, and the sort is not stable. ECMAScript calls such
  a comparator inconsistent and leaves the result of `sort()` with it
  implementation-defined. The model proves that its insertion sort gives a
  permutation ordered by key. It proves that this order is fully determined
  when keys are distinct (`Sort.OrderDeterminedByDistinctKeys`), and that
  descending is then ascending reversed
  (`Sort.DescendingIsReversedAscending`). It claims nothing about the order
  of equal keys.

## Model

| member | source | states |
|---|---|---|
| `Text.IncludesIffOccurs` | src/components/GraveyardClient.tsx:127-129 | `includes` holds exactly when the needle occurs at some index of the text |
| `Text.LowerStringIdempotent` | src/components/GraveyardClient.tsx:127-129 | lower-casing twice is lower-casing once |
| `Text.StrLessTransitive` | src/components/GraveyardClient.tsx:111 | the default `sort()` order on strings is transitive |
| `Text.StrLessTotal` | src/components/GraveyardClient.tsx:111 | any two different strings are ordered one way or the other |
| `Text.StrLessIrreflexive` | src/components/GraveyardClient.tsx:111 | no string comes before itself |
| `Text.StrLeqTransitive` | src/components/GraveyardClient.tsx:111 | the non-strict string order is transitive |
| `Format.DecimalRoundTrip` | src/components/GraveyardClient.tsx:12 | the decimal text of a count reads back to it, has no leading zero, and has at most three digits below 1000 |
| `Format.FormatNumberBands` | src/components/GraveyardClient.tsx:8-15 | bands tested in order: at least 1000000 gives the one-decimal text then "M"; 1000..999999 gives 1 to 3 digits with no leading zero, worth the truncated thousands, then "K"; below 1000 gives the localized text |
| `Format.FormatNumberTruncates` | src/components/GraveyardClient.tsx:11-14 | 1500 and 1000 give "1K", 999999 gives "999K", 999 gives the localized text |
| `Format.LastSegment` | src/components/GraveyardClient.tsx:296 | the badge is the longest suffix of the category without '/' |
| `Format.LastSegmentAppend` | src/components/GraveyardClient.tsx:296 | text without '/' appended to a category extends its badge |
| `Format.LastSegmentOfPath` | src/components/GraveyardClient.tsx:296 | the badge of `parent/leaf` is `leaf`, and a category without '/' is its own badge |
| `TagStyle.KeepLettersIsKey` | src/components/GraveyardClient.tsx:66 | stripping keeps only 'a'..'z' |
| `TagStyle.TagKeyIdempotent` | src/components/GraveyardClient.tsx:66 | the normalised key is a key, and normalising it again changes nothing |
| `TagStyle.TagKeyAppend` | src/components/GraveyardClient.tsx:66 | normalisation works piece by piece on concatenated text |
| `TagStyle.GetTagClass` | src/components/GraveyardClient.tsx:65-81 | a key in the table gives its entry; any other key gives the gray default |
| `TagStyle.TagClassByKey` | src/components/GraveyardClient.tsx:65-81 | tags with the same key get the same style, a tag styles like its key, and the default is returned exactly when the key is not in the table |
| `TagStyle.TableKeysReachable` | src/components/GraveyardClient.tsx:67-80 | every table key is its own normalised key, so every entry can be reached |
| `TagStyle.UnknownTagIsGray` | src/components/GraveyardClient.tsx:65-81 | "Other Issue!" has key "otherissue" and the gray default |
| `TagStyle.KnownTagFound` | src/components/GraveyardClient.tsx:65-81 | "Fraud/Scam" has key "fraudscam" and that entry's style |
| `TagStyle.ConstructorTagLeaks` | src/components/GraveyardClient.tsx:80 | as written, "Constructor" has key "constructor" and yields the inherited `Object` function; the corrected lookup gives the default |
| `TagStyle.AsWrittenAgreesOffPrototype` | src/components/GraveyardClient.tsx:80 | for keys that are not inherited member names, the code as written and the corrected lookup give the same style |
| `JsRecord.LookupOrElse` | src/components/GraveyardClient.tsx:80 | `table[key] \|\| fallback` on a table of non-empty values gives the own entry when there is one, the fallback on a miss off the inherited members, and the inherited member itself when the key names one; the result is a string exactly when the key is own or not inherited |
| `SourceName.IndexOf` | src/components/GraveyardClient.tsx:58 | the result is an occurrence with no earlier occurrence, or none when there is no occurrence at all |
| `SourceName.ReplaceFirst` | src/components/GraveyardClient.tsx:58 | for any index where the pattern occurs with no occurrence before it, the result is the text with that occurrence replaced; with no occurrence at all the text is unchanged |
| `SourceName.StripWwwFirstOnly` | src/components/GraveyardClient.tsx:58 | exactly the first "www." is cut out, wherever it stands, shortening the hostname by 4 |
| `SourceName.StripLeadingWww` | src/components/GraveyardClient.tsx:58 | a leading "www." is removed |
| `SourceName.StripWwwWithoutW` | src/components/GraveyardClient.tsx:58 | a hostname without 'w' is unchanged |
| `SourceName.StripDoubleWww` | src/components/GraveyardClient.tsx:58 | of "www.www.", only the first is removed |
| `SourceName.FirstLabel` | src/components/GraveyardClient.tsx:59 | `split('.')[0]` is the prefix before the first '.', or the whole text when it has no '.' |
| `SourceName.FirstLabelOfDotted` | src/components/GraveyardClient.tsx:59 | the first label of `first.rest` is `first` |
| `SourceName.FirstLabelWithoutDot` | src/components/GraveyardClient.tsx:59 | text without '.' is its own first label |
| `SourceName.GetSourceName` | src/components/GraveyardClient.tsx:57-62 | a parse failure gives "Source"; a stripped hostname in the table gives its label; any other gives the fallback label |
| `SourceName.FallbackLabelShape` | src/components/GraveyardClient.tsx:59 | the fallback is the first label of the stripped hostname with its first character upper-cased and the rest kept |
| `SourceName.TableHostFound` | src/components/GraveyardClient.tsx:22-59 | every table hostname, written with "www.", gets its label |
| `SourceName.DoubleWwwFallback` | src/components/GraveyardClient.tsx:58-59 | a hostname starting with "www.www." falls back to "Www" |
| `SourceName.DoubleWwwLabel` | src/components/GraveyardClient.tsx:57-59 | outside the table, a doubled "www." is shown as "Www" |
| `SourceName.DoubleWwwNotFound` | src/components/GraveyardClient.tsx:57-59 | "www.www.kickstarter.com" is not found although "kickstarter.com" is, and it is shown as "Www" |
| `SourceName.LookupWithoutW` | src/components/GraveyardClient.tsx:58-59 | a hostname without 'w' is looked up unchanged, both as written and corrected |
| `SourceName.ConstructorHostLeaks` | src/components/GraveyardClient.tsx:59 | as written, the hostname "constructor" yields the inherited `Object` function; the corrected lookup gives "Constructor" |
| `SourceName.AsWrittenAgreesOffPrototype` | src/components/GraveyardClient.tsx:59 | for stripped hostnames that are not inherited member names, the code as written and the corrected lookup agree |
| `Facets.Dedup` | src/components/GraveyardClient.tsx:111 | `[...new Set(xs)]` has no duplicates and holds exactly the values of `xs` |
| `Facets.InsertSorted` | src/components/GraveyardClient.tsx:111 | inserting into a sorted list keeps it sorted and adds exactly that value |
| `Facets.SortStringsSorted` | src/components/GraveyardClient.tsx:111 | `sort()` gives a sorted permutation of its input |
| `Facets.SortedDistinctAscending` | src/components/GraveyardClient.tsx:111 | sorted without duplicates means strictly ascending |
| `Facets.DistinctSortedShape` | src/components/GraveyardClient.tsx:111 | `[...new Set(xs)].sort()` is strictly ascending and holds exactly the values of `xs` |
| `Facets.AscendingUnique` | src/components/GraveyardClient.tsx:110-116 | two strictly ascending lists with the same values are equal |
| `Facets.DistinctSortedBySet` | src/components/GraveyardClient.tsx:110-116 | the options depend only on which values occur |
| `Facets.CategoryValues` | src/components/GraveyardClient.tsx:111 | a value is among the mapped categories exactly when some project has it as its category |
| `Facets.TagValuesMembers` | src/components/GraveyardClient.tsx:115 | a tag is in the flattened tags exactly when some project carries it; missing tags contribute nothing |
| `Facets.CategoriesShape` | src/components/GraveyardClient.tsx:110-112 | the category options are strictly ascending, with no duplicates, and name exactly the projects' categories |
| `Facets.AllTagsShape` | src/components/GraveyardClient.tsx:114-116 | the tag options are strictly ascending, with no duplicates, and name exactly the tags some project carries |
| `Facets.FacetsIgnoreOrder` | src/components/GraveyardClient.tsx:110-116 | reordering or repeating projects leaves both option lists unchanged |
| `Facets.UntaggedAddsNoTag` | src/components/GraveyardClient.tsx:115 | a project with missing tags adds no tag option |
| `Stats.TotalAppend` | src/components/GraveyardClient.tsx:119-120 | the sums distribute over concatenation |
| `Stats.TotalRemove` | src/components/GraveyardClient.tsx:119-120 | taking a project out takes its amount or backers out of the sum |
| `Stats.TotalPermutation` | src/components/GraveyardClient.tsx:119-120 | the sums do not depend on the order of the projects |
| `Stats.StatsOfEmpty` | src/components/GraveyardClient.tsx:118-122 | no projects give 0, 0, 0 |
| `Stats.StatsLaws` | src/components/GraveyardClient.tsx:118-122 | one more project adds 1 to the count, its amount to the total lost and its backers to the total backers; permuting the list changes nothing |
| `Stats.TotalNonNegative` | src/components/GraveyardClient.tsx:119-120 | non-negative amounts or backers give a non-negative sum |
| `Filter.FilterProjects` | src/components/GraveyardClient.tsx:125-133 | the result is a subsequence of the projects, and each project occurs in it as often as in the input if it matches and not at all otherwise |
| `Filter.FilterMembers` | src/components/GraveyardClient.tsx:125-133 | a project is kept exactly when it is loaded and passes search, category and tag |
| `Filter.MatchesSearchIffOccurs` | src/components/GraveyardClient.tsx:126-129 | the search passes exactly when the lower-cased term occurs in the lower-cased name, failure reason or category |
| `Filter.SearchIgnoresTermCase` | src/components/GraveyardClient.tsx:127-129 | the term's case does not matter |
| `Filter.EmptyFilterKeepsAll` | src/components/GraveyardClient.tsx:125-133 | with empty search, category and tag, every project is kept, in order |
| `Filter.MissingTagsRejected` | src/components/GraveyardClient.tsx:131 | a project with missing tags fails every non-empty tag selection |
| `Filter.CategoryIsFullPath` | src/components/GraveyardClient.tsx:130 | a project of `parent/leaf` shows the badge `leaf` yet is not kept when `leaf` is the selected category |
| `Filter.FilterIdempotent` | src/components/GraveyardClient.tsx:125-133 | filtering twice with the same selection is filtering once |
| `Sort.CompareLaws` | src/components/GraveyardClient.tsx:135-152 | the comparator answers only 1 or -1; it is antisymmetric on different keys, answers `-direction` both ways on equal keys, and a positive answer never reverses the direction's order |
| `Sort.SwapPermutes` | src/components/GraveyardClient.tsx:135 | swapping neighbours keeps the same projects |
| `Sort.StartInserting` | src/components/GraveyardClient.tsx:135-152 | an ordered prefix starts an insertion |
| `Sort.SwapStep` | src/components/GraveyardClient.tsx:135-152 | moving the inserted project past a predecessor that the comparator puts after it keeps the insertion state |
| `Sort.FinishInserting` | src/components/GraveyardClient.tsx:135-152 | an insertion that stops at the front, or behind a predecessor that may stay before it, leaves the prefix ordered |
| `Sort.SortInPlace` | src/components/GraveyardClient.tsx:135-152 | the array ends as a permutation of its contents, keys non-decreasing for direction 1 and non-increasing for -1 |
| `Sort.LastIsLargest` | src/components/GraveyardClient.tsx:135-152 | in an ordered list the last project has the largest key in the direction's order |
| `Sort.SameLast` | src/components/GraveyardClient.tsx:135-152 | two ordered permutations without shared keys end with the same project |
| `Sort.DropLastPermutes` | src/components/GraveyardClient.tsx:135 | removing the same last project from two permutations leaves permutations |
| `Sort.OrderDeterminedByDistinctKeys` | src/components/GraveyardClient.tsx:135-152 | with distinct keys, any two ordered permutations of the same projects are equal |
| `Sort.Reverse` | src/components/GraveyardClient.tsx:151 | position i of the reversal holds position n-1-i of the list |
| `Sort.ReversePermutes` | src/components/GraveyardClient.tsx:151 | reversing keeps the same projects |
| `Sort.DescendingIsReversedAscending` | src/components/GraveyardClient.tsx:135-152 | with distinct keys, direction -1 gives exactly the reverse of direction 1 |
| `Graveyard.NextSort` | src/components/GraveyardClient.tsx:157-164 | after a press, the selected field is the pressed one |
| `Graveyard.NextSortLaws` | src/components/GraveyardClient.tsx:157-164 | the current field's button negates the direction, and two presses restore it; another field starts at -1, and a second press gives 1 |
| `Graveyard.PressAllLast` | src/components/GraveyardClient.tsx:157-164 | after any non-empty sequence of presses, the field is the last one pressed |
| `Graveyard.TwoProjectOrder` | src/components/GraveyardClient.tsx:88-89 | with amounts 50000 and 1200000, the opening order is the larger first, and a second amount press gives the smaller first |
| `Graveyard.TwoProjectStats` | src/components/GraveyardClient.tsx:118-122 | the same two projects with 200 and 50 backers give 2, 1250000 and 250 |
| `Graveyard.GraveyardClient.constructor` | src/components/GraveyardClient.tsx:84-89 | nothing loaded, empty search and filters, amount sorted descending |
| `Graveyard.GraveyardClient.LoadProjects` | src/components/GraveyardClient.tsx:99 | the projects become the loaded data and the selections are unchanged |
| `Graveyard.GraveyardClient.SetSearchTerm` | src/components/GraveyardClient.tsx:212 | only the search term changes |
| `Graveyard.GraveyardClient.SetCategoryFilter` | src/components/GraveyardClient.tsx:217 | only the category selection changes |
| `Graveyard.GraveyardClient.SetTagFilter` | src/components/GraveyardClient.tsx:229 | only the tag selection changes |
| `Graveyard.GraveyardClient.HandleSort` | src/components/GraveyardClient.tsx:157-164 | the sort selection moves as `NextSort` says, and projects and filters are unchanged |
| `Graveyard.GraveyardClient.FilteredProjects` | src/components/GraveyardClient.tsx:124-155 | each project occurs as often as it was loaded if it matches and not at all otherwise, and the list is ordered by the selected key and direction |

## Left out

- Fetching the data and the loading and error states (`loadData`, lines 90-108) are network I/O. `LoadProjects` stands for the successful `setProjects(data)`.
- All rendering is UI and not modelled. This covers the JSX, the empty-state message and `formatCurrency`. It also covers the crash of `project.tags.map` on a record without tags, which the filter itself tolerates.
- `FormatNumber` takes the text of `toFixed(1)` (million band) and of `toLocaleString()` (below 1000) as parameters. Both are floating-point and locale services. Amounts and counts are integers, not IEEE doubles.
- `SourceName.GetSourceName` takes the hostname, or `None` when `new URL(url)` throws. URL parsing is a foreign library.
- The date key of a project is a function from the `funded_date` text to an integer, given to the component. `new Date` parsing is foreign code and can produce NaN: every comparison with NaN is false, so such dates are not modelled.
- Case mapping covers ASCII letters only. `toLowerCase` and `toUpperCase` apply full Unicode rules.
- The string order compares Dafny characters (Unicode scalar values). JavaScript's `sort()` compares UTF-16 code units, so the two orders can differ only for characters above U+FFFF.
- `Sort.SortInPlace` is an insertion sort using the view's comparator. Because that comparator is inconsistent (it answers `-sortDirection` for equal keys, even for a project compared with itself), ECMAScript leaves the order produced by `sort()` implementation-defined. The claim that the list comes out ordered by key rests on the engine's sort still producing key order with this comparator, as comparison sorts such as V8's TimSort do in practice; the language does not guarantee it. The engine may place equal-key projects differently from the insertion sort. Claimed: permutation, ordered by key, and determined when keys are distinct.
- The memo functions of `Graveyard.GraveyardClient` (`Categories`, `AllTags`, `Statistics`) only apply the `Facets` and `Stats` functions to the loaded projects. Their properties are stated about those functions.
- React's `useState` and `useMemo` recomputation is framework plumbing. The state is plain fields, and each memo is a function of them.

## Findings

| source | as written | input that shows it | evidently intended | confidence | as-written member | corrected member |
|---|---|---|---|---|---|---|
| src/components/GraveyardClient.tsx:80 | `tagClasses[tagKey] \|\| default` indexes a plain object literal, so keys naming `Object.prototype` members find inherited values | the tag "Constructor" normalises to "constructor" and yields the `Object` function, which is truthy, in place of a style | only the 11 table keys get a style; every other key gets the gray default | medium, not executed | `TagStyle.ConstructorTagLeaks` | `TagStyle.TagClassByKey` |
| src/components/GraveyardClient.tsx:59 | `domainMap[hostname] \|\| ...` indexes a plain object literal in the same way | a source URL with hostname "constructor" yields the `Object` function in place of a label | only the 32 table hostnames get a table label; every other hostname gets its capitalised first label ("Constructor") | medium, not executed | `SourceName.ConstructorHostLeaks` | `SourceName.GetSourceName` |
