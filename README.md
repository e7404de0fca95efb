# TLDR tech digest — a Dafny model of the aggregation pipeline

This project models the data logic of a daily tech and hiring digest. The
digest reads RSS and Atom feeds, classifies entries with keyword tables,
drops entries older than a lookback window, deduplicates them by a
canonical link, sorts them by recency and renders three fixed sections as
plain text and as HTML. It can also ask a language model for highlights,
and it reads its settings from the environment.

The model is written on values, with one module per source file:

| module | file | source |
|---|---|---|
| `Types` | types.dfy | src/types.ts: categories, filters, sources, items |
| `Utils` | utils.dfy | src/utils.ts: link canonicalisation, `dedupeItems`, `sortByPublishedDesc` |
| `Filters` | filters.dfy | src/filters.ts: `normalize`, `isHiringNews`, `isTechNews` |
| `Rss` | rss.dfy | src/rss.ts: feed-entry normalisation over a parsed XML tree |
| `Digest` | digest.dfy | src/digest.ts: the text and HTML renderings |
| `Summarize` | summarize.dfy | src/summarize.ts: `stripHtml`, `buildPrompt`, reading the reply |
| `Config` | config.dfy | src/config.ts: `loadConfig` over an environment map |
| `Pipeline` | pipeline.dfy | src/runDigest.ts: per-source filters, lookback, stage order, delivery |
| `Strings`, `Seqs`, `Wrappers` | strings.dfy, seqs.dfy, wrappers.dfy | the JavaScript string and array operations the code uses, plus `Option`/`Result` |

The source's loops keep their form. The method `Utils.DedupeItems` runs the
`seen`-set loop of `dedupeItems`. `Utils.NormalizeLink` runs the deletion
loop of `normalizeLink`. `Summarize.BuildPrompt` pushes lines as
`buildPrompt` does. `Rss.FindLink` runs the early-return search of
`pickLink`. Each of these methods is proved equal to a specification
function, and lemmas state that function's properties.

Foreign primitives are function-valued parameters, and the model assumes
nothing about them that the code does not rely on:
- `UrlOps.parse` and `UrlOps.serialize` stand for the WHATWG `new URL` and `toString`.
- `parseTime` stands for `new Date(text)`, with `None` for an invalid date.
- `isoString` stands for `toISOString`.
- `parse` stands for `JSON.parse`.
- `toNumber` stands for `Number`, with `None` for a non-finite result.
- `Model` stands for the language-model call.

A fetch arrives already resolved. Each source comes with the items its
feed parsed to, or `None` when the fetch threw.

Three details of the code shape the rendering:
- `buildDigest` takes three parameters (src/digest.ts:56-60). So the highlights that src/runDigest.ts:71 passes as a fourth argument are ignored, and the digest renders no highlights block, no display host and no summary snippet.
- A text item line starts with `- [` (src/digest.ts:25).
- Feed dispatch tests whether `rss.channel` and `feed` are truthy (src/rss.ts:114-122), not merely present.

## Model

| member | source | states |
|---|---|---|
| Utils.StripTracking | src/utils.ts:21-26 | no tracking parameter is left; the other parameters stay in their original order (a subsequence holding every non-tracking one); the rest of the URL is untouched; the query counts as rewritten exactly when it was already rewritten or some tracking parameter was present |
| Utils.StripTrackingCounts | src/utils.ts:22-26 | every non-tracking parameter is kept as often as it occurred, and no tracking one |
| Utils.StripTrackingIdempotent | src/utils.ts:22-28 | stripping tracking parameters twice gives the same URL as stripping them once |
| Utils.WithoutUnion | src/utils.ts:22-26 | deleting one set of names and then another is deleting their union |
| Utils.WithoutOccurring | src/utils.ts:22-26 | only names that occur in the query affect the deletion |
| Utils.Without | src/utils.ts:22-26 | the parameters whose name is outside a set; specified through `Seqs.Filter` and the lemmas `WithoutUnion` and `WithoutOccurring` |
| Utils.Names | src/utils.ts:22 | `searchParams.keys()` lists every parameter's name, repetitions included, in order |
| Utils.Delete | src/utils.ts:24 | `searchParams.delete(name)`: drops every parameter of that name and marks the query rewritten; `DeletedUpToStep` and `DeletedUpToEnd` state what the loop of deletions gives |
| Utils.DropTrailingQuestionMark | src/utils.ts:28 | a string ending in `?` loses exactly that character; any other string is unchanged |
| Utils.CanonicalLink | src/utils.ts:18-32 | `""` for an empty link; for a parseable link, the serialisation of the stripped URL with a trailing `?` removed; otherwise the trimmed, lower-cased link |
| Utils.DroppedNamesStep | src/utils.ts:22-26 | one loop turn adds the current key to the deleted names exactly when it is in `DROP_PARAMS` |
| Utils.DroppedNamesAll | src/utils.ts:22-26 | after the whole key list, a listed name has been deleted iff it is a tracking name, and some name was deleted iff a tracking parameter was present |
| Utils.DeletedUpToStart | src/utils.ts:21-22 | before the loop the URL is the parsed one |
| Utils.DeletedUpToStep | src/utils.ts:23-25 | one loop turn deletes the key exactly when `DROP_PARAMS` has it |
| Utils.DeletedUpToEnd | src/utils.ts:22-26 | after every key has been visited, the loop has produced the stripped URL |
| Utils.NormalizeLink | src/utils.ts:18-32 | the loop over the key snapshot, deleting from the live URL, returns the canonical link |
| Utils.DedupeKey | src/utils.ts:39 | the key is the canonical link when that is non-empty, otherwise the lower-cased title |
| Utils.FirstOccurrences | src/utils.ts:34-46 | the reference definition of de-duplication: the items of a prefix with no earlier item of the same key; its properties are the `FirstOccurrences…` lemmas |
| Utils.Deduped | src/utils.ts:34-46 | the first occurrences of the whole list under the dedup key; `DedupedProperties` states them and `DedupeItems` computes them |
| Utils.DedupeStep | src/utils.ts:38-43 | a visited item is kept exactly when its key is not yet in `seen`, and afterwards `seen` holds its key |
| Utils.DedupeItems | src/utils.ts:34-46 | the one-pass loop with a `seen` set returns exactly the first occurrence of each key, in input order; each turn computes the key with the helper method `ItemKey`, and the lemmas speak of the key through `KeyFn` |
| Utils.FirstOccurrencesSubseq | src/utils.ts:34-46 | the kept items form a subsequence of the input |
| Utils.FirstOccurrencesKeysIn | src/utils.ts:34-46 | every kept key is the key of some input item |
| Utils.FirstOccurrencesCover | src/utils.ts:34-46 | every input key is the key of some kept item |
| Utils.FirstOccurrencesDistinct | src/utils.ts:34-46 | no two kept items share a key |
| Utils.FirstOccurrencesKept | src/utils.ts:40-42 | every item whose key was not seen earlier is kept |
| Utils.FirstOccurrencesOnlyFirst | src/utils.ts:40-42 | every kept item is the first input item with its key |
| Utils.DedupedProperties | src/utils.ts:34-46 | the dedup result is a subsequence with pairwise distinct keys; it holds exactly the first occurrences and covers every input key |
| Utils.DedupeSameLink | src/utils.ts:39-41 | under the same non-empty canonical link the earlier item wins, whatever the titles |
| Utils.DedupeTitleFallback | src/utils.ts:39 | two link-less items titled "Foo" and "foo" collapse to the first |
| Utils.InsertByRecency | src/utils.ts:48-53 | an insertion step adds exactly the inserted item (multiset) |
| Utils.InsertSorted | src/utils.ts:48-53 | inserting into a list sorted by recency keeps it sorted |
| Utils.SortByPublishedDesc | src/utils.ts:48-53 | the sorted copy is non-increasing in `published ?? 0` and a permutation of the input |
| Utils.InsertAtTime | src/utils.ts:48-53 | insertion places the new item first among the items with its own time |
| Utils.SortStable | src/utils.ts:48-53 | items with equal times keep their input order |
| Utils.SortOfSorted | src/utils.ts:48-53 | re-sorting a sorted list changes nothing |
| Utils.FilterKeepsRecency | src/digest.ts:65-67 | filtering a list sorted by recency leaves it sorted |
| Utils.InsertDistinct | src/utils.ts:48-53 | inserting an item with a new key keeps keys distinct |
| Utils.SortDistinct | src/utils.ts:48-53 | sorting keeps keys distinct |
| Utils.SortMembers | src/utils.ts:48-53 | sorting keeps exactly the items it was given |
| Utils.SortedFirstOccurrencesMembers | src/runDigest.ts:50-51 | after dedup and sort, every item is an input item |
| Utils.SortedFirstOccurrencesCover | src/runDigest.ts:50-51 | after dedup and sort, every input key is still present |
| Utils.SortUndatedLast | src/utils.ts:50-52 | an undated item sorts after dated ones, as time 0 |
| Filters.PunctuationPass | src/filters.ts:58 | after the punctuation pass only `[a-z0-9]` and whitespace remain |
| Filters.WhitespacePass | src/filters.ts:59 | after the whitespace pass every blank is one space and no two spaces are adjacent |
| Filters.SliceClean | src/filters.ts:60 | a piece of a clean, singly spaced text is clean and singly spaced |
| Filters.TrimPass | src/filters.ts:60 | trimming a clean, singly spaced text yields a normalised text |
| Filters.Normalize | src/filters.ts:54-61 | `""` for a missing or empty value; otherwise only `[a-z0-9 ]`, no space at either end, never two spaces in a row |
| Filters.NormalizeIdempotent | src/filters.ts:54-61 | normalising a normalised text changes nothing |
| Filters.NormalizeClean | src/filters.ts:56-60 | a clean, singly spaced, lower-case text is only trimmed |
| Filters.NormalizeCleanLowered | src/filters.ts:56-60 | a text that is clean once lower-cased is lower-cased and trimmed |
| Filters.CleanUnchanged | src/filters.ts:58-59 | neither `replace` pass changes a clean, singly spaced text |
| Filters.ContainsAny | src/filters.ts:67-78 | `some(includes)` holds iff some keyword is a substring of the text |
| Filters.ClassifiedText | src/filters.ts:64 | the normalised `title + " " + (summary ?? "")` both classifiers test; `ClassifiedTextOfCleanTitle` and `ClassifiedTextByPasses` compute it |
| Filters.IsHiringNews | src/filters.ts:63-72 | `isHiringNews`; `IsHiringNewsIff` states when it holds |
| Filters.IsTechNews | src/filters.ts:74-79 | `isTechNews`; `IsTechNewsIff` states when it holds |
| Filters.EmptyTextMatchesNothing | src/filters.ts:65-76 | no non-empty keyword occurs in the empty text |
| Filters.HiringTestIff | src/filters.ts:65-71 | the hiring test holds iff some hiring term occurs and no exclusion term does |
| Filters.IsHiringNewsIff | src/filters.ts:63-72 | hiring news iff the normalised title+summary holds a hiring term and no advertising term (exclusion wins); an empty text is never hiring news |
| Filters.IsTechNewsIff | src/filters.ts:74-79 | tech news iff the normalised title+summary holds some tech keyword; an empty text is never tech news |
| Filters.ClassifiedTextOfCleanTitle | src/filters.ts:64 | without a summary, the classified text of a title that is clean once lower-cased is that lower-cased title |
| Filters.LayoffsHeadlineExample | src/filters.ts:63-79 | "Company announces layoffs amid AI push" is both hiring news and tech news |
| Filters.PunctuationMarksPass | src/filters.ts:58 | a comma and an exclamation mark between texts the pass keeps become single spaces |
| Filters.DoubleSpacesPass | src/filters.ts:59 | double spaces between texts the pass keeps become single |
| Filters.ClassifiedTextByPasses | src/filters.ts:54-64 | the classified text obtained pass by pass |
| Filters.JobAdvertExample | src/filters.ts:63-72 | "Apply now for hiring, great careers!" contains "hiring" and is still not hiring news, because exclusion wins |
| Rss.Field | src/rss.ts:52-62 | a property is present only on an element that has that child |
| Rss.Or | src/rss.ts:60 | the JavaScript `or` of two tree values is the first when truthy, else the second |
| Rss.TextOr | src/rss.ts:58-62 | the JavaScript `or` of two optional strings is the first non-empty text |
| Rss.NormalizeText | src/rss.ts:12-19 | any text it yields is trimmed |
| Rss.NormalizeTextCases | src/rss.ts:12-19 | a string gives its trimmed self; an element with a string `#text` gives that text trimmed; everything else gives null |
| Rss.FirstLink | src/rss.ts:25-31 | a link found in a list is never empty |
| Rss.FirstLinkAt | src/rss.ts:25-31 | a list's link is the link of the first entry giving a non-empty one; entries giving `""` are skipped |
| Rss.FirstLinkNone | src/rss.ts:25-31 | a list has no link iff none of its entries gives one |
| Rss.HrefFirst | src/rss.ts:33-37 | a string `@_href` wins over `#text` |
| Rss.FalsyHasNoLink | src/rss.ts:23 | a falsy non-string value gives null |
| Rss.PickLink | src/rss.ts:21-41 | `pickLink` on the tree; `PickLinkTrimmed`, `HrefFirst`, `FalsyHasNoLink` and the `FirstLink` lemmas state its cases, and `FindLink` computes it with the loop |
| Rss.PickLinkTrimmed | src/rss.ts:21-41 | every picked link is trimmed |
| Rss.FirstLinkTrimmed | src/rss.ts:25-31 | every link found in a list is trimmed |
| Rss.FindLink | src/rss.ts:21-41 | the recursive search with an early return from its loop gives `pickLink`'s result |
| Rss.ParseDate | src/rss.ts:43-49 | null for a falsy value or empty or absent text; otherwise the parser's result, with null for an invalid date |
| Rss.Entries | src/rss.ts:55 | a single entry counts as a one-element list |
| Rss.RssItem | src/rss.ts:57-72 | the title is never empty (`(untitled)` by default); the summary is never `""`; source and category are copied |
| Rss.AtomItem | src/rss.ts:82-96 | the same for an Atom entry |
| Rss.ParseRssItems | src/rss.ts:51-74 | `parseRssItems`; `ParseRssItemsOnePerEntry` states its result |
| Rss.ParseAtomItems | src/rss.ts:76-98 | `parseAtomItems`; `ParseAtomItemsOnePerEntry` states its result |
| Rss.ParseRssItemsOnePerEntry | src/rss.ts:51-74 | no `item` gives `[]`; otherwise exactly one item per entry, in order, because the link-or-title filter drops nothing |
| Rss.ParseAtomItemsOnePerEntry | src/rss.ts:76-98 | the same for `entry` |
| Rss.ParseFeed | src/rss.ts:114-122 | RSS when `rss.channel` is truthy, else Atom when `feed` is, else `[]` |
| Rss.ParseFeedItems | src/rss.ts:51-122 | every parsed item has a title, a summary that is null or non-empty, and the source's name and category |
| Digest.FormatDate | src/digest.ts:15-18 | `""` without a date; otherwise the first ten characters of the ISO form (all of it when shorter) |
| Digest.ItemHeadDate | src/digest.ts:23-25 | an undated item's line is `- [source] title`; a dated one adds ` (YYYY-MM-DD)` |
| Digest.RenderList | src/digest.ts:20-28 | `renderList`; `RenderListCons` and `RenderListLines` state how it reads back line by line |
| Digest.RenderListCons | src/digest.ts:20-28 | the list text is the first item's text, a newline and the rest |
| Digest.RenderListLines | src/digest.ts:20-28 | when no field holds a newline, the list text splits into the head line and the link line of each item in turn |
| Digest.RenderListLinesCons | src/digest.ts:20-28 | the same for lists of two or more items |
| Digest.ListLinesCount | src/digest.ts:25 | two lines per item |
| Digest.ReplaceCharConcat | src/digest.ts:31-36 | a global one-character replace works piece by piece |
| Digest.ReplaceCharAbsent | src/digest.ts:31-36 | replacing an absent character changes nothing |
| Digest.EscapeHtml | src/digest.ts:30-37 | the five `replace` passes; `EscapeHtmlNoMarkup` and `UnescapeEscape` state that no markup survives and nothing is lost |
| Digest.EscapeHtmlConcat | src/digest.ts:30-37 | escaping works piece by piece |
| Digest.ReplaceCharSingle | src/digest.ts:31-36 | a one-character string of the replaced character becomes the replacement |
| Digest.EscapeAmp | src/digest.ts:32 | `&` becomes `&amp;`, and no later pass touches it |
| Digest.EscapeLt | src/digest.ts:33 | `<` becomes `&lt;` without double escaping |
| Digest.EscapeGt | src/digest.ts:34 | `>` becomes `&gt;` without double escaping |
| Digest.EscapeQuot | src/digest.ts:35 | `"` becomes `&quot;` without double escaping |
| Digest.EscapeApos | src/digest.ts:36 | `'` becomes `&#39;` without double escaping |
| Digest.EscapePlain | src/digest.ts:30-37 | any other character stays as it is |
| Digest.EscapeHtmlChar | src/digest.ts:30-37 | each character is escaped exactly once |
| Digest.EscapeHtmlIsEscapeEach | src/digest.ts:30-37 | the five passes escape each character on its own |
| Digest.EscapeEachNoMarkup | src/digest.ts:30-37 | character-wise escaping leaves no raw `<`, `>`, `"` or `'` |
| Digest.EscapeHtmlNoMarkup | src/digest.ts:30-37 | escaped text holds no raw `<`, `>`, `"` or `'` |
| Digest.UnescapeStep | src/digest.ts:30-37 | the entity of one character reads back as that character |
| Digest.UnescapeEscape | src/digest.ts:30-37 | reading the five entities back gives the original text, so no entity is double-escaped |
| Digest.UnescapeEscapeEach | src/digest.ts:30-37 | the same for character-wise escaping |
| Digest.RenderHtmlList | src/digest.ts:39-54 | `renderHtmlList`: one escaped entry per item, joined with `""` |
| Digest.RenderHtmlListCons | src/digest.ts:39-54 | the HTML list is `""` for no items, else the first item's entry followed by the list of the rest |
| Digest.RenderHtmlListConcat | src/digest.ts:39-54 | the HTML list of two runs of items is the first run's list followed by the second's |
| Digest.SectionItems | src/digest.ts:65-67 | a section's items; `SectionItemsSpec` and `SectionEmptyIff` state them |
| Digest.SectionItemsSpec | src/digest.ts:65-67 | a section lists the first `min(n, cap)` of the `n` items of its category, sorted by recency, each an input item of that category |
| Digest.SectionEmptyIff | src/digest.ts:65-71 | a section is empty iff the cap is 0 or no item has its category |
| Digest.TextSection | src/digest.ts:64-73 | a text section: heading with count, then the list or `(no items)`; `BuildDigestLayout` and `EmptySectionRendering` state its place and empty form |
| Digest.HtmlSection | src/digest.ts:80-94 | an HTML section: escaped heading with count, then the list or `<li>(no items)</li>`; stated by the same lemmas |
| Digest.BuildDigest | src/digest.ts:56-109 | `buildDigest` of the items, cap and generation time; `BuildDigestLayout` states its layout |
| Digest.Join3 | src/digest.ts:63-96 | joining three sections with `""` concatenates them |
| Digest.BuildDigestLayout | src/digest.ts:56-108 | the sections come as Hiring News, Tech News, AI / Research Breakthroughs; text and HTML render each from the same item list |
| Digest.EmptySectionRendering | src/digest.ts:69-94 | an empty section shows a count of 0 and `(no items)` in text, `<li>(no items)</li>` in HTML |
| Summarize.AfterFirst | src/summarize.ts:14 | what follows the first occurrence of a character is a proper suffix |
| Summarize.TagPass | src/summarize.ts:14 | replacing tags adds no character but the space |
| Summarize.NoTagCons | src/summarize.ts:14 | prefixing a character keeps a text tag-free unless it opens a tag |
| Summarize.TagPassNoTag | src/summarize.ts:14 | after the tag pass no `>` follows a `<` |
| Summarize.ReplaceRunsNoTag | src/summarize.ts:14 | collapsing whitespace creates no tag |
| Summarize.SliceProperties | src/summarize.ts:14 | a piece of the text keeps both properties |
| Summarize.StripHtml | src/summarize.ts:13-15 | `stripHtml`; `StripHtmlClean` states its result |
| Summarize.StripHtmlClean | src/summarize.ts:13-15 | stripped text is trimmed, has no two whitespace characters in a row, and no `<` in it has a `>` after it |
| Summarize.Instructions | src/summarize.ts:19-26 | four fixed instruction lines, the second stating the cap |
| Summarize.SectionHeading | src/summarize.ts:29-30 | a blank line then `SECTION: title (category)` |
| Summarize.Snippet | src/summarize.ts:32-33 | empty when the summary is absent, empty or strips to nothing; otherwise ` — ` and the first `min(240, n)` characters of the `n`-character stripped summary |
| Summarize.ItemLinesOf | src/summarize.ts:31-37 | `forEach` gives one line per item, numbered in order, each the item's prompt line |
| Summarize.SectionAdded | src/summarize.ts:28-38 | one section-loop pass appends that section's lines |
| Summarize.BuildPrompt | src/summarize.ts:17-41 | the pushed lines joined with newlines give the prompt |
| Summarize.Prompt | src/summarize.ts:40 | the prompt lines joined with newlines; `PromptLayout` and `SectionLinesHeading` state its lines, `BuildPrompt` computes it |
| Summarize.PromptLayout | src/summarize.ts:17-41 | the prompt opens with the instructions; each section adds its lines in order |
| Summarize.SectionLinesHeading | src/summarize.ts:29-37 | a section has a blank line, its heading and one line per item |
| Summarize.ItemPromptLineShape | src/summarize.ts:32-35 | an item line starts with its number from 1, its title and `[source]`; a non-empty snippet is ` — ` followed by the first `min(240, n)` characters of the `n`-character stripped summary |
| Summarize.IndexOf | src/summarize.ts:44 | -1 iff absent; otherwise the first position of the character |
| Summarize.LastIndexOf | src/summarize.ts:45 | -1 iff absent; otherwise the last position of the character |
| Summarize.ExtractJson | src/summarize.ts:43-53 | null unless some `}` comes after a `{` |
| Summarize.ExtractJsonSlice | src/summarize.ts:43-53 | otherwise it parses exactly the text from the first `{` to the last `}`, inclusive |
| Summarize.JsString | src/summarize.ts:64-66 | `String(item)` of a parsed value; `HighlightList` drops the empty results |
| Summarize.JsStrings | src/summarize.ts:64-66 | `map((item) => String(item))`: one string per entry, in order |
| Summarize.HighlightList | src/summarize.ts:64-66 | the `String` forms of the entries with the empty ones dropped: a subsequence of them holding each non-empty form exactly as often as the entries give it |
| Summarize.CoerceHighlights | src/summarize.ts:55-68 | present iff the value is an object whose `hiring`, `tech` and `research` fields are all arrays; each list is that array's highlight list |
| Summarize.ReadReply | src/summarize.ts:94-100 | a reply that parses is read as such; otherwise only a `{ … }` slice of it can give highlights |
| Summarize.SummarizeHighlights | src/summarize.ts:70-106 | null when disabled, without an API key, on an error or on an empty reply; otherwise the trimmed reply read as highlights |
| Config.RequireEnv | src/config.ts:22-28 | fails with `Missing required env var: NAME` on an unset or empty variable; otherwise returns it unchanged |
| Config.ParseBool | src/config.ts:30-33 | the fallback for an unset or empty value; otherwise true iff the lower-cased value is `true` or the value is `1` |
| Config.ParseNumber | src/config.ts:35-39 | the fallback for an unset or empty value or a non-finite parse; otherwise the parsed number |
| Config.TrimmedPieces | src/config.ts:51-53 | one trimmed piece per comma-separated part |
| Config.Recipients | src/config.ts:51-54 | the non-empty trimmed pieces, in order: a subsequence of the pieces holding every non-empty one and no empty one |
| Config.RecipientsCounts | src/config.ts:51-54 | each non-empty piece is a recipient exactly as often as it occurs, so a repeated address is kept twice |
| Config.RecipientsClean | src/config.ts:51-54 | every recipient is trimmed and holds no comma |
| Config.LoadConfig | src/config.ts:41-76 | a loaded config has at least one recipient, none empty; each optional setting is its variable read through `parseBool`, `parseNumber` or `||` with its default, so an unset one takes the default (587, the subject, 36, 12, `gpt-4o-mini`, 3, false flags) |
| Config.LoadConfigFirstMissing | src/config.ts:44-51 | the error names the first missing variable in the order `SMTP_HOST`, `SMTP_USER`, `SMTP_PASS`, `DIGEST_FROM`, `DIGEST_TO` |
| Config.RequiredSetIff | src/config.ts:44-51 | the required variables are exactly those five |
| Config.LoadConfigOk | src/config.ts:41-76 | loading succeeds iff every required variable is set and `DIGEST_TO` yields a recipient |
| Config.LoadConfigNoRecipients | src/config.ts:56-58 | with every required variable set, the only error is the empty recipient list |
| Config.LoadConfigValues | src/config.ts:44-67 | required values are taken unchanged and the recipients come from `DIGEST_TO` |
| Pipeline.ApplyFeedFilter | src/runDigest.ts:28-36 | `all` keeps the items; `hiring`/`tech` keep each hiring/tech news item as often as it occurs and drop every other; always a subsequence |
| Pipeline.SourceItems | src/runDigest.ts:14-21 | a failed source contributes `[]`; otherwise its filtered items |
| Pipeline.FetchAllFeeds | src/runDigest.ts:11-26 | the sources' contributions flattened in order; `FetchAllFeedsOrder` and `FailedSourceContributesNothing` state it |
| Pipeline.FetchAllFeedsOrder | src/runDigest.ts:11-26 | each source's items form one block, in source order |
| Pipeline.FailedSourceContributesNothing | src/runDigest.ts:17-21 | a failing source leaves the others' items as they are |
| Pipeline.Cutoff | src/runDigest.ts:46 | `new Date(now - lookbackHours * 3600000)`: a valid time exactly when it lies within 8.64e15 ms of the epoch, and then exactly `lookbackHours` hours before `now` |
| Pipeline.WithinLookback | src/runDigest.ts:38-41 | `withinLookback`: undated items pass; dated ones against a valid cutoff; `WithinLookbackAge` and `InvalidCutoffKeepsUndated` state it |
| Pipeline.WithinLookbackAge | src/runDigest.ts:38-46 | a dated item is in the window iff the cutoff is a valid `Date` (within 8.64e15 ms of the epoch) and the item is at most `lookbackHours * 3600000` ms old, boundary included |
| Pipeline.InvalidCutoffKeepsUndated | src/runDigest.ts:38-49 | when the cutoff is an Invalid Date, the lookback filter keeps exactly the undated items |
| Pipeline.RecentItems | src/runDigest.ts:49 | the lookback filter keeps the in-window items in order: a subsequence holding every in-window item and only those |
| Pipeline.RecentItemsCounts | src/runDigest.ts:49 | each in-window item is kept exactly as often as it occurs, and no other |
| Pipeline.Stages | src/runDigest.ts:49-51 | lookback, dedupe and sort in that order; the `Stages…` lemmas state the result |
| Pipeline.StagesDistinctSorted | src/runDigest.ts:49-51 | the final list has distinct keys and is sorted by recency |
| Pipeline.StagesWithinWindow | src/runDigest.ts:49-51 | the final list holds only in-window input items |
| Pipeline.StagesCoverKeys | src/runDigest.ts:49-51 | every key of an in-window input item survives |
| Pipeline.SummarySections | src/runDigest.ts:53-69 | three sections are handed to the summariser |
| Pipeline.SummaryItems | src/runDigest.ts:57 | a category's items of the sorted list, at most 24; `SummaryItemsSpec` states them |
| Pipeline.SummaryItemsSpec | src/runDigest.ts:53-69 | the first `min(n, 24)` of the `n` items of a category, in the sorted list's order, each an item of that category |
| Pipeline.SummarySectionsSpec | src/runDigest.ts:53-69 | they come in the digest's order and titles; each is the first up-to-24 items of its category in the sorted list |
| Pipeline.Deliver | src/runDigest.ts:72-79 | a dry run prints the text; otherwise subject, text, html and recipients go to the mail |
| Pipeline.RunDigest | src/runDigest.ts:43-44 | the run fails exactly when loading the configuration does, with its message |
| Pipeline.RunWith | src/runDigest.ts:44-79 | the run once the configuration is loaded; `RunDigestDryRun` and `RunDigestDelivery` state its delivery |
| Pipeline.RunDigestDryRun | src/runDigest.ts:74-79 | a dry run prints and sends nothing; otherwise the mail goes to the configured, non-empty recipients under the configured subject |
| Pipeline.RunDigestDelivery | src/runDigest.ts:46-79 | what is printed or sent is the digest of the in-window, deduplicated, sorted items; the summariser cannot change it |
| Strings.LowerChar | src/utils.ts:30 | the result is never an upper-case letter; other characters and whitespace-ness are kept |
| Strings.Lower | src/filters.ts:57 | `toLowerCase` character by character, length kept |
| Strings.LowerConcat | src/filters.ts:57 | lower-casing works piece by piece |
| Strings.LowerPointwise | src/filters.ts:57 | lower-casing computed one character at a time |
| Strings.TrimStart | src/rss.ts:13 | drops exactly the leading whitespace |
| Strings.TrimEnd | src/rss.ts:13 | drops exactly the trailing whitespace |
| Strings.Trim | src/rss.ts:13 | a contiguous piece with only whitespace cut off both ends, and no whitespace at either end |
| Strings.TrimChars | src/config.ts:53 | trimming adds no character |
| Strings.TrimKeepsHead | src/summarize.ts:35 | trimming keeps a head that neither starts nor ends with whitespace |
| Strings.TrimOfTrimmed | src/filters.ts:60 | trimming a trimmed string changes nothing |
| Strings.TrimTrailingSpace | src/filters.ts:64 | trimming a trimmed string plus one space gives it back |
| Strings.OccursAtPointwise | src/filters.ts:67 | an occurrence checked one character at a time |
| Strings.Contains | src/filters.ts:67 | `includes` holds iff the pattern occurs at some index |
| Strings.MissingCharNoMatch | src/filters.ts:67 | a pattern with a character the text lacks does not occur |
| Strings.ReplaceRuns | src/filters.ts:58-59 | replacing runs of a class keeps a non-empty text non-empty |
| Strings.ReplaceRunsChars | src/filters.ts:58-59 | each character of the result is the space or an input character outside the class |
| Strings.ReplaceRunsHead | src/filters.ts:58-59 | a first character outside the class stays first |
| Strings.ReplaceRunsSeparated | src/filters.ts:58-59 | no two class characters are adjacent in the result |
| Strings.ReplaceRunsConcat | src/filters.ts:58-59 | the replacement works piece by piece when no run straddles the cut |
| Strings.ReplaceRunsOfRun | src/filters.ts:58-59 | a run becomes one space |
| Strings.ReplaceRunsUnchanged | src/filters.ts:59 | a text whose class characters are single spaces is unchanged |
| Strings.Split | src/config.ts:52 | never empty, and no part holds the separator |
| Strings.JoinSplit | src/config.ts:52 | joining the parts of a split with the separator gives the string back |
| Strings.JoinConcat | src/digest.ts:53 | joining with `""` runs two lists of parts together piece by piece |
| Strings.JoinCons | src/digest.ts:53 | joining with `""` puts the first part before the join of the rest |
| Strings.SplitPrefix | src/digest.ts:27 | splitting peels off a separator-free head |
| Strings.SplitNoSeparator | src/digest.ts:27 | a separator-free text splits into itself |
| Strings.SplitJoin | src/digest.ts:27 | splitting a join of separator-free parts gives the parts back |
| Strings.NatToString | src/digest.ts:73 | a decimal numeral without a leading zero |
| Strings.DecimalValueOfNatToString | src/digest.ts:73 | the numeral reads back as the number |
| Strings.IntToString | src/summarize.ts:22 | negative numbers get a minus sign before the numeral |
| Seqs.Filter | src/runDigest.ts:28-36 | `filter` keeps the elements satisfying the predicate in order: a subsequence holding every passing element and only passing ones |
| Seqs.FilterMultiset | src/runDigest.ts:32-35 | each passing element is kept exactly as often as it occurs, and no other; with the subsequence property this fixes the result |
| Seqs.FilterConcat | src/runDigest.ts:49 | filtering works piece by piece |
| Seqs.FilterAll | src/rss.ts:73 | a filter every element passes changes nothing |
| Seqs.FlatMapAt | src/runDigest.ts:25 | flattening puts each piece, in order, at its place |
| Seqs.Take | src/digest.ts:67 | `slice(0, n)` is a prefix of length `min(n, length)`; a negative end counts from the back |

## Left out

- The HTTP fetch, its User-Agent header and the XML parser (src/rss.ts:1-10, 100-112) are network I/O and a foreign library. The model starts from the parsed tree, and a fetch that threw arrives as `None`.
- The `Promise.all` fan-out and its concurrency are not modelled. Only its result is: the per-source results, flattened in source order.
- The WHATWG URL parser and serialiser, date parsing, `toISOString`, `JSON.parse` and `Number` are function parameters with no properties assumed.
- The OpenAI client call, its model setting and temperature, and the nodemailer transport (src/email.ts) are external services. The model call is the `Model` parameter, which returns a reply or an error; the mail is the `Sent` record that `runDigest` hands over.
- Console logging has no behaviour to verify.
- The feed list (src/feeds.ts) is static data. Sources are a parameter.
- The entry points (src/index.ts, functions/daily-digest/index.ts) are only plumbing.
- `.env` loading through dotenv is left out; the environment is a map parameter.
- Strings.Lower: lower-cases ASCII letters only, because JavaScript's full Unicode case mapping is out of scope.
- Config.ParseNumber: numbers are integers. Fractional and floating-point values of the numeric settings are not modelled.
- Summarize.JsString: floating-point numbers and their `String` form are not modelled; JSON numbers are integers.
- The highlights argument that src/runDigest.ts:71 passes to `buildDigest` is dropped by that function, so the model renders none.
- Summarize.Snippet: `slice(0, 240)` counts UTF-16 code units, while the model counts characters (code points). A summary with characters outside the Basic Multilingual Plane gets a longer snippet in the model than in the code, and the model cannot split a surrogate pair as the code can.
- Summarize.ItemPromptLineShape: the 240 in its contract counts characters, not UTF-16 code units, as for `Summarize.Snippet`.
- Pipeline.RunDigest: its own contract states only the configuration error. The properties of a successful run are stated by Pipeline.RunDigestDryRun and Pipeline.RunDigestDelivery.
