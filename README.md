# Multi-source search report: a Dafny model

This project models the core of `tools/search_report.py`, a tool that searches
four public sources for a baseball query and writes one Markdown report. The
four sources are the Chinese Wikipedia, the MLB site, Google and YouTube. The
model covers these steps:

- each source adapter, from the parsed reply to its list of
  `{title, url, snippet}` results (`Wikipedia`, `Mlb`, `Google`, `Youtube`);
- `enrich_items`, which appends an excerpt of at most 200 characters of each
  result's own page to its snippet (`Enrichment`);
- `build_sections`, which runs the requested adapters in order and labels
  their sections (`Pipeline`);
- `aggregate_items`, which merges the sections into one de-duplicated summary
  of at most ten entries (`Aggregation`, on top of the generic first-occurrence
  filter in `Dedup`);
- the parsing of the comma-separated `--sources` value (`Pipeline`);
- the part of Python's `str` behaviour these steps rely on (`Text`):
  `isspace`, `strip`, `split`, `" ".join`, `startswith`, `lower` and slicing.

Every statement loop of the modelled code outside `walk` (`for` and `while`)
is a Dafny method with a loop. The loop that removes `script`, `style` and
`noscript` tags is HTML parsing, which is left out. The method is proved equal to a specification
function, and the lemmas state what the source promises about that function.
The recursive generator `walk`, whose two `for` statements only recurse, the
`"".join(...)` generators over title and description runs and the list
comprehension over the `--sources` pieces are pure, so they are recursive
functions (`Youtube.Walk`, `Youtube.JoinRuns`, `Records.KeepSome`).
`enrich_items` updates its list in place, so its model works on an
`array<Item>`. The network is a value (`Pipeline.Web`) that holds every reply
one run of the tool would receive. A failing primary request is a `Failure`
that ends `build_sections`, because the code does not catch it.

A cap check that comes after the append (`if len(results) >= limit: break`)
means that a `limit` of zero or less yields at most one result, and none when
nothing qualifies. `Records.Cap` states this, and every capped result is
specified through it.

Three behaviours of the code are easy to misread:

- Google results may have an empty title. The code tests only that the `h3`
  tag exists, and a tag is always truthy. Wikipedia titles are not tested at
  all. `Google.BlockCases` states the Google case.
- An exception from a source's primary fetch, or from the YouTube JSON
  handling, ends the whole report. No section is emitted for it.
  `Pipeline.BuiltFails` states this.
- Only the MLB adapter de-duplicates within a source. The aggregator
  de-duplicates across sources.

## Model

| member | source | states |
|---|---|---|
| Text.StripEnds | tools/search_report.py:235 | `strip()` is empty exactly for all-whitespace text, and otherwise starts and ends with a non-whitespace character |
| Text.VisibleStrip | tools/search_report.py:235 | `strip()` removes whitespace only: the non-whitespace characters, in order, are unchanged |
| Text.WordsVisible | tools/search_report.py:222 | `split()` loses no visible character: its words, concatenated, are the text's visible characters |
| Text.CollapseShape | tools/search_report.py:222 | `" ".join(text.split())` is single-spaced, with no whitespace at either end |
| Text.CollapseKeepsText | tools/search_report.py:222 | collapsing whitespace keeps every visible character, in order |
| Text.CollapseIdempotent | tools/search_report.py:222 | collapsing keeps the word boundaries (`split()` of the result is `split()` of the input), so collapsing a second time changes nothing |
| Text.WordsOfJoin | tools/search_report.py:222 | `split()` undoes `" ".join` of non-empty, space-free words |
| Text.SplitOfJoin | tools/search_report.py:290 | `split(",")` undoes `",".join` of comma-free parts |
| Text.PrefixSingleSpaced | tools/search_report.py:225 | a prefix `text[:n]` of single-spaced text is single-spaced |
| Dedup.FirstOccurrencesKeys | tools/search_report.py:151-157 | the seen-set filter keeps exactly the non-empty keys of its input |
| Dedup.FirstOccurrencesAreFirsts | tools/search_report.py:151-157 | each kept element is the first element of the input with its key, in input order |
| Dedup.FirstOccurrencesPrefix | tools/search_report.py:151-157 | filtering a longer input extends the filtered result of a prefix |
| Dedup.FirstOccurrencesIdempotent | tools/search_report.py:155 | filtering twice is filtering once |
| Records.CappedOfExtension | tools/search_report.py:60-61 | once the results read so far fill the cap, the rest of the input cannot change the capped result |
| Aggregation.AggregateItems | tools/search_report.py:149-168 | the nested loops with the early `return` compute the capped first occurrence of every non-empty url, tagged with its section's name |
| Aggregation.AggregatedLength | tools/search_report.py:166-167 | at most `limit` entries for `limit >= 1`, and at most one otherwise |
| Aggregation.AggregatedDistinct | tools/search_report.py:154-157 | every url is non-empty, and no url appears twice |
| Aggregation.AggregatedAreFirsts | tools/search_report.py:152-165 | the summary is a prefix of the first occurrences, in section-then-item order |
| Aggregation.AggregatedFrom | tools/search_report.py:158-165 | every entry carries the title, url and snippet of an item of some section, and that section's name |
| Aggregation.AggregatedIgnoresLaterSections | tools/search_report.py:166-167 | once the cap is reached, appending further sections changes nothing |
| Aggregation.AggregateOfAggregated | tools/search_report.py:149-168 | re-aggregating an aggregated list as one section gives it back unchanged, apart from the new source label |
| Aggregation.AggregateOfDistinct | tools/search_report.py:149-168 | one section with distinct non-empty urls, within the cap, aggregates to all of its items |
| Aggregation.DuplicateAcrossSections | tools/search_report.py:149-168 | a url already taken from an earlier section is dropped from a later one, and with a cap of one only the first item is taken |
| Enrichment.PageSummary | tools/search_report.py:214-226 | the excerpt of a failed fetch is empty; otherwise it is the prefix of the collapsed text of length `min(max_chars, len(text))` |
| Enrichment.ExcerptShape | tools/search_report.py:214-226 | the excerpt is empty when the fetch fails; otherwise it is the prefix of the collapsed page text of length `min(max_chars, len(text))`, single-spaced, and non-empty exactly when the page has visible text |
| Enrichment.ExtendedKeeps | tools/search_report.py:234-236 | appending an excerpt keeps the title and the url, appends the excerpt's visible text to the snippet's, and leaves a non-empty snippet |
| Enrichment.EnrichOne | tools/search_report.py:232-237 | one iteration keeps the title and the url, and changes nothing when the excerpt is empty |
| Enrichment.EnrichOneKeeps | tools/search_report.py:232-237 | one item keeps its title and url; it is unchanged without an excerpt; otherwise its snippet gains the excerpt's text and is non-empty |
| Enrichment.EnrichedKeeps | tools/search_report.py:229-238 | the list keeps its length, order, titles and urls, and never loses a non-empty snippet |
| Enrichment.EnrichItems | tools/search_report.py:229-238 | the in-place loop leaves the array holding the enriched items |
| Mlb.Candidate | tools/search_report.py:132-139 | a kept anchor gives its text, its resolved href and an empty snippet, and the url starts with the origin; a relative href with a text is always kept |
| Mlb.SearchMlb | tools/search_report.py:126-146 | the anchor loop, with its seen-set and its `break`, computes the capped first occurrences of the anchors' candidates |
| Mlb.MlbResultsDistinct | tools/search_report.py:140-145 | no url appears twice, and there are at most `limit` results for `limit >= 1` |
| Mlb.MlbResultsFrom | tools/search_report.py:131-143 | every result is the candidate of some anchor of the page |
| Mlb.MlbResultsShape | tools/search_report.py:131-143 | every url starts with the MLB origin and is an anchor's resolved href; the title is that anchor's non-empty text; the snippet is empty |
| Mlb.CandidateCases | tools/search_report.py:132-139 | a href starting with `/` is glued to the origin and kept; a href starting with the origin is kept, look-alike hosts included; any other non-empty href is dropped |
| Google.Target | tools/search_report.py:50-53 | a link that is not a `/url?` redirect is its own target; a redirect's target is its first `q` value, or `""` when it has none |
| Google.BlockItem | tools/search_report.py:46-58 | a block yields a result exactly when it has a title and a link whose target starts with `http`; a kept block gives its title, its link's target (which starts with `http`) and its snippet or `""` |
| Google.ParseBlock | tools/search_report.py:46-59 | the statements of one iteration, with their two `continue`s, compute the block's result |
| Google.ParseGoogleResults | tools/search_report.py:42-62 | the block loop with its `break` computes the capped results of the blocks |
| Google.GoogleResultsShape | tools/search_report.py:45-61 | at most `limit` results; each comes from a block with a title and a link, and carries that title, the block's snippet or `""`, and the link's target, which starts with `http` |
| Google.GoogleResultsUncapped | tools/search_report.py:45-62 | below the cap, every block that qualifies is a result, in block order |
| Google.BlockCases | tools/search_report.py:46-58 | no result carries a `/url?` redirect link; a redirect without `q` drops the block; a block with a title (an empty one included) and a link whose target starts with `http` is kept; a block without a title or a link is dropped |
| Youtube.Lookup | tools/search_report.py:76-77 | `key in obj` is true exactly when some member has the key, and `obj[key]` is that member's value |
| Youtube.Walk | tools/search_report.py:74-82 | a scalar yields nothing, and a dict's own renderer is yielded before anything nested in it |
| Youtube.WalkOnlyRenderers | tools/search_report.py:74-82 | everything the walk yields is the `videoRenderer` value of some dict inside the node |
| Youtube.WalkFindsMembers | tools/search_report.py:74-82 | `walk` yields a dict's own renderer and everything found in its values or in a list's items, at any depth |
| Youtube.WalkNestedRenderer | tools/search_report.py:74-79 | a renderer nested inside a renderer is yielded after it |
| Youtube.JoinRunsFails | tools/search_report.py:86-87 | joining the runs raises exactly when some run is not a dict or holds a non-string `text` |
| Youtube.FieldText | tools/search_report.py:86-87 | a missing field, or one without `runs`, reads as `""`; a field that is not a dict raises; a list of runs reads as their join |
| Youtube.VideoStep | tools/search_report.py:85-93 | a renderer that is not a dict raises; a title that cannot be read raises before the id is tested; once the title reads, the video is skipped exactly when its id is missing or falsy or its stripped title is empty; it is kept exactly when it is not skipped and its description reads; a kept video has a non-empty title and a watch url |
| Youtube.GatherSpec | tools/search_report.py:84-95 | the loop raises exactly when a failing renderer comes before the cap is filled; otherwise it returns the first `Cap(limit)` kept videos |
| Youtube.ParseYoutubeResults | tools/search_report.py:65-96 | the loop over `walk(data)`, with its `continue`, `break` and exceptions, computes the specified result |
| Youtube.VideoStepKept | tools/search_report.py:84-93 | a kept video is a dict with a truthy id; its url is that id's watch url; its title is the non-empty stripped join of the title runs; its snippet is the stripped join of the description runs |
| Youtube.YoutubeResultsShape | tools/search_report.py:65-96 | no embedded data gives `[]`; malformed data raises; a success has at most `Cap(limit)` results, each with a watch url and a non-empty title |
| Wikipedia.SearchWikipedia | tools/search_report.py:110-123 | the `zip` loop computes the positional pairing of titles and links, with their summaries |
| Wikipedia.WikiResultsZip | tools/search_report.py:113-122 | one result per position both lists have; the title and link of that position; the extract, or `""` when the lookup failed or gave none |
| Wikipedia.WikiExample | tools/search_report.py:113-122 | a failed summary lookup costs only that result's snippet, and extra links are ignored |
| Pipeline.Run | tools/search_report.py:243-262 | at most one diagnostic per name; without an exception, every name gives exactly one section or one diagnostic |
| Pipeline.Enrich | tools/search_report.py:245 | enriching a fresh list gives the enriched items |
| Pipeline.BuildSections | tools/search_report.py:241-263 | the source loop computes the specified sections and diagnostics |
| Pipeline.BuiltFails | tools/search_report.py:241-263 | `build_sections` raises exactly when some requested known source raises |
| Pipeline.BuiltSections | tools/search_report.py:241-263 | without an exception: one section per known name, in request order, each that source's labelled, enriched results; one diagnostic per unknown name |
| Pipeline.UnknownSource | tools/search_report.py:261-262 | an unknown name adds no section, only the line `未知来源：<name>` |
| Pipeline.GenerateReport | tools/search_report.py:266-268 | the report is the built sections and their aggregation with the default cap, or the exception |
| Pipeline.ReportSummary | tools/search_report.py:266-268 | the summary holds at most ten entries with distinct non-empty urls, each labelled with the heading of one of the report's sections |
| Pipeline.SourceEntryShape | tools/search_report.py:290 | a comma-free piece is dropped exactly when it is all whitespace; otherwise it becomes a normalised name |
| Pipeline.ParseSources | tools/search_report.py:290 | every parsed name is non-empty, lower-case, comma-free and stripped |
| Pipeline.ParseSourcesOfJoin | tools/search_report.py:290 | parsing a comma-joined list of normalised names gives the list back, the empty list included |

## Left out

- HTTP requests (`fetch`, `fetch_json`), the user agent and the timeouts are not modelled. Each reply is a parameter inside `Pipeline.Web`, and the same request is taken to get the same answer during one run.
- HTML parsing with BeautifulSoup is not modelled. `div.g`, `h3`, `a` and `div.VwiC3b` selection, `get_text` and the removal of `script`, `style` and `noscript` are not modelled; the adapters receive blocks, anchors or page text.
- The `ytInitialData` regular expressions and `json.loads` are not modelled. Their outcome is the `Youtube.Embedded` value.
- Numbers in the JSON data are integers; floating-point values are not modelled.
- `Youtube.Lookup`: a JSON object is assumed to have distinct keys, as a dict built by `json.loads` does, so the first member with a key stands for the dict's entry.
- `Youtube.IdText`: `str()` of a non-string truthy id is an abstract parameter (`render`), not written out.
- `urlparse`/`parse_qs` are not modelled. The `q` values of a redirect link are the abstract `Google.QueryValues`.
- `quote` in the Wikipedia summary url is not modelled. The summary reply is looked up by title.
- The Wikipedia `limit` is only sent to the API, and no local cap follows it. The API's own cap is not modelled.
- A Wikipedia summary reply that is not a JSON object, or whose `extract` is not a string, is not modelled.
- Exceptions other than request exceptions in `extract_page_summary` are not modelled, and neither is Python's recursion limit in `walk`.
- `lower()` is modelled for ASCII letters only; other case mappings are not.
- `format_markdown`, `unescape` and the table escaping are not part of this model. Neither are `main`'s argument parsing, its default `--sources` value and the file output.
- `tools/interactive_robot.py` is not part of this model.
