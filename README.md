# Website Analyzer: analysis pipeline model

A Dafny model of the analysis core of the Website Analyzer back end. The system checks a company website's messaging. A
background worker takes a queued analysis job and does the following:

1. It crawls the site breadth-first within its base domain, honouring `robots.txt` and a page budget. The crawl yields
   the sorted internal URLs, a link map and the sorted external links.
2. It groups the URLs by their first path segment. From every group larger than five it keeps a random sample of three
   and records the rest as "Redundant".
3. It drops pages on excluded sub-domains (`docs`, `api`, …) as "Irrelevant".
4. It scores the markup of every other page with a heuristic confidence score from 0 to 100. A page scoring 60 or
   more goes to the rule-based HTML parser. The others go to the LLM parser.
5. It hands the parsed pages, the link map, the parsing failures and the exclusions to the final LLM analysis. It
   extracts the JSON object from the reply and stores it on the job as `completed`. Any exception marks the job
   `failed` with an error record.

The page classifier is a separate LLM step of the same core. It maps a parsed page to one of four categories.

Modules (one file each):

| module | file | models |
|---|---|---|
| `Wrappers` | `wrappers.dfy` | `Option` / `Result` |
| `Text` | `text.dfy` | whitespace cleaning (`re.sub(r'\s+', ' ', t).strip()`), `split`, `str.replace`, ASCII `lower` |
| `StringOrder` | `order.dfy` | Python's code-point order on strings and `sorted(set)` |
| `Json` | `json.dfy` | JSON values and dictionaries as the pipeline builds them |
| `UrlParse` | `urlparse.dfy` | `urllib.parse.urlparse` / `geturl` / `urlunparse` as of Python 3.11.4 (leading control characters and spaces stripped, tabs and line breaks removed, then split) |
| `Crawler` | `crawler.dfy` | `app/core/crawler.py` |
| `Parser` | `parser.dfy` | `app/core/parser.py` |
| `ConfidenceScorer` | `scorer.dfy` | `app/core/confidence_scorer.py` |
| `Settings` | `settings.dfy` | the API-key test shared by the LLM steps |
| `Analyzer` | `analyzer.dfy` | `app/core/analyzer.py` |
| `PageClassifier` | `classifier.dfy` | `app/core/page_classifier.py` |
| `Jobs` | `jobs.dfy` | the `AnalysisJob` record of `app/db/models.py` |
| `Tasks` | `tasks.dfy` | `app/worker/tasks.py` |

Everything outside the program is a parameter (an oracle):

- `robots.txt` permission: `canFetch`.
- The HTTP fetches: `fetch` and `pageFetch`. `pageFetch` gives the page text, the counts the scorer reads from the
  `<body>`, and the element list the parser walks.
- The Gemini replies: `pageModel`, `finalModel` and the classifier's `model`.
- `json.loads`: `decode`.
- `random.sample`: `draw`, constrained by what `random.sample` promises.
- The clock: `now`.
- The formatted traceback: `trace`.

The worker's exception handling becomes `Result` values. The error messages are the source's own texts.

Several steps of `async_run_analysis` are separate methods:

- `GroupByPattern`
- `SampleCollections`
- `ProcessPages`
- `AnalyseCrawl`
- `AnalyseSite`
- `RecordResult`

Each of these methods except `AnalyseSite` is proved equal to a specification function. `AnalyseSite` is proved
against a predicate instead: its crawl meets the crawler's postcondition, and the stages after it meet `AnalyseCrawl`'s
contract. The properties are lemmas about the specification functions:

- Grouping is a permutation of the crawled URLs.
- Sampling partitions each group into the sampled and the redundant URLs.
- Every processed page lands in exactly one of the three result lists.
- The job ends `completed` exactly when the pipeline produced a result.

The page-processing methods take a ghost `process` function. Their precondition ties it to the specification `Outcome`
for every URL. Their contracts then speak of `process(url)`, which keeps each proof small.

## Model

| member | source | states |
|---|---|---|
| `Text.CleanText` | website-analyzer-api/app/core/parser.py:14-16 | the cleaned text has no leading, trailing or doubled whitespace, and its non-space characters are exactly those of the input |
| `Text.CleanTextSplit` | website-analyzer-api/app/core/parser.py:16 | a whitespace run between two words becomes exactly one space: cleaning `a + w + b` gives the cleaned `a`, one space, the cleaned `b` |
| `Text.CleanTextLeading` | website-analyzer-api/app/core/parser.py:16 | leading whitespace is dropped: it does not change the cleaned text |
| `Text.CleanTextTrailing` | website-analyzer-api/app/core/parser.py:16 | trailing whitespace is dropped: it does not change the cleaned text |
| `Text.CleanTextFixes` | website-analyzer-api/app/core/parser.py:14-16 | an already normalised text is returned unchanged |
| `Text.CleanTextIdempotent` | website-analyzer-api/app/core/confidence_scorer.py:7-10 | cleaning cleaned text changes nothing |
| `Text.CleanOptional` | website-analyzer-api/app/core/parser.py:15 | a missing or empty text cleans to "" and the result is normalised |
| `Text.Collapse` | website-analyzer-api/app/core/parser.py:16 | `re.sub(r'\s+', ' ', t)`: empty iff the input is empty; starts with whitespace iff the input does; no two spaces in a row |
| `Text.CollapseSplit` | website-analyzer-api/app/core/parser.py:16 | a whitespace run between a non-space end and a non-space start becomes exactly one space, and the two sides collapse independently |
| `Text.NonSpaceCollapse` | website-analyzer-api/app/core/parser.py:16 | collapsing whitespace keeps every non-space character in order |
| `Text.LStrip` | website-analyzer-api/app/core/parser.py:16 | the result is a suffix that starts with a non-space character, and only whitespace was removed |
| `Text.RStrip` | website-analyzer-api/app/core/parser.py:16 | the result is a prefix that ends with a non-space character, and only whitespace was removed |
| `Text.Split` | website-analyzer-api/app/core/crawler.py:15 | `str.split(sep)`: at least one part, and no part contains the separator |
| `Text.SplitJoin` | website-analyzer-api/app/core/crawler.py:15 | joining the parts with the separator gives back the input |
| `Text.SplitMany` | website-analyzer-api/app/worker/tasks.py:70 | there is more than one part iff the separator occurs |
| `Text.RemoveAll` | website-analyzer-api/app/worker/tasks.py:33 | `replace("www.", "")` never lengthens the text |
| `Text.RemoveAllFirst` | website-analyzer-api/app/worker/tasks.py:33 | `replace` removes the leftmost occurrence and carries on after it: with no occurrence starting inside `a`, replacing in `a + pat + b` gives `a` followed by the replacement in `b` |
| `Text.RemoveAllUnchanged` | website-analyzer-api/app/worker/tasks.py:33 | the replacement leaves the text unchanged iff the pattern does not occur in it |
| `Text.RemoveAllChar` | website-analyzer-api/app/core/crawler.py:14 | replacing a one-character pattern by "" leaves no such character, keeps every other character and a first character that is not the removed one, and changes nothing when the character is absent |
| `Text.RemoveAllCharAppend` | website-analyzer-api/app/core/crawler.py:14 | replacing a one-character pattern works on each part of a concatenation separately |
| `Text.AsciiLower` | website-analyzer-api/app/worker/tasks.py:91 | same length, each character lower-cased |
| `Text.IndexOf` | website-analyzer-api/app/core/crawler.py:14 | the first occurrence of a character, or the length when it is absent |
| `Text.LastIndexOf` | website-analyzer-api/app/core/crawler.py:17 | the last occurrence of a character, or -1 when it is absent |
| `StringOrder.LessIrreflexive` | website-analyzer-api/app/core/crawler.py:106 | the string order used by `sorted` is irreflexive |
| `StringOrder.LessTransitive` | website-analyzer-api/app/core/crawler.py:106 | the string order is transitive |
| `StringOrder.LessTotal` | website-analyzer-api/app/core/crawler.py:106 | the string order is total and asymmetric |
| `StringOrder.Insert` | website-analyzer-api/app/core/crawler.py:106 | inserting into a strictly sorted list keeps it strictly sorted and adds exactly that element |
| `StringOrder.SortedList` | website-analyzer-api/app/core/crawler.py:106 | `sorted(list(s))` is strictly sorted, has one entry per element, and holds exactly the set's elements |
| `UrlParse.Parse` | website-analyzer-api/app/core/crawler.py:14 | `urlparse`, after the 3.11.4 cleaning, leaves no '?' or '#' in scheme, netloc, path or params |
| `UrlParse.LStripControlsSpec` | website-analyzer-api/app/core/crawler.py:14 | `urlsplit`'s left strip drops exactly the leading C0 control characters and spaces and leaves the suffix that starts with neither |
| `UrlParse.RemoveBreaksReplace` | website-analyzer-api/app/core/crawler.py:14 | dropping tabs, carriage returns and newlines one character at a time gives the same text as `urlsplit`'s three `replace` calls |
| `UrlParse.SanitizeSpec` | website-analyzer-api/app/core/crawler.py:14 | the text that is split holds no tab, carriage return or newline, keeps every other character of the stripped URL, and starts with no control character or space; a URL with none of these is split as it is |
| `UrlParse.ParseLeadingControls` | website-analyzer-api/app/core/crawler.py:14 | leading control characters and spaces do not change what `urlparse` returns |
| `UrlParse.ParseIgnoresBreaks` | website-analyzer-api/app/core/crawler.py:14 | a tab, carriage return or newline anywhere in the URL does not change what `urlparse` returns |
| `UrlParse.ParseSchemeNetloc` | website-analyzer-api/app/core/crawler.py:14 | `urlparse` fails exactly on an unmatched bracket in the netloc; otherwise scheme and netloc are the ones split off the cleaned text |
| `UrlParse.ParsePathParams` | website-analyzer-api/app/core/crawler.py:14 | what precedes query and fragment after the netloc is the path, followed by ';' and the parameters when these are split off, which happens only for schemes in `uses_params` |
| `UrlParse.SplitParamsSpec` | website-analyzer-api/app/core/crawler.py:14 | `_splitparams` cuts at the first ';' after the last '/' (anywhere without a '/'), and splits nothing off without such a ';' |
| `UrlParse.ParseQueryFragment` | website-analyzer-api/app/core/crawler.py:14 | the fragment is the text after the first '#' of the cleaned URL, and the query the text between the first '?' before it and that '#' |
| `UrlParse.SplitSchemeSpec` | website-analyzer-api/app/core/crawler.py:14 | a scheme is split off iff the text before the first ':' is non-empty, starts with an ASCII letter and holds only scheme characters; it is that text lower-cased, and the rest is everything after that ':'; the rest is a suffix of the URL |
| `UrlParse.CutAtSpec` | website-analyzer-api/app/core/crawler.py:14 | cutting at the first occurrence of a character gives the text before it and after it; without one, the whole text and "" |
| `UrlParse.SplitNetloc` | website-analyzer-api/app/core/crawler.py:15 | the netloc has no '?' or '#', and netloc and remainder give back the text, with or without its leading "//" |
| `UrlParse.SplitNetlocSpec` | website-analyzer-api/app/core/crawler.py:15 | after "//" the netloc runs up to the first '/', '?' or '#', and holds no '/'; without "//" the netloc is empty and the text is untouched |
| `UrlParse.UnparseWithoutQuery` | website-analyzer-api/app/core/crawler.py:86 | rebuilding a URL with its query and fragment emptied leaves no '?' or '#' |
| `Crawler.LastTwoLabelsIsSuffix` | website-analyzer-api/app/core/crawler.py:15-18 | the base domain ends the host and starts at a label boundary (after a dot or at the start); with a dot it is two dot-free labels joined by one dot, without one the whole host |
| `Crawler.GetBaseDomainSpec` | website-analyzer-api/app/core/crawler.py:11-20 | a URL `urlparse` rejects has the base domain ""; otherwise the base domain is a suffix of its netloc that starts at a label boundary |
| `Crawler.NormalizeUrlDropsOneSlash` | website-analyzer-api/app/core/crawler.py:22-26 | exactly one trailing '/' is removed, and nothing else changes |
| `Crawler.NormalizeUrlKeepsSecondSlash` | website-analyzer-api/app/core/crawler.py:22-26 | normalisation is not idempotent: "…/x//" becomes "…/x/", then "…/x" |
| `Crawler.WebLink` | website-analyzer-api/app/core/crawler.py:89-90 | a non-empty link that parses with scheme http or https is kept as it is; an empty link or another scheme is skipped; a link `urlparse` rejects aborts the page |
| `Crawler.CleanLink` | website-analyzer-api/app/core/crawler.py:84-90 | an href `urlparse` rejects aborts the page; every kept link is non-empty, an http(s) URL, and has no query or fragment |
| `Crawler.PageLinks` | website-analyzer-api/app/core/crawler.py:82-92 | a page records at most one link per anchor, and every recorded link is recordable |
| `Crawler.EnqueuedFresh` | website-analyzer-api/app/core/crawler.py:97-100 | a page enqueues only unvisited internal links, each once, and afterwards every internal link is visited |
| `Crawler.LinkClassified` | website-analyzer-api/app/core/crawler.py:94-102 | a recorded link is internal iff its base domain is the start URL's, and external otherwise |
| `Crawler.VisitLinks` | website-analyzer-api/app/core/crawler.py:82-102 | the link loop records the page's links in order, marks the new internal ones visited and enqueued, and collects the external ones |
| `Crawler.RecordLink` | website-analyzer-api/app/core/crawler.py:92-102 | for any domain function, one link moves from "to come" to recorded, visited/enqueued or external |
| `Crawler.CrawlPage` | website-analyzer-api/app/core/crawler.py:62-104 | a counted page records exactly its expected links (none when the budget is one page, the fetch fails or the page is not HTML), and it is fetched iff the budget is not one page; new internal links are visited and enqueued, the others collected as external |
| `Crawler.ExpectedLinks` | website-analyzer-api/app/core/crawler.py:65-92 | a crawl limited to one page, a failed fetch or a non-HTML page records no link; an HTML page records at most one link per anchor |
| `Crawler.GetUrlListAndMap` | website-analyzer-api/app/core/crawler.py:28-106 | no base domain gives three empty results; otherwise a breadth-first crawl from the normalised start URL: URLs leave the frontier in the order they entered it, and the enqueue order is the start URL followed by each counted page's fresh internal links, page by page in dequeue order; the crawl stops when the frontier is empty or right after the page that spent the budget; URLs sorted and exactly those enqueued, external links sorted and all off-domain, at most crawl-limit link-map entries, one per robots-permitted dequeued URL, each holding that page's links, every page fetched at most once |
| `Crawler.CrawlDone` | website-analyzer-api/app/core/crawler.py:56-106 | when the loop stops, its invariant yields the crawl's postcondition |
| `Crawler.QueueStep` | website-analyzer-api/app/core/crawler.py:56-57 | dequeuing the head and enqueuing the fresh links keeps the queue in breadth-first order without repeats |
| `Crawler.RejectedStep` | website-analyzer-api/app/core/crawler.py:59-60 | a URL that robots.txt refuses is dropped without being counted or recorded |
| `Crawler.CountedStep` | website-analyzer-api/app/core/crawler.py:62-102 | a counted page keeps every crawl invariant |
| `Crawler.EnqueueOrderStep` | website-analyzer-api/app/core/crawler.py:57-100 | one more dequeued URL extends the enqueue order by the fresh internal links of its page when it is counted, and by nothing when robots.txt refuses it |
| `Crawler.EntriesRecordable` | website-analyzer-api/app/core/crawler.py:63-92 | every link in the link map is recordable |
| `Crawler.DiscoveredNew` | website-analyzer-api/app/core/crawler.py:92 | a link recorded for a page counts as discovered |
| `Parser.CleanedText` | website-analyzer-api/app/core/parser.py:41-42 | a text is kept iff its cleaned form is non-empty |
| `Parser.ListItems` | website-analyzer-api/app/core/parser.py:49 | list items are the non-empty cleaned `li` texts, never more than the items |
| `Parser.ListItemsAppend` | website-analyzer-api/app/core/parser.py:49 | the items of two runs of `li` tags are the items of the first followed by those of the second: order is kept |
| `Parser.ListItemsOne` | website-analyzer-api/app/core/parser.py:49 | one `li` gives its cleaned text when that is non-empty, and nothing otherwise |
| `Parser.ListItemsEmpty` | website-analyzer-api/app/core/parser.py:49-50 | the list has items, and so becomes a list block, iff some `li` has a non-empty cleaned text |
| `Parser.BlockOf` | website-analyzer-api/app/core/parser.py:45-53 | p/blockquote give a paragraph, ul/ol a list, h3 a subheading, each only when non-empty; h2 gives none |
| `Parser.FirstH2` | website-analyzer-api/app/core/parser.py:35-43 | the position of the first h2; before it every tag is intro content |
| `Parser.BeforeFirstH2` | website-analyzer-api/app/core/parser.py:40-43 | no tag before the first h2 is an h2 |
| `Parser.IntroTexts` | website-analyzer-api/app/core/parser.py:41-42 | intro texts are non-empty cleaned texts, at most one per tag |
| `Parser.Intro` | website-analyzer-api/app/core/parser.py:40-43 | the intro holds non-empty cleaned texts, at most one per tag before the first h2 |
| `Parser.Sections` | website-analyzer-api/app/core/parser.py:34-55 | the content structure is the list of all sections, with the last one dropped only when it has no blocks |
| `Parser.SectionsBound` | website-analyzer-api/app/core/parser.py:34-55 | one section per h2; the last is dropped iff it has no content blocks; the others are kept even when empty |
| `Parser.PiecesFlatten` | website-analyzer-api/app/core/parser.py:34-39 | cutting the tags at each h2 loses and reorders nothing |
| `Parser.WalkedAgrees` | website-analyzer-api/app/core/parser.py:34-53 | the tag loop, as a left fold, agrees with the declarative intro and section split |
| `Parser.WalkedResult` | website-analyzer-api/app/core/parser.py:34-56 | the loop's final intro and sections are exactly the declarative ones |
| `Parser.ExpectedPage` | website-analyzer-api/app/core/parser.py:18-61 | a parse error iff the markup could not be read, prefixed "Rule-based parser failed unexpectedly: "; otherwise cleaned title, description and h1; no main or body gives empty intro and sections |
| `Parser.ParseHtmlToJson` | website-analyzer-api/app/core/parser.py:18-61 | the loop over the relevant tags computes exactly the specified page |
| `Parser.PageNormalized` | website-analyzer-api/app/core/parser.py:23-55 | every text in a parsed page is whitespace-normalised |
| `Parser.PageVisible` | website-analyzer-api/app/core/parser.py:41-53 | every intro text of a parsed page is non-empty; paragraph and subheading texts are non-empty, and a list block has at least one item, each non-empty |
| `Parser.PageJson` | website-analyzer-api/app/core/parser.py:27 | the page dictionary has "url" and the six page keys, or just "url" and "parsing_error"; "parsing_error" iff the parse failed |
| `ConfidenceScorer.SemanticPenalty` | website-analyzer-api/app/core/confidence_scorer.py:36-39 | penalty 50 below ratio 0.1, 30 below 0.3, otherwise 0 |
| `ConfidenceScorer.TextPenalty` | website-analyzer-api/app/core/confidence_scorer.py:41-44 | penalty 25 below ratio 5, 15 below 10, otherwise 0 |
| `ConfidenceScorer.SizePenalty` | website-analyzer-api/app/core/confidence_scorer.py:46-47 | penalty 40 below 2000 characters, otherwise 0 |
| `ConfidenceScorer.IntegerPenalties` | website-analyzer-api/app/core/confidence_scorer.py:25-44 | the ratio tests are equivalent to integer cross-multiplications |
| `ConfidenceScorer.CalculateConfidenceScore` | website-analyzer-api/app/core/confidence_scorer.py:12-49 | the integer computation yields exactly the specified score |
| `ConfidenceScorer.ScoreBounds` | website-analyzer-api/app/core/confidence_scorer.py:12-49 | empty markup or no body scores 0; the score is within 0..100; 100 iff no threshold is missed; 0 iff the semantic ratio is below 0.1, the text ratio below 10 and the body below 2000 characters |
| `ConfidenceScorer.PenalizedScoreBounds` | website-analyzer-api/app/core/confidence_scorer.py:33-49 | the clamped score is within 0..100, with the same conditions for 100 and 0 as `ScoreBounds` |
| `ConfidenceScorer.SemanticPenaltyAntitone` | website-analyzer-api/app/core/confidence_scorer.py:36-39 | a higher semantic ratio never gets a higher penalty |
| `ConfidenceScorer.ScoreMonotoneInSemanticCount` | website-analyzer-api/app/core/confidence_scorer.py:22-39 | more semantic tags never lower the score |
| `Analyzer.ExtractJson` | website-analyzer-api/app/core/analyzer.py:21-25 | a match starts with '{', ends with '}' and is no longer than the text |
| `Analyzer.ExtractJsonFound` | website-analyzer-api/app/core/analyzer.py:21-25 | the greedy `\{.*\}` search finds a match iff some '{' precedes some '}' |
| `Analyzer.ExtractJsonMatch` | website-analyzer-api/app/core/analyzer.py:21-25 | the match runs from the first '{' to the last '}' |
| `Analyzer.ExtractJsonWhole` | website-analyzer-api/app/core/analyzer.py:21-25 | text that starts with '{' and ends with '}' is matched whole |
| `Analyzer.ExtractJsonIdempotent` | website-analyzer-api/app/core/analyzer.py:21-25 | extracting from an extraction changes nothing |
| `Analyzer.ParserFailure` | website-analyzer-api/app/core/analyzer.py:46-54 | the failure record carries the url and the message, and the raw reply exactly when there is one |
| `Analyzer.ParseWithLlmKeyGuard` | website-analyzer-api/app/core/analyzer.py:28-29 | without a configured key the result is the "API Key not configured." record, whatever the model or decoder |
| `Analyzer.ParseWithLlm` | website-analyzer-api/app/core/analyzer.py:27-54 | with a key and a reply whose JSON part decodes, the decoded object is the result; in every other case the result is a failure record for the URL with "parsing_error" |
| `Analyzer.ParseWithLlmOutcome` | website-analyzer-api/app/core/analyzer.py:27-54 | a decoded object is returned as is; otherwise a failure record with the raw reply, for no JSON in the reply, a model error or a decode error |
| `Analyzer.ObjectTextExtracts` | website-analyzer-api/app/core/analyzer.py:58-61 | the fixed error objects are extractable as a whole |
| `Analyzer.AnalyzeMessagingGuards` | website-analyzer-api/app/core/analyzer.py:57-61 | no key gives the key error and no page data gives the no-data error, neither consulting the model |
| `Analyzer.AnalyzeMessaging` | website-analyzer-api/app/core/analyzer.py:56-85 | with a key, data and a reply, the answer is no longer than the reply, and is a JSON part starting with '{' and ending with '}' whenever the reply held one |
| `Analyzer.AnalyzeMessagingReply` | website-analyzer-api/app/core/analyzer.py:68-85 | a reply without a JSON object is returned raw, otherwise its JSON object; a failed call gives the object `{"error": …, "details": "<message>"}` with the exception's message |
| `Analyzer.AnalyzeMessagingExtractable` | website-analyzer-api/app/core/analyzer.py:56-85 | the text is extractable as a whole, except exactly when the model's reply held no JSON object |
| `PageClassifier.Headings` | website-analyzer-api/app/core/page_classifier.py:17 | at most one heading per section, each truthy |
| `PageClassifier.HeadingsSpec` | website-analyzer-api/app/core/page_classifier.py:17 | the headings are collected iff every section is a dictionary; then each is a truthy heading of some section and every truthy heading is among them |
| `PageClassifier.HeadingsAppend` | website-analyzer-api/app/core/page_classifier.py:17 | the headings of two runs of sections are those of the first followed by those of the second, so the order of the sections is kept; it fails iff either run fails |
| `PageClassifier.HeadingsOne` | website-analyzer-api/app/core/page_classifier.py:17 | a section that is not a dictionary fails; a dictionary gives its heading when it is truthy, and nothing otherwise |
| `PageClassifier.ClassificationInput` | website-analyzer-api/app/core/page_classifier.py:12-18 | the summary has exactly the five keys |
| `PageClassifier.ClassificationInputSpec` | website-analyzer-api/app/core/page_classifier.py:12-18 | the input has the five keys, page values or "" as default, and only truthy headings |
| `PageClassifier.ClassifyPage` | website-analyzer-api/app/core/page_classifier.py:8-39 | a returned category is always one of the four allowed ones |
| `PageClassifier.ClassifyPageKeyGuard` | website-analyzer-api/app/core/page_classifier.py:9-10 | without a configured key the category is "Hard_to_read" |
| `PageClassifier.ClassifyPageReply` | website-analyzer-api/app/core/page_classifier.py:20-39 | the stripped reply is returned iff it is allowed; otherwise, or on a model error, "Hard_to_read" |
| `Jobs.StatusName` | website-analyzer-api/app/db/models.py:21 | the stored status is one of "pending", "in_progress", "completed", "failed" |
| `Jobs.StatusNameInjective` | website-analyzer-api/app/db/models.py:21 | distinct statuses are stored as distinct texts |
| `Jobs.AnalysisJob.constructor` | website-analyzer-api/app/db/models.py:18-24 | a new job is pending, without result or finishing time |
| `Tasks.GetCleanRootUrl` | website-analyzer-api/app/worker/tasks.py:30-34 | there is a root URL iff `urlparse` accepts the URL |
| `Tasks.GetCleanRootUrlShape` | website-analyzer-api/app/worker/tasks.py:30-34 | the root URL exists iff `urlparse` succeeds, and is scheme, "//" and host with every "www." removed, without path, query or fragment |
| `Tasks.PathPattern` | website-analyzer-api/app/worker/tasks.py:69-70 | the pattern key is "/", or one segment between slashes |
| `Tasks.PathPatternSpec` | website-analyzer-api/app/worker/tasks.py:70 | a path without '/' gives "/"; "/seg…" gives "/seg/" |
| `Tasks.Grouped` | website-analyzer-api/app/worker/tasks.py:67-71 | group keys are distinct and are exactly the groups' keys; failure is `urlparse`'s error |
| `Tasks.GroupedSucceeds` | website-analyzer-api/app/worker/tasks.py:67-71 | grouping succeeds iff every URL parses |
| `Tasks.GroupedExact` | website-analyzer-api/app/worker/tasks.py:67-71 | each group holds exactly the URLs with that key, in crawl order |
| `Tasks.First` | website-analyzer-api/app/worker/tasks.py:71 | the position of the first URL with a key: no earlier URL has it |
| `Tasks.GroupedKeyOrder` | website-analyzer-api/app/worker/tasks.py:67-74 | the keys come in first-seen order: a key listed before another first occurs earlier in the crawled URLs |
| `Tasks.MembersSpec` | website-analyzer-api/app/worker/tasks.py:71 | a group holds exactly the URLs with its key, without repeats when the URLs have none |
| `Tasks.GroupedPrefixFails` | website-analyzer-api/app/worker/tasks.py:67-71 | the first URL that fails to parse aborts the whole grouping |
| `Tasks.GroupedPermutation` | website-analyzer-api/app/worker/tasks.py:67-71 | the groups together are a permutation of the crawled URLs |
| `Tasks.GroupByPattern` | website-analyzer-api/app/worker/tasks.py:67-71 | the loop computes exactly the specified grouping |
| `Tasks.NatToStringValue` | website-analyzer-api/app/worker/tasks.py:81 | the group size is printed as decimal digits without a leading zero, denoting the size |
| `Tasks.RedundantEntriesUrls` | website-analyzer-api/app/worker/tasks.py:79-81 | the redundant entries are the unsampled URLs in group order, each with the collection's reason |
| `Tasks.SampleSplit` | website-analyzer-api/app/worker/tasks.py:77-81 | a group splits into its sample and its redundant URLs |
| `Tasks.CollectionSplit` | website-analyzer-api/app/worker/tasks.py:75-81 | a collection keeps a sample of exactly three, and the other URLs are redundant |
| `Tasks.SamplingPartition` | website-analyzer-api/app/worker/tasks.py:73-83 | sampled URLs plus redundant URLs are exactly all grouped URLs |
| `Tasks.Samples` | website-analyzer-api/app/worker/tasks.py:74-83 | one sample per group |
| `Tasks.SamplesSampling` | website-analyzer-api/app/worker/tasks.py:75-83 | large groups are sampled with `random.sample`'s guarantees, small ones kept whole |
| `Tasks.ExcludeUnsampled` | website-analyzer-api/app/worker/tasks.py:79-81 | the loop over a collection records exactly its undrawn members, in group order, as "Redundant" entries naming the group size and pattern |
| `Tasks.SampleCollections` | website-analyzer-api/app/worker/tasks.py:73-84 | the loop computes exactly the specified samples and redundant entries |
| `Tasks.OutcomeExcluded` | website-analyzer-api/app/worker/tasks.py:90-93 | a page is excluded iff its first host label, lower-cased, is an excluded sub-domain; then it is not fetched |
| `Tasks.OutcomeRuleBased` | website-analyzer-api/app/worker/tasks.py:99-113 | a score of 60 or more goes to the rule-based parser; relevant, tagged "rule_based", iff it parsed |
| `Tasks.OutcomeModelBased` | website-analyzer-api/app/worker/tasks.py:99-113 | a lower score goes to the LLM parser; relevant, tagged "llm_based", iff it has no parsing error |
| `Tasks.ParsedPageTagged` | website-analyzer-api/app/worker/tasks.py:101-108 | a parsed page without error carries its parsing method |
| `Tasks.Route` | website-analyzer-api/app/worker/tasks.py:89-117 | a URL `urlparse` rejects is a failure; an exclusion is an excluded sub-domain; a relevant page has no parsing error |
| `Tasks.RouteShape` | website-analyzer-api/app/worker/tasks.py:110-117 | relevant pages have no parsing error; a failure report is the page with its error or an error record for the URL |
| `Tasks.OutcomeRelevantShape` | website-analyzer-api/app/worker/tasks.py:101-113 | every relevant page has no parsing error and names its parsing method |
| `Tasks.OutcomeFailureShape` | website-analyzer-api/app/worker/tasks.py:110-117 | every failure report has a parsing error or is the URL's processing-error record |
| `Tasks.ProcessPage` | website-analyzer-api/app/worker/tasks.py:89-117 | one page's processing yields its specified outcome |
| `Tasks.OutcomesAccounted` | website-analyzer-api/app/worker/tasks.py:87-117 | every processed page lands in exactly one of relevant, failed or excluded |
| `Tasks.CollectStep` | website-analyzer-api/app/worker/tasks.py:110-113 | each outcome is appended to its own list only |
| `Tasks.ProcessPages` | website-analyzer-api/app/worker/tasks.py:87-117 | the page loop yields every page's outcome in order, sorted into the three lists, after the earlier exclusions |
| `Tasks.FinalInput` | website-analyzer-api/app/worker/tasks.py:120-125 | the final input has the four keys with one entry per page; it has data iff there is a relevant page or a failure |
| `Tasks.Finish` | website-analyzer-api/app/worker/tasks.py:127-138 | a stored result has exactly the keys "full_text_analysis" and "opportunity_analysis" |
| `Tasks.FinishSpec` | website-analyzer-api/app/worker/tasks.py:127-138 | no JSON in the reply fails with "Konnte kein strukturiertes JSON…"; otherwise the decoded object plus the full text, or the decode error |
| `Tasks.FinishWithoutKey` | website-analyzer-api/app/worker/tasks.py:127-138 | without a key the model is not consulted, and the key-error text itself becomes the job's result |
| `Tasks.FinishWithoutData` | website-analyzer-api/app/worker/tasks.py:120-138 | with no relevant page and no failure the model is not consulted, and the no-data text is stored as the full text |
| `Tasks.RecordResult` | website-analyzer-api/app/worker/tasks.py:140-152 | the job is finished now: completed with the result, or failed with the error and the traceback |
| `Tasks.AnalyseCrawl` | website-analyzer-api/app/worker/tasks.py:65-138 | a URL that fails to parse fails the run; otherwise the samples, the page outcomes and the final input are as specified, and the result is the final analysis |
| `Tasks.AnalyseSite` | website-analyzer-api/app/worker/tasks.py:60-138 | no base domain fails with "Crawling hat keine internen URLs gefunden."; otherwise the job analyses what the crawler returned, with its whole postcondition, and a root URL or grouping that `urlparse` rejects fails with "Invalid IPv6 URL"; the rest is as in `AnalyseCrawl` |
| `Tasks.RunAnalysis` | website-analyzer-api/app/worker/tasks.py:37-152 | an unknown job is left alone; otherwise it ends finished at `now`, completed iff the analysis produced a result, failed with the error record otherwise, and the analysis is as in `AnalyseSite` |

## Left out

- HTTP (`requests`), HTML parsing (`BeautifulSoup`), robots.txt reading and Gemini calls are oracles. The fetch oracle's
  text, body counts and element list are independent parameters, so the model does not require them to describe the
  same markup.
- `urljoin` lies inside the `fetch` oracle: the crawler receives each anchor target already made absolute, so how
  relative links resolve against the page URL is not modelled.
- `UrlParse.Parse`: the only `ValueError` modelled is an unmatched '[' or ']' in the netloc. Python also raises when
  NFKC normalisation of the netloc introduces a '/', '?', '#', '@' or ':' (`_checknetloc`), and, from 3.11, when a
  bracketed host is not a valid IPv6 or IPvFuture address; the model accepts those URLs.
- JSON numbers are integers only (`Json.JNum`). Floating-point values and their truthiness (`0.0` is falsy) are
  not modelled.
- `robots.txt`: when `read()` raises, Python's `can_fetch` refuses every URL, so the crawl fails closed. That lies inside
  the `canFetch` oracle.
- Prompt formatting, `json.dumps` (indentation, escaping) and the text of exception messages from libraries are not
  modelled. Errors carry the message as a string parameter.
- `json.loads` is the `decode` oracle. It yields a dictionary, so a reply whose JSON is an array or a scalar is not
  modelled.
- Logging (`print`, the parser and LLM error log files) is left out. It has no effect on the results.
- The database (`init_db`, `find_one`, `save`), Celery, `asyncio` and the API routes and dashboard are left out.
  - A job that is not found is a null reference.
  - A failing `save` is not modelled.
  - Nothing guards the status transitions, and no reaper, retry or retention exists in the code.
- `Tasks.RunAnalysis`: `datetime.utcnow()` is the `now` parameter, and timestamps are opaque integers.
  `traceback.format_exc()` is the `trace` parameter.
- `Tasks.RunAnalysis`: the crawler is called with `max_pages` absent, so its budget is the configured 50 pages.
- The scorer's float ratios are exact rationals. Float rounding at the thresholds is not modelled.
- `.lower()` is modelled on ASCII letters only. Non-ASCII case mapping is left out.
- The constants are the values in `app/core/config.py` and `tasks.py`. Configuration loading from the environment is
  left out.
- `BOILERPLATE_PATH_KEYWORDS` is defined in `tasks.py` but never used, so it is left out.
- The root URL from `get_clean_root_url` is computed but unused. Only its failure (a `ValueError` from `urlparse`)
  affects the run.
- `PageClassifier`: `classify_page` is not called by the worker, so it is modelled on its own. An exception while
  building its input (a section that is not a dictionary) propagates; the model returns it as an error.
- The pipeline does not check the synthesis output for an `error` key. A run without an API key or without page data
  therefore completes with that error object as its result (`Tasks.FinishWithoutKey`, `Tasks.FinishWithoutData`). The
  model follows the code here.
- `Tasks.ProcessPages`, `Tasks.AnalyseCrawl`, `Tasks.AnalyseSite`, `Tasks.RunAnalysis`: their contracts speak of a
  ghost `process` function, which the precondition ties to the specification `Outcome` for every URL. They state the
  outcomes through `process` rather than through `Outcome` directly.
