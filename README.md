# PRISMA Researcher — a verified model of its core

PRISMA Researcher is a desktop tool for web research. The user drops text
files of URLs or types URLs in. The tool scrapes each page with a headless
browser and turns it into Markdown, saving one file per page. In "analyze"
mode it then has a local language model write a research report from the
scraped pages, downloading the model first if needed.

This project models that core in Dafny and proves properties of the model:

- **Text** (`text.dfy`): the Python string built-ins the core relies on:
  `strip`/`lstrip`/`rstrip`, `split`/`join`, `lower`, `replace`, decimal
  formatting and `sorted` over strings. They are written out with their own
  specifications.
- **UrlParser** (`url_parser.dfy`): URL validation and the scrapeable check
  (skipped file types and API/feed endpoints). Also URL extraction from
  free text and from URL files, the valid/invalid partition of a URL file,
  domains, filename sanitising and grouping by domain.
- **Scraper** (`scraper.dfy`): the `WebScraper`. This covers browser
  start-up and shutdown, choosing the content region of a page, Markdown
  cleaning, and the error text of one scrape. It also covers the
  sequential batch, which calls the progress callback before each URL,
  sleeps between URLs and always closes the browser. The concurrent batch
  records its tasks' fetches in the order they finish and pairs each URL
  with its result or exception.
- **Analyzer** (`analyzer.dfy`): the `AIAnalyzer`. This
  covers the split of the context window between input and output tokens,
  truncating the input, prompt layout, and mapping an inference outcome to
  an `AnalysisResult`. It also covers the multi-source research report,
  model loading and progress notices.
- **Downloader** (`downloader.dfy`): the `ModelDownloader` (availability,
  download with cancel, delete, `ensure_model_available`) and the
  `ProgressTracker`'s percentage reporting.
- **Components** (`components.dfy`): the terminal log's colour map, its
  500-entry bound and `get_urls` of the URL input field.
- **App** (`app.dfy`): the application object. This covers file drops,
  manual URLs, mode changes and execute. The full scrape → save → analyse
  pipeline is modelled with its log, saved files and report.

The browser, the HTML-to-Markdown converter, the URL parser
(`urllib.parse.urlparse`), the URL regular expression, the language model
and the network are not modelled. Each becomes a parameter: a function, or
a value describing its outcome. Each log line is recorded as a message kind
and a status, not as its formatted text.

## Model

| member | source | states |
|---|---|---|
| Text.TrimSpec | src/utils/url_parser.py:210-223 | `strip(chars)` returns the contiguous middle of the input that starts and ends outside the stripped set; it is empty exactly when every character is stripped |
| Text.LTrimSpec | src/utils/url_parser.py:223 | the left strip is a suffix of the input, starts outside the stripped set, and only stripped characters were dropped |
| Text.RTrimSpec | src/utils/url_parser.py:108 | `rstrip(chars)` is a prefix of the input, ends outside the stripped set, and only stripped characters were dropped |
| Text.JoinSplit | src/core/scraper.py:272-283 | joining the pieces of `split('\n')` with the same separator gives back the original text |
| Text.SplitJoin | src/core/scraper.py:272-283 | splitting a join of separator-free pieces gives back exactly those pieces |
| Text.LowerIdempotent | src/utils/url_parser.py:70-80 | lower-casing an already lower-cased path changes nothing, so the second `lower()` of the endpoint check is a no-op |
| Text.ReplaceChar | main.py:215 | `replace(' ', '_')` keeps the length and replaces exactly the spaces |
| Text.DecimalRoundTrip | src/core/analyzer.py:323-327 | the decimal text of a source number reads back as that number |
| Text.LexIrreflexive | src/utils/url_parser.py:111 | the string order used by `sorted` is irreflexive |
| Text.LexTransitive | src/utils/url_parser.py:111 | the string order is transitive |
| Text.LexTotal | src/utils/url_parser.py:111 | any two different strings are ordered one way or the other |
| Text.InsertSorted | src/utils/url_parser.py:111 | inserting into a strictly sorted list keeps it strictly sorted, and the element set grows by exactly the new string |
| Text.SortedUnique | src/utils/url_parser.py:111 | two strictly sorted lists with the same elements are equal, so `sorted(set)` is determined by the set |
| Text.SortedDistinct | src/utils/url_parser.py:105-111 | deduplicating and sorting yields a strictly sorted list with exactly the input's elements |
| Text.SortStrings | src/utils/url_parser.py:111 | `sorted(list(urls))` returns the set's elements in strictly increasing order |
| UrlParser.IsValidUrl | src/utils/url_parser.py:39-53 | a URL is valid exactly when it parses, its scheme is http or https and its host part is non-empty |
| UrlParser.SkipExtensionsDotted | src/utils/url_parser.py:30-36 | every skipped extension is a dot followed by dot-free text |
| UrlParser.SkipExtensionUnique | src/utils/url_parser.py:73-75 | no path ends with two different skipped extensions |
| UrlParser.SkipExtensionsUnique | src/utils/url_parser.py:73-75 | at most one skipped extension matches a path, so the file-type reason names that one whatever the scan order |
| UrlParser.ScrapeableVerdict | src/utils/url_parser.py:56-83 | the verdict is "OK" exactly when the URL is accepted. Invalid URLs get "Invalid URL format", a skipped extension gets the file-type reason, an endpoint path gets the API/feed reason, and a valid URL is accepted exactly when neither check matches |
| UrlParser.CheckScrapeable | src/utils/url_parser.py:56-83 | the loop-based check returns the same verdict and reason as the specification |
| UrlParser.MatchExtension | src/utils/url_parser.py:73-75 | the extension scan finds an extension exactly when one of the skipped extensions ends the path, and the one it finds does |
| UrlParser.MatchEndpoint | src/utils/url_parser.py:78-81 | the endpoint scan succeeds exactly when the lower-cased path contains one of the API/feed markers |
| UrlParser.CleanMatch | src/utils/url_parser.py:106-113 | a cleaned match starts with "http" and does not end in trailing punctuation |
| UrlParser.Cleaned | src/utils/url_parser.py:105-113 | every regex match is cleaned, position by position |
| UrlParser.TextUrlsSpec | src/utils/url_parser.py:86-113 | the URLs found in text are strictly sorted and duplicate-free. They are exactly the cleaned matches, and each starts with "http" and has no trailing punctuation |
| UrlParser.ExtractUrlsFromText | src/utils/url_parser.py:86-113 | the loop over matches returns the specified sorted, deduplicated URL list |
| UrlParser.LinesUrlsAppend | src/utils/url_parser.py:116-147 | the URLs of two blocks of lines are the URLs of the first followed by those of the second |
| UrlParser.LinesUrlsSnoc | src/utils/url_parser.py:129-145 | one more line adds that line's URLs at the end |
| UrlParser.LineUrlsStartWithHttp | src/utils/url_parser.py:129-145 | every URL taken from one line starts with "http" |
| UrlParser.LinesUrlsStartWithHttp | src/utils/url_parser.py:116-147 | every URL taken from a file's lines starts with "http" |
| UrlParser.LineUrlsCases | src/utils/url_parser.py:131-139 | blank and comment lines give nothing. A stripped line that starts with a scheme gives itself exactly when it is a valid URL, and nothing otherwise |
| UrlParser.ExtractUrlsFromLines | src/utils/url_parser.py:116-147 | the loop over lines returns the specified concatenation of each line's URLs |
| UrlParser.ExtractUrlsFromLine | src/utils/url_parser.py:130-145 | one turn of the loop returns that line's specified URLs |
| UrlParser.PartitionComplete | src/utils/url_parser.py:163-172 | valid and invalid together account for every URL. Valid holds exactly the scrapeable URLs, and each rejected URL appears with its reason in parentheses |
| UrlParser.Partition | src/utils/url_parser.py:163-172 | the partition loop yields the specified valid and invalid lists |
| UrlParser.ParseUrlFile | src/utils/url_parser.py:150-175 | parsing a URL file strips it, splits it into lines, extracts the URLs and partitions them as specified |
| UrlParser.GetDomain | src/utils/url_parser.py:178-192 | the domain is the host part of a parsable URL and "unknown" when parsing raises |
| UrlParser.MaskForbidden | src/utils/url_parser.py:221 | every forbidden filename character becomes an underscore and nothing else changes |
| UrlParser.CollapseUnderscores | src/utils/url_parser.py:222 | collapsing leaves no two underscores in a row, adds no character, keeps emptiness and keeps the first character |
| UrlParser.CollapseRun | src/utils/url_parser.py:222 | a run of underscores, however long, becomes a single underscore |
| UrlParser.CollapseSplit | src/utils/url_parser.py:222 | around any character other than an underscore, collapsing works on each side separately and keeps that character. Together with CollapseRun this fixes the result on every string |
| UrlParser.CollapseKeepsClean | src/utils/url_parser.py:222 | a name with no two underscores in a row is left unchanged |
| UrlParser.SafePrefix | src/utils/url_parser.py:226-227 | truncating a safe name keeps it safe |
| UrlParser.TrimmedNameSafe | src/utils/url_parser.py:222-223 | stripping underscores from a masked, collapsed name leaves no forbidden character, no double underscore and no leading underscore |
| UrlParser.SanitizeFilenameSafe | src/utils/url_parser.py:195-229 | for a parsable URL the filename is non-empty, has no forbidden character, no double underscore and no leading underscore, and is within the length limit unless it is the fallback "page" |
| UrlParser.GroupOfSnoc | src/utils/url_parser.py:244-249 | one more URL joins exactly its own domain's group, at the end |
| UrlParser.GroupedStep | src/utils/url_parser.py:244-249 | one turn of the grouping loop keeps the groups equal to the per-domain sublists, with domains in first-seen order |
| UrlParser.GroupUrlsByDomain | src/utils/url_parser.py:232-251 | the domains are listed in order of first appearance. Each group is the in-order list of the input URLs with that domain and is non-empty. Every URL is in its domain's group, the domains are distinct, and the group sizes add up to the number of URLs |
| UrlParser.GroupOfContains | src/utils/url_parser.py:244-249 | every URL is in the group of its own domain |
| UrlParser.GroupSizesSum | src/utils/url_parser.py:232-251 | over distinct domains covering every URL, the group sizes add up to the number of URLs |
| Scraper.ScanFirstLong | src/core/scraper.py:163-172 | the selector scan returns the first region whose text is long enough |
| Scraper.ScanNoLong | src/core/scraper.py:163-172 | when no region is long enough, the scan returns the last region it found |
| Scraper.SelectionRule | src/core/scraper.py:137-178 | the chosen HTML is the first long-enough region. Otherwise it is the last region found if that is long enough, and otherwise the whole page |
| Scraper.ExtractContent | src/core/scraper.py:137-178 | the extraction loop returns the page title and the HTML chosen by the selection rule |
| Scraper.CollapseNoBlankRun | src/core/scraper.py:273-281 | after cleaning no two blank lines are adjacent, and a run that follows a blank line does not start with one |
| Scraper.CollapseKeepsText | src/core/scraper.py:273-281 | cleaning keeps every non-blank line, in order |
| Scraper.CollapseIdempotent | src/core/scraper.py:273-281 | cleaning an already cleaned text changes nothing |
| Scraper.CleanedMarkdownHeader | src/core/scraper.py:260-295 | the cleaned Markdown starts with the title header followed by the source URL line |
| Scraper.CleanMarkdown | src/core/scraper.py:260-295 | the line loop produces the specified header plus collapsed, stripped text |
| Scraper.NavigationErrorKeepsMessage | src/core/scraper.py:218-221 | a navigation error keeps the browser message. A `net::ERR_` message gets the network-error prefix, and any other message is kept as it is |
| Scraper.ScrapeResultShape | src/core/scraper.py:180-258 | a result names its URL. A success has no error and its length is that of its Markdown, which opens with the title header. A failure has an empty title and Markdown and carries the error text |
| Scraper.FirstRaiseSpec | src/core/scraper.py:318-325 | the first raising callback is found: all earlier callbacks return and the found one raises |
| Scraper.BatchOutcomeSpec | src/core/scraper.py:297-338 | the batch yields results exactly when no callback raises, one per URL in order, each that URL's scrape. Otherwise it yields the first raising callback's exception, every earlier callback having returned |
| Scraper.BatchRaisesAt | src/core/scraper.py:318-325 | a raising callback ends the batch after that turn with its exception |
| Scraper.BatchCompletes | src/core/scraper.py:318-330 | when every turn ran, the batch yields every URL's result |
| Scraper.StepCounts | src/core/scraper.py:318-329 | a completed turn fetches its URL once and sleeps once unless it is the last URL or the delay is zero |
| Scraper.TraceFetchesInOrder | src/core/scraper.py:318-329 | the pages are fetched in the order of the URLs, each once |
| Scraper.BracketCounts | src/core/scraper.py:303-337 | launching before and closing after the turns adds no fetch and no pause |
| Scraper.BatchTraceCounts | src/core/scraper.py:318-330 | the turns a batch runs fetch, in order, the URLs before the first raising callback; a batch without one fetches every URL and pauses between consecutive URLs when the delay is positive |
| Scraper.TraceSleeps | src/core/scraper.py:328-329 | the batch sleeps between URLs, not after the last one, and never with a zero delay |
| Scraper.TraceEndsWithFetch | src/core/scraper.py:318-329 | a completed batch ends with the fetch of the last URL, not with a sleep |
| Scraper.TracePrefix | src/core/scraper.py:318-329 | what the first turns do is a prefix of what more turns do |
| Scraper.ProgressPrecedesFetch | src/core/scraper.py:318-325 | every fetched URL is announced to the callback, with its 1-based position and the batch size, right before it is fetched |
| Scraper.Paired | src/core/scraper.py:374-389 | the concurrent result list is as long as the shorter of the URLs and the outcomes |
| Scraper.PairedAligned | src/core/scraper.py:374-389 | each concurrent outcome is kept as it is, or an exception becomes a failed result for the URL at that position |
| Scraper.PairedUrls | src/core/scraper.py:358-389 | when `gather` gives one outcome per URL, each either an exception or that URL's own scrape, the concurrent batch gives one result per URL naming it: the URL's scrape, or a failure carrying the exception's text |
| Scraper.ScrapeAll | src/core/scraper.py:318-330 | the batch's results are one per URL |
| Scraper.WebScraper.constructor | src/core/scraper.py:78-90 | a new scraper uses the given configuration or the default, has no browser and no callback |
| Scraper.WebScraper.SetProgressCallback | src/core/scraper.py:108-118 | the callback is installed |
| Scraper.WebScraper.InitBrowser | src/core/scraper.py:120-128 | a running browser is kept. Otherwise a launch error is raised with nothing changed, or the browser is launched |
| Scraper.WebScraper.Close | src/core/scraper.py:130-135 | the browser is closed, and a shutdown happens only if it was open |
| Scraper.WebScraper.ScrapeUrl | src/core/scraper.py:180-258 | a launch failure gives a failed result carrying the error. Otherwise the page is fetched once and the result is its specified scrape |
| Scraper.WebScraper.ScrapeUrls | src/core/scraper.py:297-338 | the batch returns the specified outcome and does the specified launch, turns and sleeps, and the browser is closed at the end whatever happened |
| Scraper.WebScraper.RunTurns | src/core/scraper.py:318-330 | the loop returns the specified batch outcome and does exactly the specified turns |
| Scraper.WebScraper.Advance | src/core/scraper.py:318-330 | one turn either ends the batch with the callback's exception or extends the results by that URL's scrape |
| Scraper.WebScraper.Turn | src/core/scraper.py:318-329 | one turn announces, fetches and pauses as specified, returning the callback's outcome and, if it returned, the page's scrape |
| Scraper.WebScraper.Report | src/core/scraper.py:320-322 | the callback is called with the 1-based position, the total and the URL, and its outcome is returned |
| Scraper.WebScraper.FetchAndPause | src/core/scraper.py:323-329 | the URL is scraped, then the batch sleeps unless this is the last URL |
| Scraper.WebScraper.ScrapeUrlsConcurrent | src/core/scraper.py:340-392 | given the order in which the URLs' tasks finish, each URL's task once, the launched batch records each task's fetch and then its progress call with the number of tasks finished so far, in that order. It returns the paired results and always closes the browser; a failed launch records nothing and raises |
| Scraper.WebScraper.RunTasks | src/core/scraper.py:358-365 | the tasks' events are appended in the order the tasks finish |
| Scraper.CompletionsFetch | src/core/scraper.py:358-365 | the finished tasks fetch their URLs once each, in the order they finish, and never pause. So when every URL's task finishes once, the batch fetches each URL as often as it is listed |
| Scraper.CompletionCounts | src/core/scraper.py:360-364 | one task fetches its URL once and does not pause |
| Scraper.BatchTurns | src/core/scraper.py:318-329 | the sequential loop runs at most one turn per URL |
| Analyzer.ComputeBudget | src/core/analyzer.py:212-229 | input tokens, output tokens and the safety margin add up to the context window, and the character budget is three characters per input token |
| Analyzer.BudgetRule | src/core/analyzer.py:212-226 | without rebalancing the output is the configured maximum and the input at least the minimum. With rebalancing the input is the target, or what is left after 700 tokens when that is smaller |
| Analyzer.BudgetExample | src/core/analyzer.py:212-226 | the default 4096-token window with 3000 output tokens is rebalanced to 2500 input, 1396 output and 7500 characters |
| Analyzer.RebalanceDirection | src/core/analyzer.py:221-226 | rebalancing lowers the output budget exactly when the configured maximum is above 500, and raises it exactly when that maximum is below 500 |
| Analyzer.SmallWindowNegative | src/core/analyzer.py:221-229 | a window smaller than 700 tokens gives a negative character budget |
| Analyzer.TruncateSpec | src/core/analyzer.py:232-235 | content within the budget is kept. Longer content keeps its first budget characters plus the truncation marker, and a negative budget cuts from the end as Python slicing does |
| Analyzer.UserPromptLayout | src/core/analyzer.py:241-251 | the user message starts with the instruction and ends with the content and the closing rule |
| Analyzer.ReportInstruction | src/core/analyzer.py:239 | a report prompt is used verbatim as the instruction |
| Analyzer.RequestUsesBudget | src/core/analyzer.py:212-268 | the inference request asks for the output budget, whose sum with the input budget and the margin is the window, and carries the content truncated to the character budget |
| Analyzer.MessagesLayout | src/core/analyzer.py:241-251 | the chat messages carry the instruction first and the truncated content last |
| Analyzer.InterpretSpec | src/core/analyzer.py:273-299 | a completed inference is a success carrying its text and token count. A context overflow becomes the overflow error, any other failure keeps its message, and a failure has an empty summary and zero tokens |
| Analyzer.CapSpec | src/core/analyzer.py:326 | each source is cut to at most 3000 characters, as a prefix, and shorter sources are kept whole |
| Analyzer.SourcesAppend | src/core/analyzer.py:323-327 | the numbered sources of two lists are those of the first followed by those of the second, numbered on |
| Analyzer.SourcesSingle | src/core/analyzer.py:323-327 | one source is one numbered block |
| Analyzer.SourcesLayout | src/core/analyzer.py:323-327 | the combined text is the earlier sources, then source `i + 1`'s block, then the later sources |
| Analyzer.LoadErrorExcerpt | src/core/analyzer.py:176-179 | the load-error notice carries at most the first 50 characters of the error, a prefix of it |
| Analyzer.LoadNotices | src/core/analyzer.py:146-179 | with a callback, loading reports a loading notice and then a ready notice exactly when the load succeeds. Without a callback nothing is reported |
| Analyzer.AnalysisNotices | src/core/analyzer.py:254-283 | with a callback the analysis is announced, and a done notice follows exactly when it succeeds |
| Analyzer.AIAnalyzer.constructor | src/core/analyzer.py:85-101 | a new analyzer uses the given or default configuration and path, is not loaded and has no callback |
| Analyzer.AIAnalyzer.SetProgressCallback | src/core/analyzer.py:108-113 | the callback is installed |
| Analyzer.AIAnalyzer.Notify | src/core/analyzer.py:115-118 | a notice reaches the callback only when there is one |
| Analyzer.AIAnalyzer.LoadModel | src/core/analyzer.py:120-179 | an already loaded model is kept. With no given, stored or downloaded model path the load fails silently. Otherwise the path is chosen in that order, the result and loaded state follow the load outcome, and the notices are reported |
| Analyzer.AIAnalyzer.UnloadModel | src/core/analyzer.py:181-187 | the model is released and not loaded |
| Analyzer.AIAnalyzer.AnalyzeContent | src/core/analyzer.py:189-299 | without a model the result is the not-loaded error and nothing is asked. Otherwise one budgeted request is sent, its outcome is interpreted, and the notices are reported |
| Analyzer.AIAnalyzer.GenerateResearchReport | src/core/analyzer.py:301-341 | no contents give the no-content error. Without a model the result is the not-loaded error, and nothing is asked or reported. Otherwise one request is sent, with the combined numbered sources and the report prompt for that many sources and the topic. Its outcome is the result, and the analysis notices are reported |
| Downloader.FailureEventBound | src/core/downloader.py:177-189 | a failed download reports at most the first 50 characters of its error text, at zero progress |
| Downloader.ModelDownloader.constructor | src/core/downloader.py:44-56 | a new downloader has no cancel request, no callback and has reported nothing |
| Downloader.ModelDownloader.IsModelAvailable | src/core/downloader.py:63-81 | the model is available exactly when its file exists and is at least 1 GiB |
| Downloader.ModelDownloader.SetProgressCallback | src/core/downloader.py:105-115 | the callback is installed |
| Downloader.ModelDownloader.CancelDownload | src/core/downloader.py:117-120 | a cancel is requested |
| Downloader.ModelDownloader.Report | src/core/downloader.py:133-175 | an event reaches the callback only when there is one |
| Downloader.ModelDownloader.DownloadModel | src/core/downloader.py:122-189 | an available model succeeds at once with nothing changed. Otherwise the connecting and downloading events are reported, a fetch cancelled meanwhile deletes the file (a removal that raises leaves the file and is reported as an error with the first 50 characters of its text), and the result is true exactly when an uncancelled fetch produced an available file |
| Downloader.ModelDownloader.DeleteModel | src/core/downloader.py:191-206 | deleting succeeds exactly when the file exists and can be unlinked, and only then is it gone |
| Downloader.DownloadOutcomeEvents | src/core/downloader.py:162-189 | at most one closing event is reported, and only with a callback |
| Downloader.CompletionReported | src/core/downloader.py:162-189 | completion is reported exactly when an uncancelled fetch produced an available file. Only completion reports full progress. A cancelled fetch reports nothing more unless removing its file raises, and then reports at most the first 50 characters of that error |
| Downloader.EnsureModelAvailable | src/core/downloader.py:245-266 | an available model is used as it is. Otherwise the outcome is that of the download, and success always means an available file |
| Downloader.TruncDivFloor | src/core/downloader.py:228 | `int()` of a non-negative quotient is its floor |
| Downloader.PercentMonotone | src/core/downloader.py:228 | the percentage never decreases as more bytes arrive |
| Downloader.ProgressTracker.constructor | src/core/downloader.py:215-223 | a new tracker has nothing downloaded and reported |
| Downloader.ProgressTracker.Update | src/core/downloader.py:225-238 | the byte count grows by the chunk. A zero total raises a division error, and otherwise a report is made exactly when the whole percentage changed and there is a callback. With a positive total and non-negative chunks, the reports stay strictly rising, each at least 1 and at most the current percentage |
| Downloader.RisingPercentsBound | src/core/downloader.py:225-238 | strictly rising percentages between a floor and 100 are at most 101 minus the floor in number |
| Downloader.PercentAtMost100 | src/core/downloader.py:228 | no more bytes than the total give a percentage from 0 to 100 |
| Downloader.TrackerBounded | src/core/downloader.py:225-238 | while no more bytes than the announced total have arrived, the tracker's percentage is from 0 to 100 and every report is for 1 to 100 percent, so a download is reported at most 100 times |
| Components.StatusColor | src/ui/components.py:200-207 | success, error, warning and ai each get their own colour (success, error, warning, primary), and exactly those statuses do; "info" and every unknown status get the secondary text colour |
| Components.RemoveFirstSpec | src/ui/components.py:235-238 | removing an entry removes its first occurrence and nothing else |
| Components.BoundedSpec | src/ui/components.py:232-238 | a new entry is always kept last and the log holds at most 500 entries. Below the bound nothing is dropped, and at the bound exactly the oldest entry is dropped |
| Components.TerminalLog.constructor | src/ui/components.py:166-173 | a new log is empty |
| Components.TerminalLog.AddLog | src/ui/components.py:185-240 | the entry is appended and the log kept within its bound, with the controls matching the entries |
| Components.TerminalLog.Clear | src/ui/components.py:242-246 | the log is emptied |
| Components.StripClean | src/ui/components.py:361 | a stripped, non-empty line starts and ends with a non-space character and is unchanged by another strip |
| Components.StrippedNonBlankMembers | src/ui/components.py:357-362 | the URLs are exactly the non-empty stripped lines |
| Components.StrippedNonBlankSpec | src/ui/components.py:357-362 | every URL of the input field is non-empty and stripped, and the URLs are exactly the non-empty stripped lines |
| App.DedupSpec | main.py:149 | deduplication keeps exactly the same URLs, each once, and never lengthens the list |
| App.DedupDistinct | main.py:149 | a list without duplicates is kept as it is |
| App.DedupIdempotent | main.py:149 | deduplicating twice is deduplicating once |
| App.FilesUrlsScrapeable | main.py:131-143 | every URL collected from dropped files passed the scrapeable check |
| App.SplitCount | main.py:203 | splitting on "/" gives one more piece than there are slashes |
| App.ProgressDomainSpec | main.py:202-206 | the progress callback's domain lookup raises an index error exactly when the URL holds one slash. Otherwise the domain has no slash, and a slash-free URL is its own domain |
| App.ProgressAbortsBatch | main.py:202-209 | the batch with the app's progress callback completes exactly when no URL holds exactly one slash, and otherwise fails with an index error |
| App.SchemelessUrlAborts | main.py:202-209 | a scheme-less URL such as `x.io/a` makes the app's scrape fail |
| App.ScrapeEventsSpec | main.py:195-209 | a launched batch with the app's progress callback opens with the launch and ends with the close, and fetches the URLs before the first one with exactly one slash, in order. A batch that completes fetches every URL and pauses once between consecutive URLs when the delay is positive |
| App.ProgressLinesWhileOk | main.py:202-206 | while every domain lookup succeeds, turn `i` of the batch logs exactly one line, for position `i + 1` and the first 40 characters of the URL's domain |
| App.ScrapeLinesSpec | main.py:202-209 | a launched batch logs one progress line per URL before the first URL with exactly one slash, or per URL when there is none; the raising turn logs nothing. Line `i` is an info line for position `i + 1` of the batch size, naming at most 40 characters of a domain without slashes |
| App.NoticeLinesSpec | main.py:249-252 | each analyzer notice becomes one `ai` line, in order, and no other line is written |
| App.LoadLogNotices | main.py:249-259 | the load step logs the loading notice exactly when the analyzer has no model yet, and never the analysis-done notice |
| App.ReportLogNotices | main.py:249-276 | the report step logs the analysis-done notice exactly when the report succeeds, and never the loading notice |
| App.LoadLogEnds | main.py:254-259 | a failed load ends the load step with the load error line |
| App.ReportLogEnds | main.py:261-276 | the report step ends with the saved-report line when the report succeeds, and otherwise with the analysis error line |
| App.PhaseTailEnds | main.py:231-276 | after the download announcement the analysis phase ends with an error line exactly when the model is not ready or the report fails, and otherwise with the saved-report line |
| App.AnalysisLogEnds | main.py:224-276 | the analysis phase logs its banner and at least one more line. It ends with an error line exactly when no report is produced, and otherwise with the saved-report line |
| App.AnalysisLogNotices | main.py:231-276 | the analyzer's loading notice is logged exactly when the model file is there and not loaded yet, and its done notice exactly when a report is produced |
| App.ClosingEnds | main.py:224-281 | after the page count the run ends with the completion banner, unless the analysis phase runs without a ready model; then it ends with an error line |
| App.AfterScrapeEnds | main.py:211-281 | after a delivered scrape the run ends with the completion banner, unless analysis runs with some successful page and the model is not ready; then it ends with an error line |
| App.SuccessesSpec | main.py:212 | the successful results are exactly the results marked successful |
| App.SuccessesAppend | main.py:212 | filtering successes distributes over concatenation |
| App.Markdowns | main.py:261 | the report inputs are the successful pages' Markdown, one per page in order |
| App.Filtered | main.py:216 | the filename filter keeps only allowed characters of the input and never lengthens it |
| App.FilteredAppend | main.py:216 | filtering distributes over concatenation |
| App.FilteredKept | main.py:216 | a name of allowed characters passes the filter unchanged |
| App.UnderscoredSpec | main.py:215 | spaces become underscores, the length is kept and no space remains |
| App.OutputFilenameSpec | main.py:215-216 | every saved filename starts with "scrape_", ends with ".md", is at most 40 characters and has only allowed characters and no space |
| App.OutputFilenameKeepsCleanTitle | main.py:215-216 | a short title of allowed characters appears verbatim in the filename |
| App.SavedFiles | main.py:214-217 | one file is saved per successful page |
| App.SavedFilesAt | main.py:214-217 | the `i`-th saved file holds the `i`-th successful page's Markdown under that page's filename |
| App.PipelineReport | main.py:186-293 | a report is asked for exactly when the scrape completed in analyze mode with some success and a usable model, with the successful pages' Markdown as input. One file is saved per success, a failed scrape saves and reports nothing, and at most one report is made |
| App.PipelineCompletes | main.py:186-293 | the run logs at least its banner. A run that reached the end logs the completion banner, and one that stopped early ends with an error line |
| App.PrismaApp.constructor | main.py:40-76 | a new app has no URLs and no saved files, is not processing, and its log holds only the start-up line |
| App.PrismaApp.Log | main.py:96-100 | a log line is appended |
| App.PrismaApp.HandleFileDrop | main.py:117-156 | the current URLs become the deduplicated URLs of the dropped files, all scrapeable, and the reading, skipped and detected lines are logged |
| App.PrismaApp.ProcessFiles | main.py:128-146 | every file's valid URLs are collected in order and each file's log lines written |
| App.PrismaApp.ReadFile | main.py:132-146 | one file logs its reading line, its URLs are parsed, and a read error is logged |
| App.PrismaApp.LogSkipped | main.py:141-143 | the first three invalid entries are logged as warnings |
| App.PrismaApp.HandleModeChange | main.py:158-166 | switching to analyze without a downloaded model logs a warning, and nothing else does |
| App.PrismaApp.HandleExecute | main.py:168-184 | a busy app does nothing. Otherwise typed URLs are merged and deduplicated, and the pipeline starts exactly when there are URLs, or a warning is logged |
| App.PrismaApp.SaveAll | main.py:214-217 | the successful pages are saved under their filenames, in order |
| App.PrismaApp.LogBanner | main.py:197-199 | a phase banner is three log lines |
| App.PrismaApp.RunAnalysis | main.py:224-276 | the application's own log lines grow by exactly the analysis phase: banner, download announcement, the analyzer's notices as `ai` lines, and the outcome line. The report is asked for exactly when the model is ready, with the pages' Markdown, and kept when it succeeds |
| App.PrismaApp.LogNotices | main.py:249-252 | each analyzer notice is logged as an `ai` line, in order |
| App.PrismaApp.LoadStep | main.py:249-259 | the model counts as loaded exactly when it was loaded already or the load succeeds, and the load step's notices and error line are logged |
| App.PrismaApp.ReportStep | main.py:260-276 | the report is asked for with the contents, kept when it succeeds, and its notices and outcome line are logged |
| App.PrismaApp.LoadAndReport | main.py:249-276 | once the model file is there, the report is asked for exactly when the model is ready, and the load and report steps are logged |
| App.PrismaApp.ScrapePhase | main.py:195-209 | the scraping banner and each progress line of the batch are logged, the progress callback is installed, and the scrape gives the stage's outcome. The scraper's configuration is unchanged and its trace grows by the launched batch: launch, one turn per URL up to the first raising callback, close; nothing when the launch fails |
| App.PrismaApp.Conclude | main.py:211-288 | after the scrape stage the app logs the error line when it raised, and otherwise saves, analyses and adds to its own log lines exactly what the run after the scrape gives |
| App.PrismaApp.Finish | main.py:212-281 | after the scrape the app saves, analyses and adds to its own log lines exactly what the specified pipeline does |
| App.PrismaApp.ExecutePipeline | main.py:186-293 | the application's own log lines, saved files and reports grow by exactly what the specified pipeline run gives: banner, progress lines, page count, analysis phase with the analyzer's notices, and completion banner or error line. The scraper's progress callback is installed, its configuration is unchanged and its trace grows by the launched batch (launch, the turns up to the first raising callback, close). The URL list is unchanged and processing is over at the end |

## Left out

- App.Dedup: `list(set(...))` has no defined order in Python. The model keeps the first occurrence of each URL, so the order of the current URLs is one of the orders Python may give.
- The text of log lines is not modelled: each line is a message kind, its data and a status. The download progress bar is not a log line: it only updates the UI.
- App.PrismaApp.ScrapePhase: the progress callback is a pure outcome in the model, so the lines it logs are appended once the batch is over. No other `log_to_terminal` call of the application runs during the batch, so the order among the application's own lines is the same. The scraper's `PrismaLogger` lines, which `set_ui_callback` (main.py:69) forwards to the same terminal, interleave with them and are not modelled.
- `str.isalnum` is a parameter (`isAlnum`): Python's test covers all of Unicode. The filename lemmas assume only that ASCII letters and digits pass it.
- Text.Lower: lower-cases ASCII letters only, where Python's `lower()` covers all of Unicode.
- File I/O is not modelled: reading dropped files is a parameter (content or error), and saving Markdown and reports is recorded as a list. Exceptions from `save_markdown`/`save_report` are not modelled, nor are `Path.name`, `open_output_folder`, `check_ai_status`, or UI calls (busy state, status bar, report button, URL counter, page updates).
- The `asyncio.create_task` scheduling is not modelled: a file drop and an execute run to completion one at a time, so races between them are not modelled.
- The model download, model load and report generation in the pipeline are outcome parameters (`AiSetup`, `Generate`). The analyzer's check of the downloader for the default model path is the `defaultAvailable` parameter.
- Floating point is not modelled: scrape times, sampling temperature and top-p, download progress fractions and megabyte text, and `get_model_status`'s rounding.
- Downloader.Percent: the percentage is the exact integer floor of `downloaded * 100 / total`. The source computes `int(downloaded / total * 100)` in floating point, which can come out one lower (29 of 100 gives 28), so a report can fire at a different chunk than in the source.
- Playwright (including the error it gives for a URL the modelled world does not list), html2text, `urlparse`, the URL regular expression, llama-cpp and the Hugging Face hub are parameters. So are the clock (scrape timestamps) and the sleep between requests, recorded as an event.
- Scraper.WebScraper.ScrapeUrlsConcurrent: the semaphore is not modelled. The order in which tasks finish and what `gather` returns are parameters, and the model does not tie a gathered exception to the callback call that raised it. Each task's fetch is recorded when the task's scrape finishes, not when it starts.
- Exceptions raised by the downloader's and analyzer's progress callbacks are not modelled. Those callbacks only update the UI.
- Partially written model files and the Hugging Face cache are not modelled: a fetch produces a whole file or an error.
- `get_model_status`, `ModelInfo`, the `create_scraper`/`create_analyzer` factories and `_setup_html_converter` are not modelled. They only build objects or report data for display.
- Creating the models directory is not modelled. Nor is logger output, including the logger messages `PrismaLogger` forwards to the terminal. Every log the model states is the application's own `log_to_terminal` lines only; the forwarded logger lines sit among them in the real terminal.
- Downloader.ProgressTracker.Update: it keeps its invariant only for a positive total and non-negative chunks.
- Downloader.TrackerBounded: it assumes that no more bytes arrive than the announced total. The source does not check this, and more bytes give a percentage above 100.
- UrlParser.SanitizeFilenameSafe: only parsable URLs are covered. A `urlparse` failure is passed on as an error, as in the source.
