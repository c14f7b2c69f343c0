# Archaic core, modelled in Dafny

Archaic archives a site from the Wayback Machine. It asks the CDX index for
the captures under a base URL. It fetches each capture with retries and
back-off, strips the archive's toolbar, scripts and rewritten URLs from the
markup, and downloads the page's images and style sheets for offline use.
It writes each page as HTML and as a PDF, and logs every step in a resume
manifest. The manifest lets a later run skip what an earlier run completed.

This project models that core as Dafny values, functions, classes and
methods, and proves what the code promises about it.

- **Validators** (`src/utils/validators.py`)
  - URL validation and normalisation.
  - The `normalize_host` identity key.
  - The CDX wildcard patterns.
  - `extract_domain` and `is_same_domain`.
  - The parser they rest on (`urlsplit`, `urlparse`, `urlunparse`, `urljoin`) is modelled in `Url`.
- **FileManager** (`src/utils/file_manager.py`)
  - Output file names and paths.
  - `file_exists` over a set of existing paths.
  - HTML escaping and the capture-time display.
- **IndexFile / IndexTemplate**: the index page `generate_index_file` writes, and the `str.format` call that fills its template.
- **Manifest** (`src/utils/manifest.py`)
  - The append-only JSON-lines log, as a class over a sequence of lines.
  - Its two folds, "ever completed" and "latest status per key".
- **RateLimiter** (`src/utils/rate_limiter.py`): the token bucket as a class with `tokens` and `last`, over an explicit clock and exact `real` arithmetic.
- **CdxClient** (`src/core/cdx_client.py`)
  - The URL pattern.
  - The row filter with first-seen de-duplication.
  - The row handling of `get_latest_capture`.
- **HtmlRetriever** (`src/core/html_retriever.py`)
  - `retrieve_page` over a script of attempt outcomes: bounded attempts, exponential back-off, the permanent-status cut-off and the short-body rule.
  - `retrieve_multiple`.
- **HtmlCleaner / HtmlTree** (`src/core/html_cleaner.py`)
  - The string passes, `_clean_archived_url` and `_post_process_html`.
  - The tree passes over a small typed tree of elements, text and comments.
- **Assets, AssetCollector, AssetDownloader, AssetRewriter** (`src/core/assets.py`)
  - srcset, CSS `url()` and `@import` extraction.
  - `collect` with `urljoin` resolution and de-duplication.
  - The download mapping over a fetch oracle.
  - The HTML, srcset and CSS rewrites.
  - Single-file embedding as base 64 data URIs (section 4 of RFC 4648, section 3 of RFC 2397), with `Codec` for UTF-8 and base 64.
- **PdfEngine** (`src/core/pdf_engines/weasyprint_engine.py`): the local-only fetch decision and the `generate` result rule.
- **Controller** (`src/core/controller.py`)
  - `process_one` as a method that appends manifest records, with retrieval, cleaning, asset steps and PDF generation as oracles.
  - The serial `run` loop with its page cap, stop flag and statistics.

Files are a `Store` object whose `files` map from path to bytes the methods
update. The network, the clock, HTML parsing and PDF rendering are
parameters (oracles).

## Model

| member | source | states |
|---|---|---|
| Validators.Validated | src/utils/validators.py:27-78 | the checks of `validate_and_normalize` on the stripped input; an empty input gives the empty-URL error, and every error has a message |
| Validators.CheckParses | src/utils/validators.py:44-70 | a scheme other than http/https is refused; an input without a scheme is re-parsed with "https://" in front; the lower-cased, port-free host must pass the domain pattern |
| Validators.NormalizePath | src/utils/validators.py:95-100 | the normalised path is non-empty and ends in '/' or has a '.' in its last segment; an empty path becomes "/" |
| Validators.ValidateAndNormalize | src/utils/validators.py:27-78 | an empty input gives `(False, "", "URL cannot be empty")`; `ok` holds exactly when the error is empty; a refused URL has an empty normalised form |
| Validators.NormalizedParses | src/utils/validators.py:80-112 | the normalised URL parses back into the lower-cased scheme and network location, the normalised path, the original params and query, and no fragment |
| Validators.NormalizedPartsFixed | src/utils/validators.py:103-110 | normalising normalised components changes nothing |
| Validators.NormalizedCanonical | src/utils/validators.py:103-110 | the components of a normalised URL are canonical, so they survive a round trip through `urlunparse` and `urlparse` |
| Validators.HostPartLower | src/utils/validators.py:62-66 | the domain check sees the same host whatever the case of the network location |
| Validators.CheckedCanonical | src/utils/validators.py:44-70 | an unparsed canonical http/https URL whose host passes the pattern is accepted with its own components |
| Validators.NormalizeIdempotent | src/utils/validators.py:27-112 | re-validating a normalised URL gives it back unchanged, for one that does not end in whitespace |
| Validators.NormalizeNotIdempotent | src/utils/validators.py:40-110 | a query that ends in a space is kept by normalisation but removed by the next `strip()`, so the proviso above is needed |
| Validators.ValidateCanonical | src/utils/validators.py:27-112 | a canonical http/https URL that passes the domain pattern validates, and normalises to its normalised components |
| Validators.BareHostParse | src/utils/validators.py:44 | without a scheme a bare host parses as a path |
| Validators.HttpsHostParse | src/utils/validators.py:53-55 | with "https://" in front a bare host becomes the network location |
| Validators.BareHostChecked | src/utils/validators.py:44-70 | a bare host is accepted as `https://host` exactly when its lower-cased form passes the domain pattern |
| Validators.BareHostValidates | src/utils/validators.py:27-78 | a bare host validates to "https://<host>/" lower-cased, or is refused with the domain-format message |
| Validators.BareHostExample | src/utils/validators.py:27-78 | "example.com" validates to "https://example.com/" |
| Validators.DoubleDotRefused | src/utils/validators.py:23-25 | two dots in a row make an empty label, which the domain pattern refuses |
| Validators.DoubleDotExample | src/utils/validators.py:69-70 | "invalid..domain" is refused with the domain-format message |
| Validators.DomainOfTwo | src/utils/validators.py:23-25 | two valid labels joined by a dot pass the domain pattern |
| Validators.WithoutDefaultPort | src/utils/validators.py:233-236 | a trailing ":80", then a trailing ":443", is cut off; the result is a prefix of the host |
| Validators.WithoutWww | src/utils/validators.py:238-239 | at most one leading "www." is cut off; the result is a suffix of the host |
| Validators.HostKey | src/utils/validators.py:233-239 | the key host is the default port rule, then the "www." rule; it is never longer than the host |
| Validators.NormalizeHost | src/utils/validators.py:220-244 | `normalize_host` rebuilds the normalised URL around the key host without a fragment; invalid input gives `(False, "", err)` |
| Validators.NormalizeHostKey | src/utils/validators.py:227-241 | a valid URL's key is its normalised components rebuilt around the key host |
| Validators.WwwShareKey | src/utils/validators.py:238-239 | a host and the same host with "www." in front share a key |
| Validators.WwwStrippedOnce | src/utils/validators.py:238-239 | exactly one "www." is removed, even when the host itself begins with "www." |
| Validators.DefaultPortShareKey | src/utils/validators.py:233-236 | a host with ":80" or ":443" after it shares its key with the bare host |
| Validators.KeySchemesDiffer | src/utils/validators.py:241 | valid URLs whose schemes differ never share a key |
| Validators.KeyScheme | src/utils/validators.py:241 | a valid URL's key starts with its validated scheme, http or https, and ':' |
| Validators.WwwUrlsShareKey | src/utils/validators.py:227-241 | two valid URLs whose normalised forms differ only by a "www." in front of the network location share a key |
| Validators.Distinct2 | src/utils/validators.py:279 | `list(dict.fromkeys([a, b]))` holds a and b, each once, in order |
| Validators.CreateWildcardPatterns | src/utils/validators.py:247-280 | invalid input gives `(False, [], err)`; otherwise two patterns from the key host and the normalised path |
| Validators.WildcardPairTwo | src/utils/validators.py:274-279 | the patterns are exactly `http*://{bare}{path}*` and `http*://www.{bare}{path}*`, and de-duplication removes neither |
| Validators.WildcardPatternsShape | src/utils/validators.py:258-277 | a valid URL gives exactly two patterns built from the key host and the normalised path, both ending in "*" |
| Validators.WildcardPatternsIgnoreScheme | src/utils/validators.py:258-277 | the patterns depend on the network location and the path only, not on the scheme, params or query |
| Validators.WildcardPatternsWww | src/utils/validators.py:258-264 | a site and its "www." variant get the same patterns |
| Validators.CreateWildcardPattern | src/utils/validators.py:146-171 | None exactly for an invalid URL; otherwise the normalised URL with a suffix of at most two characters, ending in "*" |
| Validators.WildcardSuffix | src/utils/validators.py:162-169 | the suffix is empty when the URL already ends in "*", "*" after a '/', and "/*" otherwise |
| Validators.BareHostPattern | src/utils/validators.py:146-171 | a valid bare host gives "https://<host>/*" |
| Validators.ExtractDomain | src/utils/validators.py:114-128 | the lower-cased network location, None exactly when parsing raises |
| Validators.SameDomainMeaning | src/utils/validators.py:130-144 | true exactly when both parse and their network locations agree up to ASCII case |
| Validators.SameDomainSymmetric | src/utils/validators.py:130-144 | `is_same_domain` is symmetric |
| Validators.SameDomainTransitive | src/utils/validators.py:130-144 | `is_same_domain` is transitive |
| Validators.BareHostsSameDomain | src/utils/validators.py:124-144 | any two bare host names count as the same domain, because neither has a network location |
| FileManager.ReplaceUnsafe | src/utils/file_manager.py:72 | every character outside `[\w.-]` becomes '_' and the others stay, so the length is kept |
| FileManager.Collapse | src/utils/file_manager.py:73 | runs of '_' become one '_'; the text never gets longer |
| FileManager.CollapseKeepsOthers | src/utils/file_manager.py:73 | collapsing removes underscores only: the other characters stay, in order |
| FileManager.CleanBaseClean | src/utils/file_manager.py:71-74 | the base name has only allowed characters, no "__" and no '_' at either end |
| FileManager.CleanBaseKeepsOthers | src/utils/file_manager.py:71-74 | apart from '_', the base name is the input with unsafe characters replaced, in order |
| FileManager.TimestampSuffix | src/utils/file_manager.py:77-91 | a timestamp of at least 14 characters gives `_YYYYMMDD_HHMMSS`; a shorter or absent one gives nothing |
| FileManager.Truncate | src/utils/file_manager.py:94-95 | the first n characters: a prefix of at most n characters, the whole text when it fits |
| FileManager.PathPart | src/utils/file_manager.py:66-68 | the path without surrounding '/', or "index" when nothing is left |
| FileManager.FileName | src/utils/file_manager.py:48-97 | the name never exceeds 200 characters |
| FileManager.GenerateFilename | src/utils/file_manager.py:48-97 | an error exactly when `urlparse` raises; otherwise the file name of the parsed parts |
| FileManager.UnstampedNameClean | src/utils/file_manager.py:71-95 | without a timestamp the name uses only allowed characters, with no run of '_' and no leading '_' |
| FileManager.StampedName | src/utils/file_manager.py:80-88 | a long timestamp appends '_' and its first 8 characters, then '_' and the next 6, when the result fits |
| FileManager.ShortTimestampIgnored | src/utils/file_manager.py:80 | a timestamp shorter than 14 characters changes nothing |
| FileManager.LongNameCut | src/utils/file_manager.py:94-95 | a name that is too long is cut to exactly 200 characters, keeping its beginning |
| FileManager.LeadingWwwRemoved | src/utils/file_manager.py:63 | a leading "www." is removed from the domain |
| FileManager.InnerWwwRemoved | src/utils/file_manager.py:63 | a "www." further into the domain is removed too |
| FileManager.GetFilePaths | src/utils/file_manager.py:99-115 | the paths exist exactly when a name can be generated |
| FileManager.FilePathsShareName | src/utils/file_manager.py:112-113 | the HTML and PDF paths are the same name with ".html" and ".pdf" in their directories |
| FileManager.NameRelative | src/utils/file_manager.py:48-97 | a generated name never begins with '/', so joining it stays in the directory |
| FileManager.FilePathsOfUrl | src/utils/file_manager.py:110-115 | the generated name with ".html" and ".pdf" lies directly under the HTML and PDF directories |
| FileManager.FileExists | src/utils/file_manager.py:148-170 | 'html' and 'pdf' give one key each, 'both' gives both and anything else gives none; each value is membership in the set of existing paths |
| FileManager.EscapeHtmlEach | src/utils/file_manager.py:332-340 | the chain of replacements, '&' first, escapes each character on its own |
| FileManager.EscapedHasNoMarkup | src/utils/file_manager.py:336-340 | escaped text holds no raw '<', '>', '"' or '\'' |
| FileManager.UnescapeEscape | src/utils/file_manager.py:332-340 | escaping loses nothing: decoding the entities gives the text back |
| FileManager.TimestampDisplay | src/utils/file_manager.py:302-312 | "Archived: YYYY-MM-DD HH:MM" from a timestamp of at least 14 characters, nothing otherwise |
| FileManager.DisplayShowsStamp | src/utils/file_manager.py:302-312 | the display and the file-name suffix show the same year-to-minute digits |
| IndexFile.Decimal | src/utils/file_manager.py:326-330 | `str(n)` is a non-empty string of digits |
| IndexFile.EntryOf | src/utils/file_manager.py:292-324 | an entry has its number and the capture-time display; its title is the escaped URL or "Unknown URL", holds no markup and decodes back; an empty path gives an empty link |
| IndexFile.ListingHasEntry | src/utils/file_manager.py:292-324 | every item appears in the listing as the entry numbered by its position |
| IndexFile.BuildListing | src/utils/file_manager.py:292-324 | the entry loop builds exactly the listing |
| IndexFile.Format | src/utils/file_manager.py:326-330 | `str.format` with keyword arguments: every error is KeyError or ValueError |
| IndexFile.FormatPlain | src/utils/file_manager.py:326-330 | text without braces is copied |
| IndexFile.FormatField | src/utils/file_manager.py:326-330 | a field "{name}" or "{name:spec}" is replaced by its argument, or raises KeyError when the name is not an argument |
| IndexFile.FormatDoubled | src/utils/file_manager.py:258-289 | a style sheet with its braces doubled comes out as written |
| IndexFile.TemplateFills | src/utils/file_manager.py:258-330 | a template whose style sheet has doubled braces fills in to the page with the count, the time and the listing |
| IndexFile.PageShowsEntries | src/utils/file_manager.py:258-289 | whatever the listing shows, the page shows |
| IndexFile.TemplateListsItems | src/utils/file_manager.py:256-330 | with doubled braces the page is built and lists every item |
| IndexFile.TemplateRaises | src/utils/file_manager.py:258-330 | a style sheet that opens a field whose name is not one of the three arguments makes `format` raise KeyError |
| IndexFile.BuildIndexHtml | src/utils/file_manager.py:256-330 | `_build_index_html` is the template formatted with the count, the time and the listing |
| IndexFile.GenerateIndexFile | src/utils/file_manager.py:229-254 | when the page builds, it is written UTF-8 encoded to "index.html" in the output directory and that path returned; otherwise "" is returned and nothing is written |
| IndexTemplate.FirstRuleIsField | src/utils/file_manager.py:258-289 | the first rule of the template's style sheet reads as a replacement field named " font-family" |
| IndexTemplate.AsWrittenIndexRaises | src/utils/file_manager.py:258-330 | the template as written makes `format` raise KeyError, whatever the items |
| IndexTemplate.CorrectedIndexFills | src/utils/file_manager.py:258-330 | with doubled braces the template fills in to the page with the style sheet as meant |
| Manifest.Records | src/utils/manifest.py:40-51 | the JSON values of the lines, in order, objects or not, with blank and unparseable lines skipped; never more values than lines |
| Manifest.RecordsAppend | src/utils/manifest.py:40-51 | reading concatenated lines reads each part in turn |
| Manifest.RecordsMember | src/utils/manifest.py:40-51 | a value is read back exactly when some line yields it |
| Manifest.CompletedSetMeaning | src/utils/manifest.py:53-59 | the fold raises `AttributeError` exactly when some value read is not a JSON object; otherwise a key is in the completed set exactly when some object with that key is completed and has a non-empty normalised URL |
| Manifest.CompletedSetGrows | src/utils/manifest.py:36-59 | if the longer log folds without raising, so does its prefix, and further values never remove a key from the completed set |
| Manifest.LatestKeys | src/utils/manifest.py:61-74 | the keys with a status are those of objects with a non-empty normalised URL and a non-empty timestamp |
| Manifest.LatestIsLast | src/utils/manifest.py:66-71 | the status kept for a key is the `status` member of its last keyed object, or none when that object has no status |
| Manifest.StatusSetsDisjoint | src/utils/manifest.py:72-73 | when the fold does not raise, no key is both completed and failed |
| Manifest.StatusSetsMeaning | src/utils/manifest.py:66-73 | when the fold does not raise, a key is in the completed (failed) set exactly when its last keyed object is completed (failed) |
| Manifest.StatusCompletedAreCompleted | src/utils/manifest.py:56-72 | when the status fold does not raise, neither does the completed fold, and every key whose latest status is completed is in the completed set |
| Manifest.AppendRead | src/utils/manifest.py:36-51 | an appended record is read back at the end as the JSON object `asdict` gives, after the values already there |
| Manifest.ObjectOf | src/utils/manifest.py:36-38 | the object `asdict` writes for a record: its key is the record's normalised URL and timestamp, and its `status` member is the record's status |
| Manifest.Get | src/utils/manifest.py:53-71 | `dict.get` finds a value exactly when the member is present |
| Manifest.Latest | src/utils/manifest.py:64-71 | every key kept has a non-empty normalised URL and a non-empty timestamp |
| Manifest.CompletedKeysMeaning | src/utils/manifest.py:56-58 | over objects, a key is collected exactly when some completed object with a non-empty normalised URL has that key |
| Manifest.FoldsRaiseTogether | src/utils/manifest.py:53-74 | the two folds raise on exactly the same logs |
| Manifest.UntimedCompleted | src/utils/manifest.py:53-74 | a completed object without a timestamp puts its URL with no timestamp in the completed set, and in neither status set |
| Manifest.CompletedFold | src/utils/manifest.py:53-59 | the loop computes the completed set of the values, raising on the first non-object |
| Manifest.StatusFold | src/utils/manifest.py:61-74 | the loop computes the two status sets of the values, raising on the first non-object |
| Manifest.Manifest.constructor | src/utils/manifest.py:31-34 | the manifest lives at `manifest.jsonl` in the output directory, over whatever lines an earlier run left |
| Manifest.Manifest.Append | src/utils/manifest.py:36-38 | exactly one line at the end, earlier lines untouched; the file exists afterwards |
| Manifest.Manifest.IterRecords | src/utils/manifest.py:40-51 | nothing for an absent file; otherwise the values of the lines, in file order |
| Manifest.Manifest.GetCompletedSet | src/utils/manifest.py:53-59 | the completed set of the values read, or `AttributeError` when one of them is not an object |
| Manifest.Manifest.GetStatusSets | src/utils/manifest.py:61-74 | the two status sets of the values read, or `AttributeError` when one of them is not an object |
| RateLimiter.Step | src/utils/rate_limiter.py:29-48 | one check grants exactly when the refilled tokens reach 1, takes exactly one token, and moves `last` only on a grant |
| RateLimiter.StepInRange | src/utils/rate_limiter.py:35-38 | tokens stay between 0 and the capacity, and `last` never moves backwards |
| RateLimiter.FullBucketGrants | src/utils/rate_limiter.py:24-36 | a bucket that starts full with burst of at least 1 grants the first check |
| RateLimiter.WaitEarnsToken | src/utils/rate_limiter.py:41-43 | the wait after a failed check is `max((1 - tokens) / rate, 0.01)`, which is positive and earns the missing part of a token |
| RateLimiter.Acquiring | src/utils/rate_limiter.py:29-48 | one `acquire` over successive clock readings stops at the first grant; every wait is at least 0.01 |
| RateLimiter.AcquiringCounts | src/utils/rate_limiter.py:29-48 | a grant comes after exactly as many failed checks as waits requested |
| RateLimiter.AsWrittenOverGrants | src/utils/rate_limiter.py:35-38 | as written a failed check keeps `last`, so the next refill credits the same interval again and more tokens are granted than the rate allows |
| RateLimiter.StepCorrected | src/utils/rate_limiter.py:35-38 | the intended check moves `last` on every refill |
| RateLimiter.CorrectedStepBound | src/utils/rate_limiter.py:35-38 | one corrected check hands out no more than it earned |
| RateLimiter.CorrectedGrantBound | src/utils/rate_limiter.py:29-48 | over checks at non-decreasing times, grants plus tokens left never exceed the starting tokens plus rate times elapsed time |
| RateLimiter.CorrectedRateBound | src/utils/rate_limiter.py:15-48 | starting full, the corrected bucket grants at most burst + rate × elapsed |
| RateLimiter.TokenBucket.constructor | src/utils/rate_limiter.py:15-27 | the bucket starts full at the given rate, capacity and jitter |
| RateLimiter.TokenBucket.Check | src/utils/rate_limiter.py:32-43 | one locked check moves the bucket as `Step` does and keeps it valid |
| RateLimiter.TokenBucket.Acquire | src/utils/rate_limiter.py:29-48 | checks at successive readings until one grants, sleeping each requested wait; after a grant a jitter in [0, jitter_ms] ms, none when jitter_ms is 0 |
| CdxClient.WithScheme | src/core/cdx_client.py:107-108 | "https://" in front unless the URL already starts with http:// or https:// |
| CdxClient.Wildcard | src/core/cdx_client.py:117-123 | the pattern extends the URL and ends in "*": unchanged, "*" after a trailing '/', or "/*" |
| CdxClient.WildcardIdempotent | src/core/cdx_client.py:117-123 | preparing a pattern again changes nothing |
| CdxClient.PrepareUrlPattern | src/core/cdx_client.py:90-126 | an empty base URL or one without a host is a ValueError; otherwise the scheme-completed URL as a pattern |
| CdxClient.PatternExtendsUrl | src/core/cdx_client.py:90-126 | for a URL with its scheme, the pattern adds at most two characters, and none when it already ends in "*" |
| CdxClient.WaybackUrl | src/core/cdx_client.py:198-206 | the capture URL starts with "https://web.archive.org/web/" and ends with the original URL |
| CdxClient.WaybackUrlInjective | src/core/cdx_client.py:198-206 | capture URLs with '/'-free timestamps are equal only for the same timestamp and URL |
| CdxClient.CaptureOf | src/core/cdx_client.py:186-206 | a record takes the timestamp, URL, status and MIME type from the row's first four fields |
| CdxClient.Kept | src/core/cdx_client.py:182-206 | kept records have pairwise distinct URLs, none met before, and all with a "text/html" MIME type |
| CdxClient.KeptFromFirstRow | src/core/cdx_client.py:188-195 | every kept record comes from the first row with its URL, an HTML row |
| CdxClient.FirstHtmlRowKept | src/core/cdx_client.py:188-206 | the first row for a new URL is kept when it is an HTML row |
| CdxClient.KeptIffFirstHtml | src/core/cdx_client.py:188-195 | a URL is kept exactly when its first row is HTML, so a non-HTML first row hides later HTML rows |
| CdxClient.KeptInRowOrder | src/core/cdx_client.py:182-206 | kept records follow the order of their rows |
| CdxClient.Parsed | src/core/cdx_client.py:152-208 | no data or only the header gives no records; a header of fewer than four columns is a ValueError |
| CdxClient.ParseCdxResponse | src/core/cdx_client.py:152-208 | the loop with a list and a set of URLs met builds exactly the parsed records |
| CdxClient.LatestCapture | src/core/cdx_client.py:233-253 | a record exactly when there is a data row with at least four fields, and it is that row's record |
| CdxClient.LatestIsFirstParsed | src/core/cdx_client.py:152-253 | with a full header and an HTML first data row, the latest capture is the first record the parse keeps |
| HtmlRetriever.BackoffClosedForm | src/core/html_retriever.py:85-90 | the sleep before attempt k is request_delay × 2^k |
| HtmlRetriever.StatusRead | src/core/html_retriever.py:133 | when the handler looks at the truth value of the response, every 4xx/5xx status reads as 'unknown' |
| HtmlRetriever.PageOf | src/core/html_retriever.py:115-121 | the result holds the body and both URLs as given, the UTF-8 size, and the encoding or 'utf-8' |
| HtmlRetriever.Decide | src/core/html_retriever.py:99-151 | a page is returned only from a body |
| HtmlRetriever.ContentTypeIgnored | src/core/html_retriever.py:99-103 | the content type never changes the decision |
| HtmlRetriever.DecideBody | src/core/html_retriever.py:105-124 | an attempt gives a page exactly when its outcome is a body of at least 100 stripped characters, or any body on the last attempt; the page is that body's and no extra sleep is added; a short body before the last attempt is retried |
| HtmlRetriever.DecidePermanent | src/core/html_retriever.py:136-139 | 404, 403 or 410 finishes at once with nothing |
| HtmlRetriever.DecideExhausted | src/core/html_retriever.py:126-151 | any failure on the last attempt finishes with nothing |
| HtmlRetriever.DecideExtraSleep | src/core/html_retriever.py:140-142 | a 429 or 5xx adds a sleep of request_delay × 2^(k+1), and nothing else does |
| HtmlRetriever.Decisions | src/core/html_retriever.py:82 | one decision for each of attempts 0 to max_retries |
| HtmlRetriever.Run | src/core/html_retriever.py:82-153 | from attempt k there are at most the remaining allowed attempts |
| HtmlRetriever.Attempts | src/core/html_retriever.py:82-153 | at most max_retries + 1 attempts |
| HtmlRetriever.Retrieval | src/core/html_retriever.py:76-79 | an invalid Wayback URL gives nothing without any attempt |
| HtmlRetriever.AttemptsWaits | src/core/html_retriever.py:85-90 | attempt j sleeps request_delay × 2^j before its request |
| HtmlRetriever.AttemptsShape | src/core/html_retriever.py:82-153 | with the limiter attribute in place, every attempt but the last was told to retry, and the last one's decision is the result |
| HtmlRetriever.PermanentEndsAttempts | src/core/html_retriever.py:136-139 | a refused status ends the retrieval at that attempt with nothing |
| HtmlRetriever.FetchedFromLastBody | src/core/html_retriever.py:100-121 | a page comes only from the last attempt's body, as received |
| HtmlRetriever.AsWrittenAlwaysRaises | src/core/html_retriever.py:25-93 | as written the first attempt fails on the missing `rate_limiter` attribute before any request |
| HtmlRetriever.AsWrittenRetriesNotFound | src/core/html_retriever.py:133 | as written a 404 before the last attempt is retried |
| HtmlRetriever.CorrectedStopsOnNotFound | src/core/html_retriever.py:133-139 | with the status read, a 404 finishes at once |
| HtmlRetriever.HtmlRetriever.constructor | src/core/html_retriever.py:25-46 | stores the delay and retries; the limiter argument is not stored |
| HtmlRetriever.HtmlRetriever.Corrected | src/core/html_retriever.py:25-46 | the intended constructor stores the limiter and reads the response status |
| HtmlRetriever.HtmlRetriever.RetrievePage | src/core/html_retriever.py:48-153 | `retrieve_page` gives exactly the retrieval of its settings and script |
| HtmlRetriever.HtmlRetriever.AttemptLoop | src/core/html_retriever.py:82-153 | the loop with its early returns gives exactly the attempts of the model |
| HtmlRetriever.Fetches | src/core/html_retriever.py:193-202 | one result per entry, in order |
| HtmlRetriever.Collected | src/core/html_retriever.py:193-202 | the successful pages in input order; an error raised by one retrieval ends the batch |
| HtmlRetriever.CollectedAppend | src/core/html_retriever.py:193-202 | batches compose when the first part raised nothing |
| HtmlRetriever.CollectedPages | src/core/html_retriever.py:193-202 | with nothing raised, the batch holds exactly the fetched pages, in order |
| HtmlRetriever.RetrieveEntry | src/core/html_retriever.py:193-202 | one entry uses its 'wayback_url', and its 'url' or else the Wayback URL |
| HtmlRetriever.RetrieveMultiple | src/core/html_retriever.py:175-214 | `retrieve_multiple` gives exactly the collected batch |
| HtmlCleaner.CleanArchivedUrl | src/core/html_cleaner.py:210-236 | an empty value is returned as it is; otherwise the result starts with the site or is the value without archive prefixes |
| HtmlCleaner.CleanRootRelative | src/core/html_cleaner.py:229-230 | a "/x" value that is not "//" goes under the site |
| HtmlCleaner.CleanKept | src/core/html_cleaner.py:231-233 | values starting with http://, https://, //, mailto:, javascript: or # are kept, less their archive prefixes |
| HtmlCleaner.CleanRelative | src/core/html_cleaner.py:231-234 | any other value becomes site + "/" + value less leading dots and slashes |
| HtmlCleaner.CleanedIsKept | src/core/html_cleaner.py:210-236 | under an http/https site every cleaned non-empty value starts with a kept prefix |
| HtmlCleaner.CleanArchivedUrlIdempotent | src/core/html_cleaner.py:210-236 | cleaning a cleaned value changes nothing, for an http/https site |
| HtmlCleaner.ArchivePrefixOf | src/core/html_cleaner.py:63-64 | the archive pattern matches exactly the capture prefix whose timestamp is ASCII digits followed by a flag such as "if_" |
| HtmlCleaner.UnarchivedCapture | src/core/html_cleaner.py:221-226 | deleting archive prefixes from a capture URL leaves the address |
| HtmlCleaner.CleanUndoesCapture | src/core/html_cleaner.py:210-236 | cleaning a capture URL of an absolute address gives that address back |
| HtmlCleaner.DeleteShortens | src/core/html_cleaner.py:284-290 | deleting matches never lengthens a string |
| HtmlCleaner.CollapseShortens | src/core/html_cleaner.py:293 | replacing blank-line runs by two newlines never lengthens a string |
| HtmlCleaner.PostProcessShortens | src/core/html_cleaner.py:274-295 | post-processing never lengthens the page |
| HtmlCleaner.PostProcessStable | src/core/html_cleaner.py:274-295 | a page without any of the patterns is left as it is |
| HtmlTree.Prune | src/core/html_cleaner.py:118-250 | removing matching nodes with their subtrees never adds nodes |
| HtmlTree.PruneClean | src/core/html_cleaner.py:118-185 | after a pass no node passes its test |
| HtmlTree.PruneStable | src/core/html_cleaner.py:118-185 | a document already free of a test is left as it is |
| HtmlTree.PruneComposes | src/core/html_cleaner.py:118-135 | two removals in a row are one removal by either test |
| HtmlTree.RemoveWaybackElementsIsPrune | src/core/html_cleaner.py:118-135 | `_remove_wayback_elements` removes exactly the interface elements |
| HtmlTree.AllPassesAreUi | src/core/html_cleaner.py:33-135 | the selectors and the two expressions together pick exactly the interface elements |
| HtmlTree.ScriptAndStylePassesClean | src/core/html_cleaner.py:140-185 | no injected script, stylesheet or style is left, and a second pass changes nothing |
| HtmlTree.CommentPassClean | src/core/html_cleaner.py:238-250 | no comment mentioning wayback, archive.org or web.archive is left |
| HtmlTree.BaseDomain | src/core/html_cleaner.py:192-193 | the site is "scheme://netloc" of the original URL; it is an error exactly when `urlparse` raises |
| HtmlTree.RestoreAttrs | src/core/html_cleaner.py:195-205 | only href, src, action and data-src values are cleaned; names and the other attributes stay |
| HtmlTree.RestoreUrls | src/core/html_cleaner.py:187-208 | restoring keeps the number of nodes |
| HtmlTree.RestoreKeepsUrls | src/core/html_cleaner.py:187-208 | under an http/https site every restored URL is empty or starts with a kept prefix |
| HtmlTree.KeepAttrs | src/core/html_cleaner.py:255-263 | attributes whose names start with data-wb or data-wayback are dropped, and nothing else is |
| HtmlTree.KeepClasses | src/core/html_cleaner.py:266-268 | class tokens starting with wb-, wm- or wayback are dropped, and nothing else is |
| HtmlTree.CleanClasses | src/core/html_cleaner.py:266-272 | the class attribute is untouched when nothing is dropped and deleted when nothing is left |
| HtmlTree.FinalCleanup | src/core/html_cleaner.py:252-272 | the cleanup keeps the number of nodes |
| HtmlTree.FinalCleanupTidy | src/core/html_cleaner.py:252-272 | afterwards no element has a wayback data attribute or class token |
| HtmlTree.FinalCleanupStable | src/core/html_cleaner.py:252-272 | a document already tidy is left as it is, so the cleanup is idempotent |
| HtmlTree.FinalCleanupIdempotent | src/core/html_cleaner.py:252-272 | a second cleanup changes nothing |
| HtmlTree.CleanTreeAtClean | src/core/html_cleaner.py:68-116 | the cleaned tree has no interface elements, injected comments, or wayback attributes and class tokens |
| HtmlTree.CleanTreeAtKeepsUrls | src/core/html_cleaner.py:68-116 | under an http/https site every URL attribute of the cleaned tree is empty or kept |
| HtmlTree.CleanHtml | src/core/html_cleaner.py:68-116 | None exactly when the original URL does not parse; otherwise the passes, rendered, then the text pass |
| Assets.ParseSrcsetCandidates | src/core/assets.py:112-121 | every URL yielded is non-empty, without whitespace and without ',' |
| Assets.ParseSrcsetJoin | src/core/assets.py:112-121 | parsing candidates joined with ", " gives them back |
| Assets.UrlCalls | src/core/assets.py:99-100 | every `url(...)` group is non-empty and holds no ')' |
| Assets.UrlCallsCall | src/core/assets.py:99-100 | a `url(x)` call in front yields x first |
| Assets.Imports | src/core/assets.py:106-107 | every `@import` group is non-empty and made of allowed characters |
| Assets.ExtractCssUrlsNotData | src/core/assets.py:97-110 | no URL yielded starts with "data:" in any case |
| Assets.ExtractCssDependenciesAsWritten | src/core/assets.py:289-290 | as written every call raises AttributeError |
| Assets.ExtractCssDependenciesAll | src/core/assets.py:289-290 | as intended the dependencies are exactly `_extract_css_urls` |
| Assets.RelPathOfJoin | src/core/assets.py:181-184 | a relative part joined under a directory comes back relative to it |
| Assets.RewriteUnmapped | src/core/assets.py:234-242 | text with no mapped `url()` target is left as it is |
| Assets.RewriteMappedCall | src/core/assets.py:234-242 | a mapped `url(x)` becomes a call on the relative path of its file |
| Assets.WaybackAssetUrl | src/core/assets.py:135-136 | the capture URL in "if_" mode: "https://web.archive.org/web/{ts}if_/" + url |
| Assets.CleanRestoresAssetUrl | src/core/assets.py:135-136 | the cleaner's rewrite turns an asset's capture URL back into the asset's URL |
| Assets.LocalPath | src/core/assets.py:164-167 | non-empty, without a leading or trailing '/' |
| Assets.LocalName | src/core/assets.py:162-167 | the URL path less its leading '/', with "index" after an empty or '/'-ended path; the query plays no part |
| Assets.LocalNameUnderDest | src/core/assets.py:147-167 | the path of an asset's file is the destination directory's prefix followed by its local name, which is relative (a textual prefix: the name may hold ".." segments) |
| Assets.LocalNameClimbs | src/core/assets.py:162-167 | an asset at "http://<host>/../<rest>" gets the local name "../<rest>", so its file climbs out of the destination directory |
| AssetCollector.RefsOf | src/core/assets.py:44-89 | each reference is wanted (not empty, not "data:") and keeps its kind and source |
| AssetCollector.RefsWanted | src/core/assets.py:44-89 | no reference is empty or a data URL |
| AssetCollector.ResolveMeaning | src/core/assets.py:45-89 | resolution succeeds exactly when every reference joins, giving one asset per reference, in order |
| AssetCollector.ResolveErrSticks | src/core/assets.py:45-89 | once a prefix fails, every longer prefix fails the same way |
| AssetCollector.KeysMeaning | src/core/assets.py:91-95 | the keys are distinct and are the URLs of the assets |
| AssetCollector.LastMapIsLast | src/core/assets.py:91-95 | the value kept for a URL is its last occurrence |
| AssetCollector.DedupMeaning | src/core/assets.py:91-95 | the de-duplicated assets have distinct URLs, cover every URL, and each is the last with its URL |
| AssetCollector.CollectedMeaning | src/core/assets.py:41-95 | collected assets have distinct URLs; each is `urljoin(page_url, ref)` for a reference, and every reference's join is among them |
| AssetCollector.CollectedLastWins | src/core/assets.py:91-95 | for a duplicated URL, kind and source come from the last reference |
| AssetCollector.ResolveRefs | src/core/assets.py:45-89 | the first loop builds exactly the resolved references |
| AssetCollector.DedupAssets | src/core/assets.py:91-95 | the dictionary loop builds exactly the de-duplicated assets |
| AssetCollector.Collect | src/core/assets.py:41-95 | `collect` gives exactly the collected assets |
| AssetDownloader.DownloadingFails | src/core/assets.py:145-148 | the download fails exactly when some URL has no local name |
| AssetDownloader.DownloadingKeys | src/core/assets.py:138-160 | a successful download maps exactly the URLs of the assets that arrived |
| AssetDownloader.DownloadingPaths | src/core/assets.py:147-157 | each mapped URL goes to its local name under the destination, and that file was written |
| AssetDownloader.DownloadingRequests | src/core/assets.py:145-153 | each asset's capture is requested once, in order |
| AssetDownloader.DownloadingKeepsFiles | src/core/assets.py:145-157 | a download only writes files: every file on disk before is still there |
| AssetDownloader.MappedUnderDest | src/core/assets.py:147-148 | every mapped file's path is the destination directory's prefix followed by a non-empty relative name (a textual prefix, not containment) |
| AssetDownloader.DownloadingErrSticks | src/core/assets.py:138-160 | once a prefix has failed, the whole download ends in that state |
| AssetDownloader.Download | src/core/assets.py:138-160 | the mapping, the files written and the requests are those of the model |
| AssetRewriter.SetAttr | src/core/assets.py:190-210 | the attribute gets the value and no other attribute changes |
| AssetRewriter.EditIdentity | src/core/assets.py:174-232 | a pass that changes no element changes the document |
| AssetRewriter.ImagePassMapped | src/core/assets.py:186-190 | a mapped image source becomes its file's path relative to the page's directory, and nothing else changes |
| AssetRewriter.LinkPassMapped | src/core/assets.py:192-196 | the same for the href of a stylesheet link |
| AssetRewriter.StyleTagPassText | src/core/assets.py:205-210 | a style element's text becomes its rewritten text |
| AssetRewriter.StyleTagPassMapped | src/core/assets.py:205-242 | a style text that opens with a mapped `url(x)` opens with its relative path once rewritten |
| AssetRewriter.RewriteHtmlUnmapped | src/core/assets.py:174-232 | with nothing mapped, `rewrite_html` changes only srcset values |
| AssetRewriter.RewriteCandidate | src/core/assets.py:213-230 | a mapped candidate becomes its relative path, an unmapped one is kept |
| AssetRewriter.RewriteSrcsetOfJoin | src/core/assets.py:213-230 | a srcset of candidates joined with ", " comes back with each mapped one replaced and the others kept |
| AssetRewriter.RewriteSrcsetUnmapped | src/core/assets.py:213-230 | with nothing mapped, only blank entries and the spacing around commas are dropped |
| AssetRewriter.EmbedImageDecodes | src/core/assets.py:251-265 | an inlined image's source is a base 64 data URI that decodes back to the file's bytes |
| AssetRewriter.EmbedNothing | src/core/assets.py:244-286 | nothing is embedded when no image can be inlined and no stylesheet file exists |
| AssetRewriter.CssFileAfter | src/core/assets.py:292-301 | a file that cannot be read is left; the file is rewritten, UTF-8 encoded, only when its text changed |
| AssetRewriter.CssFileUnmapped | src/core/assets.py:296-299 | a stylesheet with no mapped `url()` target is not written |
| AssetRewriter.RewriteCssFile | src/core/assets.py:292-301 | the store afterwards is exactly that of the model |
| PdfEngine.RemoteBlocked | src/core/pdf_engines/weasyprint_engine.py:32-33 | http:// and https:// URLs are always refused |
| PdfEngine.FetchedData | src/core/pdf_engines/weasyprint_engine.py:30-56 | served data is the file the local path resolves to; under a base that path starts with the resolved base as text |
| PdfEngine.UnguardedServesAnyFile | src/core/pdf_engines/weasyprint_engine.py:41 | without a base every existing local file is served |
| PdfEngine.MissingFileUnreadable | src/core/pdf_engines/weasyprint_engine.py:45-54 | an accepted path with no file behind it raises |
| PdfEngine.FileUrl | src/core/pdf_engines/weasyprint_engine.py:34-38 | a "file://" URL is local and names the path after the prefix |
| PdfEngine.BaseSibling | src/core/pdf_engines/weasyprint_engine.py:40-44 | "/base2/secret.css" starts with "/base" as text but is not inside it |
| PdfEngine.SiblingPassesBase | src/core/pdf_engines/weasyprint_engine.py:40-44 | with base "/base" a file under "/base2" is served |
| PdfEngine.FetchWithin | src/core/pdf_engines/weasyprint_engine.py:30-56 | the corrected fetcher serves only existing files inside the base directory |
| PdfEngine.WithinStartsWith | src/core/pdf_engines/weasyprint_engine.py:40-44 | being inside a directory implies passing the raw prefix test |
| PdfEngine.FetchWithinNarrows | src/core/pdf_engines/weasyprint_engine.py:30-56 | whatever the corrected fetcher serves, the one as written serves too |
| PdfEngine.SiblingRefusedWithin | src/core/pdf_engines/weasyprint_engine.py:40-44 | the corrected fetcher refuses the sibling directory |
| PdfEngine.Generate | src/core/pdf_engines/weasyprint_engine.py:62-86 | True exactly when WeasyPrint is installed, rendering did not raise, and the output exists and is non-empty |
| Controller.LimiterRate | src/core/controller.py:46-47 | the rate is one token per delay_secs, never more than ten a second |
| Controller.SumOfPossible | src/core/controller.py:110-212 | over possible tallies, downloaded equals cleaned, pdf + failed is at most the page count, and pdf is at most downloaded |
| Controller.Cap | src/core/controller.py:75-76 | the first max_pages pages when that is positive and smaller, otherwise all |
| Controller.CssKeys | src/core/controller.py:136 | the URLs of the assets that arrived whose lower-cased form ends in ".css", all of them and nothing else, in asset order |
| Controller.Dependencies | src/core/controller.py:143 | as written the call raises; as intended it lists the stylesheet's non-data URLs |
| Controller.DeepCssPass | src/core/controller.py:135-153 | the mapping and files afterwards are the model's left fold over the stylesheets, any exception in one stylesheet's step swallowed; the mapping keeps every URL it had |
| Controller.DepRefs | src/core/controller.py:144-147 | one image reference with attribute "css" per dependency, in order |
| Controller.DeepCssAsWritten | src/core/controller.py:137-153 | as written every stylesheet's step raises at the dependency call, so the pass leaves the mapping and the files unchanged |
| Controller.DeepStepIntended | src/core/controller.py:139-151 | as intended, a stylesheet on disk whose dependencies resolve and download has one dependency asset per URL, each joined to the stylesheet's URL, the downloads merged into the mapping and the stylesheet rewritten under the merged mapping |
| Controller.DeepStepArrived | src/core/controller.py:145-149 | after such a step every dependency that arrived is in the mapping, mapped to the asset directory joined with its local name, and that file is on disk |
| Controller.DeepStepLocal | src/core/controller.py:139-153 | one stylesheet's step keeps every URL of the mapping, and whatever it adds or overwrites maps to the asset directory joined with the URL's local name, a file on disk |
| Controller.DeepCssLocal | src/core/controller.py:137-153 | the same over the whole pass, in both builds |
| Controller.DownloadedLocal | src/core/controller.py:133-134 | a successful download's mapping holds every asset that arrived and maps each URL to the asset directory joined with its local name, a file on disk |
| Controller.OfflineSpecMeaning | src/core/controller.py:130-158 | an offline-asset step that succeeds collected the assets and returns the cleaned page rewritten (and embedded in single-file mode) against a mapping that holds every asset that arrived, each mapped to its local file on disk; as written that mapping is the download's |
| Controller.PreparedFailures | src/core/controller.py:102-122 | a download failure exactly when the retrieval gave nothing or an empty page, a clean failure exactly when the clean then gave nothing, and neither writes a file; an exception from the retrieval escapes with the files unchanged |
| Controller.PreparedSaved | src/core/controller.py:124-160 | a saved page was retrieved and cleaned, has the paths `get_file_paths` gave, is what the page step made of the cleaned HTML, and is written there as UTF-8 |
| Controller.PrepareSpecMeaning | src/core/controller.py:102-160 | the same for the retrieval-to-save part of `process_one`, where with offline assets off the saved page is the cleaned HTML |
| Controller.ItemMeaning | src/core/controller.py:84-186 | a skipped item writes nothing and leaves the manifest alone; otherwise the manifest gets 'discovered' and then, unless an exception escapes, exactly one terminal record that agrees with the tally |
| Controller.ItemTally | src/core/controller.py:84-186 | the tally is one `process_one` can return, the manifest only grows, an index entry comes exactly with a finished page and names it, and as written no page finishes |
| Controller.SerialFromStops | src/core/controller.py:205-207 | no page starts once the flag is set or after `stop` is called; the loop ends early only with the flag set or on an exception, which leaves the flag alone |
| Controller.SerialFromFacts | src/core/controller.py:205-212 | one tally per page started, each one `process_one` can return, one index entry per finished page (none as written), and the manifest only grows |
| Controller.PdfStep | src/core/controller.py:164-165 | as written the call raises TypeError; as intended it returns the generator's result |
| Controller.Outcome | src/core/controller.py:102-186 | a non-skipped item's tally is possible and not all zeros; an exception escapes exactly when a step raised or, as written, at the PDF call |
| Controller.TerminalMatches | src/core/controller.py:104-177 | the closing record agrees with the tally: failed with its reason, or completed with both paths |
| Controller.ArchaicController.constructor | src/core/controller.py:42-58 | a shared limiter at one token per delay, burst 1, jitter 300 ms, the manifest of the output directory, and a context whose retrieval-to-save part is the model's |
| Controller.ArchaicController.Stop | src/core/controller.py:60-61 | the stop flag is set |
| Controller.ArchaicController.OfflineAssets | src/core/controller.py:130-158 | the result and the files are the model's: collect, download, the deep CSS pass, then rewrite and, in single-file mode, embed; a success is the page rewritten against a mapping of every asset that arrived, and as written against the download's own mapping |
| Controller.ArchaicController.PageHtml | src/core/controller.py:124-158 | the page to save and the files are the model's: with offline assets off the cleaned HTML and no file written, otherwise the offline-asset step's result |
| Controller.ArchaicController.Prepare | src/core/controller.py:102-160 | the outcome and the files are the context's retrieval-to-save part; a download failure exactly when the retrieval gave nothing or an empty page, a clean failure exactly when the clean gave nothing; a saved page is at the path `get_file_paths` gave, UTF-8 encoded |
| Controller.ArchaicController.ProcessOne | src/core/controller.py:84-186 | the tally, the index entry, the manifest and the files are the model's item; a skipped item returns zeros and writes nothing; otherwise 'discovered' and then exactly one terminal record that agrees with the tally; an entry exactly for a completed page |
| Controller.ArchaicController.Serial | src/core/controller.py:204-212 | the outcome, the pages started, the index entries, the manifest, the files and the flag are the model loop's; the counters are the sum of its per-page tallies; no page starts after stop; downloaded equals cleaned |
| Controller.ArchaicController.Run | src/core/controller.py:63-223 | when the manifest holds a JSON value that is not an object, reading the completed set raises before any page is processed and nothing changes; otherwise discovered counts all pages before the cap; the counters sum the per-page tallies of the capped pages; the index list is exactly the entries of the completed pages, in page order, and is handed over only when there are some and no exception escaped |
| Codec.Utf8LengthAscii | src/core/html_retriever.py:119 | the UTF-8 size equals the character count exactly for ASCII text |
| Codec.DecodeEncode | src/core/assets.py:264 | base 64 encoding is well formed and decodes back to the bytes |
| Codec.DataUri | src/core/assets.py:265 | the data URI has the length of its prefix plus four characters per started group of three bytes |
| Paths.Join | src/core/assets.py:148 | an absolute part replaces the directory; otherwise a '/' separates them unless already there |
| Paths.BaseName | src/core/controller.py:128 | the text after the last '/' |
| Paths.Root | src/core/controller.py:128 | `splitext(name)[0]` is a prefix of the name |
| Url.SplitUrl | src/core/assets.py:163 | `urlsplit` raises the unbalanced-bracket ValueError and otherwise gives the scheme, network location, path, query and fragment, none holding a character it deletes |
| Url.ParseUnparse | src/utils/validators.py:103-110 | re-parsing an unparsed canonical URL gives back the same components |
| Url.UrlJoin | src/core/assets.py:49 | an empty base gives the reference; an empty reference gives the base |
| Url.AbsolutePathKept | src/core/assets.py:49 | an absolute reference path without dot segments is kept, whatever the base path (section 5.2.2 of RFC 3986) |
| Url.JoinNetloc | src/core/assets.py:49 | a reference with a network location replaces the base; one without inherits the base's |

## Left out

- Concurrency: the thread-pool branch of `run`, the manifest lock, the stop event as a thread primitive and the bucket's lock. The model is one thread with a stop flag; `stopAt` is the loop index at which `stop` is called.
- Network, sleeping and the clock:
  - CDX discovery, the HTTP session and the asset requests are oracles;
  - sleeps are recorded as requested waits;
  - `time.time()` and the formatted generation time are parameters;
  - the rate limiter inside `AssetDownloader.download` is not modelled.
- HTML parsing and serialising (BeautifulSoup) are oracles: the tree passes work on a small typed tree, and `render`/`parse` stand for the library.
- The regular expressions are modelled only for the patterns the code uses, as specific matchers.
- Lower-casing is ASCII only and `\w` is matched as ASCII letters, digits and `_`; Unicode case folding and non-ASCII word characters are not modelled. `str.strip()` and `str.split()` use Python's full whitespace set (`Strings.IsSpace`).
- Assets.LocalNameUnderDest, AssetDownloader.MappedUnderDest: they state that a file's path begins with the destination directory's prefix, not that the file lies in that directory; `_local_name` keeps ".." segments (`Assets.LocalNameClimbs`), so `os.path.join` can name a file outside it, and path normalisation is not modelled.
- HtmlCleaner.ArchivePrefixOf: `\d` is matched as the ASCII digits only; a Unicode decimal digit in a timestamp is not accepted as Python's `re` would accept it.
- Url.SplitUrl: the `ValueError`s of `_check_bracketed_host` (an invalid bracketed host such as "http://[abc]/") and of `_checknetloc` (a network location that changes under NFKC normalisation) are not modelled; the model returns the components there.
- The tree passes of the cleaner (`_remove_wayback_elements`, `_clean_scripts`, `_clean_stylesheets`, `_restore_urls`, `_remove_wayback_comments`, `_final_cleanup`) and of the asset rewriter change BeautifulSoup's tree in place; they are modelled as functions from tree to tree, so update in place and aliasing between tree nodes are not captured, only the tree each pass leaves behind.
- AssetRewriter.EmbedSingleFile: a directory at the asset's path counts as a missing file and keeps the element; in Python `os.path.exists` is true there and `open` raises `IsADirectoryError`, which is not caught for images.
- The retrieval, cleaning, PDF and offline-asset components of the controller are parameters of the constructor (`Controller.Steps`), as the oracles above.
- Python dictionary order: the mapping's keys are taken in the order of the assets that arrived (`Controller.CssKeys`), which is their insertion order because the collected URLs are distinct.
- `os.path.relpath` is modelled as prefix removal for paths under the directory, and as an oracle in the index page links.
- `os.path.abspath` is a given function; directory creation is not modelled.
- Reading a stylesheet with `errors='ignore'` is a `decode` oracle.
- `save_html` failures (its `except` returning None) are not modelled: the save always succeeds in the store.
- `validate_cleaned_content` and `_count_elements`: float ratios over parsed documents.
- `get_url_components`, `get_output_stats`, `create_session_directory` and `cleanup_empty_directories`: reporting and directory housekeeping.
- `test_connection`, `get_session_stats` and `close` of the retriever: they only use the session.
- The logger module, the GUI and ReportLab layout in the PDF generator. The PDF generator is a bool oracle; WeasyPrint rendering is the `Render` oracle; `available` is a boolean parameter.
- `offline_assets` being None is modelled as true, which `run` sets before the loop.
- The srcset parser follows the code (first token of each comma-separated part), not the full parsing rules of the HTML Living Standard.
- `Format` covers the part of `str.format` the template uses:
  - keyword fields, doubled braces, and a format spec or conversion after the name;
  - nested fields and the meaning of the spec and conversion are not modelled;
  - an empty field name gives KeyError, where Python would try a positional argument.
- `generate_index_file`'s optional `output_path`: only the default path is modelled.
- Controller.ArchaicController.Run: it returns the list handed to `generate_index_file` instead of calling `IndexFile.GenerateIndexFile`; the index write is proved on its own.
- Validators.NormalizeIdempotent: stated only for normalised URLs that do not end in whitespace. The source's `strip()` runs before the fragment is dropped, so a query ending in a space is not a fixed point (`Validators.NormalizeNotIdempotent`).
- Manifest.Records: a JSON object is seen through its members whose values are strings; a member holding a number, a boolean, a list or an object is read as absent, so its truth value and its use in a key (a numeric timestamp, say) are not modelled. A null member reads as absent, as `get` gives None for it.
- Integer widths and floating point: the token bucket uses exact `real` arithmetic, and counts are unbounded integers.

## Findings

| source | as written | input that shows it | evidently intended | confidence | as-written member | corrected member |
|---|---|---|---|---|---|---|
| src/core/assets.py:289-290, src/core/controller.py:152-153 | `extract_css_dependencies` calls `self._extract_css_urls`, which only the collector defines; the AttributeError is swallowed, so the deep CSS pass does nothing | any downloaded stylesheet whose key ends in ".css" | the dependencies are the stylesheet's non-data URLs, downloaded and rewritten | not executed | Assets.ExtractCssDependenciesAsWritten, Controller.DeepCssAsWritten | Assets.ExtractCssDependenciesAll, Controller.Dependencies, Controller.DeepStepIntended, Controller.DeepStepArrived |
| src/core/controller.py:165, src/core/pdf_generator.py:113-117 | the PDF call passes `base_url=`, which `generate_pdf` does not accept, so every non-skipped page that got this far raises TypeError | any page that retrieves and cleans | the generator's bool decides between 'pdf_failed' and 'completed' | not executed | Controller.PdfStep | Controller.Outcome |
| src/core/pdf_engines/weasyprint_engine.py:40-44 | containment is a raw string-prefix test | base "/base", file "/base2/secret.css" | the path lies in the base directory | not executed | PdfEngine.SiblingPassesBase | PdfEngine.FetchWithinNarrows, PdfEngine.SiblingRefusedWithin |
| src/core/html_retriever.py:25-46, 93 | `retrieve_page` reads `self.rate_limiter`, which `__init__` never sets, so every valid retrieval fails before any request | any valid Wayback URL with max_retries ≥ 0 | the limiter argument is stored and acquired before each request | not executed | HtmlRetriever.AsWrittenAlwaysRaises | HtmlRetriever.HtmlRetriever.Corrected, HtmlRetriever.AttemptsShape |
| src/core/html_retriever.py:133 | `if e.response` is false for error responses, so the status reads as 'unknown' | a 404 on attempt 0 of 3 | 404, 403 and 410 finish at once | not executed | HtmlRetriever.AsWrittenRetriesNotFound | HtmlRetriever.CorrectedStopsOnNotFound |
| src/utils/rate_limiter.py:35-38 | a failed check stores the refilled tokens but keeps `last`, so the next refill credits the same interval again | rate 1, burst 2, bucket full at time 0, checks at 0, 0, 0.5, 1.0 and 1.5: four grants, more than 2 + 1 × 1.5 | every refill moves `last`, so grants never exceed burst + rate × elapsed | not executed | RateLimiter.AsWrittenOverGrants | RateLimiter.StepCorrected, RateLimiter.CorrectedRateBound |
| src/utils/file_manager.py:258-289, 326-330, 252-254 | the template's style sheet uses single braces, so `format` reads the first rule as a field " font-family" and raises KeyError; `generate_index_file` returns "" and writes no index | any list of processed pages | the braces of the style sheet are doubled and the page is filled in | not executed | IndexTemplate.AsWrittenIndexRaises | IndexTemplate.CorrectedIndexFills, IndexFile.TemplateListsItems |
