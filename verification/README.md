# Link checker core, modelled in Dafny

`check_links.py` reads every HTML file of a site, gathers the external
(`http://` / `https://`) hrefs of its `<a>` tags, and aggregates them into a
link map from each URL to the set of pages that reference it. It probes every
URL once with a HEAD request and falls back to GET when needed, retrying with
a fixed backoff. Each failing URL becomes one report row per referencing page,
and the rows are sorted by page and URL. The program then counts the broken
unique URLs and exits with 1 when any row was written, else with 0.

The model is split into these modules:

- `Links` (`links.dfy`): the `<a href>` filter of `LinkExtractor.handle_starttag`, `is_external`, and the aggregation loop of `main`. That loop builds the link map and the reference count `per_page_count`.
- `Probe` (`probe.dfy`): `check_one_url` as a pure function.
  - The network is a script `network: nat -> Exchange`. `network(i)` says what HEAD and GET would yield on attempt `i`: a status with an optional reason phrase, or a transport failure.
  - A GET failure carries the set of exception classes it is an instance of. An aiohttp connection error, for example, is a `ClientConnectorError`, a `ClientError` and an `OSError` at once. This is how the order of the `except` clauses decides the reported reason.
  - The result is the `(status, reason)` outcome plus a trace: attempts, HEAD requests, GET requests, and the backoff sleeps taken.
- `Report` (`report.dfy`): covers these parts of the code:
  - the fan-out of `check_all_links`, with the probe as a function `Url -> Outcome`;
  - the sort of the rows by `(page, url)` with Python's string order;
  - the broken-URL count and the exit code;
  - `LinkCheck`, which composes the pipeline.
- `Strings` (`strings.dfy`): `startswith`, Python's code-point string order, and `sorted` of a set of strings.
- `Seqs` (`seqs.dfy`): concatenation of per-item rows under reordering.
- `Wrappers` (`wrappers.dfy`): `Option`.
- `Scenario` (`scenario.dfy`): a two-page, two-server run, worked out end to end.

The HEAD branch follows the code, not the comment at `check_links.py:75`:

- The comment speaks of falling through to GET on any 4xx/5xx.
- The code falls through only on 405 (which raises a `ClientError`) or on a caught HEAD exception.
- Any other HEAD status of 400 or more is returned at once, with no GET and no retry.

Only a failed GET is ever retried. A HEAD verdict or a GET response ends the probe on the attempt it occurs.

## Model

| member | source | states |
|---|---|---|
| Links.ExternalExamples | check_links.py:54-56 | the scheme test is literal and case-sensitive: `http://…` and `https://…` are external; relative links, `mailto:`, upper-case `HTTP://`, `http:/…` and the empty string are not |
| Links.HrefValues | check_links.py:40-42 | the kept values are exactly the non-empty `href` values, each as often as it occurs among the attributes; other attributes and missing or empty values are dropped |
| Links.StartTagLinks | check_links.py:38-42 | a start tag other than `a` adds no link; an `a` tag adds value `v` exactly when `v` is non-empty and `("href", v)` is one of its attributes, with the attribute's multiplicity |
| Links.ExternalLinks | check_links.py:177 | a link is kept exactly when it is among the links and external; never more links than given |
| Links.ExternalLinksCounts | check_links.py:177 | every external link is kept as many times as it occurs, and every other link zero times |
| Links.ExternalLinksAppend | check_links.py:177 | filtering two runs of hrefs is filtering each run, concatenated |
| Links.AddPage | check_links.py:179-180 | `setdefault(url, set()).add(page)` over a list: the keys become the old keys plus the listed URLs; a listed URL's set gains the page, and no other set changes |
| Links.CollectKeys | check_links.py:172-180 | a URL is a key of the link map if and only if it is external and some page holds it as an href |
| Links.CollectPages | check_links.py:172-180 | each URL of the link map maps to exactly the set of pages that hold it as an href |
| Links.CollectCount | check_links.py:173-178 | `per_page_count` is the number of external hrefs over all pages, duplicates included |
| Links.CollectSpec | check_links.py:172-180 | the three facts above together: keys iff referenced, page sets exact, reference count |
| Links.LinkMapPagesNonEmpty | check_links.py:179-180 | no URL of the link map has an empty page set, and every page in it is one of the pages read |
| Links.UniqueAtMostReferences | check_links.py:178-182 | the number of unique URLs never exceeds the number of external references |
| Probe.ReasonOr | check_links.py:81 | `reason or fallback` as Python evaluates it: a non-empty reason phrase is kept; a missing or empty one gives the fallback |
| Probe.Attempts | check_links.py:66-119 | issues one HEAD per attempt, and attempts happen only within `range(1 + retries)`; every attempt but the last failed transiently (no HEAD verdict and the GET raised) and was followed by one 2-second sleep; the last attempt is the final permitted one or did not fail transiently, and it decides the outcome; the GET count is the sleeps plus one if the last HEAD fell through; with an empty range the outcome is "Unknown error" and nothing is issued |
| Probe.CheckOneUrl | check_links.py:60-119 | at least one and at most `1 + retries` attempts for `retries >= 0`, none otherwise; one HEAD per attempt, at most one GET per attempt, one sleep of 2 seconds between consecutive attempts |
| Probe.SettlesAt | check_links.py:66-119 | the attempt that ends the probe is the first one that does not fail transiently, or the final permitted one: after `k` transient failures such an attempt `k` decides the outcome, with exactly `k + 1` attempts and `k` sleeps of 2 seconds |
| Probe.HeadSuccess | check_links.py:66-77 | a HEAD status below 400 on attempt `k`, after `k` transient failures, ends the probe with that status and "OK" whatever reason the server gave: `k + 1` HEADs, `k` GETs, `k` sleeps of 2 seconds; on the first attempt, one HEAD and nothing else |
| Probe.HeadDefinitiveError | check_links.py:66-81 | a HEAD status of 400 or more other than 405 on attempt `k` is final: that status and the server's reason (or "Error"), no GET on that attempt and no retry after it |
| Probe.EscalateToGet | check_links.py:66-93 | a HEAD 405 or a HEAD transport failure on attempt `k` goes on to GET in the same attempt, and a GET response is final with its status and reason ("OK" or "Error" by default): `k + 1` HEADs and `k + 1` GETs |
| Probe.AllTimeouts | check_links.py:66-99 | when every GET times out, all `1 + retries` attempts run with one GET each and `retries` sleeps of 2 seconds, and the outcome is `(None, "Timeout")` |
| Probe.FinalFailureClassified | check_links.py:95-117 | when the last permitted attempt's GET raises, the status is None and the reason follows the order of the except clauses: a timeout first, then a connection failure (even though a connection error is also a client error and an OS error), then another client error, then an OS error |
| Probe.SettleIsNeverUnknown | check_links.py:76-117 | no attempt that ends the probe reports "Unknown error" |
| Probe.UnknownOnlyWithoutAttempts | check_links.py:66-119 | the outcome is `(None, "Unknown error")` if and only if the attempt range is empty (`retries < 0`) |
| Strings.LexLeTotal | check_links.py:194 | Python's string order is total: any two strings compare one way or the other |
| Strings.Least | check_links.py:146 | the least string of a non-empty set is a member and is below every member |
| Strings.Sorted | check_links.py:146 | `sorted(pages)` lists exactly the set's members, in strictly ascending order |
| Strings.SortedLength | check_links.py:146 | `sorted(pages)` has one entry per member |
| Report.RowsFor | check_links.py:146-152 | one row per page, in the pages' order, each with that page, the URL and the outcome |
| Report.FanOutRows | check_links.py:145-152 | a URL whose status is None or at least 400 yields exactly one row per referencing page, with "N/A" for a missing status, in strictly ascending page order; any other URL yields no row |
| Report.CheckAllLinksRows | check_links.py:132-152 | a row is in the results if and only if its URL is one of the visited URLs `urls`, its probe failed, its page is in that URL's page set, and it carries that probe's outcome |
| Report.CheckAllLinksPermutation | check_links.py:132-152 | visiting the URLs in another order yields the same rows, only reordered |
| Report.RowLeTotal | check_links.py:194 | any two rows are ordered by the `(page, url)` key one way or the other |
| Report.Insert | check_links.py:194 | inserting a row into sorted rows keeps them sorted and adds exactly that row |
| Report.SortRows | check_links.py:194 | `results.sort(key=(page, url))` yields rows ascending by page and then URL, a permutation of its input |
| Report.SortRowsMembers | check_links.py:194 | sorting keeps exactly the rows it was given |
| Report.SortedUnique | check_links.py:194 | two sorted permutations of rows whose page and URL identify them are equal: the sorted report is unique |
| Report.ReportedRowsKeyed | check_links.py:136-152 | no two result rows share page and URL without being the same row |
| Report.ReportIndependentOfOrder | check_links.py:132-194 | any two orders of visiting the link map's URLs that are permutations of each other give the same sorted report: it does not depend on the iteration order of `link_map` |
| Report.BrokenUrlsAtMostRows | check_links.py:201-204 | there are never more broken unique URLs than broken references |
| Report.SummarySpec | check_links.py:201-219 | a URL is among the broken URLs of the sorted rows if and only if it was probed, has a referencing page and failed; the exit code is 0 if and only if there is no such URL |
| Report.ProbesEachUrlOnce | check_links.py:132-136 | `check_one_url` runs once per unique URL however many pages share it: the URLs visited are exactly as many as the link map's keys, and no more than the external references |
| Report.LinkCheck | check_links.py:172-219 | the report is sorted by `(page, url)`, the exit code is 0 exactly when the report is empty, and the broken unique count is at most the reference count, which equals the number of rows |
| Report.LinkCheckRows | check_links.py:145-180 | the report holds one row for each pair of an external URL whose probe failed and a page that references it, carrying that URL's outcome, and no other row |
| Report.LinkCheckSummary | check_links.py:182-219 | the broken unique count is the number of link-map URLs whose probe failed, and the exit code is 0 exactly when no referenced external URL failed |
| Scenario.ScenarioLinkMap | check_links.py:172-180 | two pages, one sharing the good URL and one also holding the broken URL, give the expected link map and three references |
| Scenario.ScenarioProbes | check_links.py:76-81 | a server answering HEAD 200 probes as `(200, "OK")`, one answering HEAD 500 without reason as `(500, "Error")` |
| Scenario.ScenarioRows | check_links.py:145-152 | only the broken URL yields a row, for its single page |
| Scenario.EndToEnd | check_links.py:172-219 | the whole run reports one row, one broken URL, one broken reference, and exit code 1 |

## Left out

- Reading the site directory and the HTML files, and HTML tokenisation itself (`extract_links`, lines 45-51, 164-167, 176). Each page enters the model as its file name and the hrefs of its `<a>` tags in document order. `handle_starttag` is modelled on the attribute list the parser hands it.
- The real network is left out: sessions, TLS settings, redirects, the `User-Agent` header and the 30-second timeout (`TIMEOUT_SECONDS`). A script of per-attempt results stands in for them. The model has no notion of time, so whether a request times out is part of the script.
- Concurrency is left out: the semaphore (`CONCURRENCY = 20`), the connector limits (20 in total, 5 per host) and the interleaving of tasks. Every URL is probed independently, and each probe outcome is a function of its URL.
- The `asyncio.sleep(2)` calls are recorded in the trace as sleep lengths. No time passes.
- Exceptions outside the caught classes are left out. The model has no HEAD exception that escapes the `except` at line 83, and no GET exception that is none of `TimeoutError`, `ClientConnectorError`, `ClientError`, `OSError`. The real program would propagate such an exception and abort the run.
- Probe.CheckOneUrl: exception messages are opaque strings taken from the script. `f"{e}"` formatting is not modelled.
- The iteration order of `link_map` is left unfixed. `LinkCheck` takes any enumeration of the map's keys, and `ReportIndependentOfOrder` shows that the sorted report does not depend on it.
- CSV writing, the console output and progress prints, the text summary, and the elapsed time (lines 159-168, 183-191, 195-198, 202-217) are left out. The model keeps the values those lines print: the sorted rows, the broken unique count and the reference count.
- Report.LinkCheck: the status column keeps the integer or "N/A" as a datatype (`Code` / `NotAvailable`), not as the text the CSV writer would produce.
