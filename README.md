# crawl-py: link triage, domain-expiry verdict and crawl launch, in Dafny

This project models the logic of the crawl-py dashboard: the link-triage
state machine of its Scrapy spider, the spider's domain-expiry verdict, and
the two small pieces that launch a crawl and hand it its arguments. The
project proves properties of that model.

- **`DomainSpider`** (`domain_spider.dfy`) is the spider as a class. Its fields
  are `visited_urls` and `checked_domains`, which `parse` updates in place.
  `Spider.Parse` takes one page: its URL, netloc and status, and its links
  already resolved to `(absolute URL, netloc)` pairs. It is proved to leave
  the spider exactly as the function `LinkTriage.Triage` says. Ghost fields
  hold what leaves the spider: rows inserted into `crawled_pages` and
  `checked_domains` (in one log, in order), yielded requests and logged
  errors.
- **`LinkTriage`** (`link_triage.dfy`) holds the loop body of `parse` as the
  function `Step` and the whole loop as `Triage`. It also holds
  `check_domain` as `CheckDomain`, a function over abstract DNS and HTTP
  outcomes. The lemmas cover the lifetime invariant (`Consistent`):
  - no URL is yielded twice;
  - no domain is recorded twice;
  - both sets only grow;
  - only internal links are followed;
  - only new external domains are checked;
  - the two branches exclude each other;
  - a fault in one href is logged and the loop carries on.
- **`LaunchHandler`** (`launch_handler.dfy`) is the backend route
  `POST /api/start-crawler`. It covers JavaScript truthiness of the posted
  fields, the 400/500/200 choice and the exact `pm2 start` command line.
  The command is read back with the shell's word splitting (`CommandLine`,
  `command_line.dfy`). That reading recovers both values in order, and so
  the command determines its inputs.
- **`CrawlerMain`** (`crawler_main.dfy`) is the crawler's entry script: the
  argument-count check, and the order in which it reads the start URL and
  the project id.
- **`LaunchToSpider`** (`launch_to_spider.dfy`) connects the two. The values
  posted to the route reach the spider as `start_url` and `project_id`, in
  that order. One consequence: a posted `startUrl: []` passes the route's
  check and the route reports success, yet the spider it starts has no
  start URL.

The route's check (`server.js:19`) rejects any falsy field: `""`, `0`,
`false` and `null` as well as an absent one. Any other value passes, and
the command is built from its JavaScript string form. Building the command
throws when a value is an object with its own `toString` key, or an array
holding one; the route then runs nothing and Express answers 500 with its
default error page.

## Model

| member | source | states |
|---|---|---|
| `LinkTriage.CheckDomain` | crawler/crawler/spiders/domain_spider.py:33-47 | a domain is expired exactly when DNS gives NXDOMAIN, NoAnswer or an empty answer set, or when it resolves and the HEAD status is 400 or more; any other resolver or HTTP exception gives "not expired" |
| `LinkTriage.HeadOnlyAfterAnswers` | crawler/crawler/spiders/domain_spider.py:36-42 | the HEAD outcome cannot change the verdict unless DNS answered with records |
| `LinkTriage.Step` | crawler/crawler/spiders/domain_spider.py:63-89 | one pass of the loop body: it logs the href exactly when its processing raises where it is reached (`Fires`) |
| `LinkTriage.StepEffect` | crawler/crawler/spiders/domain_spider.py:69-86 | the checked set gains an external link's host and the visited set an internal link's URL, even when the href then raises; a `checked_domains` row with `CheckDomain`'s verdict is added only for a domain not checked before whose check and insert do not raise; a request only for a URL not visited before whose request does not raise |
| `LinkTriage.Triage` | crawler/crawler/spiders/domain_spider.py:62-89 | the whole loop: each href logs at most one error and adds at most one row or one request |
| `LinkTriage.StepKeepsConsistent` | crawler/crawler/spiders/domain_spider.py:69-86 | processing one href keeps the invariant: yielded URLs are distinct and visited, and recorded domains are distinct and checked |
| `LinkTriage.TriageKeepsConsistent` | crawler/crawler/spiders/domain_spider.py:62-89 | the whole link loop keeps that invariant, whatever hrefs fail |
| `LinkTriage.TriageGrows` | crawler/crawler/spiders/domain_spider.py:62-89 | neither set shrinks; rows inserted, URLs yielded and errors logged earlier stay as they were |
| `LinkTriage.TriageYieldsOnlyNewInternal` | crawler/crawler/spiders/domain_spider.py:84-86 | every yielded URL is the URL of a link on the current page's host that was not visited before |
| `LinkTriage.TriageRecordsOnlyNewExternal` | crawler/crawler/spiders/domain_spider.py:69-81 | every row the links add is a `checked_domains` row for the project. Its domain is a link's non-empty host, different from the page's and not checked before, and its verdict is `CheckDomain` of that link's outcomes |
| `LinkTriage.TriageMarksEveryLink` | crawler/crawler/spiders/domain_spider.py:69-86 | afterwards every external link's host is in the checked set and every internal link's URL is in the visited set, even when its check, insert or request failed |
| `LinkTriage.StepBranchesExclusive` | crawler/crawler/spiders/domain_spider.py:69-86 | one href adds at most one row or one request, never both; a link with an empty host on a page with a host changes neither set |
| `LinkTriage.TriageContinues` | crawler/crawler/spiders/domain_spider.py:62-89 | the loop composes: processing `a + b` is processing `b` from the state that processing `a` left |
| `LinkTriage.TriageIgnoresLogs` | crawler/crawler/spiders/domain_spider.py:62-89 | only the visited and checked sets steer the loop: from states with the same sets, the same hrefs leave the same sets and append the same rows, requests and errors |
| `LinkTriage.TriageSkipsResolveFault` | crawler/crawler/spiders/domain_spider.py:63-89 | an href whose resolution raises leaves the page's outcome as if it were absent, except for its one error entry, placed where the loop reached it |
| `LinkTriage.TriageFaultEndsOwnHref` | crawler/crawler/spiders/domain_spider.py:69-89 | an href whose check, insert or request raises leaves the sets as if it had not raised, and the hrefs after it append exactly what they would have appended otherwise |
| `LinkTriage.TriageLogsOnlyFaults` | crawler/crawler/spiders/domain_spider.py:88-89 | each logged error names an href whose processing raised where the loop reached it |
| `LinkTriage.TriageLogsEveryFault` | crawler/crawler/spiders/domain_spider.py:88-89 | every href whose processing raises gets its error entry, at the position where the loop reached it |
| `DomainSpider.StartUrls` | crawler/crawler/spiders/domain_spider.py:23 | the start list holds at most one URL; it is non-empty exactly when `start_url` is given and non-empty, and then it is that URL |
| `DomainSpider.Spider.constructor` | crawler/crawler/spiders/domain_spider.py:21-26 | `start_urls` follows `StartUrls`, `project_id` is stored unchanged, and both sets start empty |
| `DomainSpider.PageRowComesFirst` | crawler/crawler/spiders/domain_spider.py:53-59 | a page gets exactly one `crawled_pages` row, with its URL and status, before every row its links cause; all later rows are `checked_domains` rows |
| `DomainSpider.Spider.Parse` | crawler/crawler/spiders/domain_spider.py:49-89 | records the page, then leaves the sets and logs exactly as `Triage` over its links says. If the page insert raises, nothing changes. It raises when the insert fails or the response is not text. It keeps the lifetime invariant, so no URL and no domain is handled twice |
| `LaunchHandler.Truthy` | server.js:19 | a field fails the `!field` test exactly when it is `undefined`, `null`, `false`, `0` or `""` |
| `LaunchHandler.PrintableAtAnyDepth` | server.js:24 | converting a JSON value to a string throws (`Printable` fails) exactly when some path of array indices (`At`) leads from it to an object with its own `toString` key: the value itself, or an element at any depth of arrays |
| `LaunchHandler.Digits` | server.js:24 | the decimal digits of an integer: only digits, no leading zero, and their decimal value is the integer |
| `LaunchHandler.NumStr` | server.js:24 | a number prints as its decimal digits without leading zeros, after a `-` when it is negative, and reads back as that number |
| `LaunchHandler.ToStr` | server.js:24 | the `${…}` conversion of a value that converts: a string is itself, a number `NumStr` of it, a plain object `[object Object]`, an empty array the empty string |
| `LaunchHandler.NumbersArePlain` | server.js:24 | a number prints without any character the shell interprets between double quotes |
| `LaunchHandler.Pm2Command` | server.js:24 | both values are spliced in unescaped: the command is 74 characters plus the project id twice and the start URL once, and it ends with the quoted project id |
| `LaunchHandler.StartCrawler` | server.js:16-33 | a command is run exactly when both fields are truthy and both convert to strings. A falsy field gives 400 with the error body; a field that throws on conversion gives Express's 500 error page and no command. The command is `Pm2Command` of both values as printed. A run command answers 500 when exec reports an error and 200 with `success: true` otherwise |
| `LaunchHandler.CommandIsUnwords` | server.js:24 | the template is exactly the words `pm2 start crawler/main.py --name "crawler-<id>" --interpreter python3 -- "<url>" "<id>"`, each a single space apart |
| `LaunchHandler.CommandWords` | server.js:24 | word splitting of the command gives those ten words, with both values verbatim |
| `LaunchHandler.CommandReadsBack` | server.js:24 | pm2 is asked to start `crawler/main.py` under `python3`, named `crawler-<projectId>`, with the start URL first and the project id second |
| `LaunchHandler.CommandDeterminesInputs` | server.js:24 | two requests with plain values build the same command only if both values are equal |
| `CrawlerMain.RunScript` | crawler/main.py:11-18 | with an argument count other than three it prints the usage line and exits with status 1 without crawling; otherwise `argv[1]` is the start URL and `argv[2]` the project id |
| `CrawlerMain.StartCrawler` | crawler/main.py:6-9 | the two values reach the spider unchanged, under `start_url` and `project_id` |
| `CrawlerMain.LaunchedSpiderStartsAt` | crawler/main.py:16-18 | a spider launched with three arguments starts from the given URL (none if it is empty) and keeps the given project id |
| `LaunchToSpider.PostedValuesReachSpider` | server.js:24 | for a valid request with values that convert and print plain, the launched script starts the spider with the posted start URL as `start_url` and the posted project id as `project_id` |
| `LaunchToSpider.EmptyArrayStartUrlCrawlsNothing` | server.js:19-24 | `startUrl: []` passes validation and gets 200, but the spider it starts has an empty start list |

## Left out

- The Supabase client, `load_dotenv`, `datetime.now()` timestamps and the network. DNS and HEAD outcomes are inputs of `CheckDomain`. Inserts are appended to a ghost log, and timestamps are not kept in the rows.
- URL resolution (`response.urljoin`, reference resolution per section 5.2 of RFC 3986) and `urlparse`. Each href comes with its resolved URL and netloc; a failure of either is the fault `ResolveFault`.
- Scrapy itself: the scheduler, its duplicate filter, concurrency and `DOWNLOAD_DELAY`, robots.txt, the HTTP cache, and how `start_urls` become requests. `Parse` runs the generator to its end, and a yielded request is an entry in the returned list.
- The async nature of `check_domain` and `asyncio.run`. The check is a pure function of its outcomes; an exception from running it is the fault `DomainFault`.
- Which exception is raised, and the log text. An error log entry is the raw href.
- `LaunchHandler.ToStr`: a JSON number is modelled only when it is an integer of at most 2^53 - 1 in magnitude (`SafeInt`), which JavaScript prints in plain decimal. Fractions, exponents and larger numbers, which JSON parsing rounds and JavaScript may print in exponent form, are not modelled.
- `LaunchHandler.StartCrawler`: the content of Express's default error page is not modelled, only its status 500. Which of the two values throws first is not distinguished. A NUL character in either value makes `exec` throw before any process starts; the model does not represent that outcome. JavaScript strings holding lone surrogates, which the command receives as U+FFFD, cannot be represented as Dafny strings.
- `CommandLine.Words`: it reads only plain words and double-quoted words separated by single spaces. It gives `None` for any character the shell would expand or interpret. It does not check the first word for a variable assignment (`a=b`) or a reserved word (`if`), which the shell treats specially in command position; the command built here starts with `pm2`, so this does not arise for it. The read-back lemmas require values without `"`, `$`, backquote, backslash or NUL. Values with those characters are spliced unescaped into a shell command, and the model does not say what the shell then runs.
- `child_process.exec` and pm2 themselves. Whether exec reports an error is an input of `LaunchHandler.StartCrawler`. The server's `console.error` line for an exec error is not modelled; unlike the spider's error log, no server log is kept. That pm2 passes the words after `--` as `sys.argv[1:]` is `CommandLine.ScriptArgv`. Its first entry stands for `sys.argv[0]`, which pm2 sets to the script's resolved path and the script never reads.
- Express middleware, static file serving, the catch-all `GET *` route and `app.listen`.
- The React client (`src/App.tsx`) and `crawler/crawler/settings.py`. These are rendering, hosted-database I/O and static configuration.
