# A verified model of the headless worker

This project models the six connected parts of the Meerkly headless worker that carry its
guarantees, and proves those guarantees for every input, every run and every interleaving:

- **the guard on job URLs** (`Ipv4`, `Percent`, `Hosts`, `UrlParts`, `Urls`): reading IPv4 hosts in every
  spelling a browser accepts, judging addresses, undoing percent-encoding, and the composition
  of the URL check with the address screening;
- **the gateway client** (`GatewayModel`, `GatewayRuns`, `JobGuard`, `Replies`, `Gateway`, `Backoff`): the reconnect loop and the concurrent
  jobs as a transition system with one atomic step per await-to-await segment and cancellation
  wherever a task is suspended, the URL guards and the result frames inside its runs, and the class whose methods refine those segments;
- **the settle machines** (`Settle`): the callback-and-timer form and the sampling form of "quiet for 500 ms, or the cap", and the wait that falls back from the one to the other;
- **the crawl and the profile epochs** (`Browser`, `Crawl`): rule probing, profile resets and session-id
  rotation, and one crawl from navigation to the result frame;
- **pairing and identity** (`Identity`): the enrollment loop over the token store, and the machine id over restarts;
- **frames and proxy URLs** (`FetchSpec`, `Proxy`): the normalising parser of fetch frames and the proxy URL parser.

`Options`, `Numerals` and `Text` hold the vocabulary they share: numbers in a base, splitting, joining and stripping of text.

Code that only computes is modelled by functions and lemmas. Code that works step by step is
modelled by methods and classes, each proved equal to a function of its inputs or of the old
state; the lemmas about that function say what it is worth. Times are whole milliseconds. What
the network, the browser, the file system, the clock or a library decides is a parameter or an
event, so the theorems hold whatever it decides.

`dafny verify dfyconfig.toml` checks everything.

Where the code and its documentation differ, the model follows the code:

- The probe default is 800 ms (`fetch_spec.py:19`), not the 200 ms of the design document and of the vectors' description.
- A part that is just `0x` makes `as_ipv4` answer None (`urls.py:102-105`), where the number
  parser of section 3.5 of the WHATWG URL Standard would read 0; so `Ipv4.Denotes` demands a digit.
- `as_ipv4` is documented to answer a text or None, but raises on a decimal part of more than 4300
  digits, the limit of CPython's `int()`; `Ipv4.RaisesExactlyOnOverlongDecimals` says exactly when,
  `Urls.ChecksExactly` when `check_url` raises with it, and `Urls.OverlongUrlRaises` gives URLs that do it.
- `_page_content` promises never to raise, and `describe_error` is called as if it could not; both
  raise IndexError on an exception whose text is empty (`browser.py:87`, `browser.py:694`).
  `Crawl.NavigationRaises`, `Crawl.ExtractionRaises` and `Settle.SettleWait` say exactly when that
  ends a crawl, and `Crawl.EmptyTextRaises` shows that it can.
- The failure path is described as reading the status live, but the status of a failed extraction
  is taken before the title is awaited. `Crawl.Crawler.Fetch` and `Crawl.LateNavigation` say exactly
  when that makes a difference, and `Crawl.MovingPageStatus` shows that it can.
- An open socket is called part of readiness, but a loop cancelled inside a connection, as stop() does,
  keeps the fields after the connection is gone; `GatewayRuns.ReadinessExactly` says exactly when,
  and `GatewayRuns.ReadyAfterTheEnd` shows it.
- `jobs_served` also counts results that were discarded for want of a socket, or whose sending failed.

## Model

| member | source | states |
|---|---|---|
| `Ipv4.AsIpv4` | meerkly_headless/urls.py:76-125 | The parser as written: its loops compute the function that the theorems below characterise, error path included |
| `Ipv4.ReadNumbers` | meerkly_headless/urls.py:92-115 | The loop over the parts returns all their numbers in order, or stops at the first part that is not one |
| `Ipv4.SumParts` | meerkly_headless/urls.py:122-124 | The accumulating loop is the mixed-radix value of the parts |
| `Ipv4.ParsePrintedPart` | meerkly_headless/urls.py:96-115 | Every part below 2^32, printed in decimal, octal or hex with any number of zeros behind the radix prefix, is read as its number |
| `Ipv4.PrintParsedPart` | meerkly_headless/urls.py:96-115 | Conversely every part that is read as a number is, up to case, the print of that number in one of the three forms |
| `Ipv4.CombineSplits` | meerkly_headless/urls.py:117-124 | Splitting a 32-bit value into one to four parts gives parts in range that add up to it |
| `Ipv4.SplitCombines` | meerkly_headless/urls.py:117-124 | Conversely parts in range add up to a value below 2^32 whose split gives those parts back |
| `Ipv4.ReadsEverySpelling` | meerkly_headless/urls.py:76-125 | Every split, radix per part, padding, case and optional trailing dot of a 32-bit value is read as the canonical quad of that value |
| `Ipv4.OnlySpellingsAreRead` | meerkly_headless/urls.py:76-125 | Every address returned is the quad of a 32-bit value that the host spells |
| `Ipv4.AcceptsExactlyTheSpellings` | meerkly_headless/urls.py:76-125 | The accepted language: the result is the quad of v if and only if the host spells v |
| `Ipv4.QuadIsFixedPoint` | meerkly_headless/urls.py:125 | Canonical quads are read as themselves |
| `Ipv4.QuadInjective` | meerkly_headless/urls.py:125 | Different 32-bit values print different quads |
| `Ipv4.RaisesExactlyOnOverlongDecimals` | meerkly_headless/urls.py:107-115 | The parser raises if and only if, among at most four parts, the first one that is not an accepted number is a decimal too long for `int()` |
| `Ipv4.OnesRaise` | meerkly_headless/urls.py:115 | A host of nothing but ones makes the parser raise if and only if there are more than 4300 of them |
| `Percent.UnquoteUndoesLayer` | meerkly_headless/urls.py:188 | One decoding undoes one layer of percent-encoding, whichever characters it escaped and in whichever digit case |
| `Percent.StrayPercentStays` | meerkly_headless/urls.py:188 | Text in which no percent sign is followed by two hex digits decodes to itself |
| `Percent.BytesDecodeTogether` | meerkly_headless/urls.py:188 | Escaped bytes above 127 that follow one another are decoded as UTF-8 together, and apart from what comes after them |
| `Percent.DecodingUnwraps` | meerkly_headless/urls.py:187-191 | As many rounds as layers, or more, recover ASCII text without percent signs |
| `Percent.FixpointStays` | meerkly_headless/urls.py:187-191 | Leaving the loop at the first unchanged round gives what all the rounds would |
| `Hosts.DecodeRounds` | meerkly_headless/urls.py:186-191 | The loop with its early exit equals three rounds of decoding |
| `Hosts.Normalize` | meerkly_headless/urls.py:173-201 | The normalisation as written computes the normal form that the verdict theorems are about |
| `Hosts.QuadVerdict` | meerkly_headless/urls.py:160-170 | On a printed quad, the digit-group rules are the plain ranges 0/8, 10/8, 100.64/10, 127/8, 169.254/16, 172.16/12 and 192.168/16 of the number |
| `Hosts.DottedVerdict` | meerkly_headless/urls.py:160-170 | Dotted groups of one to three digits, leading zeros and numbers above 255 included, are judged by the range test on the first two numbers, or by the first alone if the second is no byte |
| `Hosts.NewlineIsUnnoticed` | meerkly_headless/urls.py:160 | A newline behind such an address changes nothing |
| `Hosts.OtherTextIsPublic` | meerkly_headless/urls.py:160-163 | No other text without a colon is ever judged private |
| `Hosts.Ipv6Verdict` | meerkly_headless/urls.py:128-158 | A 128-bit address is private exactly if it is in fe80::/10 or fc00::/7, is :: or ::1, or is IPv4-mapped or IPv4-compatible with private low 32 bits (sections 2.5.5.1, 2.5.5.2 and 2.5.6 of RFC 4291, section 3.1 of RFC 4193), whatever its spelling or scope |
| `Hosts.CarveOutIsRedundant` | meerkly_headless/urls.py:142-155 | Treating :: and ::1 as embedded IPv4 addresses would give the same answer as leaving them alone |
| `Hosts.SurfaceIsTransparent` | meerkly_headless/urls.py:193-200 | A pair of brackets around an ASCII host, and its case, change neither the normal form nor the verdict |
| `Hosts.PlainHostFolds` | meerkly_headless/urls.py:193-201 | A host without percent signs and brackets is lower-cased, or folded by the library if it is not ASCII, and loses its final dots |
| `Hosts.FoldedSpellingVerdict` | meerkly_headless/urls.py:198-214 | A host outside ASCII that folds to a spelling of an IPv4 address is judged by its value |
| `Hosts.SpelledHostVerdict` | meerkly_headless/urls.py:204-214 | However an IPv4 host is spelled, with any number of final dots, the verdict is the range test on its value |
| `Hosts.WrappingIsTransparent` | meerkly_headless/urls.py:186-201 | Up to three percent-encoded layers leave the normal form and the verdict of an ASCII host without percent signs unchanged |
| `Hosts.WrappedSpellingVerdict` | meerkly_headless/urls.py:204-214 | Both together: any spelling inside up to three layers is judged by its value alone |
| `Hosts.MoreLayersAreNotUndone` | meerkly_headless/urls.py:187 | The bound of three is tight: with any larger number of layers some wrapping survives |
| `Hosts.Ipv4Verdict` | meerkly_headless/urls.py:213-214 | Parse, print and re-parse calls a host private if and only if it spells a private 32-bit value |
| `Hosts.BlocksExactly` | meerkly_headless/urls.py:204-214 | The guard blocks exactly `localhost` and the names that end with `.localhost`, private IPv6 text and spellings of private IPv4 values |
| `Hosts.RaisesExactly` | meerkly_headless/urls.py:204-214 | The guard raises if and only if the normal form is no localhost name, has no colon and is read up to an overlong decimal |
| `UrlParts.SplitsAt` | meerkly_headless/urls.py:54-57 | Of a scheme, an authority and a tail, splitting finds exactly these, the scheme in lower case, and fails exactly on an authority that its checks refuse |
| `UrlParts.SplitIgnores` | meerkly_headless/urls.py:54-57 | Tabs and line ends anywhere in a URL, and white space and control characters before it, change nothing |
| `UrlParts.AuthorityIsRead` | meerkly_headless/urls.py:56-57 | Of any authority the accessors read the host without brackets and in lower case, the port as a number up to 65535 or an error, and the userinfo up to its last at sign |
| `UrlParts.BracketsExactly` | meerkly_headless/urls.py:54-57 | An authority with brackets passes exactly if they come in a pair around a host that the library knows |
| `Urls.HrefReadsBack` | meerkly_headless/urls.py:55-72 | The URL put together from the checked parts splits into those parts again, with "/" for a missing path |
| `Urls.ChecksExactly` | meerkly_headless/urls.py:36-73 | The whole check for every value: each refusal, the URL handed on and the raised exception occurs if and only if its stated condition holds; in particular a URL is handed on exactly if its text is permitted, splits into a web scheme, a usable port and a host, and, with private hosts blocked, that host is judged public; it is then the text of that very split with "/" for a missing path |
| `Urls.ForbiddenExactly` | meerkly_headless/urls.py:25-49 | The refused protocol is the one of the four that the text starts with, in any case |
| `Urls.HasSchemeExactly` | meerkly_headless/urls.py:28-52 | A text has a scheme if and only if a letter and letters, digits, plus, minus or dot lead up to "://" |
| `Urls.FetchedHostWasJudged` | meerkly_headless/urls.py:36-73 | The URL handed on has a web scheme, a usable port and a non-empty host, and that host, not some other reading of the input, is what the guard judged public |
| `Urls.NoPrivateSpellingPasses` | meerkly_headless/urls.py:65-73 | No URL is handed on whose host spells a private IPv4 address in any radices, parts, final dots and up to three percent-encoded layers |
| `Urls.GuardsCompose` | meerkly_headless/urls.py:221-241 | For a URL that passed the check, the address screening never raises, and it answers true if and only if the host is a name, and no literal, that resolves to some private address; otherwise nothing private is left, the literals that it skips having been screened |
| `Urls.ScreensExactly` | meerkly_headless/urls.py:221-241 | For every URL, checked or not: the screening raises if and only if its host is read up to an overlong decimal, and otherwise answers true if and only if the host is a name that resolves to some private address |
| `Urls.OverlongUrlRaises` | meerkly_headless/urls.py:65-66 | Witnesses: URLs whose host is more than 4300 ones |
| `Urls.SchemelessIsHttps` | meerkly_headless/urls.py:46-52 | Text without a scheme that is not forbidden is checked exactly as if written with https |
| `Urls.CheckingTwice` | meerkly_headless/urls.py:36-73 | Checking a checked URL again returns it unchanged if and only if it does not end in white space |
| `Urls.ShieldedSpace` | meerkly_headless/urls.py:41-72 | A concrete URL for which the check is not idempotent |
| `FetchSpec.ParseFetchFrame` | meerkly_headless/fetch_spec.py:33-72 | The parser with its loop over the raw rules is total over JSON and equals the function the lemmas below are about |
| `FetchSpec.FrameJobExactly` | meerkly_headless/fetch_spec.py:33-72 | A frame is a job if and only if it has a non-empty id and URL; a missing or ill-typed mode is "stable", and missing rules and times are none |
| `FetchSpec.RuleExactly` | meerkly_headless/fetch_spec.py:51-61 | A raw rule is kept if and only if it has a non-empty guard, and its target is its text or the empty one |
| `FetchSpec.WholeMilliseconds` | meerkly_headless/fetch_spec.py:24-30 | A positive finite number is cut to whole milliseconds, anything else counts as none |
| `FetchSpec.JobsParseBack` | meerkly_headless/fetch_spec.py:33-72 | Every well-formed job is what its own dict parses to |
| `FetchSpec.ParseIsIdempotent` | meerkly_headless/fetch_spec.py:33-72 | Parsing its own output changes nothing, whatever JSON it started from |
| `FetchSpec.FilterKeepsRules` | meerkly_headless/fetch_spec.py:51-61 | Parsed rules survive another filtering one by one |
| `FetchSpec.RulesAreTheGuardedOnes` | meerkly_headless/fetch_spec.py:51-61 | The parsed rules are the raw rules with a guard, all of them, in wire order |
| `FetchSpec.IndexRefersToWire` | meerkly_headless/fetch_spec.py:51-61 | A rule's index is its wire position if and only if no raw rule up to it was dropped |
| `FetchSpec.CapsFitTheBudget` | meerkly_headless/fetch_spec.py:75-80 | For every non-negative budget an effective cap lies in 0..max, never exceeds the budget and grows with it |
| `FetchSpec.CapsWithoutBudget` | meerkly_headless/fetch_spec.py:75-80 | Without a budget the caps are the schema's formulas with defaults 5000 and 800 and maximum 25000 |
| `FetchSpec.CapsOfWholeBudget` | meerkly_headless/fetch_spec.py:75-80 | Of a budget of whole milliseconds, each cap is the least of what is asked for (or 5000, or 800), what is left and 25000 |
| `FetchSpec.CapsOfOverdrawnBudget` | meerkly_headless/fetch_spec.py:75-80 | A negative budget is cut towards zero as well |
| `Backoff.BackoffClosedForm` | meerkly_headless/gateway.py:34-35 | The backoff is min(1000 * 2^k, 30000) after k cycles since a reset, hence one of six values |
| `Backoff.AmortisedBound` | meerkly_headless/gateway.py:124-146 | Any n attempt-and-sleep cycles take at least 17000 n / 3 - 10000 ms |
| `Backoff.BoundIsTight` | meerkly_headless/gateway.py:124-146 | Some sequence of attempts takes exactly that long, for every multiple of three cycles |
| `GatewayModel.JobsHold` | meerkly_headless/gateway.py:202-240 | In every reachable state `_pending` is the number of admitted running jobs and lies in 0..3, `jobs_served` is the number of served ones, every job has made at most one result attempt and exactly one if it ended uncancelled, and every unfinished job is in `_jobs` |
| `GatewayModel.FrameKindsExactly` | meerkly_headless/gateway.py:158-200 | Which messages create a job, register the client and pause it, by their keys and texts |
| `GatewayRuns.AdmissionIsExact` | meerkly_headless/gateway.py:202-218 | In every run a job that begins is answered "Worker busy" if and only if three jobs are running; with at most two it is admitted if its URL is valid and refused if not |
| `GatewayRuns.JobSetIsExact` | meerkly_headless/gateway.py:175-177 | In every run `_jobs` holds exactly the tasks created whose done-callback has not run |
| `GatewayRuns.TaskMovesOneTask` | meerkly_headless/gateway.py:202-240 | Whatever interleaves with it, a job moves along its own path through `_handle_fetch`, reads only the admission count and the socket, and touches no other job and nothing of the reconnect loop |
| `GatewayRuns.OneTaskPerFrame` | meerkly_headless/gateway.py:168-177 | Over any run, tasks and well-formed fetch frames correspond one to one and in order, each task with its own frame's job; a malformed frame leads to none |
| `GatewayRuns.ResultsMatchFrames` | meerkly_headless/gateway.py:168-231 | Result attempts never outnumber fetch frames and equal them once all jobs ended uncancelled; and once all jobs ended in any way, nothing is pending |
| `GatewayRuns.RepliesAreEarned` | meerkly_headless/gateway.py:202-229 | Over any run, with the answers of the URL check and of the screening as its events: no crawl without a free slot, a valid verdict and a screening of that task that found nothing; no "Worker busy" unless three jobs were running; no failure without a refusing or raising step. The converse for admission is `GatewayRuns.AdmissionIsExact` |
| `JobGuard.CrawlingIsGuarded` | meerkly_headless/gateway.py:211-225 | In every run whose verdicts are those of `check_url` on the task's own job and, with name resolution as it stands at each event, of `resolves_to_private`: a task that crawls or has crawled holds a job whose URL passed the check, and it was screened at an event at which the host was a public literal or a name that resolved to nothing private then |
| `JobGuard.ReturnedWasGuarded` | meerkly_headless/gateway.py:211-225 | The same holds of every crawl that returned, even if its task is cancelled before it is reported |
| `JobGuard.PrivateNameIsNeverCrawled` | meerkly_headless/gateway.py:220-222 | A job whose host name resolves to a private address at each of its screenings is not crawled |
| `JobGuard.NoRunCrawlsPrivate` | meerkly_headless/gateway.py:211-225 | No such run crawls a URL whose host spells a private IPv4 address in any radices, parts, final dots and up to three percent-encoded layers |
| `JobGuard.RefusedIsNeverCrawled` | meerkly_headless/gateway.py:215-218 | A job whose URL the check refuses or raises on is never screened or crawled |
| `JobGuard.ScreeningNeverRaises` | meerkly_headless/gateway.py:220-222 | In such a run the screening never raises, so a worker error after admission comes from the check or the crawl |
| `JobGuard.PassedCanBeCrawled` | meerkly_headless/gateway.py:202-225 | Conversely every job whose URL passes the check and whose host leaves nothing private is crawled in some such run |
| `JobGuard.ThreeCanCrawl` | meerkly_headless/gateway.py:28-225 | Such a run in which three jobs crawl at the same time |
| `JobGuard.ScreeningFinds` | meerkly_headless/gateway.py:220-222 | In such a run a screening finds something if and only if the host resolves to a private address at that event |
| `Replies.FramesAnswerJobs` | meerkly_headless/gateway.py:202-240 | From fetch frame to result frame: over any run, every result frame handed to a socket is complete and coherent, names the job of the fetch frame its task was created for, and claims success only if that task's crawl returned; no fetch frame gets two |
| `Replies.FramesGiveReasons` | meerkly_headless/gateway.py:202-229 | Each frame of such a run gives its reason, text by text: "Worker busy" exactly while three jobs run, otherwise the refusal of the job's own URL, the private address that it resolves to, the exception, or, key by key, what the crawl returned |
| `Replies.SuspendedHasSent` | meerkly_headless/gateway.py:233-238 | Every task suspended in a socket's send has handed it a frame |
| `Replies.SuccessWasGuarded` | meerkly_headless/gateway.py:211-240 | A result frame claims success only for a job that passed both guards |
| `GatewayRuns.CrawlIsReported` | meerkly_headless/gateway.py:224-226 | A crawl that returned is reported as such, unless its task is cancelled |
| `GatewayRuns.ServedMeansCrawledAndSent` | meerkly_headless/gateway.py:224-226 | A job counts as served if and only if its crawl returned and its sending then ended without cancellation |
| `GatewayRuns.StopReachesEveryJob` | meerkly_headless/gateway.py:115-120 | stop() cancels every job that has not finished |
| `GatewayRuns.RegisteredOnCurrentConnection` | meerkly_headless/gateway.py:92-95 | Being registered implies that a socket is still held, that of the latest attempt, and that a `registered` frame was received on it |
| `GatewayRuns.RegisteredExactly` | meerkly_headless/gateway.py:124-184 | While a socket is held, `is_registered()` holds if and only if a `registered` frame has arrived on that connection |
| `GatewayRuns.ReadinessExactly` | meerkly_headless/gateway.py:92-156 | In every state `is_registered()` holds if and only if a `registered` frame arrived on the latest connection and the client is on it, or closing it, or the loop was cancelled inside it, whose fields then outlive it |
| `GatewayRuns.ReadyAfterTheEnd` | meerkly_headless/gateway.py:115-132 | A run whose loop has ended by cancellation with the worker still ready |
| `GatewayRuns.HaltsExactly` | meerkly_headless/gateway.py:190-196 | The client is paused if and only if a `device_auth_failed` error was received, and stopped if and only if stop() was called |
| `GatewayRuns.HaltedForGood` | meerkly_headless/gateway.py:126-138 | From a paused or stopped state no continuation of the run starts a connection attempt |
| `GatewayRuns.AuthFailureIsTerminal` | meerkly_headless/gateway.py:190-196 | After `device_auth_failed` the number of connection attempts never changes again |
| `GatewayRuns.PausedClientEnds` | meerkly_headless/gateway.py:126-138 | In no run does a paused client connect or wait to reconnect, and once its connection has closed it is over and unregistered, whatever follows |
| `GatewayRuns.ReconnectsAreSpaced` | meerkly_headless/gateway.py:124-146 | In every run, whatever the network and the jobs do, the (n+1)-st attempt starts at least 17000 n / 3 - 10000 ms after the first |
| `GatewayRuns.BackoffDuringAttempts` | meerkly_headless/gateway.py:140-146 | During an attempt of any run the stored backoff is the closed form for the attempts before it, measured from the start of connecting |
| `GatewayRuns.AttemptEnds` | meerkly_headless/gateway.py:135-145 | An attempt that is over leaves neither socket nor registration and, unless paused or stopped, a sleep of exactly the backoff, one second after an attempt of ten |
| `GatewayRuns.SleepEnds` | meerkly_headless/gateway.py:124-146 | A sleep that is over starts the next attempt at once, the backoff doubled up to thirty seconds |
| `GatewayRuns.NoAttemptUnstarted` | meerkly_headless/gateway.py:97-104 | No run attempts a connection before a start found the transport acceptable |
| `GatewayRuns.CanRegister` | meerkly_headless/gateway.py:124-184 | From every reachable state that is neither paused nor stopped nor over, the client can still come to be registered |
| `GatewayRuns.LoopIsNeverStuck` | meerkly_headless/gateway.py:124-156 | Wherever the loop is suspended, its connection can fail, break or finish closing, and cancellation reaches it |
| `GatewayRuns.NoTaskIsStuck` | meerkly_headless/gateway.py:202-240 | Wherever a job is suspended, its await can end in each way it has, leading to the stated next point, and cancellation reaches it; what it sends waits in the socket or, if there is none, is over |
| `Gateway.GatewayClient.DispatchRaw` | meerkly_headless/gateway.py:158-188 | The method changes the object's fields as the dispatch segment says, for any message |
| `Gateway.GatewayClient.Registered` | meerkly_headless/gateway.py:92-95 | Readiness is a registration together with a live socket |
| `Gateway.GatewayClient.HandleError` | meerkly_headless/gateway.py:190-200 | Only `device_auth_failed` pauses, and nothing unpauses |
| `Gateway.GatewayClient.HandleFetch` | meerkly_headless/gateway.py:202-218 | The first segment of a job on the object's fields: the busy test before validation, then the admission; `GatewayRuns.AdmissionIsExact` says what that segment is, with its limit of three |
| `Gateway.GatewayClient.SendReply` | meerkly_headless/gateway.py:233-240 | A reply goes to the socket that is current now, and is over at once if there is none |
| `Gateway.GatewayClient.FinishSend` | meerkly_headless/gateway.py:224-231 | After the sending, the admission is given back and a crawl is counted |
| `Gateway.GatewayClient.Cancel` | meerkly_headless/gateway.py:212-231 | A cancelled job gives its admission back exactly if it held one |
| `Gateway.GatewayClient.AfterConnectOnce` | meerkly_headless/gateway.py:135-145 | What follows an attempt: unregistered, socket dropped, then the end or a sleep of the reset or kept backoff |
| `Gateway.GatewayClient.TopOfLoop` | meerkly_headless/gateway.py:126-129 | The attempt clock starts before connecting, and only if neither stopped nor paused |
| `Gateway.GatewayClient.StopClient` | meerkly_headless/gateway.py:115-120 | Stopping marks every job in `_jobs` for cancellation and changes nothing else at once |
| `Gateway.GatewayClient.Handle` | meerkly_headless/gateway.py:72-240 | Any event at any time takes the object where the transition system goes |
| `Gateway.Live` | meerkly_headless/gateway.py:72-240 | A client object driven through any run ends in the run's state, with the counters, the job correspondence, the one result attempt per job and the spacing of attempts as proved for runs, and answers to `is_registered()` exactly as stated for runs |
| `Settle.SettleMachine.FireTimers` | meerkly_headless/snippets.py:95-111 | Due timers resolve the promise once, at the earlier of the two |
| `Settle.FirstQuietExists` | meerkly_headless/snippets.py:86-89 | There is exactly one first point, the start or a mutation, followed by 500 ms without mutations |
| `Settle.RunSettle` | meerkly_headless/snippets.py:90-113 | For every sequence of mutation times the timer-resetting machine resolves exactly once, at the minimum of the cap and 500 ms after that point |
| `Settle.WindowFromRun` | meerkly_headless/browser.py:756-761 | The reset-on-change test holds if and only if all samples of some window of at least 500 ms have one digest |
| `Settle.SettleByPolling` | meerkly_headless/browser.py:746-763 | The loop leaves at the first round at which it is past the cap, the page is gone, or such a window ends |
| `Settle.ExitIsUnique` | meerkly_headless/browser.py:746-763 | What is read and when determines why and in which round polling ends |
| `Settle.PollingEnds` | meerkly_headless/browser.py:746-763 | With reads of at most 6000 ms it ends within the cap plus 6250 ms |
| `Settle.PollingSettles` | meerkly_headless/browser.py:746-763 | If the content stops changing at q and reads take at most c, it has returned by q + 1000 + 3c unless it left at the cap |
| `Settle.TimeoutIsNoCspBlock` | meerkly_headless/browser.py:119-130 | The text of a blown deadline is never taken for a CSP block |
| `Settle.CspBlocksExactly` | meerkly_headless/browser.py:119-130 | An error is a CSP block if and only if, apart from case, it contains one of three texts |
| `Settle.ExecSettle` | meerkly_headless/browser.py:699-720 | The script run under its deadline: it answers in time if and only if its resolution and the round trip come before the cap and a second; the error it leaves otherwise, when that happens, and when it raises |
| `Settle.SettleWait` | meerkly_headless/browser.py:722-730 | The whole settle wait: it polls exactly after a CSP block, takes at most the cap and a second otherwise and twice the cap and 7250 ms with polling, the cap being the least of what is asked for, what is left and 25 seconds; which error it leaves behind; it raises exactly if the script, or a page read of the polling, fails without text |
| `Browser.LookOnce` | meerkly_headless/browser.py:675-681 | One pass finds the least visible index, a throwing guard counting as hidden |
| `Browser.ProbeRules` | meerkly_headless/browser.py:665-684 | The answer is the least index visible in the last pass with nothing visible before, or -1 after a full pass that ends at or past the deadline |
| `Browser.ProbeIsBounded` | meerkly_headless/browser.py:673-684 | At least one pass, and at most ceil(budget / 50) + 1 |
| `Browser.ProbeAnswerIsUnique` | meerkly_headless/browser.py:665-684 | What was visible when determines both the answer and the number of passes |
| `Browser.BrowserManager.Handle` | meerkly_headless/browser.py:232-412 | The manager's fields follow the steps of jobs, resets, launches, crashes and teardowns, also when a job fails or is cancelled during the reset |
| `Browser.BrowserManager.HandleBrowser` | meerkly_headless/browser.py:261-382 | Launches, crash recovery and close() write the hold on the browser and, by their frame, nothing of the counter or the session id |
| `Browser.BrowserManager.ClearProfile` | meerkly_headless/browser.py:408-412 | A reset zeroes the counter and draws a new session id exactly if there is a proxy |
| `Browser.ResetsAreOnSchedule` | meerkly_headless/browser.py:386-412 | Between jobs, after n >= 1 started, exactly floor((n - 1) / limit) resets have completed and the counter is n - limit * resets, within 1..limit |
| `Browser.AnyNumberCanRun` | meerkly_headless/browser.py:386-412 | For every n there is a run that serves n jobs, with that many resets |
| `Browser.SessionFollowsResets` | meerkly_headless/browser.py:408-412 | The session id is the first draw plus one new draw per completed reset; with resets disabled it never changes |
| `Browser.RecoveryKeepsTheSession` | meerkly_headless/browser.py:261-382 | Taking every launch, crash and recovery out of a run, wherever they interleave with jobs and resets, leaves the same counter, resets and session id |
| `Browser.EngineSession` | meerkly_headless/browser.py:286-313 | A running browser has the session id drawn for the profile generation its launch began in, which is the manager's own exactly if that draw equals the current one |
| `Browser.StaleSession` | meerkly_headless/browser.py:286-313 | A run in which a reset overtakes a launch, after which the running browser has the previous session id |
| `Browser.LossIsNoticed` | meerkly_headless/browser.py:253-378 | After any run, a closed context or a crashed page leaves the manager not ready, a failed launch leaves no launch under way, and recovery from a crash takes the browser down |
| `Browser.RelaunchIsReady` | meerkly_headless/browser.py:261-333 | An open manager that is not ready, for whatever reason, comes by one launch to a ready browser with the session id it has |
| `Browser.ClosedForGood` | meerkly_headless/browser.py:253-268 | A closed manager is never ready again and begins no launch |
| `Crawl.Listener.OnResponse` | meerkly_headless/browser.py:440-449 | The closed-over status and response are those of the last main-frame navigation seen |
| `Crawl.DescribeError` | meerkly_headless/browser.py:83-87 | It raises exactly on an exception without text, says a timeout exactly where the pattern matches, and otherwise gives the first line |
| `Crawl.SaysTimeoutExactly` | meerkly_headless/browser.py:85 | The pattern matches if and only if, apart from case, "timeout " is followed by " exceeded" in the same line |
| `Crawl.InterruptedExactly` | meerkly_headless/browser.py:133-135 | A navigation was interrupted if and only if the text says so, apart from case |
| `Crawl.DestroyedExactly` | meerkly_headless/browser.py:103-116 | A read lost its document if and only if its error contains one of three texts, apart from case |
| `Crawl.JsonTypesExactly` | meerkly_headless/browser.py:90-100 | A content type is JSON exactly by its media type, whatever white space, parameters and case: application/json, text/json or a +json suffix |
| `Crawl.TitleFor` | meerkly_headless/browser.py:153-171 | The title is the page's own, except that an untitled JSON document with a URL and a host shows the host |
| `Crawl.GoTo` | meerkly_headless/browser.py:772-786 | The navigation arrives if and only if it succeeds, or is interrupted with a second left and its one retry succeeds; otherwise the error is that of the last attempt's text, or raised if and only if that has none |
| `Crawl.RecoverJson` | meerkly_headless/browser.py:533-572 | A body is recovered only for a JSON content type, and is non-empty and at most 20,000,000 characters long |
| `Crawl.RecoversFirstSource` | meerkly_headless/browser.py:551-619 | The body is the first text among the response, the viewer's nodes in order and the repeated request |
| `Crawl.RecoversUnlessAllBlank` | meerkly_headless/browser.py:551-619 | There is none if and only if none of these has any text |
| `Crawl.Crawler.ReadContent` | meerkly_headless/browser.py:686-697 | What a page read returns, which error it leaves behind, and when it raises |
| `Crawl.Crawler.AwaitSettle` | meerkly_headless/browser.py:722-730 | A crawl's settle waits are such waits, in what they raise and in what they leave behind |
| `Crawl.Crawler.WaitFor` | meerkly_headless/browser.py:474-487 | Which wait each mode comes to, when it times out or raises, what is seen meanwhile and which error it leaves |
| `Crawl.Crawler.ExtractHtml` | meerkly_headless/browser.py:621-649 | Extraction gives the markup of the first read, or of the second if a navigation took the first and half a second is left |
| `Crawl.Crawler.FindDocument` | meerkly_headless/browser.py:489-498 | The raw JSON takes precedence over the markup, and a blank document is none |
| `Crawl.Crawler.Fetch` | meerkly_headless/browser.py:414-531 | A crawl succeeds if and only if the page opened, the navigation succeeded, or was interrupted with a second left and its retry succeeded, the wait of the matched mode ended without an exception and there is a document; every result is coherent and reports exactly that document, rule, wait timeout, title and URL, or the error of the step that failed; the listener has seen exactly the responses of the stages gone through, and the status is that of the last main-frame navigation among them, save that a failed extraction overlooks the title read; it raises if and only if one of the unguarded awaits does |
| `Crawl.Crawler.Capture` | meerkly_headless/browser.py:465-525 | The same from the arrival on |
| `Crawl.Crawler.Arrive` | meerkly_headless/browser.py:427-454 | The same up to the arrival, a failed navigation giving the error of its last attempt |
| `Crawl.Crawler.AwaitPage` | meerkly_headless/browser.py:465-487 | The raw JSON, the matched rule and the wait of its mode, and the responses seen meanwhile |
| `Crawl.MatchIsUnique` | meerkly_headless/browser.py:467-477 | Whatever rule the probe can settle on for a job and a page is the one of `RuleFor`, so mode, wait and status are determined |
| `Crawl.LateNavigation` | meerkly_headless/browser.py:504-509 | The status a failed extraction reports is that of the last navigation seen if and only if no navigation with another status is the last to arrive during the title read |
| `Crawl.MovingPageStatus` | meerkly_headless/browser.py:504-509 | A page on which the crawl returns and reports 200 after having last seen a navigation with 404 |
| `Crawl.EmptyTextRaises` | meerkly_headless/browser.py:686-697 | Pages on which the navigation, and the capture, raise because an exception has no text |
| `Crawl.CrawlFrame` | meerkly_headless/gateway.py:54-69 | A coherent result becomes a coherent frame that tells each of its fields under its own key and names the job |
| `Crawl.RefusalFrame` | meerkly_headless/gateway.py:54-69 | The short dict of a refusal or worker error becomes a complete, coherent failure frame with the defaults for every other key |
| `Identity.DeviceTokenStore.Read` | meerkly_headless/identity.py:166-184 | A token is read if and only if a non-empty one is stored for this machine id, and it is that one |
| `Identity.DeviceTokenStore.Write` | meerkly_headless/identity.py:186-198 | Once the file is replaced, reading gives the token just written, even if the write then fails; before that nothing changes |
| `Identity.ObtainDeviceToken` | meerkly_headless/identity.py:288-316 | What is returned is what the store reads afterwards; at most five calls, ending at the first success or refusal, after 0, 1000, 4000, 12000 or 32000 ms of sleep |
| `Identity.LastAttemptIsUnique` | meerkly_headless/identity.py:294-316 | The outcomes alone determine at which attempt the loop ends |
| `Identity.UuidsExactly` | meerkly_headless/identity.py:42 | A text is an id if and only if it is groups of 8, 4, 4, 4 and 12 hex digits between hyphens, one final newline allowed |
| `Identity.StoredId` | meerkly_headless/identity.py:118-122 | A stored id is taken if and only if it is a text of that form |
| `Identity.Home.ResolveMachineId` | meerkly_headless/identity.py:106-154 | The id by precedence of override, file, derivation and draw; on a writable home it is the stored one afterwards, and a malformed override changes nothing |
| `Identity.Home.Persist` | meerkly_headless/identity.py:134-146 | The file is replaced exactly if the home is writable |
| `Identity.FileOnlyMattersThroughItsId` | meerkly_headless/identity.py:118-131 | Nothing of the file but its valid id influences the result |
| `Identity.Restart` | meerkly_headless/identity.py:106-154 | A home started any number of times resolves and stores the ids that the lemmas below are about |
| `Identity.EachStartReadsTheLast` | meerkly_headless/identity.py:106-131 | Each start resolves its id from what the starts before it left |
| `Identity.OnlyOverridesChangeTheId` | meerkly_headless/identity.py:106-154 | On a writable home with an id, after any starts the id is the latest valid override or the one it was |
| `Identity.MachineIdIsSticky` | meerkly_headless/identity.py:106-154 | An id resolved once, from whatever source, is resolved again after any starts until a different valid override is set, even if its override, key or worker id is changed or gone |
| `Identity.UnwritableKeepsNothing` | meerkly_headless/identity.py:143-146 | On an unwritable home no number of starts changes what is stored |
| `Identity.UnwritableIdentity` | meerkly_headless/identity.py:124-131 | There, without a stored id, a fixed key and worker id give one id for ever, and anything less a fresh draw each time |
| `Proxy.SidTextIsBijective` | meerkly_headless/proxy.py:26-32 | The six-digit rendering is a bijection between 0..999999 and the strings of six digits |
| `Proxy.ServerHasNoUserinfo` | meerkly_headless/proxy.py:35-78 | For every URL and session id, the server string contains no "@" |
| `Proxy.AcceptsExactlyProxies` | meerkly_headless/proxy.py:49-68 | A proxy URL is accepted if and only if, with the session id in place, it splits into one of three schemes, a host and an explicit port in range, and nothing behind them |
| `Proxy.ProxyRoundTrip` | meerkly_headless/proxy.py:35-78 | A proxy URL printed from any allowed scheme, host and port in any case and no credentials, a user, or a user and a password, with the placeholder anywhere in them, parses to the raw credentials with the session id in place, an empty user name being none, and the bare server in lower case |

## Left out

- Percent.DecodingUnwraps: covers ASCII hosts; how bytes above 127 decode as UTF-8 is a parameter.
- Hosts.Normalize: NFKC and casefold of non-ASCII text are a parameter; on ASCII text they are lower-casing.
- Hosts.Ipv6Verdict: the text of an IPv6 address is parsed by a parameter; the theorem starts from its 128 bits.
- Hosts.QuadVerdict: the `\d` of the address pattern also matches non-ASCII digits, which no printed address contains.
- Urls.GuardsCompose: name resolution is a function of the name; a name that resolves differently a moment later, when the browser asks, stays outside, as in the source.
- Urls.CheckingTwice: of a refusal only its kind is modelled, not the library's message inside it.
- Proxy.ProxyRoundTrip: raw credentials are ASCII, hosts are ASCII names or IPv6 literals without a zone; `urlsplit`'s checks of bracketed hosts and non-ASCII authorities are parameters.
- Proxy.ServerHasNoUserinfo: host names are lower-cased in their ASCII letters only.
- Settle.SettleWait: the times of its page reads are inputs, within the limit that their deadline sets.
- Settle.RunSettle: timers fire exactly when due, and at equal times before a mutation; the browser's own latency is not modelled.
- Settle.SettleByPolling: hashing and comparing take no time, and SHA-256 is an arbitrary function.
- Browser.ProbeRules: a sleep takes exactly 50 ms, and the clock has no coarser resolution.
- Crawl.Crawler.Fetch: page attributes such as the URL are read once, and which responses arrive during which await is up to the page.
- Crawl.DescribeError: case-insensitive matching covers ASCII letters.
- Identity.ObtainDeviceToken: the mapping from HTTP responses to enrollment outcomes is an input.
- Identity.Restart: a home is writable at every start or at none; machine.json, which is not written atomically, is either written whole or not at all; uuid5, uuid4 and SHA-256 are inputs.
- GatewayRuns.RepliesAreEarned: takes the URL verdicts and the screening's answers as events of the run; `JobGuard.CrawlingIsGuarded` ties them to the guards.
- Replies.FramesAnswerJobs: nothing is claimed about a frame's way through the socket; texts of library exceptions are inputs.
- GatewayRuns.ResultsMatchFrames: the attempt is made on the socket that is current then, not on the one the job came from, and nothing is claimed about its arrival.
- GatewayRuns.StopReachesEveryJob: when a requested cancellation is delivered is up to the event loop.
- GatewayRuns.RegisteredExactly: nothing is claimed about which frame is the first one on a socket.
- The contents of the register frame, `device_info`, the health endpoint, configuration, logging and the command line: nothing to prove beyond their bodies.
- What launching and tearing down do outside the worker, the profile files and the crash-relaunch delay.
- That only one engine is ever open: the source does not guarantee it.
- A bound on the duration of a whole job: launch and JSON recovery carry no budget.
- `PROBE_RULES`, `WAIT_SELECTOR_VISIBLE` and `EXTRACT_HTML`: no longer called.
