/** One crawl, from navigation to the result frame: `_fetch` and what it calls, then `build_result`. */
module Crawl {
  import opened Options
  import opened Text
  import opened FetchSpec
  import opened Browser
  import opened Settle

  const MAX_HTML_CHARS: nat := 20_000_000

  // ----- Small decisions ---------------------------------------------------

  datatype Branch = NetworkIdle | NoWait | QuietWait | SelectorWait

  function WaitBranch(mode: string): Branch {
    if mode == "networkidle" then NetworkIdle
    else if mode == "domcontentloaded" then NoWait
    else if mode == "stable" || mode == "" then QuietWait
    else SelectorWait
  }

  predicate ExceededInLine(m: string) {
    " exceeded" <= m || (m != "" && m[0] != '\n' && ExceededInLine(m[1..]))
  }

  predicate TimeoutThenExceeded(m: string) {
    ("timeout " <= m && ExceededInLine(m[8..])) || (m != "" && TimeoutThenExceeded(m[1..]))
  }

  /** `re.search("Timeout .* exceeded", message, IGNORECASE)`. */
  predicate SaysTimeout(message: string) {
    TimeoutThenExceeded(Lower(message))
  }

  /** " exceeded" stands at j, and no line ends before it. */
  predicate ExceededAt(m: string, j: nat) {
    StandsAt(" exceeded", m, j) && Excludes(m[..j], '\n')
  }

  lemma ExceededLater(m: string, j: nat)
    requires m != ""
    ensures ExceededAt(m, j + 1) <==> m[0] != '\n' && ExceededAt(m[1..], j)
  {
    StandsLater(" exceeded", m, j);
    if j + 1 <= |m| {
      assert m[..j + 1] == [m[0]] + m[1..][..j];
    }
  }

  ghost predicate ExceededSomewhere(m: string) {
    exists j: nat :: ExceededAt(m, j)
  }

  lemma {:induction false} ExceededExactly(m: string)
    ensures ExceededInLine(m) <==> ExceededSomewhere(m)
  {
    if " exceeded" <= m {
      assert ExceededAt(m, 0);
    } else if m != "" {
      ExceededExactly(m[1..]);
      if ExceededInLine(m) {
        var j: nat :| ExceededAt(m[1..], j);
        ExceededLater(m, j);
      }
      if ExceededSomewhere(m) {
        var j: nat :| ExceededAt(m, j);
        assert j > 0;
        ExceededLater(m, j - 1);
      }
    }
  }

  /** "timeout " stands at i, and " exceeded" behind it in the same line. */
  ghost predicate TimeoutAt(m: string, i: nat) {
    StandsAt("timeout ", m, i) && ExceededSomewhere(m[i + 8..])
  }

  lemma TimeoutLater(m: string, i: nat)
    requires m != ""
    ensures TimeoutAt(m, i + 1) <==> TimeoutAt(m[1..], i)
  {
    StandsLater("timeout ", m, i);
    if i + 9 <= |m| {
      assert m[1..][i + 8..] == m[i + 9..];
    }
  }

  ghost predicate TimeoutSomewhere(m: string) {
    exists i: nat :: TimeoutAt(m, i)
  }

  lemma {:induction false} TimeoutsExactly(m: string)
    ensures TimeoutThenExceeded(m) <==> TimeoutSomewhere(m)
  {
    if "timeout " <= m {
      ExceededExactly(m[8..]);
      assert ExceededInLine(m[8..]) ==> TimeoutAt(m, 0);
    }
    if m != "" {
      TimeoutsExactly(m[1..]);
      if TimeoutSomewhere(m[1..]) {
        var i: nat :| TimeoutAt(m[1..], i);
        TimeoutLater(m, i);
      }
      if TimeoutSomewhere(m) {
        var i: nat :| TimeoutAt(m, i);
        if i > 0 {
          TimeoutLater(m, i - 1);
        }
      }
    }
  }

  /** A message says timeout exactly if, apart from case, "timeout " is followed by " exceeded" in one line. */
  lemma SaysTimeoutExactly(message: string)
    ensures SaysTimeout(message) <==> TimeoutSomewhere(Lower(message))
  {
    TimeoutsExactly(Lower(message));
  }

  lemma EmptyTextSaysNothing()
    ensures !SaysTimeout("") && !IsInterrupted("")
  {
    assert Lower("") == "";
  }

  /** `describe_error`; None where it raises: exactly on an exception without text. */
  function DescribeError(message: string): (r: Option<string>)
    ensures r.None? <==> message == ""
    ensures SaysTimeout(message) ==> r == Some("Navigation timeout after 30000ms")
    ensures r.Some? && !SaysTimeout(message) ==> r == Some("Failed to load: " + message[..LineLength(message)])
    ensures r.Some? ==> r.value != ""
  {
    EmptyTextSaysNothing();
    if SaysTimeout(message) then Some("Navigation timeout after 30000ms")
    else match FirstLine(message)
      case None => None
      case Some(line) => Some("Failed to load: " + line)
  }

  predicate IsInterrupted(message: string) {
    Contains(Lower(message), "interrupted by another")
  }

  predicate IsDestroyedContext(message: Option<string>) {
    message.Some? && message.value != "" &&
    var m := Lower(message.value);
    Contains(m, "execution context") || Contains(m, "context was destroyed") || Contains(m, "browsingcontext is undefined")
  }

  lemma InterruptedExactly(message: string)
    ensures IsInterrupted(message) <==> Mentions(message, "interrupted by another")
  {
    ContainsExactly(Lower(message), "interrupted by another");
  }

  lemma DestroyedExactly(message: Option<string>)
    ensures IsDestroyedContext(message) <==>
            message.Some? &&
            (|| Mentions(message.value, "execution context")
             || Mentions(message.value, "context was destroyed")
             || Mentions(message.value, "browsingcontext is undefined"))
  {
    if message.Some? {
      var m := Lower(message.value);
      ContainsExactly(m, "execution context");
      ContainsExactly(m, "context was destroyed");
      ContainsExactly(m, "browsingcontext is undefined");
    }
  }

  predicate IsJsonContentType(contentType: string) {
    var media := Lower(Strip(Split(contentType, ';')[0]));
    media == "application/json" || media == "text/json" || EndsWith(media, "+json")
  }

  lemma MediaType(media: string, before: string, after: string, parameters: string)
    requires media != "" && !IsSpace(media[0]) && !IsSpace(media[|media| - 1]) && Excludes(media, ';')
    requires IsBlank(before) && IsBlank(after)
    ensures var text := before + (media + after);
            && Strip(Split(text, ';')[0]) == media
            && Strip(Split(text + [';'] + parameters, ';')[0]) == media
  {
    var text := before + (media + after);
    assert !IsSpace(';');
    assert Excludes(text, ';');
    SplitWord(text, ';');
    SplitHead(text, parameters, ';');
    StripPadded(before, media, after);
  }

  /**
    A content type is JSON exactly by its media type, whatever white space and parameters surround
    it: application/json, text/json, or any with the suffix +json, in any case.
  */
  lemma JsonTypesExactly(media: string, before: string, after: string, parameters: string)
    requires media != "" && !IsSpace(media[0]) && !IsSpace(media[|media| - 1]) && Excludes(media, ';')
    requires IsBlank(before) && IsBlank(after)
    ensures var text := before + (media + after);
            var json := || Lower(media) in {"application/json", "text/json"}
                        || (|media| >= 5 && Lower(media)[|media| - 5..] == "+json");
            IsJsonContentType(text) == IsJsonContentType(text + [';'] + parameters) == json
  {
    MediaType(media, before, after, parameters);
  }

  // ----- What a crawl meets --------------------------------------------------

  /** A response event: whether it is a main-frame navigation, its status, its headers and body (None: reading it raises). */
  datatype Response = Response(mainNavigation: bool, status: nat, contentType: Option<string>, body: Option<string>)

  datatype Opening = LaunchRaises(message: string) | NoPage | PageOpen

  /** The awaits during which the page may deliver responses. */
  datatype Stage = Navigating | Draining | ReadingJson | Probing | Waiting | AwaitingQuiet | Extracting | Titling

  /** Everything the engine does during one job; each `left` is a remaining budget when it is read. */
  datatype Page = Page(
    opening: Opening,
    firstGoto: Option<string>,      // None: it succeeded; otherwise the exception's message
    leftAfterGoto: nat,
    secondGoto: Option<string>,
    viewer: seq<Option<string>>,    // text of `#json` and `pre`, None if missing or unreadable
    refetch: Option<string>,
    rendering: Rendering,
    leftForProbe: nat,
    idleTimesOut: bool,
    selectorTimesOut: bool,
    settle: Settling,
    firstContent: ContentRead,
    leftForContent: nat,
    leftForRetry: nat,
    retrySettle: Settling,
    secondContent: ContentRead,
    leftForSecond: nat,
    url: Option<string>,
    urlHost: Option<string>,
    title: Option<string>,
    elapsed: nat,
    delivers: Stage -> seq<Response>)

  datatype Result = Result(
    success: bool,
    finalUrl: Option<string>,
    title: Option<string>,
    response: Option<string>,
    format: string,
    error: Option<string>,
    loadedMs: nat,
    waitTimedOut: bool,
    matchedRule: int,
    httpStatus: nat)

  datatype Outcome = Returned(result: Result) | Raised

  function FailureResult(error: string, finalUrl: Option<string>, loadedMs: nat, status: nat): Result {
    Result(false, finalUrl, None, None, "html", Some(error), loadedMs, false, -1, status)
  }

  /** The title, or for an untitled JSON document its host. */
  function TitleFor(title: Option<string>, finalUrl: Option<string>, host: Option<string>, isJson: bool): (shown: Option<string>)
    ensures title in {None, Some("")} && isJson && finalUrl !in {None, Some("")} && host !in {None, Some("")} ==> shown == host
    ensures title !in {None, Some("")} || !isJson || finalUrl in {None, Some("")} || host in {None, Some("")} ==> shown == title
  {
    if title.Some? && title.value != "" then title
    else if !isJson || finalUrl.None? || finalUrl.value == "" then title
    else if host.Some? && host.value != "" then host
    else title
  }

  // ----- The response listener -----------------------------------------------

  /** The last main-frame navigation among the responses. */
  function LastNavigation(seen: seq<Response>): (r: Option<Response>)
    ensures r.Some? ==> r.value.mainNavigation
  {
    if seen == [] then None
    else if seen[|seen| - 1].mainNavigation then Some(seen[|seen| - 1])
    else LastNavigation(seen[..|seen| - 1])
  }

  /** Its status, or 0. */
  function LastStatus(seen: seq<Response>): nat {
    if LastNavigation(seen).Some? then LastNavigation(seen).value.status else 0
  }

  lemma {:induction false} LastNavigationAppend(first: seq<Response>, second: seq<Response>)
    ensures LastNavigation(first + second) == if LastNavigation(second).Some? then LastNavigation(second) else LastNavigation(first)
  {
    if second == [] {
      assert first + second == first;
    } else {
      LastNavigationAppend(first, second[..|second| - 1]);
      assert (first + second)[..|first + second| - 1] == first + second[..|second| - 1];
    }
  }

  /** `on_response` and the two variables it closes over. */
  class Listener {
    var status: nat
    var mainResponse: Option<Response>
    ghost var seen: seq<Response>

    ghost predicate Valid()
      reads this
    {
      status == LastStatus(seen) && mainResponse == LastNavigation(seen)
    }

    constructor ()
      ensures Valid() && seen == []
    {
      status := 0;
      mainResponse := None;
      seen := [];
    }

    method OnResponse(response: Response)
      requires Valid()
      modifies this
      ensures Valid() && seen == old(seen) + [response]
    {
      if response.mainNavigation {
        status := response.status;
        mainResponse := Some(response);
      }
      seen := seen + [response];
      assert seen[..|seen| - 1] == old(seen);
    }

    method Deliver(batch: seq<Response>)
      requires Valid()
      modifies this
      ensures Valid() && seen == old(seen) + batch
    {
      for i := 0 to |batch|
        invariant Valid() && seen == old(seen) + batch[..i]
      {
        OnResponse(batch[i]);
        assert batch[..i + 1] == batch[..i] + [batch[i]];
      }
      assert batch[..|batch|] == batch;
    }
  }

  // ----- JSON bodies ---------------------------------------------------------

  /** `_json_from_viewer`: the first readable text that is not blank, or "". */
  function FromViewer(viewer: seq<Option<string>>): (text: string)
    ensures text != "" ==> Some(text) in viewer && !IsBlank(text)
  {
    if viewer == [] then ""
    else if viewer[0].Some? && !IsBlank(viewer[0].value) then viewer[0].value
    else FromViewer(viewer[1..])
  }

  function OrEmpty(text: Option<string>): string {
    if text.Some? then text.value else ""
  }

  /** `_raw_body_if_json`. */
  function RecoverJson(response: Option<Response>, viewer: seq<Option<string>>, refetch: Option<string>): (body: Option<string>)
    ensures body.Some? ==> response.Some? && response.value.contentType.Some? && IsJsonContentType(response.value.contentType.value)
    ensures body.Some? ==> 0 < |body.value| <= 20_000_000
  {
    if response.None? || response.value.contentType.None? || !IsJsonContentType(response.value.contentType.value) then None
    else
      var direct := if response.value.body.Some? then response.value.body.value else "";
      var shown := if direct == "" then FromViewer(viewer) else direct;
      var again := if shown == "" && refetch.Some? && !IsBlank(refetch.value) then refetch.value else shown;
      if again == "" then None else Some(Clip(again, MAX_HTML_CHARS))
  }

  function UnlessBlank(text: Option<string>): string {
    if text.Some? && !IsBlank(text.value) then text.value else ""
  }

  /** Where a JSON body is looked for, in order: the response, the viewer's nodes, another request. Blank texts from the last two are none. */
  function JsonSource(response: Response, viewer: seq<Option<string>>, refetch: Option<string>, i: nat): string
    requires i < |viewer| + 2
  {
    if i == 0 then OrEmpty(response.body)
    else if i <= |viewer| then UnlessBlank(viewer[i - 1])
    else UnlessBlank(refetch)
  }

  predicate NoSourceBefore(response: Response, viewer: seq<Option<string>>, refetch: Option<string>, i: nat)
    requires i <= |viewer| + 2
  {
    forall j: nat :: j < i ==> JsonSource(response, viewer, refetch, j) == ""
  }

  lemma {:induction false} ViewerGivesFirst(viewer: seq<Option<string>>, i: nat)
    requires i < |viewer| && forall j :: 0 <= j < i ==> UnlessBlank(viewer[j]) == ""
    requires UnlessBlank(viewer[i]) != ""
    ensures FromViewer(viewer) == UnlessBlank(viewer[i])
  {
    if i > 0 {
      assert UnlessBlank(viewer[0]) == "";
      ViewerGivesFirst(viewer[1..], i - 1);
    }
  }

  lemma {:induction false} ViewerGivesNothing(viewer: seq<Option<string>>)
    requires forall j :: 0 <= j < |viewer| ==> UnlessBlank(viewer[j]) == ""
    ensures FromViewer(viewer) == ""
  {
    if viewer != [] {
      assert UnlessBlank(viewer[0]) == "";
      ViewerGivesNothing(viewer[1..]);
    }
  }

  /** What the viewer gives if none of its first `count` nodes has text. */
  lemma ViewerWithout(response: Response, viewer: seq<Option<string>>, refetch: Option<string>, count: nat)
    requires count <= |viewer| && NoSourceBefore(response, viewer, refetch, count + 1)
    ensures forall j :: 0 <= j < count ==> UnlessBlank(viewer[j]) == ""
  {
    forall j | 0 <= j < count ensures UnlessBlank(viewer[j]) == "" {
      assert JsonSource(response, viewer, refetch, j + 1) == UnlessBlank(viewer[j]);
    }
  }

  /** The recovered body of a JSON document is the first text that its sources have, cut to the limit. */
  lemma RecoversFirstSource(response: Response, viewer: seq<Option<string>>, refetch: Option<string>, i: nat)
    requires response.contentType.Some? && IsJsonContentType(response.contentType.value)
    requires i < |viewer| + 2 && NoSourceBefore(response, viewer, refetch, i) && JsonSource(response, viewer, refetch, i) != ""
    ensures RecoverJson(Some(response), viewer, refetch) == Some(Clip(JsonSource(response, viewer, refetch, i), 20_000_000))
  {
    assert i > 0 ==> JsonSource(response, viewer, refetch, 0) == "";
    if 0 < i <= |viewer| {
      ViewerWithout(response, viewer, refetch, i - 1);
      ViewerGivesFirst(viewer, i - 1);
    } else if i > |viewer| {
      ViewerWithout(response, viewer, refetch, |viewer|);
      ViewerGivesNothing(viewer);
    }
  }

  lemma FirstSource(response: Response, viewer: seq<Option<string>>, refetch: Option<string>) returns (i: nat)
    ensures i <= |viewer| + 2 && NoSourceBefore(response, viewer, refetch, i)
    ensures i < |viewer| + 2 ==> JsonSource(response, viewer, refetch, i) != ""
  {
    i := 0;
    while i < |viewer| + 2 && JsonSource(response, viewer, refetch, i) == ""
      invariant i <= |viewer| + 2 && NoSourceBefore(response, viewer, refetch, i)
    {
      i := i + 1;
    }
  }

  /** There is no body only if no source has any text. */
  lemma RecoversUnlessAllBlank(response: Response, viewer: seq<Option<string>>, refetch: Option<string>)
    requires response.contentType.Some? && IsJsonContentType(response.contentType.value)
    ensures RecoverJson(Some(response), viewer, refetch).None? <==> NoSourceBefore(response, viewer, refetch, |viewer| + 2)
  {
    var i := FirstSource(response, viewer, refetch);
    if i < |viewer| + 2 {
      RecoversFirstSource(response, viewer, refetch, i);
    } else {
      ViewerWithout(response, viewer, refetch, |viewer|);
      ViewerGivesNothing(viewer);
      assert JsonSource(response, viewer, refetch, 0) == "" && JsonSource(response, viewer, refetch, |viewer| + 1) == "";
    }
  }

  // ----- The crawl -----------------------------------------------------------

  datatype Goto = Arrived | NavigationError(error: string) | GotoRaises

  function NavigationFailure(message: string): (g: Goto)
    ensures g.GotoRaises? <==> message == ""
  {
    match DescribeError(message)
    case None => GotoRaises
    case Some(error) => NavigationError(error)
  }

  /** The navigation, or its one retry, fails with an exception that has no text. */
  predicate NavigationRaises(page: Page) {
    || page.firstGoto == Some("")
    || (page.firstGoto.Some? && IsInterrupted(page.firstGoto.value) && page.leftAfterGoto >= 1000 && page.secondGoto == Some(""))
  }

  /** The navigation succeeds, or it is interrupted with a second left and its one retry does. */
  predicate NavigationArrives(page: Page) {
    page.firstGoto.None? || (IsInterrupted(page.firstGoto.value) && page.leftAfterGoto >= 1000 && page.secondGoto.None?)
  }

  /** The text of the exception that a failed navigation ends with. */
  function LastFailure(page: Page): string
    requires !NavigationArrives(page)
  {
    if IsInterrupted(page.firstGoto.value) && page.leftAfterGoto >= 1000 then page.secondGoto.value else page.firstGoto.value
  }

  /** `_goto`: one retry after an interruption, if there is a second left. */
  function GoTo(page: Page): (g: Goto)
    ensures g.Arrived? <==> NavigationArrives(page)
    ensures g.GotoRaises? <==> NavigationRaises(page)
    ensures g.NavigationError? ==> DescribeError(LastFailure(page)) == Some(g.error)
  {
    EmptyTextSaysNothing();
    if page.firstGoto.None? then Arrived
    else if !IsInterrupted(page.firstGoto.value) || page.leftAfterGoto < 1000 then NavigationFailure(page.firstGoto.value)
    else if page.secondGoto.None? then Arrived
    else NavigationFailure(page.secondGoto.value)
  }

  /** Four names and the empty text are modes; any other text is a selector to wait for. */
  predicate IsSelector(mode: string) {
    mode !in {"networkidle", "domcontentloaded", "stable", ""}
  }

  /** The wait of this mode runs out of time. */
  predicate TimedOut(mode: string, page: Page) {
    (mode == "networkidle" && page.idleTimesOut) || (IsSelector(mode) && page.selectorTimesOut)
  }

  /** The time for the probe: what the job asks for, or 800 ms, and no more than is left or 25 seconds. */
  function ProbeBudget(job: Job, page: Page): nat {
    Least(if job.detectMs > 0 then job.detectMs else 800, page.leftForProbe, 25000)
  }

  /** The rule the probe settles on for this job and page. */
  ghost predicate RuleMatches(job: Job, page: Page, matchedRule: int) {
    if job.waitRules == [] then matchedRule == -1
    else exists passes :: IsProbeAnswer(page.rendering, |job.waitRules|, ProbeBudget(job, page), matchedRule, passes)
  }

  lemma SameMatch(job: Job, page: Page, a: int, b: int)
    requires RuleMatches(job, page, a) && RuleMatches(job, page, b)
    ensures a == b
  {
    if job.waitRules != [] {
      var count, budget := |job.waitRules|, ProbeBudget(job, page);
      var m :| IsProbeAnswer(page.rendering, count, budget, a, m);
      var n :| IsProbeAnswer(page.rendering, count, budget, b, n);
      ProbeAnswerIsUnique(page.rendering, count, budget, a, m, b, n);
    }
  }

  /** That rule, as a function of the job and the page. */
  ghost function RuleFor(job: Job, page: Page): (rule: int)
    ensures -1 <= rule < |job.waitRules|
  {
    if exists rule :: RuleMatches(job, page, rule) then
      var rule :| RuleMatches(job, page, rule);
      rule
    else -1
  }

  /** The probe's answer being unique, whatever rule matches is that one. */
  lemma MatchIsUnique(job: Job, page: Page, rule: int)
    requires RuleMatches(job, page, rule)
    ensures rule == RuleFor(job, page)
  {
    SameMatch(job, page, rule, RuleFor(job, page));
  }

  /** The mode in which a crawl of this page for this job waits: the matched rule's, or failing one the job's. */
  ghost function ModeFor(job: Job, page: Page): string {
    if RuleFor(job, page) == -1 then job.waitFor else job.waitRules[RuleFor(job, page)].target
  }

  /** The raw JSON of the document the navigation arrived at, if it is JSON and can be had. */
  function RecoveredBody(page: Page): Option<string> {
    RecoverJson(LastNavigation(page.delivers(Navigating)), page.viewer, page.refetch)
  }

  /** A lost document is looked for once more if a navigation took it and half a second is left. */
  predicate Retries(page: Page) {
    && !page.firstContent.Content? && page.firstContent != ReadRaises("")
    && IsDestroyedContext(ReadError(page.firstContent, page.leftForContent)) && page.leftForRetry >= 500
  }

  /** The retry settles by default, within two seconds. */
  function RetrySettling(page: Page): Settling {
    page.retrySettle.(budget := Min(page.retrySettle.budget, 2000))
  }

  ghost predicate ExtractionRaises(page: Page) {
    || page.firstContent == ReadRaises("")
    || (Retries(page) && (SettleRaisesOn(0, RetrySettling(page)) || page.secondContent == ReadRaises("")))
  }

  /** The markup that extraction ends with, unless it raises. */
  function Markup(page: Page): Option<string> {
    if page.firstContent.Content? then Some(Clip(page.firstContent.text, 20_000_000))
    else if Retries(page) && page.secondContent.Content? then Some(Clip(page.secondContent.text, 20_000_000))
    else None
  }

  /** What the last page read of an extraction leaves in `_last_exec_error`. */
  ghost function LastReadError(page: Page): Option<string>
    requires !ExtractionRaises(page)
  {
    if page.firstContent.Content? then None
    else if !Retries(page) then ReadError(page.firstContent, page.leftForContent)
    else if page.secondContent.Content? then None
    else ReadError(page.secondContent, page.leftForSecond)
  }

  function Reason(error: Option<string>): string {
    if error.Some? && error.value != "" then error.value else "unknown"
  }

  /** The document a crawl of this page has to show: its JSON, failing that its markup, and not if it is blank. */
  ghost function Document(page: Page): (d: Option<string>)
    ensures d.Some? ==> !IsBlank(d.value) && |d.value| <= 20_000_000
  {
    var text := if RecoveredBody(page).Some? then RecoveredBody(page) else if ExtractionRaises(page) then None else Markup(page);
    if text.Some? && IsBlank(text.value) then None else text
  }

  /** The settle wait, where the mode has one, raises. */
  ghost predicate WaitRaises(mode: string, job: Job, page: Page) {
    && SettleRaisesOn(job.settleMs, page.settle)
    && (mode == "stable" || mode == "" || (IsSelector(mode) && !page.selectorTimesOut))
  }

  predicate Arrives(page: Page) {
    page.opening.PageOpen? && NavigationArrives(page)
  }

  /** What is in `_last_exec_error` after the wait: what a settle wait left, or still what was there before. */
  ghost predicate WaitLeaves(mode: string, job: Job, page: Page, before: Option<string>, error: Option<string>) {
    if mode == "stable" || mode == "" || (IsSelector(mode) && !page.selectorTimesOut) then SettleLeaves(job.settleMs, page.settle, error)
    else error == before
  }

  /** The job's wait phase ends without an exception. */
  ghost predicate WaitEnds(job: Job, page: Page) {
    !WaitRaises(ModeFor(job, page), job, page)
  }

  /** An await after the arrival lets an exception through. */
  ghost predicate CaptureRaises(job: Job, page: Page) {
    !WaitEnds(job, page) || (RecoveredBody(page).None? && ExtractionRaises(page))
  }

  // What the listener sees.

  /** What the page delivers during these stages. */
  function Delivered(page: Page, stages: seq<Stage>): seq<Response> {
    if stages == [] then []
    else Delivered(page, stages[..|stages| - 1]) + page.delivers(stages[|stages| - 1])
  }

  lemma {:induction false} DeliveredAppend(page: Page, first: seq<Stage>, second: seq<Stage>)
    ensures Delivered(page, first + second) == Delivered(page, first) + Delivered(page, second)
  {
    if second == [] {
      assert first + second == first;
    } else {
      var last := |second| - 1;
      DeliveredAppend(page, first, second[..last]);
      assert (first + second)[..|first + second| - 1] == first + second[..last];
    }
  }

  lemma DeliveredOne(page: Page, stage: Stage)
    ensures Delivered(page, [stage]) == page.delivers(stage)
  {
    assert Delivered(page, [stage][..0]) == [];
  }

  function ProbeStages(job: Job): seq<Stage> {
    if job.waitRules == [] then [] else [Probing]
  }

  function WaitStages(mode: string, page: Page): seq<Stage> {
    if mode == "domcontentloaded" then []
    else if mode == "stable" || mode == "" then [AwaitingQuiet]
    else if IsSelector(mode) && !page.selectorTimesOut then [Waiting, AwaitingQuiet]
    else [Waiting]
  }

  function ExtractStages(page: Page): seq<Stage> {
    if RecoveredBody(page).None? then [Extracting] else []
  }

  /** The stages of a crawl that arrives, up to the end of its wait. */
  ghost function StagesBeforeExtraction(job: Job, page: Page): seq<Stage> {
    [Navigating] + [ReadingJson] + ProbeStages(job) + WaitStages(ModeFor(job, page), page)
  }

  /** The stages a crawl goes through, up to the title. */
  ghost function StagesBeforeTitle(job: Job, page: Page): seq<Stage> {
    if !page.opening.PageOpen? then []
    else if NavigationRaises(page) then [Navigating]
    else if !NavigationArrives(page) then [Navigating] + [Draining]
    else StagesBeforeExtraction(job, page) + if WaitEnds(job, page) then ExtractStages(page) else []
  }

  ghost predicate ReadsTitle(job: Job, page: Page) {
    Arrives(page) && !CaptureRaises(job, page)
  }

  ghost function SeenBeforeTitle(job: Job, page: Page): seq<Response> {
    Delivered(page, StagesBeforeTitle(job, page))
  }

  /** Every response the listener sees in a crawl, in order. */
  ghost function Seen(job: Job, page: Page): seq<Response> {
    SeenBeforeTitle(job, page) + if ReadsTitle(job, page) then page.delivers(Titling) else []
  }

  lemma SeenAfterArrival(job: Job, page: Page)
    requires Arrives(page)
    ensures !WaitEnds(job, page) ==> Seen(job, page) == Delivered(page, StagesBeforeExtraction(job, page))
    ensures WaitEnds(job, page) ==>
              SeenBeforeTitle(job, page) == Delivered(page, StagesBeforeExtraction(job, page)) + Delivered(page, ExtractStages(page))
    ensures CaptureRaises(job, page) ==> Seen(job, page) == SeenBeforeTitle(job, page)
    ensures !CaptureRaises(job, page) ==> Seen(job, page) == SeenBeforeTitle(job, page) + page.delivers(Titling)
  {
    var stages := StagesBeforeExtraction(job, page);
    DeliveredAppend(page, stages, ExtractStages(page));
    assert stages + [] == stages;
    assert SeenBeforeTitle(job, page) + [] == SeenBeforeTitle(job, page);
  }

  lemma SeenWithoutArrival(job: Job, page: Page)
    requires !Arrives(page)
    ensures Seen(job, page) == SeenBeforeTitle(job, page)
    ensures !page.opening.PageOpen? ==> Seen(job, page) == []
    ensures page.opening.PageOpen? && NavigationRaises(page) ==> Seen(job, page) == Delivered(page, [Navigating])
    ensures page.opening.PageOpen? && !NavigationRaises(page) ==>
              Seen(job, page) == Delivered(page, [Navigating]) + Delivered(page, [Draining])
  {
    DeliveredAppend(page, [Navigating], [Draining]);
    assert SeenBeforeTitle(job, page) + [] == SeenBeforeTitle(job, page);
  }

  /** The crawl arrived, but there is no document to show. */
  ghost predicate LosesDocument(page: Page) {
    Arrives(page) && Document(page).None?
  }

  /** The status a result reports: a failed extraction's is taken before the title is read. */
  ghost function ReportedStatus(job: Job, page: Page): nat {
    LastStatus(if LosesDocument(page) then SeenBeforeTitle(job, page) else Seen(job, page))
  }

  /** No navigation, or one with this status, is the last during the title read. */
  predicate QuietTitle(page: Page, status: nat) {
    LastNavigation(page.delivers(Titling)).None? || LastNavigation(page.delivers(Titling)).value.status == status
  }

  /**
    The status of a failed extraction is that of the last main-frame navigation exactly if no
    navigation with another status is the last one to arrive while the title is read.
  */
  lemma LateNavigation(job: Job, page: Page)
    requires ReadsTitle(job, page) && LosesDocument(page)
    ensures ReportedStatus(job, page) == LastStatus(Seen(job, page)) <==> QuietTitle(page, ReportedStatus(job, page))
  {
    LastNavigationAppend(SeenBeforeTitle(job, page), page.delivers(Titling));
  }

  /** A result that means what its `success` says. */
  predicate Coherent(job: Job, r: Result) {
    if r.success then
      && r.response.Some? && !IsBlank(r.response.value) && |r.response.value| <= 20_000_000
      && r.error == None && r.format in {"html", "json"}
      && -1 <= r.matchedRule < |job.waitRules|
      && (r.waitTimedOut ==> r.matchedRule >= 0 || job.waitFor !in {"domcontentloaded", "stable", ""})
      && (r.waitTimedOut && r.matchedRule >= 0 ==> job.waitRules[r.matchedRule].target !in {"domcontentloaded", "stable", ""})
    else
      && r.response == None && r.error.Some? && r.error.value != ""
      && r.format == "html" && !r.waitTimedOut && r.matchedRule == -1
  }

  /** A failed extraction gives the error of its last page read. */
  ghost predicate ExplainsNoDocument(page: Page, error: string) {
    if RecoveredBody(page).None? && !ExtractionRaises(page) then error == "HTML extraction failed: " + Reason(LastReadError(page))
    else "HTML extraction failed: " <= error
  }

  /** A blank JSON body is explained by an error that has nothing to do with it: the wait's, or one left over from before. */
  ghost predicate BlankBodyError(job: Job, page: Page, before: Option<string>, r: Result) {
    exists error :: WaitLeaves(ModeFor(job, page), job, page, before, error)
                    && r.error == Some("HTML extraction failed: " + Reason(error))
  }

  function LaunchError(opening: Opening): string {
    "Failed to launch browser" + if opening.LaunchRaises? then ": " + opening.message else ""
  }

  /** What a result says about the page. */
  ghost predicate Reports(job: Job, page: Page, r: Result) {
    && r.loadedMs == page.elapsed
    && r.finalUrl == (if page.opening.PageOpen? then page.url else None)
    && (if r.success then
          && r.response == Document(page)
          && (r.format == "json" <==> RecoveredBody(page).Some?)
          && r.title == TitleFor(page.title, page.url, page.urlHost, r.format == "json")
          && r.matchedRule == RuleFor(job, page) && RuleMatches(job, page, r.matchedRule)
          && r.waitTimedOut == TimedOut(ModeFor(job, page), page)
        else
          && r.title == (if Arrives(page) then page.title else None)
          && r.error.Some?
          && (if !page.opening.PageOpen? then r.error.value == LaunchError(page.opening)
              else if Arrives(page) then ExplainsNoDocument(page, r.error.value)
              else DescribeError(LastFailure(page)) == r.error))
  }

  /** What a crawl of this page for this job can return: coherent, and saying of the page what is so. */
  ghost predicate CanReturn(job: Job, page: Page, r: Result) {
    Coherent(job, r) && Reports(job, page, r) && r.httpStatus == ReportedStatus(job, page)
  }

  lemma SuccessMeans(job: Job, page: Page, r: Result)
    requires Arrives(page) && Document(page).Some? && RuleMatches(job, page, RuleFor(job, page))
    requires r == Result(true, page.url, TitleFor(page.title, page.url, page.urlHost, RecoveredBody(page).Some?), Document(page),
                         if RecoveredBody(page).Some? then "json" else "html", None, page.elapsed,
                         TimedOut(ModeFor(job, page), page), RuleFor(job, page), r.httpStatus)
    ensures Coherent(job, r) && Reports(job, page, r)
  {
  }

  lemma FailureMeans(job: Job, page: Page, r: Result)
    requires Arrives(page) && r.error.Some? && ExplainsNoDocument(page, r.error.value)
    requires r == FailureResult(r.error.value, page.url, page.elapsed, r.httpStatus).(title := page.title)
    ensures Coherent(job, r) && Reports(job, page, r)
  {
  }

  lemma EarlyFailureMeans(job: Job, page: Page, error: string)
    requires !Arrives(page)
    requires if page.opening.PageOpen? then DescribeError(LastFailure(page)) == Some(error) else error == LaunchError(page.opening)
    ensures var finalUrl := if page.opening.PageOpen? then page.url else None;
            CanReturn(job, page, FailureResult(error, finalUrl, page.elapsed, LastStatus(Seen(job, page))))
  {
  }

  class Crawler {
    /** Why the last page read or script fell back; survives from job to job. */
    var lastExecError: Option<string>

    /** `_page_content`. The bool is true if it raised. */
    method ReadContent(read: ContentRead, budget: nat) returns (html: Option<string>, raised: bool)
      modifies this
      ensures raised <==> read == ReadRaises("")
      ensures html == if read.Content? then Some(read.text) else None
      ensures !raised ==> lastExecError == if read.Content? then None else ReadError(read, budget)
    {
      match read {
        case Content(text) =>
          lastExecError := None;
          return Some(text), false;
        case ReadTimesOut =>
          lastExecError := Some(TimedOutAfter(budget));
          return None, false;
        case ReadRaises(message) =>
          var line := FirstLine(message);
          if line.None? {
            return None, true;
          }
          lastExecError := Some(Clip(line.value, 200));
          return None, false;
      }
    }

    /** `_settle`, and what it leaves in `_last_exec_error`. */
    method AwaitSettle(settleMs: nat, input: Settling) returns (raised: bool)
      modifies this
      ensures raised <==> SettleRaisesOn(settleMs, input)
      ensures !raised ==> SettleLeaves(settleMs, input, lastExecError)
    {
      var end, _, _, _ := SettleWait(settleMs, input);
      if end.SettleRaises? {
        return true;
      }
      lastExecError := end.execError;
      return false;
    }

    /** An await during which the page delivers its responses. */
    method During(stage: Stage, page: Page, listener: Listener)
      requires listener.Valid()
      modifies listener
      ensures listener.Valid() && listener.seen == old(listener.seen) + Delivered(page, [stage])
    {
      DeliveredOne(page, stage);
      listener.Deliver(page.delivers(stage));
    }

    /** `_extract_html`: one retry if a navigation took the document away. */
    method ExtractHtml(page: Page) returns (html: Option<string>, raised: bool)
      modifies this
      ensures raised <==> ExtractionRaises(page)
      ensures !raised ==> html == Markup(page) && lastExecError == LastReadError(page)
    {
      html, raised := ReadContent(page.firstContent, page.leftForContent);
      if raised {
        return;
      }
      if html.Some? {
        return Some(Clip(html.value, MAX_HTML_CHARS)), false;
      }
      if !IsDestroyedContext(lastExecError) || page.leftForRetry < 500 {
        return None, false;
      }
      raised := AwaitSettle(0, page.retrySettle.(budget := if page.retrySettle.budget <= 2000 then page.retrySettle.budget else 2000));
      if raised {
        return None, true;
      }
      html, raised := ReadContent(page.secondContent, page.leftForSecond);
      if html.Some? {
        html := Some(Clip(html.value, MAX_HTML_CHARS));
      }
    }

    /** The wait phase. */
    method WaitFor(mode: string, job: Job, page: Page, listener: Listener) returns (timedOut: bool, raised: bool)
      requires listener.Valid()
      modifies this, listener
      ensures listener.Valid() && timedOut == TimedOut(mode, page) && raised == WaitRaises(mode, job, page)
      ensures listener.seen == old(listener.seen) + Delivered(page, WaitStages(mode, page))
      ensures !raised ==> WaitLeaves(mode, job, page, old(lastExecError), lastExecError)
    {
      DeliveredAppend(page, [Waiting], [AwaitingQuiet]);
      assert [Waiting] + [AwaitingQuiet] == [Waiting, AwaitingQuiet];
      timedOut, raised := false, false;
      match WaitBranch(mode) {
        case NetworkIdle =>
          During(Waiting, page, listener);
          timedOut := page.idleTimesOut;
        case QuietWait =>
          During(AwaitingQuiet, page, listener);
          raised := AwaitSettle(job.settleMs, page.settle);
        case SelectorWait =>
          During(Waiting, page, listener);
          timedOut := page.selectorTimesOut;
          if !timedOut {
            During(AwaitingQuiet, page, listener);
            raised := AwaitSettle(job.settleMs, page.settle);
          }
        case NoWait =>
      }
    }

    method ProbeFor(job: Job, page: Page, listener: Listener) returns (matchedRule: int)
      requires listener.Valid()
      modifies listener
      ensures listener.Valid() && listener.seen == old(listener.seen) + Delivered(page, ProbeStages(job))
      ensures RuleMatches(job, page, matchedRule) && matchedRule == RuleFor(job, page)
    {
      matchedRule := -1;
      if job.waitRules != [] {
        CapsOfWholeBudget(job.detectMs, page.leftForProbe);
        var budget := EffectiveDetectProbe(job.detectMs, Millis(page.leftForProbe as real));
        assert budget == ProbeBudget(job, page);
        var passes;
        matchedRule, passes := ProbeRules(page.rendering, |job.waitRules|, budget);
        During(Probing, page, listener);
      }
      MatchIsUnique(job, page, matchedRule);
    }

    /** The document to report, if there is one: the raw JSON or the extracted markup, unless it is blank. */
    method FindDocument(page: Page, rawJson: Option<string>, listener: Listener) returns (html: Option<string>, raised: bool)
      requires listener.Valid() && rawJson == RecoveredBody(page)
      modifies this, listener
      ensures listener.Valid() && listener.seen == old(listener.seen) + Delivered(page, ExtractStages(page))
      ensures raised <==> rawJson.None? && ExtractionRaises(page)
      ensures !raised ==> html == Document(page)
      ensures !raised ==> lastExecError == if rawJson.None? then LastReadError(page) else old(lastExecError)
    {
      html, raised := rawJson, false;
      if rawJson.None? {
        During(Extracting, page, listener);
        html, raised := ExtractHtml(page);
        if raised {
          return;
        }
      }
      if html.Some? && IsBlank(html.value) {
        html := None;
      }
    }

    /** The end of `_fetch`: the result, once it is known whether there is a document. */
    method Conclude(page: Page, html: Option<string>, isJson: bool, waitTimedOut: bool, matchedRule: int, listener: Listener)
      returns (r: Result)
      requires listener.Valid()
      modifies listener
      ensures listener.Valid() && listener.seen == old(listener.seen) + page.delivers(Titling)
      ensures r.httpStatus == LastStatus(if html.None? then old(listener.seen) else listener.seen)
      ensures html.Some? ==>
                r == Result(true, page.url, TitleFor(page.title, page.url, page.urlHost, isJson), html,
                            if isJson then "json" else "html", None, page.elapsed, waitTimedOut, matchedRule, r.httpStatus)
      ensures html.None? ==>
                r == FailureResult("HTML extraction failed: " + Reason(old(lastExecError)), page.url, page.elapsed, r.httpStatus).(title := page.title)
    {
      if html.None? {
        var reason := if lastExecError == None || lastExecError == Some("") then "unknown" else lastExecError.value;
        r := FailureResult("HTML extraction failed: " + reason, page.url, page.elapsed, listener.status);
        listener.Deliver(page.delivers(Titling));
        r := r.(title := page.title);
        return;
      }
      listener.Deliver(page.delivers(Titling));
      r := Result(
        true,
        page.url,
        TitleFor(page.title, page.url, page.urlHost, isJson),
        html,
        if isJson then "json" else "html",
        None,
        page.elapsed,
        waitTimedOut,
        matchedRule,
        listener.status);
    }

    /** `_fetch` between the arrival and the extraction: the raw JSON, the probe and the wait. */
    method AwaitPage(job: Job, page: Page, listener: Listener)
      returns (rawJson: Option<string>, matchedRule: int, timedOut: bool, raised: bool)
      requires listener.Valid() && listener.seen == Delivered(page, [Navigating]) && Arrives(page)
      modifies this, listener
      ensures listener.Valid() && listener.seen == Delivered(page, StagesBeforeExtraction(job, page))
      ensures rawJson == RecoveredBody(page) && raised == !WaitEnds(job, page)
      ensures RuleMatches(job, page, matchedRule) && matchedRule == RuleFor(job, page)
      ensures timedOut == TimedOut(ModeFor(job, page), page)
      ensures !raised ==> WaitLeaves(ModeFor(job, page), job, page, old(lastExecError), lastExecError)
    {
      ghost var stages := [Navigating];
      DeliveredOne(page, Navigating);
      rawJson := RecoverJson(listener.mainResponse, page.viewer, page.refetch);
      During(ReadingJson, page, listener);
      DeliveredAppend(page, stages, [ReadingJson]);
      stages := stages + [ReadingJson];
      matchedRule := ProbeFor(job, page, listener);
      DeliveredAppend(page, stages, ProbeStages(job));
      stages := stages + ProbeStages(job);
      var mode := if matchedRule >= 0 then job.waitRules[matchedRule].target else job.waitFor;
      timedOut, raised := WaitFor(mode, job, page, listener);
      DeliveredAppend(page, stages, WaitStages(mode, page));
    }

    /** `_fetch` from the arrival on. */
    method Capture(job: Job, page: Page, listener: Listener) returns (o: Outcome)
      requires listener.Valid() && listener.seen == Delivered(page, [Navigating]) && Arrives(page)
      modifies this, listener
      ensures listener.Valid() && listener.seen == Seen(job, page)
      ensures o.Raised? <==> CaptureRaises(job, page)
      ensures o.Returned? ==>
                CanReturn(job, page, o.result) && (o.result.success <==> Document(page).Some?)
      ensures o.Returned? && RecoveredBody(page).Some? && Document(page).None? ==>
                BlankBodyError(job, page, old(lastExecError), o.result)
    {
      SeenAfterArrival(job, page);
      var rawJson, matchedRule, waitTimedOut, raised := AwaitPage(job, page, listener);
      if raised {
        return Raised;
      }
      var html;
      html, raised := FindDocument(page, rawJson, listener);
      if raised {
        return Raised;
      }
      var r := Conclude(page, html, rawJson.Some?, waitTimedOut, matchedRule, listener);
      if html.Some? {
        SuccessMeans(job, page, r);
      } else {
        FailureMeans(job, page, r);
      }
      return Returned(r);
    }

    /** `_fetch` up to the arrival, and its outcome if it ends there. */
    method Arrive(job: Job, page: Page, listener: Listener) returns (early: Option<Outcome>)
      requires listener.Valid() && listener.seen == []
      modifies listener
      ensures listener.Valid() && (early.None? <==> Arrives(page))
      ensures listener.seen == if early.None? then Delivered(page, [Navigating]) else Seen(job, page)
      ensures early.Some? ==> (early.value.Raised? <==> page.opening.PageOpen? && NavigationRaises(page))
      ensures early.Some? && early.value.Returned? ==> CanReturn(job, page, early.value.result) && !early.value.result.success
    {
      if !Arrives(page) {
        SeenWithoutArrival(job, page);
      }
      match page.opening {
        case LaunchRaises(message) =>
          EarlyFailureMeans(job, page, "Failed to launch browser" + (": " + message));
          assert "Failed to launch browser" + (": " + message) == "Failed to launch browser: " + message;
          return Some(Returned(FailureResult("Failed to launch browser: " + message, None, page.elapsed, listener.status)));
        case NoPage =>
          EarlyFailureMeans(job, page, "Failed to launch browser");
          return Some(Returned(FailureResult("Failed to launch browser", None, page.elapsed, listener.status)));
        case PageOpen =>
      }
      var arrival := GoTo(page);
      During(Navigating, page, listener);
      if arrival.Arrived? {
        return None;
      }
      if arrival.GotoRaises? {
        return Some(Raised);
      }
      During(Draining, page, listener);
      EarlyFailureMeans(job, page, arrival.error);
      return Some(Returned(FailureResult(arrival.error, page.url, page.elapsed, listener.status)));
    }

    /**
      `_fetch`. A crawl succeeds exactly if the page opened, the navigation arrived, the wait phase
      ended without an exception and there is a document to show; it then reports that document
      and nothing else. It raises exactly in the awaits that let an exception through. The status
      is that of the last main-frame navigation seen, except that a failed extraction overlooks
      one that arrives while the title is read.
    */
    method Fetch(job: Job, page: Page, listener: Listener) returns (o: Outcome)
      requires listener.Valid() && listener.seen == []
      modifies this, listener
      ensures listener.Valid() && listener.seen == Seen(job, page)
      ensures o.Returned? ==> CanReturn(job, page, o.result)
      ensures o.Returned? && !LosesDocument(page) ==> o.result.httpStatus == LastStatus(listener.seen)
      ensures o.Returned? && LosesDocument(page) ==>
                (o.result.httpStatus == LastStatus(listener.seen) <==> QuietTitle(page, o.result.httpStatus))
      ensures o.Returned? && o.result.success <==> Arrives(page) && WaitEnds(job, page) && Document(page).Some?
      ensures o.Returned? && RecoveredBody(page).Some? && LosesDocument(page) ==> BlankBodyError(job, page, old(lastExecError), o.result)
      ensures o.Raised? <==> page.opening.PageOpen? && (NavigationRaises(page) || (Arrives(page) && CaptureRaises(job, page)))
    {
      var early := Arrive(job, page, listener);
      if early.Some? {
        return early.value;
      }
      o := Capture(job, page, listener);
      if o.Returned? && LosesDocument(page) {
        LateNavigation(job, page);
      }
    }
  }

  // ----- Crawls in which the code departs from its documentation ----------------

  const PLAIN_JOB: Job := Job("id", "http://a/", "domcontentloaded", 0, [], 0)

  const QUICK_SETTLE: Settling := Settling(0, Evaluated([], 0), Samples(i => ReadTimesOut, i => 0), text => 0)

  /** A page whose content cannot be read, and which navigates once more while its title is. */
  const MOVING_PAGE: Page :=
    Page(PageOpen, None, 0, None, [], None, Rendering((p, i) => Hidden, p => 0), 0, false, false,
         QUICK_SETTLE, ReadTimesOut, 0, 0, QUICK_SETTLE, ReadTimesOut, 0, None, None, None, 0,
         stage => if stage == Navigating then [Response(true, 200, None, None)]
                  else if stage == Titling then [Response(true, 404, None, None)]
                  else [])

  lemma MovingPageLosesDocument()
    ensures LosesDocument(MOVING_PAGE) && ReadsTitle(PLAIN_JOB, MOVING_PAGE)
    ensures StagesBeforeTitle(PLAIN_JOB, MOVING_PAGE) == [Navigating, ReadingJson, Extracting]
  {
    assert RuleFor(PLAIN_JOB, MOVING_PAGE) == -1 && ModeFor(PLAIN_JOB, MOVING_PAGE) == "domcontentloaded";
    assert RecoveredBody(MOVING_PAGE).None?;
  }

  /** A crawl that reports status 200 although the last main-frame navigation it saw had status 404. */
  lemma MovingPageStatus()
    ensures Arrives(MOVING_PAGE) && !CaptureRaises(PLAIN_JOB, MOVING_PAGE)
    ensures ReportedStatus(PLAIN_JOB, MOVING_PAGE) == 200 && LastStatus(Seen(PLAIN_JOB, MOVING_PAGE)) == 404
  {
    MovingPageLosesDocument();
    DeliveredOne(MOVING_PAGE, Navigating);
    DeliveredAppend(MOVING_PAGE, [Navigating], [ReadingJson]);
    DeliveredOne(MOVING_PAGE, ReadingJson);
    DeliveredAppend(MOVING_PAGE, [Navigating] + [ReadingJson], [Extracting]);
    DeliveredOne(MOVING_PAGE, Extracting);
    assert [Navigating] + [ReadingJson] + [Extracting] == [Navigating, ReadingJson, Extracting];
    assert SeenBeforeTitle(PLAIN_JOB, MOVING_PAGE) == [Response(true, 200, None, None)];
    LastNavigationAppend(SeenBeforeTitle(PLAIN_JOB, MOVING_PAGE), MOVING_PAGE.delivers(Titling));
  }

  /** Pages on which a crawl raises: the navigation, or the page read, fails with an exception without text. */
  lemma EmptyTextRaises()
    ensures var page := MOVING_PAGE.(firstGoto := Some("")); page.opening.PageOpen? && NavigationRaises(page)
    ensures var page := MOVING_PAGE.(firstContent := ReadRaises("")); Arrives(page) && CaptureRaises(PLAIN_JOB, page)
  {
    assert RecoveredBody(MOVING_PAGE.(firstContent := ReadRaises(""))).None?;
  }

  // ----- The result frame ----------------------------------------------------

  predicate Truthy(value: Json) {
    match value
    case Null => false
    case Bool(b) => b
    case Int(i) => i != 0
    case Real(r) => r != 0.0
    case NonFinite => true
    case Str(s) => s != ""
    case Arr(items) => items != []
    case Obj(fields) => fields != map[]
  }

  /** The keys of a result, in a crawl's dict and on the wire; `Body` is the key "response". */
  datatype Field =
    | Type | JobId | Success | FinalUrl | Title | Body | Format | Error
    | LoadedMs | WaitTimedOut | MatchedRule | HttpStatus

  function OrNull(text: Option<string>): Json {
    if text.Some? then Str(text.value) else Null
  }

  /** The dict a crawl's result is. */
  function ResultDict(r: Result): map<Field, Json> {
    map key: Field | key != Type && key != JobId :: ResultEntry(r, key)
  }

  function ResultEntry(r: Result, key: Field): Json
    requires key != Type && key != JobId
  {
    match key
    case Success => Bool(r.success)
    case FinalUrl => OrNull(r.finalUrl)
    case Title => OrNull(r.title)
    case Body => OrNull(r.response)
    case Format => Str(r.format)
    case Error => OrNull(r.error)
    case LoadedMs => Int(r.loadedMs)
    case WaitTimedOut => Bool(r.waitTimedOut)
    case MatchedRule => Int(r.matchedRule)
    case HttpStatus => Int(r.httpStatus)
  }

  /** The short dict the gateway sends for a job that never reached the browser, or failed in it. */
  function RefusalDict(error: string): map<Field, Json> {
    map[Success := Bool(false), Error := Str(error)]
  }

  function GetOr(dict: map<Field, Json>, key: Field, default: Json): Json {
    if key in dict then dict[key] else default
  }

  function Lookup(dict: map<Field, Json>, key: Field): Json {
    GetOr(dict, key, Null)
  }

  /** `build_result`: one entry for every key. */
  function BuildResult(jobId: string, dict: map<Field, Json>): map<Field, Json> {
    map key: Field :: FrameEntry(jobId, dict, key)
  }

  function FrameEntry(jobId: string, dict: map<Field, Json>, key: Field): Json {
    match key
    case Type => Str("result")
    case JobId => Str(jobId)
    case Success => Bool(Truthy(Lookup(dict, Success)))
    case FinalUrl => Lookup(dict, FinalUrl)
    case Title => Lookup(dict, Title)
    case Body => Lookup(dict, Body)
    case Format => if Truthy(Lookup(dict, Format)) then Lookup(dict, Format) else Str("html")
    case Error => Lookup(dict, Error)
    case LoadedMs => Lookup(dict, LoadedMs)
    case WaitTimedOut => Bool(Truthy(GetOr(dict, WaitTimedOut, Bool(false))))
    case MatchedRule => GetOr(dict, MatchedRule, Int(-1))
    case HttpStatus => GetOr(dict, HttpStatus, Int(0))
  }

  /** A result frame with every field, of the wire's types, and coherent. */
  predicate FrameCoherent(frame: map<Field, Json>, ruleCount: nat) {
    && (forall key: Field :: key in frame)
    && frame[Success].Bool? && frame[WaitTimedOut].Bool? && frame[MatchedRule].Int? && frame[HttpStatus].Int?
    && -1 <= frame[MatchedRule].i < ruleCount
    && 0 <= frame[HttpStatus].i
    && (if frame[Success].b then
          && frame[Body].Str? && !IsBlank(frame[Body].s) && |frame[Body].s| <= 20_000_000
          && frame[Error] == Null && frame[Format] in {Str("html"), Str("json")}
        else
          && frame[Body] == Null && frame[Error].Str? && frame[Error].s != ""
          && frame[Format] == Str("html") && frame[WaitTimedOut] == Bool(false) && frame[MatchedRule] == Int(-1))
  }

  /** A crawl's dict has every key, of the wire's type, so the frame takes it over unchanged. */
  lemma FrameRepeats(jobId: string, r: Result, key: Field)
    requires key in ResultDict(r) && (key == Format ==> r.format != "")
    ensures BuildResult(jobId, ResultDict(r))[key] == ResultDict(r)[key]
  {
    assert Lookup(ResultDict(r), key) == ResultEntry(r, key);
  }

  /** The wire's value for a text that may be missing. */
  predicate IsTextOrNull(value: Json, text: Option<string>) {
    match text
    case None => value == Null
    case Some(t) => value == Str(t)
  }

  /** The frame of this job tells each field of the result under its own key. */
  predicate Tells(frame: map<Field, Json>, jobId: string, r: Result) {
    && (forall key: Field :: key in frame)
    && frame[Type] == Str("result") && frame[JobId] == Str(jobId)
    && frame[Success] == Bool(r.success)
    && IsTextOrNull(frame[FinalUrl], r.finalUrl) && IsTextOrNull(frame[Title], r.title)
    && IsTextOrNull(frame[Body], r.response) && frame[Format] == Str(if r.format == "" then "html" else r.format)
    && IsTextOrNull(frame[Error], r.error)
    && frame[LoadedMs] == Int(r.loadedMs) && frame[WaitTimedOut] == Bool(r.waitTimedOut)
    && frame[MatchedRule] == Int(r.matchedRule) && frame[HttpStatus] == Int(r.httpStatus)
  }

  lemma KeyByKey(frame: map<Field, Json>, jobId: string, r: Result)
    requires (forall key: Field :: key in frame) && frame[Type] == Str("result") && frame[JobId] == Str(jobId)
    requires frame[Format] == Str(if r.format == "" then "html" else r.format)
    requires forall key :: key !in {Type, JobId, Format} ==> frame[key] == ResultEntry(r, key)
    ensures Tells(frame, jobId, r)
  {
    assert frame[Success] == Bool(r.success) && frame[Body] == OrNull(r.response);
    assert frame[FinalUrl] == OrNull(r.finalUrl) && frame[Title] == OrNull(r.title);
    assert frame[Error] == OrNull(r.error);
    assert frame[LoadedMs] == Int(r.loadedMs) && frame[WaitTimedOut] == Bool(r.waitTimedOut);
    assert frame[MatchedRule] == Int(r.matchedRule) && frame[HttpStatus] == Int(r.httpStatus);
  }

  /** Every result is told as it is, with "html" for an empty format. */
  lemma FrameTells(jobId: string, r: Result)
    ensures Tells(BuildResult(jobId, ResultDict(r)), jobId, r)
  {
    var frame := BuildResult(jobId, ResultDict(r));
    forall key | key !in {Type, JobId, Format} ensures frame[key] == ResultEntry(r, key) {
      FrameRepeats(jobId, r, key);
    }
    assert Lookup(ResultDict(r), Format) == ResultEntry(r, Format);
    KeyByKey(frame, jobId, r);
  }

  lemma ToldCoherently(frame: map<Field, Json>, jobId: string, job: Job, r: Result)
    requires Coherent(job, r) && Tells(frame, jobId, r)
    ensures FrameCoherent(frame, |job.waitRules|)
  {
  }

  /** A coherent crawl result becomes a coherent frame that tells the same. */
  lemma CrawlFrame(jobId: string, job: Job, r: Result)
    requires Coherent(job, r)
    ensures FrameCoherent(BuildResult(jobId, ResultDict(r)), |job.waitRules|)
    ensures Tells(BuildResult(jobId, ResultDict(r)), jobId, r)
  {
    FrameTells(jobId, r);
    ToldCoherently(BuildResult(jobId, ResultDict(r)), jobId, job, r);
  }

  /** The frame of a job that failed with this error and of which nothing else is known. */
  predicate TellsOnly(frame: map<Field, Json>, jobId: string, error: string) {
    && (forall key: Field :: key in frame)
    && frame[Type] == Str("result") && frame[JobId] == Str(jobId)
    && frame[Success] == Bool(false) && frame[Error] == Str(error)
    && frame[FinalUrl] == Null && frame[Title] == Null && frame[Body] == Null && frame[LoadedMs] == Null
    && frame[Format] == Str("html") && frame[WaitTimedOut] == Bool(false)
    && frame[MatchedRule] == Int(-1) && frame[HttpStatus] == Int(0)
  }

  /** So does the short dict of every refusal and worker error, with a default for what it does not name. */
  lemma RefusalFrame(jobId: string, error: string, ruleCount: nat)
    ensures TellsOnly(BuildResult(jobId, RefusalDict(error)), jobId, error)
    ensures error != "" ==> FrameCoherent(BuildResult(jobId, RefusalDict(error)), ruleCount)
  {
  }
}
