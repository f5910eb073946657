/**
  What the worker says on the wire: the result frames that the jobs of a run hand to the socket,
  from the fetch frame that created the job to the crawl or refusal that answers it.
*/
module Replies {
  import opened Options
  import opened FetchSpec
  import opened GatewayModel
  import opened GatewayRuns
  import opened JobGuard
  import Crawl
  import Urls

  const PRIVATE_HOST_ERROR := "Private, loopback, and link-local addresses are not allowed"

  /** By event: the page a returned crawl met, the result it gave, and the text of a library's exception. */
  datatype Payloads = Payloads(pages: nat -> Crawl.Page, results: nat -> Crawl.Result, details: nat -> string)

  type Frame = map<Crawl.Field, Json>

  /** A frame handed to the socket, and the task that did it. */
  datatype Sent = Sent(task: nat, frame: Frame)

  /** The reply with which a segment of a task calls `_send`, if it does. */
  function ReplyOf(s: State, how: TaskEvent): Option<Reply> {
    match how
    case Begins(url) =>
      if s.pending >= 3 then Some(Busy) else if url.ValidUrl? then None else Some(Failure)
    case Screened(private) => if private then Some(Failure) else None
    case CrawlReturns => Some(Crawled)
    case Raises => Some(Failure)
    case SendReturns => None
    case CancelDelivered => None
    case Discarded => None
  }

  /** The error text of a refused URL. */
  function RefusalText(why: Urls.Refusal, detail: string): (text: string)
    ensures text != ""
  {
    match why
    case EmptyUrl => "URL cannot be empty"
    case ForbiddenProtocol(prefix) => "Protocol " + prefix + " is not allowed"
    case MalformedUrl => "Invalid URL: " + detail
    case OtherScheme(scheme) => "Only http and https are allowed, got: " + scheme + ":"
    case NoHostname => "URL must have a hostname"
    case PrivateAddress => PRIVATE_HOST_ERROR
  }

  function FailureText(job: Job, how: TaskEvent, world: World, detail: string): (text: string)
    ensures text != ""
  {
    if how.Screened? then PRIVATE_HOST_ERROR
    else if how.Begins? && Check(job, world).Refused? then RefusalText(Check(job, world).why, detail)
    else "Worker error: " + detail
  }

  /** The dict that `_send` is called with. */
  function DictOf(job: Job, how: TaskEvent, reply: Reply, world: World, payloads: Payloads, k: nat): Frame {
    match reply
    case Busy => Crawl.RefusalDict("Worker busy")
    case Failure => Crawl.RefusalDict(FailureText(job, how, world, payloads.details(k)))
    case Crawled => Crawl.ResultDict(payloads.results(k))
  }

  /** The frame that the k-th event of a run hands to the socket, if it hands one. */
  function SentAt(run: seq<Timed>, world: World, payloads: Payloads, k: nat): Option<Sent>
    requires k < |run|
  {
    var s, e := Before(run, k), run[k].event;
    if Happens(run, k) && e.OfTask? && ReplyOf(s, e.how).Some? && s.socket.Some? then
      var job := s.tasks[e.task].job;
      Some(Sent(e.task, Crawl.BuildResult(job.jobId, DictOf(job, e.how, ReplyOf(s, e.how).value, world, payloads, k))))
    else None
  }

  /** All of them, in order. */
  function Frames(run: seq<Timed>, world: World, payloads: Payloads): seq<Sent> {
    if run == [] then []
    else
      var last := SentAt(run, world, payloads, |run| - 1);
      Frames(run[..|run| - 1], world, payloads) + if last.Some? then [last.value] else []
  }

  /** The job as it is crawled: with the checked URL in place of its own. */
  function CrawledJob(job: Job, world: World): Job {
    if Verdict(job, world).ValidUrl? then job.(url := CrawledUrl(job, world)) else job
  }

  /** The result with which a crawl of task i returns at the k-th event is one that the crawl of its page can return. */
  ghost predicate ReturnsAt(run: seq<Timed>, world: World, payloads: Payloads, k: nat)
    requires k < |run|
  {
    var s, e := Before(run, k), run[k].event;
    Happens(run, k) && e.OfTask? && e.how == CrawlReturns ==>
      Crawl.CanReturn(CrawledJob(s.tasks[e.task].job, world), payloads.pages(k), payloads.results(k))
  }

  ghost predicate CrawlsReturn(run: seq<Timed>, world: World, payloads: Payloads) {
    forall k: nat :: k < |run| ==> ReturnsAt(run, world, payloads, k)
  }

  // ----- One send per task ---------------------------------------------------

  lemma SendCounts(s: State, i: nat, reply: Reply)
    requires i < |s.tasks|
    ensures i < |Send(s, i, reply).tasks| && Send(s, i, reply).tasks[i].sends == s.tasks[i].sends + 1
  {
  }

  lemma StepCountsSends(s: State, i: nat, how: TaskEvent)
    requires TaskEnabled(s, i, how)
    ensures i < |FireTask(s, i, how).tasks|
    ensures FireTask(s, i, how).tasks[i].sends == s.tasks[i].sends + One(ReplyOf(s, how).Some?)
  {
    match how
    case Begins(url) => SendCounts(s, i, Busy); SendCounts(s.(pending := s.pending + 1), i, Failure);
    case Screened(_) => SendCounts(s, i, Failure);
    case CrawlReturns => SendCounts(s, i, Crawled);
    case Raises => SendCounts(s, i, Failure);
    case SendReturns =>
    case CancelDelivered =>
    case Discarded =>
  }

  /** A task that calls `_send` has not called it before. */
  lemma SendsOnce(run: seq<Timed>, k: nat)
    requires k < |run| && Happens(run, k) && run[k].event.OfTask? && ReplyOf(Before(run, k), run[k].event.how).Some?
    ensures run[k].event.task < |Before(run, k).tasks| && Before(run, k).tasks[run[k].event.task].sends == 0
  {
    JobsHold(run[..k]);
    assert SendsFit(Before(run, k).tasks[run[k].event.task]);
  }

  lemma SendsStay(run: seq<Timed>, i: nat)
    requires run != [] && i < |Before(run, |run| - 1).tasks|
    ensures i < |Exec(INITIAL, run).tasks|
    ensures Exec(INITIAL, run).tasks[i].sends >= Before(run, |run| - 1).tasks[i].sends
    ensures SentByLast(run, i) ==> Exec(INITIAL, run).tasks[i].sends >= 1
  {
    var last := |run| - 1;
    var s, e := Before(run, last), run[last];
    if Happens(run, last) && e.event.OfTask? && e.event.task == i {
      StepCountsSends(s.(now := e.time), i, e.event.how);
    } else {
      LastKeepsTask(run, i);
    }
  }

  /** The last event is a call of `_send` by task i. */
  predicate SentByLast(run: seq<Timed>, i: nat)
    requires run != []
  {
    var last := |run| - 1;
    Happens(run, last) && run[last].event.OfTask? && run[last].event.task == i && ReplyOf(Before(run, last), run[last].event.how).Some?
  }

  predicate HasSent(run: seq<Timed>, i: nat) {
    i < |Exec(INITIAL, run).tasks| && Exec(INITIAL, run).tasks[i].sends >= 1
  }

  lemma {:induction false} FramesAreSends(run: seq<Timed>, world: World, payloads: Payloads)
    ensures forall n :: 0 <= n < |Frames(run, world, payloads)| ==> HasSent(run, Frames(run, world, payloads)[n].task)
  {
    if run != [] {
      var last := |run| - 1;
      var front := Frames(run[..last], world, payloads);
      FramesAreSends(run[..last], world, payloads);
      var frames := Frames(run, world, payloads);
      forall n | 0 <= n < |frames| ensures HasSent(run, frames[n].task) {
        if n < |front| {
          assert HasSent(run[..last], front[n].task);
        } else {
          SendsOnce(run, last);
        }
        SendsStay(run, frames[n].task);
      }
    }
  }

  predicate Distinct(frames: seq<Sent>) {
    forall m, n :: 0 <= m < n < |frames| ==> frames[m].task != frames[n].task
  }

  lemma NotSentBefore(run: seq<Timed>, world: World, payloads: Payloads, n: nat)
    requires run != [] && SentAt(run, world, payloads, |run| - 1).Some?
    requires n < |Frames(run[..|run| - 1], world, payloads)|
    ensures Frames(run[..|run| - 1], world, payloads)[n].task != SentAt(run, world, payloads, |run| - 1).value.task
  {
    var last := |run| - 1;
    SendsOnce(run, last);
    FramesAreSends(run[..last], world, payloads);
    assert HasSent(run[..last], Frames(run[..last], world, payloads)[n].task);
  }

  /** No job gets two result frames. */
  lemma {:induction false} FramesAreDistinct(run: seq<Timed>, world: World, payloads: Payloads)
    ensures Distinct(Frames(run, world, payloads))
  {
    if run != [] {
      var front := Frames(run[..|run| - 1], world, payloads);
      FramesAreDistinct(run[..|run| - 1], world, payloads);
      if SentAt(run, world, payloads, |run| - 1).Some? {
        forall n | 0 <= n < |front| ensures front[n].task != SentAt(run, world, payloads, |run| - 1).value.task {
          NotSentBefore(run, world, payloads, n);
        }
      }
    }
  }

  // ----- What the frames say -------------------------------------------------

  /** A frame answers a job: complete, coherent for its rules, and with its id. */
  predicate Answers(frame: Frame, job: Job) {
    Crawl.FrameCoherent(frame, |job.waitRules|) && frame[Crawl.JobId] == Str(job.jobId)
  }

  predicate ClaimsSuccess(frame: Frame) {
    Crawl.Success in frame && frame[Crawl.Success] == Bool(true)
  }

  lemma RefusalAnswers(job: Job, error: string)
    requires error != ""
    ensures var frame := Crawl.BuildResult(job.jobId, Crawl.RefusalDict(error)); Answers(frame, job) && !ClaimsSuccess(frame)
  {
    Crawl.RefusalFrame(job.jobId, error, |job.waitRules|);
  }

  lemma CrawlAnswers(job: Job, world: World, page: Crawl.Page, r: Crawl.Result)
    requires Crawl.CanReturn(CrawledJob(job, world), page, r)
    ensures Answers(Crawl.BuildResult(job.jobId, Crawl.ResultDict(r)), job)
  {
    Crawl.CrawlFrame(job.jobId, CrawledJob(job, world), r);
  }

  lemma DictAnswers(job: Job, how: TaskEvent, reply: Reply, world: World, payloads: Payloads, k: nat)
    requires reply == Crawled ==> Crawl.CanReturn(CrawledJob(job, world), payloads.pages(k), payloads.results(k))
    ensures var frame := Crawl.BuildResult(job.jobId, DictOf(job, how, reply, world, payloads, k));
            Answers(frame, job) && (ClaimsSuccess(frame) ==> reply == Crawled)
  {
    match reply
    case Busy => RefusalAnswers(job, "Worker busy");
    case Failure => RefusalAnswers(job, FailureText(job, how, world, payloads.details(k)));
    case Crawled => CrawlAnswers(job, world, payloads.pages(k), payloads.results(k));
  }

  /** The frame answers the job of its task, and claims success only after that task's crawl returned. */
  ghost predicate AnswersItsJob(run: seq<Timed>, sent: Sent) {
    && sent.task < |JobsOf(run)|
    && Answers(sent.frame, JobsOf(run)[sent.task])
    && (ClaimsSuccess(sent.frame) ==> CrawlReturned(run, sent.task))
  }

  lemma AnswersStill(run: seq<Timed>, sent: Sent)
    requires run != [] && AnswersItsJob(run[..|run| - 1], sent)
    ensures AnswersItsJob(run, sent)
  {
    DoingsExtend(run, sent.task, CrawlReturns);
  }

  lemma SentFrame(run: seq<Timed>, world: World, payloads: Payloads, k: nat)
    requires k < |run| && SentAt(run, world, payloads, k).Some?
    ensures Happens(run, k) && run[k].event.OfTask? && run[k].event.task < |Before(run, k).tasks|
    ensures ReplyOf(Before(run, k), run[k].event.how).Some?
    ensures ReplyOf(Before(run, k), run[k].event.how) == Some(Crawled) ==> run[k].event.how == CrawlReturns
    ensures var s, i, how := Before(run, k), run[k].event.task, run[k].event.how;
            var job := s.tasks[i].job;
            SentAt(run, world, payloads, k).value
            == Sent(i, Crawl.BuildResult(job.jobId, DictOf(job, how, ReplyOf(s, how).value, world, payloads, k)))
  {
  }

  lemma ReturnedHere(run: seq<Timed>, world: World, payloads: Payloads, k: nat)
    requires k < |run| && ReturnsAt(run, world, payloads, k)
    requires Happens(run, k) && run[k].event.OfTask? && run[k].event.how == CrawlReturns
    ensures run[k].event.task < |Before(run, k).tasks|
    ensures Crawl.CanReturn(CrawledJob(Before(run, k).tasks[run[k].event.task].job, world), payloads.pages(k), payloads.results(k))
  {
  }

  // ----- Why a frame says what it says -----------------------------------------

  /** The error text for this refusal; of a malformed URL it goes on with the library's own words. */
  predicate Names(text: string, why: Urls.Refusal, detail: string) {
    match why
    case EmptyUrl => text == "URL cannot be empty"
    case ForbiddenProtocol(prefix) => text == "Protocol " + prefix + " is not allowed"
    case MalformedUrl => text == "Invalid URL: " + detail
    case OtherScheme(scheme) => text == "Only http and https are allowed, got: " + scheme + ":"
    case NoHostname => text == "URL must have a hostname"
    case PrivateAddress => text == "Private, loopback, and link-local addresses are not allowed"
  }

  /** The frame with which a segment of a job's task answers, when so many jobs are running. */
  ghost predicate Explains(frame: Frame, job: Job, running: int, how: TaskEvent, world: World, payloads: Payloads, k: nat) {
    match how
    case Begins(_) =>
      if running == 3 then Crawl.TellsOnly(frame, job.jobId, "Worker busy")
      else if Check(job, world).Refused? then
        exists text :: Names(text, Check(job, world).why, payloads.details(k)) && Crawl.TellsOnly(frame, job.jobId, text)
      else Check(job, world).CheckRaises? && Crawl.TellsOnly(frame, job.jobId, "Worker error: " + payloads.details(k))
    case Screened(_) =>
      ResolvesPrivately(job, world, k)
      && Crawl.TellsOnly(frame, job.jobId, "Private, loopback, and link-local addresses are not allowed")
    case Raises => Crawl.TellsOnly(frame, job.jobId, "Worker error: " + payloads.details(k))
    case CrawlReturns =>
      && Verdict(job, world).ValidUrl?
      && Crawl.CanReturn(job.(url := CrawledUrl(job, world)), payloads.pages(k), payloads.results(k))
      && Crawl.Tells(frame, job.jobId, payloads.results(k))
    case SendReturns => false
    case CancelDelivered => false
    case Discarded => false
  }

  lemma BusyExplains(job: Job, url: UrlVerdict, world: World, payloads: Payloads, k: nat)
    ensures Explains(Crawl.BuildResult(job.jobId, DictOf(job, Begins(url), Busy, world, payloads, k)), job, 3, Begins(url), world, payloads, k)
  {
    Crawl.RefusalFrame(job.jobId, "Worker busy", 0);
  }

  lemma RefusalExplains(job: Job, running: int, url: UrlVerdict, world: World, payloads: Payloads, k: nat)
    requires running < 3 && url == Verdict(job, world) != ValidUrl
    ensures Explains(Crawl.BuildResult(job.jobId, DictOf(job, Begins(url), Failure, world, payloads, k)), job, running, Begins(url), world, payloads, k)
  {
    var text := FailureText(job, Begins(url), world, payloads.details(k));
    Crawl.RefusalFrame(job.jobId, text, 0);
    assert Check(job, world).Refused? ==> Names(text, Check(job, world).why, payloads.details(k));
  }

  lemma FailureExplains(job: Job, running: int, how: TaskEvent, world: World, payloads: Payloads, k: nat)
    requires how.Raises? || (how.Screened? && ResolvesPrivately(job, world, k))
    ensures Explains(Crawl.BuildResult(job.jobId, DictOf(job, how, Failure, world, payloads, k)), job, running, how, world, payloads, k)
  {
    Crawl.RefusalFrame(job.jobId, FailureText(job, how, world, payloads.details(k)), 0);
  }

  lemma CrawlExplains(job: Job, running: int, world: World, payloads: Payloads, k: nat)
    requires Verdict(job, world).ValidUrl?
    requires Crawl.CanReturn(CrawledJob(job, world), payloads.pages(k), payloads.results(k))
    ensures Explains(Crawl.BuildResult(job.jobId, DictOf(job, CrawlReturns, Crawled, world, payloads, k)), job, running, CrawlReturns, world, payloads, k)
  {
    Crawl.CrawlFrame(job.jobId, CrawledJob(job, world), payloads.results(k));
  }

  lemma SegmentExplains(job: Job, s: State, how: TaskEvent, world: World, payloads: Payloads, k: nat)
    requires s.pending <= 3 && ReplyOf(s, how).Some?
    requires how.Begins? && s.pending < 3 ==> how.url == Verdict(job, world)
    requires how.Screened? ==> ResolvesPrivately(job, world, k)
    requires how.CrawlReturns? ==>
               Verdict(job, world).ValidUrl? && Crawl.CanReturn(CrawledJob(job, world), payloads.pages(k), payloads.results(k))
    ensures Explains(Crawl.BuildResult(job.jobId, DictOf(job, how, ReplyOf(s, how).value, world, payloads, k)), job, s.pending, how, world, payloads, k)
  {
    match how
    case Begins(url) =>
      if s.pending == 3 {
        BusyExplains(job, url, world, payloads, k);
      } else {
        RefusalExplains(job, s.pending, url, world, payloads, k);
      }
    case Screened(_) => FailureExplains(job, s.pending, how, world, payloads, k);
    case Raises => FailureExplains(job, s.pending, how, world, payloads, k);
    case CrawlReturns => CrawlExplains(job, s.pending, world, payloads, k);
  }

  /**
    In every guarded run each frame gives its reason: "Worker busy" exactly while three jobs are
    running, otherwise the refusal of the job's own URL, the private address it resolves to, the
    exception, or all that the crawl returned.
  */
  lemma FramesGiveReasons(run: seq<Timed>, world: World, payloads: Payloads, k: nat)
    requires IsGuarded(run, world) && CrawlsReturn(run, world, payloads)
    requires k < |run| && SentAt(run, world, payloads, k).Some?
    ensures run[k].event.OfTask? && run[k].event.task < |Before(run, k).tasks| && SentAt(run, world, payloads, k).value.task == run[k].event.task
    ensures Before(run, k).socket.Some?
    ensures Explains(SentAt(run, world, payloads, k).value.frame, Before(run, k).tasks[run[k].event.task].job, Before(run, k).pending, run[k].event.how, world, payloads, k)
  {
    SentFrame(run, world, payloads, k);
    var s, i, how := Before(run, k), run[k].event.task, run[k].event.how;
    JobsHold(run[..k]);
    assert AgreesAt(run, world, k) && ReturnsAt(run, world, payloads, k);
    if how.Screened? {
      ScreeningFinds(run, world, k, i, how.resolvesToPrivate);
    } else if how.CrawlReturns? {
      PrefixIsGuarded(run, world, k);
      CrawlingIsGuarded(run[..k], world, i);
    }
    SegmentExplains(s.tasks[i].job, s, how, world, payloads, k);
  }

  /** What a segment sends answers its task's job. */
  lemma SegmentAnswers(run: seq<Timed>, world: World, payloads: Payloads, k: nat, job: Job)
    requires k < |run| && ReturnsAt(run, world, payloads, k) && SentAt(run, world, payloads, k).Some?
    requires job == Before(run, k).tasks[run[k].event.task].job
    ensures Answers(SentAt(run, world, payloads, k).value.frame, job)
    ensures ClaimsSuccess(SentAt(run, world, payloads, k).value.frame) ==> run[k].event.how == CrawlReturns
  {
    var how := run[k].event.how;
    SentFrame(run, world, payloads, k);
    if how == CrawlReturns {
      ReturnedHere(run, world, payloads, k);
    }
    DictAnswers(job, how, ReplyOf(Before(run, k), how).value, world, payloads, k);
  }

  lemma JobAtEvent(run: seq<Timed>, i: nat)
    requires run != [] && i < |Before(run, |run| - 1).tasks|
    ensures i < |JobsOf(run)| && JobsOf(run)[i] == Before(run, |run| - 1).tasks[i].job
  {
    var last := |run| - 1;
    OneTaskPerFrame(run[..last]);
    assert TaskJobs(Before(run, last).tasks)[i] == Before(run, last).tasks[i].job;
    assert JobsOf(run)[i] == JobsOf(run[..last])[i];
  }

  lemma NewAnswers(run: seq<Timed>, world: World, payloads: Payloads)
    requires run != [] && ReturnsAt(run, world, payloads, |run| - 1)
    requires SentAt(run, world, payloads, |run| - 1).Some?
    ensures AnswersItsJob(run, SentAt(run, world, payloads, |run| - 1).value)
  {
    var last := |run| - 1;
    var i := run[last].event.task;
    JobAtEvent(run, i);
    SegmentAnswers(run, world, payloads, last, JobsOf(run)[i]);
    DoingsExtend(run, i, CrawlReturns);
  }

  lemma PrefixReturns(run: seq<Timed>, world: World, payloads: Payloads)
    requires run != [] && CrawlsReturn(run, world, payloads)
    ensures CrawlsReturn(run[..|run| - 1], world, payloads)
  {
    var front := run[..|run| - 1];
    forall k: nat | k < |front| ensures ReturnsAt(front, world, payloads, k) {
      HappensInPrefix(run, k);
      assert ReturnsAt(run, world, payloads, k) && front[k] == run[k];
    }
  }

  ghost predicate AllAnswer(run: seq<Timed>, frames: seq<Sent>) {
    forall n :: 0 <= n < |frames| ==> AnswersItsJob(run, frames[n])
  }

  lemma AllAnswerStill(run: seq<Timed>, frames: seq<Sent>)
    requires run != [] && AllAnswer(run[..|run| - 1], frames)
    ensures AllAnswer(run, frames)
  {
    forall n | 0 <= n < |frames| ensures AnswersItsJob(run, frames[n]) {
      assert AnswersItsJob(run[..|run| - 1], frames[n]);
      AnswersStill(run, frames[n]);
    }
  }

  lemma {:induction false} EveryFrameAnswers(run: seq<Timed>, world: World, payloads: Payloads)
    requires CrawlsReturn(run, world, payloads)
    ensures AllAnswer(run, Frames(run, world, payloads))
  {
    if run != [] {
      var last := |run| - 1;
      PrefixReturns(run, world, payloads);
      EveryFrameAnswers(run[..last], world, payloads);
      AllAnswerStill(run, Frames(run[..last], world, payloads));
      assert ReturnsAt(run, world, payloads, last);
      if SentAt(run, world, payloads, last).Some? {
        NewAnswers(run, world, payloads);
      }
    }
  }

  /**
    From fetch frame to result frame: in every run, every result frame handed to a socket is
    complete and coherent, names the job of the fetch frame its task was created for, and claims
    success only if that task's crawl returned; no fetch frame gets two.
  */
  lemma FramesAnswerJobs(run: seq<Timed>, world: World, payloads: Payloads)
    requires CrawlsReturn(run, world, payloads)
    ensures AllAnswer(run, Frames(run, world, payloads))
    ensures Distinct(Frames(run, world, payloads))
  {
    EveryFrameAnswers(run, world, payloads);
    FramesAreDistinct(run, world, payloads);
  }

  /** The last segment of task i left it suspended in the socket, so it handed a frame to it. */
  lemma SuspendedBySend(run: seq<Timed>, world: World, payloads: Payloads, i: nat)
    requires run != [] && i < |Before(run, |run| - 1).tasks| && i < |Exec(INITIAL, run).tasks|
    requires Happens(run, |run| - 1) && run[|run| - 1].event.OfTask? && run[|run| - 1].event.task == i
    requires Exec(INITIAL, run).tasks[i].at.Replying?
    ensures SentAt(run, world, payloads, |run| - 1).Some? && SentAt(run, world, payloads, |run| - 1).value.task == i
  {
    var last := |run| - 1;
    TaskMovesOneTask(Before(run, last).(now := run[last].time), i, run[last].event.how);
  }

  ghost predicate IsAmong(frames: seq<Sent>, i: nat) {
    exists n :: 0 <= n < |frames| && frames[n].task == i
  }

  /** Every task that is suspended in a socket's send has its frame among those sent. */
  lemma {:induction false} SuspendedHasSent(run: seq<Timed>, world: World, payloads: Payloads, i: nat)
    requires i < |Exec(INITIAL, run).tasks| && Exec(INITIAL, run).tasks[i].at.Replying?
    ensures IsAmong(Frames(run, world, payloads), i)
  {
    var last := |run| - 1;
    var front, frames := Frames(run[..last], world, payloads), Frames(run, world, payloads);
    if i >= |Before(run, last).tasks| {
      NewTaskIsCreated(run, i);
    } else if Happens(run, last) && run[last].event.OfTask? && run[last].event.task == i {
      SuspendedBySend(run, world, payloads, i);
      assert frames[|front|].task == i;
    } else {
      LastKeepsTask(run, i);
      SuspendedHasSent(run[..last], world, payloads, i);
      var n :| 0 <= n < |front| && front[n].task == i;
      assert frames[n] == front[n];
    }
  }

  /** A frame claims success only for a job whose URL passed `check_url` and whose host, when screened, was left with nothing private. */
  lemma SuccessWasGuarded(run: seq<Timed>, world: World, payloads: Payloads, n: nat) returns (k: nat)
    requires IsGuarded(run, world) && CrawlsReturn(run, world, payloads) && n < |Frames(run, world, payloads)|
    requires ClaimsSuccess(Frames(run, world, payloads)[n].frame)
    ensures var i := Frames(run, world, payloads)[n].task;
            i < |JobsOf(run)| && ScreenedAt(run, i, k) && MayBeCrawled(JobsOf(run)[i], world, k)
  {
    EveryFrameAnswers(run, world, payloads);
    var i := Frames(run, world, payloads)[n].task;
    assert AnswersItsJob(run, Frames(run, world, payloads)[n]);
    OneTaskPerFrame(run);
    assert TaskJobs(Exec(INITIAL, run).tasks)[i] == Exec(INITIAL, run).tasks[i].job;
    k := ReturnedWasGuarded(run, world, i);
  }
}
