/** What holds of the gateway client over every run, interleaving and cancellation. */
module GatewayRuns {
  import opened Options
  import opened FetchSpec
  import opened Backoff
  import opened GatewayModel

  /** The state before the k-th event of a run. */
  function Before(run: seq<Timed>, k: nat): State
    requires k <= |run|
  {
    Exec(INITIAL, run[..k])
  }

  predicate Happens(run: seq<Timed>, k: nat)
    requires k < |run|
  {
    Enabled(Before(run, k), run[k])
  }

  lemma {:induction false} ExecAppend(s: State, first: seq<Timed>, second: seq<Timed>)
    ensures Exec(s, first + second) == Exec(Exec(s, first), second)
  {
    if second == [] {
      assert first + second == first;
    } else {
      var last := |second| - 1;
      ExecAppend(s, first, second[..last]);
      assert (first + second)[..|first + second| - 1] == first + second[..last];
    }
  }

  /** A run goes on with any event that can happen next. */
  lemma OneMore(run: seq<Timed>, e: Event)
    requires var s := Exec(INITIAL, run); Enabled(s, Timed(s.now, e))
    ensures var s := Exec(INITIAL, run); Exec(INITIAL, run + [Timed(s.now, e)]) == Fire(s, e)
  {
    var s := Exec(INITIAL, run);
    var longer := run + [Timed(s.now, e)];
    assert longer[..|longer| - 1] == run;
    assert s.(now := s.now) == s;
  }

  // ----- What happened in a run -----------------------------------------------

  type Occurrence = (State, Event) -> bool

  /** Some event that took effect in the run was such an occurrence. */
  ghost predicate Occurs(run: seq<Timed>, p: Occurrence) {
    exists k :: 0 <= k < |run| && Happens(run, k) && p(Before(run, k), run[k].event)
  }

  lemma HappensInPrefix(run: seq<Timed>, k: nat)
    requires k + 1 < |run|
    ensures Before(run[..|run| - 1], k) == Before(run, k)
    ensures Happens(run[..|run| - 1], k) == Happens(run, k)
  {
    assert run[..|run| - 1][..k] == run[..k];
  }

  lemma OccursEarlier(run: seq<Timed>, p: Occurrence)
    requires run != [] && Occurs(run[..|run| - 1], p)
    ensures Occurs(run, p)
  {
    var front := run[..|run| - 1];
    var k :| 0 <= k < |front| && Happens(front, k) && p(Before(front, k), front[k].event);
    HappensInPrefix(run, k);
    assert run[k] == front[k];
  }

  lemma OccursExtends(run: seq<Timed>, p: Occurrence)
    requires run != []
    ensures var last := |run| - 1;
            Occurs(run, p) <==> Occurs(run[..last], p) || (Happens(run, last) && p(Before(run, last), run[last].event))
  {
    var last := |run| - 1;
    if Occurs(run, p) {
      var k :| 0 <= k < |run| && Happens(run, k) && p(Before(run, k), run[k].event);
      if k < last {
        HappensInPrefix(run, k);
        assert run[..last][k] == run[k];
      }
    }
    if Occurs(run[..last], p) {
      OccursEarlier(run, p);
    }
  }

  // ----- What a job's segment may change --------------------------------------

  /** The reconnect loop's own part of the state, which job tasks never write. */
  predicate SameLoop(s: State, t: State) {
    && t.main == s.main && t.socket == s.socket && t.registered == s.registered
    && t.paused == s.paused && t.stopped == s.stopped && t.backoffMs == s.backoffMs
    && t.now == s.now && t.attempts == s.attempts && t.openedAt == s.openedAt
    && t.firstOpenedAt == s.firstOpenedAt && t.durations == s.durations
  }

  /** Besides the counters, a segment of task i's moves task i alone. */
  predicate OnlyTask(s: State, t: State, i: nat)
    requires i < |s.tasks|
  {
    && SameLoop(s, t)
    && |t.tasks| == |s.tasks|
    && t.tasks[i].job == s.tasks[i].job
    && forall j :: 0 <= j < |s.tasks| && j != i ==> t.tasks[j] == s.tasks[j]
  }

  /** Where a call of `_send` leaves the task. */
  function Sent(reply: Reply, connected: bool): Point {
    if connected then Replying(reply) else Finished(Done(reply))
  }

  /** `_handle_fetch` as one job sees it: a path through its awaits. */
  function NextPoint(at: Point, e: TaskEvent, busy: bool, connected: bool): Point {
    match e
    case Begins(url) =>
      if busy then Sent(Busy, connected) else if url.ValidUrl? then Screening else Sent(Failure, connected)
    case Screened(private) => if private then Sent(Failure, connected) else Crawling
    case CrawlReturns => Sent(Crawled, connected)
    case Raises => Sent(Failure, connected)
    case SendReturns => if at.Replying? then Finished(Done(at.reply)) else at
    case CancelDelivered => Finished(Cancelled)
    case Discarded => at
  }

  lemma SendMovesOneTask(s: State, i: nat, reply: Reply)
    requires i < |s.tasks|
    ensures OnlyTask(s, Send(s, i, reply), i)
    ensures Send(s, i, reply).tasks[i].at == Sent(reply, s.socket.Some?)
  {
    if s.socket.None? {
      var sent := s.tasks[i].(at := Finished(Done(reply)), sends := s.tasks[i].sends + 1);
      assert Send(s, i, reply).tasks == s.tasks[i := sent];
    }
  }

  lemma BeginMovesOneTask(s: State, i: nat, url: UrlVerdict)
    requires i < |s.tasks|
    ensures OnlyTask(s, BeginFetch(s, i, url), i)
    ensures BeginFetch(s, i, url).tasks[i].at == NextPoint(s.tasks[i].at, Begins(url), s.pending >= 3, s.socket.Some?)
  {
    SendMovesOneTask(s, i, Busy);
    SendMovesOneTask(s.(pending := s.pending + 1), i, Failure);
  }

  /** However tasks interleave, each moves by its own program, the admission count and the socket. */
  lemma {:induction false} TaskMovesOneTask(s: State, i: nat, e: TaskEvent)
    requires TaskEnabled(s, i, e)
    ensures OnlyTask(s, FireTask(s, i, e), i)
    ensures FireTask(s, i, e).tasks[i].at == NextPoint(s.tasks[i].at, e, s.pending >= 3, s.socket.Some?)
  {
    match e
    case Begins(url) => BeginMovesOneTask(s, i, url);
    case Screened(private) => SendMovesOneTask(s, i, Failure);
    case CrawlReturns => SendMovesOneTask(s, i, Crawled);
    case Raises => SendMovesOneTask(s, i, Failure);
    case SendReturns =>
    case CancelDelivered =>
    case Discarded =>
  }

  lemma OthersKeepTask(s: State, e: Event, i: nat)
    requires Enabled(s, Timed(s.now, e)) && i < |s.tasks| && !(e.OfTask? && e.task == i)
    ensures i < |Fire(s, e).tasks| && Fire(s, e).tasks[i] == s.tasks[i]
  {
    if e.OfTask? {
      TaskMovesOneTask(s, e.task, e.how);
    }
  }

  // ----- One result per job ------------------------------------------------

  predicate IsJobEvent(e: Event) {
    e.Loop? && e.what.Frame? && IsJobFrame(e.what.raw)
  }

  /** The jobs of the well-formed fetch frames dispatched in a run, in order. */
  function JobsOf(run: seq<Timed>): seq<Job> {
    if run == [] then []
    else
      var last := |run| - 1;
      JobsOf(run[..last]) + if Happens(run, last) && IsJobEvent(run[last].event) then [FrameJob(run[last].event.what.raw.value).value] else []
  }

  function TaskJobs(tasks: seq<Task>): (jobs: seq<Job>)
    ensures |jobs| == |tasks| && forall i :: 0 <= i < |tasks| ==> jobs[i] == tasks[i].job
  {
    seq(|tasks|, i requires 0 <= i < |tasks| => tasks[i].job)
  }

  lemma FrameJobs(s: State, raw: Option<Json>)
    ensures TaskJobs(Dispatch(s, raw).tasks) == TaskJobs(s.tasks) + if IsJobFrame(raw) then [FrameJob(raw.value).value] else []
  {
  }

  lemma TaskKeepsJob(s: State, i: nat, e: TaskEvent)
    requires TaskEnabled(s, i, e)
    ensures TaskJobs(FireTask(s, i, e).tasks) == TaskJobs(s.tasks)
  {
    TaskMovesOneTask(s, i, e);
    forall j | 0 <= j < |s.tasks| ensures FireTask(s, i, e).tasks[j].job == s.tasks[j].job {
    }
  }

  lemma FireJobs(s: State, e: Event)
    requires Enabled(s, Timed(s.now, e))
    ensures TaskJobs(Fire(s, e).tasks) == TaskJobs(s.tasks) + if IsJobEvent(e) then [FrameJob(e.what.raw.value).value] else []
  {
    match e
    case Loop(what) =>
      if what.Frame? {
        FrameJobs(s, what.raw);
      }
    case OfTask(i, how) => TaskKeepsJob(s, i, how);
  }

  /**
    Tasks and well-formed fetch frames correspond one to one and in order, each task holding the
    job of its own frame; a malformed frame creates none.
  */
  lemma {:induction false} OneTaskPerFrame(run: seq<Timed>)
    ensures TaskJobs(Exec(INITIAL, run).tasks) == JobsOf(run)
    ensures |Exec(INITIAL, run).tasks| == |JobsOf(run)|
  {
    if run != [] {
      var last := |run| - 1;
      OneTaskPerFrame(run[..last]);
      if Happens(run, last) {
        FireJobs(Before(run, last).(now := run[last].time), run[last].event);
      }
    }
  }

  /** Each job leads to at most one result attempt, and to exactly one unless it was cancelled. */
  lemma {:induction false} OneResultPerJob(run: seq<Timed>, i: nat)
    requires i < |Exec(INITIAL, run).tasks|
    ensures var t := Exec(INITIAL, run).tasks[i];
            && t.sends <= 1
            && (t.at.Finished? && t.at.ending != Cancelled ==> t.sends == 1)
  {
    JobsHold(run);
  }

  function TotalSends(tasks: seq<Task>): nat {
    if tasks == [] then 0 else TotalSends(tasks[..|tasks| - 1]) + tasks[|tasks| - 1].sends
  }

  lemma {:induction false} AllSent(tasks: seq<Task>)
    requires forall i :: 0 <= i < |tasks| ==> tasks[i].sends == 1
    ensures TotalSends(tasks) == |tasks|
  {
    if tasks != [] {
      AllSent(tasks[..|tasks| - 1]);
    }
  }

  lemma {:induction false} SomeSent(tasks: seq<Task>)
    requires forall i :: 0 <= i < |tasks| ==> tasks[i].sends <= 1
    ensures TotalSends(tasks) <= |tasks|
  {
    if tasks != [] {
      SomeSent(tasks[..|tasks| - 1]);
    }
  }

  predicate AllFinished(tasks: seq<Task>) {
    forall i :: 0 <= i < |tasks| ==> tasks[i].at.Finished?
  }

  predicate NoneCancelled(tasks: seq<Task>) {
    forall i :: 0 <= i < |tasks| ==> tasks[i].at != Finished(Cancelled)
  }

  lemma FinishedHoldNothing(s: State)
    requires JobsInv(s) && AllFinished(s.tasks)
    ensures s.pending == 0
  {
    CountNone(s.tasks, IsAdmitted);
  }

  lemma SendsOf(s: State)
    requires JobsInv(s)
    ensures TotalSends(s.tasks) <= |s.tasks|
    ensures AllFinished(s.tasks) && NoneCancelled(s.tasks) ==> TotalSends(s.tasks) == |s.tasks|
  {
    forall i | 0 <= i < |s.tasks|
      ensures s.tasks[i].sends <= 1 && (AllFinished(s.tasks) && NoneCancelled(s.tasks) ==> s.tasks[i].sends == 1)
    {
      assert SendsFit(s.tasks[i]);
    }
    SomeSent(s.tasks);
    if AllFinished(s.tasks) && NoneCancelled(s.tasks) {
      AllSent(s.tasks);
    }
  }

  /**
    Never more results than fetch frames, and as many once every job has run its course
    uncancelled. Whatever was cancelled, no admission outlives its job.
  */
  lemma {:induction false} ResultsMatchFrames(run: seq<Timed>)
    ensures var s := Exec(INITIAL, run);
            && TotalSends(s.tasks) <= |JobsOf(run)|
            && (AllFinished(s.tasks) && NoneCancelled(s.tasks) ==> TotalSends(s.tasks) == |JobsOf(run)|)
            && (AllFinished(s.tasks) ==> s.pending == 0)
  {
    var s := Exec(INITIAL, run);
    JobsHold(run);
    OneTaskPerFrame(run);
    SendsOf(s);
    if AllFinished(s.tasks) {
      FinishedHoldNothing(s);
    }
  }

  /** `_pending` is exact and bounded, and `jobs_served` counts the served tasks. */
  lemma {:induction false} CountersAreExact(run: seq<Timed>)
    ensures var s := Exec(INITIAL, run);
            && s.pending == Count(s.tasks, IsAdmitted)
            && 0 <= s.pending <= 3
            && s.jobsServed == Count(s.tasks, IsServed)
  {
    JobsHold(run);
  }

  /**
    Admission in every run: a job that begins is answered "Worker busy" exactly if three are
    running; with at most two it is admitted if its URL is valid and refused if not.
  */
  lemma AdmissionIsExact(run: seq<Timed>, i: nat, url: UrlVerdict)
    requires At(Exec(INITIAL, run), i, Created)
    ensures var s := Exec(INITIAL, run);
            var t := Exec(INITIAL, run + [Timed(s.now, OfTask(i, Begins(url)))]);
            && i < |t.tasks|
            && (Reports(t.tasks[i].at, Busy) <==> s.pending == 3)
            && (s.pending <= 2 && url.ValidUrl? ==> t.tasks[i].at == Screening && t.pending == s.pending + 1)
            && (s.pending <= 2 && !url.ValidUrl? ==> Reports(t.tasks[i].at, Failure))
  {
    JobsHold(run);
    OneMore(run, OfTask(i, Begins(url)));
    TaskMovesOneTask(Exec(INITIAL, run), i, Begins(url));
  }

  /** Task i's done-callback has run. */
  ghost predicate WasDiscarded(run: seq<Timed>, i: nat) {
    Occurs(run, Does(i, Discarded))
  }

  lemma FireKeepsJobSet(s: State, e: Event, i: nat)
    requires Enabled(s, Timed(s.now, e))
    ensures i in Fire(s, e).jobs <==> (i in s.jobs && e != OfTask(i, Discarded)) || (IsJobEvent(e) && i == |s.tasks|)
    ensures e == OfTask(i, Discarded) ==> i < |s.tasks|
  {
    if e.OfTask? {
      TaskKeepsJobSet(s, e.task, e.how);
    }
  }

  lemma TaskKeepsJobSet(s: State, i: nat, e: TaskEvent)
    requires TaskEnabled(s, i, e)
    ensures FireTask(s, i, e).jobs == if e.Discarded? then s.jobs - {i} else s.jobs
  {
    match e
    case Begins(url) =>
    case Screened(_) =>
    case CrawlReturns =>
    case Raises =>
    case SendReturns =>
    case CancelDelivered =>
    case Discarded =>
  }

  /** `_jobs` holds every task created whose done-callback has not run, and no other. */
  lemma {:induction false} JobSetIsExact(run: seq<Timed>, i: nat)
    ensures var s := Exec(INITIAL, run);
            && (i in s.jobs <==> i < |s.tasks| && !WasDiscarded(run, i))
            && (WasDiscarded(run, i) ==> i < |s.tasks|)
  {
    if run != [] {
      var last := |run| - 1;
      JobSetIsExact(run[..last], i);
      OccursExtends(run, Does(i, Discarded));
      if Happens(run, last) {
        var s := Before(run, last).(now := run[last].time);
        FireKeepsJobSet(s, run[last].event, i);
        FireJobs(s, run[last].event);
      }
    }
  }

  // ----- Why a job got its reply ---------------------------------------------

  function Does(i: nat, how: TaskEvent): Occurrence {
    (s: State, e: Event) => e == OfTask(i, how)
  }

  /** Task i began with this verdict while a slot was free, or while none was. */
  function BeginsWhen(i: nat, url: UrlVerdict, busy: bool): Occurrence {
    (s: State, e: Event) => e == OfTask(i, Begins(url)) && (s.pending >= 3) == busy
  }

  /** The URL of task i's job passed `check_url`, with a slot free. */
  ghost predicate PassedUrl(run: seq<Timed>, i: nat) {
    Occurs(run, BeginsWhen(i, ValidUrl, false))
  }

  ghost predicate RefusedUrl(run: seq<Timed>, i: nat) {
    Occurs(run, BeginsWhen(i, InvalidUrl, false)) || Occurs(run, BeginsWhen(i, UrlRaises, false))
  }

  ghost predicate FoundBusy(run: seq<Timed>, i: nat) {
    Occurs(run, BeginsWhen(i, ValidUrl, true)) || Occurs(run, BeginsWhen(i, InvalidUrl, true)) || Occurs(run, BeginsWhen(i, UrlRaises, true))
  }

  ghost predicate PassedScreening(run: seq<Timed>, i: nat) {
    Occurs(run, Does(i, Screened(false)))
  }

  ghost predicate FailedLater(run: seq<Timed>, i: nat) {
    Occurs(run, Does(i, Screened(true))) || Occurs(run, Does(i, Raises))
  }

  ghost predicate CrawlReturned(run: seq<Timed>, i: nat) {
    Occurs(run, Does(i, CrawlReturns))
  }

  predicate Reports(at: Point, reply: Reply) {
    at == Replying(reply) || at == Finished(Done(reply))
  }

  /** What must have happened for task i to be where it is. */
  ghost predicate Earned(run: seq<Timed>, i: nat, at: Point) {
    && (at.Screening? || at.Crawling? || Reports(at, Crawled) ==> PassedUrl(run, i))
    && (at.Crawling? || Reports(at, Crawled) ==> PassedScreening(run, i))
    && (Reports(at, Crawled) ==> CrawlReturned(run, i))
    && (Reports(at, Busy) ==> FoundBusy(run, i))
    && (Reports(at, Failure) ==> RefusedUrl(run, i) || (PassedUrl(run, i) && FailedLater(run, i)))
  }

  lemma BeginningsExtend(run: seq<Timed>, i: nat, url: UrlVerdict, busy: bool)
    requires run != []
    ensures Occurs(run[..|run| - 1], BeginsWhen(i, url, busy)) ==> Occurs(run, BeginsWhen(i, url, busy))
    ensures var last := |run| - 1;
            Happens(run, last) && run[last].event == OfTask(i, Begins(url)) && (Before(run, last).pending >= 3) == busy ==>
              Occurs(run, BeginsWhen(i, url, busy))
  {
    OccursExtends(run, BeginsWhen(i, url, busy));
  }

  lemma DoingsExtend(run: seq<Timed>, i: nat, how: TaskEvent)
    requires run != []
    ensures var last := |run| - 1;
            Occurs(run, Does(i, how)) <==> Occurs(run[..last], Does(i, how)) || (Happens(run, last) && run[last].event == OfTask(i, how))
  {
    OccursExtends(run, Does(i, how));
  }

  lemma BeginningEarns(run: seq<Timed>, i: nat, url: UrlVerdict)
    requires run != [] && Happens(run, |run| - 1) && run[|run| - 1].event == OfTask(i, Begins(url))
    ensures var s := Before(run, |run| - 1);
            Earned(run, i, NextPoint(Created, Begins(url), s.pending >= 3, s.socket.Some?))
  {
    BeginningsExtend(run, i, url, Before(run, |run| - 1).pending >= 3);
  }

  /** What a task has earned it keeps. */
  lemma EarnedExtends(run: seq<Timed>, i: nat, at: Point)
    requires run != [] && Earned(run[..|run| - 1], i, at)
    ensures Earned(run, i, at)
  {
    BeginningsExtend(run, i, ValidUrl, false);
    BeginningsExtend(run, i, InvalidUrl, false);
    BeginningsExtend(run, i, UrlRaises, false);
    BeginningsExtend(run, i, ValidUrl, true);
    BeginningsExtend(run, i, InvalidUrl, true);
    BeginningsExtend(run, i, UrlRaises, true);
    DoingsExtend(run, i, Screened(false));
    DoingsExtend(run, i, Screened(true));
    DoingsExtend(run, i, Raises);
    DoingsExtend(run, i, CrawlReturns);
  }

  lemma StepEarns(run: seq<Timed>, i: nat, how: TaskEvent)
    requires run != [] && Happens(run, |run| - 1) && run[|run| - 1].event == OfTask(i, how)
    requires i < |Before(run, |run| - 1).tasks| && Earned(run[..|run| - 1], i, Before(run, |run| - 1).tasks[i].at)
    ensures var s := Before(run, |run| - 1);
            Earned(run, i, NextPoint(s.tasks[i].at, how, s.pending >= 3, s.socket.Some?))
  {
    var at := Before(run, |run| - 1).tasks[i].at;
    if how.Begins? {
      BeginningEarns(run, i, how.url);
    } else {
      EarnedExtends(run, i, at);
      DoingsExtend(run, i, how);
    }
  }

  /**
    Every reply has its reason: no crawl without a passed URL check, a passed address screening and
    a free slot; "Worker busy" only when three jobs were running; a failure only from a refused or
    raising step.
  */
  lemma {:induction false} RepliesAreEarned(run: seq<Timed>, i: nat)
    requires i < |Exec(INITIAL, run).tasks|
    ensures Earned(run, i, Exec(INITIAL, run).tasks[i].at)
  {
    if run != [] {
      var last := |run| - 1;
      var s, e := Before(run, last), run[last];
      if i >= |s.tasks| {
        NewTaskIsCreated(run, i);
      } else {
        RepliesAreEarned(run[..last], i);
        if Happens(run, last) && e.event.OfTask? && e.event.task == i {
          StepEarns(run, i, e.event.how);
          TaskMovesOneTask(s.(now := e.time), i, e.event.how);
        } else {
          EarnedExtends(run, i, s.tasks[i].at);
          LastKeepsTask(run, i);
        }
      }
    }
  }

  lemma LastKeepsTask(run: seq<Timed>, i: nat)
    requires run != [] && i < |Before(run, |run| - 1).tasks|
    requires !(Happens(run, |run| - 1) && run[|run| - 1].event.OfTask? && run[|run| - 1].event.task == i)
    ensures i < |Exec(INITIAL, run).tasks| && Exec(INITIAL, run).tasks[i] == Before(run, |run| - 1).tasks[i]
  {
    var last := |run| - 1;
    if Happens(run, last) {
      OthersKeepTask(Before(run, last).(now := run[last].time), run[last].event, i);
    }
  }

  lemma NewTaskIsCreated(run: seq<Timed>, i: nat)
    requires run != [] && |Before(run, |run| - 1).tasks| <= i < |Exec(INITIAL, run).tasks|
    ensures Exec(INITIAL, run).tasks[i].at == Created && !run[|run| - 1].event.OfTask?
  {
    var last := |run| - 1;
    var s := Before(run, last).(now := run[last].time);
    FireJobs(s, run[last].event);
  }

  lemma FewerTasksBefore(run: seq<Timed>)
    requires run != []
    ensures |Before(run, |run| - 1).tasks| <= |Exec(INITIAL, run).tasks|
  {
    var last := |run| - 1;
    if Happens(run, last) {
      FireJobs(Before(run, last).(now := run[last].time), run[last].event);
    }
  }

  lemma {:induction false} NoCrawlYet(run: seq<Timed>, i: nat)
    requires i >= |Exec(INITIAL, run).tasks|
    ensures !CrawlReturned(run, i)
  {
    if run != [] {
      DoingsExtend(run, i, CrawlReturns);
      FewerTasksBefore(run);
      NoCrawlYet(run[..|run| - 1], i);
    }
  }

  /** A crawl that returned is reported, unless the task is cancelled first. */
  lemma {:induction false} CrawlIsReported(run: seq<Timed>, i: nat)
    requires i < |Exec(INITIAL, run).tasks| && CrawlReturned(run, i)
    ensures var at := Exec(INITIAL, run).tasks[i].at; Reports(at, Crawled) || at == Finished(Cancelled)
  {
    var last := |run| - 1;
    var s, e := Before(run, last), run[last];
    DoingsExtend(run, i, CrawlReturns);
    if i >= |s.tasks| {
      NoCrawlYet(run[..last], i);
    } else {
      if CrawlReturned(run[..last], i) {
        CrawlIsReported(run[..last], i);
      }
      if Happens(run, last) && e.event.OfTask? && e.event.task == i {
        TaskMovesOneTask(s.(now := e.time), i, e.event.how);
      } else {
        LastKeepsTask(run, i);
      }
    }
  }

  /** A task was served exactly when its crawl returned and its sending ended without cancellation. */
  lemma {:induction false} ServedMeansCrawledAndSent(run: seq<Timed>, i: nat)
    requires i < |Exec(INITIAL, run).tasks|
    ensures var t := Exec(INITIAL, run).tasks[i];
            IsServed(t) <==> CrawlReturned(run, i) && t.at.Finished? && t.at.ending != Cancelled
  {
    RepliesAreEarned(run, i);
    if CrawlReturned(run, i) {
      CrawlIsReported(run, i);
    }
  }

  /** After stop(), every unfinished job has been asked to cancel. */
  lemma {:induction false} StopReachesEveryJob(run: seq<Timed>, time: nat, i: nat)
    requires Exec(INITIAL, run).now <= time
    requires var s := Exec(INITIAL, run + [Timed(time, Loop(Stop))]); i < |s.tasks| && !s.tasks[i].at.Finished?
    ensures i in Exec(INITIAL, run + [Timed(time, Loop(Stop))]).cancelAsked
  {
    JobsHold(run);
    assert (run + [Timed(time, Loop(Stop))])[..|run|] == run;
  }

  // ----- Connections -------------------------------------------------------

  predicate LinkInv(s: State) {
    && (s.socket.Some? ==> s.socket.value == s.attempts)
    && (InBody(s.main) || s.main.Closing? ==> s.socket.Some?)
    && (s.main.Idle? || s.main.Ready? || s.main.Connecting? || s.main.Sleeping? ==> s.socket.None? && !s.registered)
    && (s.registered ==> s.socket.Some?)
  }

  predicate IsRegisteredEvent(e: Event) {
    e.Loop? && e.what.Frame? && IsRegisteredFrame(e.what.raw)
  }

  lemma FrameKeepsLink(s: State, raw: Option<Json>)
    requires LinkInv(s) && s.main.Receiving?
    ensures LinkInv(Dispatch(s, raw)) && Dispatch(s, raw).socket == s.socket && Dispatch(s, raw).main == s.main
    ensures Dispatch(s, raw).registered <==> s.registered || IsRegisteredFrame(raw)
  {
  }

  predicate Linked(s: State) {
    InBody(s.main) || s.main.Closing?
  }

  lemma FireKeepsLink(s: State, e: Event)
    requires LinkInv(s) && Enabled(s, Timed(s.now, e))
    ensures LinkInv(Fire(s, e))
    ensures Fire(s, e).registered ==> Fire(s, e).socket == s.socket && (s.registered || IsRegisteredEvent(e))
    ensures IsRegisteredEvent(e) ==> Linked(s) && Fire(s, e).registered
    ensures Fire(s, e).socket.Some? ==>
              Fire(s, e).attempts == s.attempts && (s.socket.Some? || s.main.Connecting?) && (s.registered ==> Fire(s, e).registered)
  {
    if e.OfTask? {
      TaskMovesOneTask(s, e.task, e.how);
    } else if e.what.Frame? {
      FrameKeepsLink(s, e.what.raw);
    }
  }

  /** A `registered` frame, dispatched while connection c was the current one. */
  function RegistersOn(c: nat): Occurrence {
    (s: State, e: Event) => IsRegisteredEvent(e) && s.socket == Some(c)
  }

  ghost predicate RegisteredDuring(run: seq<Timed>, c: nat) {
    Occurs(run, RegistersOn(c))
  }

  lemma {:induction false} LinkHolds(run: seq<Timed>)
    ensures LinkInv(Exec(INITIAL, run))
  {
    if run != [] {
      var last := |run| - 1;
      LinkHolds(run[..last]);
      if Happens(run, last) {
        FireKeepsLink(Before(run, last).(now := run[last].time), run[last].event);
      }
    }
  }

  /** Being registered takes a socket that is still held, the latest attempt's, and a frame that arrived on it. */
  lemma {:induction false} RegisteredOnCurrentConnection(run: seq<Timed>)
    ensures var s := Exec(INITIAL, run);
            s.registered ==> IsRegistered(s) && s.socket == Some(s.attempts) && RegisteredDuring(run, s.attempts)
  {
    LinkHolds(run);
    if run != [] {
      var last := |run| - 1;
      LinkHolds(run[..last]);
      RegisteredOnCurrentConnection(run[..last]);
      OccursExtends(run, RegistersOn(Exec(INITIAL, run).attempts));
      if Happens(run, last) {
        FireKeepsLink(Before(run, last).(now := run[last].time), run[last].event);
      }
    }
  }

  lemma FrameKeepsAttempts(s: State, raw: Option<Json>)
    ensures Dispatch(s, raw).attempts == s.attempts
  {
  }

  lemma AttemptsGrow(s: State, e: Event)
    requires LinkInv(s) && Enabled(s, Timed(s.now, e))
    ensures s.attempts <= Fire(s, e).attempts
    ensures Fire(s, e).main.Connecting? && !s.main.Connecting? ==> s.attempts < Fire(s, e).attempts
    ensures Fire(s, e).main.Connecting? ==> !IsRegisteredEvent(e)
  {
    if e.OfTask? {
      TaskMovesOneTask(s, e.task, e.how);
    } else if e.what.Frame? {
      FrameKeepsAttempts(s, e.what.raw);
      FrameKeepsLink(s, e.what.raw);
    }
  }

  /** No connection has registered before it was opened. */
  lemma {:induction false} NotRegisteredYet(run: seq<Timed>, c: nat)
    requires var s := Exec(INITIAL, run); c > s.attempts || (s.main.Connecting? && c == s.attempts)
    ensures !RegisteredDuring(run, c)
  {
    if run != [] {
      var last := |run| - 1;
      OccursExtends(run, RegistersOn(c));
      LinkHolds(run[..last]);
      if Happens(run, last) {
        AttemptsGrow(Before(run, last).(now := run[last].time), run[last].event);
        FireKeepsLink(Before(run, last).(now := run[last].time), run[last].event);
      }
      NotRegisteredYet(run[..last], c);
    }
  }

  /** While the client holds a socket, it is registered exactly if a `registered` frame has arrived on that connection. */
  lemma {:induction false} RegisteredExactly(run: seq<Timed>)
    requires Exec(INITIAL, run).socket.Some?
    ensures var s := Exec(INITIAL, run); IsRegistered(s) <==> RegisteredDuring(run, s.attempts)
  {
    RegisteredOnCurrentConnection(run);
    LinkHolds(run);
    var last := |run| - 1;
    var s := Before(run, last);
    OccursExtends(run, RegistersOn(Exec(INITIAL, run).attempts));
    LinkHolds(run[..last]);
    if Happens(run, last) {
      FireKeepsLink(s.(now := run[last].time), run[last].event);
    }
    if s.socket.Some? {
      RegisteredExactly(run[..last]);
    } else {
      NotRegisteredYet(run[..last], s.attempts);
    }
  }

  /** The reconnect loop is cancelled inside a connection. */
  function CancelsLinked(): Occurrence {
    (s: State, e: Event) => e == Loop(MainCancelled) && Linked(s)
  }

  /** Closing drops the socket; only a cancelled loop keeps it. */
  lemma FireMayHold(s: State, e: Event)
    requires LinkInv(s) && Enabled(s, Timed(s.now, e))
    ensures var t := Fire(s, e);
            && (s.main.Ended? || (e == Loop(MainCancelled) && Linked(s)) ==> t.main.Ended?)
            && (t.socket.Some? <==>
                  Linked(t) || (t.main.Ended? && ((s.main.Ended? && s.socket.Some?) || (e == Loop(MainCancelled) && Linked(s)))))
  {
    if e.OfTask? {
      TaskMovesOneTask(s, e.task, e.how);
    } else if e.what.Frame? {
      FrameKeepsLink(s, e.what.raw);
    }
  }

  lemma {:induction false} HeldExactly(run: seq<Timed>)
    ensures var s := Exec(INITIAL, run);
            && (Occurs(run, CancelsLinked()) ==> s.main.Ended?)
            && (s.socket.Some? <==> Linked(s) || Occurs(run, CancelsLinked()))
  {
    if run != [] {
      var last := |run| - 1;
      HeldExactly(run[..last]);
      LinkHolds(run[..last]);
      OccursExtends(run, CancelsLinked());
      if Happens(run, last) {
        FireMayHold(Before(run, last).(now := run[last].time), run[last].event);
      }
    }
  }

  /**
    `is_registered()` in every state: a `registered` frame arrived on the latest connection, and
    the client is on it, or closing it, or the loop was cancelled inside it, as stop() does: the
    fields then outlive the connection.
  */
  lemma ReadinessExactly(run: seq<Timed>)
    ensures var s := Exec(INITIAL, run);
            IsRegistered(s) <==> RegisteredDuring(run, s.attempts) && (Linked(s) || Occurs(run, CancelsLinked()))
  {
    HeldExactly(run);
    if Exec(INITIAL, run).socket.Some? {
      RegisteredExactly(run);
    }
  }

  /** A run that ends with its loop cancelled and the worker still ready. */
  lemma ReadyAfterTheEnd() returns (run: seq<Timed>)
    ensures Exec(INITIAL, run).main.Ended? && IsRegistered(Exec(INITIAL, run))
  {
    run := [];
    run := GoOn(run, Start(true));
    run := GoOn(run, Run);
    run := GoOn(run, Connected);
    run := GoOn(run, TokenRead);
    run := GoOn(run, RegisterSent);
    run := GoOn(run, Frame(Some(Obj(map["type" := Str("registered")]))));
    run := GoOn(run, MainCancelled);
  }

  lemma GoOn(run: seq<Timed>, what: LoopEvent) returns (longer: seq<Timed>)
    requires LoopEnabled(Exec(INITIAL, run), what)
    ensures run <= longer && Exec(INITIAL, longer) == FireLoop(Exec(INITIAL, run), what)
  {
    longer := run + [Timed(Exec(INITIAL, run).now, Loop(what))];
    OneMore(run, Loop(what));
  }

  // ----- What can always still happen ------------------------------------------

  /** The client may go on connecting. */
  predicate GoesOn(s: State) {
    !s.paused && !s.stopped && !s.main.Ended?
  }

  lemma RegistersInBody(run: seq<Timed>) returns (longer: seq<Timed>)
    requires InBody(Exec(INITIAL, run).main) && Exec(INITIAL, run).socket.Some?
    ensures run <= longer && IsRegistered(Exec(INITIAL, longer))
  {
    longer := run;
    if Exec(INITIAL, longer).main.ReadingToken? {
      longer := GoOn(longer, TokenRead);
    }
    if Exec(INITIAL, longer).main.Registering? {
      longer := GoOn(longer, RegisterSent);
    }
    var registered := Frame(Some(Obj(map["type" := Str("registered")])));
    longer := GoOn(longer, registered);
  }

  lemma RegistersOnceConnecting(run: seq<Timed>) returns (longer: seq<Timed>)
    requires Exec(INITIAL, run).main.Connecting?
    ensures run <= longer && IsRegistered(Exec(INITIAL, longer))
  {
    longer := GoOn(run, Connected);
    longer := RegistersInBody(longer);
  }

  /** A sleep is over at the time it was to last until, or now if that is past. */
  lemma Wakes(run: seq<Timed>) returns (longer: seq<Timed>)
    requires var s := Exec(INITIAL, run); s.main.Sleeping? && GoesOn(s)
    ensures run <= longer && Exec(INITIAL, longer).main.Connecting?
  {
    var s := Exec(INITIAL, run);
    var time := if s.main.until <= s.now then s.now else s.main.until;
    longer := run + [Timed(time, Loop(Run))];
    assert longer[..|longer| - 1] == run;
  }

  lemma Reconnects(run: seq<Timed>) returns (longer: seq<Timed>)
    requires var s := Exec(INITIAL, run); s.main.Closing? && GoesOn(s) && s.openedAt <= s.now
    ensures run <= longer && Exec(INITIAL, longer).main.Connecting?
  {
    longer := GoOn(run, Closed);
    longer := Wakes(longer);
  }

  lemma Launches(run: seq<Timed>) returns (longer: seq<Timed>)
    requires var s := Exec(INITIAL, run); (s.main.Idle? || s.main.Ready?) && GoesOn(s)
    ensures run <= longer && Exec(INITIAL, longer).main.Connecting?
  {
    longer := run;
    if Exec(INITIAL, run).main.Idle? {
      longer := GoOn(longer, Start(true));
    }
    longer := GoOn(longer, Run);
  }

  /** From every state that is not halted the client can come to be registered, whatever went before. */
  lemma CanRegister(run: seq<Timed>) returns (longer: seq<Timed>)
    requires GoesOn(Exec(INITIAL, run))
    ensures run <= longer && IsRegistered(Exec(INITIAL, longer))
  {
    LinkHolds(run);
    OpenedBefore(run);
    longer := run;
    match Exec(INITIAL, run).main {
      case Idle => longer := Launches(run);
      case Ready => longer := Launches(run);
      case Sleeping(_) => longer := Wakes(run);
      case Closing => longer := Reconnects(run);
      case Connecting =>
      case ReadingToken =>
      case Registering =>
      case Receiving =>
      case Ended =>
    }
    if Exec(INITIAL, longer).main.Connecting? {
      longer := RegistersOnceConnecting(longer);
    } else {
      longer := RegistersInBody(longer);
    }
  }

  /** A run goes on with something happening to the loop; where that leaves it. */
  function MainAfter(run: seq<Timed>, what: LoopEvent): Option<Main> {
    var s := Exec(INITIAL, run);
    if LoopEnabled(s, what) then Some(Exec(INITIAL, run + [Timed(s.now, Loop(what))]).main) else None
  }

  lemma LoopMovesTo(run: seq<Timed>, what: LoopEvent)
    requires LoopEnabled(Exec(INITIAL, run), what)
    ensures MainAfter(run, what) == Some(FireLoop(Exec(INITIAL, run), what).main)
  {
    OneMore(run, Loop(what));
  }

  lemma OpenedBefore(run: seq<Timed>)
    ensures Exec(INITIAL, run).openedAt <= Exec(INITIAL, run).now
  {
    ClockHolds(run);
  }

  lemma CanBreak(run: seq<Timed>)
    requires InBody(Exec(INITIAL, run).main)
    ensures MainAfter(run, ConnectionBreaks) == Some(Closing)
  {
    LoopMovesTo(run, ConnectionBreaks);
  }

  lemma CanBeCancelled(run: seq<Timed>)
    requires !Exec(INITIAL, run).main.Idle? && !Exec(INITIAL, run).main.Ended?
    ensures MainAfter(run, MainCancelled) == Some(Ended)
  {
    LoopMovesTo(run, MainCancelled);
  }

  /** Wherever the loop is suspended, its connection can fail or break, and cancellation reaches it. */
  lemma LoopIsNeverStuck(run: seq<Timed>)
    ensures var main := Exec(INITIAL, run).main;
            && (main.Connecting? ==> MainAfter(run, ConnectFails).Some?)
            && (main.ReadingToken? || main.Registering? || main.Receiving? ==> MainAfter(run, ConnectionBreaks) == Some(Closing))
            && (main.Closing? ==> MainAfter(run, Closed).Some?)
            && (!main.Idle? && !main.Ended? ==> MainAfter(run, MainCancelled) == Some(Ended))
            && MainAfter(run, Stop).Some?
  {
    var main := Exec(INITIAL, run).main;
    OpenedBefore(run);
    if InBody(main) {
      CanBreak(run);
    }
    if !main.Idle? && !main.Ended? {
      CanBeCancelled(run);
    }
  }

  /** A run goes on with something happening to task i; where that leaves it. */
  function PointAfter(run: seq<Timed>, i: nat, how: TaskEvent): Option<Point> {
    var s := Exec(INITIAL, run);
    var t := Exec(INITIAL, run + [Timed(s.now, OfTask(i, how))]);
    if Enabled(s, Timed(s.now, OfTask(i, how))) && i < |t.tasks| then Some(t.tasks[i].at) else None
  }

  lemma MovesTo(run: seq<Timed>, i: nat, how: TaskEvent)
    requires TaskEnabled(Exec(INITIAL, run), i, how)
    ensures var s := Exec(INITIAL, run);
            PointAfter(run, i, how) == Some(NextPoint(s.tasks[i].at, how, s.pending >= 3, s.socket.Some?))
  {
    OneMore(run, OfTask(i, how));
    TaskMovesOneTask(Exec(INITIAL, run), i, how);
  }

  /**
    No task is ever stuck: each of its awaits can end, in every way that it can, cancellation
    reaches it at all of them, and its done-callback runs in the end. What it sends waits in the socket, or is over if there is none.
  */
  lemma NoTaskIsStuck(run: seq<Timed>, i: nat)
    requires i < |Exec(INITIAL, run).tasks|
    ensures var s := Exec(INITIAL, run);
            var at, connected := s.tasks[i].at, s.socket.Some?;
            && (at.Created? ==> forall url :: PointAfter(run, i, Begins(url)).Some?)
            && (at.Screening? ==>
                  && PointAfter(run, i, Screened(false)) == Some(Crawling)
                  && PointAfter(run, i, Screened(true)) == PointAfter(run, i, Raises) == Some(Sent(Failure, connected)))
            && (at.Crawling? ==>
                  && PointAfter(run, i, CrawlReturns) == Some(Sent(Crawled, connected))
                  && PointAfter(run, i, Raises) == Some(Sent(Failure, connected)))
            && (at.Replying? ==> PointAfter(run, i, SendReturns) == Some(Finished(Done(at.reply))))
            && PointAfter(run, i, if at.Finished? then Discarded else CancelDelivered) == Some(if at.Finished? then at else Finished(Cancelled))
  {
    forall how | TaskEnabled(Exec(INITIAL, run), i, how) ensures PointAfter(run, i, how).Some?
    {
      MovesTo(run, i, how);
    }
    var at := Exec(INITIAL, run).tasks[i].at;
    if at.Screening? {
      MovesTo(run, i, Screened(false));
      MovesTo(run, i, Screened(true));
    }
    if at.Crawling? {
      MovesTo(run, i, CrawlReturns);
    }
    if at.Screening? || at.Crawling? {
      MovesTo(run, i, Raises);
    }
    if at.Replying? {
      MovesTo(run, i, SendReturns);
    }
    MovesTo(run, i, if at.Finished? then Discarded else CancelDelivered);
  }

  // ----- Pausing and stopping ------------------------------------------------

  predicate IsAuthFailureEvent(e: Event) {
    e.Loop? && e.what.Frame? && IsAuthFailure(e.what.raw)
  }

  function AuthFails(): Occurrence {
    (s: State, e: Event) => IsAuthFailureEvent(e)
  }

  function Stops(): Occurrence {
    (s: State, e: Event) => e == Loop(Stop)
  }

  lemma FrameMayPause(s: State, raw: Option<Json>)
    ensures Dispatch(s, raw).paused <==> s.paused || IsAuthFailure(raw)
    ensures Dispatch(s, raw).stopped == s.stopped
  {
  }

  lemma FireMayHalt(s: State, e: Event)
    requires Enabled(s, Timed(s.now, e))
    ensures Fire(s, e).paused <==> s.paused || IsAuthFailureEvent(e)
    ensures Fire(s, e).stopped <==> s.stopped || e == Loop(Stop)
  {
    if e.OfTask? {
      TaskMovesOneTask(s, e.task, e.how);
    } else if e.what.Frame? {
      FrameMayPause(s, e.what.raw);
    }
  }

  /** Only a failed authentication pauses the client, and only stop() stops it. */
  lemma {:induction false} HaltsExactly(run: seq<Timed>)
    ensures Exec(INITIAL, run).paused <==> Occurs(run, AuthFails())
    ensures Exec(INITIAL, run).stopped <==> Occurs(run, Stops())
  {
    if run != [] {
      var last := |run| - 1;
      HaltsExactly(run[..last]);
      OccursExtends(run, AuthFails());
      OccursExtends(run, Stops());
      if Happens(run, last) {
        FireMayHalt(Before(run, last).(now := run[last].time), run[last].event);
      }
    }
  }

  predicate Halted(s: State) {
    s.paused || s.stopped
  }

  lemma FrameKeepsHalt(s: State, raw: Option<Json>)
    ensures Dispatch(s, raw).attempts == s.attempts && (Halted(s) ==> Halted(Dispatch(s, raw)))
  {
  }

  lemma FireKeepsHalt(s: State, e: Event)
    requires Halted(s) && Enabled(s, Timed(s.now, e))
    ensures Fire(s, e).attempts == s.attempts && Halted(Fire(s, e))
  {
    if e.OfTask? {
      TaskMovesOneTask(s, e.task, e.how);
    } else if e.what.Frame? {
      FrameKeepsHalt(s, e.what.raw);
    }
  }

  /** Once paused or stopped, no connection attempt ever starts. */
  lemma {:induction false} HaltedForGood(s: State, run: seq<Timed>)
    requires Halted(s)
    ensures Exec(s, run).attempts == s.attempts && Halted(Exec(s, run))
  {
    if run != [] {
      var last := |run| - 1;
      HaltedForGood(s, run[..last]);
      var t := Exec(s, run[..last]);
      if Enabled(t, run[last]) {
        FireKeepsHalt(t.(now := run[last].time), run[last].event);
      }
    }
  }

  /** After `device_auth_failed` no further connection attempt ever starts, whatever happens next. */
  lemma AuthFailureIsTerminal(before: seq<Timed>, failure: Timed, after: seq<Timed>)
    requires failure.event.Loop? && failure.event.what.Frame? && IsAuthFailure(failure.event.what.raw)
    requires Enabled(Exec(INITIAL, before), failure)
    ensures Exec(INITIAL, before + [failure] + after).attempts == Exec(INITIAL, before).attempts
  {
    var s := Exec(INITIAL, before + [failure]);
    assert (before + [failure])[..|before|] == before;
    ExecAppend(INITIAL, before + [failure], after);
    HaltedForGood(s, after);
  }

  /** A paused client is on its last connection, leaving it, or done. */
  predicate PausedInv(s: State) {
    s.paused ==> s.main.Receiving? || s.main.Closing? || s.main.Ended?
  }

  lemma FireKeepsPaused(s: State, e: Event)
    requires PausedInv(s) && Enabled(s, Timed(s.now, e))
    ensures PausedInv(Fire(s, e))
    ensures s.main.Ended? ==> Fire(s, e).main.Ended? && Fire(s, e).registered == s.registered
  {
    if e.OfTask? {
      TaskMovesOneTask(s, e.task, e.how);
    } else if e.what.Frame? {
      FrameKeepsLoop(s, e.what.raw);
    }
  }

  lemma {:induction false} PausedHolds(run: seq<Timed>)
    ensures PausedInv(Exec(INITIAL, run))
  {
    if run != [] {
      var last := |run| - 1;
      PausedHolds(run[..last]);
      if Happens(run, last) {
        FireKeepsPaused(Before(run, last).(now := run[last].time), run[last].event);
      }
    }
  }

  lemma {:induction false} EndedForGood(s: State, run: seq<Timed>)
    requires s.main.Ended? && PausedInv(s)
    ensures var t := Exec(s, run); t.main.Ended? && PausedInv(t) && t.registered == s.registered
  {
    if run != [] {
      var last := |run| - 1;
      EndedForGood(s, run[..last]);
      var t := Exec(s, run[..last]);
      if Enabled(t, run[last]) {
        FireKeepsPaused(t.(now := run[last].time), run[last].event);
      }
    }
  }

  /** In no run does a paused client connect or wait to reconnect; once its connection has closed it is over and unregistered, whatever follows. */
  lemma PausedClientEnds(before: seq<Timed>, closed: Timed, after: seq<Timed>)
    requires Exec(INITIAL, before).paused
    ensures var main := Exec(INITIAL, before).main; main.Receiving? || main.Closing? || main.Ended?
    ensures closed.event == Loop(Closed) && Enabled(Exec(INITIAL, before), closed) ==>
              var s := Exec(INITIAL, before + [closed] + after); s.main.Ended? && !IsRegistered(s)
  {
    PausedHolds(before);
    var through := before + [closed];
    assert through[..|before|] == before;
    ExecAppend(INITIAL, through, after);
    if closed.event == Loop(Closed) && Enabled(Exec(INITIAL, before), closed) {
      EndedForGood(Exec(INITIAL, through), after);
    }
  }

  /** The transport was found acceptable and the loop's task created. */
  function Starts(): Occurrence {
    (s: State, e: Event) => e == Loop(Start(true))
  }

  /** No connection is ever attempted unless a start found the transport acceptable. */
  lemma {:induction false} NoAttemptUnstarted(run: seq<Timed>)
    ensures var s := Exec(INITIAL, run); (s.attempts > 0 || !s.main.Idle?) ==> Occurs(run, Starts())
  {
    if run != [] {
      var last := |run| - 1;
      NoAttemptUnstarted(run[..last]);
      OccursExtends(run, Starts());
      if Happens(run, last) && !Occurs(run, Starts()) {
        FireMayStart(Before(run, last).(now := run[last].time), run[last].event);
      }
    }
  }

  lemma FireMayStart(s: State, e: Event)
    requires s.main.Idle? && s.attempts == 0 && Enabled(s, Timed(s.now, e)) && e != Loop(Start(true))
    ensures Fire(s, e).main.Idle? && Fire(s, e).attempts == 0
  {
    if e.OfTask? {
      TaskMovesOneTask(s, e.task, e.how);
    }
  }

  // ----- Reconnect timing --------------------------------------------------

  predicate InAttempt(main: Main) {
    main.Connecting? || InBody(main) || main.Closing?
  }

  ghost predicate ClockInv(s: State) {
    && s.openedAt <= s.now
    && (s.attempts == 0 ==> s.durations == [])
    && (s.attempts >= 1 ==>
          && s.attempts - 1 <= |s.durations| <= s.attempts
          && s.firstOpenedAt + TotalTime(s.durations[..s.attempts - 1]) <= s.openedAt)
    && (s.main.Idle? || s.main.Ready? ==> s.attempts == 0 && s.backoffMs == INITIAL_BACKOFF_MS)
    && (InAttempt(s.main) ==> s.attempts == |s.durations| + 1 && s.backoffMs == BackoffAfter(s.durations))
    && (s.main.Sleeping? ==>
          && s.attempts == |s.durations| >= 1
          && s.backoffMs == SleepAfter(s.durations[..s.attempts - 1], s.durations[s.attempts - 1])
          && s.firstOpenedAt + TotalTime(s.durations) <= s.main.until)
    && IsBackoff(s.backoffMs)
  }

  lemma AttemptOverKeepsClock(s: State)
    requires ClockInv(s) && InAttempt(s.main)
    ensures ClockInv(AttemptOver(s))
  {
    var d := s.now - s.openedAt;
    Append(s.durations, d);
    assert (s.durations + [d])[..|s.durations|] == s.durations;
    assert s.durations[..s.attempts - 1] == s.durations;
  }

  lemma WakeKeepsClock(s: State)
    requires ClockInv(s) && s.main.Sleeping? && s.main.until <= s.now
    ensures ClockInv(LoopTop(s.(backoffMs := NextBackoffMs(s.backoffMs))))
  {
    BackoffClosedForm(s.durations);
    assert s.durations[..s.attempts] == s.durations;
  }

  lemma FirstRunKeepsClock(s: State)
    requires ClockInv(s) && s.main.Ready?
    ensures ClockInv(LoopTop(s))
  {
    assert s.durations[..0] == [];
  }

  lemma ClockReadsLoop(s: State, t: State)
    requires ClockInv(s)
    requires t.main == s.main && t.backoffMs == s.backoffMs && t.now == s.now && t.attempts == s.attempts
    requires t.openedAt == s.openedAt && t.firstOpenedAt == s.firstOpenedAt && t.durations == s.durations
    ensures ClockInv(t)
  {
  }

  lemma FrameKeepsLoop(s: State, raw: Option<Json>)
    ensures var t := Dispatch(s, raw);
            && t.main == s.main && t.backoffMs == s.backoffMs && t.now == s.now && t.attempts == s.attempts
            && t.openedAt == s.openedAt && t.firstOpenedAt == s.firstOpenedAt && t.durations == s.durations
  {
  }

  lemma LoopKeepsClock(s: State, e: LoopEvent)
    requires ClockInv(s) && LoopEnabled(s, e)
    ensures ClockInv(FireLoop(s, e))
  {
    if e.Run? && s.main.Sleeping? {
      WakeKeepsClock(s);
    } else if e.Run? {
      FirstRunKeepsClock(s);
    } else if e.ConnectFails? || e.Closed? {
      AttemptOverKeepsClock(s);
    } else if e.Frame? {
      FrameKeepsLoop(s, e.raw);
      ClockReadsLoop(s, Dispatch(s, e.raw));
    }
  }

  lemma FireKeepsClock(s: State, e: Event)
    requires ClockInv(s) && Enabled(s, Timed(s.now, e))
    ensures ClockInv(Fire(s, e))
  {
    match e
    case Loop(what) => LoopKeepsClock(s, what);
    case OfTask(i, how) =>
      TaskMovesOneTask(s, i, how);
      ClockReadsLoop(s, FireTask(s, i, how));
  }

  lemma {:induction false} ClockHolds(run: seq<Timed>)
    ensures ClockInv(Exec(INITIAL, run))
  {
    if run != [] {
      var last := |run| - 1;
      ClockHolds(run[..last]);
      if Happens(run, last) {
        FireKeepsClock(Before(run, last).(now := run[last].time), run[last].event);
      }
    }
  }

  /**
    An attempt that is over leaves neither socket nor registration. A paused or stopped client is
    then done; any other sleeps for exactly its backoff, one second after an attempt of ten.
  */
  lemma AttemptEnds(s: State, e: LoopEvent)
    requires LoopEnabled(s, e) && (e.ConnectFails? || e.Closed?)
    ensures var t := FireLoop(s, e);
            var backoff := if s.now - s.openedAt >= 10000 then 1000 else s.backoffMs;
            && t.socket.None? && !t.registered
            && (if s.paused || s.stopped then t.main == Ended else t.main == Sleeping(s.now + backoff) && t.backoffMs == backoff)
  {
  }

  /** A sleep that is over starts the next attempt at once, with the backoff doubled up to thirty seconds. */
  lemma SleepEnds(s: State)
    requires s.main.Sleeping? && LoopEnabled(s, Run)
    ensures var t := FireLoop(s, Run);
            && s.main.until <= s.now
            && t.backoffMs == (if 2 * s.backoffMs <= 30000 then 2 * s.backoffMs else 30000)
            && (if s.paused || s.stopped then t.main == Ended
                else t.main == Connecting && t.attempts == s.attempts + 1 && t.openedAt == s.now)
  {
  }

  lemma ClockSpacesAttempts(s: State)
    requires ClockInv(s) && s.attempts >= 1
    ensures 3 * (s.openedAt - s.firstOpenedAt) >= 17000 * (s.attempts - 1) - 30000
  {
    var durations := s.durations[..s.attempts - 1];
    AmortisedBound(durations);
    assert |durations| == s.attempts - 1;
  }

  /**
    In every run the (n+1)-st connection attempt starts at least 17000 n / 3 - 10000 ms after the
    first, and the backoff is always one of the six values of the schedule.
  */
  lemma {:induction false} ReconnectsAreSpaced(run: seq<Timed>)
    ensures var s := Exec(INITIAL, run);
            && IsBackoff(s.backoffMs)
            && (s.attempts >= 1 ==> 3 * (s.openedAt - s.firstOpenedAt) >= 17000 * (s.attempts - 1) - 30000)
  {
    ClockHolds(run);
    var s := Exec(INITIAL, run);
    if s.attempts >= 1 {
      ClockSpacesAttempts(s);
    }
  }

  /** During an attempt the backoff has the closed form of the cycles completed before it. */
  lemma BackoffDuringAttempts(run: seq<Timed>)
    requires InAttempt(Exec(INITIAL, run).main)
    ensures var s := Exec(INITIAL, run);
            && |s.durations| == s.attempts - 1
            && s.backoffMs == if 1000 * PowerOfTwo(Streak(s.durations)) <= 30000 then 1000 * PowerOfTwo(Streak(s.durations)) else 30000
  {
    ClockHolds(run);
    BackoffClosedForm(Exec(INITIAL, run).durations);
  }
}
