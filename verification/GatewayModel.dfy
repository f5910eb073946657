/**
  The gateway client as a transition system.

  Python runs its tasks cooperatively, so the client's state changes in atomic segments that end
  where a coroutine awaits. One event below is one such segment, of the reconnect loop or of one
  job's task; events of different tasks interleave freely, and a task can be cancelled wherever it
  is suspended. An event that cannot happen in a state leaves the state alone, so every sequence
  of events is a run.
*/
module GatewayModel {
  import opened Options
  import opened FetchSpec
  import opened Backoff

  const MAX_PENDING_JOBS: int := 3

  // ----- State -------------------------------------------------------------

  /** Where the reconnect loop is suspended. */
  datatype Main =
    | Idle                      // start() has not created the task
    | Ready                     // created, not yet run
    | Connecting                // in websockets.connect
    | ReadingToken | Registering | Receiving | Closing // inside `async with`, socket open
    | Sleeping(until: nat)
    | Ended

  /** Which of the calls of `_send` in `_handle_fetch` a reply comes from. */
  datatype Reply = Busy | Failure | Crawled

  datatype Ending = Done(reply: Reply) | Cancelled

  /** Where a job's task is suspended. */
  datatype Point =
    | Created
    | Screening                 // in resolves_to_private
    | Crawling                  // in navigate_and_extract
    | Replying(reply: Reply)    // in socket.send
    | Finished(ending: Ending)

  /** A task, the job it was created for, and the number of times it has called `_send`. */
  datatype Task = Task(job: Job, at: Point, sends: nat)

  datatype State = State(
    main: Main,
    socket: Option<nat>,        // the connection, known by the number of the attempt that opened it
    registered: bool,
    paused: bool,
    stopped: bool,
    backoffMs: nat,
    pending: int,
    jobsServed: nat,
    tasks: seq<Task>,           // every task ever created, in order
    jobs: set<nat>,             // the `_jobs` set, by position in `tasks`
    cancelAsked: set<nat>,      // the tasks stop() has cancelled
    // history, read by no step
    now: nat,
    attempts: nat,              // connection attempts started
    openedAt: nat,              // when the latest one started (also the loop's local variable)
    firstOpenedAt: nat,
    durations: seq<nat>)        // of the attempts that were followed by a sleep

  const INITIAL: State :=
    State(Idle, None, false, false, false, INITIAL_BACKOFF_MS, 0, 0, [], {}, {}, 0, 0, 0, 0, [])

  /** What `check_url` does with a job's URL. */
  datatype UrlVerdict = ValidUrl | InvalidUrl | UrlRaises

  /** What happens to the client and its reconnect loop. */
  datatype LoopEvent =
    | Start(transportOk: bool)
    | Stop
    | Run                       // first step, or the sleep is over
    | ConnectFails
    | Connected
    | TokenRead
    | RegisterSent
    | Frame(raw: Option<Json>)  // None: the text is not JSON
    | ConnectionBreaks          // the stream ended, or something inside `async with` raised
    | Closed                    // leaving `async with` is complete
    | MainCancelled

  /** What happens to one job's task. */
  datatype TaskEvent =
    | Begins(url: UrlVerdict)
    | Screened(resolvesToPrivate: bool)
    | CrawlReturns
    | Raises                    // the awaited screening or crawl raised
    | SendReturns               // socket.send finished or failed: `_send` returns either way
    | CancelDelivered
    | Discarded                 // the done-callback

  datatype Event = Loop(what: LoopEvent) | OfTask(task: nat, how: TaskEvent)

  /** An event and the time on the loop's clock when it happens. */
  datatype Timed = Timed(time: nat, event: Event)

  // ----- Segments ----------------------------------------------------------

  predicate InBody(main: Main) {
    main.ReadingToken? || main.Registering? || main.Receiving?
  }

  predicate At(s: State, i: nat, p: Point) {
    i < |s.tasks| && s.tasks[i].at == p
  }

  /** The top of `_run_forever`'s loop, up to the connect. */
  function LoopTop(s: State): State {
    if s.stopped || s.paused then s.(main := Ended)
    else s.(main := Connecting,
            openedAt := s.now,
            attempts := s.attempts + 1,
            firstOpenedAt := if s.attempts == 0 then s.now else s.firstOpenedAt)
  }

  /** What follows `_connect_once`, up to the sleep. */
  function AttemptOver(s: State): State
    requires s.openedAt <= s.now
  {
    var s := s.(registered := false, socket := None);
    if s.stopped || s.paused then s.(main := Ended)
    else
      var backoff := if s.now - s.openedAt >= BACKOFF_RESET_AFTER_MS then INITIAL_BACKOFF_MS else s.backoffMs;
      s.(backoffMs := backoff,
         main := Sleeping(s.now + backoff),
         durations := s.durations + [s.now - s.openedAt])
  }

  /** A task is created for a job and kept in `_jobs`. */
  function AddJob(s: State, job: Job): State {
    s.(tasks := s.tasks + [Task(job, Created, 0)], jobs := s.jobs + {|s.tasks|})
  }

  /** The text of a string member, as the `kind == "..."` comparisons see it. */
  predicate Says(raw: Option<Json>, key: string, text: string) {
    raw.Some? && raw.value.Obj? && Get(raw.value.fields, key) == Str(text)
  }

  /** A fetch frame that `parse_fetch_frame` accepts. */
  predicate IsJobFrame(raw: Option<Json>) {
    Says(raw, "type", "fetch") && FrameJob(raw.value).Some?
  }

  predicate IsRegisteredFrame(raw: Option<Json>) {
    Says(raw, "type", "registered")
  }

  predicate IsAuthFailure(raw: Option<Json>) {
    Says(raw, "type", "error") && Says(raw, "code", "device_auth_failed")
  }

  /** A dict with this text under this key. */
  predicate Holds(raw: Option<Json>, key: string, text: string) {
    raw.Some? && raw.value.Obj? && key in raw.value.fields && raw.value.fields[key] == Str(text)
  }

  /** The three kinds of frames that change the client; a fetch frame does only if it names an id and a URL. */
  lemma FrameKindsExactly(raw: Option<Json>)
    ensures IsJobFrame(raw) <==> Holds(raw, "type", "fetch") && HasText(raw.value, "jobId") && HasText(raw.value, "url")
    ensures IsRegisteredFrame(raw) <==> Holds(raw, "type", "registered")
    ensures IsAuthFailure(raw) <==> Holds(raw, "type", "error") && Holds(raw, "code", "device_auth_failed")
  {
    if raw.Some? {
      FrameJobExactly(raw.value);
    }
  }

  /** `_dispatch` and `_handle_error`; every other frame is only logged. */
  function Dispatch(s: State, raw: Option<Json>): State {
    if IsJobFrame(raw) then AddJob(s, FrameJob(raw.value).value)
    else if IsRegisteredFrame(raw) then s.(registered := true)
    else if IsAuthFailure(raw) then s.(paused := true)
    else s
  }

  function SetPoint(s: State, i: nat, p: Point): State
    requires i < |s.tasks|
  {
    s.(tasks := s.tasks[i := s.tasks[i].(at := p)])
  }

  /** From the return of `_send` to the end of `_handle_fetch`. */
  function AfterSend(s: State, i: nat, reply: Reply): State
    requires i < |s.tasks|
  {
    var s := SetPoint(s, i, Finished(Done(reply)));
    match reply
    case Busy => s
    case Failure => s.(pending := s.pending - 1)
    case Crawled => s.(jobsServed := s.jobsServed + 1, pending := s.pending - 1)
  }

  /** A call of `_send`, up to the await on the socket that is current now, or past it if there is none. */
  function Send(s: State, i: nat, reply: Reply): State
    requires i < |s.tasks|
  {
    var s := s.(tasks := s.tasks[i := s.tasks[i].(at := Replying(reply), sends := s.tasks[i].sends + 1)]);
    if s.socket.None? then AfterSend(s, i, reply) else s
  }

  /** The first segment of `_handle_fetch`. */
  function BeginFetch(s: State, i: nat, url: UrlVerdict): State
    requires i < |s.tasks|
  {
    if s.pending >= MAX_PENDING_JOBS then Send(s, i, Busy)
    else
      var s := s.(pending := s.pending + 1);
      if url.ValidUrl? then SetPoint(s, i, Screening) else Send(s, i, Failure)
  }

  predicate IsAdmitted(t: Task) {
    t.at.Screening? || t.at.Crawling? || (t.at.Replying? && t.at.reply != Busy)
  }

  predicate IsServed(t: Task) {
    t.at == Finished(Done(Crawled))
  }

  /** CancelledError at the task's await; `finally` gives the admission back. */
  function CancelTask(s: State, i: nat): State
    requires i < |s.tasks|
  {
    SetPoint(if IsAdmitted(s.tasks[i]) then s.(pending := s.pending - 1) else s, i, Finished(Cancelled))
  }

  // ----- Steps and runs ----------------------------------------------------

  predicate LoopEnabled(s: State, e: LoopEvent) {
    match e
    case Start(_) => s.main.Idle?
    case Stop => true
    case Run => s.main.Ready? || (s.main.Sleeping? && s.main.until <= s.now)
    case ConnectFails => s.main.Connecting? && s.openedAt <= s.now
    case Connected => s.main.Connecting?
    case TokenRead => s.main.ReadingToken?
    case RegisterSent => s.main.Registering?
    case Frame(_) => s.main.Receiving?
    case ConnectionBreaks => InBody(s.main)
    case Closed => s.main.Closing? && s.openedAt <= s.now
    case MainCancelled => !s.main.Idle? && !s.main.Ended?
  }

  predicate TaskEnabled(s: State, i: nat, e: TaskEvent) {
    i < |s.tasks| &&
    var at := s.tasks[i].at;
    match e
    case Begins(_) => at.Created?
    case Screened(_) => at.Screening?
    case CrawlReturns => at.Crawling?
    case Raises => at.Screening? || at.Crawling?
    case SendReturns => at.Replying?
    case CancelDelivered => !at.Finished?
    case Discarded => at.Finished?
  }

  predicate Enabled(s: State, e: Timed) {
    && s.now <= e.time
    && match e.event
       case Loop(what) => LoopEnabled(s.(now := e.time), what)
       case OfTask(i, how) => TaskEnabled(s, i, how)
  }

  function FireLoop(s: State, e: LoopEvent): State
    requires LoopEnabled(s, e)
  {
    match e
    case Start(ok) => if ok then s.(main := Ready) else s
    case Stop => s.(stopped := true, cancelAsked := s.cancelAsked + s.jobs)
    case Run => LoopTop(if s.main.Sleeping? then s.(backoffMs := NextBackoffMs(s.backoffMs)) else s)
    case ConnectFails => AttemptOver(s)
    case Connected => s.(main := ReadingToken, socket := Some(s.attempts))
    case TokenRead => s.(main := Registering)
    case RegisterSent => s.(main := Receiving)
    case Frame(raw) => Dispatch(s, raw)
    case ConnectionBreaks => s.(main := Closing)
    case Closed => AttemptOver(s)
    case MainCancelled => s.(main := Ended)
  }

  function FireTask(s: State, i: nat, e: TaskEvent): State
    requires TaskEnabled(s, i, e)
  {
    match e
    case Begins(url) => BeginFetch(s, i, url)
    case Screened(private) => if private then Send(s, i, Failure) else SetPoint(s, i, Crawling)
    case CrawlReturns => Send(s, i, Crawled)
    case Raises => Send(s, i, Failure)
    case SendReturns => AfterSend(s, i, s.tasks[i].at.reply)
    case CancelDelivered => CancelTask(s, i)
    case Discarded => s.(jobs := s.jobs - {i})
  }

  function Fire(s: State, e: Event): State
    requires Enabled(s, Timed(s.now, e))
  {
    match e
    case Loop(what) => FireLoop(s, what)
    case OfTask(i, how) => FireTask(s, i, how)
  }

  function Step(s: State, e: Timed): State {
    if Enabled(s, e) then Fire(s.(now := e.time), e.event) else s
  }

  function Exec(s: State, run: seq<Timed>): State {
    if run == [] then s else Step(Exec(s, run[..|run| - 1]), run[|run| - 1])
  }

  predicate IsRegistered(s: State) {
    s.registered && s.socket.Some?
  }

  // ----- Counting ----------------------------------------------------------

  function Count(tasks: seq<Task>, p: Task -> bool): nat {
    if tasks == [] then 0
    else Count(tasks[..|tasks| - 1], p) + if p(tasks[|tasks| - 1]) then 1 else 0
  }

  function One(b: bool): nat {
    if b then 1 else 0
  }

  lemma {:induction false} CountUpdate(tasks: seq<Task>, i: nat, t: Task, p: Task -> bool)
    requires i < |tasks|
    ensures Count(tasks[i := t], p) == Count(tasks, p) - One(p(tasks[i])) + One(p(t))
  {
    var front, last := tasks[..|tasks| - 1], tasks[|tasks| - 1];
    if i < |front| {
      CountUpdate(front, i, t, p);
      assert tasks[i := t][..|front|] == front[i := t];
    } else {
      assert tasks[i := t][..|front|] == front;
    }
  }

  lemma CountAppend(tasks: seq<Task>, t: Task, p: Task -> bool)
    ensures Count(tasks + [t], p) == Count(tasks, p) + One(p(t))
  {
    assert (tasks + [t])[..|tasks|] == tasks;
  }

  lemma {:induction false} CountNone(tasks: seq<Task>, p: Task -> bool)
    requires forall i :: 0 <= i < |tasks| ==> !p(tasks[i])
    ensures Count(tasks, p) == 0
  {
    if tasks != [] {
      CountNone(tasks[..|tasks| - 1], p);
    }
  }

  // ----- Jobs --------------------------------------------------------------

  /** How often a task can have called `_send`, given where it is. */
  predicate SendsFit(t: Task) {
    match t.at
    case Created => t.sends == 0
    case Screening => t.sends == 0
    case Crawling => t.sends == 0
    case Replying(_) => t.sends == 1
    case Finished(Done(_)) => t.sends == 1
    case Finished(Cancelled) => t.sends <= 1
  }

  ghost predicate JobsInv(s: State) {
    && s.pending == Count(s.tasks, IsAdmitted) <= 3
    && s.jobsServed == Count(s.tasks, IsServed)
    && (forall i :: 0 <= i < |s.tasks| ==> SendsFit(s.tasks[i]))
    && (forall i :: 0 <= i < |s.tasks| && !s.tasks[i].at.Finished? ==> i in s.jobs)
  }

  /** One task moves to `t`; the counters move with it. */
  lemma TaskMoves(s: State, i: nat, t: Task)
    requires JobsInv(s) && i < |s.tasks| && !s.tasks[i].at.Finished? && SendsFit(t)
    ensures var tasks := s.tasks[i := t];
            && Count(tasks, IsAdmitted) == s.pending - One(IsAdmitted(s.tasks[i])) + One(IsAdmitted(t))
            && Count(tasks, IsServed) == s.jobsServed + One(IsServed(t))
            && (forall j :: 0 <= j < |tasks| ==> SendsFit(tasks[j]))
            && (forall j :: 0 <= j < |tasks| && !tasks[j].at.Finished? ==> j in s.jobs)
  {
    CountUpdate(s.tasks, i, t, IsAdmitted);
    CountUpdate(s.tasks, i, t, IsServed);
  }

  lemma SuspendedSend(s: State, i: nat, reply: Reply)
    requires JobsInv(s) && i < |s.tasks| && (reply == Busy <==> !IsAdmitted(s.tasks[i])) && s.socket.Some?
    requires s.tasks[i].at.Created? || s.tasks[i].at.Screening? || s.tasks[i].at.Crawling?
    ensures JobsInv(Send(s, i, reply))
  {
    TaskMoves(s, i, Task(s.tasks[i].job, Replying(reply), 1));
  }

  lemma AfterSendKeepsJobs(s: State, i: nat)
    requires JobsInv(s) && i < |s.tasks| && s.tasks[i].at.Replying?
    ensures JobsInv(AfterSend(s, i, s.tasks[i].at.reply))
  {
    TaskMoves(s, i, s.tasks[i].(at := Finished(Done(s.tasks[i].at.reply))));
  }

  lemma DiscardedSend(s: State, i: nat, reply: Reply)
    requires JobsInv(s) && i < |s.tasks| && (reply == Busy <==> !IsAdmitted(s.tasks[i])) && s.socket.None?
    requires s.tasks[i].at.Created? || s.tasks[i].at.Screening? || s.tasks[i].at.Crawling?
    ensures JobsInv(Send(s, i, reply))
  {
    var sent := Task(s.tasks[i].job, Finished(Done(reply)), 1);
    TaskMoves(s, i, sent);
    assert Send(s, i, reply).tasks == s.tasks[i := sent];
  }

  lemma SendKeepsJobs(s: State, i: nat, reply: Reply)
    requires JobsInv(s) && i < |s.tasks| && (reply == Busy <==> !IsAdmitted(s.tasks[i]))
    requires s.tasks[i].at.Created? || s.tasks[i].at.Screening? || s.tasks[i].at.Crawling?
    ensures JobsInv(Send(s, i, reply))
  {
    if s.socket.None? {
      DiscardedSend(s, i, reply);
    } else {
      SuspendedSend(s, i, reply);
    }
  }

  lemma AdmitKeepsJobs(s: State, i: nat)
    requires JobsInv(s) && At(s, i, Created) && s.pending < MAX_PENDING_JOBS
    ensures JobsInv(SetPoint(s.(pending := s.pending + 1), i, Screening))
  {
    TaskMoves(s, i, s.tasks[i].(at := Screening));
  }

  /** Where the task was suspended before it called `_send` leaves no trace. */
  lemma SendAgrees(s: State, i: nat, reply: Reply)
    requires i < |s.tasks|
    ensures Send(SetPoint(s, i, Screening), i, reply) == Send(s, i, reply)
  {
    var sent := s.tasks[i].(at := Replying(reply), sends := s.tasks[i].sends + 1);
    assert SetPoint(s, i, Screening).tasks[i := sent] == s.tasks[i := sent];
  }

  lemma RefuseUrlKeepsJobs(s: State, i: nat)
    requires JobsInv(s) && At(s, i, Created) && s.pending < MAX_PENDING_JOBS
    ensures JobsInv(Send(s.(pending := s.pending + 1), i, Failure))
  {
    AdmitKeepsJobs(s, i);
    SendKeepsJobs(SetPoint(s.(pending := s.pending + 1), i, Screening), i, Failure);
    SendAgrees(s.(pending := s.pending + 1), i, Failure);
  }

  /** A new job is refused unless fewer than three are running, and admitted otherwise. */
  lemma BeginKeepsJobs(s: State, i: nat, url: UrlVerdict)
    requires JobsInv(s) && At(s, i, Created)
    ensures JobsInv(BeginFetch(s, i, url))
  {
    if s.pending >= MAX_PENDING_JOBS {
      SendKeepsJobs(s, i, Busy);
    } else if url.ValidUrl? {
      AdmitKeepsJobs(s, i);
    } else {
      RefuseUrlKeepsJobs(s, i);
    }
  }

  lemma AddJobKeepsJobs(s: State, job: Job)
    requires JobsInv(s)
    ensures JobsInv(AddJob(s, job))
  {
    CountAppend(s.tasks, Task(job, Created, 0), IsAdmitted);
    CountAppend(s.tasks, Task(job, Created, 0), IsServed);
  }

  lemma DispatchKeepsJobs(s: State, raw: Option<Json>)
    requires JobsInv(s)
    ensures JobsInv(Dispatch(s, raw))
  {
    var t := Dispatch(s, raw);
    if IsJobFrame(raw) {
      AddJobKeepsJobs(s, FrameJob(raw.value).value);
    }
    assert IsJobFrame(raw) || (t.tasks == s.tasks && t.pending == s.pending && t.jobsServed == s.jobsServed && t.jobs == s.jobs);
  }

  /** The events of the reconnect loop touch no job, except that a frame may create one. */
  lemma LoopKeepsJobs(s: State, e: LoopEvent)
    requires JobsInv(s) && LoopEnabled(s, e)
    ensures JobsInv(FireLoop(s, e))
  {
    var t := FireLoop(s, e);
    if e.Frame? {
      DispatchKeepsJobs(s, e.raw);
    } else {
      assert t.tasks == s.tasks && t.pending == s.pending && t.jobsServed == s.jobsServed && t.jobs == s.jobs;
    }
  }

  lemma PointKeepsJobs(s: State, i: nat)
    requires JobsInv(s) && At(s, i, Screening)
    ensures JobsInv(SetPoint(s, i, Crawling))
  {
    TaskMoves(s, i, s.tasks[i].(at := Crawling));
  }

  lemma CancelKeepsJobs(s: State, i: nat)
    requires JobsInv(s) && i < |s.tasks| && !s.tasks[i].at.Finished?
    ensures JobsInv(CancelTask(s, i))
  {
    TaskMoves(s, i, s.tasks[i].(at := Finished(Cancelled)));
  }

  lemma TaskKeepsJobs(s: State, i: nat, e: TaskEvent)
    requires JobsInv(s) && TaskEnabled(s, i, e)
    ensures JobsInv(FireTask(s, i, e))
  {
    match e
    case Begins(url) => BeginKeepsJobs(s, i, url);
    case Screened(private) =>
      if private {
        SendKeepsJobs(s, i, Failure);
      } else {
        PointKeepsJobs(s, i);
      }
    case CrawlReturns => SendKeepsJobs(s, i, Crawled);
    case Raises => SendKeepsJobs(s, i, Failure);
    case SendReturns => AfterSendKeepsJobs(s, i);
    case CancelDelivered => CancelKeepsJobs(s, i);
    case Discarded =>
  }

  lemma FireKeepsJobs(s: State, e: Event)
    requires JobsInv(s) && Enabled(s, Timed(s.now, e))
    ensures JobsInv(Fire(s, e))
  {
    match e
    case Loop(what) => LoopKeepsJobs(s, what);
    case OfTask(i, how) => TaskKeepsJobs(s, i, how);
  }

  /** Jobs over every run, interleaving and cancellation. */
  lemma {:induction false} JobsHold(run: seq<Timed>)
    ensures JobsInv(Exec(INITIAL, run))
  {
    if run != [] {
      var last := |run| - 1;
      JobsHold(run[..last]);
      var s := Exec(INITIAL, run[..last]);
      if Enabled(s, run[last]) {
        FireKeepsJobs(s.(now := run[last].time), run[last].event);
      }
    }
  }
}
