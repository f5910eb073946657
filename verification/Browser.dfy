/** The browser manager's rule probing and its profile epochs. */
module Browser {
  import opened Options
  import opened Proxy

  // ----- Probing the guards ------------------------------------------------

  const PROBE_SLEEP_MS: nat := 50

  datatype Sight = Visible | Hidden | Throws

  /** What each look at a selector sees, by pass and index, and how long a full pass takes. */
  datatype Rendering = Rendering(sight: (nat, nat) -> Sight, took: nat -> nat)

  /** When the p-th full pass over the selectors ends, counting from the call. */
  function PassEnd(r: Rendering, p: nat): nat {
    (if p == 0 then 0 else PassEnd(r, p - 1) + 50) + r.took(p)
  }

  predicate NoneVisible(r: Rendering, p: nat, count: nat) {
    forall i: nat :: i < count ==> r.sight(p, i) != Visible
  }

  /** `answer` after `passes` passes: the least visible index of the last one, or -1 at the deadline. */
  predicate IsProbeAnswer(r: Rendering, count: nat, budget: nat, answer: int, passes: nat) {
    && passes >= 1
    && (forall p: nat :: p < passes - 1 ==> NoneVisible(r, p, count))
    && (passes >= 2 ==> PassEnd(r, passes - 2) < budget)
    && (if answer == -1 then NoneVisible(r, passes - 1, count) && PassEnd(r, passes - 1) >= budget
        else 0 <= answer < count && r.sight(passes - 1, answer) == Visible && NoneVisible(r, passes - 1, answer))
  }

  /** One pass: the first visible selector, or -1. */
  method LookOnce(r: Rendering, p: nat, count: nat) returns (answer: int)
    ensures if answer == -1 then NoneVisible(r, p, count)
            else 0 <= answer < count && r.sight(p, answer) == Visible && NoneVisible(r, p, answer)
  {
    for index := 0 to count
      invariant NoneVisible(r, p, index)
    {
      if r.sight(p, index) == Visible {
        return index;
      }
    }
    return -1;
  }

  method ProbeRules(r: Rendering, count: nat, budget: nat) returns (answer: int, passes: nat)
    ensures IsProbeAnswer(r, count, budget, answer, passes)
  {
    passes := 0;
    var now: nat := 0;
    while true
      invariant forall p: nat :: p < passes ==> NoneVisible(r, p, count)
      invariant passes > 0 ==> PassEnd(r, passes - 1) < budget
      invariant now == if passes == 0 then 0 else PassEnd(r, passes - 1) + PROBE_SLEEP_MS
      decreases budget + PROBE_SLEEP_MS - now
    {
      answer := LookOnce(r, passes, count);
      if answer != -1 {
        return answer, passes + 1;
      }
      now := now + r.took(passes);
      assert now == PassEnd(r, passes);
      if now >= budget {
        return -1, passes + 1;
      }
      now := now + PROBE_SLEEP_MS;
      passes := passes + 1;
    }
  }

  lemma {:induction false} PassesTakeTime(r: Rendering, p: nat)
    ensures PassEnd(r, p) >= 50 * p
  {
    if p > 0 {
      PassesTakeTime(r, p - 1);
    }
  }

  /** At least one pass, and at most ceil(budget / 50) + 1. */
  lemma ProbeIsBounded(r: Rendering, count: nat, budget: nat, answer: int, passes: nat)
    requires IsProbeAnswer(r, count, budget, answer, passes)
    ensures 1 <= passes <= (budget + 49) / 50 + 1
  {
    if passes >= 2 {
      PassesTakeTime(r, passes - 2);
    }
  }

  lemma {:induction false} PassesGrow(r: Rendering, p: nat, q: nat)
    requires p <= q
    ensures PassEnd(r, p) <= PassEnd(r, q)
    decreases q
  {
    if p < q {
      PassesGrow(r, p, q - 1);
    }
  }

  lemma EarlierPassIsFruitless(r: Rendering, count: nat, budget: nat, b: int, n: nat, p: nat)
    requires IsProbeAnswer(r, count, budget, b, n) && p < n - 1
    ensures NoneVisible(r, p, count) && PassEnd(r, p) < budget
  {
    PassesGrow(r, p, n - 2);
  }

  lemma NoFewerPasses(r: Rendering, count: nat, budget: nat, a: int, m: nat, b: int, n: nat)
    requires IsProbeAnswer(r, count, budget, a, m) && IsProbeAnswer(r, count, budget, b, n)
    ensures n <= m
  {
    if m < n {
      EarlierPassIsFruitless(r, count, budget, b, n, m - 1);
      assert false;
    }
  }

  /** What was visible, and when, determines the answer. */
  lemma ProbeAnswerIsUnique(r: Rendering, count: nat, budget: nat, a: int, m: nat, b: int, n: nat)
    requires IsProbeAnswer(r, count, budget, a, m) && IsProbeAnswer(r, count, budget, b, n)
    ensures a == b && m == n
  {
    NoFewerPasses(r, count, budget, a, m, b, n);
    NoFewerPasses(r, count, budget, b, n, a, m);
  }

  // ----- Profile epochs ----------------------------------------------------

  /** Who holds the job lock: nobody, a job still resetting the profile, or a job crawling. */
  datatype Phase = Free | Resetting | Fetching

  /** The manager's books: what jobs and resets write. */
  datatype Epoch = Epoch(
    phase: Phase,
    jobsSinceReset: nat,
    proxySid: Option<string>,
    // history
    draws: nat,                 // session ids drawn so far
    started: nat,               // jobs that reached the crawl
    resets: nat)                // resets that completed

  /** The session id a launch reads, and, as history, the resets completed when it does. */
  datatype Session = Session(sid: Option<string>, resets: nat)

  /** Where the `_launch` task is suspended. */
  datatype Launch = NoLaunch | Entering(session: Session) | OpeningPage

  /** The manager's hold on the browser: what launches, crashes and teardowns write. */
  datatype Engine = Engine(
    stack: Option<Session>,     // the browser that runs, known by the session it was launched with
    hasContext: bool,
    hasPage: bool,
    launch: Launch,
    recoveries: nat,            // crash handlers that have not torn down yet
    closed: bool)

  datatype Manager = Manager(books: Epoch, engine: Engine)

  /** The configuration, and the random draws in the order they are made. */
  datatype Setup = Setup(limit: int, hasProxy: bool, random: nat -> SidNumber)

  /** What a job does to the manager. */
  datatype JobEvent =
    | JobAcquires               // a job gets the lock
    | TeardownDone              // the reset's teardown has finished
    | TeardownCancelled         // the job is cancelled in it
    | FetchEnds                 // the crawl returned, raised or was cancelled

  /** What happens to the browser, in a job or outside one. */
  datatype BrowserEvent =
    | LaunchStarts(pageClosed: bool) // ensure_browser found it not ready
    | ContextEntered
    | PageOpened
    | LaunchFails
    | ContextCloses
    | PageCrashes
    | RecoveryTearsDown         // the crash handler's first segment
    | Closes

  datatype ManagerEvent = OfJob(job: JobEvent) | OfBrowser(browser: BrowserEvent)

  const NO_ENGINE: Engine := Engine(None, false, false, NoLaunch, 0, false)

  function Fresh(setup: Setup): Manager {
    Manager(
      Epoch(Free, 0, if setup.hasProxy then Some(SidText(setup.random(0))) else None, if setup.hasProxy then 1 else 0, 0, 0),
      NO_ENGINE)
  }

  /** `_reset_profile_if_due` after its teardown. */
  function Reset(setup: Setup, e: Epoch): Epoch {
    e.(jobsSinceReset := 0,
       proxySid := if setup.hasProxy then Some(SidText(setup.random(e.draws))) else e.proxySid,
       draws := if setup.hasProxy then e.draws + 1 else e.draws,
       resets := e.resets + 1)
  }

  predicate ResetIsDue(setup: Setup, e: Epoch) {
    e.phase == Free && setup.limit > 0 && e.jobsSinceReset >= setup.limit
  }

  function BooksStep(setup: Setup, e: Epoch, event: JobEvent): Epoch {
    match event
    case JobAcquires =>
      if e.phase != Free then e
      else if ResetIsDue(setup, e) then e.(phase := Resetting)
      else e.(phase := Fetching, started := e.started + 1)
    case TeardownDone =>
      if e.phase != Resetting then e else Reset(setup, e).(phase := Fetching, started := e.started + 1)
    case TeardownCancelled =>
      if e.phase != Resetting then e else e.(phase := Free)
    case FetchEnds =>
      if e.phase != Fetching then e else e.(phase := Free, jobsSinceReset := e.jobsSinceReset + 1)
  }

  /** `_teardown` up to its await. */
  function Teardown(engine: Engine): Engine {
    engine.(stack := None, hasContext := false, hasPage := false)
  }

  predicate IsReady(engine: Engine) {
    !engine.closed && engine.hasContext && engine.hasPage
  }

  /** One segment of a launch, a crash handler or close(); the books give a launch its session. */
  function EngineStep(engine: Engine, books: Epoch, event: BrowserEvent): Engine {
    match event
    case LaunchStarts(pageClosed) =>
      if engine.closed || (IsReady(engine) && !pageClosed) || engine.launch != NoLaunch then engine
      else engine.(launch := Entering(Session(books.proxySid, books.resets)))
    case ContextEntered =>
      if !engine.launch.Entering? then engine
      else engine.(stack := Some(engine.launch.session), hasContext := true, launch := OpeningPage)
    case PageOpened =>
      if engine.launch != OpeningPage then engine else engine.(hasPage := true, launch := NoLaunch)
    case LaunchFails => engine.(launch := NoLaunch)
    case ContextCloses => engine.(hasContext := false, hasPage := false)
    case PageCrashes => engine.(hasPage := false, recoveries := engine.recoveries + 1)
    case RecoveryTearsDown =>
      if engine.recoveries == 0 then engine else Teardown(engine).(recoveries := engine.recoveries - 1)
    case Closes => Teardown(engine).(closed := true)
  }

  /** A job that finds a reset due tears the browser down before it waits. */
  function ManagerStep(setup: Setup, m: Manager, event: ManagerEvent): Manager {
    match event
    case OfJob(job) =>
      Manager(
        BooksStep(setup, m.books, job),
        if job == JobAcquires && ResetIsDue(setup, m.books) then Teardown(m.engine) else m.engine)
    case OfBrowser(browser) => m.(engine := EngineStep(m.engine, m.books, browser))
  }

  function ManagerRun(setup: Setup, events: seq<ManagerEvent>): Manager {
    if events == [] then Fresh(setup)
    else ManagerStep(setup, ManagerRun(setup, events[..|events| - 1]), events[|events| - 1])
  }

  /** The manager's own fields, updated in place segment by segment. */
  class BrowserManager {
    const setup: Setup
    var jobsSinceReset: nat
    var proxySid: Option<string>
    var phase: Phase
    var draws: nat
    var started: nat
    var resets: nat
    var stack: Option<Session>
    var hasContext: bool
    var hasPage: bool
    var launch: Launch
    var recoveries: nat
    var closed: bool

    function Books(): Epoch
      reads `phase, `jobsSinceReset, `proxySid, `draws, `started, `resets
    {
      Epoch(phase, jobsSinceReset, proxySid, draws, started, resets)
    }

    function Hold(): Engine
      reads `stack, `hasContext, `hasPage, `launch, `recoveries, `closed
    {
      Engine(stack, hasContext, hasPage, launch, recoveries, closed)
    }

    function View(): Manager
      reads this
    {
      Manager(Books(), Hold())
    }

    constructor (setup: Setup)
      ensures this.setup == setup && View() == Fresh(setup)
    {
      this.setup := setup;
      phase, jobsSinceReset, started, resets := Free, 0, 0, 0;
      proxySid := if setup.hasProxy then Some(SidText(setup.random(0))) else None;
      draws := if setup.hasProxy then 1 else 0;
      stack, hasContext, hasPage, launch, recoveries, closed := None, false, false, NoLaunch, 0, false;
    }

    method TearDown()
      modifies `stack, `hasContext, `hasPage
      ensures Hold() == Teardown(old(Hold()))
    {
      stack := None;
      hasContext := false;
      hasPage := false;
    }

    /** Crash recovery, launches and close(): by its frame, none of it writes the counter or the session id. */
    method HandleBrowser(event: BrowserEvent)
      modifies `stack, `hasContext, `hasPage, `launch, `recoveries, `closed
      ensures Hold() == EngineStep(old(Hold()), Books(), event)
    {
      match event {
        case LaunchStarts(pageClosed) =>
          var ready := !closed && hasContext && hasPage && !pageClosed;
          if !closed && !ready && launch == NoLaunch {
            launch := Entering(Session(proxySid, resets));
          }
        case ContextEntered =>
          if launch.Entering? {
            stack := Some(launch.session);
            hasContext := true;
            launch := OpeningPage;
          }
        case PageOpened =>
          if launch == OpeningPage {
            hasPage := true;
            launch := NoLaunch;
          }
        case LaunchFails => launch := NoLaunch;
        case ContextCloses =>
          hasContext := false;
          hasPage := false;
        case PageCrashes =>
          hasPage := false;
          recoveries := recoveries + 1;
        case RecoveryTearsDown =>
          if recoveries > 0 {
            TearDown();
            recoveries := recoveries - 1;
          }
        case Closes =>
          closed := true;
          TearDown();
      }
    }

    /** The part of `_reset_profile_if_due` after its await. */
    method ClearProfile()
      modifies `jobsSinceReset, `proxySid, `draws, `resets
      ensures Books() == Reset(setup, old(Books()))
    {
      jobsSinceReset := 0;
      if setup.hasProxy {
        proxySid := Some(SidText(setup.random(draws)));
        draws := draws + 1;
      }
      resets := resets + 1;
    }

    method HandleJob(event: JobEvent)
      modifies this
      ensures View() == ManagerStep(setup, old(View()), OfJob(event))
    {
      match event {
        case JobAcquires =>
          if phase == Free {
            if setup.limit <= 0 || jobsSinceReset < setup.limit {
              phase := Fetching;
              started := started + 1;
            } else {
              TearDown();
              phase := Resetting;
            }
          }
        case TeardownDone =>
          if phase == Resetting {
            ClearProfile();
            phase := Fetching;
            started := started + 1;
          }
        case TeardownCancelled =>
          if phase == Resetting {
            phase := Free;
          }
        case FetchEnds =>
          if phase == Fetching {
            phase := Free;
            jobsSinceReset := jobsSinceReset + 1;
          }
      }
    }

    method Handle(event: ManagerEvent)
      modifies this
      ensures View() == ManagerStep(setup, old(View()), event)
    {
      match event {
        case OfJob(job) => HandleJob(job);
        case OfBrowser(browser) => HandleBrowser(browser);
      }
    }
  }

  // Crash recovery leaves no trace in the books.

  /** The books as the job events alone make them. */
  function BooksRun(setup: Setup, jobs: seq<JobEvent>): Epoch {
    if jobs == [] then Fresh(setup).books
    else BooksStep(setup, BooksRun(setup, jobs[..|jobs| - 1]), jobs[|jobs| - 1])
  }

  /** The run with every launch, crash, recovery and closing taken out. */
  function JobEvents(events: seq<ManagerEvent>): seq<JobEvent> {
    if events == [] then []
    else
      var last := events[|events| - 1];
      JobEvents(events[..|events| - 1]) + if last.OfJob? then [last.job] else []
  }

  /**
    Taking every crash, recovery and launch out of a run, wherever they interleave with jobs and
    resets, leaves the same counter, the same session id and the same resets.
  */
  lemma {:induction false} RecoveryKeepsTheSession(setup: Setup, events: seq<ManagerEvent>)
    ensures ManagerRun(setup, events).books == BooksRun(setup, JobEvents(events))
  {
    if events != [] {
      var front, last := events[..|events| - 1], events[|events| - 1];
      RecoveryKeepsTheSession(setup, front);
      if last.OfJob? {
        var jobs := JobEvents(events);
        assert jobs[..|jobs| - 1] == JobEvents(front);
      } else {
        assert JobEvents(events) == JobEvents(front);
      }
    }
  }

  lemma NextMultiple(limit: nat, k: nat)
    ensures limit * (k + 1) == limit * k + limit
  {
  }

  lemma AtLeastOne(limit: nat, k: nat)
    requires k >= 1
    ensures limit * k >= limit
  {
  }

  /** Quotients are unique. */
  lemma QuotientIs(limit: nat, k: nat, rest: nat, n: nat)
    requires rest < limit && n == limit * k + rest
    ensures n / limit == k
  {
    var q, r := n / limit, n % limit;
    assert n == limit * q + r && r < limit;
    if q < k {
      Difference(limit, k, q);
      AtLeastOne(limit, k - q);
    } else if q > k {
      Difference(limit, q, k);
      AtLeastOne(limit, q - k);
    }
  }

  lemma Difference(limit: nat, a: nat, b: nat)
    requires a >= b
    ensures limit * a - limit * b == limit * (a - b)
  {
  }

  /** Jobs that started, other than the one that is crawling now. */
  function Ended(e: Epoch): int {
    if e.phase == Fetching then e.started - 1 else e.started
  }

  /** The session id after that many resets. */
  function SidAfter(setup: Setup, resets: nat): Option<string> {
    if setup.hasProxy then Some(SidText(setup.random(resets))) else None
  }

  predicate EpochInv(setup: Setup, e: Epoch) {
    && (e.phase == Fetching ==> e.started >= 1)
    && (setup.limit > 0 ==>
          && Ended(e) == setup.limit * e.resets + e.jobsSinceReset
          && e.jobsSinceReset <= setup.limit
          && (e.phase == Fetching ==> e.jobsSinceReset < setup.limit)
          && (e.phase == Resetting ==> e.jobsSinceReset == setup.limit)
          && (e.phase != Fetching && e.started >= 1 ==> e.jobsSinceReset >= 1))
    && (setup.limit <= 0 ==> e.resets == 0 && e.phase != Resetting)
    && e.draws == (if setup.hasProxy then e.resets + 1 else 0)
    && e.proxySid == SidAfter(setup, e.resets)
  }

  /** A session was read from the books at some point. */
  predicate SessionInv(setup: Setup, s: Session, resets: nat) {
    s.resets <= resets && s.sid == SidAfter(setup, s.resets)
  }

  predicate EngineInv(setup: Setup, m: Manager) {
    && (m.engine.stack.Some? ==> SessionInv(setup, m.engine.stack.value, m.books.resets))
    && (m.engine.launch.Entering? ==> SessionInv(setup, m.engine.launch.session, m.books.resets))
  }

  lemma BooksKept(setup: Setup, e: Epoch, event: JobEvent)
    requires EpochInv(setup, e)
    ensures EpochInv(setup, BooksStep(setup, e, event)) && e.resets <= BooksStep(setup, e, event).resets
  {
    if setup.limit > 0 {
      NextMultiple(setup.limit, e.resets);
    }
  }

  lemma {:induction false} EpochHolds(setup: Setup, events: seq<ManagerEvent>)
    ensures EpochInv(setup, ManagerRun(setup, events).books) && EngineInv(setup, ManagerRun(setup, events))
  {
    if events != [] {
      var front, last := events[..|events| - 1], events[|events| - 1];
      EpochHolds(setup, front);
      if last.OfJob? {
        BooksKept(setup, ManagerRun(setup, front).books, last.job);
      }
    } else if setup.limit > 0 {
      assert setup.limit * 0 == 0;
    }
  }

  /**
    Between jobs, after n >= 1 of them started and whichever failed or were cancelled, exactly
    floor((n - 1) / limit) resets have completed and the counter stands at n - limit * resets.
  */
  lemma ResetsAreOnSchedule(setup: Setup, events: seq<ManagerEvent>)
    requires setup.limit > 0
    ensures var e := ManagerRun(setup, events).books;
            e.phase == Free && e.started >= 1 ==>
              && e.resets == (e.started - 1) / setup.limit
              && e.jobsSinceReset == e.started - setup.limit * e.resets
              && 1 <= e.jobsSinceReset <= setup.limit
  {
    var e := ManagerRun(setup, events).books;
    EpochHolds(setup, events);
    if e.phase == Free && e.started >= 1 {
      QuotientIs(setup.limit, e.resets, e.jobsSinceReset - 1, e.started - 1);
    }
  }

  /**
    The session id is redrawn at the completed resets and only there: after k of them it is the
    (k+1)-st draw, through whatever crashes and relaunches. With resets disabled it is the first
    one for ever.
  */
  lemma SessionFollowsResets(setup: Setup, events: seq<ManagerEvent>)
    requires setup.hasProxy
    ensures var e := ManagerRun(setup, events).books;
            && e.proxySid == Some(SidText(setup.random(e.resets))) && e.draws == e.resets + 1
            && (setup.limit <= 0 ==> e.proxySid == Some(SidText(setup.random(0))))
  {
    EpochHolds(setup, events);
  }

  lemma OneMoreEvent(setup: Setup, events: seq<ManagerEvent>, event: ManagerEvent)
    ensures ManagerRun(setup, events + [event]) == ManagerStep(setup, ManagerRun(setup, events), event)
  {
    assert (events + [event])[..|events|] == events;
  }

  /** A job that gets the lock is crawled, after a reset exactly if as many jobs as the limit have ended since the last one. */
  lemma NextJob(setup: Setup, events: seq<ManagerEvent>) returns (more: seq<ManagerEvent>)
    requires ManagerRun(setup, events).books.phase == Free
    ensures var e, f := ManagerRun(setup, events).books, ManagerRun(setup, more).books;
            && f.phase == Free && f.started == e.started + 1
            && (if setup.limit > 0 && e.jobsSinceReset >= setup.limit then f.resets == e.resets + 1 && f.jobsSinceReset == 1
                else f.resets == e.resets && f.jobsSinceReset == e.jobsSinceReset + 1)
  {
    OneMoreEvent(setup, events, OfJob(JobAcquires));
    more := events + [OfJob(JobAcquires)];
    if ManagerRun(setup, more).books.phase == Resetting {
      OneMoreEvent(setup, more, OfJob(TeardownDone));
      more := more + [OfJob(TeardownDone)];
    }
    OneMoreEvent(setup, more, OfJob(FetchEnds));
    more := more + [OfJob(FetchEnds)];
  }

  /** Any number of jobs can be served one after the other, the schedule of the resets being what it is. */
  lemma {:induction false} AnyNumberCanRun(setup: Setup, n: nat) returns (events: seq<ManagerEvent>)
    ensures var e := ManagerRun(setup, events).books;
            && e.phase == Free && e.started == n
            && (setup.limit > 0 && n >= 1 ==> e.resets == (n - 1) / setup.limit)
  {
    if n == 0 {
      events := [];
    } else {
      events := AnyNumberCanRun(setup, n - 1);
      events := NextJob(setup, events);
      if setup.limit > 0 {
        ResetsAreOnSchedule(setup, events);
      }
    }
  }

  /** Once closed, the manager stays closed, is never ready again and begins no launch. */
  lemma {:induction false} ClosedForGood(setup: Setup, events: seq<ManagerEvent>, k: nat)
    requires k <= |events| && ManagerRun(setup, events[..k]).engine.closed
    ensures ManagerRun(setup, events).engine.closed && !IsReady(ManagerRun(setup, events).engine)
    ensures ManagerRun(setup, events[..k]).engine.launch.NoLaunch? ==> ManagerRun(setup, events).engine.launch.NoLaunch?
  {
    if k == |events| {
      assert events[..k] == events;
    } else {
      var front := events[..|events| - 1];
      assert front[..k] == events[..k];
      ClosedForGood(setup, front, k);
    }
  }

  const CRASH: seq<ManagerEvent> := [OfBrowser(PageCrashes), OfBrowser(RecoveryTearsDown)]
  const RELAUNCH: seq<ManagerEvent> := [OfBrowser(LaunchStarts(false)), OfBrowser(ContextEntered), OfBrowser(PageOpened)]

  lemma RunContinues(setup: Setup, events: seq<ManagerEvent>, more: seq<ManagerEvent>, k: nat)
    requires k < |more|
    ensures ManagerRun(setup, events + more[..k + 1]) == ManagerStep(setup, ManagerRun(setup, events + more[..k]), more[k])
  {
    assert events + more[..k + 1] == events + more[..k] + [more[k]];
    OneMoreEvent(setup, events + more[..k], more[k]);
  }

  lemma RunContinuesAll(events: seq<ManagerEvent>, more: seq<ManagerEvent>)
    ensures events + more[..0] == events && more[..|more|] == more
  {
  }

  /** An open manager whose browser is not ready, for whatever reason, comes to have one, launched with the session id it has. */
  lemma RelaunchIsReady(setup: Setup, events: seq<ManagerEvent>)
    requires var engine := ManagerRun(setup, events).engine; engine.launch.NoLaunch? && !engine.closed && !IsReady(engine)
    ensures var m, after := ManagerRun(setup, events), ManagerRun(setup, events + RELAUNCH);
            && IsReady(after.engine) && after.books == m.books
            && after.engine.stack == Some(Session(m.books.proxySid, m.books.resets))
  {
    RunContinuesAll(events, RELAUNCH);
    RunContinues(setup, events, RELAUNCH, 0);
    RunContinues(setup, events, RELAUNCH, 1);
    RunContinues(setup, events, RELAUNCH, 2);
  }

  /** A closed context, a crashed page and a failed launch are noticed; a crash also takes the browser down. */
  lemma LossIsNoticed(setup: Setup, events: seq<ManagerEvent>)
    ensures !IsReady(ManagerRun(setup, events + [OfBrowser(ContextCloses)]).engine)
    ensures !IsReady(ManagerRun(setup, events + [OfBrowser(PageCrashes)]).engine)
    ensures ManagerRun(setup, events + [OfBrowser(LaunchFails)]).engine.launch.NoLaunch?
    ensures var engine := ManagerRun(setup, events + CRASH).engine;
            && engine.stack == None && !IsReady(engine)
            && engine.launch == ManagerRun(setup, events).engine.launch && engine.closed == ManagerRun(setup, events).engine.closed
  {
    OneMoreEvent(setup, events, OfBrowser(ContextCloses));
    OneMoreEvent(setup, events, OfBrowser(PageCrashes));
    OneMoreEvent(setup, events, OfBrowser(LaunchFails));
    RunContinuesAll(events, CRASH);
    RunContinues(setup, events, CRASH, 0);
    RunContinues(setup, events, CRASH, 1);
  }

  lemma SidTextInjective(a: SidNumber, b: SidNumber)
    requires SidText(a) == SidText(b)
    ensures a == b
  {
    SidTextIsBijective(a, "000000");
    SidTextIsBijective(b, "000000");
  }

  /**
    A running browser has the session id of the profile generation its launch began in, which is
    the manager's own exactly if the draws of that generation and of the current one are equal;
    so a browser relaunched after a crash keeps the session, unless a reset completed meanwhile.
  */
  lemma EngineSession(setup: Setup, events: seq<ManagerEvent>)
    requires setup.hasProxy && ManagerRun(setup, events).engine.stack.Some?
    ensures var m := ManagerRun(setup, events);
            var session := m.engine.stack.value;
            && session.resets <= m.books.resets
            && session.sid == Some(SidText(setup.random(session.resets)))
            && (session.sid == m.books.proxySid <==> setup.random(session.resets) == setup.random(m.books.resets))
  {
    EpochHolds(setup, events);
    var m := ManagerRun(setup, events);
    if m.engine.stack.value.sid == m.books.proxySid {
      SidTextInjective(setup.random(m.engine.stack.value.resets), setup.random(m.books.resets));
    }
  }

  /** A launch that a reset overtakes: it starts between two jobs, and enters after the next one has reset. */
  const OVERTAKEN: seq<ManagerEvent> :=
    [OfJob(JobAcquires), OfJob(FetchEnds), OfBrowser(LaunchStarts(false)), OfJob(JobAcquires), OfJob(TeardownDone), OfBrowser(ContextEntered)]

  lemma RunPrefix(setup: Setup, events: seq<ManagerEvent>, k: nat)
    requires k < |events|
    ensures ManagerRun(setup, events[..k + 1]) == ManagerStep(setup, ManagerRun(setup, events[..k]), events[k])
  {
    assert events[..k + 1][..k] == events[..k];
  }

  /** So a running browser need not have the manager's session: a run after which it has the previous one. */
  lemma StaleSession()
    ensures var setup := Setup(1, true, n => if n == 0 then 0 else 1);
            var m := ManagerRun(setup, OVERTAKEN);
            && m.engine.stack.Some? && m.engine.stack.value.sid == Some(SidText(0))
            && m.books.proxySid == Some(SidText(1)) && SidText(0) != SidText(1)
  {
    var setup := Setup(1, true, n => if n == 0 then 0 else 1);
    assert OVERTAKEN[..0] == [] && OVERTAKEN[..6] == OVERTAKEN;
    RunPrefix(setup, OVERTAKEN, 0);
    RunPrefix(setup, OVERTAKEN, 1);
    RunPrefix(setup, OVERTAKEN, 2);
    RunPrefix(setup, OVERTAKEN, 3);
    RunPrefix(setup, OVERTAKEN, 4);
    RunPrefix(setup, OVERTAKEN, 5);
    if SidText(0) == SidText(1) {
      SidTextInjective(0, 1);
    }
  }
}
