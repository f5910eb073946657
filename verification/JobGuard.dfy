/**
  The two URL guards inside the gateway's runs: what `check_url` and `resolves_to_private` say
  of a job's own URL is what its task goes on, so no run crawls what they refuse.
*/
module JobGuard {
  import opened Options
  import opened FetchSpec
  import opened GatewayModel
  import opened GatewayRuns
  import Percent
  import Hosts
  import UrlParts
  import Urls

  /** The library functions the guards call, fixed over a run, and name resolution as it stands at each event. */
  datatype World = World(lib: Hosts.Library, checks: UrlParts.UrlChecks, resolvers: nat -> Urls.Resolver)

  function Check(job: Job, world: World): Urls.UrlCheck {
    Urls.CheckUrl(Str(job.url), true, world.lib, world.checks)
  }

  /** How `check_url` ends for a job. */
  function Verdict(job: Job, world: World): (verdict: UrlVerdict)
    ensures verdict.UrlRaises? <==> Check(job, world) == Urls.CheckRaises
    ensures verdict.ValidUrl? <==> exists url :: Check(job, world) == Urls.Checked(url)
  {
    assert Check(job, world).Checked? ==> Check(job, world) == Urls.Checked(Check(job, world).url);
    match Check(job, world)
    case Checked(_) => ValidUrl
    case Refused(_) => InvalidUrl
    case CheckRaises => UrlRaises
  }

  /** The URL that is screened, and then crawled. */
  function CrawledUrl(job: Job, world: World): string
    requires Verdict(job, world).ValidUrl?
  {
    Check(job, world).url
  }

  /** How `resolves_to_private` ends for a job at the k-th event; None where it raises. */
  function Screening(job: Job, world: World, k: nat): Option<bool>
    requires Verdict(job, world).ValidUrl?
  {
    Urls.ResolvesToPrivate(CrawledUrl(job, world), world.resolvers(k), world.lib, world.checks)
  }

  predicate ScreensAs(job: Job, world: World, k: nat, answer: Option<bool>) {
    Verdict(job, world).ValidUrl? ==> Screening(job, world, k) == answer
  }

  /** The k-th event, where it is one of a job's task, agrees with the guards on that job's URL. A busy client checks no URL. */
  predicate AgreesWithGuards(s: State, e: Event, world: World, k: nat) {
    e.OfTask? && e.task < |s.tasks| ==>
      var job, at := s.tasks[e.task].job, s.tasks[e.task].at;
      match e.how
      case Begins(url) => s.pending < 3 ==> url == Verdict(job, world)
      case Screened(private) => ScreensAs(job, world, k, Some(private))
      case Raises => at.Screening? ==> ScreensAs(job, world, k, None)
      case CrawlReturns => true
      case SendReturns => true
      case CancelDelivered => true
      case Discarded => true
  }

  predicate AgreesAt(run: seq<Timed>, world: World, k: nat)
    requires k < |run|
  {
    Happens(run, k) ==> AgreesWithGuards(Before(run, k), run[k].event, world, k)
  }

  /** A run of the client as it is: every verdict in it is the guards' own. */
  predicate IsGuarded(run: seq<Timed>, world: World) {
    forall k: nat :: k < |run| ==> AgreesAt(run, world, k)
  }

  // ----- Jobs stay with their tasks ------------------------------------------

  lemma LastKeepsJob(run: seq<Timed>, i: nat)
    requires run != [] && i < |Before(run, |run| - 1).tasks|
    ensures i < |Exec(INITIAL, run).tasks| && Exec(INITIAL, run).tasks[i].job == Before(run, |run| - 1).tasks[i].job
  {
    var last := |run| - 1;
    if Happens(run, last) {
      var s := Before(run, last).(now := run[last].time);
      FireJobs(s, run[last].event);
      assert TaskJobs(Fire(s, run[last].event).tasks)[i] == TaskJobs(s.tasks)[i];
    }
  }

  lemma {:induction false} JobStays(run: seq<Timed>, k: nat, i: nat)
    requires k <= |run| && i < |Before(run, k).tasks|
    ensures i < |Exec(INITIAL, run).tasks| && Exec(INITIAL, run).tasks[i].job == Before(run, k).tasks[i].job
  {
    if k == |run| {
      assert run[..k] == run;
    } else {
      var front := run[..|run| - 1];
      assert front[..k] == run[..k];
      JobStays(front, k, i);
      LastKeepsJob(run, i);
    }
  }

  /** What the guards said when an event of task i took effect, they say of the job it ends with. */
  lemma GuardsAgreed(run: seq<Timed>, world: World, i: nat, how: TaskEvent, p: Occurrence) returns (k: nat)
    requires IsGuarded(run, world) && Occurs(run, p)
    requires forall s: State, e: Event :: p(s, e) ==> e == OfTask(i, how)
    ensures k < |run| && Happens(run, k) && run[k].event == OfTask(i, how) && p(Before(run, k), run[k].event)
    ensures i < |Before(run, k).tasks| && AgreesWithGuards(Before(run, k), OfTask(i, how), world, k)
    ensures i < |Exec(INITIAL, run).tasks| && Exec(INITIAL, run).tasks[i].job == Before(run, k).tasks[i].job
  {
    k :| 0 <= k < |run| && Happens(run, k) && p(Before(run, k), run[k].event);
    assert AgreesAt(run, world, k);
    JobStays(run, k, i);
  }

  lemma PassedMeansValid(run: seq<Timed>, world: World, i: nat)
    requires IsGuarded(run, world) && i < |Exec(INITIAL, run).tasks| && PassedUrl(run, i)
    ensures Verdict(Exec(INITIAL, run).tasks[i].job, world) == ValidUrl
  {
    var _ := GuardsAgreed(run, world, i, Begins(ValidUrl), BeginsWhen(i, ValidUrl, false));
  }

  lemma PassedMeansScreened(run: seq<Timed>, world: World, i: nat) returns (k: nat)
    requires IsGuarded(run, world) && i < |Exec(INITIAL, run).tasks| && PassedScreening(run, i)
    ensures k < |run| && Happens(run, k) && run[k].event == OfTask(i, Screened(false))
    ensures ScreensAs(Exec(INITIAL, run).tasks[i].job, world, k, Some(false))
  {
    k := GuardsAgreed(run, world, i, Screened(false), Does(i, Screened(false)));
  }

  // ----- What is crawled -----------------------------------------------------

  /** The host a URL names, in the form the guards judge. */
  function HostOf(url: string, world: World): string
    requires UrlParts.UrlSplit(url, world.checks).Some?
  {
    Hosts.NormalizeHost(UrlParts.Hostname(UrlParts.UrlSplit(url, world.checks).value.netloc), world.lib)
  }

  /** The job's URL passed `check_url`, and its host what name resolution said of it at the k-th event. */
  ghost predicate MayBeCrawled(job: Job, world: World, k: nat) {
    && Verdict(job, world).ValidUrl?
    && UrlParts.UrlSplit(CrawledUrl(job, world), world.checks).Some?
    && Urls.Screened(HostOf(CrawledUrl(job, world), world), world.resolvers(k), world.lib)
  }

  /** A job passes both guards at an event exactly if it may be crawled then. */
  lemma GuardsLeave(job: Job, world: World, k: nat)
    ensures MayBeCrawled(job, world, k) <==> Verdict(job, world).ValidUrl? && Screening(job, world, k) == Some(false)
  {
    if Verdict(job, world).ValidUrl? {
      Urls.GuardsCompose(Str(job.url), world.resolvers(k), world.lib, world.checks);
    }
  }

  predicate IsAtCrawl(at: Point) {
    at.Crawling? || Reports(at, Crawled)
  }

  /** Task i was screened at the k-th event and nothing private was found. */
  ghost predicate ScreenedAt(run: seq<Timed>, i: nat, k: nat) {
    k < |run| && Happens(run, k) && run[k].event == OfTask(i, Screened(false))
  }

  /**
    In every run, whatever interleaves and is cancelled: a task that crawls or has crawled holds
    a job whose URL `check_url` let through, and it was screened at an event at which its host was
    a public literal or a name that did not resolve to anything private then.
  */
  lemma CrawlingIsGuarded(run: seq<Timed>, world: World, i: nat)
    requires IsGuarded(run, world) && i < |Exec(INITIAL, run).tasks| && IsAtCrawl(Exec(INITIAL, run).tasks[i].at)
    ensures Verdict(Exec(INITIAL, run).tasks[i].job, world).ValidUrl?
    ensures exists k :: ScreenedAt(run, i, k) && MayBeCrawled(Exec(INITIAL, run).tasks[i].job, world, k)
  {
    RepliesAreEarned(run, i);
    PassedMeansValid(run, world, i);
    var k := PassedMeansScreened(run, world, i);
    GuardsLeave(Exec(INITIAL, run).tasks[i].job, world, k);
    assert ScreenedAt(run, i, k);
  }

  lemma ScreenedEarlier(run: seq<Timed>, n: nat, i: nat, k: nat)
    requires n <= |run| && ScreenedAt(run[..n], i, k)
    ensures ScreenedAt(run, i, k)
  {
    assert run[..n][..k] == run[..k];
  }

  lemma GuardedByThen(run: seq<Timed>, world: World, n: nat, i: nat) returns (k: nat)
    requires IsGuarded(run, world) && n <= |run| && i < |Before(run, n).tasks| && IsAtCrawl(Before(run, n).tasks[i].at)
    ensures ScreenedAt(run, i, k) && MayBeCrawled(Before(run, n).tasks[i].job, world, k)
  {
    PrefixIsGuarded(run, world, n);
    CrawlingIsGuarded(run[..n], world, i);
    k :| ScreenedAt(run[..n], i, k) && MayBeCrawled(Before(run, n).tasks[i].job, world, k);
    ScreenedEarlier(run, n, i, k);
  }

  lemma WasCrawling(run: seq<Timed>, i: nat) returns (n: nat)
    requires CrawlReturned(run, i)
    ensures n <= |run| && i < |Before(run, n).tasks| && Before(run, n).tasks[i].at.Crawling?
  {
    n :| 0 <= n < |run| && Happens(run, n) && Does(i, CrawlReturns)(Before(run, n), run[n].event);
  }

  /** A crawl that returned was guarded so even if its task is cancelled before it is reported. */
  lemma ReturnedWasGuarded(run: seq<Timed>, world: World, i: nat) returns (k: nat)
    requires IsGuarded(run, world) && i < |Exec(INITIAL, run).tasks| && CrawlReturned(run, i)
    ensures ScreenedAt(run, i, k) && MayBeCrawled(Exec(INITIAL, run).tasks[i].job, world, k)
  {
    var n := WasCrawling(run, i);
    JobStays(run, n, i);
    k := GuardedByThen(run, world, n, i);
  }

  /** A named host that resolved to something private at each of its task's screenings is not crawled. */
  lemma PrivateNameIsNeverCrawled(run: seq<Timed>, world: World, i: nat)
    requires IsGuarded(run, world) && i < |Exec(INITIAL, run).tasks|
    requires var job := Exec(INITIAL, run).tasks[i].job;
             Verdict(job, world).ValidUrl? && UrlParts.UrlSplit(CrawledUrl(job, world), world.checks).Some? ==>
               forall k :: ScreenedAt(run, i, k) ==>
                 Urls.ResolvesPrivately(HostOf(CrawledUrl(job, world), world), world.resolvers(k), world.lib)
    ensures !IsAtCrawl(Exec(INITIAL, run).tasks[i].at)
  {
    if IsAtCrawl(Exec(INITIAL, run).tasks[i].at) {
      CrawlingIsGuarded(run, world, i);
      assert false;
    }
  }

  /**
    In particular no run crawls a URL whose host spells a private IPv4 address in any radices,
    parts, final dots and up to three percent-encoded layers.
  */
  lemma NoRunCrawlsPrivate(run: seq<Timed>, world: World, i: nat, host: string, layers: nat, v: nat)
    requires IsGuarded(run, world) && i < |Exec(INITIAL, run).tasks| && IsAtCrawl(Exec(INITIAL, run).tasks[i].at)
    requires var job := Exec(INITIAL, run).tasks[i].job;
             Verdict(job, world).ValidUrl? ==>
               var parts := UrlParts.UrlSplit(CrawledUrl(job, world), world.checks);
               parts.Some? && Percent.IsWrapped(UrlParts.Hostname(parts.value.netloc), host, layers)
    requires layers <= 3 && Hosts.HostDenotes(host, v)
    ensures !Hosts.IsPrivateIpv4(v)
  {
    CrawlingIsGuarded(run, world, i);
    Urls.NoPrivateSpellingPasses(Str(Exec(INITIAL, run).tasks[i].job.url), world.lib, world.checks, host, layers, v);
  }

  /** A job whose URL the check refuses, or raises on, is never screened or crawled. */
  lemma RefusedIsNeverCrawled(run: seq<Timed>, world: World, i: nat)
    requires IsGuarded(run, world) && i < |Exec(INITIAL, run).tasks|
    requires Verdict(Exec(INITIAL, run).tasks[i].job, world) != ValidUrl
    ensures StaysOutside(Exec(INITIAL, run).tasks[i].at)
  {
    RepliesAreEarned(run, i);
    if PassedUrl(run, i) {
      PassedMeansValid(run, world, i);
    }
    UnpassedStaysOutside(run, i, Exec(INITIAL, run).tasks[i].at);
  }

  predicate StaysOutside(at: Point) {
    at == Created || Reports(at, Busy) || Reports(at, Failure) || at == Finished(Cancelled)
  }

  lemma UnpassedStaysOutside(run: seq<Timed>, i: nat, at: Point)
    requires Earned(run, i, at) && !PassedUrl(run, i)
    ensures StaysOutside(at)
  {
    match at
    case Created =>
    case Screening =>
    case Crawling =>
    case Replying(reply) => assert reply == Crawled ==> Reports(at, Crawled);
    case Finished(Cancelled) =>
    case Finished(Done(reply)) => assert reply == Crawled ==> Reports(at, Crawled);
  }

  /** The screening itself never raises, so the only await of a job that can is its crawl. */
  lemma ScreeningNeverRaises(run: seq<Timed>, world: World, k: nat, i: nat)
    requires IsGuarded(run, world) && k < |run| && Happens(run, k) && run[k].event == OfTask(i, Raises)
    ensures i < |Before(run, k).tasks| && Before(run, k).tasks[i].at.Crawling?
  {
    var s := Before(run, k);
    assert AgreesAt(run, world, k);
    if s.tasks[i].at.Screening? {
      RepliesAreEarned(run[..k], i);
      PrefixIsGuarded(run, world, k);
      PassedMeansValid(run[..k], world, i);
      Urls.GuardsCompose(Str(s.tasks[i].job.url), world.resolvers(k), world.lib, world.checks);
      assert false;
    }
  }

  /** The job's URL passed `check_url`, but its host is a name with a private address at the k-th event. */
  ghost predicate ResolvesPrivately(job: Job, world: World, k: nat) {
    && Verdict(job, world).ValidUrl?
    && UrlParts.UrlSplit(CrawledUrl(job, world), world.checks).Some?
    && Urls.ResolvesPrivately(HostOf(CrawledUrl(job, world), world), world.resolvers(k), world.lib)
  }

  /** A screening finds something exactly if the host resolves to a private address then. */
  lemma ScreeningFinds(run: seq<Timed>, world: World, k: nat, i: nat, private: bool)
    requires IsGuarded(run, world) && k < |run| && Happens(run, k) && run[k].event == OfTask(i, Screened(private))
    ensures i < |Before(run, k).tasks| && (private <==> ResolvesPrivately(Before(run, k).tasks[i].job, world, k))
  {
    var s := Before(run, k);
    assert AgreesAt(run, world, k);
    RepliesAreEarned(run[..k], i);
    PrefixIsGuarded(run, world, k);
    PassedMeansValid(run[..k], world, i);
    Urls.GuardsCompose(Str(s.tasks[i].job.url), world.resolvers(k), world.lib, world.checks);
  }

  lemma PrefixIsGuarded(run: seq<Timed>, world: World, k: nat)
    requires IsGuarded(run, world) && k <= |run|
    ensures IsGuarded(run[..k], world)
  {
    forall j: nat | j < k ensures AgreesAt(run[..k], world, j) {
      assert run[..k][..j] == run[..j];
      assert AgreesAt(run, world, j);
    }
  }

  // ----- What the guards let through can be crawled ----------------------------

  lemma AgreesIn(run: seq<Timed>, world: World, k: nat, s: State)
    requires k < |run| && Before(run, k) == s && AgreesWithGuards(s, run[k].event, world, k)
    ensures AgreesAt(run, world, k)
  {
  }

  lemma GuardedUpTo(run: seq<Timed>, world: World)
    requires run != [] && IsGuarded(run[..|run| - 1], world) && AgreesAt(run, world, |run| - 1)
    ensures IsGuarded(run, world)
  {
    forall k: nat | k < |run| ensures AgreesAt(run, world, k) {
      if k + 1 < |run| {
        assert AgreesAt(run[..|run| - 1], world, k);
        AgreesInPrefix(run, world, k);
      }
    }
  }

  lemma GuardedExtends(run: seq<Timed>, e: Timed, world: World)
    requires IsGuarded(run, world) && AgreesWithGuards(Exec(INITIAL, run), e.event, world, |run|)
    ensures IsGuarded(run + [e], world)
  {
    var longer := run + [e];
    assert longer[..|longer| - 1] == run;
    AgreesIn(longer, world, |run|, Exec(INITIAL, run));
    GuardedUpTo(longer, world);
  }

  lemma AgreesInPrefix(run: seq<Timed>, world: World, k: nat)
    requires k + 1 < |run| && AgreesAt(run[..|run| - 1], world, k)
    ensures AgreesAt(run, world, k)
  {
    HappensInPrefix(run, k);
    assert run[..|run| - 1][k] == run[k];
  }

  lemma LoopExtend(run: seq<Timed>, what: LoopEvent, world: World) returns (longer: seq<Timed>)
    requires IsGuarded(run, world) && LoopEnabled(Exec(INITIAL, run), what)
    ensures IsGuarded(longer, world) && Exec(INITIAL, longer) == FireLoop(Exec(INITIAL, run), what)
  {
    longer := run + [Timed(Exec(INITIAL, run).now, Loop(what))];
    OneMore(run, Loop(what));
    GuardedExtends(run, longer[|run|], world);
  }

  lemma TaskExtend(run: seq<Timed>, i: nat, how: TaskEvent, world: World) returns (longer: seq<Timed>)
    requires IsGuarded(run, world) && TaskEnabled(Exec(INITIAL, run), i, how)
    requires AgreesWithGuards(Exec(INITIAL, run), OfTask(i, how), world, |run|)
    ensures IsGuarded(longer, world) && Exec(INITIAL, longer) == FireTask(Exec(INITIAL, run), i, how)
  {
    longer := run + [Timed(Exec(INITIAL, run).now, OfTask(i, how))];
    OneMore(run, OfTask(i, how));
    GuardedExtends(run, longer[|run|], world);
  }

  /** A guarded run after which the client receives, with these tasks and so many of them admitted. */
  ghost predicate Leaves(run: seq<Timed>, world: World, pending: int, tasks: seq<Task>) {
    && IsGuarded(run, world)
    && var s := Exec(INITIAL, run); s.main.Receiving? && s.pending == pending && s.tasks == tasks
  }

  lemma CanReceive(world: World) returns (run: seq<Timed>)
    ensures Leaves(run, world, 0, [])
  {
    run := [];
    run := LoopExtend(run, Start(true), world);
    run := LoopExtend(run, Run, world);
    run := LoopExtend(run, Connected, world);
    run := LoopExtend(run, TokenRead, world);
    run := LoopExtend(run, RegisterSent, world);
  }

  lemma ReceiveJob(run: seq<Timed>, raw: Option<Json>, world: World, pending: int, tasks: seq<Task>) returns (longer: seq<Timed>)
    requires Leaves(run, world, pending, tasks) && IsJobFrame(raw)
    ensures Leaves(longer, world, pending, tasks + [Task(FrameJob(raw.value).value, Created, 0)])
  {
    longer := LoopExtend(run, Frame(raw), world);
  }

  lemma BeginAdmits(s: State, i: nat, world: World, k: nat)
    requires At(s, i, Created) && s.pending <= 2 && Verdict(s.tasks[i].job, world).ValidUrl?
    ensures TaskEnabled(s, i, Begins(ValidUrl)) && AgreesWithGuards(s, OfTask(i, Begins(ValidUrl)), world, k)
    ensures var t := FireTask(s, i, Begins(ValidUrl));
            t.main == s.main && t.pending == s.pending + 1 && t.tasks == s.tasks[i := s.tasks[i].(at := GatewayModel.Screening)]
  {
  }

  lemma AdmitJob(run: seq<Timed>, world: World, pending: int, tasks: seq<Task>, job: Job) returns (longer: seq<Timed>)
    requires Leaves(run, world, pending, tasks + [Task(job, Created, 0)]) && pending <= 2 && Verdict(job, world).ValidUrl?
    ensures Leaves(longer, world, pending + 1, tasks + [Task(job, GatewayModel.Screening, 0)])
  {
    BeginAdmits(Exec(INITIAL, run), |tasks|, world, |run|);
    longer := TaskExtend(run, |tasks|, Begins(ValidUrl), world);
    assert (tasks + [Task(job, Created, 0)])[|tasks| := Task(job, GatewayModel.Screening, 0)] == tasks + [Task(job, GatewayModel.Screening, 0)];
  }

  lemma ScreenJob(run: seq<Timed>, world: World, pending: int, tasks: seq<Task>, job: Job) returns (longer: seq<Timed>)
    requires Leaves(run, world, pending, tasks + [Task(job, GatewayModel.Screening, 0)]) && ScreensAs(job, world, |run|, Some(false))
    ensures Leaves(longer, world, pending, tasks + [Task(job, Crawling, 0)])
  {
    longer := TaskExtend(run, |tasks|, Screened(false), world);
    assert (tasks + [Task(job, GatewayModel.Screening, 0)])[|tasks| := Task(job, Crawling, 0)] == tasks + [Task(job, Crawling, 0)];
  }

  /** Whenever it is screened, the job passes both guards. */
  ghost predicate IsClear(job: Job, world: World) {
    Verdict(job, world).ValidUrl? && forall k: nat :: ScreensAs(job, world, k, Some(false))
  }

  ghost predicate AlwaysCrawlable(job: Job, world: World) {
    forall k: nat :: MayBeCrawled(job, world, k)
  }

  lemma CrawlableIsClear(job: Job, world: World)
    requires AlwaysCrawlable(job, world)
    ensures IsClear(job, world)
  {
    GuardsLeave(job, world, 0);
    forall k: nat ensures ScreensAs(job, world, k, Some(false)) {
      GuardsLeave(job, world, k);
    }
  }

  /** One more job received, admitted and screened while at most two are running. */
  lemma CrawlOneMore(run: seq<Timed>, raw: Option<Json>, world: World, pending: int, tasks: seq<Task>) returns (longer: seq<Timed>)
    requires Leaves(run, world, pending, tasks) && pending <= 2
    requires IsJobFrame(raw) && IsClear(FrameJob(raw.value).value, world)
    ensures Leaves(longer, world, pending + 1, tasks + [Task(FrameJob(raw.value).value, Crawling, 0)])
  {
    var job := FrameJob(raw.value).value;
    longer := ReceiveJob(run, raw, world, pending, tasks);
    longer := AdmitJob(longer, world, pending, tasks, job);
    longer := ScreenJob(longer, world, pending + 1, tasks, job);
  }

  lemma ScreenedIsCrawlable(job: Job, world: World, resolve: Urls.Resolver)
    requires forall k :: world.resolvers(k) == resolve
    requires var check := Urls.CheckUrl(Str(job.url), true, world.lib, world.checks);
             && check.Checked? && UrlParts.UrlSplit(check.url, world.checks).Some?
             && Urls.Screened(HostOf(check.url, world), resolve, world.lib)
    ensures AlwaysCrawlable(job, world)
  {
  }

  /** The guards are not vacuous: whatever job passes the check and has nothing private left, some run crawls it. */
  lemma PassedCanBeCrawled(raw: Option<Json>, lib: Hosts.Library, checks: UrlParts.UrlChecks, resolve: Urls.Resolver)
    returns (run: seq<Timed>, world: World)
    requires IsJobFrame(raw)
    requires var check := Urls.CheckUrl(Str(FrameJob(raw.value).value.url), true, lib, checks);
             && check.Checked? && UrlParts.UrlSplit(check.url, checks).Some?
             && Urls.Screened(Hosts.NormalizeHost(UrlParts.Hostname(UrlParts.UrlSplit(check.url, checks).value.netloc), lib), resolve, lib)
    ensures world.lib == lib && world.checks == checks && forall k :: world.resolvers(k) == resolve
    ensures IsGuarded(run, world) && Exec(INITIAL, run).tasks == [Task(FrameJob(raw.value).value, Crawling, 0)]
  {
    world := World(lib, checks, k => resolve);
    var job := FrameJob(raw.value).value;
    ScreenedIsCrawlable(job, world, resolve);
    CrawlableIsClear(job, world);
    run := CanReceive(world);
    run := CrawlOneMore(run, raw, world, 0, []);
  }

  lemma CrawlTwo(raw: Option<Json>, world: World, task: Task) returns (run: seq<Timed>)
    requires IsJobFrame(raw) && IsClear(FrameJob(raw.value).value, world) && task == Task(FrameJob(raw.value).value, Crawling, 0)
    ensures Leaves(run, world, 2, [task] + [task])
  {
    run := CanReceive(world);
    run := CrawlOneMore(run, raw, world, 0, []);
    assert [] + [task] == [task];
    run := CrawlOneMore(run, raw, world, 1, [task]);
  }

  lemma CrawlThree(raw: Option<Json>, world: World, task: Task) returns (run: seq<Timed>)
    requires IsJobFrame(raw) && IsClear(FrameJob(raw.value).value, world) && task == Task(FrameJob(raw.value).value, Crawling, 0)
    ensures Leaves(run, world, 3, [task] + [task] + [task])
  {
    run := CrawlTwo(raw, world, task);
    run := CrawlOneMore(run, raw, world, 2, [task] + [task]);
  }

  /** Three jobs, and no fewer, can crawl at the same time. */
  lemma ThreeCanCrawl(raw: Option<Json>, world: World) returns (run: seq<Timed>)
    requires IsJobFrame(raw) && AlwaysCrawlable(FrameJob(raw.value).value, world)
    ensures var task := Task(FrameJob(raw.value).value, Crawling, 0); Leaves(run, world, 3, [task, task, task])
  {
    CrawlableIsClear(FrameJob(raw.value).value, world);
    var task := Task(FrameJob(raw.value).value, Crawling, 0);
    run := CrawlThree(raw, world, task);
    assert [task] + [task] + [task] == [task, task, task];
  }
}
