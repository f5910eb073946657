/**
  `GatewayClient` as the object the source has: fields updated in place, one method per atomic
  segment, each refining its segment of the transition system.
*/
module Gateway {
  import opened Options
  import opened FetchSpec
  import opened Backoff
  import opened GatewayModel
  import opened GatewayRuns

  class GatewayClient {
    var socket: Option<nat>
    var registered: bool
    var paused: bool
    var stopped: bool
    var backoffMs: nat
    var pending: int
    var jobsServed: nat
    var jobs: set<nat>
    // the coroutines the event loop holds for this client
    var main: Main
    var tasks: seq<Task>
    var cancelAsked: set<nat>
    // the loop's clock, and history
    var now: nat
    var attempts: nat
    var openedAt: nat
    var firstOpenedAt: nat
    var durations: seq<nat>

    function View(): State
      reads this
    {
      State(main, socket, registered, paused, stopped, backoffMs, pending, jobsServed, tasks, jobs,
            cancelAsked, now, attempts, openedAt, firstOpenedAt, durations)
    }

    constructor ()
      ensures View() == INITIAL
    {
      socket, registered, paused, stopped := None, false, false, false;
      backoffMs, pending, jobsServed, jobs := INITIAL_BACKOFF_MS, 0, 0, {};
      main, tasks, cancelAsked := Idle, [], {};
      now, attempts, openedAt, firstOpenedAt, durations := 0, 0, 0, 0, [];
    }

    /** `is_registered`. */
    method Registered() returns (ready: bool)
      ensures ready <==> IsRegistered(View())
    {
      ready := registered && socket.Some?;
    }

    method StopClient()
      modifies this
      ensures View() == old(View()).(stopped := true, cancelAsked := old(cancelAsked) + old(jobs))
    {
      stopped := true;
      cancelAsked := cancelAsked + jobs;
    }

    method TopOfLoop()
      modifies this
      ensures View() == LoopTop(old(View()))
    {
      if stopped || paused {
        main := Ended;
        return;
      }
      if attempts == 0 {
        firstOpenedAt := now;
      }
      openedAt := now;
      attempts := attempts + 1;
      main := Connecting;
    }

    method AfterConnectOnce()
      requires openedAt <= now
      modifies this
      ensures View() == AttemptOver(old(View()))
    {
      registered := false;
      socket := None;
      if stopped || paused {
        main := Ended;
        return;
      }
      if now - openedAt >= BACKOFF_RESET_AFTER_MS {
        backoffMs := INITIAL_BACKOFF_MS;
      }
      durations := durations + [now - openedAt];
      main := Sleeping(now + backoffMs);
    }

    method HandleError(message: map<string, Json>)
      modifies `paused
      ensures paused == (old(paused) || Get(message, "code") == Str("device_auth_failed"))
    {
      if Get(message, "code") == Str("device_auth_failed") {
        paused := true;
      }
    }

    method DispatchRaw(raw: Option<Json>)
      modifies this
      ensures View() == Dispatch(old(View()), raw)
    {
      if raw.None? || !raw.value.Obj? {
        return;
      }
      var message := raw.value.fields;
      var kind := Get(message, "type");
      if kind == Str("fetch") {
        var job := ParseFetchFrame(raw.value);
        if job.None? {
          return;
        }
        jobs := jobs + {|tasks|};
        tasks := tasks + [Task(job.value, Created, 0)];
      } else if kind == Str("registered") {
        registered := true;
      } else if kind == Str("error") {
        HandleError(message);
      }
    }

    method FinishSend(i: nat, reply: Reply)
      requires i < |tasks|
      modifies this
      ensures View() == AfterSend(old(View()), i, reply)
    {
      tasks := tasks[i := tasks[i].(at := Finished(Done(reply)))];
      if reply == Crawled {
        jobsServed := jobsServed + 1;
      }
      if reply != Busy {
        pending := pending - 1;
      }
    }

    method SendReply(i: nat, reply: Reply)
      requires i < |tasks|
      modifies this
      ensures View() == Send(old(View()), i, reply)
    {
      tasks := tasks[i := tasks[i].(at := Replying(reply), sends := tasks[i].sends + 1)];
      if socket.None? {
        FinishSend(i, reply);
      }
    }

    method HandleFetch(i: nat, url: UrlVerdict)
      requires i < |tasks|
      modifies this
      ensures View() == BeginFetch(old(View()), i, url)
    {
      if pending >= MAX_PENDING_JOBS {
        SendReply(i, Busy);
        return;
      }
      pending := pending + 1;
      if url.ValidUrl? {
        tasks := tasks[i := tasks[i].(at := Screening)];
      } else {
        SendReply(i, Failure);
      }
    }

    method Cancel(i: nat)
      requires i < |tasks|
      modifies this
      ensures View() == CancelTask(old(View()), i)
    {
      if IsAdmitted(tasks[i]) {
        pending := pending - 1;
      }
      tasks := tasks[i := tasks[i].(at := Finished(Cancelled))];
    }

    method ResumeLoop(e: LoopEvent)
      requires LoopEnabled(View(), e)
      modifies this
      ensures View() == FireLoop(old(View()), e)
    {
      match e {
        case Start(ok) =>
          if ok {
            main := Ready;
          }
        case Stop => StopClient();
        case Run =>
          if main.Sleeping? {
            backoffMs := NextBackoffMs(backoffMs);
          }
          TopOfLoop();
        case ConnectFails => AfterConnectOnce();
        case Connected =>
          socket := Some(attempts);
          main := ReadingToken;
        case TokenRead => main := Registering;
        case RegisterSent => main := Receiving;
        case Frame(raw) => DispatchRaw(raw);
        case ConnectionBreaks => main := Closing;
        case Closed => AfterConnectOnce();
        case MainCancelled => main := Ended;
      }
    }

    method ResumeTask(i: nat, e: TaskEvent)
      requires TaskEnabled(View(), i, e)
      modifies this
      ensures View() == FireTask(old(View()), i, e)
    {
      match e {
        case Begins(url) => HandleFetch(i, url);
        case Screened(resolvesToPrivate) =>
          if resolvesToPrivate {
            SendReply(i, Failure);
          } else {
            tasks := tasks[i := tasks[i].(at := Crawling)];
          }
        case CrawlReturns => SendReply(i, Crawled);
        case Raises => SendReply(i, Failure);
        case SendReturns => FinishSend(i, tasks[i].at.reply);
        case CancelDelivered => Cancel(i);
        case Discarded => jobs := jobs - {i};
      }
    }

    method Handle(e: Timed)
      modifies this
      ensures View() == Step(old(View()), e)
    {
      if !Enabled(View(), e) {
        return;
      }
      now := e.time;
      match e.event {
        case Loop(what) => ResumeLoop(what);
        case OfTask(i, how) => ResumeTask(i, how);
      }
    }
  }

  /** A whole life of a client: its fields end where the transition system says, with all that this implies. */
  method Live(run: seq<Timed>) returns (client: GatewayClient, ready: bool)
    ensures fresh(client) && client.View() == Exec(INITIAL, run)
    ensures 0 <= client.pending <= 3 && client.pending == Count(client.tasks, IsAdmitted)
    ensures client.jobsServed == Count(client.tasks, IsServed)
    ensures TaskJobs(client.tasks) == JobsOf(run)
    ensures ready <==> RegisteredDuring(run, client.attempts) && (Linked(client.View()) || Occurs(run, CancelsLinked()))
    ensures forall i :: 0 <= i < |client.tasks| ==>
              var t := client.tasks[i];
              t.sends <= 1 && (t.at.Finished? && t.at.ending != Cancelled ==> t.sends == 1)
    ensures client.attempts >= 1 ==> 3 * (client.openedAt - client.firstOpenedAt) >= 17000 * (client.attempts - 1) - 30000
  {
    client := new GatewayClient();
    for k := 0 to |run|
      invariant fresh(client) && client.View() == Exec(INITIAL, run[..k])
    {
      client.Handle(run[k]);
      assert run[..k + 1][..k] == run[..k];
    }
    assert run[..|run|] == run;
    CountersAreExact(run);
    OneTaskPerFrame(run);
    ReadinessExactly(run);
    forall i | 0 <= i < |client.tasks|
      ensures var t := client.tasks[i]; t.sends <= 1 && (t.at.Finished? && t.at.ending != Cancelled ==> t.sends == 1)
    {
      OneResultPerJob(run, i);
    }
    ready := client.Registered();
    ReconnectsAreSpaced(run);
  }
}
