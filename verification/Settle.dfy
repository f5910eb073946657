/** The two implementations of "quiet for 500 ms, or the cap". */
module Settle {
  import opened Options
  import opened Numerals
  import opened Text
  import opened FetchSpec

  function Min(x: nat, y: nat): nat {
    if x <= y then x else y
  }

  // ----- SETTLE_STABLE: mutation callbacks and timers ------------------------

  /** The promise's callback machine; times are milliseconds since it was set up. */
  class SettleMachine {
    var done: bool
    var quiet: Option<nat>      // when the pending timers are due
    var capTimer: Option<nat>
    var resolved: seq<nat>      // every time resolve() was called

    constructor (cap: nat)
      ensures !done && quiet == Some(STABLE_QUIET_MS) && capTimer == Some(cap) && resolved == []
    {
      done := false;
      quiet := Some(STABLE_QUIET_MS);
      capTimer := Some(cap);
      resolved := [];
    }

    method Finish(time: nat)
      modifies this
      ensures done && (old(done) ==> quiet == old(quiet) && capTimer == old(capTimer) && resolved == old(resolved))
      ensures !old(done) ==> quiet == None && capTimer == None && resolved == old(resolved) + [time]
    {
      if done {
        return;
      }
      done := true;
      quiet := None;
      capTimer := None;
      resolved := resolved + [time];
    }

    /** The observer's callback; a finished machine has disconnected the observer. */
    method Mutated(time: nat)
      modifies this
      ensures done == old(done) && capTimer == old(capTimer) && resolved == old(resolved)
      ensures quiet == if old(done) then old(quiet) else Some(time + STABLE_QUIET_MS)
    {
      if !done {
        quiet := Some(time + STABLE_QUIET_MS);
      }
    }

    predicate Pending()
      reads this
    {
      !done && quiet.Some? && capTimer.Some? && resolved == []
    }

    /** Fires the timers that are due by `limit` (all of them, if there is none), the earlier one first. */
    method FireTimers(limit: Option<nat>)
      requires done || Pending()
      modifies this
      ensures old(done) ==> done && resolved == old(resolved)
      ensures !old(done) ==>
                var due := Min(old(quiet).value, old(capTimer).value);
                if limit.None? || due <= limit.value then done && resolved == [due]
                else Pending() && quiet == old(quiet) && capTimer == old(capTimer)
    {
      if !done {
        var first, second := quiet.value, capTimer.value;
        if second < first {
          first, second := second, first;
        }
        if limit.None? || first <= limit.value {
          Finish(first);
          if limit.None? || second <= limit.value {
            Finish(second);
          }
        }
      }
    }
  }

  predicate Sorted(times: seq<nat>) {
    forall i, j :: 0 <= i < j < |times| ==> times[i] <= times[j]
  }

  predicate FollowedByQuiet(points: seq<nat>, i: nat)
    requires i < |points|
  {
    i + 1 == |points| || points[i + 1] >= points[i] + 500
  }

  /** Point i is the first one (the start, or a mutation) followed by a mutation-free gap. */
  predicate IsFirstQuiet(points: seq<nat>, i: nat) {
    i < |points| && FollowedByQuiet(points, i) && forall j :: 0 <= j < i ==> !FollowedByQuiet(points, j)
  }

  function Points(mutations: seq<nat>): seq<nat> {
    [0] + mutations
  }

  /** Such a point always exists, and there is only one. */
  lemma FirstQuietExists(points: seq<nat>) returns (i: nat)
    requires points != []
    ensures IsFirstQuiet(points, i) && forall j: nat :: IsFirstQuiet(points, j) ==> j == i
  {
    i := 0;
    while !FollowedByQuiet(points, i)
      invariant i < |points| && forall j :: 0 <= j < i ==> !FollowedByQuiet(points, j)
      decreases |points| - i
    {
      i := i + 1;
    }
  }

  /**
    The timer-resetting machine resolves exactly once: at the cap, or 500 ms after the first
    quiet point, whichever is earlier.
  */
  method RunSettle(cap: nat, mutations: seq<nat>) returns (resolved: seq<nat>)
    requires Sorted(mutations)
    ensures |resolved| == 1
    ensures forall i: nat :: IsFirstQuiet(Points(mutations), i) ==> resolved == [Min(cap, Points(mutations)[i] + 500)]
  {
    var machine := new SettleMachine(cap);
    ghost var points := Points(mutations);
    ghost var first := FirstQuietExists(points);
    ghost var answer := Min(cap, points[first] + STABLE_QUIET_MS);
    for k := 0 to |mutations|
      invariant fresh(machine)
      invariant machine.done ==> machine.resolved == [answer]
      invariant !machine.done ==>
                  && machine.Pending() && machine.capTimer.value == cap
                  && machine.quiet.value == points[k] + STABLE_QUIET_MS
                  && first >= k
    {
      assert points[k + 1] == mutations[k] && Sorted(points);
      assert points[k] <= points[first] || first < k;
      assert FollowedByQuiet(points, k) <==> mutations[k] >= points[k] + STABLE_QUIET_MS;
      machine.FireTimers(Some(mutations[k]));
      machine.Mutated(mutations[k]);
    }
    machine.FireTimers(None);
    resolved := machine.resolved;
  }

  // ----- _settle_by_polling: a sampling loop ---------------------------------

  const STABLE_POLL_MS: nat := 250

  /** How `page.content()` ends under its deadline. */
  datatype ContentRead = Content(text: string) | ReadRaises(message: string) | ReadTimesOut

  /** The i-th content read, and how long it takes. */
  datatype Samples = Samples(content: nat -> ContentRead, took: nat -> nat)

  /** When the i-th read starts and ends, counting from the call. */
  function Begin(page: Samples, i: nat): nat
    decreases i, 0
  {
    if i == 0 then 0 else End(page, i - 1) + 250
  }

  function End(page: Samples, i: nat): nat
    decreases i, 1
  {
    Begin(page, i) + page.took(i)
  }

  /** SHA-256, uninterpreted. */
  type Hash = string -> int

  predicate SameDigest(page: Samples, hash: Hash, i: nat, j: nat) {
    page.content(i).Content? && page.content(j).Content? && hash(page.content(i).text) == hash(page.content(j).text)
  }

  /** All the samples of a window that ends at k and spans at least 500 ms have one digest. */
  ghost predicate QuietAt(page: Samples, hash: Hash, k: nat) {
    exists j :: 0 <= j < k && QuietSince(page, hash, j, k)
  }

  ghost predicate QuietSince(page: Samples, hash: Hash, j: nat, k: nat) {
    && (forall m :: j <= m <= k ==> SameDigest(page, hash, m, k))
    && End(page, j) + 500 <= End(page, k)
  }

  /** Past the cap, page gone, quiet, or a page read raised because its exception has no text. */
  datatype Exit = Capped | Gone | Quiet | Broken

  /** The loop leaves at its k-th round, for this reason. */
  ghost predicate Leaves(page: Samples, hash: Hash, cap: nat, k: nat, exit: Exit) {
    match exit
    case Capped => Begin(page, k) >= cap
    case Gone => Begin(page, k) < cap && !page.content(k).Content? && page.content(k) != ReadRaises("")
    case Broken => Begin(page, k) < cap && page.content(k) == ReadRaises("")
    case Quiet => Begin(page, k) < cap && QuietAt(page, hash, k)
  }

  /** The loop leaves at round k and not before. */
  ghost predicate FirstLeaves(page: Samples, hash: Hash, cap: nat, k: nat, exit: Exit) {
    Leaves(page, hash, cap, k, exit) && forall m, other :: 0 <= m < k ==> !Leaves(page, hash, cap, m, other)
  }

  function ExitTime(page: Samples, k: nat, exit: Exit): nat {
    if exit == Capped then Begin(page, k) else End(page, k)
  }

  lemma {:induction false} ReadsAdvance(page: Samples, i: nat, j: nat)
    requires i < j
    ensures End(page, i) + 250 <= Begin(page, j)
    decreases j
  {
    if i < j - 1 {
      ReadsAdvance(page, i, j - 1);
    }
  }

  /** `last_change` is kept as the end of the first sample of the current run of equal digests. */
  ghost predicate RunStarts(page: Samples, hash: Hash, start: nat, last: nat) {
    && start <= last
    && (forall m :: start <= m <= last ==> SameDigest(page, hash, m, last))
    && (start > 0 ==> !SameDigest(page, hash, start - 1, last))
  }

  lemma RunExtends(page: Samples, hash: Hash, start: nat, k: nat)
    requires k > 0 && RunStarts(page, hash, start, k - 1) && SameDigest(page, hash, k - 1, k)
    ensures RunStarts(page, hash, start, k)
  {
    forall m | start <= m <= k ensures SameDigest(page, hash, m, k) {
      assert m < k ==> SameDigest(page, hash, m, k - 1);
    }
    assert start > 0 ==> !SameDigest(page, hash, start - 1, k - 1);
  }

  /** The reset-on-change form detects exactly the windows of equal samples. */
  lemma WindowFromRun(page: Samples, hash: Hash, start: nat, k: nat)
    requires RunStarts(page, hash, start, k)
    ensures QuietAt(page, hash, k) <==> start < k && End(page, start) + 500 <= End(page, k)
  {
    ghost var prior := if start > 0 then start - 1 else start;
    ghost var changed := !SameDigest(page, hash, prior, k);
    if QuietAt(page, hash, k) {
      var j :| 0 <= j < k && QuietSince(page, hash, j, k);
      if start < j {
        ReadsAdvance(page, start, j);
      }
    }
    if start < k && End(page, start) + 500 <= End(page, k) {
      assert QuietSince(page, hash, start, k);
    }
  }

  method SettleByPolling(page: Samples, hash: Hash, cap: nat) returns (exit: Exit, k: nat)
    ensures FirstLeaves(page, hash, cap, k, exit)
  {
    k := 0;
    var now: nat := 0;
    var previous: Option<int> := None;
    var lastChange: nat := 0;
    ghost var start: nat := 0;
    while now < cap
      invariant now == Begin(page, k)
      invariant forall m, other :: 0 <= m < k ==> !Leaves(page, hash, cap, m, other)
      invariant k == 0 ==> previous == None
      invariant k > 0 ==>
                  && RunStarts(page, hash, start, k - 1)
                  && page.content(k - 1).Content? && previous == Some(hash(page.content(k - 1).text))
                  && lastChange == End(page, start)
      decreases cap - now
    {
      var html := page.content(k);
      now := now + page.took(k);
      if !html.Content? {
        return if html == ReadRaises("") then Broken else Gone, k;
      }
      var digest := hash(html.text);
      if previous != Some(digest) {
        previous := Some(digest);
        lastChange := now;
        start := k;
        assert RunStarts(page, hash, start, k);
        WindowFromRun(page, hash, start, k);
      } else {
        RunExtends(page, hash, start, k);
        WindowFromRun(page, hash, start, k);
        if now - lastChange >= STABLE_QUIET_MS {
          return Quiet, k;
        }
      }
      now := now + STABLE_POLL_MS;
      k := k + 1;
    }
    return Capped, k;
  }

  /** If every read comes back within its limit, polling ends within the cap plus 6250 ms. */
  lemma PollingEnds(page: Samples, hash: Hash, cap: nat, k: nat, exit: Exit)
    requires FirstLeaves(page, hash, cap, k, exit)
    requires forall i :: page.took(i) <= 6000
    ensures ExitTime(page, k, exit) <= cap + 6250
  {
    assert page.took(k) <= 6000;
    if k > 0 {
      assert page.took(k - 1) <= 6000 && Begin(page, k) == End(page, k - 1) + STABLE_POLL_MS;
      assert !Leaves(page, hash, cap, k - 1, Capped);
    }
  }

  /** The content is final from time q: every read begun at q or later returns it. */
  ghost predicate FinalFrom(page: Samples, q: nat, final: string) {
    forall i {:trigger Begin(page, i)} :: Begin(page, i) >= q ==> page.content(i) == Content(final)
  }

  lemma FirstReadFrom(page: Samples, q: nat) returns (i: nat)
    ensures Begin(page, i) >= q && forall m :: 0 <= m < i ==> Begin(page, m) < q
  {
    i := 0;
    while Begin(page, i) < q
      invariant forall m :: 0 <= m < i ==> Begin(page, m) < q
      decreases q - Begin(page, i)
    {
      assert Begin(page, i + 1) == End(page, i) + STABLE_POLL_MS;
      i := i + 1;
    }
  }

  lemma FinalSample(page: Samples, q: nat, final: string, j: nat, m: nat)
    requires FinalFrom(page, q, final) && Begin(page, j) >= q && j <= m
    ensures page.content(m) == Content(final)
  {
    if m > j {
      ReadsAdvance(page, j, m);
    }
  }

  /** Two reads of final content that are 500 ms apart end the loop. */
  lemma FinalIsQuiet(page: Samples, hash: Hash, q: nat, final: string, j: nat, k: nat)
    requires FinalFrom(page, q, final) && Begin(page, j) >= q && j < k
    requires End(page, j) + 500 <= End(page, k)
    ensures QuietAt(page, hash, k)
  {
    FinalSample(page, q, final, j, k);
    forall m | j <= m <= k ensures SameDigest(page, hash, m, k) {
      FinalSample(page, q, final, j, m);
    }
    assert QuietSince(page, hash, j, k);
  }

  lemma LeavesWhenQuiet(page: Samples, hash: Hash, cap: nat, k: nat)
    requires QuietAt(page, hash, k)
    ensures Leaves(page, hash, cap, k, Capped) || Leaves(page, hash, cap, k, Quiet)
  {
  }

  /**
    If the content stops changing at time q and each read takes at most c ms, polling has
    returned by q + 1000 + 3c, unless it left at its cap.
  */
  lemma PollingSettles(page: Samples, hash: Hash, cap: nat, k: nat, exit: Exit, q: nat, final: string, c: nat)
    requires FirstLeaves(page, hash, cap, k, exit)
    requires FinalFrom(page, q, final)
    requires forall i :: page.took(i) <= c
    ensures exit == Capped || ExitTime(page, k, exit) <= q + 1000 + 3 * c
  {
    var n := FirstReadFrom(page, q);
    assert page.took(n) <= c && page.took(n + 1) <= c && page.took(n + 2) <= c;
    if n > 0 {
      assert page.took(n - 1) <= c && Begin(page, n - 1) < q;
    }
    assert Begin(page, n) <= q + c + STABLE_POLL_MS;
    assert Begin(page, n + 1) == End(page, n) + STABLE_POLL_MS && Begin(page, n + 2) == End(page, n + 1) + STABLE_POLL_MS;
    if k > n + 2 {
      FinalIsQuiet(page, hash, q, final, n, n + 2);
      LeavesWhenQuiet(page, hash, cap, n + 2);
      assert false;
    } else if k == n + 2 {
      if page.took(n + 1) >= STABLE_POLL_MS {
        FinalIsQuiet(page, hash, q, final, n, n + 1);
        LeavesWhenQuiet(page, hash, cap, n + 1);
        assert false;
      }
    } else if k < n {
      ReadsAdvance(page, k, n);
    }
  }

  // ----- _settle: the one, and on a CSP block the other ------------------------

  const EXEC_GRACE_MS: nat := 1000
  const POLL_READ_BUDGET_MS: nat := 5000

  /** What evaluating the script comes to: the mutations it observes and the round trip, or an exception. */
  datatype Evaluation = Evaluated(mutations: Mutations, latency: nat) | Fails(message: string, at: nat)

  /** Mutation times, in order. */
  type Mutations = times: seq<nat> | Sorted(times) witness []

  /** How a settle wait ends: the error text it leaves in `_last_exec_error`, or an exception without text. */
  datatype SettleEnd = Settled(execError: Option<string>) | SettleRaises

  function TimedOutAfter(budget: nat): string {
    "timed out after " + Repr(budget + 1000, 10) + "ms"
  }

  /** `_is_csp_blocked`. */
  predicate IsCspBlocked(error: Option<string>) {
    error.Some? && error.value != "" &&
    var m := Lower(error.value);
    Contains(m, "blocked by csp") || Contains(m, "unsafe-eval") || Contains(m, "content security policy")
  }

  lemma CspBlocksExactly(error: Option<string>)
    ensures IsCspBlocked(error) <==>
            error.Some? &&
            (|| Mentions(error.value, "blocked by csp")
             || Mentions(error.value, "unsafe-eval")
             || Mentions(error.value, "content security policy"))
  {
    if error.Some? {
      var m := Lower(error.value);
      ContainsExactly(m, "blocked by csp");
      ContainsExactly(m, "unsafe-eval");
      ContainsExactly(m, "content security policy");
    }
  }

  /** `_last_exec_error` after a page read that failed, and None where the read raises instead. */
  function ReadError(read: ContentRead, budget: nat): Option<string>
    requires !read.Content?
  {
    match read
    case ReadTimesOut => Some("timed out after " + Repr(budget + 1000, 10) + "ms")
    case ReadRaises(message) => if message == "" then None else Some(Clip(FirstLine(message).value, 200))
  }

  lemma TimedOutText(budget: nat, c: char)
    requires c in "kvy"
    ensures Excludes(Lower(TimedOutAfter(budget)), c)
  {
    var digits := Repr(budget + EXEC_GRACE_MS, 10);
    forall i | 0 <= i < |digits| ensures digits[i] in "0123456789" {
      assert DigitValue(digits[i]) < 10;
      OfDigit(digits[i]);
      assert "0123456789"[DigitValue(digits[i])] == digits[i];
    }
    var text := TimedOutAfter(budget);
    forall i | 0 <= i < |text| ensures LowerChar(text[i]) != c {
      assert i >= 16 && i < 16 + |digits| ==> text[i] == digits[i - 16];
    }
  }

  /** A blown deadline is never taken for a CSP block, so it is not polled after. */
  lemma TimeoutIsNoCspBlock(budget: nat)
    ensures !IsCspBlocked(Some(TimedOutAfter(budget)))
  {
    var m := Lower(TimedOutAfter(budget));
    TimedOutText(budget, 'k');
    TimedOutText(budget, 'v');
    TimedOutText(budget, 'y');
    assert "blocked by csp"[4] == 'k' && "unsafe-eval"[8] == 'v' && "content security policy"[15] == 'y';
    ContainsNothingNew(m, "blocked by csp", 'k');
    ContainsNothingNew(m, "unsafe-eval", 'v');
    ContainsNothingNew(m, "content security policy", 'y');
  }

  /** When the script resolves: the first quiet point and 500 ms, or the cap. */
  ghost predicate ResolvesAt(cap: nat, mutations: seq<nat>, time: int) {
    forall i: nat :: IsFirstQuiet(Points(mutations), i) ==> time == Min(cap, Points(mutations)[i] + 500)
  }

  lemma ResolvesByCap(cap: nat, mutations: seq<nat>, time: int)
    requires ResolvesAt(cap, mutations, time)
    ensures time <= cap
  {
    var _ := FirstQuietExists(Points(mutations));
  }

  /** The script failed before its deadline, and with this text. */
  predicate FailsInTime(evaluation: Evaluation, cap: nat) {
    evaluation.Fails? && evaluation.at < cap + 1000
  }

  /** The script failed in time, and by its text because of the page's CSP. */
  predicate MeetsCspBlock(evaluation: Evaluation, cap: nat) {
    && FailsInTime(evaluation, cap) && evaluation.message != ""
    && IsCspBlocked(Some(Clip(FirstLine(evaluation.message).value, 200)))
  }

  /** The script resolved and answered before its deadline. */
  ghost predicate AnswersInTime(evaluation: Evaluation, cap: nat) {
    evaluation.Evaluated? && forall time: nat :: ResolvesAt(cap, evaluation.mutations, time) ==> time + evaluation.latency < cap + 1000
  }

  /** What the script under its deadline leaves: nothing if it answered in time, otherwise why it did not. */
  ghost predicate ExecLeaves(evaluation: Evaluation, cap: nat, error: Option<string>) {
    if AnswersInTime(evaluation, cap) then error == None
    else if FailsInTime(evaluation, cap) then evaluation.message != "" && error == Some(Clip(FirstLine(evaluation.message).value, 200))
    else error == Some("timed out after " + Repr(cap + 1000, 10) + "ms")
  }

  lemma ResolvesOnce(cap: nat, mutations: seq<nat>, one: int, other: int)
    requires ResolvesAt(cap, mutations, one) && ResolvesAt(cap, mutations, other)
    ensures one == other
  {
    var i := FirstQuietExists(Points(mutations));
  }

  lemma AnswersWhen(evaluation: Evaluation, cap: nat, time: nat)
    requires evaluation.Evaluated? && ResolvesAt(cap, evaluation.mutations, time)
    ensures AnswersInTime(evaluation, cap) <==> time + evaluation.latency < cap + 1000
  {
    forall other: nat | ResolvesAt(cap, evaluation.mutations, other) ensures other == time {
      ResolvesOnce(cap, evaluation.mutations, time, other);
    }
  }

  /** `exec_js` on the settle script, under a deadline one second past the cap. */
  method ExecSettle(cap: nat, evaluation: Evaluation) returns (end: SettleEnd, spent: nat)
    ensures end.SettleRaises? <==> FailsInTime(evaluation, cap) && evaluation.message == ""
    ensures end.Settled? ==> ExecLeaves(evaluation, cap, end.execError)
    ensures AnswersInTime(evaluation, cap) ==> ResolvesAt(cap, evaluation.mutations, spent - evaluation.latency)
    ensures FailsInTime(evaluation, cap) ==> spent == evaluation.at
    ensures !AnswersInTime(evaluation, cap) && !FailsInTime(evaluation, cap) ==> spent == cap + 1000
    ensures spent <= cap + 1000
    ensures evaluation.Evaluated? && evaluation.latency < 1000 ==> AnswersInTime(evaluation, cap)
    ensures end.Settled? && IsCspBlocked(end.execError) <==> MeetsCspBlock(evaluation, cap)
  {
    TimeoutIsNoCspBlock(cap);
    match evaluation {
      case Evaluated(mutations, latency) =>
        var resolved := RunSettle(cap, mutations);
        ResolvesByCap(cap, mutations, resolved[0]);
        AnswersWhen(evaluation, cap, resolved[0]);
        if resolved[0] + latency >= cap + EXEC_GRACE_MS {
          return Settled(Some(TimedOutAfter(cap))), cap + EXEC_GRACE_MS;
        }
        return Settled(None), resolved[0] + latency;
      case Fails(message, at) =>
        if at >= cap + EXEC_GRACE_MS {
          return Settled(Some(TimedOutAfter(cap))), cap + EXEC_GRACE_MS;
        }
        var line := FirstLine(message);
        if line.None? {
          return SettleRaises, at;
        }
        return Settled(Some(Clip(line.value, 200))), at;
    }
  }

  /** What polling leaves in `_last_exec_error`: what its last read does. */
  function PollEnd(page: Samples, k: nat, exit: Exit, before: Option<string>): SettleEnd
    requires exit == Gone ==> !page.content(k).Content?
  {
    match exit
    case Broken => SettleRaises
    case Gone => Settled(ReadError(page.content(k), POLL_READ_BUDGET_MS))
    case Quiet => Settled(None)
    case Capped => Settled(if k == 0 then before else None)
  }

  lemma ExitIsUnique(page: Samples, hash: Hash, cap: nat, k: nat, exit: Exit, m: nat, other: Exit)
    requires FirstLeaves(page, hash, cap, k, exit) && FirstLeaves(page, hash, cap, m, other)
    ensures k == m && exit == other
  {
    assert k < m ==> !Leaves(page, hash, cap, k, exit);
    assert m < k ==> !Leaves(page, hash, cap, m, other);
    if QuietAt(page, hash, k) {
      assert SameDigest(page, hash, k, k);
    }
  }

  /** What one settle wait meets: the remaining budget, the script's evaluation, and the page should it come to polling. */
  datatype Settling = Settling(budget: nat, evaluation: Evaluation, page: Samples, hash: Hash)

  function CapOf(settleMs: nat, input: Settling): (cap: nat)
    ensures cap == Least(if settleMs > 0 then settleMs else 5000, input.budget, 25000)
  {
    CapsOfWholeBudget(settleMs, input.budget);
    EffectiveSettleCap(settleMs, Millis(input.budget as real))
  }

  /** The wait raises: the script, or a page read of the polling, fails with an exception that has no text. */
  ghost predicate SettleRaisesOn(settleMs: nat, input: Settling) {
    var cap := CapOf(settleMs, input);
    if MeetsCspBlock(input.evaluation, cap) then exists k :: FirstLeaves(input.page, input.hash, cap, k, Broken)
    else FailsInTime(input.evaluation, cap) && input.evaluation.message == ""
  }

  /** What a polling that ended so leaves: the error of its last page read, and that of the script if there was none. */
  predicate PollLeaves(page: Samples, k: nat, exit: Exit, before: Option<string>, error: Option<string>) {
    match exit
    case Broken => false
    case Gone => !page.content(k).Content? && error == ReadError(page.content(k), 5000)
    case Quiet => error == None
    case Capped => error == if k == 0 then before else None
  }

  /** The text a settle wait leaves in `_last_exec_error`, if it does not raise. */
  ghost predicate SettleLeaves(settleMs: nat, input: Settling, error: Option<string>) {
    var cap := CapOf(settleMs, input);
    if MeetsCspBlock(input.evaluation, cap) then
      exists k, exit, before ::
        && FirstLeaves(input.page, input.hash, cap, k, exit)
        && ExecLeaves(input.evaluation, cap, before) && PollLeaves(input.page, k, exit, before, error)
    else ExecLeaves(input.evaluation, cap, error)
  }

  /**
    `_settle`, times counted from the call. It polls exactly after a CSP block. Otherwise it takes
    at most a second more than its cap; with polling, and page reads within their limit, at most
    another cap and 6250 ms. The cap fits the budget.
  */
  method SettleWait(settleMs: nat, input: Settling) returns (end: SettleEnd, spent: nat, ghost exit: Exit, ghost k: nat)
    ensures end.SettleRaises? <==> SettleRaisesOn(settleMs, input)
    ensures end.Settled? ==> SettleLeaves(settleMs, input, end.execError)
    ensures var cap := CapOf(settleMs, input);
            MeetsCspBlock(input.evaluation, cap) && (forall i :: input.page.took(i) <= 6000) ==> spent <= 2 * cap + 7250
    ensures var cap := CapOf(settleMs, input);
            !MeetsCspBlock(input.evaluation, cap) ==>
              && spent <= cap + 1000
              && (end == Settled(None) <==> AnswersInTime(input.evaluation, cap))
              && (AnswersInTime(input.evaluation, cap) ==> ResolvesAt(cap, input.evaluation.mutations, spent - input.evaluation.latency))
              && (input.evaluation.Evaluated? && input.evaluation.latency < 1000 ==> AnswersInTime(input.evaluation, cap))
    ensures var cap := CapOf(settleMs, input);
            MeetsCspBlock(input.evaluation, cap) ==>
              && FirstLeaves(input.page, input.hash, cap, k, exit)
              && spent == input.evaluation.at + ExitTime(input.page, k, exit)
  {
    var cap := CapOf(settleMs, input);
    end, spent := ExecSettle(cap, input.evaluation);
    exit, k := Capped, 0;
    if end.Settled? && IsCspBlocked(end.execError) {
      var left, round := SettleByPolling(input.page, input.hash, cap);
      if forall i :: input.page.took(i) <= 6000 {
        PollingEnds(input.page, input.hash, cap, round, left);
      }
      if SettleRaisesOn(settleMs, input) {
        var m :| FirstLeaves(input.page, input.hash, cap, m, Broken);
        ExitIsUnique(input.page, input.hash, cap, round, left, m, Broken);
      }
      end, spent := PollEnd(input.page, round, left, end.execError), spent + ExitTime(input.page, round, left);
      exit, k := left, round;
    }
  }
}
