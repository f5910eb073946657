/**
  The reconnect backoff as a function of how long each attempt lasted, and the amortised
  bound it keeps: three reconnects never cost less than 17 seconds in the long run.
*/
module Backoff {

  const INITIAL_BACKOFF_MS: nat := 1000
  const MAX_BACKOFF_MS: nat := 30000
  const BACKOFF_RESET_AFTER_MS: nat := 10000

  function NextBackoffMs(current: nat): nat {
    if current * 2 <= MAX_BACKOFF_MS then current * 2 else MAX_BACKOFF_MS
  }

  predicate IsLong(duration: nat) {
    duration >= BACKOFF_RESET_AFTER_MS
  }

  /** The sleep that follows an attempt of this duration, after cycles with the given durations. */
  function SleepAfter(durations: seq<nat>, duration: nat): nat
    decreases |durations|, 1
  {
    if IsLong(duration) then INITIAL_BACKOFF_MS else BackoffAfter(durations)
  }

  /** The backoff once all these attempt-and-sleep cycles are complete. */
  function BackoffAfter(durations: seq<nat>): nat
    decreases |durations|, 0
  {
    if durations == [] then INITIAL_BACKOFF_MS
    else
      var last := |durations| - 1;
      NextBackoffMs(SleepAfter(durations[..last], durations[last]))
  }

  /** The least time the cycles take: each attempt, and the sleep after it. */
  function TotalTime(durations: seq<nat>): nat {
    if durations == [] then 0
    else
      var last := |durations| - 1;
      TotalTime(durations[..last]) + durations[last] + SleepAfter(durations[..last], durations[last])
  }

  /** Cycles since the backoff was last at its initial value: 1 right after a long attempt's sleep. */
  function Streak(durations: seq<nat>): nat {
    if durations == [] then 0
    else
      var last := |durations| - 1;
      if IsLong(durations[last]) then 1 else Streak(durations[..last]) + 1
  }

  function PowerOfTwo(k: nat): nat {
    if k == 0 then 1 else 2 * PowerOfTwo(k - 1)
  }

  predicate IsBackoff(ms: nat) {
    ms in {1000, 2000, 4000, 8000, 16000, 30000}
  }

  /** The closed form: doubling from one second, capped at thirty. */
  lemma {:induction false} BackoffClosedForm(durations: seq<nat>)
    ensures IsBackoff(BackoffAfter(durations))
    ensures BackoffAfter(durations) == if 1000 * PowerOfTwo(Streak(durations)) <= 30000 then 1000 * PowerOfTwo(Streak(durations)) else 30000
  {
    if durations != [] {
      var last := |durations| - 1;
      BackoffClosedForm(durations[..last]);
      assert PowerOfTwo(1) == 2;
    }
  }

  /** Time already paid in advance when the backoff stands at this value, in thirds of a millisecond. */
  function Credit(backoff: nat): int {
    match backoff
    case 1000 => 30000
    case 2000 => 16000
    case 4000 => 5000
    case 8000 => 0
    case 16000 => 7000
    case _ => 38000
  }

  lemma {:induction false} CreditHolds(durations: seq<nat>)
    ensures 3 * TotalTime(durations) + 30000 - 17000 * |durations| >= Credit(BackoffAfter(durations))
  {
    if durations != [] {
      var last := |durations| - 1;
      CreditHolds(durations[..last]);
      BackoffClosedForm(durations[..last]);
    }
  }

  /** n complete cycles take at least 17000 n / 3 - 10000 ms, whatever the attempts do. */
  lemma AmortisedBound(durations: seq<nat>)
    ensures 3 * TotalTime(durations) >= 17000 * |durations| - 30000
  {
    CreditHolds(durations);
    BackoffClosedForm(durations);
  }

  /** Three rounds cost: a long attempt whenever the streak is three cycles old. */
  function Cheapest(rounds: nat): (durations: seq<nat>)
    ensures |durations| == 3 * rounds
  {
    if rounds == 0 then []
    else if rounds == 1 then [0, 0, 0]
    else Cheapest(rounds - 1) + [BACKOFF_RESET_AFTER_MS] + [0] + [0]
  }

  lemma Append(durations: seq<nat>, d: nat)
    ensures TotalTime(durations + [d]) == TotalTime(durations) + d + SleepAfter(durations, d)
    ensures BackoffAfter(durations + [d]) == NextBackoffMs(SleepAfter(durations, d))
  {
    assert (durations + [d])[..|durations|] == durations;
  }

  /** A long attempt and two instant ones take 17 seconds with their sleeps. */
  lemma ThreeCycles(before: seq<nat>)
    ensures TotalTime(before + [BACKOFF_RESET_AFTER_MS] + [0] + [0]) == TotalTime(before) + 17000
  {
    var one := before + [BACKOFF_RESET_AFTER_MS];
    Append(before, BACKOFF_RESET_AFTER_MS);
    Append(one, 0);
    Append(one + [0], 0);
    assert BackoffAfter(one) == 2000 && BackoffAfter(one + [0]) == 4000;
  }

  lemma FirstThreeCycles()
    ensures TotalTime([0, 0, 0]) == 7000
  {
    Append([], 0);
    assert [] + [0] == [0] && BackoffAfter([0]) == 2000;
    Append([0], 0);
    assert [0] + [0] == [0, 0] && BackoffAfter([0, 0]) == 4000;
    Append([0, 0], 0);
    assert [0, 0] + [0] == [0, 0, 0];
  }

  lemma {:induction false} CheapestTime(rounds: nat, durations: seq<nat>)
    requires rounds >= 1 && durations == Cheapest(rounds)
    ensures TotalTime(durations) == 17000 * rounds - 10000
  {
    if rounds == 1 {
      FirstThreeCycles();
    } else {
      var before := Cheapest(rounds - 1);
      CheapestTime(rounds - 1, before);
      ThreeCycles(before);
    }
  }

  /** The bound is attained for every multiple of three cycles. */
  lemma BoundIsTight(rounds: nat)
    requires rounds >= 1
    ensures 3 * TotalTime(Cheapest(rounds)) == 17000 * |Cheapest(rounds)| - 30000
  {
    CheapestTime(rounds, Cheapest(rounds));
  }
}
