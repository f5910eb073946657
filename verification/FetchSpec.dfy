/** The fetch-job wire contract: `parse_fetch_frame` over arbitrary JSON, and the effective caps. */
module FetchSpec {
  import opened Options

  /** A decoded JSON value. `NonFinite` is NaN or an infinity, which Python's decoder accepts. */
  datatype Json =
    | Null
    | Bool(b: bool)
    | Int(i: int)
    | Real(r: real)
    | NonFinite
    | Str(s: string)
    | Arr(items: seq<Json>)
    | Obj(fields: map<string, Json>)

  const WAIT_FOR_DEFAULT: string := "stable"
  const SETTLE_DEFAULT_MS := 5000
  const SETTLE_MAX_MS := 25000
  const DETECT_DEFAULT_MS := 800
  const DETECT_MAX_MS := 25000
  const STABLE_QUIET_MS := 500

  datatype Rule = Rule(guard: string, target: string)

  datatype Job = Job(
    jobId: string,
    url: string,
    waitFor: string,
    settleMs: nat,
    waitRules: seq<Rule>,
    detectMs: nat)
  {
    /** What every parsed job satisfies. */
    predicate WellFormed() {
      && jobId != "" && url != "" && waitFor != ""
      && forall i :: 0 <= i < |waitRules| ==> waitRules[i].guard != ""
    }
  }

  /** `dict.get(key)`. */
  function Get(fields: map<string, Json>, key: string): Json {
    if key in fields then fields[key] else Null
  }

  /** A non-empty string, or the default. */
  function NonEmpty(value: Json, default: string): string {
    if value.Str? && value.s != "" then value.s else default
  }

  /** `_positive_int`: whole milliseconds of a positive finite number; booleans are not numbers. */
  function PositiveInt(value: Json): nat {
    match value
    case Int(i) => if i > 0 then i else 0
    case Real(r) => if r > 0.0 then r.Floor else 0
    case _ => 0
  }

  /** A raw rule that carries a guard, normalised. */
  function ParseRule(raw: Json): (r: Option<Rule>)
    ensures r.Some? ==> r.value.guard != ""
  {
    if !raw.Obj? then None
    else
      var guard, target := Get(raw.fields, "if"), Get(raw.fields, "then");
      if !guard.Str? || guard.s == "" then None
      else Some(Rule(guard.s, if target.Str? then target.s else ""))
  }

  function FilterRules(raws: seq<Json>): (rules: seq<Rule>)
    ensures forall i :: 0 <= i < |rules| ==> rules[i].guard != ""
  {
    if raws == [] then []
    else
      var last := ParseRule(raws[|raws| - 1]);
      FilterRules(raws[..|raws| - 1]) + if last.Some? then [last.value] else []
  }

  function RawRules(fields: map<string, Json>): seq<Json> {
    if Get(fields, "waitRules").Arr? then Get(fields, "waitRules").items else []
  }

  /** What `parse_fetch_frame` computes. */
  function FrameJob(msg: Json): (job: Option<Job>)
    ensures job.Some? ==> job.value.WellFormed()
  {
    if !msg.Obj? then None
    else
      var jobId, url := Get(msg.fields, "jobId"), Get(msg.fields, "url");
      if !jobId.Str? || jobId.s == "" || !url.Str? || url.s == "" then None
      else Some(Job(
                  jobId.s,
                  url.s,
                  NonEmpty(Get(msg.fields, "waitFor"), WAIT_FOR_DEFAULT),
                  PositiveInt(Get(msg.fields, "settleMs")),
                  FilterRules(RawRules(msg.fields)),
                  PositiveInt(Get(msg.fields, "detectMs"))))
  }

  method ParseFetchFrame(msg: Json) returns (job: Option<Job>)
    ensures job == FrameJob(msg)
  {
    if !msg.Obj? {
      return None;
    }
    var jobId, url := Get(msg.fields, "jobId"), Get(msg.fields, "url");
    if !jobId.Str? || jobId.s == "" {
      return None;
    }
    if !url.Str? || url.s == "" {
      return None;
    }
    var rules: seq<Rule> := [];
    var raws := RawRules(msg.fields);
    for i := 0 to |raws|
      invariant rules == FilterRules(raws[..i])
    {
      assert raws[..i + 1][..i] == raws[..i];
      var rule := ParseRule(raws[i]);
      if rule.Some? {
        rules := rules + [rule.value];
      }
    }
    assert raws[..|raws|] == raws;
    return Some(Job(
                  jobId.s,
                  url.s,
                  NonEmpty(Get(msg.fields, "waitFor"), WAIT_FOR_DEFAULT),
                  PositiveInt(Get(msg.fields, "settleMs")),
                  rules,
                  PositiveInt(Get(msg.fields, "detectMs"))));
  }

  /** The dict holds a text under this key, and not the empty one. */
  predicate HasText(msg: Json, key: string) {
    msg.Obj? && key in msg.fields && msg.fields[key].Str? && msg.fields[key].s != ""
  }

  /** The number of milliseconds that a key asks for; none if it is missing. */
  function MillisUnder(msg: Json, key: string): nat
    requires msg.Obj?
  {
    if key in msg.fields then PositiveInt(msg.fields[key]) else 0
  }

  /** A raw rule is kept exactly if it carries a guard; without a text for its target, that is the empty one. */
  lemma RuleExactly(raw: Json)
    ensures ParseRule(raw).Some? <==> HasText(raw, "if")
    ensures ParseRule(raw).Some? ==>
              && ParseRule(raw).value.guard == raw.fields["if"].s
              && ParseRule(raw).value.target
                 == if "then" in raw.fields && raw.fields["then"].Str? then raw.fields["then"].s else ""
  {
  }

  /**
    A frame is a job exactly if it names an id and a URL; what else it lacks, or gives with another
    type, falls back: to the mode "stable", to no rules and to no milliseconds.
  */
  lemma FrameJobExactly(msg: Json)
    ensures FrameJob(msg).Some? <==> HasText(msg, "jobId") && HasText(msg, "url")
    ensures FrameJob(msg).Some? ==>
              var job := FrameJob(msg).value;
              && job.jobId == msg.fields["jobId"].s && job.url == msg.fields["url"].s
              && job.waitFor == (if HasText(msg, "waitFor") then msg.fields["waitFor"].s else "stable")
              && job.settleMs == MillisUnder(msg, "settleMs") && job.detectMs == MillisUnder(msg, "detectMs")
              && (if "waitRules" in msg.fields && msg.fields["waitRules"].Arr? then
                    job.waitRules == FilterRules(msg.fields["waitRules"].items)
                  else job.waitRules == [])
  {
  }

  /** A number of milliseconds is cut to whole ones, towards zero; anything that is not a positive finite number is none at all. */
  lemma WholeMilliseconds(value: Json)
    ensures value.Real? && value.r > 0.0 ==> PositiveInt(value) as real <= value.r < PositiveInt(value) as real + 1.0
    ensures value.Int? && value.i > 0 ==> PositiveInt(value) == value.i
    ensures (value.Int? && value.i <= 0) || (value.Real? && value.r <= 0.0) ==> PositiveInt(value) == 0
    ensures !value.Int? && !value.Real? ==> PositiveInt(value) == 0
  {
  }

  // ----- Idempotence -------------------------------------------------------

  function RuleJson(rule: Rule): Json {
    Obj(map["if" := Str(rule.guard), "then" := Str(rule.target)])
  }

  function RulesJson(rules: seq<Rule>): (raws: seq<Json>)
    ensures |raws| == |rules| && forall i :: 0 <= i < |rules| ==> raws[i] == RuleJson(rules[i])
  {
    seq(|rules|, i requires 0 <= i < |rules| => RuleJson(rules[i]))
  }

  /** The dict a parsed job is. */
  function JobJson(job: Job): Json {
    Obj(map[
          "jobId" := Str(job.jobId),
          "url" := Str(job.url),
          "waitFor" := Str(job.waitFor),
          "settleMs" := Int(job.settleMs),
          "waitRules" := Arr(RulesJson(job.waitRules)),
          "detectMs" := Int(job.detectMs)])
  }

  lemma {:induction false} FilterKeepsRules(rules: seq<Rule>)
    requires forall i :: 0 <= i < |rules| ==> rules[i].guard != ""
    ensures FilterRules(RulesJson(rules)) == rules
  {
    if rules != [] {
      var front := rules[..|rules| - 1];
      FilterKeepsRules(front);
      assert RulesJson(rules)[..|rules| - 1] == RulesJson(front);
      assert ParseRule(RuleJson(rules[|rules| - 1])) == Some(rules[|rules| - 1]);
    }
  }

  lemma JobFields(job: Job)
    ensures var fields := JobJson(job).fields;
            && Get(fields, "jobId") == Str(job.jobId) && Get(fields, "url") == Str(job.url)
            && Get(fields, "waitFor") == Str(job.waitFor) && Get(fields, "settleMs") == Int(job.settleMs)
            && Get(fields, "waitRules") == Arr(RulesJson(job.waitRules)) && Get(fields, "detectMs") == Int(job.detectMs)
  {
  }

  /** Every well-formed job is what its own dict parses to. */
  lemma JobsParseBack(job: Job)
    requires job.WellFormed()
    ensures FrameJob(JobJson(job)) == Some(job)
  {
    JobFields(job);
    FilterKeepsRules(job.waitRules);
  }

  /** So parsing is idempotent: it changes nothing in its own output, whatever JSON it started from. */
  lemma ParseIsIdempotent(msg: Json)
    ensures FrameJob(msg).Some? ==> FrameJob(JobJson(FrameJob(msg).value)) == FrameJob(msg)
  {
    if FrameJob(msg).Some? {
      JobsParseBack(FrameJob(msg).value);
    }
  }

  /** The wire positions of the rules that survive. */
  function Kept(raws: seq<Json>): (positions: seq<nat>)
    ensures |positions| == |FilterRules(raws)|
    ensures forall j :: 0 <= j < |positions| ==> positions[j] < |raws|
  {
    if raws == [] then []
    else Kept(raws[..|raws| - 1]) + if ParseRule(raws[|raws| - 1]).Some? then [|raws| - 1] else []
  }

  /** The parsed rules are the guarded raw rules, all of them, in wire order. */
  lemma {:induction false} RulesAreTheGuardedOnes(raws: seq<Json>)
    ensures forall j :: 0 <= j < |Kept(raws)| ==> ParseRule(raws[Kept(raws)[j]]) == Some(FilterRules(raws)[j])
    ensures forall j, k :: 0 <= j < k < |Kept(raws)| ==> Kept(raws)[j] < Kept(raws)[k]
    ensures forall i :: 0 <= i < |raws| && ParseRule(raws[i]).Some? ==> i in Kept(raws)
  {
    if raws != [] {
      var front := raws[..|raws| - 1];
      RulesAreTheGuardedOnes(front);
      forall i | 0 <= i < |raws| && ParseRule(raws[i]).Some? ensures i in Kept(raws) {
        if i < |raws| - 1 {
          assert ParseRule(front[i]).Some? && i in Kept(front);
        } else {
          assert Kept(raws)[|Kept(raws)| - 1] == i;
        }
      }
    }
  }

  predicate AllGuarded(raws: seq<Json>, count: nat)
    requires count <= |raws|
  {
    forall i :: 0 <= i < count ==> ParseRule(raws[i]).Some?
  }

  /** A parsed rule sits at its own wire position exactly when no rule before it was dropped. */
  lemma {:induction false} IndexRefersToWire(raws: seq<Json>, j: nat)
    requires j < |FilterRules(raws)|
    ensures j <= Kept(raws)[j]
    ensures Kept(raws)[j] == j <==> AllGuarded(raws, Kept(raws)[j])
  {
    var front := raws[..|raws| - 1];
    KeptPrefix(raws);
    if j < |Kept(front)| {
      IndexRefersToWire(front, j);
    } else {
      assert Kept(raws)[j] == |front| && |Kept(front)| == j;
      CountKept(front);
    }
  }

  lemma KeptPrefix(raws: seq<Json>)
    requires raws != []
    ensures Kept(raws[..|raws| - 1]) <= Kept(raws)
  {
  }

  lemma {:induction false} CountKept(raws: seq<Json>)
    ensures |Kept(raws)| <= |raws|
    ensures |Kept(raws)| == |raws| <==> AllGuarded(raws, |raws|)
  {
    if raws != [] {
      var front := raws[..|raws| - 1];
      CountKept(front);
      assert AllGuarded(raws, |raws|) <==> AllGuarded(front, |front|) && ParseRule(raws[|front|]).Some?;
    }
  }

  // ----- Effective caps ----------------------------------------------------

  /** A navigation budget in milliseconds; the default argument is `math.inf`. */
  datatype Budget = Unlimited | Millis(ms: real)

  /** `int(x)`: towards zero. */
  function Truncate(x: real): int {
    if x >= 0.0 then x.Floor else -(-x).Floor
  }

  function MinReal(x: real, y: real): real {
    if x <= y then x else y
  }

  function Effective(requested: int, default: nat, max: nat, budget: Budget): int {
    var wanted := if requested > 0 then requested as real else default as real;
    var bounded := if budget.Millis? then MinReal(wanted, budget.ms) else wanted;
    Truncate(MinReal(bounded, max as real))
  }

  function EffectiveSettleCap(settleMs: int, budget: Budget): int {
    Effective(settleMs, SETTLE_DEFAULT_MS, SETTLE_MAX_MS, budget)
  }

  function EffectiveDetectProbe(detectMs: int, budget: Budget): int {
    Effective(detectMs, DETECT_DEFAULT_MS, DETECT_MAX_MS, budget)
  }

  predicate Within(small: Budget, large: Budget) {
    large.Unlimited? || (small.Millis? && small.ms <= large.ms)
  }

  lemma FloorMonotone(x: real, y: real)
    requires x <= y
    ensures x.Floor <= y.Floor
  {
  }

  /** Any non-negative budget gives a cap in 0..max that fits the budget and grows with it. */
  lemma CapsFitTheBudget(requested: int, default: nat, max: nat, budget: Budget, larger: Budget)
    requires budget.Millis? ==> budget.ms >= 0.0
    requires Within(budget, larger)
    ensures 0 <= Effective(requested, default, max, budget) <= max
    ensures budget.Millis? ==> Effective(requested, default, max, budget) as real <= budget.ms
    ensures Effective(requested, default, max, budget) <= Effective(requested, default, max, larger)
  {
    var wanted := if requested > 0 then requested as real else default as real;
    var small := MinReal(if budget.Millis? then MinReal(wanted, budget.ms) else wanted, max as real);
    var large := MinReal(if larger.Millis? then MinReal(wanted, larger.ms) else wanted, max as real);
    FloorMonotone(small, large);
    FloorMonotone(small, max as real);
  }

  /** An ample budget leaves the schema's own formula. */
  lemma CapsWithoutBudget(requested: int)
    ensures EffectiveSettleCap(requested, Unlimited) == if requested <= 0 then 5000 else if requested <= 25000 then requested else 25000
    ensures EffectiveDetectProbe(requested, Unlimited) == if requested <= 0 then 800 else if requested <= 25000 then requested else 25000
  {
    assert (requested as real).Floor == requested;
  }

  /** A budget that is overdrawn is cut towards zero as well. */
  lemma CapsOfOverdrawnBudget(requested: int, default: nat, max: nat, overdrawn: real)
    requires overdrawn > 0.0
    ensures var cap := Effective(requested, default, max, Millis(-overdrawn));
            cap <= 0 && -overdrawn <= cap as real < -overdrawn + 1.0
  {
  }

  function Least(a: int, b: int, c: int): (m: int)
    ensures m <= a && m <= b && m <= c && m in {a, b, c}
  {
    if a <= b && a <= c then a else if b <= c then b else c
  }

  /** Of a budget of whole milliseconds, each cap is the least of what is asked for, what is left and 25 seconds. */
  lemma CapsOfWholeBudget(requested: int, left: nat)
    ensures EffectiveSettleCap(requested, Millis(left as real)) == Least(if requested > 0 then requested else 5000, left, 25000)
    ensures EffectiveDetectProbe(requested, Millis(left as real)) == Least(if requested > 0 then requested else 800, left, 25000)
  {
    assert (requested as real).Floor == requested && (left as real).Floor == left;
  }
}
