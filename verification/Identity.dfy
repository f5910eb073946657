/** Pairing and machine identity over restarts. */
module Identity {
  import opened Options
  import opened FetchSpec

  // ----- The device-token store and enrollment -------------------------------

  /** How writing the token file ends: `os.replace` makes the new content visible in one step. */
  datatype WriteOutcome = Written | FailsBeforeReplace | FailsAfterReplace

  class DeviceTokenStore {
    const machineId: string
    var file: Option<Json>      // the decoded device.json; None: missing, unreadable or not JSON

    constructor (machineId: string, file: Option<Json>)
      ensures this.machineId == machineId && this.file == file
    {
      this.machineId := machineId;
      this.file := file;
    }

    /** `read`: a non-empty token minted for this machine, and no other. */
    function Read(): (token: Option<string>)
      reads this
      ensures token.Some? <==>
              && file.Some? && HasText(file.value, "deviceToken")
              && "machineId" in file.value.fields && file.value.fields["machineId"] == Str(machineId)
      ensures token.Some? ==> file.value.fields["deviceToken"] == Str(token.value)
    {
      if file.None? || !file.value.Obj? then None
      else
        var token := Get(file.value.fields, "deviceToken");
        if !token.Str? || token.s == "" then None
        else if Get(file.value.fields, "machineId") != Str(machineId) then None
        else Some(token.s)
    }

    method Write(token: string, stamp: string, outcome: WriteOutcome) returns (raised: bool)
      modifies this
      ensures raised <==> !outcome.Written?
      ensures outcome.FailsBeforeReplace? ==> file == old(file)
      ensures !outcome.FailsBeforeReplace? && token != "" ==> Read() == Some(token)
    {
      if outcome.FailsBeforeReplace? {
        return true;
      }
      file := Some(Obj(map["deviceToken" := Str(token), "machineId" := Str(machineId), "registeredAt" := Str(stamp)]));
      return outcome.FailsAfterReplace?;
    }
  }

  datatype EnrollResult = EnrollResult(token: Option<string>, retryable: bool) {
    predicate Success() {
      token.Some? && token.value != ""
    }

    /** The loop goes on to another attempt. */
    predicate TryAgain() {
      !Success() && retryable
    }
  }

  const ENROLL_RETRY_MS: seq<nat> := [1000, 3000, 8000, 20000]
  const ATTEMPTS: nat := 1 + |ENROLL_RETRY_MS|

  /** The sleeps before the attempt with this index. */
  function SleptBefore(attempt: nat): nat
    requires attempt < ATTEMPTS
  {
    if attempt == 0 then 0 else SleptBefore(attempt - 1) + ENROLL_RETRY_MS[attempt - 1]
  }

  lemma SleepSchedule()
    ensures SleptBefore(0) == 0 && SleptBefore(1) == 1000 && SleptBefore(2) == 4000
    ensures SleptBefore(3) == 12000 && SleptBefore(4) == 32000
  {
    assert SleptBefore(2) == SleptBefore(1) + 3000;
    assert SleptBefore(3) == SleptBefore(2) + 8000;
    assert SleptBefore(4) == SleptBefore(3) + 20000;
  }

  /** The attempt at which the loop ends: the first that succeeds or is refused, or the fifth. */
  predicate IsLastAttempt(enroll: nat -> EnrollResult, attempt: nat) {
    && attempt <= 4
    && (attempt == 4 || !enroll(attempt).TryAgain())
    && forall i: nat :: i < attempt ==> enroll(i).TryAgain()
  }

  datatype Obtained = Returned(token: Option<string>) | WriteRaised

  /**
    `obtain_device_token`. `enroll(i)` is what the i-th enrollment call returns; `calls` and
    `slept` count the calls and the milliseconds slept.
  */
  method ObtainDeviceToken(apiKey: string, store: DeviceTokenStore, enroll: nat -> EnrollResult,
                           stamp: string, write: WriteOutcome)
    returns (r: Obtained, calls: nat, slept: nat)
    modifies store
    ensures r.Returned? ==> store.Read() == r.token
    ensures apiKey == "" ==> calls == 0 && slept == 0 && r == Returned(old(store.Read())) && store.file == old(store.file)
    ensures apiKey != "" ==>
              && 1 <= calls <= 5 && IsLastAttempt(enroll, calls - 1)
              && slept == [0, 1000, 4000, 12000, 32000][calls - 1]
              && (enroll(calls - 1).Success() ==>
                    r == if write.Written? then Returned(enroll(calls - 1).token) else WriteRaised)
              && (!enroll(calls - 1).Success() ==> r == Returned(old(store.Read())) && store.file == old(store.file))
  {
    var stored := store.Read();
    calls, slept := 0, 0;
    if apiKey == "" {
      return Returned(stored), 0, 0;
    }
    SleepSchedule();
    for attempt := 0 to ATTEMPTS
      invariant calls == attempt
      invariant attempt < ATTEMPTS ==> slept == SleptBefore(attempt)
      invariant attempt == ATTEMPTS ==> slept == SleptBefore(ATTEMPTS - 1)
      invariant forall i: nat :: i < attempt ==> enroll(i).TryAgain()
      invariant store.file == old(store.file)
    {
      var result := enroll(attempt);
      calls := calls + 1;
      if result.Success() {
        var raised := store.Write(result.token.value, stamp, write);
        return if raised then WriteRaised else Returned(result.token), calls, slept;
      }
      if !result.retryable {
        return Returned(stored), calls, slept;
      }
      if attempt < ATTEMPTS - 1 {
        slept := slept + ENROLL_RETRY_MS[attempt];
      }
    }
    return Returned(stored), calls, slept;
  }

  /** Which attempt is the last one is determined by the outcomes alone. */
  lemma LastAttemptIsUnique(enroll: nat -> EnrollResult, a: nat, b: nat)
    requires IsLastAttempt(enroll, a) && IsLastAttempt(enroll, b)
    ensures a == b
  {
    assert a < b ==> enroll(a).TryAgain();
    assert b < a ==> enroll(b).TryAgain();
  }

  // ----- The machine id ------------------------------------------------------

  predicate IsHex(c: char) {
    '0' <= c <= '9' || 'a' <= c <= 'f' || 'A' <= c <= 'F'
  }

  /** `_UUID_RE` matches; its `$` lets one newline follow. */
  predicate IsUuid(s: string) {
    && (|s| == 36 || (|s| == 37 && s[36] == '\n'))
    && forall i :: 0 <= i < 36 ==> if i in {8, 13, 18, 23} then s[i] == '-' else IsHex(s[i])
  }

  predicate AllHex(s: string) {
    forall i :: 0 <= i < |s| ==> s[i] in "0123456789abcdefABCDEF"
  }

  /** Five groups of 8, 4, 4, 4 and 12 hex digits. */
  predicate AreGroups(a: string, b: string, c: string, d: string, e: string) {
    && |a| == 8 && |b| == |c| == |d| == 4 && |e| == 12
    && AllHex(a) && AllHex(b) && AllHex(c) && AllHex(d) && AllHex(e)
  }

  lemma HexExactly(c: char)
    ensures IsHex(c) <==> c in "0123456789abcdefABCDEF"
  {
    var all := "0123456789abcdefABCDEF";
    if '0' <= c <= '9' {
      assert all[c as int - '0' as int] == c;
    } else if 'a' <= c <= 'f' {
      assert all[c as int - 'a' as int + 10] == c;
    } else if 'A' <= c <= 'F' {
      assert all[c as int - 'A' as int + 16] == c;
    }
  }

  lemma HexPart(s: string, i: nat, j: nat)
    requires i <= j <= |s|
    ensures AllHex(s[i..j]) <==> forall k :: i <= k < j ==> IsHex(s[k])
  {
    forall k | i <= k < j ensures IsHex(s[k]) <==> s[i..j][k - i] in "0123456789abcdefABCDEF" {
      HexExactly(s[k]);
    }
    if AllHex(s[i..j]) {
      forall k | i <= k < j ensures IsHex(s[k]) {
        assert s[i..j][k - i] == s[k];
      }
    }
  }

  function Hyphenated(a: string, b: string, c: string, d: string, e: string): string {
    a + "-" + b + "-" + c + "-" + d + "-" + e
  }

  /** The pattern accepts such groups with hyphens between them, a final newline or not, and nothing else. */
  lemma UuidsExactly(s: string)
    ensures IsUuid(s) <==>
            && (|s| == 36 || (|s| == 37 && s[36] == '\n'))
            && var (a, b, c, d, e) := (s[0..8], s[9..13], s[14..18], s[19..23], s[24..36]);
            AreGroups(a, b, c, d, e) && s[..36] == Hyphenated(a, b, c, d, e)
  {
    if |s| >= 36 {
      HexPart(s, 0, 8);
      HexPart(s, 9, 13);
      HexPart(s, 14, 18);
      HexPart(s, 19, 23);
      HexPart(s, 24, 36);
      var t := Hyphenated(s[0..8], s[9..13], s[14..18], s[19..23], s[24..36]);
      assert |t| == 36 && t[8] == '-' && t[13] == '-' && t[18] == '-' && t[23] == '-';
      assert s[..36] == t <==> s[8] == '-' && s[13] == '-' && s[18] == '-' && s[23] == '-' by {
        assert s[..36][8] == s[8] && s[..36][13] == s[13] && s[..36][18] == s[18] && s[..36][23] == s[23];
        assert forall i :: 0 <= i < 36 && i !in {8, 13, 18, 23} ==> t[i] == s[i];
      }
    }
  }

  type Uuid = s: string | IsUuid(s) witness "00000000-0000-0000-0000-000000000000"

  /** The settings `resolve_machine_id` reads; the empty string is an unset one. */
  datatype Config = Config(override: string, apiKey: string, workerId: string)

  /** The id derived from the worker key's fingerprint and the worker id. */
  type Derivation = (string, string) -> Uuid

  /** The valid id in machine.json, if any. */
  function StoredId(file: Option<Json>): (id: Option<string>)
    ensures id.Some? <==> file.Some? && HasText(file.value, "machineId") && IsUuid(file.value.fields["machineId"].s)
    ensures id.Some? ==> IsUuid(id.value) && file.value.fields["machineId"] == Str(id.value)
  {
    if file.Some? && file.value.Obj? then
      var candidate := Get(file.value.fields, "machineId");
      if candidate.Str? && IsUuid(candidate.s) then Some(candidate.s) else None
    else None
  }

  /** The resolved id; None where the source raises for a malformed override. */
  function ResolvedId(file: Option<Json>, cfg: Config, derive: Derivation, random: Uuid): (id: Option<string>)
    ensures id.Some? ==> IsUuid(id.value)
  {
    if cfg.override != "" then
      if IsUuid(cfg.override) then Some(cfg.override) else None
    else if StoredId(file).Some? then StoredId(file)
    else if cfg.apiKey != "" && cfg.workerId != "" then Some(derive(cfg.apiKey, cfg.workerId))
    else Some(random)
  }

  function Payload(id: string, source: string, stamp: string): Json {
    Obj(map["machineId" := Str(id), "source" := Str(source), "updatedAt" := Str(stamp)])
  }

  /** The data directory: machine.json, and whether it can be written. */
  class Home {
    var file: Option<Json>
    const writable: bool

    constructor (file: Option<Json>, writable: bool)
      ensures this.file == file && this.writable == writable
    {
      this.file := file;
      this.writable := writable;
    }

    method Persist(id: string, source: string, stamp: string)
      modifies this
      ensures file == if writable then Some(Payload(id, source, stamp)) else old(file)
      ensures writable ==>
                && file.Some? && file.value.Obj?
                && file.value.fields == map["machineId" := Str(id), "source" := Str(source), "updatedAt" := Str(stamp)]
    {
      if writable {
        file := Some(Payload(id, source, stamp));
      }
    }

    method ResolveMachineId(cfg: Config, derive: Derivation, random: Uuid, stamp: string) returns (id: Option<string>)
      modifies this
      ensures id == ResolvedId(old(file), cfg, derive, random)
      ensures id.None? || !writable ==> file == old(file)
      ensures id.Some? && writable ==> StoredId(file) == id
    {
      if cfg.override != "" {
        if !IsUuid(cfg.override) {
          return None;
        }
        Persist(cfg.override, "env", stamp);
        return Some(cfg.override);
      }
      var stored := StoredId(file);
      if stored.Some? {
        Persist(stored.value, "file", stamp);
        return stored;
      }
      if cfg.apiKey != "" && cfg.workerId != "" {
        Persist(derive(cfg.apiKey, cfg.workerId), "derived", stamp);
        return Some(derive(cfg.apiKey, cfg.workerId));
      }
      Persist(random, "random", stamp);
      return Some(random);
    }
  }

  /** One start of the worker: its settings, and what uuid4 would return. */
  datatype Launch = Launch(cfg: Config, random: Uuid)

  /** The stored id after a start: what was resolved, if it could be written. */
  function IdAfter(stored: Option<string>, launch: Launch, derive: Derivation, writable: bool): Option<string> {
    var resolved := IdResolved(stored, launch, derive);
    if writable && resolved.Some? then resolved else stored
  }

  /** `ResolvedId` in terms of the stored id alone. */
  function IdResolved(stored: Option<string>, launch: Launch, derive: Derivation): Option<string> {
    if launch.cfg.override != "" then
      if IsUuid(launch.cfg.override) then Some(launch.cfg.override) else None
    else if stored.Some? then stored
    else if launch.cfg.apiKey != "" && launch.cfg.workerId != "" then Some(derive(launch.cfg.apiKey, launch.cfg.workerId))
    else Some(launch.random)
  }

  lemma FileOnlyMattersThroughItsId(file: Option<Json>, launch: Launch, derive: Derivation)
    ensures ResolvedId(file, launch.cfg, derive, launch.random) == IdResolved(StoredId(file), launch, derive)
  {
  }

  /** The stored id after a sequence of starts. */
  function IdAfterAll(stored: Option<string>, launches: seq<Launch>, derive: Derivation, writable: bool): Option<string> {
    if launches == [] then stored
    else
      var last := |launches| - 1;
      IdAfter(IdAfterAll(stored, launches[..last], derive, writable), launches[last], derive, writable)
  }

  /** What each of them resolved. */
  function IdsResolved(stored: Option<string>, launches: seq<Launch>, derive: Derivation, writable: bool): (ids: seq<Option<string>>)
    ensures |ids| == |launches|
  {
    if launches == [] then []
    else
      var last := |launches| - 1;
      IdsResolved(stored, launches[..last], derive, writable)
      + [IdResolved(IdAfterAll(stored, launches[..last], derive, writable), launches[last], derive)]
  }

  /** Each start resolves its id from what the starts before it left. */
  lemma {:induction false} EachStartReadsTheLast(stored: Option<string>, launches: seq<Launch>, i: nat, derive: Derivation, writable: bool)
    requires i < |launches|
    ensures IdsResolved(stored, launches, derive, writable)[i]
            == IdResolved(IdAfterAll(stored, launches[..i], derive, writable), launches[i], derive)
  {
    var last := |launches| - 1;
    if i < last {
      EachStartReadsTheLast(stored, launches[..last], i, derive, writable);
      assert launches[..last][..i] == launches[..i];
    }
  }

  lemma IdAfterOneMore(stored: Option<string>, launches: seq<Launch>, k: nat, derive: Derivation, writable: bool)
    requires k < |launches|
    ensures IdAfterAll(stored, launches[..k + 1], derive, writable)
            == IdAfter(IdAfterAll(stored, launches[..k], derive, writable), launches[k], derive, writable)
    ensures IdsResolved(stored, launches[..k + 1], derive, writable)
            == IdsResolved(stored, launches[..k], derive, writable)
               + [IdResolved(IdAfterAll(stored, launches[..k], derive, writable), launches[k], derive)]
  {
    assert launches[..k + 1][..k] == launches[..k];
  }

  method StartOnce(home: Home, launch: Launch, derive: Derivation, stamp: string) returns (id: Option<string>)
    modifies home
    ensures id == IdResolved(old(StoredId(home.file)), launch, derive)
    ensures StoredId(home.file) == IdAfter(old(StoredId(home.file)), launch, derive, home.writable)
  {
    FileOnlyMattersThroughItsId(home.file, launch, derive);
    id := home.ResolveMachineId(launch.cfg, derive, launch.random, stamp);
  }

  /** The worker restarted over and over on one data directory. */
  method Restart(home: Home, launches: seq<Launch>, derive: Derivation, stamp: string) returns (ids: seq<Option<string>>)
    modifies home
    ensures StoredId(home.file) == IdAfterAll(old(StoredId(home.file)), launches, derive, home.writable)
    ensures ids == IdsResolved(old(StoredId(home.file)), launches, derive, home.writable)
  {
    ids := [];
    ghost var first := StoredId(home.file);
    for k := 0 to |launches|
      invariant StoredId(home.file) == IdAfterAll(first, launches[..k], derive, home.writable)
      invariant ids == IdsResolved(first, launches[..k], derive, home.writable)
    {
      IdAfterOneMore(first, launches, k, derive, home.writable);
      var id := StartOnce(home, launches[k], derive, stamp);
      ids := ids + [id];
    }
    assert launches[..|launches|] == launches;
  }

  /** The most recent valid override among the starts, if there is one. */
  function LatestOverride(launches: seq<Launch>): Option<string> {
    if launches == [] then None
    else
      var cfg := launches[|launches| - 1].cfg;
      if cfg.override != "" && IsUuid(cfg.override) then Some(cfg.override) else LatestOverride(launches[..|launches| - 1])
  }

  /**
    On a writable home that holds an id, only overrides matter: after any number of starts the id
    is the latest valid override, or still the one it was, whatever keys, worker ids and random
    draws came by.
  */
  lemma {:induction false} OnlyOverridesChangeTheId(id: string, launches: seq<Launch>, derive: Derivation)
    ensures IdAfterAll(Some(id), launches, derive, true)
            == if LatestOverride(launches).Some? then LatestOverride(launches) else Some(id)
  {
    if launches != [] {
      OnlyOverridesChangeTheId(id, launches[..|launches| - 1], derive);
    }
  }

  /** No start sets another id than this one by a valid override. */
  predicate NoOtherOverride(launches: seq<Launch>, id: string) {
    forall i :: 0 <= i < |launches| ==>
      launches[i].cfg.override == "" || !IsUuid(launches[i].cfg.override) || launches[i].cfg.override == id
  }

  lemma {:induction false} LatestIsTheSame(launches: seq<Launch>, id: string)
    requires NoOtherOverride(launches, id)
    ensures LatestOverride(launches) == None || LatestOverride(launches) == Some(id)
  {
    if launches != [] {
      LatestIsTheSame(launches[..|launches| - 1], id);
    }
  }

  /** A start on a writable home leaves the id it resolved, so every later one resolves it again until another override is set. */
  lemma MachineIdIsSticky(stored: Option<string>, first: Launch, between: seq<Launch>, next: Launch, derive: Derivation)
    requires stored.Some? ==> IsUuid(stored.value)
    requires IdResolved(stored, first, derive).Some?
    requires NoOtherOverride(between, IdResolved(stored, first, derive).value)
    requires next.cfg.override == "" || Some(next.cfg.override) == IdResolved(stored, first, derive)
    ensures IdResolved(IdAfterAll(IdAfter(stored, first, derive, true), between, derive, true), next, derive)
            == IdResolved(stored, first, derive)
  {
    LatestIsTheSame(between, IdResolved(stored, first, derive).value);
    OnlyOverridesChangeTheId(IdResolved(stored, first, derive).value, between, derive);
  }

  /** An unwritable home never changes. */
  lemma {:induction false} UnwritableKeepsNothing(stored: Option<string>, launches: seq<Launch>, derive: Derivation)
    ensures IdAfterAll(stored, launches, derive, false) == stored
  {
    if launches != [] {
      UnwritableKeepsNothing(stored, launches[..|launches| - 1], derive);
    }
  }

  /**
    Without a writable home, a stored id or an override, a start resolves the id derived from its
    key and worker id if it has both, so a fixed pair keeps one id for ever; a start that lacks
    either gets its own random draw, whatever starts came before it.
  */
  lemma UnwritableIdentity(first: Launch, between: seq<Launch>, second: Launch, derive: Derivation)
    requires first.cfg.override == "" && second.cfg.override == ""
    ensures var again := IdResolved(IdAfterAll(IdAfter(None, first, derive, false), between, derive, false), second, derive);
            && (second.cfg.apiKey != "" && second.cfg.workerId != "" ==> again == Some(derive(second.cfg.apiKey, second.cfg.workerId)))
            && (second.cfg.apiKey == "" || second.cfg.workerId == "" ==> again == Some(second.random))
            && (first.cfg == second.cfg && first.cfg.apiKey != "" && first.cfg.workerId != "" ==>
                  again == IdResolved(None, first, derive))
  {
    UnwritableKeepsNothing(None, between, derive);
  }
}
