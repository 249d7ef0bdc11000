/** What `report_entity_data` does to the agent's state, as functions of
    the state before the report: the snapshot fields it adds when the last
    snapshot is stale, the clock it resets, and the fields it drops once the
    host agent has acknowledged them. */
module Snapshot {
  import opened Protocol

  /** Payload keys are Ruby symbols, written here by their names. */
  type Key = string

  const RubyVersionKey: Key := "rubyVersion"
  const ExecArgsKey: Key := "execArgs"
  const SensorVersionKey: Key := "sensorVersion"
  const PidKey: Key := "pid"
  const VersionsKey: Key := "versions"
  /** Deleted after an acknowledgement, though no report ever sets it. */
  const VersionKey: Key := "version"

  /** The keys a stale report writes. */
  const SnapshotKeys: set<Key> := {RubyVersionKey, ExecArgsKey, SensorVersionKey, PidKey, VersionsKey}

  /** The keys an acknowledged report deletes: `version`, not `versions`. */
  const DeletedKeys: set<Key> := {RubyVersionKey, ExecArgsKey, SensorVersionKey, PidKey, VersionKey}

  /** Seconds that must be exceeded before a snapshot is sent again. */
  const StalenessWindow: int := 600

  /** The JSON-like values a payload holds. */
  datatype Value = Str(text: string) | Int(number: int) | List(items: seq<Value>) | Hash(fields: map<Key, Value>)

  /** What the process reveals about itself: `RUBY_VERSION`,
      `::Instana::VERSION` and `Process.pid`. */
  datatype Runtime = Runtime(rubyVersion: string, sensorVersion: string, pid: nat)

  /** The agent's reporting state: `@payload` and `@last_snapshot` (seconds). */
  datatype AgentState = AgentState(payload: map<Key, Value>, lastSnapshot: int)

  /** The state of an agent created at time `now`: an empty payload and a
      snapshot clock set 601 seconds back. */
  function Initial(now: int): (s: AgentState)
    ensures s.payload == map[]
    ensures Stale(s.lastSnapshot, now)
  {
    AgentState(map[], now - 601)
  }

  /** More than the window has passed since the last snapshot. */
  predicate Stale(lastSnapshot: int, now: int) {
    now - lastSnapshot > StalenessWindow
  }

  /** The snapshot fields a stale report writes. */
  function SnapshotFields(env: Runtime): map<Key, Value> {
    map[RubyVersionKey := Str(env.rubyVersion),
        ExecArgsKey := List([Str("blah")]),
        SensorVersionKey := Str(env.sensorVersion),
        PidKey := Int(env.pid),
        VersionsKey := Hash(map["ruby" := Str(env.rubyVersion)])]
  }

  /** The state just before the request is sent: its payload is the body posted. */
  function Prepare(s: AgentState, now: int, env: Runtime): (sent: AgentState)
    ensures !Stale(sent.lastSnapshot, now)
    ensures sent.lastSnapshot >= s.lastSnapshot
    ensures s.payload.Keys <= sent.payload.Keys
    ensures forall k :: k in s.payload && k !in SnapshotKeys ==> sent.payload[k] == s.payload[k]
  {
    if Stale(s.lastSnapshot, now) then AgentState(s.payload + SnapshotFields(env), now) else s
  }

  /** Writing the snapshot fields one after another, as the report does,
      adds exactly `SnapshotFields(env)`. */
  lemma AssignSnapshotFields(payload: map<Key, Value>, env: Runtime)
    ensures payload[RubyVersionKey := Str(env.rubyVersion)]
                   [ExecArgsKey := List([Str("blah")])]
                   [SensorVersionKey := Str(env.sensorVersion)]
                   [PidKey := Int(env.pid)]
                   [VersionsKey := Hash(map["ruby" := Str(env.rubyVersion)])]
            == payload + SnapshotFields(env)
  {
  }

  /** Deleting the keys one after another removes exactly `DeletedKeys`. */
  lemma DeleteSnapshotFields(payload: map<Key, Value>)
    ensures payload - {RubyVersionKey} - {ExecArgsKey} - {SensorVersionKey} - {PidKey} - {VersionKey}
            == payload - DeletedKeys
  {
  }

  /** The payload once the exchange has ended: snapshot fields are dropped
      only when the payload carried them and the response was 200. */
  function Settle(payload: map<Key, Value>, outcome: Outcome): (after: map<Key, Value>)
    ensures after.Keys <= payload.Keys
    ensures forall k :: k in after ==> after[k] == payload[k]
    ensures after != payload ==> outcome == Status(200)
    ensures VersionsKey in payload ==> VersionsKey in after
  {
    if RubyVersionKey in payload && outcome.Status? && outcome.code == 200 then payload - DeletedKeys
    else payload
  }

  /** One whole `report_entity_data`. */
  function Report(s: AgentState, now: int, env: Runtime, outcome: Outcome): (after: AgentState)
    ensures !Stale(after.lastSnapshot, now)
    ensures after.lastSnapshot >= s.lastSnapshot
    ensures forall k :: k in after.payload && k !in SnapshotKeys ==> k in s.payload && after.payload[k] == s.payload[k]
  {
    var sent := Prepare(s, now, env);
    AgentState(Settle(sent.payload, outcome), sent.lastSnapshot)
  }

  /** An agent's first report, at or after its creation, carries a snapshot
      and nothing else. */
  lemma FirstReportSendsSnapshot(created: int, now: int, env: Runtime)
    requires created <= now
    ensures Stale(Initial(created).lastSnapshot, now)
    ensures Prepare(Initial(created), now, env) == AgentState(SnapshotFields(env), now)
  {
  }

  /** A stale report writes the five snapshot fields, resets the clock to
      `now`, and leaves every other key as it was. */
  lemma StaleReportAddsSnapshot(s: AgentState, now: int, env: Runtime)
    requires Stale(s.lastSnapshot, now)
    ensures var sent := Prepare(s, now, env);
      && sent.lastSnapshot == now
      && sent.payload.Keys == s.payload.Keys + SnapshotKeys
      && sent.payload[RubyVersionKey] == Str(env.rubyVersion)
      && sent.payload[ExecArgsKey] == List([Str("blah")])
      && sent.payload[SensorVersionKey] == Str(env.sensorVersion)
      && sent.payload[PidKey] == Int(env.pid)
      && sent.payload[VersionsKey] == Hash(map["ruby" := Str(env.rubyVersion)])
      && forall k :: k in s.payload && k !in SnapshotKeys ==> sent.payload[k] == s.payload[k]
  {
  }

  /** A report within the window, exactly 600 seconds included, touches
      neither the payload nor the clock before the request. */
  lemma FreshReportChangesNothing(s: AgentState, now: int, env: Runtime)
    requires now - s.lastSnapshot <= 600
    ensures Prepare(s, now, env) == s
  {
  }

  /** The clock is reset before the request: where it ends up does not
      depend on how the exchange ends. */
  lemma ClockIgnoresOutcome(s: AgentState, now: int, env: Runtime, o1: Outcome, o2: Outcome)
    ensures Report(s, now, env, o1).lastSnapshot == Report(s, now, env, o2).lastSnapshot
    ensures Report(s, now, env, o1).lastSnapshot == if now - s.lastSnapshot > 600 then now else s.lastSnapshot
  {
  }

  /** A 200 for a payload carrying snapshot data deletes `rubyVersion`,
      `execArgs`, `sensorVersion`, `pid` and `version`, and keeps every other
      key, `versions` among them. */
  lemma AcknowledgementDropsSnapshot(payload: map<Key, Value>)
    requires RubyVersionKey in payload
    ensures var after := Settle(payload, Status(200));
      && after.Keys == payload.Keys - DeletedKeys
      && RubyVersionKey !in after && ExecArgsKey !in after && SensorVersionKey !in after
      && PidKey !in after && VersionKey !in after
      && (VersionsKey in payload ==> VersionsKey in after && after[VersionsKey] == payload[VersionsKey])
      && forall k :: k in after ==> after[k] == payload[k]
  {
  }

  /** Without a 200, or without snapshot data, the payload rides unchanged. */
  lemma UnacknowledgedPayloadRides(payload: map<Key, Value>, outcome: Outcome)
    requires outcome != Status(200) || RubyVersionKey !in payload
    ensures Settle(payload, outcome) == payload
  {
  }

  /** A failed or raising report leaves the payload it posted, snapshot
      fields included, and the reset clock. */
  lemma FailedReportKeepsSentState(s: AgentState, now: int, env: Runtime, outcome: Outcome)
    requires outcome != Status(200)
    ensures Report(s, now, env, outcome) == Prepare(s, now, env)
  {
  }

  /** The two classifications of a response agree: a payload carrying
      snapshot data loses it exactly when the host agent counts as ready. */
  lemma AcknowledgedIffReady(payload: map<Key, Value>, outcome: Outcome)
    requires RubyVersionKey in payload
    ensures RubyVersionKey !in Settle(payload, outcome) <==> HostAgentReady(outcome)
  {
  }

  /** After a successful report no `rubyVersion` key is left. */
  lemma SuccessLeavesNoRubyVersion(s: AgentState, now: int, env: Runtime)
    ensures RubyVersionKey !in Report(s, now, env, Status(200)).payload
  {
  }

  /** `versions` is written but never deleted: after a stale report it is
      there whatever the outcome. */
  lemma VersionsOutlivesAcknowledgement(s: AgentState, now: int, env: Runtime, outcome: Outcome)
    requires Stale(s.lastSnapshot, now)
    ensures var after := Report(s, now, env, outcome).payload;
      VersionsKey in after && after[VersionsKey] == Hash(map["ruby" := Str(env.rubyVersion)])
  {
    StaleReportAddsSnapshot(s, now, env);
  }

  /** A successful report that sent a snapshot, followed within the window by
      another report: the second adds nothing, changes nothing, and leaves
      no `rubyVersion` key, whatever its own outcome. */
  lemma QuietSecondReport(s: AgentState, now1: int, now2: int, env1: Runtime, env2: Runtime, second: Outcome)
    requires Stale(s.lastSnapshot, now1)
    requires now2 - now1 <= 600
    ensures var s1 := Report(s, now1, env1, Status(200));
      && Prepare(s1, now2, env2) == s1
      && Report(s1, now2, env2, second) == s1
      && RubyVersionKey !in Report(s1, now2, env2, second).payload
  {
    var s1 := Report(s, now1, env1, Status(200));
    assert s1.lastSnapshot == now1;
    SuccessLeavesNoRubyVersion(s, now1, env1);
    FreshReportChangesNothing(s1, now2, env2);
    UnacknowledgedPayloadRides(s1.payload, second);
  }

  /** The window is measured from the last snapshot, not from the last
      report: a first report inside the window, without snapshot data and
      answered 200, changes nothing, so a second report that is stale
      sends the snapshot again, however soon after the first it comes
      (with a snapshot at 0 and reports at 500 and 1000, say). Unless that
      second report is answered 200, `rubyVersion` is left in the payload. */
  lemma SecondReportCanResendSnapshot(s: AgentState, now1: int, now2: int, env1: Runtime, env2: Runtime, second: Outcome)
    requires !Stale(s.lastSnapshot, now1) && RubyVersionKey !in s.payload
    requires Stale(s.lastSnapshot, now2)
    requires second != Status(200)
    ensures var s1 := Report(s, now1, env1, Status(200));
      && s1 == s
      && RubyVersionKey in Prepare(s1, now2, env2).payload
      && RubyVersionKey in Report(s1, now2, env2, second).payload
  {
  }
}
