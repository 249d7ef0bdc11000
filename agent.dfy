/** `Instana::Agent`: the client of the local host agent, with the payload
    and the snapshot clock it keeps between reports. */
module Instana {
  import opened Protocol
  import opened Snapshot

  datatype Option<T> = None | Some(value: T)

  class Agent {
    var requestTimeout: nat
    var host: string
    var port: nat
    var serverHeader: string
    var agentUuid: Option<string>
    /** `@payload`: what the next report posts. */
    var payload: map<Key, Value>
    /** `@last_snapshot`: when snapshot data was last added, in seconds. */
    var lastSnapshot: int

    /** The reporting state the snapshot functions speak about. */
    function State(): AgentState
      reads this
    {
      AgentState(payload, lastSnapshot)
    }

    /** A new agent, created at time `now`. */
    constructor (now: int)
      ensures requestTimeout == 5000 && host == "127.0.0.1" && port == 42699
      ensures serverHeader == "Instana Agent" && agentUuid == None
      ensures State() == Initial(now)
    {
      requestTimeout := 5000;
      host := "127.0.0.1";
      port := 42699;
      serverHeader := "Instana Agent";
      agentUuid := None;
      payload := map[];
      lastSnapshot := now - 601;
    }

    /** `report_entity_data` at time `now`, for a process described by `env`,
        whose POST ends in `outcome`. Returns the path posted to and the
        payload as it was posted. */
    method ReportEntityData(now: int, env: Runtime, outcome: Outcome) returns (path: string, body: map<Key, Value>)
      modifies this
      ensures path == ReportPath(env.pid)
      ensures body == Prepare(old(State()), now, env).payload
      ensures State() == Report(old(State()), now, env, outcome)
      ensures requestTimeout == old(requestTimeout) && host == old(host) && port == old(port)
      ensures serverHeader == old(serverHeader) && agentUuid == old(agentUuid)
    {
      path := ReportPath(env.pid);

      if now - lastSnapshot > 600 {
        AssignSnapshotFields(payload, env);
        payload := payload[RubyVersionKey := Str(env.rubyVersion)];
        payload := payload[ExecArgsKey := List([Str("blah")])];
        payload := payload[SensorVersionKey := Str(env.sensorVersion)];
        payload := payload[PidKey := Int(env.pid)];
        payload := payload[VersionsKey := Hash(map["ruby" := Str(env.rubyVersion)])];
        lastSnapshot := now;
      }

      body := payload;

      match outcome
      case Raised(_) =>
        // Rescued: the payload rides for another run.
      case Status(code) =>
        if RubyVersionKey in payload && code == 200 {
          DeleteSnapshotFields(payload);
          payload := payload - {RubyVersionKey};
          payload := payload - {ExecArgsKey};
          payload := payload - {SensorVersionKey};
          payload := payload - {PidKey};
          payload := payload - {VersionKey};
        }
    }
  }
}
