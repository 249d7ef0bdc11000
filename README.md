# Instana Ruby sensor: the host-agent client

This project models `Instana::Agent`, the client through which the Ruby
sensor talks to the Instana host agent listening on `127.0.0.1:42699`, and
proves properties of the model in Dafny. With the HTTP exchanges replaced by
their outcome, the client is:

- a small state machine, `report_entity_data`: the agent keeps a payload
  (`@payload`) and the time of its last snapshot (`@last_snapshot`). A report
  made more than 600 seconds after the last snapshot first writes five
  snapshot fields (`rubyVersion`, `execArgs`, `sensorVersion`, `pid`,
  `versions`) into the payload and resets the clock; the payload is posted;
  if it carried `rubyVersion` and the answer was 200, `rubyVersion`,
  `execArgs`, `sensorVersion`, `pid` and `version` are deleted (`versions`
  stays), otherwise the snapshot fields ride along with the next report;
- the readiness probe `host_agent_ready?`, which classifies the outcome of a
  `GET /`;
- the announce payload of `announce_sensor` (the pid and the command line's
  arguments without the program) and the two plugin paths,
  `com.instana.plugin.ruby.discovery` and `com.instana.plugin.ruby.<pid>`.

Files:

- `words.dfy` (module `Words`): Ruby's `split(' ')`: the string is cut at
  runs of whitespace (space, tab, line feed, vertical tab, form feed,
  carriage return) and no field is empty. It is proved against an
  independent, character-by-character `Squeeze` (strip the separators at both
  ends, turn every inner run into one space). Joining the fields with single
  spaces gives `Squeeze` of the input. Splitting a single-space join gives
  the fields back. Together these fix the result of `Split` for every input.
- `decimal.dfy` (module `Decimal`): the decimal rendering of the pid in the
  report path, with its inverse.
- `protocol.dfy` (module `Protocol`): `Outcome`, which is either `Status(code)`
  or `Raised(ConnectionRefused | OtherError)`, where a raise is any rescued
  `StandardError`, the readiness classification,
  the paths, and the announce payload.
- `snapshot.dfy` (module `Snapshot`): the reporting state as a value, and
  `Prepare`, `Settle` and `Report` as functions of the state before a report.
  Prepare gives the state just before the POST, Settle gives the payload after
  the response, and Report does both. The lemmas about them state the
  behaviour of the state machine.
- `agent.dfy` (module `Instana`): class `Agent`. Its fields are the ones
  `initialize` sets. Method `ReportEntityData` updates `payload` and
  `lastSnapshot` in place, step by step as the source does. It is proved to
  produce exactly `Snapshot.Report` of the old state, and to return the
  path and the body it posted.

The foreign values `RUBY_VERSION`, `::Instana::VERSION` and `Process.pid`
are a `Runtime` parameter of each report. `Process.pid` is read on each call
in the source, so a forked process reports its new pid. The clock is an integer
parameter `now` in seconds.

Behaviour the model keeps as the code has it:

- The clock is reset before the request, whatever the outcome
  (lib/instana/agent.rb:79). A failed or raising report still leaves
  `last_snapshot = now`, with the snapshot fields kept in the payload.
- An acknowledgement deletes `version`, not `versions`
  (lib/instana/agent.rb:101 against :78). So `versions` stays in the payload
  once written and is posted in every later report
  (`VersionsOutlivesAcknowledgement`).
- The threshold is strict: 600 seconds exactly is still fresh
  (lib/instana/agent.rb:73), although the comment there says "every 5 minutes".
- The window is measured from the last snapshot, not from the last report.
  Take two reports at most 600 seconds apart, the first answered 200. The
  second is guaranteed to add nothing when the first one sent the snapshot
  (`QuietSecondReport`). Otherwise the second may be stale and send the
  snapshot again (`SecondReportCanResendSnapshot`).

## Model

| member | source | states |
|---|---|---|
| `Words.Split` | lib/instana/agent.rb:35 | every field of `cmdline.split(' ')` is non-empty and free of whitespace; `JoinSplit` and `SplitDetermined` fix where the fields break |
| `Words.Field` | lib/instana/agent.rb:35 | a field is the longest whitespace-free prefix: the next character, if any, is whitespace |
| `Words.SplitKeepsVisible` | lib/instana/agent.rb:35 | the fields, concatenated, are the input with every whitespace character removed: splitting loses only separators |
| `Words.SplitJoin` | lib/instana/agent.rb:35 | splitting fields joined by single spaces gives back exactly those fields |
| `Words.JoinSplit` | lib/instana/agent.rb:35 | the fields joined by single spaces are the input with leading and trailing whitespace dropped and every inner whitespace run turned into one space: fields break exactly at the whitespace runs |
| `Words.SplitDetermined` | lib/instana/agent.rb:35 | any list of fields that joins to the squeezed input is `Split` of it, so `split(' ')` is fixed for every input, tabs and repeated separators included |
| `Decimal.Decimal` | lib/instana/agent.rb:68 | the interpolated pid is a non-empty string of digits with no leading zero |
| `Decimal.ValueOfDecimal` | lib/instana/agent.rb:68 | reading the interpolated pid back as a decimal number gives the pid |
| `Decimal.DecimalInjective` | lib/instana/agent.rb:68 | distinct pids have distinct renderings |
| `Protocol.HostAgentReady` | lib/instana/agent.rb:114-141 | `host_agent_ready?` is true exactly when the outcome is status 200; any other status, a refused connection or any other `StandardError` gives false |
| `Protocol.ReportPath` | lib/instana/agent.rb:68 | the report path is the plugin prefix `com.instana.plugin.ruby.` followed by a non-empty string of digits |
| `Protocol.ReportPathNamesPid` | lib/instana/agent.rb:68 | the report path is `com.instana.plugin.ruby.` followed by digits that denote the pid |
| `Protocol.ReportPathInjective` | lib/instana/agent.rb:68 | two different pids never share a report path |
| `Protocol.ReportPathIsNotDiscovery` | lib/instana/agent.rb:39 | the announce path `DiscoveryPath` is the plugin prefix followed by `discovery`, and no report path equals it |
| `Protocol.AnnounceSensor` | lib/instana/agent.rb:30-37 | the announce payload carries the given pid and, as `args`, the split command line without its first word |
| `Protocol.Arguments` | lib/instana/agent.rb:35-36 | the announced arguments are whitespace-free fields, one fewer than the words of the command line, or none for a command line without words |
| `Protocol.ArgumentsFollowProgram` | lib/instana/agent.rb:35-37 | the program followed by `args` is the split command line; `args` is empty when the command line has at most one word |
| `Protocol.ArgumentsOfCommandLine` | lib/instana/agent.rb:35-37 | a command line written as a program and its arguments separated by spaces announces exactly those arguments |
| `Snapshot.Initial` | lib/instana/agent.rb:18-21 | a new agent's payload is empty and its clock is already stale at the time of creation |
| `Snapshot.Prepare` | lib/instana/agent.rb:73-80 | the state posted: afterwards the snapshot is not stale at `now`, the clock never moves back, no key is lost, and only snapshot keys change value |
| `Snapshot.Settle` | lib/instana/agent.rb:93-102 | the payload after the response: it only loses keys, keeps the values of the rest, keeps `versions`, and changes only on a 200 |
| `Snapshot.Report` | lib/instana/agent.rb:67-107 | a whole report: afterwards the snapshot is not stale at `now`, the clock never moves back, and every non-snapshot key left was there before with the same value |
| `Snapshot.AssignSnapshotFields` | lib/instana/agent.rb:74-78 | the five assignments add exactly the snapshot fields, overriding earlier values of those keys |
| `Snapshot.DeleteSnapshotFields` | lib/instana/agent.rb:97-101 | the five deletions remove exactly `rubyVersion`, `execArgs`, `sensorVersion`, `pid` and `version` |
| `Snapshot.FirstReportSendsSnapshot` | lib/instana/agent.rb:18-21 | a fresh agent's first report, at or after its creation, is stale and posts exactly the snapshot fields |
| `Snapshot.StaleReportAddsSnapshot` | lib/instana/agent.rb:73-80 | when more than 600 s have passed, the five snapshot fields are set to the runtime's values, the clock becomes `now`, and every other key keeps its value |
| `Snapshot.FreshReportChangesNothing` | lib/instana/agent.rb:73-80 | when at most 600 s have passed, 600 included, payload and clock are untouched before the request |
| `Snapshot.ClockIgnoresOutcome` | lib/instana/agent.rb:79 | the clock after a report is `now` if the report was stale and unchanged otherwise, whatever the response or error |
| `Snapshot.AcknowledgementDropsSnapshot` | lib/instana/agent.rb:96-102 | a 200 for a payload with `rubyVersion` removes `rubyVersion`, `execArgs`, `sensorVersion`, `pid` and `version`, and keeps every other key and value, `versions` included |
| `Snapshot.UnacknowledgedPayloadRides` | lib/instana/agent.rb:93-96 | without a 200, or without `rubyVersion` in the payload, the payload is left as it was posted |
| `Snapshot.FailedReportKeepsSentState` | lib/instana/agent.rb:104-106 | after a non-200 status or a raised error, the state is the one just before the request: reset clock and snapshot fields included |
| `Snapshot.AcknowledgedIffReady` | lib/instana/agent.rb:96 | for a payload carrying a snapshot, the report drops `rubyVersion` exactly when `host_agent_ready?` would call the same outcome ready |
| `Snapshot.SuccessLeavesNoRubyVersion` | lib/instana/agent.rb:96-97 | after a report answered 200 the payload has no `rubyVersion` key |
| `Snapshot.VersionsOutlivesAcknowledgement` | lib/instana/agent.rb:78-101 | after a stale report, `versions` holds `{ruby: RUBY_VERSION}` whatever the outcome, since the delete list names `version` |
| `Snapshot.QuietSecondReport` | lib/instana/agent.rb:73-102 | after a stale report answered 200, a report at most 600 s later adds nothing and changes nothing, and no `rubyVersion` is left |
| `Snapshot.SecondReportCanResendSnapshot` | lib/instana/agent.rb:73-79 | for every state whose first report is inside the window, carries no `rubyVersion` and is answered 200: that report changes nothing, and a later stale report, however soon after, sends the snapshot again and keeps it unless answered 200 |
| `Instana.Agent.constructor` | lib/instana/agent.rb:12-22 | a new agent has timeout 5000, host `127.0.0.1`, port 42699, server header `Instana Agent`, no uuid, an empty payload and a clock 601 s in the past |
| `Instana.Agent.ReportEntityData` | lib/instana/agent.rb:67-107 | the in-place update of payload and clock is exactly `Snapshot.Report` of the old state, the returned path is `ReportPath(pid)`, the returned body is the payload as posted, and the other fields do not change |

## Left out

- The HTTP exchanges (URI parsing, `Net::HTTP` requests, headers, JSON bodies, and the timeout that `@request_timeout` names but nothing uses). Each exchange is an `Outcome` input. The model does not build or check the `http://host:port/path` URLs.
- Protocol.AnnounceSensor: Ruby strings are bytes plus an encoding, but the model's command line is a sequence of Unicode characters. A command line with invalid bytes makes the source's `split(' ')` raise `ArgumentError`, which `announce_sensor` rescues (lib/instana/agent.rb:54), and no announce is sent. The model does not capture that case: `AnnounceSensor` always returns a payload.
- Exceptions outside `StandardError`: the bare `rescue => e` clauses (lib/instana/agent.rb:54, :104, :137) catch only `StandardError`. `Interrupt`, `SignalException`, `SystemExit`, `NoMemoryError` and `ScriptError` still propagate out of all three methods, and `Outcome` does not model them. In `report_entity_data`, such an exception would leave the prepared state, the same as `Raised`, and then escape to the caller.
- The conversion of `response.code` from a string to an integer through `to_i`. `Outcome.Status` carries the integer already.
- `ProcTable.ps`, `Process.pid`, `RUBY_VERSION`, `::Instana::VERSION`: these are foreign calls. They become the `pid`, `cmdline` and `Runtime` parameters.
- Logger calls: their messages have no effect on state.
- `announce_sensor` result: the response of the PUT is only logged and any error is rescued, so nothing the rest of the agent sees depends on it. The model stops at the payload.
- `Time.now`: the source uses floating-point time and calls it twice in a stale report (lines 73 and 79). The model uses one integer `now` per report, so the two readings are the same instant.
- Ruby hash order: Ruby hashes keep insertion order, which affects the order of fields in the JSON body. The model uses maps, which have no order.
- Writers outside the class: `payload` and `last_snapshot` are public accessors, so other code can change them between reports. The model's lemmas take any state, and the two-report lemmas assume nothing happens in between.
- lib/instana/base.rb (`setup`, `pid_change?`), lib/oj_check.rb and benchmarks/time_processing.rb: these are global wiring, a JSON-library fallback and a clock benchmark, with no logic of this client.
- The Tracer and Processor exercised by test/tracing/custom_test.rb: their source is not part of this model.
