/** The host agent's side of the conversation: what an HTTP exchange can
    end in, how `host_agent_ready?` classifies it, the plugin paths, and
    the announce payload that `announce_sensor` builds. */
module Protocol {
  import Words
  import Decimal

  /** The two rescue clauses of `host_agent_ready?`: a refused connection,
      and every other `StandardError` raised by the request. */
  datatype Failure = ConnectionRefused | OtherError

  /** How an HTTP exchange with the host agent ended: a response whose
      status code (`response.code.to_i`) is `code`, or a rescued
      `StandardError`. */
  datatype Outcome = Status(code: int) | Raised(failure: Failure)

  /** `host_agent_ready?`: the agent is ready when the exchange answered 200;
      any other status and any rescued `StandardError` mean not ready. */
  function HostAgentReady(outcome: Outcome): (ready: bool)
    ensures ready <==> outcome == Status(200)
  {
    match outcome
    case Status(code) => if code != 200 then false else true
    case Raised(ConnectionRefused) => false
    case Raised(OtherError) => false
  }

  /** The common prefix of the Ruby plugin's paths on the host agent. */
  const PluginPrefix: string := "com.instana.plugin.ruby."

  /** The path `announce_sensor` sends its PUT to. */
  const DiscoveryPath: string := "com.instana.plugin.ruby.discovery"

  /** The path `report_entity_data` posts to for process `pid`. */
  function ReportPath(pid: nat): (path: string)
    ensures |path| > |PluginPrefix| && path[..|PluginPrefix|] == PluginPrefix
    ensures Decimal.AllDigits(path[|PluginPrefix|..])
  {
    "com.instana.plugin.ruby." + Decimal.Decimal(pid)
  }

  /** A report path is the plugin prefix followed by the decimal digits of
      the pid, and nothing else. */
  lemma ReportPathNamesPid(pid: nat)
    ensures var path := ReportPath(pid);
      |path| > |PluginPrefix| && path[..|PluginPrefix|] == PluginPrefix &&
      Decimal.AllDigits(path[|PluginPrefix|..]) && Decimal.Value(path[|PluginPrefix|..]) == pid
  {
    var path := ReportPath(pid);
    assert path[|PluginPrefix|..] == Decimal.Decimal(pid);
    Decimal.ValueOfDecimal(pid);
  }

  /** Two processes never report to the same path. */
  lemma ReportPathInjective(p: nat, q: nat)
    requires ReportPath(p) == ReportPath(q)
    ensures p == q
  {
    ReportPathNamesPid(p);
    ReportPathNamesPid(q);
  }

  /** The discovery path is the plugin prefix followed by `discovery`, and
      no report path is the discovery path. */
  lemma ReportPathIsNotDiscovery(pid: nat)
    ensures DiscoveryPath == PluginPrefix + "discovery"
    ensures ReportPath(pid) != DiscoveryPath
  {
    var path := ReportPath(pid);
    ReportPathNamesPid(pid);
    assert path[|PluginPrefix|] == path[|PluginPrefix|..][0];
    assert DiscoveryPath[|PluginPrefix|] == 'd';
  }

  /** The body of the announce request: the process id and its arguments. */
  datatype Announcement = Announcement(pid: nat, args: seq<string>)

  /** The arguments announced for a command line: its whitespace-separated
      words without the first one, the program. */
  function Arguments(cmdline: string): (args: seq<string>)
    ensures Words.AllFields(args)
    ensures |args| == if |Words.Split(cmdline)| == 0 then 0 else |Words.Split(cmdline)| - 1
  {
    var words := Words.Split(cmdline);
    if |words| == 0 then [] else words[1..]
  }

  /** `announce_sensor`'s payload: `args` is the split command line after
      `shift` has removed the program; shifting an empty list leaves it empty. */
  method AnnounceSensor(pid: nat, cmdline: string) returns (announcement: Announcement)
    ensures announcement.pid == pid
    ensures announcement.args == Arguments(cmdline)
  {
    var arguments := Words.Split(cmdline);
    if |arguments| > 0 {
      arguments := arguments[1..];
    }
    announcement := Announcement(pid, arguments);
  }

  /** The program followed by the arguments is the split command line. */
  lemma ArgumentsFollowProgram(cmdline: string)
    ensures var words := Words.Split(cmdline);
      (|words| <= 1 ==> Arguments(cmdline) == []) &&
      (|words| >= 1 ==> [words[0]] + Arguments(cmdline) == words)
  {
  }

  /** A command line made of a program and its arguments, separated by
      single spaces, announces exactly those arguments. */
  lemma ArgumentsOfCommandLine(program: string, args: seq<string>)
    requires Words.IsField(program) && Words.AllFields(args)
    ensures Arguments(Words.Join([program] + args)) == args
  {
    Words.SplitJoin([program] + args);
    assert ([program] + args)[1..] == args;
  }
}
