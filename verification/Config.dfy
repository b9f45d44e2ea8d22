/** internal/config/config.go: the line-oriented config parser. */
module Config {
  import opened Wrappers
  import opened GoStrings

  /** The Config fields that a file can set. */
  datatype Field =
    | Port | DevMode | DatabasePath | AgentSocketPath | AgentMutationEnabled | AgentServiceAllowlist
    | AgentCommandTimeout | AgentCommandOutputLimit | StaticAssetDir | DevProxyURL | SessionTTL
    | SessionIdleTTL | MagicTokenTTL | ServiceAllowlist | ProcessVisibilityMode | IncludeCommandLine
    | MaxProcesses

  datatype Value = Number(n: int) | Flag(on: bool) | Text(text: string) | Names(names: seq<string>)

  type Config = map<Field, Value>

  /** Go's scalar parsers, of which nothing is assumed. */
  datatype Parsers = Parsers(
    atoi: string -> Option<int>,
    parseBool: string -> Option<bool>,
    parseInt: string -> Option<int>,
    parseDuration: string -> Option<int>)

  datatype Problem =
    | UnexpectedItem | EmptyItem | ExpectedKeyValue | NameRequired | InvalidValue(field: Field) | UnknownField(key: string)

  datatype Failure = AtLine(line: nat, problem: Problem) | DuplicateField(key: string)

  // ---------------------------------------------------------------- one line

  predicate Ignored(line: string)
  {
    line == "" || line[0] == '#'
  }

  predicate ListItem(line: string)
  {
    "- " <= line
  }

  predicate ListKey(key: string)
  {
    key == "service_allowlist" || key == "agent_service_allowlist"
  }

  function FieldOf(key: string): Option<Field>
  {
    if key == "port" then Some(Port)
    else if key == "dev_mode" then Some(DevMode)
    else if key == "database_path" then Some(DatabasePath)
    else if key == "agent_socket_path" then Some(AgentSocketPath)
    else if key == "agent_mutation_enabled" then Some(AgentMutationEnabled)
    else if key == "agent_service_allowlist" then Some(AgentServiceAllowlist)
    else if key == "agent_command_timeout" then Some(AgentCommandTimeout)
    else if key == "agent_command_output_limit" then Some(AgentCommandOutputLimit)
    else SettingOf(key)
  }

  function SettingOf(key: string): Option<Field>
  {
    if key == "static_asset_dir" then Some(StaticAssetDir)
    else if key == "dev_proxy_url" then Some(DevProxyURL)
    else if key == "session_ttl" then Some(SessionTTL)
    else if key == "session_idle_timeout" || key == "session_idle_ttl" then Some(SessionIdleTTL)
    else if key == "magic_token_ttl" then Some(MagicTokenTTL)
    else if key == "service_allowlist" then Some(ServiceAllowlist)
    else if key == "process_visibility_mode" then Some(ProcessVisibilityMode)
    else if key == "include_command_line" then Some(IncludeCommandLine)
    else if key == "max_processes" then Some(MaxProcesses)
    else None
  }

  predicate IdleKey(key: string)
  {
    key == "session_idle_timeout" || key == "session_idle_ttl"
  }

  function KeyOf(field: Field): string
  {
    match field
    case Port => "port"
    case DevMode => "dev_mode"
    case DatabasePath => "database_path"
    case AgentSocketPath => "agent_socket_path"
    case AgentMutationEnabled => "agent_mutation_enabled"
    case AgentServiceAllowlist => "agent_service_allowlist"
    case AgentCommandTimeout => "agent_command_timeout"
    case AgentCommandOutputLimit => "agent_command_output_limit"
    case StaticAssetDir => "static_asset_dir"
    case DevProxyURL => "dev_proxy_url"
    case SessionTTL => "session_ttl"
    case SessionIdleTTL => "session_idle_timeout"
    case MagicTokenTTL => "magic_token_ttl"
    case ServiceAllowlist => "service_allowlist"
    case ProcessVisibilityMode => "process_visibility_mode"
    case IncludeCommandLine => "include_command_line"
    case MaxProcesses => "max_processes"
  }

  lemma FieldKnowsKey(key: string)
    ensures FieldOf(key).Some? ==> key == KeyOf(FieldOf(key).value) || IdleKey(key)
  {
    SettingKnowsKey(key);
    hide SettingOf;
    hide IdleKey;
  }

  lemma SettingKnowsKey(key: string)
    ensures SettingOf(key).Some? ==> key == KeyOf(SettingOf(key).value) || IdleKey(key)
  {
  }

  lemma IdleField(key: string)
    ensures IdleKey(key) <==> FieldOf(key) == Some(SessionIdleTTL)
  {
  }

  /** Apart from the two names of the idle timeout, a field has one key. */
  lemma OneKeyPerField(a: string, b: string)
    requires FieldOf(a).Some? && FieldOf(a) == FieldOf(b)
    ensures a == b || (IdleKey(a) && IdleKey(b))
  {
    FieldKnowsKey(a);
    FieldKnowsKey(b);
    IdleField(a);
    IdleField(b);
    hide FieldOf;
    hide KeyOf;
  }

  /** An item of a list without its surrounding spaces and then its quotes. */
  function Unquote(text: string): string
  {
    Trim(Quote, Trim(Space, text))
  }

  function NonEmptyItems(parts: seq<string>): seq<string>
  {
    if parts == [] then []
    else
      var last := Unquote(parts[|parts| - 1]);
      NonEmptyItems(parts[..|parts| - 1]) + if last == "" then [] else [last]
  }

  function Services(value: string): seq<string>
  {
    var inner := Trim(Bracket, value);
    if Trim(Space, inner) == "" then [] else NonEmptyItems(SplitCommas(inner))
  }

  method ParseServiceAllowlist(value: string) returns (services: seq<string>)
    ensures services == Services(value)
  {
    var inner := Trim(Bracket, value);
    if Trim(Space, inner) == "" {
      return [];
    }
    var parts := SplitCommas(inner);
    services := [];
    for i := 0 to |parts|
      invariant services == NonEmptyItems(parts[..i])
    {
      var service := Unquote(parts[i]);
      if service != "" {
        services := services + [service];
      }
      assert parts[..i + 1][..i] == parts[..i];
    }
    assert parts[..|parts|] == parts;
  }

  function SplitConfigLine(line: string): Result<(string, string), Problem>
  {
    match CutColon(line)
    case None => Err(ExpectedKeyValue)
    case Some((left, right)) =>
      var key, value := Trim(Space, left), Unquote(right);
      if key == "" then Err(NameRequired) else Ok((key, value))
  }

  function ReadValue(ps: Parsers, field: Field, value: string): Option<Value>
  {
    match field
    case Port => AsNumber(ps.atoi(value))
    case MaxProcesses => AsNumber(ps.atoi(value))
    case DevMode => AsFlag(ps.parseBool(value))
    case AgentMutationEnabled => AsFlag(ps.parseBool(value))
    case IncludeCommandLine => AsFlag(ps.parseBool(value))
    case AgentCommandOutputLimit => AsNumber(ps.parseInt(value))
    case AgentCommandTimeout => AsNumber(ps.parseDuration(value))
    case SessionTTL => AsNumber(ps.parseDuration(value))
    case SessionIdleTTL => AsNumber(ps.parseDuration(value))
    case MagicTokenTTL => AsNumber(ps.parseDuration(value))
    case AgentServiceAllowlist => Some(Names(Services(value)))
    case ServiceAllowlist => Some(Names(Services(value)))
    case DatabasePath => Some(Text(value))
    case AgentSocketPath => Some(Text(value))
    case StaticAssetDir => Some(Text(value))
    case DevProxyURL => Some(Text(value))
    case ProcessVisibilityMode => Some(Text(value))
  }

  function AsNumber(n: Option<int>): Option<Value>
  {
    if n.Some? then Some(Number(n.value)) else None
  }

  function AsFlag(b: Option<bool>): Option<Value>
  {
    if b.Some? then Some(Flag(b.value)) else None
  }

  function ApplyConfigField(ps: Parsers, cfg: Config, key: string, value: string): Result<Config, Problem>
  {
    match FieldOf(key)
    case None => Err(UnknownField(key))
    case Some(field) =>
      match ReadValue(ps, field, value)
      case None => Err(InvalidValue(field))
      case Some(v) => Ok(cfg[field := v])
  }

  function NamesIn(cfg: Config, field: Field): seq<string>
  {
    if field in cfg && cfg[field].Names? then cfg[field].names else []
  }

  function ItemValue(line: string): string
  {
    Unquote(if ListItem(line) then line[2..] else line)
  }

  function AppendConfigListItem(cfg: Config, key: string, line: string): Result<Config, Problem>
  {
    var value := ItemValue(line);
    if value == "" then Err(EmptyItem)
    else
      match FieldOf(key)
      case Some(ServiceAllowlist) => Ok(cfg[ServiceAllowlist := Names(NamesIn(cfg, ServiceAllowlist) + [value])])
      case Some(AgentServiceAllowlist) => Ok(cfg[AgentServiceAllowlist := Names(NamesIn(cfg, AgentServiceAllowlist) + [value])])
      case _ => Err(UnknownField(key))
  }

  // ---------------------------------------------------------------- the loop

  /** The parser between two lines. */
  datatype State = State(cfg: Config, seen: set<string>, pending: string)

  function ReadLine(ps: Parsers, st: State, raw: string, number: nat): Result<State, Failure>
  {
    var line := Trim(Space, raw);
    if Ignored(line) then Ok(st)
    else if ListItem(line) then
      if st.pending == "" then Err(AtLine(number, UnexpectedItem))
      else
        match AppendConfigListItem(st.cfg, st.pending, line)
        case Err(problem) => Err(AtLine(number, problem))
        case Ok(cfg) => Ok(st.(cfg := cfg))
    else
      match SplitConfigLine(line)
      case Err(problem) => Err(AtLine(number, problem))
      case Ok((key, value)) =>
        if key in st.seen then Err(DuplicateField(key))
        else
          match ApplyConfigField(ps, st.cfg, key, value)
          case Err(problem) => Err(AtLine(number, problem))
          case Ok(cfg) => Ok(State(cfg, st.seen + {key}, if ListKey(key) && value == "" then key else ""))
  }

  /** All lines in order, the last one numbered |lines|, up to the first failure. */
  function ReadLines(ps: Parsers, st: State, lines: seq<string>): Result<State, Failure>
  {
    if lines == [] then Ok(st)
    else
      match ReadLines(ps, st, lines[..|lines| - 1])
      case Err(failure) => Err(failure)
      case Ok(before) => ReadLine(ps, before, lines[|lines| - 1], |lines|)
  }

  function Parsed(ps: Parsers, lines: seq<string>, cfg: Config): Result<Config, Failure>
  {
    match ReadLines(ps, State(cfg, {}, ""), lines)
    case Err(failure) => Err(failure)
    case Ok(st) => Ok(st.cfg)
  }

  method ParseConfig(ps: Parsers, lines: seq<string>, cfg0: Config) returns (result: Result<Config, Failure>)
    ensures result == Parsed(ps, lines, cfg0)
  {
    var cfg, seen, pendingListKey := cfg0, {}, "";
    ghost var start := State(cfg0, {}, "");
    for i := 0 to |lines|
      invariant ReadLines(ps, start, lines[..i]) == Ok(State(cfg, seen, pendingListKey))
    {
      assert lines[..i + 1][..i] == lines[..i];
      StopsAtFailure(ps, start, lines, i + 1);
      var line := Trim(Space, lines[i]);
      if Ignored(line) {
        continue;
      }
      if ListItem(line) {
        if pendingListKey == "" {
          return Err(AtLine(i + 1, UnexpectedItem));
        }
        var appended := AppendConfigListItem(cfg, pendingListKey, line);
        if appended.Err? {
          return Err(AtLine(i + 1, appended.error));
        }
        cfg := appended.value;
        continue;
      }
      pendingListKey := "";
      var parts := SplitConfigLine(line);
      if parts.Err? {
        return Err(AtLine(i + 1, parts.error));
      }
      var (key, value) := parts.value;
      if key in seen {
        return Err(DuplicateField(key));
      }
      seen := seen + {key};
      var applied := ApplyConfigField(ps, cfg, key, value);
      if applied.Err? {
        return Err(AtLine(i + 1, applied.error));
      }
      cfg := applied.value;
      if ListKey(key) && value == "" {
        pendingListKey := key;
      }
    }
    assert lines[..|lines|] == lines;
    result := Ok(cfg);
  }

  /** Once a line fails, the lines after it do not matter. */
  lemma {:induction false} StopsAtFailure(ps: Parsers, st: State, lines: seq<string>, n: nat)
    requires n <= |lines|
    ensures ReadLines(ps, st, lines[..n]).Err? ==> ReadLines(ps, st, lines) == ReadLines(ps, st, lines[..n])
    decreases |lines|
  {
    if n < |lines| {
      assert lines[..|lines| - 1][..n] == lines[..n];
      StopsAtFailure(ps, st, lines[..|lines| - 1], n);
    } else {
      assert lines[..n] == lines;
    }
  }
}
