/** What each line of a config file does, told key by key, and when a file is refused and why. */
module ConfigLines {
  import opened Wrappers
  import opened GoStrings
  import opened Config
  import opened ConfigOrder

  // ---------------------------------------------------------------- lines

  predicate Blank(raw: string)
  {
    Trim(Space, raw) == "" || "#" <= Trim(Space, raw)
  }

  predicate Item(raw: string)
  {
    "- " <= Trim(Space, raw)
  }

  /** The line is "key: value", with any spaces around the two and quotes around the value. */
  ghost predicate Spells(raw: string, key: string, value: string)
  {
    && !Blank(raw) && !Item(raw) && key != ""
    && exists left, right ::
         Trim(Space, raw) == left + ":" + right && ':' !in left
         && key == Trim(Space, left) && value == Trim(Quote, Trim(Space, right))
  }

  lemma SplitIs(line: string, left: string, right: string)
    requires line == left + ":" + right && ':' !in left
    ensures SplitConfigLine(line) ==
            if Trim(Space, left) == "" then Err(NameRequired) else Ok((Trim(Space, left), Trim(Quote, Trim(Space, right))))
  {
    CutAtFirstColon(left, right);
    hide Trim, CutColon;
  }

  lemma SplitWithoutColon(line: string)
    ensures SplitConfigLine(line) == Err(ExpectedKeyValue) <==> ':' !in line
  {
    hide Trim;
  }

  lemma SplitSpells(raw: string, key: string, value: string)
    ensures Spells(raw, key, value) <==> !Blank(raw) && !Item(raw) && SplitConfigLine(Trim(Space, raw)) == Ok((key, value))
  {
    var line := Trim(Space, raw);
    SplitWithoutColon(line);
    if ':' in line {
      var left, right := CutColon(line).value.0, CutColon(line).value.1;
      SplitIs(line, left, right);
      hide Trim, SplitConfigLine, CutColon;
      if Spells(raw, key, value) {
        var l, r :| line == l + ":" + r && ':' !in l && key == Trim(Space, l) && value == Trim(Quote, Trim(Space, r));
        SplitIs(line, l, r);
      }
    } else {
      hide Trim, SplitConfigLine;
      forall left: string, right: string ensures line != left + ":" + right {
        assert ':' in left + ":" + right by { assert (left + ":" + right)[|left|] == ':'; }
      }
    }
  }

  // ---------------------------------------------------------------- the keys

  /** The key under which a field is set. */
  predicate KeyFor(key: string, field: Field)
  {
    match field
    case Port => key == "port"
    case DevMode => key == "dev_mode"
    case DatabasePath => key == "database_path"
    case AgentSocketPath => key == "agent_socket_path"
    case AgentMutationEnabled => key == "agent_mutation_enabled"
    case AgentServiceAllowlist => key == "agent_service_allowlist"
    case AgentCommandTimeout => key == "agent_command_timeout"
    case AgentCommandOutputLimit => key == "agent_command_output_limit"
    case StaticAssetDir => key == "static_asset_dir"
    case DevProxyURL => key == "dev_proxy_url"
    case SessionTTL => key == "session_ttl"
    case SessionIdleTTL => key == "session_idle_timeout" || key == "session_idle_ttl"
    case MagicTokenTTL => key == "magic_token_ttl"
    case ServiceAllowlist => key == "service_allowlist"
    case ProcessVisibilityMode => key == "process_visibility_mode"
    case IncludeCommandLine => key == "include_command_line"
    case MaxProcesses => key == "max_processes"
  }

  /** The line "key: value" stores v in the field, read by the Go parser for that field. */
  predicate Stores(ps: Parsers, key: string, value: string, field: Field, v: Value)
  {
    KeyFor(key, field)
    && match v
       case Number(n) =>
         || (field in {Port, MaxProcesses} && ps.atoi(value) == Some(n))
         || (field == AgentCommandOutputLimit && ps.parseInt(value) == Some(n))
         || (field in {AgentCommandTimeout, SessionTTL, SessionIdleTTL, MagicTokenTTL} && ps.parseDuration(value) == Some(n))
       case Flag(on) => field in {DevMode, AgentMutationEnabled, IncludeCommandLine} && ps.parseBool(value) == Some(on)
       case Text(text) =>
         field in {DatabasePath, AgentSocketPath, StaticAssetDir, DevProxyURL, ProcessVisibilityMode} && text == value
       case Names(names) => field in {AgentServiceAllowlist, ServiceAllowlist} && names == Services(value)
  }

  /** The Go parser for the field does not read the value. */
  predicate Unreadable(ps: Parsers, key: string, value: string, field: Field)
  {
    KeyFor(key, field)
    && (|| (field in {Port, MaxProcesses} && ps.atoi(value) == None)
        || (field == AgentCommandOutputLimit && ps.parseInt(value) == None)
        || (field in {AgentCommandTimeout, SessionTTL, SessionIdleTTL, MagicTokenTTL} && ps.parseDuration(value) == None)
        || (field in {DevMode, AgentMutationEnabled, IncludeCommandLine} && ps.parseBool(value) == None))
  }

  predicate Known(key: string)
  {
    exists field :: KeyFor(key, field)
  }

  predicate Early(field: Field)
  {
    field in {Port, DevMode, DatabasePath, AgentSocketPath, AgentMutationEnabled, AgentServiceAllowlist,
              AgentCommandTimeout, AgentCommandOutputLimit}
  }

  lemma EarlyKeys(key: string, field: Field)
    requires Early(field)
    ensures KeyFor(key, field) ==> FieldOf(key) == Some(field)
  {
    hide SettingOf;
  }

  lemma LateKeys(key: string, field: Field)
    requires !Early(field)
    ensures KeyFor(key, field) ==> SettingOf(key) == Some(field)
  {
  }

  lemma LateKeysAreSettings(key: string, field: Field)
    requires !Early(field)
    ensures KeyFor(key, field) ==> FieldOf(key) == SettingOf(key)
  {
    hide SettingOf;
  }

  lemma KeyOfField(key: string)
    ensures FieldOf(key).Some? ==> KeyFor(key, FieldOf(key).value)
  {
    SettingHasKey(key);
    hide SettingOf;
  }

  lemma SettingHasKey(key: string)
    ensures SettingOf(key).Some? ==> KeyFor(key, SettingOf(key).value)
  {
  }

  lemma KeyForIff(key: string, field: Field)
    ensures KeyFor(key, field) <==> FieldOf(key) == Some(field)
  {
    KeyOfField(key);
    if Early(field) {
      EarlyKeys(key, field);
    } else {
      LateKeys(key, field);
      LateKeysAreSettings(key, field);
    }
    hide FieldOf, SettingOf, KeyFor, Early;
  }

  lemma StoresIff(ps: Parsers, key: string, value: string, field: Field, v: Value)
    ensures Stores(ps, key, value, field, v) <==> FieldOf(key) == Some(field) && ReadValue(ps, field, value) == Some(v)
  {
    hide FieldOf, KeyFor, Services;
    KeyForIff(key, field);
  }

  lemma UnreadableIff(ps: Parsers, key: string, value: string, field: Field)
    ensures Unreadable(ps, key, value, field) <==> FieldOf(key) == Some(field) && ReadValue(ps, field, value) == None
  {
    hide FieldOf, KeyFor, Services;
    KeyForIff(key, field);
  }

  lemma KnownIff(key: string)
    ensures FieldOf(key).Some? <==> Known(key)
  {
    hide FieldOf, KeyFor;
    if FieldOf(key).Some? {
      KeyForIff(key, FieldOf(key).value);
    }
    if field :| KeyFor(key, field) {
      KeyForIff(key, field);
    }
  }

  // ---------------------------------------------------------------- which lines are accepted

  /** A line among the first n gives this key. */
  ghost predicate Given(lines: seq<string>, n: nat, key: string)
    requires n <= |lines|
  {
    exists h, value :: 0 <= h < n && Spells(lines[h], key, value)
  }

  /** No "key: value" line stands between. */
  ghost predicate NoKeyBetween(lines: seq<string>, h: nat, n: nat)
    requires n <= |lines|
  {
    forall m | h < m < n :: Blank(lines[m]) || Item(lines[m])
  }

  predicate NamesList(key: string)
  {
    key == "service_allowlist" || key == "agent_service_allowlist"
  }

  /** The last "key: value" line among the first n opens this list, with no value of its own. */
  ghost predicate Opens(lines: seq<string>, n: nat, key: string)
    requires n <= |lines|
  {
    NamesList(key) && exists h :: 0 <= h < n && Spells(lines[h], key, "") && NoKeyBetween(lines, h, n)
  }

  ghost predicate InList(lines: seq<string>, n: nat)
    requires n <= |lines|
  {
    exists key :: Opens(lines, n, key)
  }

  /** The text of a list item, without its spaces and quotes. */
  function ItemText(raw: string): string
    requires Item(raw)
  {
    Trim(Quote, Trim(Space, Trim(Space, raw)[2..]))
  }

  /** The line can follow the lines before it. */
  ghost predicate LineFits(ps: Parsers, lines: seq<string>, i: nat)
    requires i < |lines|
  {
    || Blank(lines[i])
    || (!Blank(lines[i]) && Item(lines[i]) && InList(lines, i) && ItemText(lines[i]) != "")
    || (exists key, value, field, v ::
          Spells(lines[i], key, value) && !Given(lines, i, key) && Stores(ps, key, value, field, v))
  }

  /** What the parser remembers after n lines. */
  ghost predicate Remembers(st: State, lines: seq<string>, n: nat)
    requires n <= |lines|
  {
    && (forall key :: key in st.seen <==> Given(lines, n, key))
    && (forall key | key != "" :: st.pending == key <==> Opens(lines, n, key))
    && (st.pending != "" ==> ListKey(st.pending))
  }

  lemma InListIff(st: State, lines: seq<string>, n: nat)
    requires n <= |lines| && Remembers(st, lines, n)
    ensures st.pending != "" <==> InList(lines, n)
  {
    hide Spells, Given;
    if st.pending != "" {
      assert Opens(lines, n, st.pending);
    }
    if key :| Opens(lines, n, key) {
      assert key != "";
    }
  }

  lemma NextGiven(lines: seq<string>, n: nat, key: string)
    requires n < |lines|
    ensures Given(lines, n + 1, key) <==> Given(lines, n, key) || exists value :: Spells(lines[n], key, value)
  {
    hide Spells;
    if h, value :| 0 <= h < n + 1 && Spells(lines[h], key, value) {
      assert h == n || Given(lines, n, key);
    }
    if value :| Spells(lines[n], key, value) {
      assert Given(lines, n + 1, key);
    }
  }

  /** Blank lines and items leave a list open. */
  lemma StillOpens(lines: seq<string>, n: nat, key: string)
    requires n < |lines| && (Blank(lines[n]) || Item(lines[n]))
    ensures Opens(lines, n + 1, key) <==> Opens(lines, n, key)
  {
    NotSpelled(lines[n], key, "");
    forall h | 0 <= h < n ensures NoKeyBetween(lines, h, n + 1) <==> NoKeyBetween(lines, h, n) {
      NoneBetween(lines, h, n);
    }
    hide Spells, Blank, Item, NamesList, NoKeyBetween;
    if Opens(lines, n, key) {
      var h :| 0 <= h < n && Spells(lines[h], key, "") && NoKeyBetween(lines, h, n);
      assert NoKeyBetween(lines, h, n + 1);
    }
    if Opens(lines, n + 1, key) {
      var h :| 0 <= h < n + 1 && Spells(lines[h], key, "") && NoKeyBetween(lines, h, n + 1);
      assert NoKeyBetween(lines, h, n);
    }
  }

  lemma NoneBetween(lines: seq<string>, h: nat, n: nat)
    requires h < n < |lines| && (Blank(lines[n]) || Item(lines[n]))
    ensures NoKeyBetween(lines, h, n + 1) <==> NoKeyBetween(lines, h, n)
  {
    hide Blank, Item;
  }

  lemma NotSpelled(raw: string, key: string, value: string)
    requires Blank(raw) || Item(raw)
    ensures !Spells(raw, key, value)
  {
  }

  /** A key line closes any list and opens its own. */
  lemma OpensAnew(lines: seq<string>, n: nat, key: string, value: string, other: string)
    requires n < |lines| && Spells(lines[n], key, value)
    ensures Opens(lines, n + 1, other) <==> other == key && value == "" && ListKey(key)
  {
    OneSpelling(lines[n], key, value);
    assert !Blank(lines[n]) && !Item(lines[n]);
    hide Spells, Blank, Item;
    if Opens(lines, n + 1, other) {
      var h :| 0 <= h < n + 1 && Spells(lines[h], other, "") && NoKeyBetween(lines, h, n + 1);
      assert h == n;
    }
    assert NoKeyBetween(lines, n, n + 1);
  }

  /** A line gives one key and one value. */
  lemma OneSpelling(raw: string, key: string, value: string)
    requires Spells(raw, key, value)
    ensures forall k, v :: Spells(raw, k, v) ==> k == key && v == value
  {
    SplitSpells(raw, key, value);
    hide Trim, SplitConfigLine, Blank, Item;
    forall k, v | Spells(raw, k, v) ensures k == key && v == value {
      SplitSpells(raw, k, v);
      hide Spells;
    }
  }

  /** The line cannot follow the lines before it, for this reason. */
  ghost predicate LineFails(ps: Parsers, lines: seq<string>, i: nat, failure: Failure)
    requires i < |lines|
  {
    !Blank(lines[i])
    && if Item(lines[i]) then
         || (!InList(lines, i) && failure == AtLine(i + 1, UnexpectedItem))
         || (InList(lines, i) && ItemText(lines[i]) == "" && failure == AtLine(i + 1, EmptyItem))
       else
         || (':' !in Trim(Space, lines[i]) && failure == AtLine(i + 1, ExpectedKeyValue))
         || (Nameless(lines[i]) && failure == AtLine(i + 1, NameRequired))
         || (exists key, value :: Spells(lines[i], key, value) && KeyFails(ps, lines, i, key, value, failure))
  }

  ghost predicate Nameless(raw: string)
  {
    exists left, right :: Trim(Space, raw) == left + ":" + right && ':' !in left && Trim(Space, left) == ""
  }

  ghost predicate KeyFails(ps: Parsers, lines: seq<string>, i: nat, key: string, value: string, failure: Failure)
    requires i < |lines|
  {
    if Given(lines, i, key) then failure == DuplicateField(key)
    else if !Known(key) then failure == AtLine(i + 1, UnknownField(key))
    else exists field :: Unreadable(ps, key, value, field) && failure == AtLine(i + 1, InvalidValue(field))
  }

  lemma BlankReads(ps: Parsers, st: State, raw: string, number: nat)
    requires Blank(raw)
    ensures ReadLine(ps, st, raw, number) == Ok(st)
  {
    hide Trim;
    var line := Trim(Space, raw);
    assert "#" <= line ==> line[0] == '#';
  }

  lemma ItemReads(ps: Parsers, st: State, raw: string, number: nat)
    requires !Blank(raw) && Item(raw) && (st.pending != "" ==> ListKey(st.pending))
    ensures ReadLine(ps, st, raw, number).Err? <==> st.pending == "" || ItemText(raw) == ""
    ensures st.pending == "" ==> ReadLine(ps, st, raw, number) == Err(AtLine(number, UnexpectedItem))
    ensures st.pending != "" && ItemText(raw) == "" ==> ReadLine(ps, st, raw, number) == Err(AtLine(number, EmptyItem))
    ensures ReadLine(ps, st, raw, number).Ok? ==>
              var after := ReadLine(ps, st, raw, number).value;
              && after.seen == st.seen && after.pending == st.pending
              && forall field | field !in {ServiceAllowlist, AgentServiceAllowlist} :: SameAt(after.cfg, st.cfg, field)
  {
    hide Trim;
    if st.pending != "" {
      ListKeysAre(st.pending);
    }
    hide FieldOf;
  }

  lemma ListKeysAre(key: string)
    requires ListKey(key)
    ensures FieldOf(key) in {Some(ServiceAllowlist), Some(AgentServiceAllowlist)}
  {
  }

  lemma KeyLineReads(ps: Parsers, st: State, raw: string, number: nat)
    requires !Blank(raw) && !Item(raw)
    ensures match SplitConfigLine(Trim(Space, raw))
            case Err(problem) => ReadLine(ps, st, raw, number) == Err(AtLine(number, problem))
            case Ok((key, value)) =>
              if key in st.seen then ReadLine(ps, st, raw, number) == Err(DuplicateField(key))
              else if FieldOf(key) == None then ReadLine(ps, st, raw, number) == Err(AtLine(number, UnknownField(key)))
              else
                match ReadValue(ps, FieldOf(key).value, value)
                case None => ReadLine(ps, st, raw, number) == Err(AtLine(number, InvalidValue(FieldOf(key).value)))
                case Some(v) =>
                  var pending := if ListKey(key) && value == "" then key else "";
                  ReadLine(ps, st, raw, number) == Ok(State(st.cfg[FieldOf(key).value := v], st.seen + {key}, pending))
  {
    var line := Trim(Space, raw);
    assert line != "" && line[0] == '#' ==> "#" <= line;
    hide Trim, SplitConfigLine, FieldOf, ReadValue, ListKey;
  }

  /** A line that spells a key and a value: accepted and remembered, or refused with its reason. */
  lemma SpelledLine(ps: Parsers, st: State, lines: seq<string>, i: nat, key: string, value: string)
    requires i < |lines| && Remembers(st, lines, i) && Spells(lines[i], key, value)
    ensures var read := ReadLine(ps, st, lines[i], i + 1);
            && (read.Ok? <==> !Given(lines, i, key) && exists field, v :: Stores(ps, key, value, field, v))
            && (read.Ok? ==> exists field, v :: Stores(ps, key, value, field, v) && read.value.cfg == st.cfg[field := v])
            && (read.Ok? ==> read.value.seen == st.seen + {key}
                             && read.value.pending == if ListKey(key) && value == "" then key else "")
            && (read.Err? ==> KeyFails(ps, lines, i, key, value, read.error))
  {
    SplitSpells(lines[i], key, value);
    KeyLineReads(ps, st, lines[i], i + 1);
    KnownIff(key);
    hide Trim, SplitConfigLine, FieldOf, ReadValue, ListKey, Spells, Given, Opens, Stores, Unreadable, Known, Blank, Item, ReadLine;
    if FieldOf(key).Some? {
      var field := FieldOf(key).value;
      UnreadableIff(ps, key, value, field);
      if ReadValue(ps, field, value).Some? {
        StoresIff(ps, key, value, field, ReadValue(ps, field, value).value);
      }
    }
    if field, v :| Stores(ps, key, value, field, v) {
      StoresIff(ps, key, value, field, v);
    }
  }

  lemma SpelledRemembers(ps: Parsers, st: State, lines: seq<string>, i: nat, key: string, value: string)
    requires i < |lines| && Remembers(st, lines, i) && Spells(lines[i], key, value) && ReadLine(ps, st, lines[i], i + 1).Ok?
    ensures Remembers(ReadLine(ps, st, lines[i], i + 1).value, lines, i + 1)
  {
    SpelledLine(ps, st, lines, i, key, value);
    KeyRemembered(st, ReadLine(ps, st, lines[i], i + 1).value, lines, i, key, value);
    hide *;
  }

  lemma KeyRemembered(st: State, after: State, lines: seq<string>, i: nat, key: string, value: string)
    requires i < |lines| && Remembers(st, lines, i) && Spells(lines[i], key, value)
    requires after.seen == st.seen + {key} && after.pending == if ListKey(key) && value == "" then key else ""
    ensures Remembers(after, lines, i + 1)
  {
    OneSpelling(lines[i], key, value);
    assert key != "";
    var next := i + 1;
    hide Spells, Given, Opens, ListKey;
    forall k ensures k in after.seen <==> Given(lines, next, k) {
      NextGiven(lines, i, k);
    }
    forall k | k != "" ensures after.pending == k <==> Opens(lines, next, k) {
      OpensAnew(lines, i, key, value, k);
    }
  }

  lemma OtherRemembers(st: State, after: State, lines: seq<string>, i: nat)
    requires i < |lines| && Remembers(st, lines, i) && (Blank(lines[i]) || Item(lines[i]))
    requires after.seen == st.seen && after.pending == st.pending
    ensures Remembers(after, lines, i + 1)
  {
    var next := i + 1;
    hide Spells, Given, Opens, Blank, Item;
    forall k ensures k in after.seen <==> Given(lines, next, k) {
      NextGiven(lines, i, k);
      forall value ensures !Spells(lines[i], k, value) {
        NotSpelled(lines[i], k, value);
      }
    }
    forall k | k != "" ensures after.pending == k <==> Opens(lines, next, k) {
      StillOpens(lines, i, k);
    }
  }

  /** One line, read in a state that remembers the lines before it. */
  lemma OneLine(ps: Parsers, st: State, lines: seq<string>, i: nat)
    requires i < |lines| && Remembers(st, lines, i)
    ensures var read := ReadLine(ps, st, lines[i], i + 1);
            && (read.Ok? <==> LineFits(ps, lines, i))
            && (read.Ok? ==> Remembers(read.value, lines, i + 1))
            && (read.Err? ==> LineFails(ps, lines, i, read.error))
  {
    var raw := lines[i];
    if Blank(raw) || Item(raw) {
      forall key, value ensures !Spells(raw, key, value) {
        NotSpelled(raw, key, value);
      }
      if Blank(raw) {
        BlankReads(ps, st, raw, i + 1);
      } else {
        ItemReads(ps, st, raw, i + 1);
        InListIff(st, lines, i);
      }
      hide ReadLine, Spells, Given, Opens, InList, Remembers, Blank, Item, ListKey, ItemText, Known, Unreadable, Stores;
      if ReadLine(ps, st, raw, i + 1).Ok? {
        OtherRemembers(st, ReadLine(ps, st, raw, i + 1).value, lines, i);
      }
    } else {
      KeyLineFits(ps, st, lines, i);
    }
  }

  lemma KeyLineFits(ps: Parsers, st: State, lines: seq<string>, i: nat)
    requires i < |lines| && Remembers(st, lines, i) && !Blank(lines[i]) && !Item(lines[i])
    ensures var read := ReadLine(ps, st, lines[i], i + 1);
            && (read.Ok? <==> LineFits(ps, lines, i))
            && (read.Ok? ==> Remembers(read.value, lines, i + 1))
            && (read.Err? ==> LineFails(ps, lines, i, read.error))
  {
    hide *;
    var raw, line := lines[i], Trim(Space, lines[i]);
    match SplitConfigLine(line) {
      case Ok((key, value)) =>
        SplitSpells(raw, key, value);
        SpelledLine(ps, st, lines, i, key, value);
        SpelledFits(ps, lines, i, key, value);
        if ReadLine(ps, st, raw, i + 1).Ok? {
          SpelledRemembers(ps, st, lines, i, key, value);
        }
      case Err(problem) =>
        KeyLineReads(ps, st, raw, i + 1);
        UnspelledFails(ps, lines, i, problem);
    }
  }

  lemma SpelledFits(ps: Parsers, lines: seq<string>, i: nat, key: string, value: string)
    requires i < |lines| && Spells(lines[i], key, value)
    ensures LineFits(ps, lines, i) <==> !Given(lines, i, key) && exists field, v :: Stores(ps, key, value, field, v)
    ensures forall failure :: KeyFails(ps, lines, i, key, value, failure) ==> LineFails(ps, lines, i, failure)
  {
    OneSpelling(lines[i], key, value);
    assert !Blank(lines[i]) && !Item(lines[i]);
    hide Spells, Given, Stores, InList, ItemText, Blank, Item, KeyFails;
  }

  lemma UnspelledFails(ps: Parsers, lines: seq<string>, i: nat, problem: Problem)
    requires i < |lines| && !Blank(lines[i]) && !Item(lines[i]) && SplitConfigLine(Trim(Space, lines[i])) == Err(problem)
    ensures LineFails(ps, lines, i, AtLine(i + 1, problem)) && !LineFits(ps, lines, i)
  {
    var raw, line := lines[i], Trim(Space, lines[i]);
    forall key, value ensures !Spells(raw, key, value) {
      SplitSpells(raw, key, value);
    }
    SplitWithoutColon(line);
    if ':' in line {
      var left, right := CutColon(line).value.0, CutColon(line).value.1;
      SplitIs(line, left, right);
      assert Nameless(raw);
    }
    hide Spells, Given, Stores, InList, ItemText, Blank, Item, KeyFails, SplitConfigLine, CutColon, Trim;
  }

  lemma LinesStep(ps: Parsers, st: State, lines: seq<string>, n: nat)
    requires n < |lines|
    ensures ReadLines(ps, st, lines[..n + 1]) ==
            match ReadLines(ps, st, lines[..n])
            case Err(failure) => Err(failure)
            case Ok(before) => ReadLine(ps, before, lines[n], n + 1)
  {
    hide ReadLine;
    assert lines[..n + 1][..n] == lines[..n];
  }

  /** The first n lines: accepted if each fits the ones before it, refused by the first that does not. */
  lemma {:induction false} FirstLines(ps: Parsers, lines: seq<string>, n: nat, cfg: Config)
    requires n <= |lines|
    ensures var read := ReadLines(ps, State(cfg, {}, ""), lines[..n]);
            && (read.Ok? <==> forall i | 0 <= i < n :: LineFits(ps, lines, i))
            && (read.Ok? ==> Remembers(read.value, lines, n))
            && (read.Err? ==> exists i :: 0 <= i < n && LineFails(ps, lines, i, read.error)
                                          && forall h | 0 <= h < i :: LineFits(ps, lines, h))
  {
    hide ReadLine, LineFits, LineFails, Spells;
    if n > 0 {
      FirstLines(ps, lines, n - 1, cfg);
      LinesStep(ps, State(cfg, {}, ""), lines, n - 1);
      hide ReadLines, Remembers, Given, Opens, InList;
      var before := ReadLines(ps, State(cfg, {}, ""), lines[..n - 1]);
      if before.Ok? {
        OneLine(ps, before.value, lines, n - 1);
      }
    }
  }

  /** A file is accepted exactly if each line fits the lines before it; a refusal tells the first that does not, and why. */
  lemma AcceptedIffLinesFit(ps: Parsers, lines: seq<string>, cfg: Config)
    ensures var parsed := Parsed(ps, lines, cfg);
            && (parsed.Ok? <==> forall i | 0 <= i < |lines| :: LineFits(ps, lines, i))
            && (parsed.Err? ==> exists i :: 0 <= i < |lines| && LineFails(ps, lines, i, parsed.error)
                                            && forall h | 0 <= h < i :: LineFits(ps, lines, h))
  {
    hide ReadLines, LineFits, LineFails;
    assert lines[..|lines|] == lines;
    FirstLines(ps, lines, |lines|, cfg);
  }

  // ---------------------------------------------------------------- what an accepted file stores

  /** No line from n on gives a key for this field. */
  ghost predicate Untouched(lines: seq<string>, n: nat, m: nat, field: Field)
    requires n <= m <= |lines|
  {
    forall j, key, value | n <= j < m && Spells(lines[j], key, value) :: !KeyFor(key, field)
  }

  predicate ListField(field: Field)
  {
    field == ServiceAllowlist || field == AgentServiceAllowlist
  }

  lemma LineKeeps(ps: Parsers, st: State, lines: seq<string>, i: nat, field: Field)
    requires i < |lines| && Remembers(st, lines, i) && ReadLine(ps, st, lines[i], i + 1).Ok? && !ListField(field)
    requires forall key, value | Spells(lines[i], key, value) :: !KeyFor(key, field)
    ensures SameAt(ReadLine(ps, st, lines[i], i + 1).value.cfg, st.cfg, field)
  {
    var raw := lines[i];
    if Blank(raw) {
      BlankReads(ps, st, raw, i + 1);
    } else if Item(raw) {
      ItemReads(ps, st, raw, i + 1);
    } else {
      KeyLineKeeps(ps, st, lines, i, field);
    }
    hide ReadLine;
  }

  lemma KeyLineKeeps(ps: Parsers, st: State, lines: seq<string>, i: nat, field: Field)
    requires i < |lines| && ReadLine(ps, st, lines[i], i + 1).Ok? && !Blank(lines[i]) && !Item(lines[i])
    requires forall key, value | Spells(lines[i], key, value) :: !KeyFor(key, field)
    ensures SameAt(ReadLine(ps, st, lines[i], i + 1).value.cfg, st.cfg, field)
  {
    KeyLineReads(ps, st, lines[i], i + 1);
    hide *;
    var parts := SplitConfigLine(Trim(Space, lines[i]));
    SplitSpells(lines[i], parts.value.0, parts.value.1);
    OtherFieldKeeps(ps, st, lines[i], i + 1, parts.value.0, parts.value.1, field);
  }

  lemma OtherFieldKeeps(ps: Parsers, st: State, raw: string, number: nat, key: string, value: string, field: Field)
    requires !Blank(raw) && !Item(raw) && ReadLine(ps, st, raw, number).Ok?
    requires SplitConfigLine(Trim(Space, raw)) == Ok((key, value)) && !KeyFor(key, field)
    ensures SameAt(ReadLine(ps, st, raw, number).value.cfg, st.cfg, field)
  {
    KeyLineReads(ps, st, raw, number);
    KeyForIff(key, field);
    hide Trim, SplitConfigLine, FieldOf, ReadValue, ReadLine, Blank, Item, KeyFor, ListKey;
  }

  lemma KeyLineStores(ps: Parsers, st: State, lines: seq<string>, i: nat, key: string, value: string)
    requires i < |lines| && Remembers(st, lines, i) && ReadLine(ps, st, lines[i], i + 1).Ok? && Spells(lines[i], key, value)
    ensures exists field, v :: Stores(ps, key, value, field, v)
    ensures forall field, v | Stores(ps, key, value, field, v) ::
              var cfg := ReadLine(ps, st, lines[i], i + 1).value.cfg; field in cfg && cfg[field] == v
  {
    SpelledLine(ps, st, lines, i, key, value);
    hide ReadLine, Spells, Remembers, Stores;
    var f, u :| Stores(ps, key, value, f, u) && ReadLine(ps, st, lines[i], i + 1).value.cfg == st.cfg[f := u];
    forall field, v | Stores(ps, key, value, field, v) ensures field == f && v == u {
      StoresIff(ps, key, value, field, v);
      StoresIff(ps, key, value, f, u);
    }
  }

  /** A field keeps its value over lines that do not give its key. */
  lemma {:induction false} UntouchedKeeps(ps: Parsers, lines: seq<string>, n: nat, m: nat, cfg: Config, field: Field)
    requires n <= m <= |lines| && ReadLines(ps, State(cfg, {}, ""), lines[..m]).Ok? && !ListField(field)
    requires Untouched(lines, n, m, field)
    ensures ReadLines(ps, State(cfg, {}, ""), lines[..n]).Ok?
    ensures SameAt(ReadLines(ps, State(cfg, {}, ""), lines[..m]).value.cfg,
                   ReadLines(ps, State(cfg, {}, ""), lines[..n]).value.cfg, field)
    decreases m
  {
    hide ReadLine, Spells, LineFits, LineFails, KeyFor, ListField;
    if n < m {
      LinesStep(ps, State(cfg, {}, ""), lines, m - 1);
      FirstLines(ps, lines, m - 1, cfg);
      hide ReadLines, Remembers;
      UntouchedKeeps(ps, lines, n, m - 1, cfg, field);
      LineKeeps(ps, ReadLines(ps, State(cfg, {}, ""), lines[..m - 1]).value, lines, m - 1, field);
    }
  }

  /** In an accepted file the keys of two lines differ. */
  lemma KeysAreGivenOnce(ps: Parsers, lines: seq<string>, cfg: Config, i: nat, j: nat, key: string, value: string, other: string)
    requires Parsed(ps, lines, cfg).Ok? && i < j < |lines| && Spells(lines[i], key, value)
    ensures !Spells(lines[j], key, other)
  {
    AcceptedIffLinesFit(ps, lines, cfg);
    hide Parsed, Spells;
    if Spells(lines[j], key, other) {
      assert LineFits(ps, lines, j);
      assert Given(lines, j, key);
      hide LineFits;
      SpelledFits(ps, lines, j, key, other);
    }
  }

  /** The value of a scalar field is stored by a line that gives its key, and by the later of the two for the idle timeout. */
  lemma ScalarIsStored(ps: Parsers, lines: seq<string>, cfg: Config, i: nat, key: string, value: string, field: Field, v: Value)
    requires Parsed(ps, lines, cfg).Ok? && i < |lines| && Spells(lines[i], key, value) && Stores(ps, key, value, field, v)
    requires !ListField(field) && (field == SessionIdleTTL ==> Untouched(lines, i + 1, |lines|, SessionIdleTTL))
    ensures field in Parsed(ps, lines, cfg).value && Parsed(ps, lines, cfg).value[field] == v
  {
    var start := State(cfg, {}, "");
    if field != SessionIdleTTL {
      OnlyLine(ps, lines, cfg, i, key, value, field);
    }
    assert lines[..|lines|] == lines;
    hide ReadLine, Spells, LineFits, LineFails, Stores, Untouched, KeyFor, ListField;
    assert ReadLines(ps, start, lines[..|lines|]).Ok?;
    UntouchedKeeps(ps, lines, i + 1, |lines|, cfg, field);
    LinesStep(ps, start, lines, i);
    FirstLines(ps, lines, i, cfg);
    hide ReadLines, Remembers;
    KeyLineStores(ps, ReadLines(ps, start, lines[..i]).value, lines, i, key, value);
  }

  lemma OnlyLine(ps: Parsers, lines: seq<string>, cfg: Config, i: nat, key: string, value: string, field: Field)
    requires Parsed(ps, lines, cfg).Ok? && i < |lines| && Spells(lines[i], key, value)
    requires KeyFor(key, field) && field != SessionIdleTTL
    ensures Untouched(lines, i + 1, |lines|, field)
  {
    hide Parsed, Spells;
    forall j, k, u | i + 1 <= j < |lines| && Spells(lines[j], k, u) ensures !KeyFor(k, field) {
      KeysAreGivenOnce(ps, lines, cfg, i, j, key, value, u);
      assert k != key;
    }
  }

  /** What an accepted line says can be stored: its key is known and its parser reads the value. */
  lemma AcceptedLineReads(ps: Parsers, lines: seq<string>, cfg: Config, i: nat, key: string, value: string)
    requires Parsed(ps, lines, cfg).Ok? && i < |lines| && Spells(lines[i], key, value)
    ensures Known(key) && (exists field, v :: Stores(ps, key, value, field, v)) && forall field :: !Unreadable(ps, key, value, field)
  {
    AcceptedIffLinesFit(ps, lines, cfg);
    hide Parsed, Spells;
    assert LineFits(ps, lines, i);
    SpelledFits(ps, lines, i, key, value);
    hide LineFits, Stores;
    var f, v :| Stores(ps, key, value, f, v);
    StoresIff(ps, key, value, f, v);
    KnownIff(key);
    hide Known, Unreadable;
    forall field ensures !Unreadable(ps, key, value, field) {
      UnreadableIff(ps, key, value, field);
    }
  }

  /** A scalar field whose key no line gives keeps the value from before. */
  lemma UngivenFieldKeeps(ps: Parsers, lines: seq<string>, cfg: Config, field: Field)
    requires Parsed(ps, lines, cfg).Ok? && !ListField(field) && Untouched(lines, 0, |lines|, field)
    ensures SameAt(Parsed(ps, lines, cfg).value, cfg, field)
  {
    hide ReadLine, Spells, LineFits, LineFails, Untouched, KeyFor, ListField;
    assert lines[..|lines|] == lines && lines[..0] == [];
    assert ReadLines(ps, State(cfg, {}, ""), lines[..|lines|]).Ok?;
    UntouchedKeeps(ps, lines, 0, |lines|, cfg, field);
  }

  /** A line whose key is unknown, or whose parser refuses the value, has the file refused wherever it stands. */
  lemma BadLineIsRefused(ps: Parsers, lines: seq<string>, cfg: Config, i: nat, key: string, value: string)
    requires i < |lines| && Spells(lines[i], key, value)
    requires !Known(key) || exists field :: Unreadable(ps, key, value, field)
    ensures Parsed(ps, lines, cfg).Err?
  {
    if Parsed(ps, lines, cfg).Ok? {
      AcceptedLineReads(ps, lines, cfg, i, key, value);
      assert false;
    }
  }

  // ---------------------------------------------------------------- lines and lists as written

  /** A plainly written line spells its key and its value. */
  lemma PlainLineSpells(key: string, value: string)
    requires Firm(Space, key) && ':' !in key && key[0] != '#' && key[0] != '-'
    requires value == "" || (Firm(Space, value) && Firm(Quote, value))
    ensures Spells(key + ": " + value, key, value)
  {
    var raw := key + ": " + value;
    if value == "" {
      assert raw == "" + (key + ":") + " ";
      TrimExact(Space, "", key + ":", " ");
      assert key + ":" == key + ":" + "";
      TrimExact(Space, "", "", "");
      TrimExact(Quote, "", "", "");
      PlainSpells(raw, key, "", "");
    } else {
      assert raw == "" + raw + "";
      assert raw[|raw| - 1] == value[|value| - 1];
      TrimExact(Space, "", raw, "");
      TrimExact(Space, " ", value, "");
      TrimExact(Quote, "", value, "");
      assert " " + value + "" == " " + value && "" + value + "" == value;
      assert raw == key + ":" + (" " + value);
      PlainSpells(raw, key, " " + value, value);
    }
  }

  lemma PlainSpells(raw: string, key: string, right: string, value: string)
    requires Firm(Space, key) && ':' !in key && key[0] != '#' && key[0] != '-'
    requires Trim(Space, raw) == key + ":" + right && value == Trim(Quote, Trim(Space, right))
    ensures Spells(raw, key, value)
  {
    assert Trim(Space, raw)[0] == key[0];
    assert "" + key + "" == key;
    TrimExact(Space, "", key, "");
    hide Trim;
  }

  predicate Unbracketed(s: string)
  {
    s == "" || Firm(Bracket, s)
  }

  /** The brackets around a list mean nothing. */
  lemma BracketsMeanNothing(a: string)
    ensures Services(Trim(Bracket, a)) == Services(a) && Unbracketed(Trim(Bracket, a))
  {
    var l, r := TrimLaw(Bracket, a);
    TrimmedIsKept(Trim(Bracket, a));
    hide Trim, NonEmptyItems;
  }

  lemma TrimmedIsKept(t: string)
    requires Unbracketed(t)
    ensures Trim(Bracket, t) == t
  {
    TrimExact(Bracket, "", t, "");
    assert "" + t + "" == t;
  }

  /** A text without commas is one item, or none if nothing is left of it. */
  lemma OneItemList(a: string)
    requires Unbracketed(a) && ',' !in a
    ensures Services(a) == if Trim(Quote, Trim(Space, a)) == "" then [] else [Trim(Quote, Trim(Space, a))]
  {
    SplitUndoesJoin([a]);
    UnbracketedItems(a);
    assert [a][..0] == [];
    hide Trim, SplitCommas;
  }

  /** A comma joins two lists. */
  lemma CommaJoinsLists(a: string, b: string)
    requires Unbracketed(a) && Unbracketed(b)
    ensures Services(a + "," + b) == Services(a) + Services(b)
  {
    UnbracketedItems(a);
    UnbracketedItems(b);
    assert (a + "," + b)[0] == if a == "" then ',' else a[0];
    assert (a + "," + b)[|a + "," + b| - 1] == if b == "" then ',' else b[|b| - 1];
    UnbracketedItems(a + "," + b);
    SplitAtComma(a, b);
    ItemsAppend(SplitCommas(a), SplitCommas(b));
    hide Services, SplitCommas, NonEmptyItems;
  }

  lemma UnbracketedItems(a: string)
    requires Unbracketed(a)
    ensures Services(a) == NonEmptyItems(SplitCommas(a))
  {
    TrimmedIsKept(a);
    if Trim(Space, a) == "" {
      var l, r := TrimLaw(Space, a);
      assert a == l + r;
      SplitUndoesJoin([a]);
      assert [a][..0] == [];
      TrimExact(Quote, "", "", "");
      hide Trim;
    }
  }

  lemma {:induction false} ItemsAppend(p: seq<string>, q: seq<string>)
    ensures NonEmptyItems(p + q) == NonEmptyItems(p) + NonEmptyItems(q)
  {
    hide Unquote;
    if q == [] {
      assert p + q == p;
    } else {
      assert (p + q)[..|p + q| - 1] == p + q[..|q| - 1];
      ItemsAppend(p, q[..|q| - 1]);
    }
  }

  lemma {:induction false} JoinAppend(p: seq<string>, q: seq<string>)
    requires |p| >= 1 && |q| >= 1
    ensures JoinCommas(p + q) == JoinCommas(p) + "," + JoinCommas(q)
  {
    assert (p + q)[1..] == p[1..] + q;
    if |p| == 1 {
      assert p[1..] + q == q;
    } else {
      JoinAppend(p[1..], q);
    }
  }

  lemma SplitAtComma(a: string, b: string)
    ensures SplitCommas(a + "," + b) == SplitCommas(a) + SplitCommas(b)
  {
    JoinUndoesSplit(a);
    JoinUndoesSplit(b);
    var parts := SplitCommas(a) + SplitCommas(b);
    JoinAppend(SplitCommas(a), SplitCommas(b));
    hide SplitCommas, JoinCommas;
    SplitUndoesJoin(parts);
  }
}
