/** Reading one config.toml for the punk MCP entry. Every representation the reader
    does not parse faithfully fails the whole scope: unknown is an answer, a guess
    is not. */
module CodexInspect {
  import opened Text
  import opened TomlString
  import opened TomlParse
  import opened TomlLexer
  import opened CodexHeaders

  // ---- what a scope contributes -----------------------------------------

  /** CodexMCPScope. `None` says the layer leaves the field to lower layers. */
  datatype Scope = Scope(
    installed: bool,
    fragment: bool,
    endpoint: Option<string>,
    bearerEnv: Option<string>,
    enabled: Option<bool>,
    headersHelper: bool,
    transport: set<string>,
    nsStatic: map<string, string>,
    nsEnv: map<string, string>,
    authStatic: set<string>,
    authEnv: map<string, string>,
    pin: string,
    headerAuth: bool)

  datatype Problem =
    | UnsupportedString | BadHeaderLine | ArrayOfPunkTables | DuplicateTable | DuplicateSubtable
    | BadKeyLine | DottedField | UnsupportedValue | DuplicateKey | UnterminatedValue
    | ForeignPunkKey | ForeignUnreadable | InlineAndSubtable | HeaderConflict

  datatype Inspection = Failed(why: Problem) | Inspected(scope: Scope)

  // ---- the state of the line loop ---------------------------------------

  datatype Work = Work(
    cur: seq<string>,
    punkTables: nat,
    headers: map<string, string>,
    envHeaders: map<string, string>,
    envKeys: set<string>,
    inlined: set<string>,
    subtables: set<string>,
    seenSubtables: set<string>,
    seenFields: set<string>,
    endpoint: Option<string>,
    bearerEnv: Option<string>,
    enabled: Option<bool>,
    transport: set<string>)

  const START := Work([], 0, map[], map[], {}, {}, {}, {}, {}, None, None, None, {})

  /** `more` counts the lines a bracketed value took besides its own. */
  datatype Outcome = Stop(why: Problem) | Next(w: Work, more: nat)

  /** The keys of [mcp_servers.punk] the reader recognises (codexPunkEntryKeys). */
  predicate PunkField(key: string) {
    KindOf(key) != Knob
    || key == "startup_timeout_sec" || key == "tool_timeout_sec" || key == "default_tools_approval_mode"
  }

  const AUTH_KINDS := {"oauth", "chatgpt"}
  const TABLED := {"http_headers", "env_http_headers", "env", "oauth"}

  predicate UnderPunk(cur: seq<string>) {
    |cur| >= 2 && cur[0] == "mcp_servers" && cur[1] == "punk"
  }

  predicate InPunk(cur: seq<string>) {
    UnderPunk(cur) && |cur| == 2
  }

  predicate InSub(cur: seq<string>, name: string) {
    UnderPunk(cur) && |cur| == 3 && cur[2] == name
  }

  function Dotted(path: seq<string>): string
    requires |path| > 0
  {
    if |path| == 1 then path[0] else path[0] + "." + Dotted(path[1..])
  }

  // ---- one table header -------------------------------------------------

  function HeaderLine(w: Work, trim: string): Outcome {
    match ParseHeader(trim)
    case NoHeader => Stop(BadHeaderLine)
    case Header(path, isArray) =>
      var v := w.(cur := path);
      if !UnderPunk(path) then Next(v, 0)
      else if isArray then Stop(ArrayOfPunkTables)
      else if InPunk(path) then
        if w.punkTables > 0 then Stop(DuplicateTable) else Next(v.(punkTables := 1), 0)
      else if Dotted(path) in w.seenSubtables then Stop(DuplicateSubtable)
      else
        var u := v.(seenSubtables := w.seenSubtables + {Dotted(path)});
        if |path| == 3 && path[2] in TABLED then
          Next(u.(subtables := w.subtables + {path[2]},
                  transport := if path[2] in {"env", "oauth"} then w.transport + {path[2]} else w.transport), 0)
        else Next(u, 0)
  }

  // ---- one key outside the punk tables ----------------------------------

  /** auditCodexForeignLine: dotted and inline spellings that still reach the punk
      entry stop the inspection; any other bracketed value is consumed whole. */
  function ForeignLine(lines: seq<string>, i: nat, w: Work, trim: string): Outcome
    requires i < |lines|
  {
    match ParseKeyPath(trim)
    case None => Next(w, 0)
    case Some((segs, tail)) =>
      if w.cur == ["mcp_servers"] && |segs| > 0 && segs[0] == "punk" then Stop(ForeignPunkKey)
      else if w.cur == [] && |segs| >= 2 && segs[..2] == PUNK_PATH then Stop(ForeignPunkKey)
      else
        var rest := TrimSpace(tail);
        if !Starts(rest, '=') then Next(w, 0)
        else
          var value := TrimSpace(rest[1..]);
          if !Starts(value, '[') && !Starts(value, '{') then Next(w, 0)
          else
            match Fold(lines, i, value, value[0] == '[')
            case None => Stop(ForeignUnreadable)
            case Some((more, body, _)) =>
              if w.cur == [] && segs == ["mcp_servers"] && value[0] == '{' then
                match InlineKey(TrimSpace(body), "punk")
                case CannotTell => Stop(ForeignUnreadable)
                case Found => Stop(ForeignPunkKey)
                case Absent => Next(w, more)
              else Next(w, more)
  }

  // ---- one key inside the punk tables -----------------------------------

  function StringValue(value: string): Option<string> {
    match ParseString(value)
    case Bad => None
    case Good(val, tail) => if TrailingOk(tail) then Some(val) else None
  }

  predicate KeywordValue(value: string, word: string) {
    HasPrefix(value, word) && TrailingOk(value[|word|..])
  }

  /** What kind of value a recognised field of [mcp_servers.punk] takes. */
  datatype Kind = Identity | Switch | PresenceOnly | AuthKind | InlineTable | Elements | Knob

  function KindOf(key: string): Kind {
    if key == "url" || key == "bearer_token_env_var" then Identity
    else if key == "enabled" then Switch
    else if key == "http_headers_helper" || key == "command" || key == "cwd"
            || key == "bearer_token" || key == "oauth_resource" then PresenceOnly
    else if key == "auth" then AuthKind
    else if key == "http_headers" || key == "env_http_headers" || key == "env" || key == "oauth" then InlineTable
    else if key == "args" || key == "env_vars" then Elements
    else Knob
  }

  function TableField(lines: seq<string>, i: nat, w: Work, key: string, value: string): Outcome
    requires i < |lines|
  {
    if !Starts(value, '{') then Stop(UnsupportedValue)
    else
      match Fold(lines, i, value, false)
      case None => Stop(UnterminatedValue)
      case Some((more, body, tail)) =>
        var v := w.(transport := w.transport + {key}, inlined := w.inlined + {key});
        if !TrailingOk(tail) then Stop(UnsupportedValue)
        else if key == "oauth" then Next(v, more)
        else
          match InlinePairs(body)
          case None => Stop(UnsupportedValue)
          case Some(pairs) =>
            Next(if key == "http_headers" then v.(headers := w.headers + pairs)
                 else if key == "env_http_headers" then v.(envHeaders := w.envHeaders + pairs)
                 else v, more)
  }

  function ArrayField(lines: seq<string>, i: nat, w: Work, key: string, value: string): Outcome
    requires i < |lines|
  {
    if !Starts(value, '[') then Stop(UnsupportedValue)
    else
      match Fold(lines, i, value, true)
      case None => Stop(UnterminatedValue)
      case Some((more, body, tail)) =>
        if !TrailingOk(tail) then Stop(UnsupportedValue)
        else
          match SplitElems(body)
          case None => Stop(UnsupportedValue)
          case Some(elems) =>
            if forall el | el in elems :: if key == "args" then StringElemOk(el) else EnvVarElemOk(el)
            then Next(w.(transport := w.transport + {key}), more)
            else Stop(UnsupportedValue)
  }

  /** The switch over the recognised fields. */
  function FieldLine(lines: seq<string>, i: nat, w: Work, key: string, value: string): Outcome
    requires i < |lines|
  {
    var marked := w.(transport := w.transport + {key});
    match KindOf(key)
    case Identity =>
      (match StringValue(value)
       case None => Stop(UnsupportedValue)
       case Some(val) =>
         Next(if key == "url" then marked.(endpoint := Some(val)) else marked.(bearerEnv := Some(val)), 0))
    case Switch =>
      if KeywordValue(value, "false") then Next(w.(enabled := Some(false)), 0)
      else if KeywordValue(value, "true") then Next(w.(enabled := Some(true)), 0)
      else Stop(UnsupportedValue)
    case PresenceOnly =>
      if StringValue(value).None? then Stop(UnsupportedValue) else Next(marked, 0)
    case AuthKind =>
      (match StringValue(value)
       case None => Stop(UnsupportedValue)
       case Some(val) => if val in AUTH_KINDS then Next(marked, 0) else Stop(UnsupportedValue))
    case InlineTable => TableField(lines, i, w, key, value)
    case Elements => ArrayField(lines, i, w, key, value)
    case Knob => Next(w, 0)
  }

  function KeyLine(lines: seq<string>, i: nat, w: Work, trim: string): Outcome
    requires i < |lines|
  {
    match ParseKey(trim)
    case Bad => Stop(BadKeyLine)
    case Good(key, tail) =>
      var rest := TrimSpace(tail);
      if Starts(rest, '.') then
        if (exists name :: name in TABLED && InSub(w.cur, name)) || (InPunk(w.cur) && PunkField(key))
        then Stop(DottedField)
        else Next(w, 0)
      else if !Starts(rest, '=') then Stop(BadKeyLine)
      else
        var value := TrimSpace(rest[1..]);
        if InSub(w.cur, "http_headers") || InSub(w.cur, "env_http_headers") then
          var own := if InSub(w.cur, "http_headers") then w.headers else w.envHeaders;
          match StringValue(value)
          case None => Stop(UnsupportedValue)
          case Some(val) =>
            if key in own then Stop(DuplicateKey)
            else if InSub(w.cur, "http_headers") then Next(w.(headers := own[key := val]), 0)
            else Next(w.(envHeaders := own[key := val]), 0)
        else if InSub(w.cur, "env") then
          if StringValue(value).None? then Stop(UnsupportedValue)
          else if key in w.envKeys then Stop(DuplicateKey)
          else Next(w.(envKeys := w.envKeys + {key}), 0)
        else if !InPunk(w.cur) then Next(w, 0)
        else if !PunkField(key) then
          if !Starts(value, '[') && !Starts(value, '{') then Next(w, 0)
          else
            match Fold(lines, i, value, value[0] == '[')
            case None => Stop(UnterminatedValue)
            case Some((more, _, _)) => Next(w, more)
        else if key in w.seenFields then Stop(DuplicateKey)
        else FieldLine(lines, i, w.(seenFields := w.seenFields + {key}), key, value)
  }

  /** One turn of the line loop. */
  function Line(lines: seq<string>, starts: seq<bool>, i: nat, w: Work): Outcome
    requires |starts| == |lines| && i < |lines|
  {
    var trim := TrimSpace(lines[i]);
    if !starts[i] || trim == "" || trim[0] == '#' then Next(w, 0)
    else if trim[0] == '[' then HeaderLine(w, trim)
    else if UnderPunk(w.cur) then KeyLine(lines, i, w, trim)
    else ForeignLine(lines, i, w, trim)
  }

  function Lines(lines: seq<string>, starts: seq<bool>, i: nat, w: Work): Outcome
    requires |starts| == |lines|
    decreases |lines| - i
  {
    if i >= |lines| then Next(w, 0)
    else
      match Line(lines, starts, i, w)
      case Stop(why) => Stop(why)
      case Next(v, more) => Lines(lines, starts, i + 1 + more, v)
  }

  // ---- the verdict ------------------------------------------------------

  function Spelled(m: map<string, string>, name: string): map<string, string> {
    map k | k in m && Lower(k) == name :: m[k]
  }

  ghost function Verdict(w: Work, environ: map<string, string>): Inspection {
    if w.inlined * w.subtables != {} then Failed(InlineAndSubtable)
    else
      var live := Live(w.envHeaders, environ);
      if Conflict(w.headers) || Conflict(live) then Failed(HeaderConflict)
      else
        Inspected(Contribution(w,
          var pin := Effective(w.headers, live, NAMESPACE_HEADER);
          if pin.Some? then pin.value else "",
          Effective(w.headers, live, AUTH_HEADER).Some?))
  }

  function Contribution(w: Work, pin: string, headerAuth: bool): Scope {
    Scope(
      w.punkTables == 1,
      w.punkTables == 0 && w.subtables != {},
      w.endpoint, w.bearerEnv, w.enabled,
      "http_headers_helper" in w.transport,
      w.transport + w.subtables * {"http_headers", "env_http_headers"},
      Spelled(w.headers, NAMESPACE_HEADER), Spelled(w.envHeaders, NAMESPACE_HEADER),
      Spelled(w.headers, AUTH_HEADER).Keys, Spelled(w.envHeaders, AUTH_HEADER),
      pin, headerAuth)
  }

  ghost function Inspect(lines: seq<string>, environ: map<string, string>): Inspection {
    match CodeStarts(lines)
    case None => Failed(UnsupportedString)
    case Some(starts) =>
      match Lines(lines, starts, 0, START)
      case Stop(why) => Failed(why)
      case Next(w, _) => Verdict(w, environ)
  }

  /** inspectCodexMCPScope on the lines of a file that exists. */
  method InspectScope(lines: seq<string>, environ: map<string, string>) returns (r: Inspection)
    requires forall ln | ln in lines :: '\n' !in ln
    ensures r == Inspect(lines, environ)
  {
    hide Line, Verdict;
    var starts, lexed := CodeLineStarts(lines);
    if !lexed {
      return Failed(UnsupportedString);
    }
    var i, w := 0, START;
    while i < |lines|
      invariant 0 <= i
      invariant Lines(lines, starts, 0, START) == Lines(lines, starts, i, w)
      decreases |lines| - i
    {
      match Line(lines, starts, i, w) {
        case Stop(why) => return Failed(why);
        case Next(v, more) => i, w := i + 1 + more, v;
      }
    }
    r := Conclude(w, environ);
  }

  method Conclude(w: Work, environ: map<string, string>) returns (r: Inspection)
    ensures r == Verdict(w, environ)
  {
    hide Contribution, Effective, Lower;
    if w.inlined * w.subtables != {} {
      return Failed(InlineAndSubtable);
    }
    var eff, ok := EffectiveHeaders(w.headers, w.envHeaders, environ);
    if !ok {
      return Failed(HeaderConflict);
    }
    return Inspected(Contribution(w,
      if NAMESPACE_HEADER in eff then eff[NAMESPACE_HEADER] else "", AUTH_HEADER in eff));
  }
}
