/** A config.toml as a sequence of statements, and what those statements say about the
    punk MCP entry: in terms of tables, keys and values, every key spelled out, with
    no reader's state. */
module CodexReading {
  import opened Text
  import opened TomlString
  import opened TomlParse
  import opened TomlLexer
  import opened TomlCut
  import opened TomlPairs
  import opened CodexInspect
  import opened CodexLines
  import opened TomlHeaders
  import opened TomlKeys

  // ---- statements -------------------------------------------------------

  /** `Far` is a key outside the punk tables, with its value if it has one. */
  datatype Stmt =
    | Nothing
    | Head(path: seq<string>, isArray: bool)
    | Assign(key: string, value: string)
    | Dot(key: string)
    | Far(segs: seq<string>, far: Option<string>)
    | Unreadable

  /** A statement, the line it begins on, and the table that is open after it. */
  datatype Visit = Visit(line: nat, table: seq<string>, stmt: Stmt)

  const PUNK := ["mcp_servers", "punk"]

  predicate Punkish(path: seq<string>) {
    |path| >= 2 && path[..2] == PUNK
  }

  function Sub(name: string): seq<string> {
    ["mcp_servers", "punk", name]
  }

  /** A trimmed line, in a punk table or outside. */
  function StmtOf(t: string, inside: bool): Stmt {
    if t == "" || t[0] == '#' then Nothing
    else if t[0] == '[' then
      match ParseHeader(t)
      case NoHeader => Unreadable
      case Header(path, isArray) => Head(path, isArray)
    else if inside then
      match KeySign(t)
      case None => Unreadable
      case Some((key, sign, rest)) => if sign == '.' then Dot(key) else Assign(key, TrimSpace(rest))
    else
      match ParseKeyPath(t)
      case None => Nothing
      case Some((segs, tail)) =>
        var rest := TrimSpace(tail);
        Far(segs, if Starts(rest, '=') then Some(TrimSpace(rest[1..])) else None)
  }

  /** What the statement is, in words: exactly the assignments and dotted keys that are
      written on the line. */
  lemma StmtExactly(t: string, key: string, value: string)
    requires t != "" && t[0] != '#' && t[0] != '['
    ensures StmtOf(t, true) == Assign(key, value) <==> Assigns(t, key, value)
    ensures StmtOf(t, true) == Dot(key) <==> Dots(t, key)
  {
    KeySignExactly(t, key, value);
    hide KeySign, TrimSpace, Assigns, Dots;
    if KeySign(t).Some? {
      KeySignSigns(t);
    }
  }

  predicate Bracketed(value: string) {
    Starts(value, '[') || Starts(value, '{')
  }

  /** The keys of [mcp_servers.punk] that are recognised. */
  const RECOGNISED := {
    "url", "bearer_token_env_var", "enabled", "http_headers_helper", "command", "cwd", "bearer_token",
    "oauth_resource", "auth", "http_headers", "env_http_headers", "env", "oauth", "args", "env_vars",
    "startup_timeout_sec", "tool_timeout_sec", "default_tools_approval_mode"}

  /** Those whose presence shapes the transport. */
  const TRANSPORTS := {
    "url", "bearer_token_env_var", "http_headers_helper", "command", "cwd", "bearer_token",
    "oauth_resource", "auth", "http_headers", "env_http_headers", "env", "oauth", "args", "env_vars"}

  const STRINGS := {
    "url", "bearer_token_env_var", "http_headers_helper", "command", "cwd", "bearer_token", "oauth_resource"}
  const SUBTABLES := {"http_headers", "env_http_headers", "env", "oauth"}
  const LISTS := {"args", "env_vars"}

  /** How many lines after its own the statement takes: up to the line on which its
      bracket closes. A recognised key that takes no brackets takes no lines. */
  function Span(lines: seq<string>, i: nat, table: seq<string>, stmt: Stmt): nat
    requires i < |lines|
  {
    match stmt
    case Assign(key, value) =>
      if table == PUNK && Bracketed(value) && (key in RECOGNISED ==> key in SUBTABLES + LISTS) then Extra(lines, i, value) else 0
    case Far(_, value) => if value.Some? && Bracketed(value.value) then Extra(lines, i, value.value) else 0
    case _ => 0
  }

  function Extra(lines: seq<string>, i: nat, value: string): nat
    requires i < |lines|
  {
    var f := Fold(lines, i, value, Starts(value, '['));
    if f.Some? then f.value.0 else 0
  }

  function VisitAt(lines: seq<string>, i: nat, table: seq<string>): Visit
    requires i < |lines|
  {
    var stmt := StmtOf(TrimSpace(lines[i]), Punkish(table));
    Visit(i, if stmt.Head? then stmt.path else table, stmt)
  }

  /** The statements from line `i` on, `table` being open. Lines that begin inside a
      multi-line string begin no statement. */
  function Reading(lines: seq<string>, starts: seq<bool>, i: nat, table: seq<string>): seq<Visit>
    requires |starts| == |lines|
    decreases |lines| - i
  {
    if i >= |lines| then []
    else if !starts[i] then Reading(lines, starts, i + 1, table)
    else
      var v := VisitAt(lines, i, table);
      [v] + Reading(lines, starts, i + 1 + Span(lines, i, v.table, v.stmt), v.table)
  }

  // ---- what statements say ----------------------------------------------

  predicate Opened(u: Visit, path: seq<string>) {
    u.stmt.Head? && u.stmt.path == path
  }

  /** The statement sets this key of the punk table. */
  predicate Sets(u: Visit, key: string) {
    u.table == PUNK && u.stmt.Assign? && u.stmt.key == key
  }

  predicate SetsIn(u: Visit, name: string, key: string) {
    u.table == Sub(name) && u.stmt.Assign? && u.stmt.key == key
  }

  ghost predicate SetsString(u: Visit, key: string, s: string) {
    Sets(u, key) && IsString(u.stmt.value, s)
  }

  ghost predicate SetsKeyword(u: Visit, key: string, word: string) {
    Sets(u, key) && IsKeyword(u.stmt.value, word)
  }

  /** The value is an inline table that holds the pair. */
  ghost predicate TableSays(lines: seq<string>, i: nat, value: string, k: string, s: string) {
    exists n: nat, body: string, rest: string, w: Table ::
      Closes(lines, i, value, false, n, body, rest) && IsTable(w, body) && k in MapOf(w.pairs) && MapOf(w.pairs)[k] == s
  }

  /** The header table `name` has the entry, in its own table or inline. */
  ghost predicate HeaderSays(lines: seq<string>, u: Visit, name: string, k: string, s: string) {
    || (SetsIn(u, name, k) && IsString(u.stmt.value, s))
    || (Sets(u, name) && TableSays(lines, u.line, u.stmt.value, k, s))
  }

  ghost predicate Any(log: seq<Visit>, p: Visit -> bool) {
    exists u :: u in log && p(u)
  }

  ghost function OpenedBy(path: seq<string>): Visit -> bool { u => Opened(u, path) }
  ghost function SetBy(key: string): Visit -> bool { u => Sets(u, key) }
  ghost function SetInBy(name: string, key: string): Visit -> bool { u => SetsIn(u, name, key) }
  ghost function StringBy(key: string, s: string): Visit -> bool { u => SetsString(u, key, s) }
  ghost function KeywordBy(key: string, word: string): Visit -> bool { u => SetsKeyword(u, key, word) }
  ghost function HeaderBy(lines: seq<string>, name: string, k: string, s: string): Visit -> bool {
    u => HeaderSays(lines, u, name, k, s)
  }

  /** A punk table other than [mcp_servers.punk] with this dotted name. */
  ghost function NamedBy(name: string): Visit -> bool {
    (u: Visit) => u.stmt.Head? && Punkish(u.stmt.path) && u.stmt.path != PUNK && Dotted(u.stmt.path) == name
  }

  // ---- which statements are accepted ------------------------------------

  /** A list element that is one string. */
  ghost predicate StringElem(el: string) {
    exists s :: ValueText(TrimSpace(el), s)
  }

  /** A list element that is one inline table. */
  ghost predicate TableElem(el: string) {
    var e := TrimSpace(el);
    Starts(e, '{') && exists body: string, rest: string :: IsCut(e, false, Cut(body, rest)) && TrimSpace(rest) == ""
  }

  ghost predicate BracketsClose(lines: seq<string>, i: nat, value: string) {
    exists n: nat, body: string, rest: string :: Closes(lines, i, value, Starts(value, '['), n, body, rest)
  }

  ghost predicate PairTable(lines: seq<string>, i: nat, value: string) {
    Starts(value, '{') && exists n: nat, body: string, rest: string, w: Table ::
      Closes(lines, i, value, false, n, body, rest) && Trails(rest) && IsTable(w, body)
  }

  ghost predicate AnyTable(lines: seq<string>, i: nat, value: string) {
    Starts(value, '{') && exists n: nat, body: string, rest: string ::
      Closes(lines, i, value, false, n, body, rest) && Trails(rest)
  }

  ghost predicate ListOf(lines: seq<string>, i: nat, value: string, tables: bool) {
    Starts(value, '[') && exists n: nat, body: string, rest: string ::
      Closes(lines, i, value, true, n, body, rest) && Trails(rest)
      && SplitElems(body).Some? && forall el | el in SplitElems(body).value :: StringElem(el) || (tables && TableElem(el))
  }

  /** The value is one that the recognised key takes. */
  ghost predicate ValueFine(lines: seq<string>, i: nat, key: string, value: string) {
    && (key in STRINGS ==> exists s :: IsString(value, s))
    && (key == "enabled" ==> IsKeyword(value, "true") || IsKeyword(value, "false"))
    && (key == "auth" ==> IsString(value, "oauth") || IsString(value, "chatgpt"))
    && (key == "http_headers" || key == "env_http_headers" || key == "env" ==> PairTable(lines, i, value))
    && (key == "oauth" ==> AnyTable(lines, i, value))
    && (key == "args" ==> ListOf(lines, i, value, false))
    && (key == "env_vars" ==> ListOf(lines, i, value, true))
  }

  /** A key outside the punk tables that does not reach into them. */
  ghost predicate FarFine(lines: seq<string>, v: Visit, segs: seq<string>, value: Option<string>) {
    && !(v.table == ["mcp_servers"] && segs != [] && segs[0] == "punk")
    && !(v.table == [] && |segs| >= 2 && segs[..2] == PUNK)
    && (value.Some? && Bracketed(value.value) ==>
          exists n: nat, body: string, rest: string ::
            Closes(lines, v.line, value.value, Starts(value.value, '['), n, body, rest)
            && (v.table == [] && segs == ["mcp_servers"] && Starts(value.value, '{') ==>
                  exists keys :: HasKeys(body, keys) && "punk" !in keys))
  }

  /** The statement is one the inspector accepts after those in `before`. */
  ghost predicate Fine(lines: seq<string>, before: seq<Visit>, v: Visit) {
    match v.stmt
    case Nothing => true
    case Unreadable => false
    case Head(path, isArray) =>
      Punkish(path) ==> !isArray && if path == PUNK then !Any(before, OpenedBy(PUNK)) else !Any(before, NamedBy(Dotted(path)))
    case Dot(key) =>
      !(exists name :: name in SUBTABLES && v.table == Sub(name)) && !(v.table == PUNK && key in RECOGNISED)
    case Assign(key, value) =>
      if v.table == Sub("http_headers") || v.table == Sub("env_http_headers") then
        && (exists s :: IsString(value, s))
        && forall s :: !Any(before, HeaderBy(lines, v.table[2], key, s))
      else if v.table == Sub("env") then
        (exists s :: IsString(value, s)) && !Any(before, SetInBy("env", key))
      else if v.table == PUNK then
        if key in RECOGNISED then !Any(before, SetBy(key)) && ValueFine(lines, v.line, key, value)
        else Bracketed(value) ==> BracketsClose(lines, v.line, value)
      else true
    case Far(segs, value) => FarFine(lines, v, segs, value)
  }

  /** A header, env or oauth table given both inline and as a table of its own. */
  ghost predicate Clash(log: seq<Visit>) {
    exists name :: name in SUBTABLES && Any(log, SetBy(name)) && Any(log, OpenedBy(Sub(name)))
  }
}
