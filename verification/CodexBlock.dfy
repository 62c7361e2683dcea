/** The marker-fenced block punk writes into config.toml. */
module CodexBlock {
  import opened Text
  import opened TomlString

  /** MCPEntryOpts. */
  datatype Opts = Opts(
    serverURL: string,
    apiKey: string,
    apiKeyEnv: string,
    ns: string,
    agent: string,
    projectScoped: bool)

  const BLOCK_START := "# punk-managed-start " + "(punk connect codex; " + "edit outside this block only)"
  const BLOCK_END := "# punk-managed-end"
  const PUNK_TABLE := "[mcp_servers.punk]"
  const DEFAULT_KEY_ENV := "PUNK_API_KEY"

  function Endpoint(serverURL: string): string {
    TrimSlashes(serverURL) + "/mcp?toolset=agent"
  }

  /** mcpKeyEnv: the variable that replaces a literal key, if one must. */
  function KeyEnv(o: Opts): Option<string> {
    if o.apiKeyEnv != "" then Some(o.apiKeyEnv)
    else if o.projectScoped && o.apiKey != "" then Some(DEFAULT_KEY_ENV)
    else None
  }

  predicate EmbedsKey(o: Opts) {
    KeyEnv(o).None? && o.apiKey != ""
  }

  function HeaderPairs(o: Opts): seq<(string, string)> {
    (if EmbedsKey(o) then [("Authorization", "Bearer " + o.apiKey)] else [])
    + (if o.ns != "" then [("X-Punk-Namespace", o.ns)] else [])
    + (if o.agent != "" then [("X-Punk-Agent", o.agent)] else [])
  }

  function PairsText(ps: seq<(string, string)>): string
    requires |ps| > 0
  {
    Quoted(ps[0].0) + " = " + Quoted(ps[0].1) + if |ps| == 1 then "" else ", " + PairsText(ps[1..])
  }

  function FeatureLines(): seq<string> {
    ["[features]", "hooks = true", ""]
  }

  function KnobLines(): seq<string> {
    ["startup_timeout_sec = 10", "tool_timeout_sec = 60", "default_tools_approval_mode = \"approve\""]
  }

  function UrlLine(o: Opts): string {
    "url = " + Quoted(Endpoint(o.serverURL))
  }

  function EnvLines(o: Opts): seq<string> {
    if KeyEnv(o).Some? then ["bearer_token_env_var = " + Quoted(KeyEnv(o).value)] else []
  }

  function HeaderLines(o: Opts): seq<string> {
    if HeaderPairs(o) == [] then [] else ["http_headers = { " + PairsText(HeaderPairs(o)) + " }"]
  }

  /** The lines of codexManagedBlock between its markers. */
  function Body(o: Opts, features: bool): seq<string> {
    (if features then FeatureLines() else []) + [PUNK_TABLE, UrlLine(o)] + EnvLines(o) + HeaderLines(o) + KnobLines()
  }

  function Terminated(lines: seq<string>): string {
    if lines == [] then "" else lines[0] + "\n" + Terminated(lines[1..])
  }

  /** codexManagedBlock. */
  function Block(o: Opts, features: bool): string {
    Terminated([BLOCK_START] + Body(o, features) + [BLOCK_END])
  }

  lemma {:induction false} SplitTerminated(lines: seq<string>)
    requires forall ln | ln in lines :: '\n' !in ln
    ensures Split(Terminated(lines)) == lines + [""]
  {
    if lines != [] {
      SplitTerminated(lines[1..]);
      SplitFirst(lines[0], Terminated(lines[1..]));
      assert lines + [""] == [lines[0]] + (lines[1..] + [""]);
    }
  }

  // ---- lines hold no control characters ---------------------------------

  predicate Printable(s: string) {
    forall i | 0 <= i < |s| :: ' ' <= s[i]
  }

  lemma QuotedPrintable(v: string)
    ensures Printable(Quoted(v))
  {
    EscapedIsPrintable(v);
  }

  lemma {:induction false} PairsPrintable(ps: seq<(string, string)>)
    requires |ps| > 0
    ensures Printable(PairsText(ps))
  {
    QuotedPrintable(ps[0].0);
    QuotedPrintable(ps[0].1);
    SignsPrintable();
    hide Quoted, Printable;
    PrintableJoin(Quoted(ps[0].0), " = ");
    PrintableJoin(Quoted(ps[0].0) + " = ", Quoted(ps[0].1));
    if |ps| > 1 {
      PairsPrintable(ps[1..]);
      PrintableJoin(", ", PairsText(ps[1..]));
      PrintableJoin(Quoted(ps[0].0) + " = " + Quoted(ps[0].1), ", " + PairsText(ps[1..]));
    } else {
      PrintableJoin(Quoted(ps[0].0) + " = " + Quoted(ps[0].1), "");
    }
  }

  ghost predicate AllPrintable(lines: seq<string>) {
    forall ln | ln in lines :: Printable(ln)
  }

  lemma AppendPrintable(a: seq<string>, b: seq<string>)
    requires AllPrintable(a) && AllPrintable(b)
    ensures AllPrintable(a + b)
  {}

  lemma UrlPrintable(o: Opts)
    ensures AllPrintable([PUNK_TABLE, UrlLine(o)])
  {
    QuotedPrintable(Endpoint(o.serverURL));
  }

  lemma EnvPrintable(o: Opts)
    ensures AllPrintable(EnvLines(o))
  {
    if KeyEnv(o).Some? {
      QuotedPrintable(KeyEnv(o).value);
    }
  }

  lemma HeadersPrintable(o: Opts)
    ensures AllPrintable(HeaderLines(o))
  {
    hide HeaderPairs, PairsText;
    if HeaderPairs(o) != [] {
      PairsPrintable(HeaderPairs(o));
    }
  }

  lemma SignsPrintable()
    ensures Printable(" = ") && Printable(", ") && Printable("")
  {}

  lemma PrintableJoin(x: string, y: string)
    requires Printable(x) && Printable(y)
    ensures Printable(x + y)
  {}

  lemma PartsPrintable()
    ensures Printable("# punk-managed-start ") && Printable("(punk connect codex; ")
    ensures Printable("edit outside this block only)")
  {}

  lemma EndPrintable()
    ensures Printable(BLOCK_END)
  {}

  lemma MarkersPrintable()
    ensures Printable(BLOCK_START) && Printable(BLOCK_END)
  {
    hide Printable;
    PartsPrintable();
    EndPrintable();
    PrintableJoin("# punk-managed-start ", "(punk connect codex; ");
    PrintableJoin("# punk-managed-start " + "(punk connect codex; ", "edit outside this block only)");
  }

  lemma KnobsPrintable()
    ensures Printable(KnobLines()[0]) && Printable(KnobLines()[1]) && Printable(KnobLines()[2])
  {}

  lemma FeaturesPrintable()
    ensures Printable(FeatureLines()[0]) && Printable(FeatureLines()[1]) && Printable(FeatureLines()[2])
  {}

  lemma FixedPrintable()
    ensures AllPrintable(FeatureLines()) && AllPrintable(KnobLines()) && AllPrintable([BLOCK_START]) && AllPrintable([BLOCK_END])
  {
    MarkersPrintable();
    KnobsPrintable();
    FeaturesPrintable();
    hide Printable;
  }

  lemma BodyPrintable(o: Opts, features: bool)
    ensures AllPrintable(Body(o, features))
  {
    FixedPrintable();
    assert AllPrintable([]);
    UrlPrintable(o);
    EnvPrintable(o);
    HeadersPrintable(o);
    hide AllPrintable, EnvLines, HeaderLines, UrlLine;
    var a := if features then FeatureLines() else [];
    AppendPrintable(a, [PUNK_TABLE, UrlLine(o)]);
    AppendPrintable(a + [PUNK_TABLE, UrlLine(o)], EnvLines(o));
    AppendPrintable(a + [PUNK_TABLE, UrlLine(o)] + EnvLines(o), HeaderLines(o));
    AppendPrintable(a + [PUNK_TABLE, UrlLine(o)] + EnvLines(o) + HeaderLines(o), KnobLines());
  }

  lemma SplitBlock(o: Opts, features: bool)
    ensures Split(Block(o, features)) == [BLOCK_START] + Body(o, features) + [BLOCK_END, ""]
  {
    BodyPrintable(o, features);
    FixedPrintable();
    var b := Body(o, features);
    hide Body;
    AppendPrintable([BLOCK_START], b);
    AppendPrintable([BLOCK_START] + b, [BLOCK_END]);
    var a := [BLOCK_START] + b;
    SplitTerminated(a + [BLOCK_END]);
    assert a + [BLOCK_END] + [""] == a + [BLOCK_END, ""];
  }

  /** The block ends with the settings punk chooses, and the end marker. */
  lemma BlockEnds(o: Opts, features: bool)
    ensures var lines := Split(Block(o, features)); var n := |lines|;
            && n >= 7 && lines[n - 5] == "startup_timeout_sec = 10" && lines[n - 4] == "tool_timeout_sec = 60"
            && lines[n - 3] == "default_tools_approval_mode = \"approve\"" && lines[n - 2] == "# punk-managed-end" && lines[n - 1] == ""
            && (features ==> lines[1] == "[features]" && lines[2] == "hooks = true" && lines[3] == "")
            && lines[if features then 4 else 1] == "[mcp_servers.punk]"
  {
    SplitBlock(o, features);
    hide Block, Split, UrlLine, EnvLines, HeaderLines;
    assert |KnobLines()| == 3;
  }

  lemma {:induction false} TerminatedNoCR(lines: seq<string>)
    requires AllPrintable(lines)
    ensures '\r' !in Terminated(lines)
  {
    if lines != [] {
      assert lines[0] in lines && Printable(lines[0]);
      TerminatedNoCR(lines[1..]);
    }
  }

  lemma BlockNoCR(o: Opts, features: bool)
    ensures '\r' !in Block(o, features)
  {
    BodyPrintable(o, features);
    FixedPrintable();
    var b := Body(o, features);
    hide Body, AllPrintable;
    AppendPrintable([BLOCK_START], b);
    AppendPrintable([BLOCK_START] + b, [BLOCK_END]);
    TerminatedNoCR([BLOCK_START] + b + [BLOCK_END]);
  }
}
