/** Folding the config layers into the punk MCP entry Codex opens. Layers come
    highest first; the highest layer that defines a field decides it. */
module CodexMerge {
  import opened Text
  import opened CodexHeaders
  import opened CodexInspect

  datatype Layer = Unreadable(file: string) | Layer(file: string, scope: Scope)

  predicate Contributes(l: Layer) {
    l.Layer? && (l.scope.installed || l.scope.fragment)
  }

  datatype Found<T> = Found(value: T, file: string)

  datatype Unknown =
    | Uninspected(file: string)
    | NoEntry
    | OnlyFragments
    | Mixed(field: string, file: string, transport: string, transportFile: string)
    | PinConflict

  /** CodexMCPEffective. */
  datatype Merged = Merged(
    contributing: seq<string>,
    defined: bool,
    endpoint: Option<Found<string>>,
    bearerEnv: Option<Found<string>>,
    enabled: Option<Found<bool>>,
    helper: Option<Found<bool>>,
    pin: string,
    authFrom: seq<string>,
    unknown: Option<Unknown>)
  {
    predicate Disabled() { enabled.Some? && !enabled.value.value }
    predicate HeaderAuth() { authFrom != [] }
  }

  const NOTHING := Merged([], false, None, None, None, None, "", [], None)

  // ---- the highest layer decides ----------------------------------------

  function UrlOf(l: Layer): Option<string> {
    if l.Layer? then l.scope.endpoint else None
  }

  function BearerOf(l: Layer): Option<string> {
    if l.Layer? then l.scope.bearerEnv else None
  }

  function EnabledOf(l: Layer): Option<bool> {
    if l.Layer? then l.scope.enabled else None
  }

  function HelperOf(l: Layer): Option<bool> {
    if l.Layer? && l.scope.headersHelper then Some(true) else None
  }

  /** The field's value in the highest layer that defines it. */
  function Top<T>(layers: seq<Layer>, field: Layer -> Option<T>): Option<Found<T>> {
    if layers == [] then None
    else if Contributes(layers[0]) && field(layers[0]).Some? then Some(Found(field(layers[0]).value, layers[0].file))
    else Top(layers[1..], field)
  }

  function StaticOf(l: Layer): map<string, string> {
    if l.Layer? then l.scope.nsStatic else map[]
  }

  function EnvOf(l: Layer): map<string, string> {
    if l.Layer? then l.scope.nsEnv else map[]
  }

  function AuthEnvOf(l: Layer): map<string, string> {
    if l.Layer? then l.scope.authEnv else map[]
  }

  /** Each transport field of the layer, with the file it comes from. */
  function TransportOf(l: Layer): map<string, string> {
    if l.Layer? then map f | f in l.scope.transport :: l.file else map[]
  }

  /** Tables merge key by key, the higher layer's entry on top. */
  function Overlay(layers: seq<Layer>, table: Layer -> map<string, string>): map<string, string> {
    if layers == [] then map[]
    else Overlay(layers[1..], table) + if Contributes(layers[0]) then table(layers[0]) else map[]
  }

  function Files(layers: seq<Layer>): seq<string> {
    if layers == [] then []
    else (if Contributes(layers[0]) then [layers[0].file] else []) + Files(layers[1..])
  }

  predicate Defined(layers: seq<Layer>) {
    exists l :: l in layers && l.Layer? && l.scope.installed
  }

  // ---- the shape of the merged entry ------------------------------------

  function StdioRejects(): seq<string> {
    ["url", "bearer_token_env_var", "bearer_token", "http_headers_helper", "http_headers",
     "env_http_headers", "oauth", "oauth_resource", "auth"]
  }

  function UrlRejects(): seq<string> {
    ["args", "env", "env_vars", "cwd", "bearer_token"]
  }

  function FirstIn(fields: seq<string>, from: map<string, string>): (r: Option<string>)
    ensures r.Some? ==> r.value in fields && r.value in from
    ensures r.None? ==> forall f | f in fields :: f !in from
  {
    if fields == [] then None
    else if fields[0] in from then Some(fields[0])
    else FirstIn(fields[1..], from)
  }

  method SearchFields(fields: seq<string>, from: map<string, string>) returns (r: Option<string>)
    ensures r == FirstIn(fields, from)
  {
    for i := 0 to |fields|
      invariant FirstIn(fields, from) == FirstIn(fields[i..], from)
    {
      if fields[i] in from {
        return Some(fields[i]);
      }
      assert fields[i..][1..] == fields[i + 1..];
    }
    return None;
  }

  const COMMAND := "command"
  const URL := "url"

  /** What upstream rejects about a transport: the field and the transport it fights. */
  function Mix(from: map<string, string>): Option<Unknown> {
    if COMMAND in from then
      match FirstIn(StdioRejects(), from)
      case None => None
      case Some(f) => Some(Mixed(f, from[f], COMMAND, from[COMMAND]))
    else if URL in from then
      match FirstIn(UrlRejects(), from)
      case None => None
      case Some(f) => Some(Mixed(f, from[f], URL, from[URL]))
    else None
  }

  // ---- authorization ----------------------------------------------------

  function Get(m: map<string, string>, k: string): string {
    if k in m then m[k] else ""
  }

  /** The layer's entry for spelling `k` is the merged one and its variable is live. */
  predicate LiveAuth(l: Layer, k: string, merged: map<string, string>, environ: map<string, string>)
    requires k in AuthEnvOf(l)
  {
    var v := AuthEnvOf(l)[k];
    Get(merged, k) == v && v in environ && !Blank(environ[v])
  }

  predicate Authorizes(l: Layer, merged: map<string, string>, environ: map<string, string>) {
    l.Layer? && (l.scope.authStatic != {} || exists k :: k in AuthEnvOf(l) && LiveAuth(l, k, merged, environ))
  }

  function AuthFiles(layers: seq<Layer>, merged: map<string, string>, environ: map<string, string>): seq<string> {
    if layers == [] then []
    else
      (if Authorizes(layers[0], merged, environ) then [layers[0].file] else [])
      + AuthFiles(layers[1..], merged, environ)
  }

  // ---- the merge --------------------------------------------------------

  function FirstUnreadable(layers: seq<Layer>): Option<string> {
    if layers == [] then None
    else if layers[0].Unreadable? then Some(layers[0].file)
    else FirstUnreadable(layers[1..])
  }

  /** The fields of the merged entry, each from the highest layer that has it. */
  function Fields(layers: seq<Layer>): Merged {
    Merged(Files(layers), Defined(layers), Top(layers, UrlOf), Top(layers, BearerOf),
           Top(layers, EnabledOf), Top(layers, HelperOf), "", [], None)
  }

  ghost function Merge(layers: seq<Layer>, environ: map<string, string>): Merged {
    if FirstUnreadable(layers).Some? then NOTHING.(unknown := Some(Uninspected(FirstUnreadable(layers).value)))
    else
      var m := Fields(layers);
      var statics, live := Overlay(layers, StaticOf), Live(Overlay(layers, EnvOf), environ);
      if !m.defined then m.(unknown := Some(if m.contributing == [] then NoEntry else OnlyFragments))
      else if Mix(Overlay(layers, TransportOf)).Some? then m.(unknown := Mix(Overlay(layers, TransportOf)))
      else if Conflict(statics) || Conflict(live) then m.(unknown := Some(PinConflict))
      else
        var pin := Effective(statics, live, NAMESPACE_HEADER);
        m.(pin := if pin.Some? then pin.value else "",
           authFrom := AuthFiles(layers, Overlay(layers, AuthEnvOf), environ))
  }

  function Reversed<T>(s: seq<T>): (r: seq<T>)
    ensures |r| == |s|
  {
    seq(|s|, i requires 0 <= i < |s| => s[|s| - 1 - i])
  }

  method ReverseOrder(s: seq<string>) returns (r: seq<string>)
    ensures r == Reversed(s)
  {
    r := s;
    var i, j := 0, |s| - 1;
    while i < j
      invariant 0 <= i && j == |s| - 1 - i && i <= j + 1 && |r| == |s|
      invariant forall k | 0 <= k < i :: r[k] == s[|s| - 1 - k] && r[|s| - 1 - k] == s[k]
      invariant forall k | i <= k <= j :: r[k] == s[k]
    {
      r := r[i := r[j]][j := r[i]];
      i, j := i + 1, j - 1;
    }
    forall k | 0 <= k < |s| ensures r[k] == s[|s| - 1 - k] {
      if k > j {
        assert r[|s| - 1 - (|s| - 1 - k)] == s[|s| - 1 - k];
      }
    }
  }

  method MergeScopes(layers: seq<Layer>, environ: map<string, string>) returns (m: Merged)
    ensures m == Merge(layers, environ)
  {
    hide Effective, Conflict, Authorizes, StdioRejects, UrlRejects;
    m := NOTHING;
    for i := 0 to |layers|
      invariant FirstUnreadable(layers) == FirstUnreadable(layers[i..])
    {
      if layers[i].Unreadable? {
        return m.(unknown := Some(Uninspected(layers[i].file)));
      }
      assert layers[i..][1..] == layers[i + 1..];
    }
    var fields, statics, envs, authEnv, from := Accumulate(layers);
    m := fields;
    if !m.defined {
      return m.(unknown := Some(if m.contributing == [] then NoEntry else OnlyFragments));
    }
    if COMMAND in from {
      var bad := SearchFields(StdioRejects(), from);
      if bad.Some? {
        return m.(unknown := Some(Mixed(bad.value, from[bad.value], COMMAND, from[COMMAND])));
      }
    } else if URL in from {
      var bad := SearchFields(UrlRejects(), from);
      if bad.Some? {
        return m.(unknown := Some(Mixed(bad.value, from[bad.value], URL, from[URL])));
      }
    }
    var eff, ok := EffectiveHeaders(statics, envs, environ);
    if !ok {
      return m.(unknown := Some(PinConflict));
    }
    m := m.(pin := if NAMESPACE_HEADER in eff then eff[NAMESPACE_HEADER] else "");
    AllReadable(layers);
    var authFrom := CollectAuth(layers, authEnv, environ);
    m := m.(authFrom := authFrom);
  }

  /** The pass from the lowest layer to the highest, each overwriting what it defines. */
  method Accumulate(layers: seq<Layer>)
    returns (m: Merged, statics: map<string, string>, envs: map<string, string>,
             authEnv: map<string, string>, from: map<string, string>)
    requires FirstUnreadable(layers).None?
    ensures m == Fields(layers)
    ensures statics == Overlay(layers, StaticOf) && envs == Overlay(layers, EnvOf)
    ensures authEnv == Overlay(layers, AuthEnvOf) && from == Overlay(layers, TransportOf)
  {
    hide Top, Overlay, Files, Defined;
    AllReadable(layers);
    NothingMerged();
    m, statics, envs, authEnv, from := NOTHING, map[], map[], map[], map[];
    var contributing := [];
    assert layers[|layers|..] == [];
    for i := |layers| downto 0
      invariant m == Fields(layers[i..]).(contributing := [])
      invariant contributing == Reversed(Files(layers[i..]))
      invariant statics == Overlay(layers[i..], StaticOf) && envs == Overlay(layers[i..], EnvOf)
      invariant authEnv == Overlay(layers[i..], AuthEnvOf) && from == Overlay(layers[i..], TransportOf)
    {
      var l, rest := layers[i], layers[i + 1..];
      var sc := l.scope;
      assert layers[i..] == [l] + rest;
      FilesStep(l, rest);
      TopStep(l, rest, UrlOf);
      TopStep(l, rest, BearerOf);
      TopStep(l, rest, EnabledOf);
      TopStep(l, rest, HelperOf);
      OverlayStep(l, rest, StaticOf);
      OverlayStep(l, rest, EnvOf);
      OverlayStep(l, rest, AuthEnvOf);
      OverlayStep(l, rest, TransportOf);
      if sc.installed || sc.fragment {
        ReversedStep(l.file, Files(rest));
        contributing := contributing + [l.file];
        m := m.(defined := m.defined || sc.installed);
        if sc.endpoint.Some? {
          m := m.(endpoint := Some(Found(sc.endpoint.value, l.file)));
        }
        if sc.bearerEnv.Some? {
          m := m.(bearerEnv := Some(Found(sc.bearerEnv.value, l.file)));
        }
        if sc.enabled.Some? {
          m := m.(enabled := Some(Found(sc.enabled.value, l.file)));
        }
        if sc.headersHelper {
          m := m.(helper := Some(Found(true, l.file)));
        }
        statics, envs, authEnv := statics + sc.nsStatic, envs + sc.nsEnv, authEnv + sc.authEnv;
        from := from + TransportOf(l);
      }
    }
    assert layers[0..] == layers;
    var files := ReverseOrder(contributing);
    assert Reversed(Reversed(Files(layers))) == Files(layers);
    m := m.(contributing := files);
  }

  lemma NothingMerged()
    ensures Fields([]) == NOTHING && Reversed<string>(Files([])) == []
    ensures forall table: Layer -> map<string, string> :: Overlay([], table) == map[]
  {}

  lemma ReversedStep(f: string, rest: seq<string>)
    ensures Reversed([f] + rest) == Reversed(rest) + [f]
  {}

  lemma FilesStep(l: Layer, rest: seq<Layer>)
    ensures Files([l] + rest) == if Contributes(l) then [l.file] + Files(rest) else Files(rest)
    ensures Defined([l] + rest) <==> (l.Layer? && l.scope.installed) || Defined(rest)
  {
    assert ([l] + rest)[1..] == rest;
  }

  lemma TopStep<T>(l: Layer, rest: seq<Layer>, field: Layer -> Option<T>)
    ensures Top([l] + rest, field)
         == if Contributes(l) && field(l).Some? then Some(Found(field(l).value, l.file)) else Top(rest, field)
  {
    assert ([l] + rest)[1..] == rest;
  }

  lemma OverlayStep(l: Layer, rest: seq<Layer>, table: Layer -> map<string, string>)
    ensures Overlay([l] + rest, table) == if Contributes(l) then Overlay(rest, table) + table(l) else Overlay(rest, table)
  {
    assert ([l] + rest)[1..] == rest;
  }

  lemma {:induction false} AllReadable(layers: seq<Layer>)
    requires FirstUnreadable(layers).None?
    ensures forall l | l in layers :: l.Layer?
  {
    if layers != [] {
      AllReadable(layers[1..]);
    }
  }

  method CollectAuth(layers: seq<Layer>, merged: map<string, string>, environ: map<string, string>)
    returns (files: seq<string>)
    requires forall l | l in layers :: l.Layer?
    ensures files == AuthFiles(layers, merged, environ)
  {
    hide Authorizes, AuthFiles;
    files := [];
    NoAuthFiles(merged, environ);
    assert layers[0..] == layers && layers[|layers|..] == [];
    for i := 0 to |layers|
      invariant AuthFiles(layers, merged, environ) == files + AuthFiles(layers[i..], merged, environ)
    {
      AuthNext(layers, i, merged, environ);
      var entry := HasAuth(layers[i], merged, environ);
      if entry {
        files := files + [layers[i].file];
      }
    }
  }

  lemma NoAuthFiles(merged: map<string, string>, environ: map<string, string>)
    ensures AuthFiles([], merged, environ) == []
  {}

  lemma AuthNext(layers: seq<Layer>, i: nat, merged: map<string, string>, environ: map<string, string>)
    requires i < |layers|
    ensures AuthFiles(layers[i..], merged, environ)
         == (if Authorizes(layers[i], merged, environ) then [layers[i].file] else [])
            + AuthFiles(layers[i + 1..], merged, environ)
  {
    hide Authorizes;
    assert layers[i..][0] == layers[i] && layers[i..][1..] == layers[i + 1..];
  }

  /** Any entry of the layer, static or live; the map's entries come in any order. */
  method HasAuth(l: Layer, merged: map<string, string>, environ: map<string, string>) returns (entry: bool)
    requires l.Layer?
    ensures entry <==> Authorizes(l, merged, environ)
  {
    hide Blank, Get;
    entry := l.scope.authStatic != {};
    var todo := l.scope.authEnv.Keys;
    while todo != {}
      invariant todo <= AuthEnvOf(l).Keys
      invariant entry <==>
                l.scope.authStatic != {} || exists k :: k in AuthEnvOf(l) && k !in todo && LiveAuth(l, k, merged, environ)
      decreases todo
    {
      var k :| k in todo;
      todo := todo - {k};
      if LiveAuth(l, k, merged, environ) {
        entry := true;
      }
    }
  }

  // ---- what the merge promises ------------------------------------------

  predicate Defines<T>(l: Layer, field: Layer -> Option<T>) {
    Contributes(l) && field(l).Some?
  }

  ghost predicate DecidedBy<T>(layers: seq<Layer>, field: Layer -> Option<T>, i: nat) {
    && i < |layers| && Defines(layers[i], field)
    && Top(layers, field) == Some(Found(field(layers[i]).value, layers[i].file))
    && forall j | 0 <= j < i :: !Defines(layers[j], field)
  }

  /** A field comes from the highest layer that defines it, or from none. */
  lemma {:induction false} TopIsHighest<T>(layers: seq<Layer>, field: Layer -> Option<T>)
    ensures Top(layers, field).None? <==> forall l | l in layers :: !Defines(l, field)
    ensures Top(layers, field).Some? ==> exists i: nat :: DecidedBy(layers, field, i)
  {
    if layers != [] {
      TopIsHighest(layers[1..], field);
      assert layers[0] in layers;
      if Defines(layers[0], field) {
        assert DecidedBy(layers, field, 0);
      } else if Top(layers[1..], field).Some? {
        var i: nat :| DecidedBy(layers[1..], field, i);
        assert layers[i + 1] == layers[1..][i];
        assert forall j | 0 <= j < i + 1 :: j > 0 ==> layers[j] == layers[1..][j - 1];
        assert DecidedBy(layers, field, i + 1);
      }
    }
  }

  function Entry(table: Layer -> map<string, string>, k: string): Layer -> Option<string> {
    l => if k in table(l) then Some(table(l)[k]) else None
  }

  /** Tables are merged entry by entry with the same rule. */
  lemma {:induction false} OverlayIsHighest(layers: seq<Layer>, table: Layer -> map<string, string>, k: string)
    ensures k in Overlay(layers, table) <==> Top(layers, Entry(table, k)).Some?
    ensures k in Overlay(layers, table) ==> Overlay(layers, table)[k] == Top(layers, Entry(table, k)).value.value
  {
    if layers != [] {
      OverlayIsHighest(layers[1..], table, k);
    }
  }

  /** The merge folds: a stack of lower layers can be merged on its own first. */
  lemma {:induction false} TopFolds<T>(a: seq<Layer>, b: seq<Layer>, field: Layer -> Option<T>)
    ensures Top(a + b, field) == if Top(a, field).Some? then Top(a, field) else Top(b, field)
  {
    if a == [] {
      assert a + b == b;
    } else {
      TopFolds(a[1..], b, field);
      assert (a + b)[1..] == a[1..] + b;
    }
  }

  lemma {:induction false} OverlayFolds(a: seq<Layer>, b: seq<Layer>, table: Layer -> map<string, string>)
    ensures Overlay(a + b, table) == Overlay(b, table) + Overlay(a, table)
  {
    hide Overlay, Contributes;
    if a == [] {
      assert a + b == b && Overlay(a, table) == map[] by {
        NothingMerged();
      }
    } else {
      var t := if Contributes(a[0]) then table(a[0]) else map[];
      OverlayFolds(a[1..], b, table);
      OverlayStep(a[0], a[1..], table);
      OverlayStep(a[0], a[1..] + b, table);
      assert a == [a[0]] + a[1..] && a + b == [a[0]] + (a[1..] + b);
      MapAssoc(Overlay(b, table), Overlay(a[1..], table), t);
    }
  }

  lemma MapAssoc(x: map<string, string>, y: map<string, string>, z: map<string, string>)
    ensures (x + y) + z == x + (y + z)
  {}

  ghost predicate Carries(layers: seq<Layer>, field: string) {
    exists l :: l in layers && Contributes(l) && field in l.scope.transport
  }

  ghost predicate CarriesAny(layers: seq<Layer>, fields: seq<string>) {
    exists f :: f in fields && Carries(layers, f)
  }

  /** Some layer carries a field that only an HTTP transport takes. */
  ghost predicate CarriesHTTP(layers: seq<Layer>) {
    || Carries(layers, "url") || Carries(layers, "bearer_token_env_var") || Carries(layers, "bearer_token")
    || Carries(layers, "http_headers_helper") || Carries(layers, "http_headers") || Carries(layers, "env_http_headers")
    || Carries(layers, "oauth") || Carries(layers, "oauth_resource") || Carries(layers, "auth")
  }

  /** Some layer carries a field that a url rules out. */
  ghost predicate CarriesStdio(layers: seq<Layer>) {
    || Carries(layers, "args") || Carries(layers, "env") || Carries(layers, "env_vars")
    || Carries(layers, "cwd") || Carries(layers, "bearer_token")
  }

  lemma RejectsExactly(layers: seq<Layer>)
    ensures CarriesAny(layers, StdioRejects()) <==> CarriesHTTP(layers)
    ensures CarriesAny(layers, UrlRejects()) <==> CarriesStdio(layers)
  {
    hide Carries, StdioRejects, UrlRejects;
    RejectedNames();
  }

  lemma RejectedNames()
    ensures forall f :: f in StdioRejects() <==>
              || f == "url" || f == "bearer_token_env_var" || f == "bearer_token" || f == "http_headers_helper" || f == "http_headers"
              || f == "env_http_headers" || f == "oauth" || f == "oauth_resource" || f == "auth"
    ensures forall f :: f in UrlRejects() <==> f == "args" || f == "env" || f == "env_vars" || f == "cwd" || f == "bearer_token"
  {}

  lemma TransportCarried(layers: seq<Layer>, f: string)
    ensures f in Overlay(layers, TransportOf) <==> Carries(layers, f)
  {
    OverlayIsHighest(layers, TransportOf, f);
    TopIsHighest(layers, Entry(TransportOf, f));
    forall l: Layer ensures Defines(l, Entry(TransportOf, f)) <==> Contributes(l) && f in l.scope.transport {
      assert Entry(TransportOf, f)(l) == if f in TransportOf(l) then Some(TransportOf(l)[f]) else None;
      if Contributes(l) {
        assert f in TransportOf(l) <==> f in l.scope.transport;
      }
    }
  }

  /** The merged entry is known exactly when every layer could be read, one defines
      the table, no two layers mix transports, and the pin has one value. */
  lemma KnownExactly(layers: seq<Layer>, environ: map<string, string>)
    ensures Merge(layers, environ).unknown.None? <==>
            && (forall l | l in layers :: l.Layer?)
            && Defined(layers)
            && !(Carries(layers, "command") && CarriesHTTP(layers))
            && !(!Carries(layers, "command") && Carries(layers, "url") && CarriesStdio(layers))
            && !Conflict(Overlay(layers, StaticOf)) && !Conflict(Live(Overlay(layers, EnvOf), environ))
  {
    ReadableExactly(layers);
    MixExactly(layers);
    RejectsExactly(layers);
    hide CarriesHTTP, CarriesStdio, Carries, CarriesAny, Conflict, Live, Effective, Defined, StdioRejects, UrlRejects, Mix;
  }

  lemma {:induction false} ReadableExactly(layers: seq<Layer>)
    ensures FirstUnreadable(layers).None? <==> forall l | l in layers :: l.Layer?
  {
    if layers != [] {
      ReadableExactly(layers[1..]);
      assert layers[0] in layers && forall l | l in layers :: l == layers[0] || l in layers[1..];
    }
  }

  lemma MixExactly(layers: seq<Layer>)
    ensures Mix(Overlay(layers, TransportOf)).None? <==>
            && !(Carries(layers, COMMAND) && CarriesAny(layers, StdioRejects()))
            && !(!Carries(layers, COMMAND) && Carries(layers, URL) && CarriesAny(layers, UrlRejects()))
  {
    hide StdioRejects, UrlRejects, Carries;
    var from := Overlay(layers, TransportOf);
    forall f: string {
      TransportCarried(layers, f);
    }
    assert CarriesAny(layers, StdioRejects()) <==> exists f :: f in StdioRejects() && f in from;
    assert CarriesAny(layers, UrlRejects()) <==> exists f :: f in UrlRejects() && f in from;
  }

  /** A known entry is one transport: no HTTP field beside a command, whatever
      layers they come from, and no stdio field beside a url. */
  lemma KnownNeverMixes(layers: seq<Layer>, environ: map<string, string>)
    requires Merge(layers, environ).unknown.None?
    ensures !(Carries(layers, "command") && CarriesHTTP(layers))
    ensures !(Carries(layers, "url") && (CarriesStdio(layers) || Carries(layers, "command")))
  {
    KnownExactly(layers, environ);
    hide Carries;
  }

  // ---- one scope on its own ---------------------------------------------

  function ValueIn<T>(f: Option<Found<T>>): Option<T> {
    if f.Some? then Some(f.value.value) else None
  }

  /** Merging a single installed scope agrees with what that scope said of itself. */
  lemma SingleScopeAgrees(w: Work, environ: map<string, string>, file: string)
    requires Verdict(w, environ).Inspected? && Verdict(w, environ).scope.installed
    ensures var s := Verdict(w, environ).scope;
            var m := Merge([Layer(file, s)], environ);
            && (m.unknown.None? <==> Mix(TransportOf(Layer(file, s))).None?)
            && ValueIn(m.endpoint) == s.endpoint && ValueIn(m.bearerEnv) == s.bearerEnv
            && ValueIn(m.enabled) == s.enabled && m.helper.Some? == s.headersHelper
            && (m.unknown.None? ==> m.pin == s.pin && (m.HeaderAuth() <==> s.headerAuth))
  {
    var s := Verdict(w, environ).scope;
    var l := Layer(file, s);
    var ls := [l];
    OneLayer(l);
    PinAgrees(w.headers, w.envHeaders, environ, NAMESPACE_HEADER);
    assert AuthFiles(ls, s.authEnv, environ) == if Authorizes(l, s.authEnv, environ) then [file] else [] by {
      assert AuthFiles(ls[1..], s.authEnv, environ) == [];
    }
    AuthAgrees(w, environ, file);
    hide Authorizes, Effective, Conflict, Live, Mix, Spelled, Contribution;
  }

  lemma OneLayer(l: Layer)
    requires Contributes(l)
    ensures var ls := [l];
            && FirstUnreadable(ls).None? && Files(ls) == [l.file] && (Defined(ls) <==> l.scope.installed)
            && ValueIn(Top(ls, UrlOf)) == l.scope.endpoint && ValueIn(Top(ls, BearerOf)) == l.scope.bearerEnv
            && ValueIn(Top(ls, EnabledOf)) == l.scope.enabled && (Top(ls, HelperOf).Some? <==> l.scope.headersHelper)
            && Overlay(ls, StaticOf) == l.scope.nsStatic && Overlay(ls, EnvOf) == l.scope.nsEnv
            && Overlay(ls, AuthEnvOf) == l.scope.authEnv && Overlay(ls, TransportOf) == TransportOf(l)
  {
    assert [l][1..] == [];
  }

  /** Keeping only the spellings of one name changes nothing about that name. */
  lemma PinAgrees(headers: map<string, string>, env: map<string, string>, environ: map<string, string>, name: string)
    requires !Conflict(headers) && !Conflict(Live(env, environ))
    ensures var statics, live := Spelled(headers, name), Live(Spelled(env, name), environ);
            && !Conflict(statics) && !Conflict(live)
            && Effective(statics, live, name) == Effective(headers, Live(env, environ), name)
  {
    OnlySpellings(headers, Spelled(headers, name), name);
    OnlySpellings(Live(env, environ), Live(Spelled(env, name), environ), name);
  }

  lemma OnlySpellings(m: map<string, string>, n: map<string, string>, name: string)
    requires !Conflict(m) && forall k :: k in n <==> k in m && Lower(k) == name
    requires forall k | k in n :: n[k] == m[k]
    ensures !Conflict(n) && (Names(n, name) <==> Names(m, name))
    ensures Names(m, name) ==> ValueOf(n, name) == ValueOf(m, name)
  {
    hide Lower;
    if Conflict(n) {
      ConflictGrows(n, m);
    }
    if Names(m, name) {
      var k :| k in m && Lower(k) == name;
      OneValue(m, k);
      OneValue(n, k);
    }
  }

  lemma AuthAgrees(w: Work, environ: map<string, string>, file: string)
    requires Verdict(w, environ).Inspected?
    ensures var s := Verdict(w, environ).scope;
            Authorizes(Layer(file, s), s.authEnv, environ) <==> s.headerAuth
  {
    hide Lower, ValueOf, Blank;
    var s := Verdict(w, environ).scope;
    var live := Live(w.envHeaders, environ);
    var l := Layer(file, s);
    assert Names(w.headers, AUTH_HEADER) <==> s.authStatic != {} by {
      if Names(w.headers, AUTH_HEADER) {
        var k :| k in w.headers && Lower(k) == AUTH_HEADER;
        assert k in s.authStatic;
      }
    }
    if Names(live, AUTH_HEADER) {
      var k :| k in live && Lower(k) == AUTH_HEADER;
      assert k in AuthEnvOf(l) && LiveAuth(l, k, s.authEnv, environ);
    }
    if k :| k in AuthEnvOf(l) && LiveAuth(l, k, s.authEnv, environ) {
      assert k in live && Lower(k) == AUTH_HEADER;
    }
  }

  // ---- authorization over all layers ------------------------------------

  lemma {:induction false} OverlayFrom(layers: seq<Layer>, table: Layer -> map<string, string>, k: string)
    ensures k in Overlay(layers, table) ==>
              exists l :: l in layers && Contributes(l) && k in table(l) && table(l)[k] == Overlay(layers, table)[k]
  {
    hide Contributes;
    if k in Overlay(layers, table) {
      if Contributes(layers[0]) && k in table(layers[0]) {
        assert layers[0] in layers;
      } else {
        OverlayFrom(layers[1..], table, k);
        assert forall l | l in layers[1..] :: l in layers;
      }
    }
  }

  lemma {:induction false} AuthFilesAre(layers: seq<Layer>, merged: map<string, string>, environ: map<string, string>)
    ensures forall file :: file in AuthFiles(layers, merged, environ) <==>
              exists l :: l in layers && l.file == file && Authorizes(l, merged, environ)
  {
    hide Authorizes;
    if layers != [] {
      AuthFilesAre(layers[1..], merged, environ);
      assert forall l :: l in layers <==> l == layers[0] || l in layers[1..];
    }
  }

  /** The merged entry sends an Authorization header exactly when some layer has a
      static one, which no layer above can take away, or when some spelling of it in
      the merged table names a variable that is set and not blank. */
  lemma HeaderAuthExactly(layers: seq<Layer>, environ: map<string, string>)
    requires Merge(layers, environ).unknown.None? && "" !in environ
    ensures Merge(layers, environ).HeaderAuth() <==>
            || (exists l :: l in layers && l.Layer? && l.scope.authStatic != {})
            || Live(Overlay(layers, AuthEnvOf), environ) != map[]
  {
    hide *;
    var merged := Overlay(layers, AuthEnvOf);
    AuthFilesAre(layers, merged, environ);
    AuthFromIs(layers, environ);
    if Live(merged, environ) != map[] {
      LiveFromLayer(layers, environ);
    }
    forall l | l in layers && Authorizes(l, merged, environ)
      ensures l.Layer? && (l.scope.authStatic != {} || Live(merged, environ) != map[])
    {
      LiveInMerged(l, merged, environ);
    }
    forall l: Layer | l.Layer? && l.scope.authStatic != {} ensures Authorizes(l, merged, environ) {
      StaticAuthorizes(l, merged, environ);
    }
    HasFiles(Merge(layers, environ));
    var files := AuthFiles(layers, merged, environ);
    forall l | l in layers && Authorizes(l, merged, environ) ensures files != [] {
      assert l.file in files;
    }
    if files != [] {
      assert files[0] in files;
    }
  }

  lemma HasFiles(m: Merged)
    ensures m.HeaderAuth() <==> m.authFrom != []
  {}

  lemma StaticAuthorizes(l: Layer, merged: map<string, string>, environ: map<string, string>)
    requires l.Layer? && l.scope.authStatic != {}
    ensures Authorizes(l, merged, environ)
  {}

  lemma LiveInMerged(l: Layer, merged: map<string, string>, environ: map<string, string>)
    requires Authorizes(l, merged, environ) && "" !in environ
    ensures l.Layer? && (l.scope.authStatic != {} || Live(merged, environ) != map[])
  {
    hide Blank;
    if l.scope.authStatic == {} {
      var k :| k in AuthEnvOf(l) && LiveAuth(l, k, merged, environ);
      assert k in Live(merged, environ);
    }
  }

  lemma LiveFromLayer(layers: seq<Layer>, environ: map<string, string>)
    requires Live(Overlay(layers, AuthEnvOf), environ) != map[]
    ensures exists l :: l in layers && Authorizes(l, Overlay(layers, AuthEnvOf), environ)
  {
    hide Blank, Overlay;
    var merged := Overlay(layers, AuthEnvOf);
    var k :| k in Live(merged, environ);
    OverlayFrom(layers, AuthEnvOf, k);
    var l :| l in layers && Contributes(l) && k in AuthEnvOf(l) && AuthEnvOf(l)[k] == merged[k];
    assert LiveAuth(l, k, merged, environ);
  }

  lemma AuthFromIs(layers: seq<Layer>, environ: map<string, string>)
    requires Merge(layers, environ).unknown.None?
    ensures Merge(layers, environ).authFrom == AuthFiles(layers, Overlay(layers, AuthEnvOf), environ)
  {
    hide Mix, Conflict, Live, Effective, Overlay, AuthFiles, Defined, Top;
  }
}
