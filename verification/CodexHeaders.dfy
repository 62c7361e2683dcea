/** Which HTTP headers the punk MCP entry sends: static headers overlaid with the
    ones read from environment variables, names compared without case. */
module CodexHeaders {
  import opened Text

  const NAMESPACE_HEADER := "x-punk-namespace"
  const AUTH_HEADER := "authorization"

  predicate Blank(s: string) {
    TrimSpace(s) == ""
  }

  /** The env-resolved headers Codex sends: a variable that is unset or blank is skipped. */
  function Live(env: map<string, string>, environ: map<string, string>): map<string, string> {
    map k | k in env && env[k] in environ && !Blank(environ[env[k]]) :: environ[env[k]]
  }

  /** Two spellings of one name disagree. */
  ghost predicate Conflict(m: map<string, string>) {
    exists j, k :: j in m && k in m && Lower(j) == Lower(k) && m[j] != m[k]
  }

  ghost predicate Names(m: map<string, string>, name: string) {
    exists k :: k in m && Lower(k) == name
  }

  ghost function ValueOf(m: map<string, string>, name: string): (v: string)
    requires Names(m, name)
    ensures exists k :: k in m && Lower(k) == name && m[k] == v
  {
    var k :| k in m && Lower(k) == name;
    m[k]
  }

  ghost function Effective(statics: map<string, string>, live: map<string, string>, name: string): Option<string> {
    if Names(live, name) then Some(ValueOf(live, name))
    else if Names(statics, name) then Some(ValueOf(statics, name))
    else None
  }

  ghost predicate Resolves(eff: map<string, string>, statics: map<string, string>, live: map<string, string>) {
    forall name :: (if name in eff then Some(eff[name]) else None) == Effective(statics, live, name)
  }

  lemma OneValue(m: map<string, string>, k: string)
    requires !Conflict(m) && k in m
    ensures Names(m, Lower(k)) && ValueOf(m, Lower(k)) == m[k]
  {}

  /** effectiveCodexHeaders. The code walks the keys in sorted order; here they come
      in any order whatever, so the answer depends on no order. */
  method EffectiveHeaders(statics: map<string, string>, env: map<string, string>, environ: map<string, string>)
    returns (eff: map<string, string>, ok: bool)
    ensures ok <==> !Conflict(statics) && !Conflict(Live(env, environ))
    ensures ok ==> Resolves(eff, statics, Live(env, environ))
  {
    eff, ok := StaticHeaders(statics);
    if ok {
      eff, ok := OverlayHeaders(eff, statics, env, environ);
    }
  }

  method StaticHeaders(statics: map<string, string>) returns (eff: map<string, string>, ok: bool)
    ensures ok <==> !Conflict(statics)
    ensures ok ==> Resolves(eff, statics, map[])
  {
    hide Lower, Names, ValueOf, Effective, Resolves, Conflict;
    eff := map[];
    var todo := statics.Keys;
    ghost var done: map<string, string> := map[];
    NothingResolved();
    while todo != {}
      invariant todo <= statics.Keys && done == Without(statics, todo)
      invariant !Conflict(done) && Resolves(eff, done, map[])
      decreases todo
    {
      var k :| k in todo;
      var lk := Lower(k);
      AddHeader(done, k, statics[k], eff);
      if lk in eff && eff[lk] != statics[k] {
        ConflictGrows(done[k := statics[k]], statics);
        return eff, false;
      }
      eff := eff[lk := statics[k]];
      todo := todo - {k};
      done := done[k := statics[k]];
      assert done == Without(statics, todo);
    }
    assert done == statics;
    ok := true;
  }

  method OverlayHeaders(eff0: map<string, string>, ghost statics: map<string, string>,
                        env: map<string, string>, environ: map<string, string>)
    returns (eff: map<string, string>, ok: bool)
    requires Resolves(eff0, statics, map[])
    ensures ok <==> !Conflict(Live(env, environ))
    ensures ok ==> Resolves(eff, statics, Live(env, environ))
  {
    hide Lower, Names, ValueOf, Effective, Resolves, Conflict, Blank;
    ghost var live := Live(env, environ);
    eff := eff0;
    var fromEnv: set<string> := {};
    var todo := env.Keys;
    ghost var done: map<string, string> := map[];
    NothingNamed();
    while todo != {}
      invariant todo <= env.Keys && done == Without(live, todo)
      invariant !Conflict(done) && Resolves(eff, statics, done)
      invariant forall name :: name in fromEnv <==> Names(done, name)
      decreases todo
    {
      var k :| k in todo;
      todo := todo - {k};
      if env[k] in environ && !Blank(environ[env[k]]) {
        var v, lk := environ[env[k]], Lower(k);
        assert k in live && live[k] == v && k !in done;
        AddLive(statics, done, k, v, eff);
        if lk in fromEnv && eff[lk] != v {
          ConflictGrows(done[k := v], live);
          return eff, false;
        }
        eff := eff[lk := v];
        fromEnv := fromEnv + {lk};
        done := done[k := v];
      }
      assert done == Without(live, todo);
    }
    assert done == live;
    ok := true;
  }

  function Without(m: map<string, string>, ks: set<string>): map<string, string> {
    map k | k in m && k !in ks :: m[k]
  }

  lemma NothingResolved()
    ensures !Conflict(map[]) && Resolves(map[], map[], map[])
  {}

  lemma NothingNamed()
    ensures !Conflict(map[]) && forall name :: !Names(map[], name)
  {}

  lemma ConflictGrows(m: map<string, string>, n: map<string, string>)
    requires Conflict(m) && forall k | k in m :: k in n && n[k] == m[k]
    ensures Conflict(n)
  {
    var j, k :| j in m && k in m && Lower(j) == Lower(k) && m[j] != m[k];
  }

  lemma AddHeader(statics: map<string, string>, k: string, v: string, eff: map<string, string>)
    requires Resolves(eff, statics, map[]) && !Conflict(statics) && k !in statics
    ensures if Lower(k) in eff && eff[Lower(k)] != v then Conflict(statics[k := v])
            else !Conflict(statics[k := v]) && Resolves(eff[Lower(k) := v], statics[k := v], map[])
  {
    hide Lower;
    var m, lk := statics[k := v], Lower(k);
    assert (if lk in eff then Some(eff[lk]) else None) == Effective(statics, map[], lk);
    Agree(statics, k, v);
    if lk !in eff || eff[lk] == v {
      forall name ensures Effective(m, map[], name) == if name == lk then Some(v) else Effective(statics, map[], name) {
        SameValue(statics, k, v, name);
      }
    }
  }

  lemma AddLive(statics: map<string, string>, live: map<string, string>, k: string, v: string, eff: map<string, string>)
    requires Resolves(eff, statics, live) && !Conflict(live) && k !in live
    ensures Names(live, Lower(k)) ==> Lower(k) in eff
    ensures if Names(live, Lower(k)) && eff[Lower(k)] != v then Conflict(live[k := v])
            else !Conflict(live[k := v]) && Resolves(eff[Lower(k) := v], statics, live[k := v])
    ensures forall name :: Names(live[k := v], name) <==> Names(live, name) || name == Lower(k)
  {
    hide Lower;
    var m, lk := live[k := v], Lower(k);
    assert (if lk in eff then Some(eff[lk]) else None) == Effective(statics, live, lk);
    Agree(live, k, v);
    forall name ensures Names(m, name) <==> Names(live, name) || name == lk {
      assert Names(live, name) ==> exists j :: j in m && Lower(j) == name && j in live;
      assert k in m;
    }
    if Names(live, lk) ==> eff[lk] == v {
      forall name ensures Effective(statics, m, name) == if name == lk then Some(v) else Effective(statics, live, name) {
        SameValue(live, k, v, name);
      }
    }
  }

  lemma Agree(m: map<string, string>, k: string, v: string)
    requires !Conflict(m) && k !in m
    ensures Names(m, Lower(k)) && ValueOf(m, Lower(k)) != v ==> Conflict(m[k := v])
    ensures Names(m, Lower(k)) && ValueOf(m, Lower(k)) == v ==> forall j | j in m && Lower(j) == Lower(k) :: m[j] == v
  {
    hide Lower;
    if Names(m, Lower(k)) {
      var j :| j in m && Lower(j) == Lower(k) && m[j] == ValueOf(m, Lower(k));
      var n := m[k := v];
      assert j in n && k in n && n[j] == m[j];
    }
  }

  lemma SameValue(m: map<string, string>, k: string, v: string, name: string)
    requires !Conflict(m) && forall j | j in m && Lower(j) == Lower(k) :: m[j] == v
    ensures !Conflict(m[k := v])
    ensures Names(m[k := v], name) <==> Names(m, name) || name == Lower(k)
    ensures name == Lower(k) ==> Names(m[k := v], name) && ValueOf(m[k := v], name) == v
    ensures name != Lower(k) && Names(m, name) ==> Names(m[k := v], name) && ValueOf(m[k := v], name) == ValueOf(m, name)
  {
    hide Lower;
    var n := m[k := v];
    if name == Lower(k) {
      assert k in n;
    } else if Names(m, name) {
      var j :| j in m && Lower(j) == name && m[j] == ValueOf(m, name);
      OneValue(m, j);
      assert j in n && n[j] == m[j];
    }
    assert Names(n, name) ==> exists j :: j in n && Lower(j) == name && (j == k || j in m);
  }
}
