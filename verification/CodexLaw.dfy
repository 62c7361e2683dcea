/** The inspector's answer, said of the file: it accepts exactly the files all of whose
    statements are fine, and reports exactly what they say. */
module CodexLaw {
  import opened Text
  import opened TomlString
  import opened TomlParse
  import opened TomlLexer
  import opened TomlCut
  import opened TomlPairs
  import opened CodexHeaders
  import opened CodexInspect
  import opened CodexLines
  import opened TomlHeaders
  import opened TomlKeys
  import opened CodexReading
  import opened CodexFields

  // ---- the words the code uses ------------------------------------------

  lemma SameNames()
    ensures PUNK == PUNK_PATH && TABLED == SUBTABLES
  {}

  lemma SamePath(path: seq<string>)
    ensures UnderPunk(path) <==> Punkish(path)
    ensures InPunk(path) <==> path == PUNK
    ensures Punkish(PUNK)
  {
    assert UnderPunk(path) ==> path[..2] == PUNK;
    assert Punkish(path) ==> path[0] == path[..2][0] && path[1] == path[..2][1];
    if InPunk(path) {
      assert path == path[..2];
    }
  }

  lemma SameSub(path: seq<string>, name: string)
    ensures InSub(path, name) <==> path == Sub(name)
    ensures Punkish(Sub(name)) && Sub(name) != PUNK
  {
    assert Sub(name)[..2] == PUNK;
  }

  lemma RecognisedExactly(key: string)
    ensures PunkField(key) <==> key in RECOGNISED
  {}

  // ---- the state the reader keeps agrees with the statements ------------

  lemma AnyMore(log: seq<Visit>, v: Visit, p: Visit -> bool)
    ensures Any(log + [v], p) <==> Any(log, p) || p(v)
  {
    if Any(log, p) {
      var u :| u in log && p(u);
      assert u in log + [v];
    }
    if p(v) {
      assert v in log + [v];
    }
  }

  lemma AnyNone(p: Visit -> bool)
    ensures !Any([], p)
  {}

  ghost predicate TablesAgree(log: seq<Visit>, w: Work) {
    && w.punkTables == (if Any(log, OpenedBy(PUNK)) then 1 else 0)
    && (forall name :: name in w.seenSubtables <==> Any(log, NamedBy(name)))
    && (forall f :: f in w.subtables <==> f in SUBTABLES && Any(log, OpenedBy(Sub(f))))
  }

  ghost predicate KeysAgree(log: seq<Visit>, w: Work) {
    && (forall f :: f in w.seenFields <==> f in RECOGNISED && Any(log, SetBy(f)))
    && (forall f :: f in w.inlined <==> f in SUBTABLES && Any(log, SetBy(f)))
    && (forall k :: k in w.envKeys <==> Any(log, SetInBy("env", k)))
  }

  ghost predicate TransportAgrees(log: seq<Visit>, w: Work) {
    forall f :: f in w.transport <==>
      || (f in TRANSPORTS && Any(log, SetBy(f)))
      || ((f == "env" || f == "oauth") && Any(log, OpenedBy(Sub(f))))
  }

  ghost predicate ValuesAgree(log: seq<Visit>, w: Work) {
    && (forall s :: w.endpoint == Some(s) <==> Any(log, StringBy("url", s)))
    && (forall s :: w.bearerEnv == Some(s) <==> Any(log, StringBy("bearer_token_env_var", s)))
    && (w.enabled == Some(true) <==> Any(log, KeywordBy("enabled", "true")))
    && (w.enabled == Some(false) <==> Any(log, KeywordBy("enabled", "false")))
    && (w.endpoint.Some? <==> Any(log, SetBy("url")))
    && (w.bearerEnv.Some? <==> Any(log, SetBy("bearer_token_env_var")))
    && (w.enabled.Some? <==> Any(log, SetBy("enabled")))
  }

  ghost predicate Agrees(log: seq<Visit>, w: Work) {
    TablesAgree(log, w) && KeysAgree(log, w) && TransportAgrees(log, w) && ValuesAgree(log, w)
  }

  ghost predicate Holds(m: map<string, string>, k: string, s: string) {
    k in m && m[k] == s
  }

  ghost predicate HeadersAgree(lines: seq<string>, log: seq<Visit>, w: Work) {
    && (forall k, s :: Holds(w.headers, k, s) <==> Any(log, HeaderBy(lines, "http_headers", k, s)))
    && (forall k, s :: Holds(w.envHeaders, k, s) <==> Any(log, HeaderBy(lines, "env_http_headers", k, s)))
  }

  // ---- one more statement -----------------------------------------------

  lemma MoreTables(log: seq<Visit>, v: Visit)
    ensures forall path :: Any(log + [v], OpenedBy(path)) <==> Any(log, OpenedBy(path)) || Opened(v, path)
    ensures forall name :: Any(log + [v], NamedBy(name)) <==> Any(log, NamedBy(name)) || NamedBy(name)(v)
  {
    hide Any;
    forall path ensures Any(log + [v], OpenedBy(path)) <==> Any(log, OpenedBy(path)) || Opened(v, path) {
      AnyMore(log, v, OpenedBy(path));
    }
    forall name ensures Any(log + [v], NamedBy(name)) <==> Any(log, NamedBy(name)) || NamedBy(name)(v) {
      AnyMore(log, v, NamedBy(name));
    }
  }

  lemma MoreKeys(log: seq<Visit>, v: Visit)
    ensures forall f :: Any(log + [v], SetBy(f)) <==> Any(log, SetBy(f)) || Sets(v, f)
    ensures forall name, k :: Any(log + [v], SetInBy(name, k)) <==> Any(log, SetInBy(name, k)) || SetsIn(v, name, k)
    ensures forall f, s :: Any(log + [v], StringBy(f, s)) <==> Any(log, StringBy(f, s)) || SetsString(v, f, s)
    ensures forall f, s :: Any(log + [v], KeywordBy(f, s)) <==> Any(log, KeywordBy(f, s)) || SetsKeyword(v, f, s)
  {
    hide Any, SetsIn, SetsString, SetsKeyword;
    forall f ensures Any(log + [v], SetBy(f)) <==> Any(log, SetBy(f)) || Sets(v, f) {
      AnyMore(log, v, SetBy(f));
    }
    forall name, k ensures Any(log + [v], SetInBy(name, k)) <==> Any(log, SetInBy(name, k)) || SetsIn(v, name, k) {
      AnyMore(log, v, SetInBy(name, k));
    }
    forall f, s ensures Any(log + [v], StringBy(f, s)) <==> Any(log, StringBy(f, s)) || SetsString(v, f, s) {
      AnyMore(log, v, StringBy(f, s));
    }
    forall f, s ensures Any(log + [v], KeywordBy(f, s)) <==> Any(log, KeywordBy(f, s)) || SetsKeyword(v, f, s) {
      AnyMore(log, v, KeywordBy(f, s));
    }
  }

  lemma MoreHeaders(lines: seq<string>, log: seq<Visit>, v: Visit)
    ensures forall name, k, s ::
              Any(log + [v], HeaderBy(lines, name, k, s)) <==> Any(log, HeaderBy(lines, name, k, s)) || HeaderSays(lines, v, name, k, s)
  {
    hide Any, HeaderSays;
    forall name, k, s
      ensures Any(log + [v], HeaderBy(lines, name, k, s)) <==> Any(log, HeaderBy(lines, name, k, s)) || HeaderSays(lines, v, name, k, s)
    {
      AnyMore(log, v, HeaderBy(lines, name, k, s));
    }
  }

  // ---- what every accepted statement does to the state -------------------

  /** The statement opens no punk table, and sets neither a recognised key nor an entry
      of the env table. */
  ghost predicate Inert(v: Visit) {
    && (v.stmt.Head? ==> !Punkish(v.stmt.path))
    && (v.stmt.Assign? ==> !(v.table == PUNK && v.stmt.key in RECOGNISED))
    && (v.stmt.Assign? ==> v.table != Sub("env"))
  }

  lemma InertKeeps(log: seq<Visit>, v: Visit, w: Work, w2: Work)
    requires Agrees(log, w) && Inert(v) && w2 == w.(cur := w2.cur, headers := w2.headers, envHeaders := w2.envHeaders)
    ensures Agrees(log + [v], w2)
  {
    MoreTables(log, v);
    MoreKeys(log, v);
    SamePath(PUNK);
    InertSets(v);
    hide Any, OpenedBy, SetBy, SetInBy, StringBy, KeywordBy, Inert, Opened, Sets, SetsIn, SetsString, SetsKeyword, Punkish, Dotted;
  }

  lemma InertSets(v: Visit)
    requires Inert(v)
    ensures forall path | Punkish(path) :: !Opened(v, path)
    ensures forall f :: !Opened(v, Sub(f))
    ensures forall name :: !NamedBy(name)(v)
    ensures forall f | f in RECOGNISED :: !Sets(v, f)
    ensures forall f | f in SUBTABLES + TRANSPORTS :: !Sets(v, f)
    ensures forall f, s | f in RECOGNISED :: !SetsString(v, f, s) && !SetsKeyword(v, f, s)
    ensures forall k :: !SetsIn(v, "env", k)
  {
    forall f ensures !Opened(v, Sub(f)) {
      SameSub([], f);
    }
    assert SUBTABLES + TRANSPORTS <= RECOGNISED;
  }

  /** A header sets no key. */
  lemma HeadSets(v: Visit)
    requires !v.stmt.Assign?
    ensures forall f :: !Sets(v, f)
    ensures forall f, s :: !SetsString(v, f, s) && !SetsKeyword(v, f, s)
    ensures forall name, k :: !SetsIn(v, name, k)
  {}

  /** An assignment opens no table. */
  lemma AssignOpens(v: Visit)
    requires !v.stmt.Head?
    ensures forall path :: !Opened(v, path)
    ensures forall name :: !NamedBy(name)(v)
  {}

  lemma PunkHead(log: seq<Visit>, v: Visit, w: Work, w2: Work)
    requires Agrees(log, w) && v.stmt.Head? && v.stmt.path == PUNK && w2 == w.(cur := w2.cur, punkTables := 1)
    ensures Agrees(log + [v], w2)
  {
    hide Any, OpenedBy, NamedBy, SetBy, SetInBy, StringBy, KeywordBy, Sets, SetsIn, SetsString, SetsKeyword, Dotted, Punkish;
    MoreTables(log, v);
    MoreKeys(log, v);
    HeadSets(v);
    PunkIsNoSub(v);
  }

  lemma PunkIsNoSub(v: Visit)
    requires v.stmt.Head? && v.stmt.path == PUNK
    ensures forall name :: !NamedBy(name)(v)
    ensures forall f :: !Opened(v, Sub(f))
  {}

  /** The name, among these, whose own table has this path. */
  function Own(path: seq<string>, names: set<string>): set<string> {
    set f | f in names && path == Sub(f)
  }

  lemma SubHead(log: seq<Visit>, v: Visit, w: Work, w2: Work)
    requires Agrees(log, w) && v.stmt.Head? && Punkish(v.stmt.path) && v.stmt.path != PUNK
    requires w2.subtables == w.subtables + Own(v.stmt.path, SUBTABLES)
    requires w2.transport == w.transport + Own(v.stmt.path, {"env", "oauth"})
    requires w2 == w.(cur := w2.cur, seenSubtables := w.seenSubtables + {Dotted(v.stmt.path)},
                      subtables := w2.subtables, transport := w2.transport)
    ensures Agrees(log + [v], w2)
  {
    hide TablesAgree, KeysAgree, TransportAgrees, ValuesAgree, Punkish, Dotted, Sub;
    SubHeadTables(log, v, w, w2);
    SubHeadKeys(log, v, w, w2);
  }

  lemma SubHeadTables(log: seq<Visit>, v: Visit, w: Work, w2: Work)
    requires Agrees(log, w) && v.stmt.Head? && Punkish(v.stmt.path) && v.stmt.path != PUNK
    requires w2.subtables == w.subtables + Own(v.stmt.path, SUBTABLES)
    requires w2.transport == w.transport + Own(v.stmt.path, {"env", "oauth"})
    requires w2 == w.(cur := w2.cur, seenSubtables := w.seenSubtables + {Dotted(v.stmt.path)},
                      subtables := w2.subtables, transport := w2.transport)
    ensures TablesAgree(log + [v], w2)
  {
    hide Any, OpenedBy, NamedBy, SetBy, Dotted, Punkish, KeysAgree, TransportAgrees, ValuesAgree;
    MoreTables(log, v);
    NamedOnce(v);
  }

  lemma SubHeadKeys(log: seq<Visit>, v: Visit, w: Work, w2: Work)
    requires Agrees(log, w) && v.stmt.Head? && Punkish(v.stmt.path) && v.stmt.path != PUNK
    requires w2.subtables == w.subtables + Own(v.stmt.path, SUBTABLES)
    requires w2.transport == w.transport + Own(v.stmt.path, {"env", "oauth"})
    requires w2 == w.(cur := w2.cur, seenSubtables := w.seenSubtables + {Dotted(v.stmt.path)},
                      subtables := w2.subtables, transport := w2.transport)
    ensures KeysAgree(log + [v], w2) && TransportAgrees(log + [v], w2) && ValuesAgree(log + [v], w2)
  {
    hide Any, OpenedBy, NamedBy, SetBy, SetInBy, StringBy, KeywordBy, Sets, SetsIn, SetsString, SetsKeyword, Dotted, Punkish, TablesAgree;
    MoreTables(log, v);
    MoreKeys(log, v);
    HeadSets(v);
  }

  lemma NamedOnce(v: Visit)
    requires v.stmt.Head? && Punkish(v.stmt.path) && v.stmt.path != PUNK
    ensures forall name :: NamedBy(name)(v) <==> name == Dotted(v.stmt.path)
  {
    hide Dotted;
  }

  lemma EnvAssign(log: seq<Visit>, v: Visit, w: Work, w2: Work)
    requires Agrees(log, w) && v.stmt.Assign? && v.table == Sub("env")
    requires w2 == w.(cur := w2.cur, envKeys := w.envKeys + {v.stmt.key})
    ensures Agrees(log + [v], w2)
  {
    hide Any, OpenedBy, SetBy, SetInBy, StringBy, KeywordBy, NamedBy, Opened, Dotted, Punkish;
    MoreTables(log, v);
    MoreKeys(log, v);
    AssignOpens(v);
    SameSub([], "env");
    hide Sub;
  }

  lemma FieldAssign(lines: seq<string>, log: seq<Visit>, v: Visit, w: Work, w2: Work)
    requires v.line < |lines|
    requires Agrees(log, w) && v.stmt.Assign? && v.table == PUNK && v.stmt.key in RECOGNISED && v.stmt.key !in w.seenFields
    requires Leaves(lines, v.line, w.(seenFields := w.seenFields + {v.stmt.key}), v.stmt.key, v.stmt.value, w2)
    ensures Agrees(log + [v], w2)
  {
    hide Any, OpenedBy, SetBy, SetInBy, StringBy, KeywordBy, Leaves, TablesAgree, KeysAgree, TransportAgrees, ValuesAgree;
    FieldTables(lines, log, v, w, w2);
    FieldKeys(lines, log, v, w, w2);
    FieldValues(lines, log, v, w, w2);
  }

  lemma FieldTables(lines: seq<string>, log: seq<Visit>, v: Visit, w: Work, w2: Work)
    requires v.line < |lines|
    requires Agrees(log, w) && v.stmt.Assign? && v.table == PUNK && v.stmt.key in RECOGNISED && v.stmt.key !in w.seenFields
    requires Leaves(lines, v.line, w.(seenFields := w.seenFields + {v.stmt.key}), v.stmt.key, v.stmt.value, w2)
    ensures TablesAgree(log + [v], w2) && TransportAgrees(log + [v], w2)
  {
    hide Any, OpenedBy, SetBy, SetInBy, StringBy, KeywordBy, NamedBy, Opened, Dotted, Punkish, KeysAgree, ValuesAgree;
    hide IsString, IsKeyword, TableOf;
    MoreTables(log, v);
    MoreKeys(log, v);
    AssignOpens(v);
  }

  lemma FieldKeys(lines: seq<string>, log: seq<Visit>, v: Visit, w: Work, w2: Work)
    requires v.line < |lines|
    requires Agrees(log, w) && v.stmt.Assign? && v.table == PUNK && v.stmt.key in RECOGNISED && v.stmt.key !in w.seenFields
    requires Leaves(lines, v.line, w.(seenFields := w.seenFields + {v.stmt.key}), v.stmt.key, v.stmt.value, w2)
    ensures KeysAgree(log + [v], w2)
  {
    hide Any, OpenedBy, SetBy, SetInBy, StringBy, KeywordBy, TablesAgree, TransportAgrees, ValuesAgree, Leaves;
    MoreKeys(log, v);
    LeavesKeys(lines, v.line, w.(seenFields := w.seenFields + {v.stmt.key}), v.stmt.key, v.stmt.value, w2);
  }

  lemma LeavesKeys(lines: seq<string>, i: nat, w: Work, key: string, value: string, w2: Work)
    requires i < |lines| && Leaves(lines, i, w, key, value, w2)
    ensures w2.seenFields == w.seenFields && w2.envKeys == w.envKeys
    ensures w2.inlined == if key in SUBTABLES then w.inlined + {key} else w.inlined
  {
    hide TableOf, IsString, IsKeyword;
  }

  /** A value is said by a statement that sets its key. */
  lemma SaidIsSet(log: seq<Visit>, key: string)
    ensures !Any(log, SetBy(key)) ==> forall s :: !Any(log, StringBy(key, s)) && !Any(log, KeywordBy(key, s))
  {
    forall s | Any(log, StringBy(key, s)) || Any(log, KeywordBy(key, s)) ensures Any(log, SetBy(key)) {
      if Any(log, StringBy(key, s)) {
        var u :| u in log && SetsString(u, key, s);
        assert SetBy(key)(u);
      } else {
        var u :| u in log && SetsKeyword(u, key, s);
        assert SetBy(key)(u);
      }
    }
  }

  lemma FieldValues(lines: seq<string>, log: seq<Visit>, v: Visit, w: Work, w2: Work)
    requires v.line < |lines|
    requires Agrees(log, w) && v.stmt.Assign? && v.table == PUNK && v.stmt.key in RECOGNISED && v.stmt.key !in w.seenFields
    requires Leaves(lines, v.line, w.(seenFields := w.seenFields + {v.stmt.key}), v.stmt.key, v.stmt.value, w2)
    ensures ValuesAgree(log + [v], w2)
  {
    hide Any, OpenedBy, SetBy, SetInBy, StringBy, KeywordBy, TablesAgree, TransportAgrees;
    hide IsString, IsKeyword, TableOf;
    MoreKeys(log, v);
    SaidIsSet(log, v.stmt.key);
    if v.stmt.key == "enabled" {
      KeywordsDiffer(v.stmt.value);
    } else {
      forall s, t | IsString(v.stmt.value, s) && IsString(v.stmt.value, t) ensures s == t {
        StringsDiffer(v.stmt.value, s, t);
      }
    }
  }

  // ---- one line ---------------------------------------------------------

  /** What a line does depends on its statement. */
  lemma LineIs(lines: seq<string>, starts: seq<bool>, i: nat, w: Work)
    requires |starts| == |lines| && i < |lines| && starts[i]
    ensures var t, s := TrimSpace(lines[i]), VisitAt(lines, i, w.cur).stmt;
            match s
            case Nothing => Line(lines, starts, i, w) == Next(w, 0)
            case Unreadable => Line(lines, starts, i, w).Stop?
            case Head(path, isArray) => Line(lines, starts, i, w) == HeaderLine(w, t) && ParseHeader(t) == Header(path, isArray)
            case Far(_, _) => Line(lines, starts, i, w) == ForeignLine(lines, i, w, t) && StmtOf(t, false) == s && !Punkish(w.cur)
            case _ => Line(lines, starts, i, w) == KeyLine(lines, i, w, t) && StmtOf(t, true) == s && Punkish(w.cur)
  {
    SamePath(w.cur);
    hide ParseHeader, ParseKeyPath, KeySign, TrimSpace, UnderPunk, Punkish, ForeignLine, KeyLine;
    if Punkish(w.cur) {
      NoKey(lines, i, w, TrimSpace(lines[i]));
    } else {
      NoPath(lines, i, w, TrimSpace(lines[i]));
    }
  }

  lemma NoKey(lines: seq<string>, i: nat, w: Work, t: string)
    requires i < |lines|
    ensures KeySign(t).None? ==> KeyLine(lines, i, w, t).Stop?
  {
    hide ParseKey, TrimSpace, FieldLine, PunkField, InPunk, InSub, Fold, StringValue;
  }

  lemma NoPath(lines: seq<string>, i: nat, w: Work, t: string)
    requires i < |lines|
    ensures ParseKeyPath(t).None? ==> ForeignLine(lines, i, w, t) == Next(w, 0)
  {
    hide ParseKeyPath, TrimSpace, Fold;
  }

  /** What a table header does, its path known. */
  lemma HeaderIs(w: Work, trim: string, path: seq<string>, isArray: bool)
    requires ParseHeader(trim) == Header(path, isArray)
    ensures HeaderLine(w, trim).Next? <==>
            (Punkish(path) ==> !isArray && if path == PUNK then w.punkTables == 0 else Dotted(path) !in w.seenSubtables)
    ensures HeaderLine(w, trim).Next? ==>
              HeaderLine(w, trim) == Next(
                if !Punkish(path) then w.(cur := path)
                else if path == PUNK then w.(cur := path, punkTables := 1)
                else w.(cur := path, seenSubtables := w.seenSubtables + {Dotted(path)},
                        subtables := w.subtables + Own(path, SUBTABLES),
                        transport := w.transport + Own(path, {"env", "oauth"})), 0)
  {
    hide HeaderLine, Punkish, Sub, Dotted, Own;
    HeaderRaw(w, trim, path, isArray);
    if Punkish(path) {
      SubsOf(path);
      Unioned(w.subtables, path, TABLED, Own(path, SUBTABLES));
      Unioned(w.transport, path, {"env", "oauth"}, Own(path, {"env", "oauth"}));
    }
  }

  lemma Unioned(s: set<string>, path: seq<string>, names: set<string>, own: set<string>)
    requires own == if |path| == 3 && path[2] in names then {path[2]} else {}
    ensures s + own == if |path| == 3 && path[2] in names then s + {path[2]} else s
  {}

  lemma HeaderRaw(w: Work, trim: string, path: seq<string>, isArray: bool)
    requires ParseHeader(trim) == Header(path, isArray)
    ensures HeaderLine(w, trim).Next? <==>
            (Punkish(path) ==> !isArray && if path == PUNK then w.punkTables == 0 else Dotted(path) !in w.seenSubtables)
    ensures HeaderLine(w, trim).Next? ==>
              HeaderLine(w, trim) == Next(
                if !Punkish(path) then w.(cur := path)
                else if path == PUNK then w.(cur := path, punkTables := 1)
                else w.(cur := path, seenSubtables := w.seenSubtables + {Dotted(path)},
                        subtables := if |path| == 3 && path[2] in TABLED then w.subtables + {path[2]} else w.subtables,
                        transport := if |path| == 3 && path[2] in {"env", "oauth"} then w.transport + {path[2]} else w.transport), 0)
  {
    hide ParseHeader, UnderPunk, Punkish, InPunk, Dotted;
    SamePath(path);
  }

  lemma HeadStep(log: seq<Visit>, v: Visit, w: Work, trim: string)
    requires Agrees(log, w) && v.stmt.Head? && v.table == v.stmt.path && ParseHeader(trim) == Header(v.stmt.path, v.stmt.isArray)
    ensures HeaderLine(w, trim).Next? <==> Fine([], log, v)
    ensures HeaderLine(w, trim).Next? ==>
              && HeaderLine(w, trim).more == 0 && Agrees(log + [v], HeaderLine(w, trim).w)
              && HeaderLine(w, trim).w.cur == v.table
              && HeaderLine(w, trim).w.headers == w.headers && HeaderLine(w, trim).w.envHeaders == w.envHeaders
  {
    hide HeaderLine, ParseHeader, Punkish, Any, OpenedBy, NamedBy, KeysAgree, TransportAgrees, ValuesAgree, Dotted, Agrees;
    HeaderIs(w, trim, v.stmt.path, v.stmt.isArray);
    AgreesTables(log, w);
    if HeaderLine(w, trim).Next? {
      var w2 := HeaderLine(w, trim).w;
      if !Punkish(v.stmt.path) {
        InertKeeps(log, v, w, w2);
      } else if v.stmt.path == PUNK {
        PunkHead(log, v, w, w2);
      } else {
        SubHead(log, v, w, w2);
      }
    }
  }

  lemma AgreesTables(log: seq<Visit>, w: Work)
    requires Agrees(log, w)
    ensures TablesAgree(log, w) && KeysAgree(log, w)
  {
    hide TablesAgree, KeysAgree;
  }

  lemma SubsOf(path: seq<string>)
    requires Punkish(path)
    ensures Own(path, SUBTABLES) == if |path| == 3 && path[2] in TABLED then {path[2]} else {}
    ensures Own(path, {"env", "oauth"}) == if |path| == 3 && path[2] in {"env", "oauth"} then {path[2]} else {}
  {
    if |path| == 3 {
      assert path[0] == path[..2][0] && path[1] == path[..2][1];
      assert path == Sub(path[2]);
      forall f | path == Sub(f) ensures f == path[2] {
        assert Sub(f)[2] == f;
      }
    }
  }

  lemma FarStep(lines: seq<string>, i: nat, w: Work, t: string, segs: seq<string>, far: Option<string>)
    requires i < |lines| && StmtOf(t, false) == Far(segs, far)
    ensures ForeignLine(lines, i, w, t).Next? <==> FarFine(lines, Visit(i, w.cur, Far(segs, far)), segs, far)
    ensures ForeignLine(lines, i, w, t).Next? ==> ForeignLine(lines, i, w, t) == Next(w, Span(lines, i, w.cur, Far(segs, far)))
  {
    hide ParseHeader, ParseKeyPath, TrimSpace, Fold, Closes, InlineKey, HasKeys;
    SameNames();
    forall body ensures InlineKey(TrimSpace(body), "punk").Absent? <==> exists keys :: HasKeys(body, keys) && "punk" !in keys {
      AbsentExactly(body, "punk");
    }
    if far.Some? && Bracketed(far.value) {
      var isArray := Starts(far.value, '[');
      var f := Fold(lines, i, far.value, isArray);
      if f.Some? {
        FoldExactly(lines, i, far.value, isArray, f.value.0, f.value.1, f.value.2);
      }
      forall n: nat, body: string, rest: string | Closes(lines, i, far.value, isArray, n, body, rest) ensures f == Some((n, body, rest)) {
        FoldExactly(lines, i, far.value, isArray, n, body, rest);
      }
    }
  }

  lemma DotStep(lines: seq<string>, i: nat, w: Work, t: string, key: string)
    requires i < |lines| && StmtOf(t, true) == Dot(key)
    ensures KeyLine(lines, i, w, t) == Next(w, 0) <==> Fine(lines, [], Visit(i, w.cur, Dot(key)))
    ensures KeyLine(lines, i, w, t).Next? ==> KeyLine(lines, i, w, t) == Next(w, 0)
  {
    hide ParseHeader, ParseKey, TrimSpace, Fold, PunkField, FieldLine, InPunk, InSub, StringValue;
    SamePath(w.cur);
    RecognisedExactly(key);
    forall name ensures InSub(w.cur, name) <==> w.cur == Sub(name) {
      SameSub(w.cur, name);
    }
  }

  // What an assignment does, in each table.

  lemma HeaderRow(lines: seq<string>, i: nat, w: Work, t: string, key: string, value: string)
    requires i < |lines| && StmtOf(t, true) == Assign(key, value)
    requires w.cur == Sub("http_headers") || w.cur == Sub("env_http_headers")
    ensures var own := if w.cur == Sub("http_headers") then w.headers else w.envHeaders;
            && (KeyLine(lines, i, w, t).Next? <==> StringValue(value).Some? && key !in own)
            && (KeyLine(lines, i, w, t).Next? ==>
                  KeyLine(lines, i, w, t) == Next(
                    if w.cur == Sub("http_headers") then w.(headers := own[key := StringValue(value).value])
                    else w.(envHeaders := own[key := StringValue(value).value]), 0))
  {
    hide ParseKey, ParseHeader, TrimSpace, Fold, PunkField, FieldLine, InPunk, InSub, StringValue;
    SameSub(w.cur, "http_headers");
    SameSub(w.cur, "env_http_headers");
  }

  lemma EnvRow(lines: seq<string>, i: nat, w: Work, t: string, key: string, value: string)
    requires i < |lines| && StmtOf(t, true) == Assign(key, value)
    requires w.cur == Sub("env")
    ensures KeyLine(lines, i, w, t).Next? <==> StringValue(value).Some? && key !in w.envKeys
    ensures KeyLine(lines, i, w, t).Next? ==> KeyLine(lines, i, w, t) == Next(w.(envKeys := w.envKeys + {key}), 0)
  {
    hide ParseKey, ParseHeader, TrimSpace, Fold, PunkField, FieldLine, InPunk, InSub, StringValue;
    SameSub(w.cur, "http_headers");
    SameSub(w.cur, "env_http_headers");
    SameSub(w.cur, "env");
  }

  lemma FieldRow(lines: seq<string>, i: nat, w: Work, t: string, key: string, value: string)
    requires i < |lines| && StmtOf(t, true) == Assign(key, value)
    requires w.cur == PUNK && key in RECOGNISED
    ensures if key in w.seenFields then KeyLine(lines, i, w, t).Stop?
            else KeyLine(lines, i, w, t) == FieldLine(lines, i, w.(seenFields := w.seenFields + {key}), key, value)
  {
    hide ParseKey, ParseHeader, TrimSpace, Fold, PunkField, FieldLine, InPunk, InSub, StringValue;
    NotSub(w.cur);
    RecognisedExactly(key);
  }

  lemma NotSub(path: seq<string>)
    requires path == PUNK
    ensures InPunk(path) && !InSub(path, "http_headers") && !InSub(path, "env_http_headers") && !InSub(path, "env")
  {}

  lemma OtherRow(lines: seq<string>, i: nat, w: Work, t: string, key: string, value: string)
    requires i < |lines| && StmtOf(t, true) == Assign(key, value)
    requires w.cur == PUNK && key !in RECOGNISED
    ensures KeyLine(lines, i, w, t).Next? <==> (Bracketed(value) ==> BracketsClose(lines, i, value))
    ensures KeyLine(lines, i, w, t).Next? ==> KeyLine(lines, i, w, t) == Next(w, Span(lines, i, PUNK, Assign(key, value)))
  {
    hide ParseKey, ParseHeader, TrimSpace, Fold, PunkField, FieldLine, InPunk, InSub, StringValue, Closes;
    NotSub(w.cur);
    RecognisedExactly(key);
    BracketsFold(lines, i, value);
    hide BracketsClose;
  }

  lemma BracketsFold(lines: seq<string>, i: nat, value: string)
    requires i < |lines|
    ensures BracketsClose(lines, i, value) <==> Fold(lines, i, value, Starts(value, '[')).Some?
  {
    hide Fold, Closes;
    var f := Fold(lines, i, value, Starts(value, '['));
    if f.Some? {
      FoldExactly(lines, i, value, Starts(value, '['), f.value.0, f.value.1, f.value.2);
    }
    if BracketsClose(lines, i, value) {
      var n: nat, body: string, rest: string :| Closes(lines, i, value, Starts(value, '['), n, body, rest);
      FoldExactly(lines, i, value, Starts(value, '['), n, body, rest);
    }
  }

  lemma IdleRow(lines: seq<string>, i: nat, w: Work, t: string, key: string, value: string)
    requires i < |lines| && StmtOf(t, true) == Assign(key, value)
    requires w.cur != Sub("http_headers") && w.cur != Sub("env_http_headers") && w.cur != Sub("env") && w.cur != PUNK
    ensures KeyLine(lines, i, w, t) == Next(w, 0)
  {
    hide ParseKey, ParseHeader, TrimSpace, Fold, PunkField, FieldLine, InPunk, InSub, StringValue;
    SamePath(w.cur);
    SameSub(w.cur, "http_headers");
    SameSub(w.cur, "env_http_headers");
    SameSub(w.cur, "env");
  }

  // ---- one step ---------------------------------------------------------

  /** Whatever is accepted, the state goes on agreeing with the statements. */
  lemma StepKeeps(lines: seq<string>, starts: seq<bool>, i: nat, w: Work, log: seq<Visit>)
    requires |starts| == |lines| && i < |lines| && starts[i] && Agrees(log, w)
    requires Line(lines, starts, i, w).Next?
    ensures var v, o := VisitAt(lines, i, w.cur), Line(lines, starts, i, w);
            o.w.cur == v.table && o.more == Span(lines, i, v.table, v.stmt) && Agrees(log + [v], o.w)
  {
    hide Line, StmtOf, TrimSpace, Agrees, Fine, HeaderLine, ForeignLine, KeyLine, ParseHeader, FarFine, Punkish;
    LineIs(lines, starts, i, w);
    var v, t, w2 := VisitAt(lines, i, w.cur), TrimSpace(lines[i]), Line(lines, starts, i, w).w;
    match v.stmt {
      case Unreadable =>
      case Nothing => InertKeeps(log, v, w, w2);
      case Head(_, _) => HeadStep(log, v, w, t);
      case Far(segs, far) =>
        FarStep(lines, i, w, t, segs, far);
        InertKeeps(log, v, w, w2);
      case Dot(key) =>
        DotStep(lines, i, w, t, key);
        InertKeeps(log, v, w, w2);
      case Assign(key, value) => AssignKeeps(lines, i, w, log, t, key, value);
    }
  }

  lemma AssignKeeps(lines: seq<string>, i: nat, w: Work, log: seq<Visit>, t: string, key: string, value: string)
    requires i < |lines| && StmtOf(t, true) == Assign(key, value) && Agrees(log, w) && KeyLine(lines, i, w, t).Next?
    ensures var v, o := Visit(i, w.cur, Assign(key, value)), KeyLine(lines, i, w, t);
            o.w.cur == v.table && o.more == Span(lines, i, w.cur, v.stmt) && Agrees(log + [v], o.w)
  {
    hide StmtOf, Agrees, KeyLine, FieldLine, Leaves, StringValue, Extra, Punkish;
    var v, w2 := Visit(i, w.cur, Assign(key, value)), KeyLine(lines, i, w, t).w;
    if w.cur == Sub("env") {
      EnvRow(lines, i, w, t, key, value);
      EnvAssign(log, v, w, w2);
    } else if w.cur == PUNK && key in RECOGNISED {
      FieldRow(lines, i, w, t, key, value);
      FieldEffect(lines, i, w.(seenFields := w.seenFields + {key}), key, value);
      FieldAssign(lines, log, v, w, w2);
      LeavesCur(lines, i, w.(seenFields := w.seenFields + {key}), key, value, w2);
    } else {
      if w.cur == Sub("http_headers") || w.cur == Sub("env_http_headers") {
        HeaderRow(lines, i, w, t, key, value);
      } else if w.cur == PUNK {
        OtherRow(lines, i, w, t, key, value);
      } else {
        IdleRow(lines, i, w, t, key, value);
      }
      InertKeeps(log, v, w, w2);
    }
  }

  lemma LeavesCur(lines: seq<string>, i: nat, w: Work, key: string, value: string, w2: Work)
    requires i < |lines| && Leaves(lines, i, w, key, value, w2)
    ensures w2.cur == w.cur
  {
    hide TableOf, IsString, IsKeyword;
  }

  // ---- the headers ------------------------------------------------------

  /** A statement's table was opened by a header. */
  ghost predicate Rooted(log: seq<Visit>, cur: seq<string>) {
    && (cur == [] || Any(log, OpenedBy(cur)))
    && forall u | u in log :: u.table == [] || Any(log, OpenedBy(u.table))
  }

  lemma StaysRooted(lines: seq<string>, i: nat, log: seq<Visit>, cur: seq<string>)
    requires i < |lines| && Rooted(log, cur)
    ensures Rooted(log + [VisitAt(lines, i, cur)], VisitAt(lines, i, cur).table)
  {
    hide Any, OpenedBy, StmtOf, Punkish, TrimSpace;
    MoreTables(log, VisitAt(lines, i, cur));
  }

  /** A header table that is not opened and not set inline says nothing. */
  lemma SilentTable(lines: seq<string>, log: seq<Visit>, cur: seq<string>, name: string)
    requires Rooted(log, cur) && !Any(log, OpenedBy(Sub(name))) && !Any(log, SetBy(name))
    ensures forall k, s :: !Any(log, HeaderBy(lines, name, k, s))
  {
    hide TableSays, IsString;
    forall u | u in log ensures !Sets(u, name) && u.table != Sub(name) {
      SetByNot(log, u, name);
    }
  }

  lemma SetByNot(log: seq<Visit>, u: Visit, name: string)
    requires u in log && !Any(log, SetBy(name))
    ensures !Sets(u, name)
  {
    assert SetBy(name)(u) == Sets(u, name);
  }

  lemma NoHeaders(lines: seq<string>, v: Visit, name: string)
    requires v.stmt.Assign? ==> v.table != Sub(name) && !(v.table == PUNK && v.stmt.key == name)
    ensures forall k, s :: !HeaderSays(lines, v, name, k, s)
  {
    hide TableSays, IsString;
  }

  /** A statement that says nothing of headers keeps them. */
  lemma HeadersKept(lines: seq<string>, log: seq<Visit>, v: Visit, w: Work, w2: Work)
    requires HeadersAgree(lines, log, w) && w2.headers == w.headers && w2.envHeaders == w.envHeaders
    requires forall k, s :: !HeaderSays(lines, v, "http_headers", k, s) && !HeaderSays(lines, v, "env_http_headers", k, s)
    ensures HeadersAgree(lines, log + [v], w2)
  {
    hide Any, HeaderSays, HeaderBy;
    MoreHeaders(lines, log, v);
  }

  /** One more entry of a header table. */
  lemma HeaderEntry(lines: seq<string>, log: seq<Visit>, v: Visit, w: Work, w2: Work, name: string, val: string)
    requires HeadersAgree(lines, log, w) && v.stmt.Assign? && v.table == Sub(name) && IsString(v.stmt.value, val)
    requires (name == "http_headers" && v.stmt.key !in w.headers && w2 == w.(headers := w.headers[v.stmt.key := val]))
             || (name == "env_http_headers" && v.stmt.key !in w.envHeaders && w2 == w.(envHeaders := w.envHeaders[v.stmt.key := val]))
    ensures HeadersAgree(lines, log + [v], w2)
  {
    hide Any, HeaderSays, HeaderBy, IsString;
    MoreHeaders(lines, log, v);
    EntrySays(lines, v, name, val);
    NoHeaders(lines, v, if name == "http_headers" then "env_http_headers" else "http_headers");
  }

  lemma EntrySays(lines: seq<string>, v: Visit, name: string, val: string)
    requires v.stmt.Assign? && v.table == Sub(name) && IsString(v.stmt.value, val)
    ensures forall k, s :: HeaderSays(lines, v, name, k, s) <==> k == v.stmt.key && s == val
  {
    hide IsString, TableSays;
    forall s | IsString(v.stmt.value, s) ensures s == val {
      StringsDiffer(v.stmt.value, s, val);
    }
  }

  /** A whole header table, inline. */
  lemma HeaderTable(lines: seq<string>, log: seq<Visit>, v: Visit, w: Work, w2: Work, name: string)
    requires HeadersAgree(lines, log, w) && v.line < |lines| && v.stmt.Assign? && v.table == PUNK && v.stmt.key == name
    requires forall k, s :: !Any(log, HeaderBy(lines, name, k, s))
    requires (name == "http_headers" && w2.headers == w.headers + TableOf(lines, v.line, v.stmt.value) && w2.envHeaders == w.envHeaders)
             || (name == "env_http_headers" && w2.envHeaders == w.envHeaders + TableOf(lines, v.line, v.stmt.value) && w2.headers == w.headers)
    ensures HeadersAgree(lines, log + [v], w2)
  {
    hide Any, HeaderSays, HeaderBy, TableOf;
    MoreHeaders(lines, log, v);
    InlineSays(lines, v, name);
    NoHeaders(lines, v, if name == "http_headers" then "env_http_headers" else "http_headers");
    var own := if name == "http_headers" then w.headers else w.envHeaders;
    assert forall k :: k in own ==> Holds(own, k, own[k]);
  }

  lemma InlineSays(lines: seq<string>, v: Visit, name: string)
    requires v.line < |lines| && v.stmt.Assign? && v.table == PUNK && v.stmt.key == name
    ensures forall k, s :: HeaderSays(lines, v, name, k, s) <==> Holds(TableOf(lines, v.line, v.stmt.value), k, s)
  {
    hide IsString, TableSays, TableOf;
    forall k, s ensures HeaderSays(lines, v, name, k, s) <==> Holds(TableOf(lines, v.line, v.stmt.value), k, s) {
      TableSaysExactly(lines, v.line, v.stmt.value, k, s);
    }
  }

  /** A header name is new exactly when no statement says it. */
  lemma NewHeader(lines: seq<string>, log: seq<Visit>, w: Work, key: string)
    requires HeadersAgree(lines, log, w)
    ensures key !in w.headers <==> forall s :: !Any(log, HeaderBy(lines, "http_headers", key, s))
    ensures key !in w.envHeaders <==> forall s :: !Any(log, HeaderBy(lines, "env_http_headers", key, s))
  {
    hide Any, HeaderBy;
    assert key in w.headers ==> Holds(w.headers, key, w.headers[key]);
    assert key in w.envHeaders ==> Holds(w.envHeaders, key, w.envHeaders[key]);
  }

  lemma HeadSays(lines: seq<string>, v: Visit, name: string)
    requires !v.stmt.Assign?
    ensures forall k, s :: !HeaderSays(lines, v, name, k, s)
  {}

  /** A statement is accepted exactly when it is fine after those before it. */
  lemma StepExactly(lines: seq<string>, starts: seq<bool>, i: nat, w: Work, log: seq<Visit>)
    requires |starts| == |lines| && i < |lines| && starts[i]
    requires Agrees(log, w) && HeadersAgree(lines, log, w) && Rooted(log, w.cur) && !Clash(log + [VisitAt(lines, i, w.cur)])
    ensures Line(lines, starts, i, w).Next? <==> Fine(lines, log, VisitAt(lines, i, w.cur))
    ensures Line(lines, starts, i, w).Next? ==> HeadersAgree(lines, log + [VisitAt(lines, i, w.cur)], Line(lines, starts, i, w).w)
  {
    hide Line, StmtOf, TrimSpace, Agrees, HeadersAgree, HeaderLine, ForeignLine, KeyLine, ParseHeader, FarFine, Punkish, HeaderSays, Clash, Rooted,
         NamedBy, Any, SetBy, OpenedBy, ValueFine;
    LineIs(lines, starts, i, w);
    var v, t := VisitAt(lines, i, w.cur), TrimSpace(lines[i]);
    match v.stmt {
      case Unreadable =>
      case Assign(key, value) => AssignExactly(lines, i, w, log, t, key, value);
      case _ =>
        HeadSays(lines, v, "http_headers");
        HeadSays(lines, v, "env_http_headers");
        match v.stmt {
          case Head(_, _) => HeadStep(log, v, w, t);
          case Far(segs, far) => FarStep(lines, i, w, t, segs, far);
          case Dot(key) => DotStep(lines, i, w, t, key);
          case _ =>
        }
        if Line(lines, starts, i, w).Next? {
          HeadersKept(lines, log, v, w, Line(lines, starts, i, w).w);
        }
    }
  }

  lemma AssignExactly(lines: seq<string>, i: nat, w: Work, log: seq<Visit>, t: string, key: string, value: string)
    requires i < |lines| && StmtOf(t, true) == Assign(key, value)
    requires Agrees(log, w) && HeadersAgree(lines, log, w) && Rooted(log, w.cur)
    requires !Clash(log + [Visit(i, w.cur, Assign(key, value))])
    ensures var v, o := Visit(i, w.cur, Assign(key, value)), KeyLine(lines, i, w, t);
            (o.Next? <==> Fine(lines, log, v)) && (o.Next? ==> HeadersAgree(lines, log + [v], o.w))
  {
    hide StmtOf, Agrees, HeadersAgree, KeyLine, HeaderSays, Clash, Rooted, Any, SetBy, SetInBy, HeaderBy, OpenedBy, ValueFine,
         StringValue, IsString, Bracketed, BracketsClose, Span;
    var v, o := Visit(i, w.cur, Assign(key, value)), KeyLine(lines, i, w, t);
    AgreesTables(log, w);
    StringSome(value);
    if w.cur == Sub("http_headers") || w.cur == Sub("env_http_headers") {
      HeaderRow(lines, i, w, t, key, value);
      NewHeader(lines, log, w, key);
      var name := if w.cur == Sub("http_headers") then "http_headers" else "env_http_headers";
      assert v.table[2] == name;
      if o.Next? {
        StringExactly(value, StringValue(value).value);
        HeaderEntry(lines, log, v, w, o.w, name, StringValue(value).value);
      }
    } else if w.cur == PUNK && key in RECOGNISED {
      FieldExactly(lines, i, w, log, t, key, value);
    } else {
      if w.cur == Sub("env") {
        EnvRow(lines, i, w, t, key, value);
      } else if w.cur == PUNK {
        OtherRow(lines, i, w, t, key, value);
      } else {
        IdleRow(lines, i, w, t, key, value);
      }
      NoHeaders(lines, v, "http_headers");
      NoHeaders(lines, v, "env_http_headers");
      if o.Next? {
        HeadersKept(lines, log, v, w, o.w);
      }
    }
  }

  lemma FieldExactly(lines: seq<string>, i: nat, w: Work, log: seq<Visit>, t: string, key: string, value: string)
    requires i < |lines| && StmtOf(t, true) == Assign(key, value) && w.cur == PUNK && key in RECOGNISED
    requires Agrees(log, w) && HeadersAgree(lines, log, w) && Rooted(log, w.cur)
    requires !Clash(log + [Visit(i, w.cur, Assign(key, value))])
    ensures var v, o := Visit(i, w.cur, Assign(key, value)), KeyLine(lines, i, w, t);
            (o.Next? <==> Fine(lines, log, v)) && (o.Next? ==> HeadersAgree(lines, log + [v], o.w))
  {
    hide StmtOf, Agrees, HeadersAgree, KeyLine, HeaderSays, Clash, Rooted, Any, SetBy, SetInBy, HeaderBy, OpenedBy, ValueFine,
         StringValue, IsString, IsKeyword, Bracketed, BracketsClose, Span, FieldLine, TableOf;
    var v, o := Visit(i, w.cur, Assign(key, value)), KeyLine(lines, i, w, t);
    AgreesTables(log, w);
    FieldRow(lines, i, w, t, key, value);
    FieldEffect(lines, i, w.(seenFields := w.seenFields + {key}), key, value);
    if o.Next? {
      if key == "http_headers" || key == "env_http_headers" {
        NoTable(log, v);
        SilentTable(lines, log, w.cur, key);
        HeaderTable(lines, log, v, w, o.w, key);
      } else {
        NoHeaders(lines, v, "http_headers");
        NoHeaders(lines, v, "env_http_headers");
        HeadersKept(lines, log, v, w, o.w);
      }
    }
  }

  lemma NoTable(log: seq<Visit>, v: Visit)
    requires !Clash(log + [v]) && v.stmt.Assign? && v.table == PUNK && v.stmt.key in SUBTABLES
    ensures !Any(log, OpenedBy(Sub(v.stmt.key)))
  {
    hide Any, OpenedBy, SetBy, Sub;
    MoreTables(log, v);
    MoreKeys(log, v);
  }

  // ---- the whole file ---------------------------------------------------

  /** The statements from the `n`th on are fine, each after all those before it. */
  ghost predicate FineFrom(lines: seq<string>, all: seq<Visit>, n: nat) {
    forall k | n <= k < |all| :: Fine(lines, all[..k], all[k])
  }

  lemma LinesStep(lines: seq<string>, starts: seq<bool>, i: nat, w: Work)
    requires |starts| == |lines| && i < |lines|
    ensures Lines(lines, starts, i, w) == match Line(lines, starts, i, w)
                                          case Stop(why) => Stop(why)
                                          case Next(v, more) => Lines(lines, starts, i + 1 + more, v)
    ensures !starts[i] ==> Line(lines, starts, i, w) == Next(w, 0)
    ensures Reading(lines, starts, i, w.cur)
            == if !starts[i] then Reading(lines, starts, i + 1, w.cur)
               else
                 var v := VisitAt(lines, i, w.cur);
                 [v] + Reading(lines, starts, i + 1 + Span(lines, i, v.table, v.stmt), v.table)
  {
    hide VisitAt, HeaderLine, KeyLine, ForeignLine, Span, TrimSpace;
  }

  lemma {:induction false} LinesKeep(lines: seq<string>, starts: seq<bool>, i: nat, w: Work, log: seq<Visit>)
    requires |starts| == |lines| && Agrees(log, w)
    ensures Lines(lines, starts, i, w).Next? ==> Agrees(log + Reading(lines, starts, i, w.cur), Lines(lines, starts, i, w).w)
    decreases |lines| - i
  {
    hide Agrees, Line, VisitAt, Span;
    if i >= |lines| {
      assert log + [] == log;
    } else {
      hide Lines, Reading;
      LinesStep(lines, starts, i, w);
      if Line(lines, starts, i, w).Next? {
        var o, v := Line(lines, starts, i, w), VisitAt(lines, i, w.cur);
        if starts[i] {
          StepKeeps(lines, starts, i, w, log);
          LinesKeep(lines, starts, i + 1 + o.more, o.w, log + [v]);
          JoinLog(lines, log, v, Reading(lines, starts, i + 1 + o.more, o.w.cur));
        } else {
          LinesKeep(lines, starts, i + 1, w, log);
        }
      }
    }
  }

  lemma JoinLog(lines: seq<string>, log: seq<Visit>, v: Visit, rest: seq<Visit>)
    ensures log + [v] + rest == log + ([v] + rest)
    ensures var all := log + ([v] + rest);
            && |log| < |all| && all[|log|] == v && all[..|log|] == log
            && (FineFrom(lines, all, |log|) <==> Fine(lines, log, v) && FineFrom(lines, all, |log| + 1))
  {
    hide Fine;
    var all := log + ([v] + rest);
    assert all[..|log|] == log && all[|log|] == v;
  }

  lemma ClashGrows(log: seq<Visit>, rest: seq<Visit>)
    requires Clash(log)
    ensures Clash(log + rest)
  {
    var name :| name in SUBTABLES && Any(log, SetBy(name)) && Any(log, OpenedBy(Sub(name)));
    var a :| a in log && SetBy(name)(a);
    var b :| b in log && OpenedBy(Sub(name))(b);
    assert a in log + rest && b in log + rest;
    hide SetBy, OpenedBy, Sub;
    assert Any(log + rest, SetBy(name)) && Any(log + rest, OpenedBy(Sub(name)));
  }

  lemma {:induction false} LinesExactly(lines: seq<string>, starts: seq<bool>, i: nat, w: Work, log: seq<Visit>)
    requires |starts| == |lines| && Agrees(log, w) && HeadersAgree(lines, log, w) && Rooted(log, w.cur)
    requires !Clash(log + Reading(lines, starts, i, w.cur))
    ensures Lines(lines, starts, i, w).Next? <==> FineFrom(lines, log + Reading(lines, starts, i, w.cur), |log|)
    ensures Lines(lines, starts, i, w).Next? ==> HeadersAgree(lines, log + Reading(lines, starts, i, w.cur), Lines(lines, starts, i, w).w)
    decreases |lines| - i
  {
    hide Agrees, HeadersAgree, Rooted, Clash, Line, VisitAt, Span, Fine;
    if i >= |lines| {
      assert log + [] == log;
    } else {
      hide Lines, Reading, FineFrom;
      LinesStep(lines, starts, i, w);
      if !starts[i] {
        LinesExactly(lines, starts, i + 1, w, log);
      } else {
        var o, v := Line(lines, starts, i, w), VisitAt(lines, i, w.cur);
        var rest := Reading(lines, starts, i + 1 + Span(lines, i, v.table, v.stmt), v.table);
        JoinLog(lines, log, v, rest);
        if Clash(log + [v]) {
          ClashGrows(log + [v], rest);
        }
        StepExactly(lines, starts, i, w, log);
        if o.Next? {
          StepKeeps(lines, starts, i, w, log);
          StaysRooted(lines, i, log, w.cur);
          LinesExactly(lines, starts, i + 1 + o.more, o.w, log + [v]);
        }
      }
    }
  }

  // ---- the verdict ------------------------------------------------------

  /** The statements of the file. */
  function Statements(lines: seq<string>): seq<Visit>
    requires CodeStarts(lines).Some?
  {
    Reading(lines, CodeStarts(lines).value, 0, [])
  }

  /** Two spellings of one header name have different values. */
  ghost predicate Disagree(lines: seq<string>, all: seq<Visit>) {
    exists j, s, k, t ::
      && Any(all, HeaderBy(lines, "http_headers", j, s)) && Any(all, HeaderBy(lines, "http_headers", k, t))
      && Lower(j) == Lower(k) && s != t
  }

  /** The variable is set to something visible. */
  predicate Lives(environ: map<string, string>, name: string) {
    name in environ && TrimSpace(environ[name]) != ""
  }

  /** Two spellings of one header name have different values in the environment. */
  ghost predicate LiveDisagree(lines: seq<string>, all: seq<Visit>, environ: map<string, string>) {
    exists j, s, k, t ::
      && Any(all, HeaderBy(lines, "env_http_headers", j, s)) && Any(all, HeaderBy(lines, "env_http_headers", k, t))
      && Lower(j) == Lower(k) && Lives(environ, s) && Lives(environ, t) && environ[s] != environ[t]
  }

  lemma ConflictIs(lines: seq<string>, all: seq<Visit>, w: Work, environ: map<string, string>)
    requires HeadersAgree(lines, all, w)
    ensures Conflict(w.headers) <==> Disagree(lines, all)
    ensures Conflict(Live(w.envHeaders, environ)) <==> LiveDisagree(lines, all, environ)
  {
    hide HeadersAgree, Conflict, Disagree, LiveDisagree;
    StaticsConflict(lines, all, w);
    LiveConflicts(lines, all, w, environ);
  }

  lemma StaticsConflict(lines: seq<string>, all: seq<Visit>, w: Work)
    requires HeadersAgree(lines, all, w)
    ensures Conflict(w.headers) <==> Disagree(lines, all)
  {
    hide Any, HeaderBy, Lower;
    if Conflict(w.headers) {
      var j, k :| j in w.headers && k in w.headers && Lower(j) == Lower(k) && w.headers[j] != w.headers[k];
      assert Holds(w.headers, j, w.headers[j]) && Holds(w.headers, k, w.headers[k]);
    }
    if Disagree(lines, all) {
      var j, s, k, t :|
        && Any(all, HeaderBy(lines, "http_headers", j, s)) && Any(all, HeaderBy(lines, "http_headers", k, t))
        && Lower(j) == Lower(k) && s != t;
      assert Holds(w.headers, j, s) && Holds(w.headers, k, t);
    }
  }

  lemma LiveConflicts(lines: seq<string>, all: seq<Visit>, w: Work, environ: map<string, string>)
    requires HeadersAgree(lines, all, w)
    ensures Conflict(Live(w.envHeaders, environ)) <==> LiveDisagree(lines, all, environ)
  {
    hide Conflict, LiveDisagree, Any, HeaderBy, Live;
    if Conflict(Live(w.envHeaders, environ)) {
      LiveConflict(lines, all, w.envHeaders, environ);
    }
    if LiveDisagree(lines, all, environ) {
      LiveSpellings(lines, all, w.envHeaders, environ);
    }
  }

  lemma LiveConflict(lines: seq<string>, all: seq<Visit>, env: map<string, string>, environ: map<string, string>)
    requires forall k, s :: Holds(env, k, s) <==> Any(all, HeaderBy(lines, "env_http_headers", k, s))
    requires Conflict(Live(env, environ))
    ensures LiveDisagree(lines, all, environ)
  {
    hide Any, HeaderBy, Lower, TrimSpace, Live, LiveDisagree, Lives;
    LiveIs(env, environ);
    var live := Live(env, environ);
    var j, k :| j in live && k in live && Lower(j) == Lower(k) && live[j] != live[k];
    assert Holds(env, j, env[j]) && Holds(env, k, env[k]);
    DisagreeBy(lines, all, environ, j, env[j], k, env[k]);
  }

  lemma DisagreeBy(lines: seq<string>, all: seq<Visit>, environ: map<string, string>, j: string, s: string, k: string, t: string)
    requires Any(all, HeaderBy(lines, "env_http_headers", j, s)) && Any(all, HeaderBy(lines, "env_http_headers", k, t))
    requires Lower(j) == Lower(k) && Lives(environ, s) && Lives(environ, t) && environ[s] != environ[t]
    ensures LiveDisagree(lines, all, environ)
  {
    hide Any, HeaderBy, Lower, TrimSpace;
  }

  lemma LiveSpellings(lines: seq<string>, all: seq<Visit>, env: map<string, string>, environ: map<string, string>)
    requires forall k, s :: Holds(env, k, s) <==> Any(all, HeaderBy(lines, "env_http_headers", k, s))
    requires LiveDisagree(lines, all, environ)
    ensures Conflict(Live(env, environ))
  {
    LiveIs(env, environ);
    hide Any, HeaderBy, Lower, TrimSpace, Live;
    var j, s, k, t :|
      && Any(all, HeaderBy(lines, "env_http_headers", j, s)) && Any(all, HeaderBy(lines, "env_http_headers", k, t))
      && Lower(j) == Lower(k) && Lives(environ, s) && Lives(environ, t) && environ[s] != environ[t];
    assert Holds(env, j, s) && Holds(env, k, t);
    assert j in Live(env, environ) && k in Live(env, environ);
  }

  lemma LiveIs(env: map<string, string>, environ: map<string, string>)
    ensures forall k :: k in Live(env, environ) <==> k in env && Lives(environ, env[k])
    ensures forall k :: k in Live(env, environ) ==> Live(env, environ)[k] == environ[env[k]]
  {}

  lemma ClashIs(all: seq<Visit>, w: Work)
    requires Agrees(all, w)
    ensures w.inlined * w.subtables != {} <==> Clash(all)
  {
    hide Any, SetBy, OpenedBy, TransportAgrees, ValuesAgree, Sub;
    AgreesTables(all, w);
    if Clash(all) {
      var name :| name in SUBTABLES && Any(all, SetBy(name)) && Any(all, OpenedBy(Sub(name)));
      assert name in w.inlined * w.subtables;
    }
    if w.inlined * w.subtables != {} {
      var name :| name in w.inlined * w.subtables;
    }
  }

  lemma AtStart(lines: seq<string>)
    ensures Agrees([], START) && HeadersAgree(lines, [], START) && Rooted([], [])
  {
    forall p ensures !Any([], p) {
      AnyNone(p);
    }
    hide Any;
  }

  /** The state at the end of the file. */
  lemma AtEnd(lines: seq<string>) returns (o: Outcome)
    requires CodeStarts(lines).Some?
    ensures o == Lines(lines, CodeStarts(lines).value, 0, START)
    ensures o.Next? ==> Agrees(Statements(lines), o.w)
    ensures !Clash(Statements(lines)) ==>
              (o.Next? <==> FineFrom(lines, Statements(lines), 0)) && (o.Next? ==> HeadersAgree(lines, Statements(lines), o.w))
  {
    hide CodeStarts, Lines, Reading, Agrees, HeadersAgree, Clash, FineFrom, Rooted;
    var starts := CodeStarts(lines).value;
    o := Lines(lines, starts, 0, START);
    AtStart(lines);
    assert [] + Statements(lines) == Statements(lines);
    LinesKeep(lines, starts, 0, START, []);
    if !Clash(Statements(lines)) {
      LinesExactly(lines, starts, 0, START, []);
    }
  }

  /** The file is inspected exactly when its strings end, every statement is fine after
      those before it, no header, env or oauth table is given both inline and as a
      table, and no two spellings of a header disagree. */
  lemma InspectedExactly(lines: seq<string>, environ: map<string, string>)
    ensures Inspect(lines, environ).Inspected? <==>
            && CodeStarts(lines).Some?
            && FineFrom(lines, Statements(lines), 0) && !Clash(Statements(lines))
            && !Disagree(lines, Statements(lines)) && !LiveDisagree(lines, Statements(lines), environ)
  {
    hide CodeStarts, Lines, Reading, Statements, Agrees, HeadersAgree, Clash, FineFrom, Disagree, LiveDisagree, Conflict, Contribution, Effective;
    if CodeStarts(lines).Some? {
      var o := AtEnd(lines);
      if o.Next? {
        ClashIs(Statements(lines), o.w);
        if !Clash(Statements(lines)) {
          ConflictIs(lines, Statements(lines), o.w, environ);
        }
      }
    }
  }

  // ---- what an inspected scope says -------------------------------------

  /** Every field of the scope is what the statements say. */
  ghost predicate Tells(all: seq<Visit>, scope: Scope) {
    && (scope.installed <==> Any(all, OpenedBy(PUNK)))
    && (scope.fragment <==> !Any(all, OpenedBy(PUNK)) && exists f :: f in SUBTABLES && Any(all, OpenedBy(Sub(f))))
    && (scope.enabled == Some(true) <==> Any(all, KeywordBy("enabled", "true")))
    && (scope.enabled == Some(false) <==> Any(all, KeywordBy("enabled", "false")))
    && (scope.enabled == None <==> !Any(all, SetBy("enabled")))
    && (forall s :: scope.endpoint == Some(s) <==> Any(all, StringBy("url", s)))
    && (scope.endpoint == None <==> !Any(all, SetBy("url")))
    && (forall s :: scope.bearerEnv == Some(s) <==> Any(all, StringBy("bearer_token_env_var", s)))
    && (scope.bearerEnv == None <==> !Any(all, SetBy("bearer_token_env_var")))
    && (scope.headersHelper <==> Any(all, SetBy("http_headers_helper")))
    && (forall f :: f in scope.transport <==>
          (f in TRANSPORTS && Any(all, SetBy(f))) || (f in SUBTABLES && Any(all, OpenedBy(Sub(f)))))
  }

  /** The headers that decide the namespace and the authorization. */
  ghost predicate TellsHeaders(lines: seq<string>, all: seq<Visit>, scope: Scope) {
    && (forall k, s :: Holds(scope.nsStatic, k, s) <==>
          Lower(k) == "x-punk-namespace" && Any(all, HeaderBy(lines, "http_headers", k, s)))
    && (forall k, s :: Holds(scope.nsEnv, k, s) <==>
          Lower(k) == "x-punk-namespace" && Any(all, HeaderBy(lines, "env_http_headers", k, s)))
    && (forall k :: k in scope.authStatic <==>
          Lower(k) == "authorization" && exists s :: Any(all, HeaderBy(lines, "http_headers", k, s)))
    && (forall k, s :: Holds(scope.authEnv, k, s) <==>
          Lower(k) == "authorization" && Any(all, HeaderBy(lines, "env_http_headers", k, s)))
  }

  lemma ContributionTells(lines: seq<string>, all: seq<Visit>, w: Work, pin: string, headerAuth: bool)
    requires Agrees(all, w) && HeadersAgree(lines, all, w)
    ensures Tells(all, Contribution(w, pin, headerAuth)) && TellsHeaders(lines, all, Contribution(w, pin, headerAuth))
  {
    hide Any, OpenedBy, SetBy, StringBy, KeywordBy, HeaderBy, Lower, Sub, Tells, TellsHeaders, Contribution;
    FieldsTell(all, w, pin, headerAuth);
    HeadersTell(lines, all, w, pin, headerAuth);
  }

  lemma FieldsTell(all: seq<Visit>, w: Work, pin: string, headerAuth: bool)
    requires Agrees(all, w)
    ensures Tells(all, Contribution(w, pin, headerAuth))
  {
    hide Any, OpenedBy, NamedBy, SetBy, SetInBy, StringBy, KeywordBy, Lower, Sub, Spelled;
    var scope := Contribution(w, pin, headerAuth);
    assert w.subtables != {} <==> exists f :: f in SUBTABLES && Any(all, OpenedBy(Sub(f))) by {
      if f :| f in w.subtables {
        assert f in SUBTABLES && Any(all, OpenedBy(Sub(f)));
      }
    }
  }

  lemma HeadersTell(lines: seq<string>, all: seq<Visit>, w: Work, pin: string, headerAuth: bool)
    requires HeadersAgree(lines, all, w)
    ensures TellsHeaders(lines, all, Contribution(w, pin, headerAuth))
  {
    hide Any, HeaderBy, Lower;
    assert forall k :: k in w.headers ==> Holds(w.headers, k, w.headers[k]);
  }

  /** What the inspector reports of an inspected file is what its statements say. */
  lemma ReportedExactly(lines: seq<string>, environ: map<string, string>)
    requires Inspect(lines, environ).Inspected?
    ensures CodeStarts(lines).Some? && Tells(Statements(lines), Inspect(lines, environ).scope)
    ensures TellsHeaders(lines, Statements(lines), Inspect(lines, environ).scope)
  {
    InspectedExactly(lines, environ);
    hide CodeStarts, Lines, Reading, Statements, Agrees, HeadersAgree, Clash, FineFrom, Disagree, LiveDisagree, Conflict, Contribution, Effective, Tells, TellsHeaders;
    var o := AtEnd(lines);
    var eff, live := Effective(o.w.headers, Live(o.w.envHeaders, environ), NAMESPACE_HEADER), Effective(o.w.headers, Live(o.w.envHeaders, environ), AUTH_HEADER);
    ContributionTells(lines, Statements(lines), o.w, if eff.Some? then eff.value else "", live.Some?);
  }

  ghost predicate Spells(lines: seq<string>, all: seq<Visit>, table: string, name: string, k: string, s: string) {
    Lower(k) == name && Any(all, HeaderBy(lines, table, k, s))
  }

  /** The value that is sent under a header name: from the environment if a variable
      that lives is named, else the static one. */
  ghost predicate Sends(lines: seq<string>, all: seq<Visit>, environ: map<string, string>, name: string, sent: Option<string>) {
    && (forall k, e :: Spells(lines, all, "env_http_headers", name, k, e) && Lives(environ, e) ==> sent == Some(environ[e]))
    && ((forall k, e :: Spells(lines, all, "env_http_headers", name, k, e) ==> !Lives(environ, e)) ==>
          && (forall k, s :: Spells(lines, all, "http_headers", name, k, s) ==> sent == Some(s))
          && (sent.Some? ==> exists k, s :: Spells(lines, all, "http_headers", name, k, s)))
  }

  lemma EffectiveSends(lines: seq<string>, all: seq<Visit>, w: Work, environ: map<string, string>, name: string)
    requires HeadersAgree(lines, all, w) && !Conflict(w.headers) && !Conflict(Live(w.envHeaders, environ))
    ensures Sends(lines, all, environ, name, Effective(w.headers, Live(w.envHeaders, environ), name))
  {
    hide Any, HeaderBy, Lower, TrimSpace, Live, ValueOf, Conflict;
    LiveIs(w.envHeaders, environ);
    var live := Live(w.envHeaders, environ);
    forall k, e | Spells(lines, all, "env_http_headers", name, k, e) && Lives(environ, e)
      ensures Effective(w.headers, live, name) == Some(environ[e])
    {
      assert Holds(w.envHeaders, k, e) && k in live;
      OneValue(live, k);
    }
    forall k, s | Spells(lines, all, "http_headers", name, k, s)
      ensures Names(w.headers, name) && ValueOf(w.headers, name) == s
    {
      assert Holds(w.headers, k, s);
      OneValue(w.headers, k);
    }
    if Names(live, name) {
      var k :| k in live && Lower(k) == name;
      assert Holds(w.envHeaders, k, w.envHeaders[k]) && Spells(lines, all, "env_http_headers", name, k, w.envHeaders[k]);
    } else if Names(w.headers, name) {
      var k :| k in w.headers && Lower(k) == name;
      assert Holds(w.headers, k, w.headers[k]) && Spells(lines, all, "http_headers", name, k, w.headers[k]);
    }
  }

  /** The pinned namespace is the header's value, and the entry authorizes by header
      exactly when such a header is sent. */
  lemma PinnedExactly(lines: seq<string>, environ: map<string, string>) returns (pin: Option<string>, auth: Option<string>)
    requires Inspect(lines, environ).Inspected?
    ensures CodeStarts(lines).Some?
    ensures Sends(lines, Statements(lines), environ, "x-punk-namespace", pin)
    ensures Sends(lines, Statements(lines), environ, "authorization", auth)
    ensures Inspect(lines, environ).scope.pin == if pin.Some? then pin.value else ""
    ensures Inspect(lines, environ).scope.headerAuth <==> auth.Some?
  {
    InspectedExactly(lines, environ);
    hide CodeStarts, Lines, Reading, Statements, Agrees, HeadersAgree, Clash, FineFrom, Disagree, LiveDisagree, Conflict, Live, Effective, Sends,
         Spelled;
    var o := AtEnd(lines);
    var live := Live(o.w.envHeaders, environ);
    pin, auth := Effective(o.w.headers, live, NAMESPACE_HEADER), Effective(o.w.headers, live, AUTH_HEADER);
    EffectiveSends(lines, Statements(lines), o.w, environ, NAMESPACE_HEADER);
    EffectiveSends(lines, Statements(lines), o.w, environ, AUTH_HEADER);
  }

  // ---- statements are lines ---------------------------------------------

  /** Each statement is a code line, read under the table the one before left open. */
  lemma {:induction false} StatementIsLine(lines: seq<string>, starts: seq<bool>, i: nat, table: seq<string>, k: nat)
    requires |starts| == |lines| && k < |Reading(lines, starts, i, table)|
    ensures var all := Reading(lines, starts, i, table);
            && i <= all[k].line < |lines| && starts[all[k].line]
            && all[k] == VisitAt(lines, all[k].line, if k == 0 then table else all[k - 1].table)
    decreases |lines| - i
  {
    hide VisitAt, Span;
    if !starts[i] {
      StatementIsLine(lines, starts, i + 1, table, k);
    } else if k > 0 {
      var v := VisitAt(lines, i, table);
      StatementIsLine(lines, starts, i + 1 + Span(lines, i, v.table, v.stmt), v.table, k - 1);
    } else {
      VisitLine(lines, i, table);
    }
  }

  lemma VisitLine(lines: seq<string>, i: nat, table: seq<string>)
    requires i < |lines|
    ensures VisitAt(lines, i, table).line == i
  {}

  /** The statement sets the key of the punk table exactly when its line does. */
  lemma SetIsWritten(lines: seq<string>, u: Visit, key: string, value: string)
    requires CodeStarts(lines).Some? && u in Statements(lines)
    ensures u.line < |lines| && CodeStarts(lines).value[u.line]
    ensures Sets(u, key) && u.stmt.value == value <==> u.table == PUNK && Assigns(TrimSpace(lines[u.line]), key, value)
  {
    hide CodeStarts, Assigns, Reading, StmtOf, TrimSpace;
    var starts, all := CodeStarts(lines).value, Statements(lines);
    var k :| 0 <= k < |all| && all[k] == u;
    StatementIsLine(lines, starts, 0, [], k);
    var table := if k == 0 then [] else all[k - 1].table;
    SamePath(table);
    AssignStmt(TrimSpace(lines[u.line]), Punkish(table), key, value);
    hide Punkish;
    PunkIsPunkish();
  }

  lemma PunkIsPunkish()
    ensures Punkish(PUNK)
  {}

  lemma AssignStmt(t: string, inside: bool, key: string, value: string)
    ensures StmtOf(t, inside) == Assign(key, value) <==> inside && Assigns(t, key, value)
    ensures StmtOf(t, inside).Head? ==> !Assigns(t, key, value)
  {
    AssignsFirst(t, key, value);
    HeadFirst(t, inside);
    hide Assigns, TrimSpace, KeySign, ParseHeader, ParseKeyPath;
    if t != "" && t[0] != '#' && t[0] != '[' {
      StmtExactly(t, key, value);
    }
  }

  lemma HeadFirst(t: string, inside: bool)
    ensures StmtOf(t, inside).Head? ==> t != "" && t[0] == '['
  {
    hide TrimSpace, KeySign, ParseHeader, ParseKeyPath;
  }

  lemma TrimmedHeader(x: string)
    ensures ParseHeader(TrimSpace(x)).Header? ==> Starts(TrimSpace(x), '[')
  {
    TrimAgain(x);
    hide TrimSpace, HeaderClose, TrimBlanks, TrailingOk, SplitKeyPath;
  }

  /** The statement opens a table exactly when its line is a header of that table. */
  lemma HeadIsWritten(lines: seq<string>, u: Visit, path: seq<string>, isArray: bool)
    requires CodeStarts(lines).Some? && u in Statements(lines)
    ensures u.line < |lines| && CodeStarts(lines).value[u.line]
    ensures u.stmt == Head(path, isArray) <==> TomlHeaders.Opens(TrimSpace(lines[u.line]), path, isArray)
  {
    hide CodeStarts, TomlHeaders.Opens, Reading, StmtOf, TrimSpace, ParseHeader;
    var starts, all := CodeStarts(lines).value, Statements(lines);
    var k :| 0 <= k < |all| && all[k] == u;
    StatementIsLine(lines, starts, 0, [], k);
    HeadStmt(lines[u.line], Punkish(if k == 0 then [] else all[k - 1].table), path, isArray);
    TrimAgain(lines[u.line]);
    HeaderExactly(TrimSpace(lines[u.line]), path, isArray);
  }

  lemma HeadStmt(x: string, inside: bool, path: seq<string>, isArray: bool)
    ensures StmtOf(TrimSpace(x), inside) == Head(path, isArray) <==> ParseHeader(TrimSpace(x)) == Header(path, isArray)
  {
    TrimmedHeader(x);
    hide KeySign, ParseKeyPath, TrimSpace, ParseHeader;
  }

  lemma AssignsFirst(t: string, key: string, value: string)
    ensures Assigns(t, key, value) ==> t != "" && t[0] != '#' && t[0] != '['
  {
    hide Signs, TrimSpace;
    if Assigns(t, key, value) {
      var rest: string :| Signs(t, key, '=', rest) && value == TrimSpace(rest);
      SignsFirst(t, key, rest);
    }
  }

  lemma SignsFirst(t: string, key: string, rest: string)
    requires Signs(t, key, '=', rest)
    ensures t != "" && t[0] != '#' && t[0] != '['
  {
    var k: string, a: string :| t == k + a + ['='] + rest && KeyText(k, key) && AllSpace(a);
    KeyFirst(k);
    hide KeyText, AllSpace;
    assert t[0] == k[0];
  }

  lemma KeyFirst(k: string)
    requires ParseKey(k).Good?
    ensures k != "" && k[0] != '#' && k[0] != '['
  {
    hide ParseString;
  }

  /** A code line under an open [mcp_servers.punk] gives the key this value. */
  ghost predicate Written(lines: seq<string>, u: Visit, key: string, value: string)
    requires u.line < |lines|
  {
    u.table == PUNK && Assigns(TrimSpace(lines[u.line]), key, value)
  }

  ghost predicate SetOnLine(lines: seq<string>, key: string)
    requires CodeStarts(lines).Some?
  {
    exists u, v :: u in Statements(lines) && u.line < |lines| && Written(lines, u, key, v)
  }

  ghost predicate StringOnLine(lines: seq<string>, key: string, s: string)
    requires CodeStarts(lines).Some?
  {
    exists u, v :: u in Statements(lines) && u.line < |lines| && Written(lines, u, key, v) && IsString(v, s)
  }

  ghost predicate KeywordOnLine(lines: seq<string>, key: string, word: string)
    requires CodeStarts(lines).Some?
  {
    exists u, v :: u in Statements(lines) && u.line < |lines| && Written(lines, u, key, v) && IsKeyword(v, word)
  }

  lemma AllWritten(lines: seq<string>, key: string)
    requires CodeStarts(lines).Some?
    ensures forall u | u in Statements(lines) :: u.line < |lines|
    ensures forall u, v | u in Statements(lines) :: Sets(u, key) && u.stmt.value == v <==> Written(lines, u, key, v)
  {
    hide CodeStarts, Statements, Written;
    forall u | u in Statements(lines) ensures u.line < |lines| {
      SetIsWritten(lines, u, key, "");
    }
    forall u, v | u in Statements(lines)
      ensures Sets(u, key) && u.stmt.value == v <==> Written(lines, u, key, v)
    {
      SetIsWritten(lines, u, key, v);
      WrittenIs(lines, u, key, v);
    }
  }

  lemma WrittenIs(lines: seq<string>, u: Visit, key: string, v: string)
    requires u.line < |lines|
    ensures Written(lines, u, key, v) <==> u.table == PUNK && Assigns(TrimSpace(lines[u.line]), key, v)
  {
    hide Assigns, TrimSpace;
  }

  /** What the statements say of a key is what some line says. */
  lemma SaidIsWritten(lines: seq<string>, key: string)
    requires CodeStarts(lines).Some?
    ensures Any(Statements(lines), SetBy(key)) <==> SetOnLine(lines, key)
    ensures forall s :: Any(Statements(lines), StringBy(key, s)) <==> StringOnLine(lines, key, s)
    ensures forall word :: Any(Statements(lines), KeywordBy(key, word)) <==> KeywordOnLine(lines, key, word)
  {
    AllWritten(lines, key);
    hide CodeStarts, Statements, IsString, IsKeyword, Written;
    var all := Statements(lines);
    if Any(all, SetBy(key)) {
      var u :| u in all && Sets(u, key);
      assert Written(lines, u, key, u.stmt.value);
    }
    forall s | Any(all, StringBy(key, s)) ensures StringOnLine(lines, key, s) {
      var u :| u in all && SetsString(u, key, s);
      assert Written(lines, u, key, u.stmt.value);
    }
    forall word | Any(all, KeywordBy(key, word)) ensures KeywordOnLine(lines, key, word) {
      var u :| u in all && SetsKeyword(u, key, word);
      assert Written(lines, u, key, u.stmt.value);
    }
    LinesSay(lines, key);
  }

  lemma LinesSay(lines: seq<string>, key: string)
    requires CodeStarts(lines).Some?
    requires forall u, v | u in Statements(lines) && u.line < |lines| && Written(lines, u, key, v) :: Sets(u, key) && u.stmt.value == v
    ensures SetOnLine(lines, key) ==> Any(Statements(lines), SetBy(key))
    ensures forall s | StringOnLine(lines, key, s) :: Any(Statements(lines), StringBy(key, s))
    ensures forall word | KeywordOnLine(lines, key, word) :: Any(Statements(lines), KeywordBy(key, word))
  {
    hide CodeStarts, Statements, IsString, IsKeyword, Written;
    var all := Statements(lines);
    if SetOnLine(lines, key) {
      var u, v :| u in all && u.line < |lines| && Written(lines, u, key, v);
      assert SetBy(key)(u);
    }
    forall s | StringOnLine(lines, key, s) ensures Any(all, StringBy(key, s)) {
      var u, v :| u in all && u.line < |lines| && Written(lines, u, key, v) && IsString(v, s);
      assert StringBy(key, s)(u);
    }
    forall word | KeywordOnLine(lines, key, word) ensures Any(all, KeywordBy(key, word)) {
      var u, v :| u in all && u.line < |lines| && Written(lines, u, key, v) && IsKeyword(v, word);
      assert KeywordBy(key, word)(u);
    }
  }

  /** An inspected entry is switched on or off, has a URL and a token variable, exactly
      as a code line under [mcp_servers.punk] says: the key, an equals sign, and the
      word or one string, with nothing after it but white space or a comment. Each
      recognised key counts for the transport exactly when a line sets it, or a table
      of its own is opened. */
  lemma FieldsAreWritten(lines: seq<string>, environ: map<string, string>)
    requires Inspect(lines, environ).Inspected?
    ensures CodeStarts(lines).Some?
    ensures var scope := Inspect(lines, environ).scope;
            && (scope.enabled == Some(true) <==> KeywordOnLine(lines, "enabled", "true"))
            && (scope.enabled == Some(false) <==> KeywordOnLine(lines, "enabled", "false"))
            && (scope.enabled == None <==> !SetOnLine(lines, "enabled"))
            && (forall s :: scope.endpoint == Some(s) <==> StringOnLine(lines, "url", s))
            && (scope.endpoint == None <==> !SetOnLine(lines, "url"))
            && (forall s :: scope.bearerEnv == Some(s) <==> StringOnLine(lines, "bearer_token_env_var", s))
            && (scope.bearerEnv == None <==> !SetOnLine(lines, "bearer_token_env_var"))
            && (forall f :: f in scope.transport <==>
                  (f in TRANSPORTS && SetOnLine(lines, f)) || (f in SUBTABLES && Any(Statements(lines), OpenedBy(Sub(f)))))
  {
    hide Inspect, CodeStarts, Statements, SetOnLine, StringOnLine, KeywordOnLine, Any, SetBy, StringBy, KeywordBy, OpenedBy, Sub, TellsHeaders;
    ReportedExactly(lines, environ);
    AllSaid(lines);
  }

  lemma AllSaid(lines: seq<string>)
    requires CodeStarts(lines).Some?
    ensures forall key :: Any(Statements(lines), SetBy(key)) <==> SetOnLine(lines, key)
    ensures forall key, s :: Any(Statements(lines), StringBy(key, s)) <==> StringOnLine(lines, key, s)
    ensures forall key, word :: Any(Statements(lines), KeywordBy(key, word)) <==> KeywordOnLine(lines, key, word)
  {
    hide CodeStarts, Statements, SetOnLine, StringOnLine, KeywordOnLine, Any, SetBy, StringBy, KeywordBy;
    forall key ensures Any(Statements(lines), SetBy(key)) <==> SetOnLine(lines, key) {
      SaidIsWritten(lines, key);
    }
    forall key, s ensures Any(Statements(lines), StringBy(key, s)) <==> StringOnLine(lines, key, s) {
      SaidIsWritten(lines, key);
    }
    forall key, word ensures Any(Statements(lines), KeywordBy(key, word)) <==> KeywordOnLine(lines, key, word) {
      SaidIsWritten(lines, key);
    }
  }
}
