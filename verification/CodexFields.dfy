/** What each recognised field of [mcp_servers.punk] takes and leaves, said of its
    value. */
module CodexFields {
  import opened Text
  import opened TomlString
  import opened TomlParse
  import opened TomlCut
  import opened TomlPairs
  import opened CodexInspect
  import opened CodexLines
  import opened TomlKeys
  import opened CodexReading

  // ---- list elements ----------------------------------------------------

  lemma TrimmedEnd(x: string, y: string)
    requires TrimSpace(y) == x && x != ""
    ensures !IsSpace(x[0]) && !IsSpace(x[|x| - 1])
  {
    TrimEnds(y);
    hide TrimSpace, IsSpace;
  }

  lemma TrimAgain(y: string)
    ensures TrimSpace(TrimSpace(y)) == TrimSpace(y)
  {
    var x := TrimSpace(y);
    hide *;
    if x != "" {
      TrimmedEnd(x, y);
    }
    TrimmedAlready(x);
  }

  lemma SpaceAtEnd(x: string, r: string, y: string)
    requires TrimSpace(y) == x + r && TrimSpace(r) == ""
    ensures r == ""
  {
    hide *;
    if r != "" {
      assert (x + r)[|x + r| - 1] == r[|r| - 1];
      TrimmedEnd(x + r, y);
      AllTrimmed(r);
    }
  }

  lemma AllTrimmed(r: string)
    requires TrimSpace(r) == "" && r != ""
    ensures IsSpace(r[|r| - 1])
  {
    var a, b := TrimParts(r);
    hide TrimSpace, IsSpace;
    assert r == a + b;
    SpaceJoin(a, b);
  }

  lemma StringElemExactly(el: string)
    ensures StringElemOk(el) <==> StringElem(el)
  {
    var e := TrimSpace(el);
    hide ParseString, TrimSpace;
    if StringElemOk(el) {
      var p := ParseString(e);
      var v := ValueCut(e);
      SpaceAtEnd(v, p.rest, el);
      assert v + p.rest == v;
    }
    if StringElem(el) {
      TrimmedAlready("");
    }
  }

  lemma SameElem(e: string, el: string)
    requires TrimSpace(e) == TrimSpace(el)
    ensures StringElem(e) == StringElem(el)
  {}

  lemma TableElemExactly(el: string)
    ensures EnvVarElemOk(el) <==> StringElem(el) || TableElem(el)
  {
    var e := TrimSpace(el);
    TrimAgain(el);
    SameElem(e, el);
    StringElemExactly(e);
    StringElemExactly(el);
    CutIs(e, false, CutValue(e, false));
    hide StringElemOk, TrimSpace, CutValue, IsCut, StringElem;
    if TableElem(el) {
      var body: string, rest: string :| IsCut(e, false, Cut(body, rest)) && TrimSpace(rest) == "";
      CutIs(e, false, Cut(body, rest));
    }
  }

  // ---- bracketed values -------------------------------------------------

  /** An inline table is taken when it closes, nothing follows it, and it holds pairs. */
  lemma TableEffect(lines: seq<string>, i: nat, w: Work, key: string, value: string)
    requires i < |lines| && key in SUBTABLES
    ensures TableField(lines, i, w, key, value).Next?
            <==> if key == "oauth" then AnyTable(lines, i, value) else PairTable(lines, i, value)
    ensures var o := TableField(lines, i, w, key, value);
            o.Next? ==>
              && o.more == Extra(lines, i, value)
              && o.w == w.(transport := w.transport + {key}, inlined := w.inlined + {key}, headers := o.w.headers, envHeaders := o.w.envHeaders)
              && (key != "http_headers" ==> o.w.headers == w.headers)
              && (key != "env_http_headers" ==> o.w.envHeaders == w.envHeaders)
              && (key == "http_headers" ==> o.w.headers == w.headers + TableOf(lines, i, value))
              && (key == "env_http_headers" ==> o.w.envHeaders == w.envHeaders + TableOf(lines, i, value))
  {
    TableFacts(lines, i, value);
    hide Fold, InlinePairs, TrailingOk, AnyTable, PairTable;
  }

  lemma TableFacts(lines: seq<string>, i: nat, value: string)
    requires i < |lines|
    ensures var f := Fold(lines, i, value, false);
            && (AnyTable(lines, i, value) <==> Starts(value, '{') && f.Some? && TrailingOk(f.value.2))
            && (PairTable(lines, i, value) <==> AnyTable(lines, i, value) && InlinePairs(f.value.1).Some?)
  {
    hide Fold, Closes, InlinePairs, IsTable, Trails, TrailingOk;
    var f := Fold(lines, i, value, false);
    if f.Some? {
      FoldExactly(lines, i, value, false, f.value.0, f.value.1, f.value.2);
      TrailingExactly(f.value.2);
      PairsExactly(f.value.1);
    }
    if AnyTable(lines, i, value) {
      var n: nat, body: string, rest: string :| Closes(lines, i, value, false, n, body, rest) && Trails(rest);
      FoldExactly(lines, i, value, false, n, body, rest);
    }
    if PairTable(lines, i, value) {
      var n: nat, body: string, rest: string, t: Table :| Closes(lines, i, value, false, n, body, rest) && Trails(rest) && IsTable(t, body);
      FoldExactly(lines, i, value, false, n, body, rest);
    }
  }

  /** The pairs of an inline table that begins on line `i`. */
  function TableOf(lines: seq<string>, i: nat, value: string): map<string, string>
    requires i < |lines|
  {
    var f := Fold(lines, i, value, false);
    if f.None? then map[]
    else
      var pairs := InlinePairs(f.value.1);
      if pairs.Some? then pairs.value else map[]
  }

  lemma TableSaysExactly(lines: seq<string>, i: nat, value: string, k: string, s: string)
    requires i < |lines|
    ensures TableSays(lines, i, value, k, s) <==> k in TableOf(lines, i, value) && TableOf(lines, i, value)[k] == s
  {
    hide Fold, Closes, InlinePairs, IsTable, MapOf;
    var f := Fold(lines, i, value, false);
    if f.Some? {
      FoldExactly(lines, i, value, false, f.value.0, f.value.1, f.value.2);
      PairsExactly(f.value.1);
    }
    if TableSays(lines, i, value, k, s) {
      var n: nat, body: string, rest: string, t: Table :|
        Closes(lines, i, value, false, n, body, rest) && IsTable(t, body) && k in MapOf(t.pairs) && MapOf(t.pairs)[k] == s;
      FoldExactly(lines, i, value, false, n, body, rest);
    }
  }

  /** A list is taken when it closes, nothing follows it, and its elements are of the
      kinds its key takes. */
  lemma ListEffect(lines: seq<string>, i: nat, w: Work, key: string, value: string)
    requires i < |lines| && key in LISTS
    ensures ArrayField(lines, i, w, key, value).Next? <==> ListOf(lines, i, value, key == "env_vars")
    ensures ArrayField(lines, i, w, key, value).Next? ==>
              ArrayField(lines, i, w, key, value) == Next(w.(transport := w.transport + {key}), Extra(lines, i, value))
  {
    hide Fold, SplitElems, TrailingOk, ListOf, StringElem, TableElem, StringElemOk, EnvVarElemOk;
    ListFacts(lines, i, value, key == "env_vars");
    ElemsExactly();
  }

  lemma ElemsExactly()
    ensures forall el :: StringElemOk(el) <==> StringElem(el)
    ensures forall el :: EnvVarElemOk(el) <==> StringElem(el) || TableElem(el)
  {
    forall el ensures (StringElemOk(el) <==> StringElem(el)) && (EnvVarElemOk(el) <==> StringElem(el) || TableElem(el)) {
      StringElemExactly(el);
      TableElemExactly(el);
    }
  }

  lemma ListFacts(lines: seq<string>, i: nat, value: string, tables: bool)
    requires i < |lines|
    ensures var f := Fold(lines, i, value, true);
            ListOf(lines, i, value, tables)
            <==> Starts(value, '[') && f.Some? && TrailingOk(f.value.2) && SplitElems(f.value.1).Some?
                 && forall el | el in SplitElems(f.value.1).value :: StringElem(el) || (tables && TableElem(el))
  {
    hide Fold, Closes, SplitElems, Trails, TrailingOk, StringElem, TableElem;
    var f := Fold(lines, i, value, true);
    if f.Some? {
      FoldExactly(lines, i, value, true, f.value.0, f.value.1, f.value.2);
      TrailingExactly(f.value.2);
    }
    if ListOf(lines, i, value, tables) {
      var n: nat, body: string, rest: string :| Closes(lines, i, value, true, n, body, rest) && Trails(rest)
        && SplitElems(body).Some?
        && forall el | el in SplitElems(body).value :: StringElem(el) || (tables && TableElem(el));
      FoldExactly(lines, i, value, true, n, body, rest);
    }
  }

  // ---- one recognised field ---------------------------------------------

  lemma StringsDiffer(value: string, s: string, t: string)
    requires IsString(value, s) && IsString(value, t)
    ensures s == t
  {
    hide IsString, StringValue;
    StringExactly(value, s);
    StringExactly(value, t);
  }

  lemma KeywordsDiffer(value: string)
    ensures !(IsKeyword(value, "true") && IsKeyword(value, "false"))
  {
    KeywordFirst(value, "true");
    KeywordFirst(value, "false");
  }

  lemma KeywordFirst(value: string, word: string)
    ensures IsKeyword(value, word) && word != "" ==> value != "" && value[0] == word[0]
  {}

  /** What the field leaves in the state. */
  ghost predicate Leaves(lines: seq<string>, i: nat, w: Work, key: string, value: string, w2: Work)
    requires i < |lines|
  {
    && w2 == w.(endpoint := w2.endpoint, bearerEnv := w2.bearerEnv, enabled := w2.enabled,
                headers := w2.headers, envHeaders := w2.envHeaders,
                transport := if key in TRANSPORTS then w.transport + {key} else w.transport,
                inlined := if key in SUBTABLES then w.inlined + {key} else w.inlined)
    && (if key == "url" then w2.endpoint.Some? && IsString(value, w2.endpoint.value) else w2.endpoint == w.endpoint)
    && (if key == "bearer_token_env_var" then w2.bearerEnv.Some? && IsString(value, w2.bearerEnv.value)
        else w2.bearerEnv == w.bearerEnv)
    && (if key == "enabled" then w2.enabled.Some? && IsKeyword(value, if w2.enabled.value then "true" else "false")
        else w2.enabled == w.enabled)
    && w2.headers == (if key == "http_headers" then w.headers + TableOf(lines, i, value) else w.headers)
    && w2.envHeaders == (if key == "env_http_headers" then w.envHeaders + TableOf(lines, i, value) else w.envHeaders)
  }

  lemma IdentityField(lines: seq<string>, i: nat, w: Work, key: string, value: string)
    requires i < |lines| && key in STRINGS
    ensures FieldLine(lines, i, w, key, value).Next? <==> StringValue(value).Some?
    ensures FieldLine(lines, i, w, key, value).Next? ==>
              FieldLine(lines, i, w, key, value) ==
              Next(w.(transport := w.transport + {key},
                      endpoint := if key == "url" then StringValue(value) else w.endpoint,
                      bearerEnv := if key == "bearer_token_env_var" then StringValue(value) else w.bearerEnv), 0)
  {
    hide StringValue;
  }

  lemma AuthField(lines: seq<string>, i: nat, w: Work, value: string)
    requires i < |lines|
    ensures FieldLine(lines, i, w, "auth", value).Next? <==> StringValue(value) == Some("oauth") || StringValue(value) == Some("chatgpt")
    ensures FieldLine(lines, i, w, "auth", value).Next? ==>
              FieldLine(lines, i, w, "auth", value) == Next(w.(transport := w.transport + {"auth"}), 0)
  {
    hide StringValue;
  }

  lemma StringField(lines: seq<string>, i: nat, w: Work, key: string, value: string)
    requires i < |lines| && (key in STRINGS || key == "auth")
    ensures FieldLine(lines, i, w, key, value).Next? <==> ValueFine(lines, i, key, value)
    ensures FieldLine(lines, i, w, key, value).Next? ==>
              Leaves(lines, i, w, key, value, FieldLine(lines, i, w, key, value).w) && FieldLine(lines, i, w, key, value).more == 0
  {
    hide StringValue, IsString, IsKeyword, FieldLine, TableOf, PairTable, AnyTable, ListOf;
    StringSome(value);
    if StringValue(value).Some? {
      StringExactly(value, StringValue(value).value);
    }
    StringExactly(value, "oauth");
    StringExactly(value, "chatgpt");
    if key == "auth" {
      AuthField(lines, i, w, value);
    } else {
      IdentityField(lines, i, w, key, value);
    }
  }

  lemma SwitchField(lines: seq<string>, i: nat, w: Work, value: string)
    requires i < |lines|
    ensures FieldLine(lines, i, w, "enabled", value).Next? <==> ValueFine(lines, i, "enabled", value)
    ensures FieldLine(lines, i, w, "enabled", value).Next? ==>
              Leaves(lines, i, w, "enabled", value, FieldLine(lines, i, w, "enabled", value).w) && FieldLine(lines, i, w, "enabled", value).more == 0
  {
    hide KeywordValue, IsKeyword, TableOf, PairTable, AnyTable, ListOf;
    KeywordExactly(value, "true");
    KeywordExactly(value, "false");
  }

  /** A recognised field is accepted exactly when its value is of the kind the key
      takes, and leaves in the state what the value says. */
  lemma FieldEffect(lines: seq<string>, i: nat, w: Work, key: string, value: string)
    requires i < |lines| && key in RECOGNISED
    ensures FieldLine(lines, i, w, key, value).Next? <==> ValueFine(lines, i, key, value)
    ensures FieldLine(lines, i, w, key, value).Next? ==>
              && Leaves(lines, i, w, key, value, FieldLine(lines, i, w, key, value).w)
              && FieldLine(lines, i, w, key, value).more == Span(lines, i, PUNK, Assign(key, value))
  {
    hide FieldLine, ValueFine, Leaves, Span;
    SpanNone(lines, i, key, value);
    if key in STRINGS || key == "auth" {
      StringField(lines, i, w, key, value);
    } else if key == "enabled" {
      SwitchField(lines, i, w, value);
    } else {
      BracketField(lines, i, w, key, value);
    }
  }

  lemma SpanNone(lines: seq<string>, i: nat, key: string, value: string)
    requires i < |lines|
    ensures key in STRINGS || key == "auth" || key == "enabled" ==> Span(lines, i, PUNK, Assign(key, value)) == 0
  {
    hide Extra;
  }

  lemma BracketField(lines: seq<string>, i: nat, w: Work, key: string, value: string)
    requires i < |lines| && key in RECOGNISED && key !in STRINGS && key != "auth" && key != "enabled"
    ensures FieldLine(lines, i, w, key, value).Next? <==> ValueFine(lines, i, key, value)
    ensures FieldLine(lines, i, w, key, value).Next? ==>
              && Leaves(lines, i, w, key, value, FieldLine(lines, i, w, key, value).w)
              && FieldLine(lines, i, w, key, value).more == Span(lines, i, PUNK, Assign(key, value))
  {
    hide FieldLine, ValueFine, Leaves, Span;
    if key in SUBTABLES {
      TableKeyField(lines, i, w, key, value);
    } else if key in LISTS {
      ListKeyField(lines, i, w, key, value);
    } else {
      KnobField(lines, i, w, key, value);
    }
  }

  lemma TableKeyField(lines: seq<string>, i: nat, w: Work, key: string, value: string)
    requires i < |lines| && key in SUBTABLES
    ensures FieldLine(lines, i, w, key, value).Next? <==> ValueFine(lines, i, key, value)
    ensures FieldLine(lines, i, w, key, value).Next? ==>
              && Leaves(lines, i, w, key, value, FieldLine(lines, i, w, key, value).w)
              && FieldLine(lines, i, w, key, value).more == Span(lines, i, PUNK, Assign(key, value))
  {
    hide TableOf, PairTable, AnyTable, ListOf, TableField, Extra, FieldLine, Span;
    TableIsTable(lines, i, w, key, value);
    SpanIs(lines, i, key, value);
    TableEffect(lines, i, w, key, value);
    BracketFirst(lines, i, value, false);
  }

  lemma ListKeyField(lines: seq<string>, i: nat, w: Work, key: string, value: string)
    requires i < |lines| && key in LISTS
    ensures FieldLine(lines, i, w, key, value).Next? <==> ValueFine(lines, i, key, value)
    ensures FieldLine(lines, i, w, key, value).Next? ==>
              && Leaves(lines, i, w, key, value, FieldLine(lines, i, w, key, value).w)
              && FieldLine(lines, i, w, key, value).more == Span(lines, i, PUNK, Assign(key, value))
  {
    hide ValueFine, Leaves, TableOf, PairTable, AnyTable, ListOf, ArrayField, Extra, FieldLine, Span;
    ListIsArray(lines, i, w, key, value);
    SpanIs(lines, i, key, value);
    ListEffect(lines, i, w, key, value);
    BracketFirst(lines, i, value, key == "env_vars");
    ListFine(lines, i, w, key, value);
  }

  lemma ListIsArray(lines: seq<string>, i: nat, w: Work, key: string, value: string)
    requires i < |lines| && key in LISTS
    ensures FieldLine(lines, i, w, key, value) == ArrayField(lines, i, w, key, value)
  {
    hide ArrayField, TableField, StringValue, KeywordValue, KindOf;
    Kinds(key);
  }

  lemma Kinds(key: string)
    ensures key in SUBTABLES ==> KindOf(key).InlineTable?
    ensures key in LISTS ==> KindOf(key).Elements?
  {}

  lemma TableIsTable(lines: seq<string>, i: nat, w: Work, key: string, value: string)
    requires i < |lines| && key in SUBTABLES
    ensures FieldLine(lines, i, w, key, value) == TableField(lines, i, w, key, value)
  {
    hide ArrayField, TableField, StringValue, KeywordValue, KindOf;
    Kinds(key);
  }

  lemma SpanIs(lines: seq<string>, i: nat, key: string, value: string)
    requires i < |lines| && key in SUBTABLES + LISTS
    ensures Span(lines, i, PUNK, Assign(key, value)) == if Bracketed(value) then Extra(lines, i, value) else 0
  {
    hide Extra;
  }

  lemma ListFine(lines: seq<string>, i: nat, w: Work, key: string, value: string)
    requires i < |lines| && key in LISTS
    ensures ValueFine(lines, i, key, value) <==> ListOf(lines, i, value, key == "env_vars")
    ensures Leaves(lines, i, w, key, value, w.(transport := w.transport + {key}))
  {
    hide TableOf, PairTable, AnyTable, ListOf, IsString, IsKeyword;
  }

  lemma KnobField(lines: seq<string>, i: nat, w: Work, key: string, value: string)
    requires i < |lines| && key in RECOGNISED && key !in STRINGS + SUBTABLES + LISTS && key != "auth" && key != "enabled"
    ensures FieldLine(lines, i, w, key, value) == Next(w, 0) && ValueFine(lines, i, key, value)
    ensures Leaves(lines, i, w, key, value, w) && Span(lines, i, PUNK, Assign(key, value)) == 0
  {
    hide TableOf, PairTable, AnyTable, ListOf, Extra;
  }

  lemma BracketFirst(lines: seq<string>, i: nat, value: string, tables: bool)
    ensures PairTable(lines, i, value) || AnyTable(lines, i, value) || ListOf(lines, i, value, tables) ==> Bracketed(value)
  {}
}
