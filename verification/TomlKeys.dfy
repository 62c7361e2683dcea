/** Dotted keys and the keys of an inline table, said of the text that is read. */
module TomlKeys {
  import opened Text
  import opened TomlString
  import opened TomlParse
  import opened TomlCut
  import opened TomlPairs
  import opened CodexLines

  // ---- dotted keys ------------------------------------------------------

  /** One key with the white space around it. */
  datatype Part = Part(lead: string, k: string, trail: string, key: string) {
    ghost predicate Good() {
      AllSpace(lead) && AllSpace(trail) && KeyText(k, key)
    }
  }

  /** The keys with dots between. */
  function PathText(parts: seq<Part>): string {
    if parts == [] then ""
    else parts[0].lead + parts[0].k + parts[0].trail + if |parts| == 1 then "" else "." + PathText(parts[1..])
  }

  function Keys(parts: seq<Part>): seq<string> {
    seq(|parts|, i requires 0 <= i < |parts| => parts[i].key)
  }

  /** What may follow a dotted key so that the key ends there. */
  predicate EndsKey(rest: string) {
    rest == "" || (!IsSpace(rest[0]) && rest[0] != '.' && !IsQuote(rest[0]) && !BareKeyChar(rest[0]))
  }

  lemma PathStep(s: string, key: string, r: string)
    requires ParseKey(TrimSpace(s)) == Good(key, r)
    ensures ParseKeyPath(s) ==
            var t := TrimSpace(r);
            if !Starts(t, '.') then Some(([key], t))
            else
              match ParseKeyPath(t[1..])
              case None => None
              case Some(more) => Some(([key] + more.0, more.1))
  {
    hide ParseKey, TrimSpace;
  }

  lemma PathOfTrimmed(x: string, y: string)
    requires TrimSpace(x) == TrimSpace(y)
    ensures ParseKeyPath(x) == ParseKeyPath(y)
  {
    hide ParseKey, TrimSpace;
  }

  lemma SpaceFirst(a: string, y: string)
    requires AllSpace(a) && (y == "" || (!IsQuote(y[0]) && !BareKeyChar(y[0])))
    ensures a + y == "" || (!IsQuote((a + y)[0]) && !BareKeyChar((a + y)[0]))
  {
    if a != "" {
      assert (a + y)[0] == a[0] && IsSpace(a[0]);
    } else {
      assert a + y == y;
    }
  }

  /** One key, read at the front of a text. */
  lemma ReadPart(p: Part, y: string)
    requires p.Good() && (y == "" || (!IsQuote(y[0]) && !BareKeyChar(y[0])))
    ensures ParseKey(TrimSpace(p.lead + p.k + p.trail + y)) == Good(p.key, TrimRight(p.trail + y))
  {
    hide *;
    PartHas(p);
    KeyEnds(p.k, p.key);
    SpaceFirst(p.trail, y);
    var r := p.trail + y;
    Assoc(p.lead + p.k, p.trail, y);
    Front(p.lead, p.k, r);
    TrimRightHead(r);
    KeyThen(p.k, p.key, TrimRight(r));
  }

  lemma PartHas(p: Part)
    requires p.Good()
    ensures AllSpace(p.lead) && AllSpace(p.trail) && KeyText(p.k, p.key)
  {}

  lemma SpacedOut(a: string, rest: string)
    requires AllSpace(a) && (rest == "" || !IsSpace(rest[0]))
    ensures TrimSpace(TrimRight(a + rest)) == TrimRight(rest)
  {
    hide *;
    TrimTwice(a + rest);
    if rest == "" {
      assert a + rest == a;
      SpaceTrimmed(a);
      SpaceTrimmed("");
    } else {
      TrimLeftOf(a, rest);
      SpaceTrimmed(a);
      TrimOf(a + rest, rest, TrimRight(rest));
      assert "" + rest == rest;
    }
  }

  lemma ReadLast(p: Part, rest: string)
    requires p.Good() && EndsKey(rest)
    ensures ParseKeyPath(p.lead + p.k + p.trail + rest) == Some(([p.key], TrimRight(rest)))
  {
    RestPlain(rest);
    NoDotFirst(rest);
    GoodTrail(p);
    hide *;
    var s := p.lead + p.k + p.trail + rest;
    ReadPart(p, rest);
    SpacedOut(p.trail, rest);
    PathStep(s, p.key, TrimRight(p.trail + rest));
  }

  lemma RestPlain(rest: string)
    requires EndsKey(rest)
    ensures rest == "" || (!IsQuote(rest[0]) && !BareKeyChar(rest[0]) && !IsSpace(rest[0]))
  {}

  lemma GoodTrail(p: Part)
    requires p.Good()
    ensures AllSpace(p.trail)
  {}

  lemma ReadNext(p: Part, more: string)
    requires p.Good()
    ensures ParseKeyPath(p.lead + p.k + p.trail + ("." + more))
            == match ParseKeyPath(more)
               case None => None
               case Some(m) => Some(([p.key] + m.0, m.1))
  {
    DotPlain();
    GoodTrail(p);
    hide *;
    var y := "." + more;
    ReadPart(p, y);
    SpacedOut(p.trail, y);
    PathStep(p.lead + p.k + p.trail + y, p.key, TrimRight(p.trail + y));
    DotThen(more);
    TrimTwice(more);
    PathOfTrimmed(TrimRight(more), more);
  }

  /** Every dotted key that is written so is read as its keys. */
  lemma {:induction false} PathRead(parts: seq<Part>, rest: string)
    requires parts != [] && (forall p | p in parts :: p.Good()) && EndsKey(rest)
    ensures ParseKeyPath(PathText(parts) + rest) == Some((Keys(parts), TrimRight(rest)))
    decreases |parts|
  {
    hide ParseKeyPath, TrimRight, EndsKey, Part.Good, PathText, Keys;
    var p, more := parts[0], parts[1..];
    assert p in parts && p.Good();
    assert parts == [p] + more;
    if more == [] {
      assert parts == [p];
      ReadLast(p, rest);
      PathAlone(p);
    } else {
      PathRead(more, rest);
      ReadNext(p, PathText(more) + rest);
      PathJoined(p, more);
      Moved(p.lead + p.k + p.trail, ".", PathText(more), rest);
    }
  }

  lemma Moved(x: string, dot: string, y: string, rest: string)
    ensures x + (dot + y) + rest == x + (dot + (y + rest))
  {}

  lemma DotPlain()
    ensures !IsQuote('.') && !BareKeyChar('.') && !IsSpace('.')
  {}

  lemma DotThen(more: string)
    ensures Starts(TrimRight("." + more), '.') && TrimRight("." + more)[1..] == TrimRight(more)
  {
    DotPlain();
    hide IsSpace;
    TrimRightOf(".", more);
    assert ("." + TrimRight(more))[1..] == TrimRight(more);
  }

  lemma NoDotFirst(rest: string)
    requires EndsKey(rest)
    ensures !Starts(TrimRight(rest), '.')
  {
    TrimRightHead(rest);
  }

  /** White space at the end is trimmed with the rest. */
  lemma TrimRightMore(x: string, b: string)
    requires AllSpace(b)
    ensures TrimRight(x + b) == TrimRight(x)
    decreases |b|
  {
    if b == "" {
      assert x + b == x;
    } else {
      var c := b[..|b| - 1];
      assert (x + b)[..|x + b| - 1] == x + c && (x + b)[|x + b| - 1] == b[|b| - 1];
      TrimRightMore(x, c);
    }
  }

  lemma TrimRightTrimmed(y: string)
    ensures TrimRight(TrimSpace(y)) == TrimSpace(y)
  {
    TrimRightStays(TrimLeft(y));
  }

  lemma {:induction false} TrimRightStays(x: string)
    ensures TrimRight(TrimRight(x)) == TrimRight(x)
    decreases |x|
  {
    if x != "" && IsSpace(x[|x| - 1]) {
      TrimRightStays(x[..|x| - 1]);
    }
  }

  /** What is read is written so: the keys are those of the text, one after the other. */
  lemma {:induction false} PathFound(s: string) returns (parts: seq<Part>, rest: string)
    requires ParseKeyPath(s).Some?
    ensures parts != [] && (forall p | p in parts :: p.Good())
    ensures s == PathText(parts) + rest && ParseKeyPath(s) == Some((Keys(parts), TrimRight(rest)))
    decreases |s|
  {
    hide ParseKey, TrimSpace, TrimRight, AllSpace, PathText, Keys, Part.Good;
    var p, u, e, r := KeyFound(s);
    if Starts(u, '.') {
      var more, tail := PathFound(u[1..]);
      parts, rest := [p] + more, tail + e;
      TrimRightMore(tail, e);
      PathJoined(p, more);
      assert u == "." + (PathText(more) + tail);
      assert s == p.lead + p.k + p.trail + ("." + PathText(more)) + (tail + e);
    } else {
      parts, rest := [p], u + e;
      TrimRightMore(u, e);
      TrimRightTrimmed(r);
      PathAlone(p);
    }
  }

  /** The first key of a text, what follows it, and the white space at the end. */
  lemma KeyFound(s: string) returns (p: Part, u: string, e: string, r: string)
    requires ParseKeyPath(s).Some?
    ensures p.Good() && s == p.lead + p.k + p.trail + (u + e) && AllSpace(e) && u == TrimSpace(r) && |u| <= |s|
    ensures ParseKeyPath(s) ==
            if !Starts(u, '.') then Some(([p.key], u))
            else
              match ParseKeyPath(u[1..])
              case None => None
              case Some(more) => Some(([p.key] + more.0, more.1))
  {
    var t := TrimSpace(s);
    KeyThere(s);
    hide *;
    var a, b := TrimParts(s);
    var key := ParseKey(t).val;
    r := ParseKey(t).rest;
    var k := KeyCut(t);
    var c, d := TrimParts(r);
    u, e, p := TrimSpace(r), d + b, Part(a, k, c, key);
    PathStep(s, key, r);
    SpaceJoin(d, b);
    PartGood(p);
    Assembled(s, t, r, a, b, k, c, u, d);
  }

  lemma Assembled(s: string, t: string, r: string, a: string, b: string, k: string, c: string, u: string, d: string)
    requires s == a + t + b && t == k + r && r == c + u + d
    ensures s == a + k + c + (u + (d + b)) && |u| <= |s|
  {}

  lemma KeyThere(s: string)
    requires ParseKeyPath(s).Some?
    ensures ParseKey(TrimSpace(s)).Good?
  {
    hide ParseKey, TrimSpace;
  }

  lemma PartGood(p: Part)
    requires AllSpace(p.lead) && AllSpace(p.trail) && KeyText(p.k, p.key)
    ensures p.Good()
  {}

  lemma PathAlone(p: Part)
    ensures PathText([p]) == p.lead + p.k + p.trail && Keys([p]) == [p.key]
  {}

  lemma PathJoined(p: Part, more: seq<Part>)
    requires more != []
    ensures PathText([p] + more) == p.lead + p.k + p.trail + ("." + PathText(more))
    ensures Keys([p] + more) == [p.key] + Keys(more)
  {
    var parts := [p] + more;
    assert parts[0] == p && parts[1..] == more && |parts| > 1;
    TextStep(parts);
    hide PathText;
    assert p.lead + p.k + p.trail + "." + PathText(more) == p.lead + p.k + p.trail + ("." + PathText(more));
    KeysStep(p, more);
  }

  lemma TextStep(parts: seq<Part>)
    requires |parts| > 1
    ensures PathText(parts) == parts[0].lead + parts[0].k + parts[0].trail + ("." + PathText(parts[1..]))
  {}

  lemma KeysStep(p: Part, more: seq<Part>)
    ensures Keys([p] + more) == [p.key] + Keys(more)
  {}

  // ---- the keys of an inline table --------------------------------------

  predicate PlainChar(c: char) {
    c != ',' && c !in "\"'{}[]"
  }

  /** A word or a number: visible at both ends, with no quote, bracket or comma in it. */
  predicate Scalar(v: string) {
    v != "" && !IsSpace(v[0]) && !IsSpace(v[|v| - 1]) && forall c | c in v :: PlainChar(c)
  }

  /** `v` is one value in front of `rest`: a string, brackets that close, or a scalar. */
  ghost predicate IsValue(v: string, rest: string) {
    || (exists val :: ValueText(v, val))
    || ((Starts(v, '{') || Starts(v, '['))
        && exists body :: IsCut(v + TrimRight(rest), v[0] == '[', Cut(body, TrimRight(rest))))
    || Scalar(v)
  }

  /** One key with its value, and what follows: nothing visible, or a comma and more. */
  datatype Entry = Entry(lead: string, k: string, gap: string, fill: string, v: string, trail: string, more: Option<string>, key: string) {
    function After(): string {
      if more.Some? then trail + "," + more.value else trail
    }

    function Text(): string {
      lead + k + gap + "=" + fill + v + After()
    }

    ghost predicate Good() {
      AllSpace(lead) && AllSpace(gap) && AllSpace(fill) && AllSpace(trail) && KeyText(k, key) && IsValue(v, After())
    }
  }

  /** The text is a list of entries with these keys, with commas between and perhaps
      one at the end. */
  ghost predicate HasKeys(s: string, keys: seq<string>)
    decreases |keys|
  {
    if keys == [] then AllSpace(s)
    else
      exists e: Entry ::
        && e.Good() && e.Text() == s && e.key == keys[0]
        && if e.more.Some? then HasKeys(e.more.value, keys[1..]) else |keys| == 1
  }

  lemma TurnIs(s: string, want: string, key: string, rest: string)
    requires s != "" && ParseKey(s) == Good(key, rest)
    ensures InlineKey(s, want) ==
            if key == want then Found
            else
              var t := TrimSpace(rest);
              if !Starts(t, '=') then CannotTell else InlineValue(TrimSpace(t[1..]), want)
  {
    hide ParseKey, TrimSpace, InlineValue;
  }

  lemma NoKey(s: string, want: string)
    ensures s == "" ==> InlineKey(s, want) == Absent
    ensures s != "" && ParseKey(s).Bad? ==> InlineKey(s, want) == CannotTell
  {
    hide ParseKey, TrimSpace, InlineValue;
  }

  // ---- what is written is read ------------------------------------------

  lemma ValueVisible(v: string, rest: string)
    requires IsValue(v, rest)
    ensures v != "" && !IsSpace(v[0]) && !IsSpace(v[|v| - 1])
  {
    hide ValueText, IsCut, IsSpace;
    if val :| ValueText(v, val) {
      ValueEnds(v, val);
    } else if !Scalar(v) {
      var body :| IsCut(v + TrimRight(rest), v[0] == '[', Cut(body, TrimRight(rest)));
      CutEnds(v, TrimRight(rest), v[0] == '[', body);
    }
  }

  lemma CutEnds(v: string, r: string, isArray: bool, body: string)
    requires v != "" && (v[0] == '[' || v[0] == '{') && IsCut(v + r, isArray, Cut(body, r))
    ensures !IsSpace(v[0]) && !IsSpace(v[|v| - 1])
  {
    var s := v + r;
    var k: nat :| 0 < k && ClosesAt(s, k, isArray) && body == s[1..k] && r == s[k + 1..];
    assert |r| == |s| - k - 1 && |v| == k + 1 && v[k] == s[k];
    hide StateAt, DepthAt;
  }

  /** What follows a value: it cannot continue a string, and trimmed it is nothing, or
      a comma and the rest. */
  lemma AfterIs(e: Entry)
    requires AllSpace(e.trail)
    ensures var r := TrimRight(e.After());
            && (r == "" || !IsQuote(r[0]))
            && TrimSpace(r) == if e.more.Some? then "," + TrimRight(e.more.value) else ""
  {
    hide *;
    TrimTwice(e.After());
    TrimRightHead(e.After());
    CommaPlain();
    if e.more.Some? {
      SpaceFirst(e.trail, "," + e.more.value);
      assert e.After() == e.trail + ("," + e.more.value) && e.After() == e.trail + "," + e.more.value by { AfterText(e); }
      Front(e.trail, ",", e.more.value);
    } else {
      assert e.After() == e.trail by { AfterText(e); }
      SpaceFirst(e.trail, "");
      assert e.trail + "" == e.trail;
      SpaceTrimmed(e.trail);
    }
  }

  lemma AfterText(e: Entry)
    ensures e.After() == if e.more.Some? then e.trail + "," + e.more.value else e.trail
    ensures e.more.Some? ==> e.After() == e.trail + ("," + e.more.value)
  {}

  lemma CommaPlain()
    ensures !IsQuote(',') && !BareKeyChar(',') && !IsSpace(',') && !IsQuote('=') && !BareKeyChar('=') && !IsSpace('=')
  {}

  /** Where the reader goes on behind the value. */
  lemma GoesOn(e: Entry, want: string)
    requires AllSpace(e.trail)
    ensures TomlParse.AfterValue(TrimSpace(TrimRight(e.After())), want)
            == if e.more.Some? then InlineKey(TrimSpace(e.more.value), want) else Absent
  {
    AfterIs(e);
    hide TrimSpace, TrimRight, InlineKey, Entry.After;
    if e.more.Some? {
      TrimTwice(e.more.value);
      var t := "," + TrimRight(e.more.value);
      assert t[1..] == TrimRight(e.more.value);
    }
  }

  /** The reader takes the value and goes on behind it. */
  lemma TurnRead(e: Entry, want: string)
    requires e.Good()
    ensures InlineValue(TrimSpace(e.fill + e.v + e.After()), want)
            == if e.more.Some? then InlineKey(TrimSpace(e.more.value), want) else Absent
  {
    hide *;
    EntryGood(e);
    ValueVisible(e.v, e.After());
    Front(e.fill, e.v, e.After());
    ValueTurn(e, TrimRight(e.After()), want);
  }

  lemma ValueTurn(e: Entry, r: string, want: string)
    requires AllSpace(e.trail) && IsValue(e.v, e.After()) && r == TrimRight(e.After())
    ensures InlineValue(e.v + r, want) == if e.more.Some? then InlineKey(TrimSpace(e.more.value), want) else Absent
  {
    hide TrimSpace, TrimRight, InlineKey, ValueText, IsCut, InlineValue, Entry.After, Scalar, AllSpace;
    if val :| ValueText(e.v, val) {
      TurnString(e, val, r, want);
    } else if Scalar(e.v) {
      ScalarFirst(e.v);
      TurnScalar(e, r, want);
    } else {
      var body :| IsCut(e.v + r, e.v[0] == '[', Cut(body, r));
      TurnBracket(e, body, r, want);
    }
  }

  lemma TurnOfString(s: string, val: string, tail: string, want: string)
    requires s != "" && IsQuote(s[0]) && ParseString(s) == Good(val, tail)
    ensures InlineValue(s, want) == TomlParse.AfterValue(TrimSpace(tail), want)
  {
    hide ParseString, CutValue, TrimSpace, IndexOf, InlineKey, TomlParse.AfterValue;
  }

  lemma TurnOfBracket(s: string, body: string, tail: string, want: string)
    requires s != "" && (s[0] == '{' || s[0] == '[') && CutValue(s, s[0] == '[') == Cut(body, tail)
    ensures InlineValue(s, want) == TomlParse.AfterValue(TrimSpace(tail), want)
  {
    hide ParseString, CutValue, TrimSpace, IndexOf, InlineKey, TomlParse.AfterValue;
  }

  lemma TurnOfScalar(s: string, v: string, j: int, want: string)
    requires s != "" && !IsQuote(s[0]) && s[0] != '{' && s[0] != '[' && j == IndexOf(s, ",") < |s|
    requires v == TrimSpace(if j >= 0 then s[..j] else s) && v != "" && forall c | c in v :: c !in "\"'{}[]"
    ensures InlineValue(s, want) == if j < 0 then Absent else InlineKey(TrimSpace(s[j + 1..]), want)
  {
    hide ParseString, CutValue, TrimSpace, IndexOf, InlineKey, TomlParse.AfterValue;
  }

  lemma TurnString(e: Entry, val: string, r: string, want: string)
    requires ValueText(e.v, val) && AllSpace(e.trail) && r == TrimRight(e.After())
    ensures InlineValue(e.v + r, want) == if e.more.Some? then InlineKey(TrimSpace(e.more.value), want) else Absent
  {
    hide *;
    AfterIs(e);
    ValueThen(e.v, val, r);
    ValueEnds(e.v, val);
    GoesOn(e, want);
    assert (e.v + r)[0] == e.v[0];
    TurnOfString(e.v + r, val, r, want);
  }

  lemma TurnBracket(e: Entry, body: string, r: string, want: string)
    requires AllSpace(e.trail) && r == TrimRight(e.After()) && e.v != "" && (e.v[0] == '{' || e.v[0] == '[')
    requires IsCut(e.v + r, e.v[0] == '[', Cut(body, r))
    ensures InlineValue(e.v + r, want) == if e.more.Some? then InlineKey(TrimSpace(e.more.value), want) else Absent
  {
    hide *;
    CutIs(e.v + r, e.v[0] == '[', Cut(body, r));
    GoesOn(e, want);
    assert (e.v + r)[0] == e.v[0];
    TurnOfBracket(e.v + r, body, r, want);
  }

  lemma ScalarFirst(v: string)
    requires Scalar(v)
    ensures v != ""
    ensures !IsQuote(v[0]) && v[0] != '{' && v[0] != '['
    ensures forall c | c in v :: c != ',' && c !in "\"'{}[]"
    ensures TrimSpace(v) == v
  {
    assert v[0] in v && PlainChar(v[0]);
    assert QUOTE in "\"'{}[]" && APOSTROPHE in "\"'{}[]" && '{' in "\"'{}[]" && '[' in "\"'{}[]";
    TrimmedAlready(v);
  }

  /** The first comma behind a text without one. */
  lemma FirstComma(x: string, y: string)
    requires ',' !in x
    ensures IndexOf(x + ("," + y), ",") == |x| && IndexOf(x, ",") == -1
    ensures (x + ("," + y))[..|x|] == x && (x + ("," + y))[|x| + 1..] == y
  {
    var s := x + ("," + y);
    forall k | 0 <= k < |x| ensures !At(s, ",", k) && !At(x, ",", k) {
      assert s[k..k + 1] == [x[k]] && x[k..k + 1] == [x[k]] && x[k] in x;
    }
    assert s[|x|..|x| + 1] == ",";
    assert At(s, ",", |x|);
  }

  lemma TurnScalar(e: Entry, r: string, want: string)
    requires Scalar(e.v) && e.v != "" && AllSpace(e.trail) && r == TrimRight(e.After())
    ensures InlineValue(e.v + r, want) == if e.more.Some? then InlineKey(TrimSpace(e.more.value), want) else Absent
  {
    hide *;
    ScalarFirst(e.v);
    AfterText(e);
    assert (e.v + r)[0] == e.v[0];
    if e.more.Some? {
      ScalarThen(e.v, e.trail, e.more.value, r);
      TrimTwice(e.more.value);
      TurnOfScalar(e.v + r, e.v, |e.v| + |e.trail|, want);
    } else {
      SpaceRight(e.trail);
      NoComma(e.v);
      assert e.v + r == e.v;
      TurnOfScalar(e.v, e.v, -1, want);
    }
  }

  lemma NoComma(v: string)
    requires forall c | c in v :: c != ','
    ensures IndexOf(v, ",") == -1
  {
    FirstComma(v, "");
  }

  lemma ScalarThen(v: string, trail: string, more: string, r: string)
    requires Scalar(v) && AllSpace(trail) && r == TrimRight(trail + ("," + more))
    ensures IndexOf(v + r, ",") == |v| + |trail| < |v + r|
    ensures TrimSpace((v + r)[..|v| + |trail|]) == v && (v + r)[|v| + |trail| + 1..] == TrimRight(more)
  {
    hide *;
    ScalarFirst(v);
    CommaPlain();
    CommaFree(v, trail);
    var n := TrimRight(more);
    TrimRightToken(trail, ",", more);
    assert trail + "," + more == trail + ("," + more);
    assert r == trail + "," + n;
    Regroup(v, trail, n);
    FirstComma(v + trail, n);
    TrimmedTail(v, trail);
  }

  lemma Regroup(v: string, trail: string, n: string)
    ensures v + (trail + "," + n) == (v + trail) + ("," + n) && |v + trail| == |v| + |trail|
  {}

  lemma CommaFree(v: string, trail: string)
    requires Scalar(v) && AllSpace(trail)
    ensures ',' !in v + trail
  {
    ScalarFirst(v);
    assert !IsSpace(',');
  }

  /** One entry at the front of a text. */
  lemma EntryRead(e: Entry, want: string)
    requires e.Good()
    ensures InlineKey(TrimSpace(e.Text()), want) ==
            if e.key == want then Found
            else if e.more.Some? then InlineKey(TrimSpace(e.more.value), want) else Absent
  {
    hide *;
    EntryGood(e);
    KeyEnds(e.k, e.key);
    CommaPlain();
    TurnRead(e, want);
    EntryText(e);
    var x := e.fill + e.v + e.After();
    var y := e.gap + "=" + x;
    KeyFirst(e.lead, e.k, e.key, e.gap, x);
    TrimTwice(x);
    TurnIs(e.k + TrimRight(y), want, e.key, TrimRight(y));
    EqualsThen(TrimRight(x));
  }

  /** A key and its equals sign at the front of a text. */
  lemma KeyFirst(lead: string, k: string, key: string, gap: string, x: string)
    requires AllSpace(lead) && AllSpace(gap) && KeyText(k, key)
    ensures var y := gap + "=" + x;
            && k != "" && TrimSpace(lead + k + y) == k + TrimRight(y)
            && ParseKey(k + TrimRight(y)) == Good(key, TrimRight(y)) && TrimSpace(TrimRight(y)) == "=" + TrimRight(x)
  {
    hide *;
    KeyEnds(k, key);
    CommaPlain();
    var y := gap + "=" + x;
    Front(lead, k, y);
    TrimRightHead(y);
    assert y == gap + ("=" + x);
    SpaceFirst(gap, "=" + x);
    KeyThen(k, key, TrimRight(y));
    TrimTwice(y);
    Front(gap, "=", x);
  }

  lemma EqualsThen(x: string)
    ensures Starts("=" + x, '=') && ("=" + x)[1..] == x
  {}

  lemma EntryGood(e: Entry)
    requires e.Good()
    ensures AllSpace(e.lead) && AllSpace(e.gap) && AllSpace(e.fill) && AllSpace(e.trail) && KeyText(e.k, e.key)
    ensures IsValue(e.v, e.After())
  {}

  lemma EntryText(e: Entry)
    ensures e.Text() == e.lead + e.k + (e.gap + "=" + (e.fill + e.v + e.After()))
  {
    hide Entry.After;
  }

  /** The keys of a list of entries are the ones that are found. */
  lemma {:induction false} KeysRead(s: string, keys: seq<string>, want: string)
    requires HasKeys(s, keys)
    ensures InlineKey(TrimSpace(s), want) == if want in keys then Found else Absent
    decreases |keys|
  {
    hide InlineKey, TrimSpace, Entry.Good, Entry.Text;
    if keys == [] {
      SpaceTrimmed(s);
      NoKey("", want);
    } else {
      var e: Entry :| e.Good() && e.Text() == s && e.key == keys[0]
        && if e.more.Some? then HasKeys(e.more.value, keys[1..]) else |keys| == 1;
      EntryRead(e, want);
      if e.more.Some? {
        KeysRead(e.more.value, keys[1..], want);
      }
    }
  }

  // ---- what is read is written ------------------------------------------

  /** What follows a value that is accepted: nothing, or a comma and entries in which
      the key is not found. */
  ghost predicate Follows(r: string, sp: string, m: Option<string>, want: string) {
    && AllSpace(sp) && r == (if m.Some? then sp + "," + m.value else "")
    && (m.Some? ==> InlineKey(TrimSpace(m.value), want) == Absent)
  }

  /** Visible at its end, so that white space after it is all that is trimmed. */
  predicate Visible(v: string) {
    v != "" && !IsSpace(v[0]) && !IsSpace(v[|v| - 1])
  }

  lemma TailStays(v: string, r: string)
    requires Visible(v + r)
    ensures TrimRight(r) == r && (AllSpace(r) ==> r == "")
  {
    if r != "" {
      assert (v + r)[|v + r| - 1] == r[|r| - 1];
    }
  }

  lemma AfterFound(r: string, want: string) returns (sp: string, m: Option<string>)
    requires TomlParse.AfterValue(TrimSpace(r), want) == Absent && (AllSpace(r) ==> r == "")
    ensures Follows(r, sp, m, want)
  {
    hide *;
    AfterSays(TrimSpace(r), want);
    var p, q := TrimParts(r);
    var t := TrimSpace(r);
    if t == "" {
      SpaceJoin(p, q);
      assert r == p + q;
      sp, m := "", None;
      NothingFollows(want);
    } else {
      var n := t[1..];
      TrimmedTail(n, q);
      sp, m := p, Some(n + q);
      CommaFollows(r, p, t, n, q, want);
    }
  }

  lemma NothingFollows(want: string)
    ensures Follows("", "", None, want)
  {}

  lemma CommaFollows(r: string, p: string, t: string, n: string, q: string, want: string)
    requires r == p + t + q && AllSpace(p) && t != "" && t[0] == ',' && n == t[1..]
    requires InlineKey(TrimSpace(n + q), want) == Absent
    ensures Follows(r, p, Some(n + q), want)
  {
    hide InlineKey, TrimSpace, AllSpace;
    assert t == "," + n;
    assert r == p + "," + (n + q);
  }

  lemma AfterSays(t: string, want: string)
    requires TomlParse.AfterValue(t, want) == Absent
    ensures t == "" || (t[0] == ',' && InlineKey(TrimSpace(t[1..]), want) == Absent)
    ensures AllSpace("")
  {
    hide InlineKey, TrimSpace;
  }

  /** The value at the front of a text whose turn finds nothing. */
  lemma ValueFound(s: string, want: string) returns (v: string, r: string, sp: string, m: Option<string>)
    requires InlineValue(s, want) == Absent && Visible(s)
    ensures s == v + r && Follows(r, sp, m, want)
    ensures forall w: string | AllSpace(w) :: IsValue(v, r + w)
  {
    hide ParseString, CutValue, IndexOf, TomlParse.AfterValue, InlineKey, TrimSpace, TrimRight, IsCut, ValueText, Scalar, Follows, Visible, AllSpace, IsSpace;
    VisibleNow(s);
    if IsQuote(s[0]) {
      v := ValueCut(s);
      r := ParseString(s).rest;
      TailStays(v, r);
      sp, m := AfterFound(r, want);
    } else if s[0] == '{' || s[0] == '[' {
      var body := CutValue(s, s[0] == '[').body;
      r := CutValue(s, s[0] == '[').rest;
      CutIs(s, s[0] == '[', Cut(body, r));
      v := CutText(s, s[0] == '[', body, r);
      TailStays(v, r);
      sp, m := AfterFound(r, want);
      BracketValue(v, r, body);
    } else {
      v, r, sp, m := ScalarFound(s, want);
    }
  }

  lemma VisibleNow(s: string)
    requires Visible(s)
    ensures s != ""
  {}

  lemma CutText(s: string, isArray: bool, body: string, r: string) returns (v: string)
    requires IsCut(s, isArray, Cut(body, r))
    ensures s == v + r && v != "" && v[0] == s[0]
  {
    var k: nat :| 0 < k && ClosesAt(s, k, isArray) && body == s[1..k] && r == s[k + 1..];
    v := s[..k + 1];
  }

  lemma BracketValue(v: string, r: string, body: string)
    requires v != "" && (v[0] == '{' || v[0] == '[') && IsCut(v + r, v[0] == '[', Cut(body, r)) && TrimRight(r) == r
    ensures forall w: string | AllSpace(w) :: IsValue(v, r + w)
  {
    hide IsCut, TrimRight, AllSpace, Scalar, ValueText;
    forall w: string | AllSpace(w) ensures IsValue(v, r + w) {
      TrimRightMore(r, w);
    }
  }

  lemma TurnSays(s: string, want: string)
    requires InlineValue(s, want) == Absent && s != "" && !IsQuote(s[0]) && s[0] != '{' && s[0] != '['
    ensures var j := IndexOf(s, ","); var x := if j >= 0 then s[..j] else s;
            && j < |s| && TrimSpace(x) != "" && (forall c | c in TrimSpace(x) :: c !in "\"'{}[]")
            && (j >= 0 ==> InlineKey(TrimSpace(s[j + 1..]), want) == Absent)
  {
    hide InlineKey, TrimSpace, ParseString, CutValue, IndexOf, TomlParse.AfterValue;
  }

  lemma CommaAt(s: string)
    ensures var j := IndexOf(s, ",");
            if j < 0 then ',' !in s else j < |s| && ',' !in s[..j] && s == s[..j] + "," + s[j + 1..]
  {
    var j := IndexOf(s, ",");
    if j < 0 {
      forall k | 0 <= k < |s| ensures s[k] != ',' {
        assert !At(s, ",", k);
        assert s[k..k + 1] == [s[k]];
      }
    } else {
      assert s[j..j + 1] == ",";
      forall k | 0 <= k < j ensures s[k] != ',' {
        assert !At(s, ",", k);
        assert s[k..k + 1] == [s[k]];
      }
    }
  }

  lemma ScalarFound(s: string, want: string) returns (v: string, r: string, sp: string, m: Option<string>)
    requires InlineValue(s, want) == Absent && Visible(s) && !IsQuote(s[0]) && s[0] != '{' && s[0] != '['
    ensures s == v + r && Follows(r, sp, m, want)
    ensures forall w: string | AllSpace(w) :: IsValue(v, r + w)
  {
    hide *;
    VisibleNow(s);
    TurnSays(s, want);
    CommaAt(s);
    var j := IndexOf(s, ",");
    var x := if j >= 0 then s[..j] else s;
    var p, q := TrimParts(x);
    v := TrimSpace(x);
    NoLead(s, x, p, v, q);
    ScalarNow(x, p, v, q);
    if j >= 0 {
      var more := s[j + 1..];
      r, sp, m := q + "," + more, q, Some(more);
      FollowsBy(r, q, more, want);
      CommaBetween(s, x, v, q, more);
    } else {
      TailStays(v, q);
      r, sp, m := "", "", None;
      NothingFollows(want);
      assert s == v + r;
    }
    ScalarValue(v, r);
  }

  lemma CommaBetween(s: string, x: string, v: string, q: string, more: string)
    requires s == x + "," + more && x == v + q
    ensures s == v + (q + "," + more)
  {}

  lemma FollowsBy(r: string, sp: string, more: string, want: string)
    requires AllSpace(sp) && r == sp + "," + more && InlineKey(TrimSpace(more), want) == Absent
    ensures Follows(r, sp, Some(more), want)
  {
    hide InlineKey, TrimSpace;
  }

  lemma ScalarValue(v: string, r: string)
    requires Scalar(v)
    ensures forall w: string | AllSpace(w) :: IsValue(v, r + w)
  {
    hide IsCut, ValueText;
  }

  lemma NoLead(s: string, x: string, p: string, v: string, q: string)
    requires Visible(s) && x <= s && x == p + v + q && v != "" && AllSpace(p)
    ensures p == "" && x == v + q
  {
    if p != "" {
      SameFirst(s, x, p);
    }
  }

  lemma SameFirst(s: string, x: string, p: string)
    requires p != "" && p <= x <= s
    ensures s[0] == p[0]
  {}

  lemma ScalarNow(x: string, p: string, v: string, q: string)
    requires x == p + v + q && v == TrimSpace(x) && v != "" && ',' !in x && forall c | c in v :: c !in "\"'{}[]"
    ensures Scalar(v)
  {
    TrimEnds(x);
    hide TrimSpace;
    forall c | c in v ensures PlainChar(c) {
      assert c in x;
    }
  }

  lemma {:induction false} TrimLeftEnd(y: string)
    ensures TrimLeft(y) == "" || !IsSpace(TrimLeft(y)[0])
  {
    if y != "" && IsSpace(y[0]) {
      TrimLeftEnd(y[1..]);
    }
  }

  lemma {:induction false} TrimRightEnd(y: string)
    ensures TrimRight(y) == "" || !IsSpace(TrimRight(y)[|TrimRight(y)| - 1])
    decreases |y|
  {
    if y != "" && IsSpace(y[|y| - 1]) {
      TrimRightEnd(y[..|y| - 1]);
    }
  }

  lemma TrimEnds(y: string)
    ensures TrimSpace(y) == "" || Visible(TrimSpace(y))
  {
    TrimRightEnd(TrimLeft(y));
    TrimLeftEnd(y);
    TrimRightHead(TrimLeft(y));
  }

  /** The first entry of a text in which the key is not found. */
  lemma EntryFound(s: string, want: string) returns (e: Entry)
    requires InlineKey(TrimSpace(s), want) == Absent && TrimSpace(s) != ""
    ensures e.Good() && e.Text() == s && e.key != want
    ensures e.more.Some? ==> |e.more.value| < |s| && InlineKey(TrimSpace(e.more.value), want) == Absent
  {
    hide *;
    var t := TrimSpace(s);
    NoKey(t, want);
    var key, r0 := ParseKey(t).val, ParseKey(t).rest;
    TurnIs(t, want, key, r0);
    var u := TrimSpace(r0);
    EqualsFirst(u);
    var x := u[1..];
    var a, b := TrimParts(s);
    var k := KeyCut(t);
    var c, d := TrimParts(r0);
    var f, g := TrimParts(x);
    TurnVisible(x, want);
    var v, r, sp, m := ValueFound(TrimSpace(x), want);
    SpaceJoin(g, d);
    SpaceJoin(g + d, b);
    var w := g + d + b;
    e := Entry(a, k, c, f, v, if m.Some? then sp else w, if m.Some? then Some(m.value + w) else None, key);
    AfterMatches(e, r, sp, m, w, want);
    EntryFine(e, r + w);
    EntryAssembled(e, s, t, r0, u, x, a, b, c, d, f, g, v + r, r, w);
  }

  lemma EqualsFirst(u: string)
    requires Starts(u, '=')
    ensures u != "" && u == "=" + u[1..]
  {}

  lemma TurnVisible(x: string, want: string)
    requires InlineValue(TrimSpace(x), want) == Absent
    ensures Visible(TrimSpace(x))
  {
    TrimEnds(x);
    TurnEmpty(want);
    hide TrimSpace, InlineValue, Visible;
  }

  lemma TurnEmpty(want: string)
    ensures InlineValue("", want) != Absent
  {
    assert TrimSpace("") == "" && IndexOf("", ",") < 0;
  }

  lemma AfterMatches(e: Entry, r: string, sp: string, m: Option<string>, w: string, want: string)
    requires Follows(r, sp, m, want) && AllSpace(w)
    requires e.trail == (if m.Some? then sp else w) && e.more == (if m.Some? then Some(m.value + w) else None)
    ensures e.After() == r + w && AllSpace(e.trail) && (e.more.Some? ==> |e.more.value| < |r + w| && InlineKey(TrimSpace(e.more.value), want) == Absent)
  {
    hide InlineKey, TrimSpace, AllSpace;
    if m.Some? {
      TrimmedTail(m.value, w);
      assert sp + "," + (m.value + w) == r + w;
    }
  }

  lemma EntryFine(e: Entry, after: string)
    requires AllSpace(e.lead) && AllSpace(e.gap) && AllSpace(e.fill) && AllSpace(e.trail) && KeyText(e.k, e.key)
    requires e.After() == after && IsValue(e.v, after)
    ensures e.Good()
  {}

  lemma EntryAssembled(e: Entry, s: string, t: string, r0: string, u: string, x: string, a: string, b: string, c: string,
                       d: string, f: string, g: string, vr: string, r: string, w: string)
    requires s == a + t + b && t == e.k + r0 && r0 == c + u + d && u == "=" + x && x == f + vr + g && vr == e.v + r
    requires w == g + d + b && e.lead == a && e.gap == c && e.fill == f && e.After() == r + w
    ensures e.Text() == s && |r + w| <= |s|
  {
    hide Entry.After;
    assert s == a + e.k + c + "=" + f + e.v + (r + w);
  }

  lemma {:induction false} KeysFound(s: string, want: string) returns (keys: seq<string>)
    requires InlineKey(TrimSpace(s), want) == Absent
    ensures HasKeys(s, keys) && want !in keys
    decreases |s|
  {
    hide InlineKey, TrimSpace, Entry.Good, Entry.Text, AllSpace;
    if TrimSpace(s) == "" {
      var a, b := TrimParts(s);
      SpaceJoin(a, b);
      assert s == a + b;
      keys := [];
    } else {
      var e := EntryFound(s, want);
      if e.more.Some? {
        var more := KeysFound(e.more.value, want);
        keys := [e.key] + more;
        assert keys[1..] == more;
      } else {
        keys := [e.key];
      }
    }
  }

  /** A key is found absent from the body of an inline table exactly when the body is a
      list of entries, and none of them has that key. */
  lemma AbsentExactly(body: string, want: string)
    ensures InlineKey(TrimSpace(body), want).Absent? <==> exists keys :: HasKeys(body, keys) && want !in keys
  {
    hide InlineKey, TrimSpace, HasKeys;
    if InlineKey(TrimSpace(body), want).Absent? {
      var keys := KeysFound(body, want);
    }
    if keys :| HasKeys(body, keys) && want !in keys {
      KeysRead(body, keys, want);
    }
  }
}
