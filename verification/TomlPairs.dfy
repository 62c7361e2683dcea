/** Which inline tables the pair loop reads: a list of keys, equals signs and
    strings with commas between them, white space anywhere around, each key once. */
module TomlPairs {
  import opened Text
  import opened TomlString
  import opened TomlParse

  /** A key text, or a string, that is read whole. */
  predicate KeyText(k: string, key: string) {
    ParseKey(k) == Good(key, "")
  }

  predicate ValueText(v: string, val: string) {
    ParseString(v) == Good(val, "")
  }

  /** One assignment with the white space around its parts. */
  datatype Pair = Pair(lead: string, k: string, gap: string, fill: string, v: string, trail: string,
                       key: string, val: string) {
    ghost predicate Good() {
      AllSpace(lead) && AllSpace(gap) && AllSpace(fill) && AllSpace(trail) && KeyText(k, key) && ValueText(v, val)
    }

    function AfterKey(): string {
      gap + "=" + (fill + v + trail)
    }

    function Text(): string {
      lead + k + AfterKey()
    }
  }

  /** The text of an inline table's body: commas between, perhaps one more at the end. */
  datatype Table = Table(pairs: seq<Pair>, comma: bool, tail: string) {
    function Rest(): Table
      requires pairs != []
    {
      this.(pairs := pairs[1..])
    }

    function Text(): string
      decreases |pairs|
    {
      if pairs == [] then tail
      else pairs[0].Text() + (if |pairs| > 1 || comma then "," else "") + Rest().Text()
    }

    ghost predicate Good() {
      (forall p | p in pairs :: p.Good()) && AllSpace(tail) && (pairs == [] ==> !comma)
    }
  }

  ghost predicate Distinct(ps: seq<Pair>) {
    forall i, j | 0 <= i < j < |ps| :: ps[i].key != ps[j].key
  }

  function MapOf(ps: seq<Pair>): map<string, string> {
    if ps == [] then map[] else map[ps[0].key := ps[0].val] + MapOf(ps[1..])
  }

  /** `body` is written as `w`, and no key occurs twice. */
  ghost predicate IsTable(w: Table, body: string) {
    w.Good() && w.Text() == body && Distinct(w.pairs)
  }

  // ---- what a key or a string reads does not depend on what follows ------

  /** How a string that is read whole begins and ends. */
  lemma ValueShape(s: string)
    requires ParseString(s).Good?
    ensures |s| >= 2 && IsQuote(s[0]) && |s| - |ParseString(s).rest| >= 2
    ensures var n := |s| - |ParseString(s).rest|;
            CloseQuote(s, 1, s[0]) == n - 1 && s[n - 1] == s[0] && s[n..] == ParseString(s).rest
    ensures ParseString(s).val == if s[0] == QUOTE then Unescape(s[1..CloseQuote(s, 1, s[0])]).value else s[1..CloseQuote(s, 1, s[0])]
    ensures s[0] == QUOTE ==> Unescape(s[1..CloseQuote(s, 1, s[0])]).Some?
    ensures !(|s| >= 3 && s[0] == s[1] == s[2])
  {
    Openings(s);
    hide HasPrefix, Unescape;
  }

  lemma Openings(s: string)
    ensures HasPrefix(s, "\"") <==> s != "" && s[0] == QUOTE
    ensures HasPrefix(s, "'") <==> s != "" && s[0] == APOSTROPHE
    ensures HasPrefix(s, "\"\"\"") <==> |s| >= 3 && s[0] == s[1] == s[2] == QUOTE
    ensures HasPrefix(s, "'''") <==> |s| >= 3 && s[0] == s[1] == s[2] == APOSTROPHE
  {
    if s != "" {
      assert s[..1] == [s[0]];
    }
    if |s| >= 3 {
      assert s[..3] == [s[0], s[1], s[2]];
    }
  }

  lemma ValueFrom(s: string, n: nat)
    requires 2 <= n <= |s| && IsQuote(s[0]) && CloseQuote(s, 1, s[0]) == n - 1
    requires !(|s| >= 3 && s[0] == s[1] == s[2])
    requires s[0] == QUOTE ==> Unescape(s[1..n - 1]).Some?
    ensures ParseString(s) == Good(if s[0] == QUOTE then Unescape(s[1..n - 1]).value else s[1..n - 1], s[n..])
  {
    assert s[..1] == [s[0]];
    if |s| >= 3 {
      assert s[..3] == [s[0], s[1], s[2]];
    }
  }

  lemma ValueThen(v: string, val: string, rest: string)
    requires ValueText(v, val) && (rest == "" || !IsQuote(rest[0]))
    ensures ParseString(v + rest) == Good(val, rest)
  {
    ValueShape(v);
    var n, s := |v|, v + rest;
    CloseExtends(v, rest, 1, v[0]);
    hide ParseString, CloseQuote, Unescape;
    assert s[0] == v[0] && s[1] == v[1] && (|v| >= 3 ==> s[2] == v[2]);
    assert s[1..n - 1] == v[1..n - 1] && s[n..] == rest;
    ValueFrom(s, n);
  }

  lemma ValueCut(s: string) returns (v: string)
    requires ParseString(s).Good?
    ensures ValueText(v, ParseString(s).val) && s == v + ParseString(s).rest
  {
    ValueShape(s);
    var n := |s| - |ParseString(s).rest|;
    v := s[..n];
    CloseBefore(s, 1, n, s[0]);
    hide ParseString, CloseQuote, Unescape;
    assert v[0] == s[0] && v[1] == s[1] && (|v| >= 3 ==> v[2] == s[2]);
    assert v[1..n - 1] == s[1..n - 1] && v[n..] == "";
    ValueFrom(v, n);
  }

  lemma {:induction false} BareMore(s: string, t: string, i: nat)
    requires i <= |s| && BareKeyEnd(s, i) == |s| && (t == "" || !BareKeyChar(t[0]))
    ensures BareKeyEnd(s + t, i) == |s|
    decreases |s| - i
  {
    if i < |s| {
      BareMore(s, t, i + 1);
    }
  }

  lemma {:induction false} BareLess(s: string, i: nat)
    requires i <= |s|
    ensures forall k | i <= k < BareKeyEnd(s, i) :: BareKeyChar(s[k])
    ensures BareKeyEnd(s[..BareKeyEnd(s, i)], i) == BareKeyEnd(s, i)
    decreases |s| - i
  {
    if i < |s| && BareKeyChar(s[i]) {
      BareLess(s, i + 1);
    }
  }

  lemma KeyThen(k: string, key: string, rest: string)
    requires KeyText(k, key) && (rest == "" || (!IsQuote(rest[0]) && !BareKeyChar(rest[0])))
    ensures ParseKey(k + rest) == Good(key, rest)
  {
    var s := k + rest;
    assert k != "" && s[0] == k[0];
    if IsQuote(k[0]) {
      hide ParseString;
      ValueThen(k, key, rest);
    } else {
      hide ParseString;
      var i := BareKeyEnd(k, 0);
      assert k[i..] == "" && i == |k| && k[..i] == k == key;
      BareMore(k, rest, 0);
      assert s[..i] == k && s[i..] == rest;
    }
  }

  lemma KeyCut(s: string) returns (k: string)
    requires ParseKey(s).Good?
    ensures KeyText(k, ParseKey(s).val) && s == k + ParseKey(s).rest
  {
    if s != "" && IsQuote(s[0]) {
      hide ParseString;
      k := ValueCut(s);
      ValueEnds(k, ParseKey(s).val);
      assert k[0] == s[0];
    } else {
      hide ParseString;
      var i := BareKeyEnd(s, 0);
      BareLess(s, 0);
      k := s[..i];
      assert k[0] == s[0] && k[..i] == k && k[i..] == "";
    }
  }

  lemma ValueEnds(v: string, val: string)
    requires ValueText(v, val)
    ensures v != "" && !IsSpace(v[0]) && !IsSpace(v[|v| - 1]) && IsQuote(v[0])
  {
    ValueShape(v);
    assert !IsSpace(QUOTE) && !IsSpace(APOSTROPHE);
    hide ParseString, IsSpace;
  }

  lemma KeyEnds(k: string, key: string)
    requires KeyText(k, key)
    ensures k != "" && !IsSpace(k[0]) && !IsSpace(k[|k| - 1])
  {
    if IsQuote(k[0]) {
      hide ParseString;
      ValueEnds(k, key);
    } else {
      hide ParseString;
      var i := BareKeyEnd(k, 0);
      assert k[i..] == "" && i == |k|;
      BareLess(k, 0);
      assert forall c :: BareKeyChar(c) ==> !IsSpace(c);
    }
  }

  // ---- white space around -----------------------------------------------

  lemma {:induction false} LeftCut(x: string)
    ensures AllSpace(x[..|x| - |TrimLeft(x)|])
  {
    if x != "" && IsSpace(x[0]) {
      LeftCut(x[1..]);
      var a, b := x[..|x| - |TrimLeft(x)|], x[1..][..|x| - 1 - |TrimLeft(x)|];
      assert a == [x[0]] + b;
    }
  }

  lemma {:induction false} RightCut(x: string)
    ensures AllSpace(x[|TrimRight(x)|..])
    decreases |x|
  {
    if x != "" && IsSpace(x[|x| - 1]) {
      var y := x[..|x| - 1];
      RightCut(y);
      assert x[|TrimRight(x)|..] == y[|TrimRight(y)|..] + [x[|x| - 1]];
    }
  }

  lemma TrimParts(x: string) returns (a: string, b: string)
    ensures x == a + TrimSpace(x) + b && AllSpace(a) && AllSpace(b)
  {
    var l := TrimLeft(x);
    LeftCut(x);
    RightCut(l);
    a, b := x[..|x| - |l|], l[|TrimRight(l)|..];
  }

  lemma TrimRightHead(x: string)
    ensures TrimRight(x) == "" || (x != "" && TrimRight(x)[0] == x[0])
  {}

  /** What a trimmed text is, its visible part known. */
  lemma Front(lead: string, x: string, r: string)
    requires AllSpace(lead) && x != "" && !IsSpace(x[0]) && !IsSpace(x[|x| - 1])
    ensures TrimSpace(lead + x + r) == x + TrimRight(r)
  {
    hide *;
    TrimAround(lead, x, r);
    SpaceTrimmed(lead);
    assert "" + x + TrimRight(r) == x + TrimRight(r);
  }

  lemma TrimTwice(x: string)
    ensures TrimSpace(TrimRight(x)) == TrimSpace(x)
  {
    var a, b := TrimParts(x);
    var m := TrimSpace(x);
    hide *;
    if m == "" {
      assert x == a + b;
      SpaceJoin(a, b);
      SpaceTrimmed(x);
      SpaceTrimmed("");
    } else {
      TrimRightToken(a, m, b);
      SpaceTrimmed(b);
      assert a + m + "" == a + m;
      Front(a, m, "");
      SpaceTrimmed("");
      assert m + "" == m;
    }
  }

  lemma SpaceJoin(a: string, b: string)
    requires AllSpace(a) && AllSpace(b)
    ensures AllSpace(a + b) && AllSpace("")
  {}

  // ---- a written table is read ------------------------------------------

  /** What follows a value: nothing, or a comma and the rest. */
  function AfterValue(u: string, acc: map<string, string>): Option<map<string, string>> {
    if u == "" then Some(acc)
    else if u[0] == ',' then PairsFrom(TrimSpace(u[1..]), acc)
    else None
  }

  lemma PairsStep(s: string, key: string, a: string, val: string, b: string, acc: map<string, string>)
    requires s != "" && ParseKey(s) == Good(key, a) && Starts(TrimSpace(a), '=')
    requires ParseString(TrimSpace(TrimSpace(a)[1..])) == Good(val, b)
    ensures PairsFrom(s, acc) == if key in acc then None else AfterValue(TrimSpace(b), acc[key := val])
  {
    hide ParseKey, ParseString, TrimSpace;
  }

  lemma ReadPair(p: Pair, r: string, acc: map<string, string>)
    requires p.Good() && (r == "" || r[0] == ',' || AllSpace(r))
    ensures PairsFrom(TrimSpace(p.Text() + r), acc)
            == if p.key in acc then None else AfterValue(TrimSpace(p.trail + r), acc[p.key := p.val])
  {
    hide *;
    var c := p.trail + r;
    var b := p.fill + p.v + c;
    SameText(p, r);
    KeyPart(p, b);
    ValuePart(p, r);
    TrimTwice(c);
    StepOf(TrimSpace(p.Text() + r), TrimRight(p.gap + "=" + b), TrimRight(b), p.key, p.val, TrimRight(c), acc);
  }

  lemma StepOf(s: string, a: string, b: string, key: string, val: string, c: string, acc: map<string, string>)
    requires s != "" && ParseKey(s) == Good(key, a) && TrimSpace(a) == "=" + b
    requires ("=" + b)[1..] == b && ParseString(TrimSpace(b)) == Good(val, c)
    ensures PairsFrom(s, acc) == if key in acc then None else AfterValue(TrimSpace(c), acc[key := val])
  {
    hide ParseKey, ParseString, TrimSpace;
    PairsStep(s, key, a, val, c, acc);
  }

  /** Nothing of a key or a string goes on here. */
  predicate Separate(x: string) {
    x == "" || (!IsQuote(x[0]) && !BareKeyChar(x[0]))
  }

  lemma SpaceSeparates(x: string, y: string)
    requires AllSpace(x) && (y == "" || y[0] == '=' || y[0] == ',' || AllSpace(y))
    ensures Separate(x + y) && Separate(TrimRight(x + y))
  {
    forall c | IsSpace(c) ensures !IsQuote(c) && !BareKeyChar(c) {}
    TrimRightHead(x + y);
    assert x == "" ==> x + y == y;
  }

  lemma KeyPart(p: Pair, b: string)
    requires p.Good()
    ensures var a := p.gap + "=" + b; var s := TrimSpace(p.lead + p.k + a);
            && s != "" && ParseKey(s) == Good(p.key, TrimRight(a))
            && TrimSpace(TrimRight(a)) == "=" + TrimRight(b)
  {
    var a := p.gap + "=" + b;
    KeyEnds(p.k, p.key);
    assert !IsSpace('=');
    assert a == p.gap + ("=" + b);
    assert AllSpace(p.lead) && AllSpace(p.gap) && KeyText(p.k, p.key);
    hide *;
    SpaceSeparates(p.gap, "=" + b);
    SeparateMeans(TrimRight(a));
    Front(p.lead, p.k, a);
    KeyThen(p.k, p.key, TrimRight(a));
    TrimTwice(a);
    Front(p.gap, "=", b);
  }

  lemma SeparateMeans(x: string)
    requires Separate(x)
    ensures x == "" || (!IsQuote(x[0]) && !BareKeyChar(x[0]))
  {}

  lemma ValuePart(p: Pair, r: string)
    requires p.Good() && (r == "" || r[0] == ',' || AllSpace(r))
    ensures var c := p.trail + r; var b := p.fill + p.v + c;
            && ("=" + TrimRight(b))[1..] == TrimRight(b)
            && ParseString(TrimSpace(TrimRight(b))) == Good(p.val, TrimRight(c))
  {
    var c := p.trail + r;
    var b := p.fill + p.v + c;
    ValueEnds(p.v, p.val);
    assert AllSpace(p.trail) && AllSpace(p.fill) && ValueText(p.v, p.val);
    hide *;
    SpaceSeparates(p.trail, r);
    SeparateMeans(TrimRight(c));
    TrimTwice(b);
    Front(p.fill, p.v, c);
    ValueThen(p.v, p.val, TrimRight(c));
  }

  lemma SameText(p: Pair, r: string)
    ensures p.Text() + r == p.lead + p.k + (p.gap + "=" + (p.fill + p.v + (p.trail + r)))
  {
    Assoc(p.lead + p.k, p.AfterKey(), r);
    Assoc(p.gap + "=", p.fill + p.v + p.trail, r);
    Assoc(p.fill + p.v, p.trail, r);
  }

  lemma CommaNext(lead: string, r: string)
    requires AllSpace(lead)
    ensures var u := TrimSpace(lead + ("," + r));
            u != "" && u[0] == ',' && TrimSpace(u[1..]) == TrimSpace(r)
  {
    assert !IsSpace(',');
    hide *;
    Front(lead, ",", r);
    assert lead + "," + r == lead + ("," + r);
    assert ("," + TrimRight(r))[1..] == TrimRight(r);
    TrimTwice(r);
  }

  ghost predicate NewKeys(ps: seq<Pair>, acc: map<string, string>) {
    forall p | p in ps :: p.key !in acc
  }

  /** A written table is read as its pairs. */
  lemma {:induction false} ReadTable(w: Table, acc: map<string, string>)
    requires w.Good() && Distinct(w.pairs) && NewKeys(w.pairs, acc)
    ensures PairsFrom(TrimSpace(w.Text()), acc) == Some(acc + MapOf(w.pairs))
    decreases |w.pairs|
  {
    if w.pairs == [] {
      hide IsSpace, TrimSpace;
      SpaceTrimmed(w.tail);
      assert acc + map[] == acc;
    } else {
      var p, rest := w.pairs[0], w.Rest();
      var acc1 := acc[p.key := p.val];
      var more := |w.pairs| > 1 || w.comma;
      UnfoldText(w);
      UnfoldMap(w, acc);
      hide *;
      if !more {
        ReadPair(p, rest.Text(), acc);
        SpaceJoin(p.trail, rest.Text());
        SpaceTrimmed(p.trail + rest.Text());
        AtEnd(acc1);
      } else {
        if |w.pairs| == 1 {
          EmptyRest(w, acc1);
        } else {
          ReadTable(rest, acc1);
        }
        var r := "," + rest.Text();
        ReadPair(p, r, acc);
        CommaNext(p.trail, rest.Text());
        AtNext(TrimSpace(p.trail + r), acc1);
      }
    }
  }

  lemma UnfoldText(w: Table)
    requires w.Good() && w.pairs != []
    ensures var p, rest := w.pairs[0], w.Rest();
            && p.Good() && AllSpace(p.trail)
            && w.Text() == p.Text() + (if |w.pairs| > 1 || w.comma then "," + rest.Text() else rest.Text())
            && (|w.pairs| == 1 ==> AllSpace(rest.Text()))
  {
    var p, rest := w.pairs[0], w.Rest();
    assert p in w.pairs;
    hide KeyText, ValueText, IsSpace, Pair.Text;
    assert p.Text() + "" == p.Text();
    Assoc(p.Text(), ",", rest.Text());
  }

  lemma UnfoldMap(w: Table, acc: map<string, string>)
    requires w.Good() && Distinct(w.pairs) && NewKeys(w.pairs, acc) && w.pairs != []
    ensures var p, rest := w.pairs[0], w.Rest(); var acc1 := acc[p.key := p.val];
            && p.key !in acc && acc1 + MapOf(rest.pairs) == acc + MapOf(w.pairs)
            && (|w.pairs| > 1 ==> rest.Good()) && Distinct(rest.pairs) && NewKeys(rest.pairs, acc1)
            && (|w.pairs| == 1 ==> acc1 == acc + MapOf(w.pairs))
  {
    FewerPairs(w);
    var p := w.pairs[0];
    assert p in w.pairs;
    MapStep(acc, p.key, p.val, MapOf(w.pairs[1..]));
    hide Table.Good, Distinct;
  }

  lemma MapStep(acc: map<string, string>, k: string, v: string, m: map<string, string>)
    ensures acc[k := v] + m == acc + (map[k := v] + m)
    ensures acc[k := v] + map[] == acc[k := v]
  {}

  lemma AtEnd(acc: map<string, string>)
    ensures AfterValue("", acc) == Some(acc)
  {}

  lemma AtNext(u: string, acc: map<string, string>)
    requires u != "" && u[0] == ','
    ensures AfterValue(u, acc) == PairsFrom(TrimSpace(u[1..]), acc)
  {}

  lemma EmptyRest(w: Table, acc: map<string, string>)
    requires w.Good() && |w.pairs| == 1
    ensures PairsFrom(TrimSpace(w.Rest().Text()), acc) == Some(acc + MapOf(w.Rest().pairs))
  {
    assert w.Rest().Text() == w.tail;
    SpaceTrimmed(w.tail);
    assert acc + map[] == acc;
    hide IsSpace;
  }

  lemma FewerPairs(w: Table)
    requires w.Good() && Distinct(w.pairs) && w.pairs != []
    ensures Distinct(w.Rest().pairs) && |w.pairs| > 1 ==> w.Rest().Good()
    ensures forall q | q in w.Rest().pairs :: q in w.pairs && q.key != w.pairs[0].key
    ensures Distinct(w.Rest().pairs)
  {
    hide Pair.Good, AllSpace;
    forall q | q in w.Rest().pairs ensures q in w.pairs && q.key != w.pairs[0].key {
      var k :| 0 <= k < |w.pairs| - 1 && w.pairs[1..][k] == q;
      assert w.pairs[k + 1] == q;
    }
  }

  // ---- what is read was written -----------------------------------------

  /** The text of `w` with white space around it is the text of a table with the
      same keys and values. */
  lemma Surround(w: Table, a: string, b: string) returns (x: Table)
    requires w.Good() && AllSpace(a) && AllSpace(b)
    ensures x.Good() && x.Text() == a + w.Text() + b && x.comma == w.comma && SameKeys(x.pairs, w.pairs)
  {
    if w.pairs == [] {
      x := w.(tail := a + w.tail + b);
      SpaceJoin(a, w.tail);
      SpaceJoin(a + w.tail, b);
    } else {
      var p := w.pairs[0];
      assert p in w.pairs;
      var y := w.(pairs := [p.(lead := a + p.lead)] + w.pairs[1..]);
      x := y.(tail := w.tail + b);
      SpaceJoin(w.tail, b);
      LeadGood(w, y, a);
      hide *;
      LeadText(w, y, a);
      TailText(y, b);
      TailGood(y, x);
    }
  }

  lemma LeadGood(w: Table, y: Table, a: string)
    requires w.Good() && w.pairs != [] && AllSpace(a)
    requires y == w.(pairs := [w.pairs[0].(lead := a + w.pairs[0].lead)] + w.pairs[1..])
    ensures y.Good() && SameKeys(y.pairs, w.pairs)
  {
    var p := w.pairs[0];
    assert p in w.pairs;
    SpaceJoin(a, p.lead);
    hide AllSpace, KeyText, ValueText;
    assert y.pairs[0].Good() && forall r | r in y.pairs :: r == y.pairs[0] || r in w.pairs;
  }

  lemma TailGood(y: Table, x: Table)
    requires y.Good() && AllSpace(x.tail) && x == y.(tail := x.tail)
    ensures x.Good()
  {
    hide Pair.Good, AllSpace;
  }

  ghost predicate SameKeys(x: seq<Pair>, y: seq<Pair>) {
    |x| == |y| && forall k | 0 <= k < |x| :: x[k].key == y[k].key && x[k].val == y[k].val
  }

  lemma LeadText(w: Table, y: Table, a: string)
    requires w.pairs != [] && y == w.(pairs := [w.pairs[0].(lead := a + w.pairs[0].lead)] + w.pairs[1..])
    ensures y.Text() == a + w.Text()
  {
    var p, q := w.pairs[0], y.pairs[0];
    assert y.Rest() == w.Rest();
    LeadPair(p, a);
    var sep, rest := if |w.pairs| > 1 || w.comma then "," else "", w.Rest().Text();
    assert y.Text() == q.Text() + sep + rest && w.Text() == p.Text() + sep + rest;
    hide *;
    Assoc(a, p.Text(), sep);
    Assoc(a, p.Text() + sep, rest);
  }

  lemma LeadPair(p: Pair, a: string)
    ensures p.(lead := a + p.lead).Text() == a + p.Text()
  {
    var q := p.(lead := a + p.lead);
    Assoc(a, p.lead, p.k);
    Assoc(a, p.lead + p.k, p.AfterKey());
    assert q.AfterKey() == p.AfterKey();
  }

  lemma {:induction false} TailText(w: Table, b: string)
    ensures w.(tail := w.tail + b).Text() == w.Text() + b
    decreases |w.pairs|
  {
    if w.pairs != [] {
      TailText(w.Rest(), b);
      var x := w.(tail := w.tail + b);
      assert x.Rest() == w.Rest().(tail := w.tail + b);
      Assoc(w.pairs[0].Text() + (if |w.pairs| > 1 || w.comma then "," else ""), w.Rest().Text(), b);
      hide Pair.Text;
    }
  }

  /** The parts of the text at the front of what the loop accepts. */
  lemma FindParts(s: string, acc: map<string, string>)
    requires s != "" && PairsFrom(s, acc).Some?
    ensures ParseKey(s).Good? && Starts(TrimSpace(ParseKey(s).rest), '=')
    ensures ParseString(TrimSpace(TrimSpace(ParseKey(s).rest)[1..])).Good?
    ensures var w := ParseString(TrimSpace(TrimSpace(ParseKey(s).rest)[1..]));
            ParseKey(s).val !in acc && PairsFrom(s, acc) == AfterValue(TrimSpace(w.rest), acc[ParseKey(s).val := w.val])
  {
    hide ParseKey, ParseString, TrimSpace;
  }

  lemma GetsShorter(s: string, acc: map<string, string>)
    requires s != "" && PairsFrom(s, acc).Some?
    requires ParseKey(s).Good? && Starts(TrimSpace(ParseKey(s).rest), '=')
    ensures |TrimSpace(ParseString(TrimSpace(TrimSpace(ParseKey(s).rest)[1..])).rest)| < |s|
  {
    hide TrimSpace;
  }

  /** The pair at the front of a text that the loop accepts. */
  lemma FindPair(s: string, acc: map<string, string>) returns (p: Pair, u: string, c: string)
    requires s != "" && PairsFrom(s, acc).Some?
    ensures p.Good() && p.key !in acc && |u| < |s|
    ensures PairsFrom(s, acc) == AfterValue(u, acc[p.key := p.val])
    ensures AllSpace(c) && s == p.Text() + u + c && (u == "" || TrimSpace(u) == u)
  {
    FindParts(s, acc);
    hide *;
    GetsShorter(s, acc);
    var key, rest := ParseKey(s).val, ParseKey(s).rest;
    var k := KeyCut(s);
    var t := TrimSpace(rest);
    var a, b := TrimParts(rest);
    EqualsFirst(t);
    var w := TrimSpace(t[1..]);
    var x, d := TrimParts(t[1..]);
    var val, tail := ParseString(w).val, ParseString(w).rest;
    var v := ValueCut(w);
    u := TrimSpace(tail);
    var e, f := TrimParts(tail);
    TrimmedAlready(u);
    p, c := Assemble(s, k, rest, a, t, b, t[1..], x, w, d, v, tail, e, u, f, key, val);
  }

  lemma Assemble(s: string, k: string, rest: string, a: string, t: string, b: string, t1: string, x: string, w: string,
                 d: string, v: string, tail: string, e: string, u: string, f: string, key: string, val: string)
    returns (p: Pair, c: string)
    requires s == k + rest && rest == a + t + b && t == "=" + t1 && t1 == x + w + d && w == v + tail && tail == e + u + f
    requires KeyText(k, key) && ValueText(v, val)
    requires AllSpace(a) && AllSpace(b) && AllSpace(x) && AllSpace(d) && AllSpace(e) && AllSpace(f)
    ensures p.Good() && p.key == key && p.val == val && AllSpace(c) && s == p.Text() + u + c
  {
    hide *;
    p := Pair("", k, a, x, v, e, key, val);
    c := f + d + b;
    NoSpaceAround(p);
    PairText(p, t, t1, w, tail, u, b, d, f);
    SpaceJoin(f, d);
    SpaceJoin(f + d, b);
  }

  lemma EqualsFirst(t: string)
    requires Starts(t, '=')
    ensures t == "=" + t[1..]
  {}

  lemma NoSpaceAround(p: Pair)
    requires p.lead == "" && AllSpace(p.gap) && AllSpace(p.fill) && AllSpace(p.trail)
    requires KeyText(p.k, p.key) && ValueText(p.v, p.val)
    ensures p.Good()
  {}

  lemma PairText(p: Pair, t: string, t1: string, w: string, tail: string, u: string, b: string, d: string, f: string)
    requires p.lead == "" && t == "=" + t1 && t1 == p.fill + w + d && w == p.v + tail && tail == p.trail + u + f
    ensures p.k + (p.gap + t + b) == p.Text() + u + (f + d + b)
  {
    assert "" + p.k == p.k;
  }

  lemma CommaFirst(u: string)
    requires u != "" && u[0] == ','
    ensures u == "," + u[1..] && u[1..] != u
  {}

  /** Whatever the loop accepts was written as a table of the pairs it returns. */
  lemma {:induction false} FindTable(s: string, acc: map<string, string>) returns (w: Table)
    requires PairsFrom(s, acc).Some?
    ensures w.Good() && w.Text() == s && Distinct(w.pairs) && NewKeys(w.pairs, acc)
    ensures s != "" ==> w.pairs != []
    decreases |s|
  {
    if s == "" {
      w := Table([], false, "");
    } else {
      hide *;
      var p, u, c := FindPair(s, acc);
      var acc1 := acc[p.key := p.val];
      if u == "" {
        w := OnePair(p, c);
      } else {
        CommaAfter(u, acc1);
        CommaFirst(u);
        var m := TrimSpace(u[1..]);
        var a, b := TrimParts(u[1..]);
        TrimShorter(u);
        var rest := FindTable(m, acc1);
        var x := Surround(rest, a, b);
        w := MorePairs(p, x, rest, c, acc);
        MoreText(s, p.Text(), u, u[1..], c, x.Text());
      }
    }
  }

  lemma TrimShorter(u: string)
    requires u != ""
    ensures |TrimSpace(u[1..])| < |u|
  {}

  lemma CommaAfter(u: string, acc: map<string, string>)
    requires AfterValue(u, acc).Some? && u != ""
    ensures u[0] == ',' && PairsFrom(TrimSpace(u[1..]), acc).Some?
  {}

  lemma MoreText(s: string, p: string, u: string, u1: string, c: string, x: string)
    requires s == p + u + c && u == "," + u1 && u1 == x
    ensures s == p + "," + (x + c)
  {}

  lemma OnePair(p: Pair, c: string) returns (w: Table)
    requires p.Good() && AllSpace(c)
    ensures w.Good() && w.Text() == p.Text() + "" + c && Distinct(w.pairs) && w.pairs == [p]
  {
    w := Table([p], false, c);
    hide Pair.Good, AllSpace, Pair.Text;
    assert w.Rest().Text() == c;
  }

  /** A pair put before the rest of a table. */
  lemma MorePairs(p: Pair, x: Table, rest: Table, c: string, acc: map<string, string>) returns (w: Table)
    requires p.Good() && x.Good() && AllSpace(c) && p.key !in acc
    requires SameKeys(x.pairs, rest.pairs) && Distinct(rest.pairs) && NewKeys(rest.pairs, acc[p.key := p.val])
    ensures w.Good() && w.Text() == p.Text() + "," + (x.Text() + c)
    ensures Distinct(w.pairs) && NewKeys(w.pairs, acc) && w.pairs == [p] + x.pairs
  {
    TailText(x, c);
    SpaceJoin(x.tail, c);
    hide Pair.Good, AllSpace, Pair.Text;
    w := Table([p] + x.pairs, x.comma || x.pairs == [], x.tail + c);
    assert w.Rest().pairs == x.pairs;
    MoreKeys(p, x.pairs, rest.pairs, acc);
    if x.pairs == [] {
      assert w.Rest().Text() == x.Text() + c;
    } else {
      assert w.Rest() == x.(tail := x.tail + c);
    }
  }

  lemma MoreKeys(p: Pair, x: seq<Pair>, y: seq<Pair>, acc: map<string, string>)
    requires p.key !in acc && SameKeys(x, y) && Distinct(y) && NewKeys(y, acc[p.key := p.val])
    ensures Distinct([p] + x) && NewKeys([p] + x, acc)
  {
    forall q | q in x ensures q.key !in acc && q.key != p.key {
      var k :| 0 <= k < |x| && x[k] == q;
      assert y[k] in y;
    }
    var z := [p] + x;
    forall i, j | 0 <= i < j < |z| ensures z[i].key != z[j].key {
      assert z[j] == x[j - 1] && (i > 0 ==> z[i] == x[i - 1]);
    }
  }

  /** An inline table is read exactly when it is written as keys and strings with
      equals signs, commas and white space between, and no key occurs twice; what is
      read is then the map of these pairs, however one splits the text. */
  lemma PairsExactly(body: string)
    ensures InlinePairs(body).Some? <==> exists w :: IsTable(w, body)
    ensures forall w | IsTable(w, body) :: InlinePairs(body) == Some(MapOf(w.pairs))
  {
    forall w | IsTable(w, body) ensures InlinePairs(body) == Some(MapOf(w.pairs)) {
      ReadTable(w, map[]);
      assert map[] + MapOf(w.pairs) == MapOf(w.pairs);
    }
    if InlinePairs(body).Some? {
      var a, b := TrimParts(body);
      var w := FindTable(TrimSpace(body), map[]);
      var x := Surround(w, a, b);
      SameDistinct(x.pairs, w.pairs);
      assert IsTable(x, body);
    }
  }

  lemma SameDistinct(x: seq<Pair>, y: seq<Pair>)
    requires SameKeys(x, y) && Distinct(y)
    ensures Distinct(x)
  {}

  /** parseTOMLInlinePairs as it runs. */
  method ScanInlinePairs(body: string) returns (pairs: map<string, string>, ok: bool)
    ensures ok <==> exists w :: IsTable(w, body)
    ensures ok ==> forall w | IsTable(w, body) :: pairs == MapOf(w.pairs)
    ensures ok == InlinePairs(body).Some? && (ok ==> pairs == InlinePairs(body).value)
  {
    PairsExactly(body);
    hide IsTable, MapOf, ParseKey, ParseString, TrimSpace;
    pairs := map[];
    var s := TrimSpace(body);
    while s != ""
      invariant InlinePairs(body) == PairsFrom(s, pairs)
      decreases |s|
    {
      var k := ParseKey(s);
      if k.Bad? {
        return pairs, false;
      }
      var t := TrimSpace(k.rest);
      if !Starts(t, '=') {
        return pairs, false;
      }
      var v := ParseString(TrimSpace(t[1..]));
      if v.Bad? || k.val in pairs {
        return pairs, false;
      }
      pairs := pairs[k.val := v.val];
      s := TrimSpace(v.rest);
      if s == "" {
        return pairs, true;
      }
      if s[0] != ',' {
        return pairs, false;
      }
      s := TrimSpace(s[1..]);
    }
    ok := true;
  }
}
