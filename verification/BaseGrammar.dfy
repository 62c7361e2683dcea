/** Which texts are accepted as server URLs, said as a grammar: a scheme, a host in one
    of three shapes, a port, a path. */
module BaseGrammar {
  import opened Text
  import opened Decimals
  import opened BaseURL
  import opened BasePaths
  import opened IPv6
  import opened Credentials
  import opened Loopbacks

  // ---- the parts --------------------------------------------------------

  predicate Alpha(c: char) { 'a' <= c <= 'z' || 'A' <= c <= 'Z' }

  predicate Numeral(c: char) { '0' <= c <= '9' }

  /** A label of a name: letters, digits and inner hyphens, at most 63 of them. */
  predicate Label(p: string) {
    && 1 <= |p| <= 63 && p[0] != '-' && p[|p| - 1] != '-'
    && forall i | 0 <= i < |p| :: Alpha(p[i]) || Numeral(p[i]) || p[i] == '-'
  }

  /** A label that some reader of IPv4 addresses takes for a number. */
  predicate Numberlike(p: string) {
    || (forall i | 0 <= i < |p| :: Numeral(p[i]))
    || (|p| >= 2 && p[0] == '0' && (p[1] == 'x' || p[1] == 'X')
        && forall i | 2 <= i < |p| :: Numeral(p[i]) || 'a' <= p[i] <= 'f' || 'A' <= p[i] <= 'F')
  }

  /** A name: labels with dots between and perhaps one dot after, at most 253 characters
      without that one; the last label is no number. */
  ghost predicate Name(host: string) {
    var n := TrimDot(host);
    && |n| <= 253
    && (forall x, p, y | Between(n, '.', x, p, y) :: Label(p))
    && (forall x, p | Between(n, '.', x, p, "") :: !Numberlike(p))
  }

  ghost predicate Quads(host: string) {
    exists a: nat, b: nat, c: nat, d: nat :: Quadded(host, a, b, c, d)
  }

  ghost predicate Bracketed(host: string, a: string) {
    host == "[" + a + "]" && Canonical6(Lower(a)).Some?
  }

  /** A port from 1 to 65535. */
  ghost predicate Ported(port: string, digits: string) {
    port == ":" + digits && digits != "" && (forall i | 0 <= i < |digits| :: Numeral(digits[i])) && 1 <= Value(digits) <= 65535
  }

  ghost predicate Path(path: string) {
    && (path == "" || path[0] == '/')
    && (forall i | 0 <= i < |path| :: Alpha(path[i]) || Numeral(path[i]) || path[i] in "._~!$&'()*+,;=:@/%-")
    && (forall i | 0 <= i < |path| && path[i] == '%' ::
          i + 2 < |path| && HexValue(path[i + 1]).Some? && HexValue(path[i + 2]).Some?)
    && forall x, seg, y | Between(path, '/', x, seg, y) :: !DotSegment(seg)
  }

  // ---- names ------------------------------------------------------------

  lemma LowerAt(s: string, i: nat)
    requires i < |s|
    ensures AlNum(Lower(s)[i]) <==> Alpha(s[i]) || Numeral(s[i])
    ensures IsDigit(Lower(s)[i]) <==> Numeral(s[i])
    ensures Lower(s)[i] == '-' <==> s[i] == '-'
    ensures Lower(s)[i] == '.' <==> s[i] == '.'
    ensures Lower(s)[i] == '0' <==> s[i] == '0'
    ensures Lower(s)[i] == 'x' <==> s[i] == 'x' || s[i] == 'X'
    ensures 'a' <= Lower(s)[i] <= 'f' <==> 'a' <= s[i] <= 'f' || 'A' <= s[i] <= 'F'
  {}

  lemma LabelExactly(p: string)
    ensures DnsLabel(Lower(p)) <==> Label(p)
    ensures p != "" ==> (NumericLabel(Lower(p)) <==> Numberlike(p))
  {
    forall i | 0 <= i < |p|
      ensures AlNum(Lower(p)[i]) <==> Alpha(p[i]) || Numeral(p[i])
      ensures IsDigit(Lower(p)[i]) <==> Numeral(p[i])
      ensures Lower(p)[i] == '-' <==> p[i] == '-'
      ensures Lower(p)[i] == '0' <==> p[i] == '0'
      ensures Lower(p)[i] == 'x' <==> p[i] == 'x' || p[i] == 'X'
      ensures 'a' <= Lower(p)[i] <= 'f' <==> 'a' <= p[i] <= 'f' || 'A' <= p[i] <= 'F'
    {
      LowerAt(p, i);
    }
    hide Lower;
  }

  /** The pieces of a text in lower case. */
  lemma {:induction false} SplitLower(s: string, last: string)
    ensures SplitOn(Lower(s), '.', Lower(last)) == Lowered(SplitOn(s, '.', last))
    decreases |s|
  {
    if s == "" {
      assert Lower(s) == "";
      assert Lowered([last]) == [Lower(last)];
    } else {
      var init, d := s[..|s| - 1], s[|s| - 1];
      LowerPart(s, |s| - 1);
      LowerAt(s, |s| - 1);
      assert Lower(s)[..|s| - 1] == Lower(init);
      if d == '.' {
        assert Lower("") == "";
        SplitLower(init, "");
      } else {
        assert [Lower(s)[|s| - 1]] + Lower(last) == Lower([d] + last);
        SplitLower(init, [d] + last);
      }
    }
  }

  function Lowered(pieces: seq<string>): seq<string> {
    seq(|pieces|, k requires 0 <= k < |pieces| => Lower(pieces[k]))
  }

  /** The last piece reaches to the end. */
  lemma {:induction false} LastPiece(s: string, c: char, last: string) returns (x: string)
    requires c !in last
    ensures var f := SplitOn(s, c, last); Between(s + last, c, x, f[|f| - 1], "")
  {
    if s == "" {
      x := "";
      assert s + last == "" + last + "";
    } else {
      var init, d := s[..|s| - 1], s[|s| - 1];
      if d == c {
        x := s;
        assert s + last == s + last + "";
      } else {
        x := LastPiece(init, c, [d] + last);
        assert init + ([d] + last) == s + last;
      }
    }
  }

  /** And only one piece does. */
  lemma LastIsOne(s: string, c: char, x: string, p: string, x2: string, p2: string)
    requires Between(s, c, x, p, "") && Between(s, c, x2, p2, "")
    ensures x == x2 && p == p2
  {
    assert s == x + p && s == x2 + p2;
    if |x| < |x2| {
      Inside(x, p, x2, p2, c);
    } else if |x2| < |x| {
      Inside(x2, p2, x, p, c);
    }
    assert x == s[..|x|] && x2 == s[..|x2|] && p == s[|x|..] && p2 == s[|x2|..];
  }

  lemma Inside(x: string, p: string, y: string, q: string, c: char)
    requires x + p == y + q && |x| < |y| && y[|y| - 1] == c
    ensures c in p
  {
    var s := x + p;
    assert s[|y| - 1] == (y + q)[|y| - 1] == y[|y| - 1];
    assert s[|y| - 1] == p[|y| - 1 - |x|];
  }

  /** The names that are accepted. */
  lemma NameExactly(host: string)
    ensures DnsName(Lower(host)) <==> Name(host)
  {
    hide SplitOn, DnsName, NumericLabel, Label, Numberlike, Lower, Between;
    var n := TrimDot(host);
    var f := SplitOn(n, '.', "");
    var x := LastPiece(n, '.', "");
    assert n + "" == n;
    DnsIs(host, f);
    LastLabel(n, f, x);
    LabelsExactly(n);
  }

  lemma DnsIs(host: string, f: seq<string>)
    requires f == SplitOn(TrimDot(host), '.', "")
    ensures DnsName(Lower(host)) <==>
            |TrimDot(host)| <= 253 && (forall p | p in f :: Label(p)) && !NumericLabel(Lower(f[|f| - 1]))
  {
    TrimLower(host);
    SplitLower(TrimDot(host), "");
    LowerNothing();
    hide SplitOn, DnsLabel, NumericLabel, Label, Numberlike, Lower, TrimDot;
    LoweredLabels(f);
  }

  lemma LowerNothing()
    ensures Lower("") == ""
  {}

  lemma LoweredLabels(f: seq<string>)
    ensures (forall l | l in Lowered(f) :: DnsLabel(l)) <==> forall p | p in f :: Label(p)
    ensures f != [] ==> Lowered(f)[|f| - 1] == Lower(f[|f| - 1])
  {
    hide DnsLabel, Label, Lower;
    forall k | 0 <= k < |f| ensures Lowered(f)[k] == Lower(f[k]) && (DnsLabel(Lowered(f)[k]) <==> Label(f[k])) {
      LabelExactly(f[k]);
    }
  }

  lemma TrimLower(host: string)
    ensures TrimDot(Lower(host)) == Lower(TrimDot(host))
  {
    if host != "" {
      LowerAt(host, |host| - 1);
      LowerPart(host, |host| - 1);
    }
  }

  lemma LabelsExactly(n: string)
    ensures (forall p | p in SplitOn(n, '.', "") :: Label(p)) <==> forall x, p, y | Between(n, '.', x, p, y) :: Label(p)
  {
    hide SplitOn, Label;
    assert n + "" == n;
    forall p | p in SplitOn(n, '.', "") ensures exists x, y :: Between(n, '.', x, p, y) {
      var x, y := PieceBetween(n, '.', "", p);
    }
    forall x, p, y | Between(n, '.', x, p, y) ensures p in SplitOn(n, '.', "") {
      BetweenPiece(n, '.', x, p, y);
    }
  }

  lemma LastLabel(n: string, f: seq<string>, x: string)
    requires f == SplitOn(n, '.', "") && Between(n, '.', x, f[|f| - 1], "")
    ensures Label(f[|f| - 1]) ==>
              (NumericLabel(Lower(f[|f| - 1])) <==> exists x2, p :: Between(n, '.', x2, p, "") && Numberlike(p))
  {
    hide SplitOn, Lower, NumericLabel, Numberlike;
    var p := f[|f| - 1];
    if Label(p) {
      LabelExactly(p);
    }
    forall x2, p2 | Between(n, '.', x2, p2, "") ensures p2 == p {
      LastIsOne(n, '.', x, p, x2, p2);
    }
  }

  // ---- characters -------------------------------------------------------

  predicate AddressChar(c: char) { Numeral(c) || 'a' <= c <= 'f' || 'A' <= c <= 'F' || c == ':' || c == '.' }

  predicate HostChar(c: char) { Alpha(c) || Numeral(c) || c == '-' || c == '.' }

  lemma {:induction false} HexChars(s: string, i: nat)
    requires i <= |s|
    ensures forall k | i <= k < HexEnd(s, i) :: AddressChar(s[k])
    decreases |s| - i
  {
    if i < |s| && HexValue(s[i]).Some? {
      HexChars(s, i + 1);
    }
  }

  lemma QuadChars(s: string)
    requires IPv4(s)
    ensures s != "" && forall c | c in s :: Numeral(c) || c == '.'
  {
    IPv4Exactly(s);
    hide IPv4, Quad;
    var a: nat, b: nat, c: nat, d: nat :| Quadded(s, a, b, c, d);
    QuadIs(a, b, c, d);
  }

  lemma {:induction false} ScanChars(s: string, got: Groups, gap: Option<nat>)
    requires ScanGroups(s, got, gap).Scanned?
    ensures forall c | c in s :: AddressChar(c)
    decreases |s|
  {
    hide HexEnd, HexNumber, IPv4, Dotted;
    if |got| < 8 {
      var n := HexEnd(s, 0);
      HexChars(s, 0);
      if n < |s| && s[n] == '.' {
        QuadChars(s);
      } else {
        var t := s[n..];
        assert s == s[..n] + t;
        AfterChars(t, got + [HexNumber(s[..n])], gap);
      }
    }
  }

  lemma {:induction false} AfterChars(t: string, got: Groups, gap: Option<nat>)
    requires AfterGroup(t, got, gap).Scanned?
    ensures forall c | c in t :: AddressChar(c)
    decreases |t|, 1
  {
    hide ScanGroups;
    if t != "" {
      if t[1] != ':' {
        ScanChars(t[1..], got, gap);
        assert t == [t[0]] + t[1..];
      } else if |t| > 2 {
        ScanChars(t[2..], got, Some(|got|));
        assert t == [t[0], t[1]] + t[2..];
      }
    }
  }

  lemma ParseChars(s: string)
    requires Canonical6(s).Some?
    ensures forall c | c in s :: AddressChar(c)
  {
    hide ScanGroups, Print;
    if HasPrefix(s, "::") {
      assert s == "::" + s[2..];
      if |s| > 2 {
        ScanChars(s[2..], [], Some(0));
      }
    } else {
      ScanChars(s, [], None);
    }
  }

  lemma AddressChars(a: string)
    requires Canonical6(Lower(a)).Some?
    ensures forall c | c in a :: AddressChar(c)
  {
    hide Canonical6;
    ParseChars(Lower(a));
    forall i | 0 <= i < |a| ensures AddressChar(a[i]) {
      assert Lower(a)[i] in Lower(a);
      LowerAt(a, i);
    }
  }

  lemma NameChars(host: string)
    requires Name(host)
    ensures host != "" && forall c | c in host :: HostChar(c)
  {
    hide Name;
    NameExactly(host);
    DnsChars(Lower(host));
    hide DnsName;
    forall i | 0 <= i < |host| ensures HostChar(host[i]) {
      assert NameChar(Lower(host)[i]);
      LowerAt(host, i);
    }
  }

  // ---- the authority ----------------------------------------------------

  lemma PlainShape(host: string, port: string)
    requires host != "" && (forall c | c in host :: HostChar(c)) && PortText(port)
    ensures var a := host + port;
            && a != "" && a[0] != '[' && '@' !in a && '%' !in a && '/' !in a && a[|a| - 1] != ':'
            && (port == "" ==> a == host && ':' !in a)
            && (port != "" ==> a[|host|] == ':' && (forall i | |host| < i < |a| :: a[i] != ':')
                               && a[..|host|] == host && a[|host| + 1..] == port[1..])
            && AllOf(a, UrlChar)
  {
    var a := host + port;
    assert a[0] == host[0] && host[0] in host;
    assert forall i | 0 <= i < |host| :: a[i] == host[i] && host[i] in host;
    assert forall i | 1 <= i < |port| :: port[i] == port[1..][i - 1];
    assert forall i | |host| <= i < |a| :: a[i] == port[i - |host|];
    if port != "" {
      assert a[..|host|] == host && a[|host| + 1..] == port[1..];
    } else {
      assert a == host;
    }
  }

  lemma PlainCut(host: string, port: string)
    requires host != "" && (forall c | c in host :: HostChar(c)) && PortText(port)
    ensures CutAuthority(host + port) == Some(HostPort(false, host, if port == "" then "" else port[1..]))
  {
    PlainShape(host, port);
    hide LastIndexOf, AllOf, AllDigits, HostChar;
    if port != "" {
      LastIndexIs(host + port, ':', |host|);
    }
  }

  lemma BracketShape(addr: string, port: string)
    requires (forall c | c in addr :: AddressChar(c)) && PortText(port)
    ensures var a, j := "[" + addr + "]" + port, |addr| + 1;
            && a[0] == '[' && a[j] == ']' && '@' !in a && '%' !in a && '/' !in a && a[|a| - 1] != ':'
            && (forall i | j < i < |a| :: a[i] != ']') && a[1..j] == addr && a[j + 1..] == port && AllOf(a, UrlChar)
  {
    var a := "[" + addr + "]" + port;
    var j := |addr| + 1;
    assert forall i | 1 <= i < j :: a[i] == addr[i - 1] && addr[i - 1] in addr;
    assert forall i | 1 <= i < |port| :: port[i] == port[1..][i - 1];
    assert forall i | j < i < |a| :: a[i] == port[i - j - 1];
    assert a[1..j] == addr && a[j + 1..] == port;
  }

  lemma BracketCut(addr: string, port: string)
    requires (forall c | c in addr :: AddressChar(c)) && PortText(port)
    ensures CutAuthority("[" + addr + "]" + port) == Some(HostPort(true, addr, if port == "" then "" else port[1..]))
  {
    BracketShape(addr, port);
    hide LastIndexOf, AllOf, AddressChar;
    LastIndexIs("[" + addr + "]" + port, ']', |addr| + 1);
  }

  /** An authority that was cut, put together again. */
  lemma CutWhole(a: string)
    requires CutAuthority(a).Some?
    ensures var h := CutAuthority(a).value;
            && a == (if h.bracketed then "[" + h.hostname + "]" else h.hostname) + (if h.port == "" then "" else ":" + h.port)
            && AllDigits(h.port)
  {
    hide LastIndexOf;
    if a[0] == '[' {
      var j := LastIndexOf(a, ']');
      assert a == "[" + a[1..j] + "]" + a[j + 1..];
      if a[j + 1..] != "" {
        assert a[j + 1..] == ":" + a[j + 1..][1..];
      }
    } else {
      var j := LastIndexOf(a, ':');
      if j >= 0 {
        assert a == a[..j] + (":" + a[j + 1..]);
      } else {
        assert a + "" == a;
      }
    }
  }

  // ---- the whole URL ----------------------------------------------------

  ghost predicate HostOk(host: string) {
    (exists a :: Bracketed(host, a)) || Quads(host) || Name(host)
  }

  ghost predicate PortOk(port: string) {
    port == "" || exists digits :: Ported(port, digits)
  }

  /** The text is a URL of these parts. */
  ghost predicate Spelled(raw: string, scheme: string, host: string, port: string, path: string) {
    && raw == scheme + "://" + (host + port) + path
    && (Lower(scheme) == "http" || Lower(scheme) == "https")
    && HostOk(host) && PortOk(port) && Path(path)
  }

  /** The one spelling of the host: lower case, or the address in its canonical text. */
  function OneHost(host: string): string {
    if |host| >= 2 && host[0] == '[' then
      var a := Canonical6(Lower(host[1..|host| - 1]));
      if a.Some? then "[" + a.value + "]" else ""
    else Lower(host)
  }

  /** The one spelling of the port: none for the scheme's own, else its number. */
  function OnePort(scheme: string, port: string): string {
    if port == "" then ""
    else
      var n := Value(port[1..]);
      if n <= 0 || (Lower(scheme) == "http" && n == 80) || (Lower(scheme) == "https" && n == 443) then ""
      else ":" + Digits(n)
  }

  lemma PortRead(scheme: string, port: string)
    requires PortOk(port) && (Lower(scheme) == "http" || Lower(scheme) == "https")
    ensures PortText(port) && CanonicalPort(Lower(scheme), if port == "" then "" else port[1..]) == Some(OnePort(scheme, port))
  {
    hide Value, Digits, Lower;
    if port != "" {
      var digits :| Ported(port, digits);
      assert port[1..] == digits;
    }
  }

  lemma NameOrQuad(host: string)
    requires Quads(host) || Name(host)
    ensures host != "" && (forall c | c in host :: HostChar(c)) && host[0] != '['
    ensures IPv4(Lower(host)) || DnsName(Lower(host))
  {
    hide Name, Quad, IPv4, DnsName;
    if Name(host) {
      NameChars(host);
      NameExactly(host);
    } else {
      IPv4Exactly(host);
      QuadChars(host);
      LowerKeeps(host);
    }
    assert host[0] in host;
  }

  lemma AuthorityRead(host: string, port: string)
    requires HostOk(host) && PortText(port)
    ensures var h := CutAuthority(host + port);
            && h.Some? && h.value.port == (if port == "" then "" else port[1..])
            && CanonicalHost(Canonical6, h.value) == Some(OneHost(host))
            && AllOf(host + port, UrlChar) && '/' !in host + port
  {
    hide Canonical6, CutAuthority, IPv4, DnsName, AllOf, Name, Quads, PortText, Lower;
    if a :| Bracketed(host, a) {
      AddressChars(a);
      BracketShape(a, port);
      BracketCut(a, port);
      assert host[0] == '[' && host[1..|host| - 1] == a;
    } else {
      NameOrQuad(host);
      PlainShape(host, port);
      PlainCut(host, port);
    }
  }

  lemma PathRead(path: string)
    ensures (path == "" || path[0] == '/') && PathOk(path) <==> Path(path)
    ensures Path(path) ==> AllOf(path, UrlChar)
  {
    PathExactly(path);
    forall c ensures PathChar(c) <==> Alpha(c) || Numeral(c) || c in "._~!$&'()*+,;=:@/%-" {}
    forall c ensures IsHex(c) <==> HexValue(c).Some? {}
    hide DotSegment, PathChar;
    if Path(path) {
      PathCharsAreUrl(path);
    }
  }

  lemma SchemePlain(scheme: string)
    requires Lower(scheme) == "http" || Lower(scheme) == "https"
    ensures AllOf(scheme + SEPARATOR, UrlChar) && ':' !in scheme
  {
    forall i | 0 <= i < |scheme| ensures Alpha(scheme[i]) {
      assert 'a' <= Lower(scheme)[i] <= 'z';
    }
  }

  /** What is spelled so is accepted, and what it is turned into. */
  lemma SpelledAccepted(raw: string, scheme: string, host: string, port: string, path: string)
    requires Spelled(raw, scheme, host, port, path)
    ensures Canonical(Canonical6, raw) == Some(Lower(scheme) + "://" + (OneHost(host) + OnePort(scheme, port)) + TrimSlashes(path))
  {
    hide Canonical, Canonical6, CanonicalHost, CanonicalPort, CutAuthority, AllOf, HostOk, PortOk, Path, PathOk, OneHost, OnePort, Lower, TrimSlashes;
    PortRead(scheme, port);
    AuthorityRead(host, port);
    PathRead(path);
    SchemePlain(scheme);
    PathFirst(path);
    OnParts(Canonical6, scheme, host + port, path);
    var x, y, z := Lower(scheme) + "://", OneHost(host), OnePort(scheme, port);
    assert x + y + z == x + (y + z);
  }

  lemma PathFirst(path: string)
    requires Path(path)
    ensures path == "" || path[0] == '/'
  {}

  lemma HostFound(h: HostPort)
    requires CanonicalHost(Canonical6, h).Some?
    ensures HostOk(if h.bracketed then "[" + h.hostname + "]" else h.hostname)
  {
    hide Canonical6, DnsName, Name, Quad;
    if h.bracketed {
      assert Bracketed("[" + h.hostname + "]", h.hostname);
    } else if IPv4(Lower(h.hostname)) {
      hide IPv4;
      IPv4Exactly(Lower(h.hostname));
      QuadChars(Lower(h.hostname));
      DigitsWereThere(h.hostname);
    } else {
      NameExactly(h.hostname);
    }
  }

  lemma PortFound(scheme: string, port: string)
    requires CanonicalPort(scheme, port).Some? && AllDigits(port)
    ensures PortOk(if port == "" then "" else ":" + port)
  {
    if port != "" {
      assert Ported(":" + port, port);
    }
  }

  /** What is accepted is spelled so. */
  lemma AcceptedSpelled(raw: string) returns (scheme: string, host: string, port: string, path: string)
    requires Canonical(Canonical6, raw).Some?
    ensures Spelled(raw, scheme, host, port, path)
  {
    hide Canonical6, CanonicalHost, CanonicalPort, CutAuthority, PathOk, AllOf, AllDigits, Cut, HostOk, PortOk, Path, Lower;
    var parts := Cut(raw).value;
    var h := CutAuthority(parts.authority).value;
    CutApart(raw);
    CutPath(raw);
    CutWhole(parts.authority);
    HostFound(h);
    PortFound(Lower(parts.scheme), h.port);
    PathRead(parts.path);
    scheme, path := parts.scheme, parts.path;
    host := if h.bracketed then "[" + h.hostname + "]" else h.hostname;
    port := if h.port == "" then "" else ":" + h.port;
  }

  lemma CutApart(raw: string)
    requires Cut(raw).Some?
    ensures var p := Cut(raw).value; raw == p.scheme + "://" + p.authority + p.path
  {
    var i := IndexOf(raw, SEPARATOR);
    hide IndexOf;
    assert raw[i..i + |SEPARATOR|] == SEPARATOR && |SEPARATOR| == 3;
    Pieces(raw, i, i + 3);
    var rest := raw[i + 3..];
    var j := IndexOf(rest, "/");
    if j >= 0 {
      assert At(rest, "/", j);
      Pieces(rest, j, j);
    }
  }

  lemma Pieces(s: string, i: nat, j: nat)
    requires i <= j <= |s|
    ensures s == s[..i] + s[i..j] + s[j..] && s == s[..j] + s[j..]
  {}

  /** A text is accepted as a server URL exactly when it is spelled by the grammar: http
      or https in any case; an IPv6 address in brackets, an IPv4 address in dotted
      decimals, or a DNS name; perhaps a port from 1 to 65535; a path of plain
      characters and escapes without dot segments. */
  lemma AcceptedExactly(raw: string)
    ensures Canonical(Canonical6, raw).Some? <==>
            exists scheme, host, port, path :: Spelled(raw, scheme, host, port, path)
  {
    hide Canonical, Canonical6, Spelled;
    if Canonical(Canonical6, raw).Some? {
      var scheme, host, port, path := AcceptedSpelled(raw);
    }
    if scheme, host, port, path :| Spelled(raw, scheme, host, port, path) {
      SpelledAccepted(raw, scheme, host, port, path);
    }
  }

  // ---- the default ------------------------------------------------------

  lemma LocalhostIsName()
    ensures Name("localhost")
  {
    var h := "localhost";
    forall c | c in h ensures Alpha(c) && c != '.' {}
    forall i | 0 <= i < |h| ensures Alpha(h[i]) {
      assert h[i] in h;
    }
    assert TrimDot(h) == h && |h| == 9;
    hide Alpha;
    forall x, p, y | Between(h, '.', x, p, y) ensures p == h {
      NoDotInside(h, x, p, y);
    }
    LocalhostLabel();
  }

  lemma LocalhostLabel()
    ensures Label("localhost") && !Numberlike("localhost")
  {
    var h := "localhost";
    assert h[0] == 'l' && h[8] == 't';
    forall i | 0 <= i < |h| ensures Alpha(h[i]) {
      assert h[i] in h;
    }
  }

  lemma NoDotInside(h: string, x: string, p: string, y: string)
    requires Between(h, '.', x, p, y) && '.' !in h
    ensures p == h
  {
    EndsIn(x);
    EndsIn(y);
    assert forall c | c in x :: c in h;
    assert forall c | c in y :: c in h;
  }

  lemma EndsIn(x: string)
    ensures x != "" ==> x[0] in x && x[|x| - 1] in x
  {}

  lemma DefaultPort()
    ensures Ported(":9090", "9090") && Value("9090") == 9090 && Digits(9090) == "9090"
  {
    var d := "9090";
    assert d[..3] == "909" && "909"[..2] == "90" && "90"[..1] == "9" && "9"[..0] == "";
    assert Value("9") == 9 && Value("90") == 90 && Value("909") == 909;
    DigitsOf(d);
  }

  lemma NoPath()
    ensures Path("") && TrimSlashes("") == ""
  {
    forall x, seg, y | Between("", '/', x, seg, y) ensures !DotSegment(seg) {
      assert seg == "";
    }
  }

  /** With nothing named and nothing saved, a command talks to the local server, with
      whatever key is given. */
  lemma NothingNamed(env: Env)
    requires env.url == ""
    ensures Resolve(Canonical6, "", env, NoFile) == Resolved("http://localhost:9090", env.key, false)
  {
    LocalhostIsName();
    DefaultPort();
    NoPath();
    hide Canonical, Canonical6, Name, Path, Digits, Value, CleartextRemote, TrimSlashes;
    LowerKeeps("localhost");
    LowerKeeps("http");
    assert HostOk("localhost") && PortOk(":9090");
    assert DEFAULT_SERVER == "http" + "://" + ("localhost" + ":9090") + "";
    SpelledAccepted(DEFAULT_SERVER, "http", "localhost", ":9090", "");
    assert ":9090"[1..] == "9090";
    assert OneHost("localhost") == "localhost" && OnePort("http", ":9090") == ":" + "9090";
    assert "http" + "://" + ("localhost" + (":" + "9090")) + "" == "http://localhost:9090";
  }
}
