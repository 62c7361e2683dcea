/** Server base URLs: one canonical spelling per server, and which saved key may go
    where. The URL is cut with the grammar of section 3 of RFC 3986 as Go's parser
    reads the byte range the code lets through. */
module BaseURL {
  import opened Text
  import opened Decimals

  // ---- characters -------------------------------------------------------

  predicate IsDigit(c: char) { '0' <= c <= '9' }
  predicate IsLower(c: char) { 'a' <= c <= 'z' }
  predicate IsHex(c: char) { IsDigit(c) || 'a' <= c <= 'f' || 'A' <= c <= 'F' }

  /** Neither white space nor control nor beyond ASCII, and none of \ ? #. */
  predicate UrlChar(c: char) {
    '!' <= c <= '~' && c != '\\' && c != '?' && c != '#'
  }

  predicate PathChar(c: char) {
    IsDigit(c) || IsLower(c) || 'A' <= c <= 'Z' || c in "._~!$&'()*+,;=:@/%-"
  }

  predicate AllOf(s: string, p: char -> bool) {
    forall i | 0 <= i < |s| :: p(s[i])
  }

  // ---- hosts ------------------------------------------------------------

  /** The pieces of a text between occurrences of `c`. */
  function SplitOn(s: string, c: char, last: string): (r: seq<string>)
    ensures |r| >= 1
  {
    if s == "" then [last]
    else if s[|s| - 1] == c then SplitOn(s[..|s| - 1], c, "") + [last]
    else SplitOn(s[..|s| - 1], c, [s[|s| - 1]] + last)
  }

  predicate AlNum(c: char) { IsDigit(c) || IsLower(c) }

  predicate DnsLabel(s: string) {
    && 1 <= |s| <= 63 && AlNum(s[0]) && AlNum(s[|s| - 1])
    && forall i | 0 <= i < |s| :: AlNum(s[i]) || s[i] == '-'
  }

  predicate NumericLabel(s: string) {
    || (s != "" && forall i | 0 <= i < |s| :: IsDigit(s[i]))
    || (|s| >= 2 && s[0] == '0' && s[1] == 'x' && forall i | 2 <= i < |s| :: IsDigit(s[i]) || 'a' <= s[i] <= 'f')
  }

  function TrimDot(s: string): string {
    if s != "" && s[|s| - 1] == '.' then s[..|s| - 1] else s
  }

  /** A DNS name whose last label no IPv4 reader could take for a number. */
  predicate DnsName(hostname: string) {
    var labels := SplitOn(TrimDot(hostname), '.', "");
    |TrimDot(hostname)| <= 253 && (forall l | l in labels :: DnsLabel(l)) && !NumericLabel(labels[|labels| - 1])
  }

  predicate Octet(s: string) {
    && 1 <= |s| <= 3 && (forall i | 0 <= i < |s| :: IsDigit(s[i]))
    && (|s| > 1 ==> s[0] != '0') && Value(s) <= 255
  }

  /** Strict dotted decimal: the only spelling of an IPv4 address that is accepted. */
  predicate IPv4(hostname: string) {
    var fields := SplitOn(hostname, '.', "");
    |fields| == 4 && forall f | f in fields :: Octet(f)
  }

  /** Reading and printing IPv6 addresses (section 4 of RFC 5952, mapped addresses in
      hex) is a parameter that gives the canonical text of a zoneless address; the
      module IPv6 defines it. */
  type IPv6 = string -> Option<string>

  predicate IPv6Char(c: char) { IsDigit(c) || 'a' <= c <= 'f' || c == ':' }

  /** The canonical text is itself an address, its own canonical text, in lower-case
      hex and colons. */
  ghost predicate Lawful(v6: IPv6) {
    forall s | v6(s).Some? :: v6(v6(s).value) == v6(s) && v6(s).value != "" && AllOf(v6(s).value, IPv6Char)
  }

  // ---- cutting the URL --------------------------------------------------

  datatype Parts = Parts(scheme: string, authority: string, path: string)

  const SEPARATOR := "://"

  /** `None` also for what the parser would read as no authority at all. */
  function Cut(raw: string): Option<Parts> {
    var i := IndexOf(raw, SEPARATOR);
    if i < 0 then None
    else
      var rest := raw[i + 3..];
      var j := IndexOf(rest, "/");
      Some(Parts(raw[..i], if j < 0 then rest else rest[..j], if j < 0 then "" else rest[j..]))
  }

  /** A host text and a port text; the port is empty when there is none. */
  datatype HostPort = HostPort(bracketed: bool, hostname: string, port: string)

  predicate AllDigits(s: string) {
    forall i | 0 <= i < |s| :: IsDigit(s[i])
  }

  function LastIndexOf(s: string, c: char): (r: int)
    ensures -1 <= r < |s|
    ensures r >= 0 ==> s[r] == c && forall k | r < k < |s| :: s[k] != c
    ensures r < 0 ==> forall k | 0 <= k < |s| :: s[k] != c
  {
    if s == "" then -1 else if s[|s| - 1] == c then |s| - 1 else LastIndexOf(s[..|s| - 1], c)
  }

  /** An authority without user information, escapes, or an empty port. */
  function CutAuthority(a: string): Option<HostPort> {
    if a == "" || '@' in a || '%' in a || a[|a| - 1] == ':' then None
    else if a[0] == '[' then
      var j := LastIndexOf(a, ']');
      if j < 0 then None
      else
        var port := a[j + 1..];
        if port == "" then Some(HostPort(true, a[1..j], ""))
        else if port[0] == ':' && AllDigits(port[1..]) then Some(HostPort(true, a[1..j], port[1..]))
        else None
    else
      var j := LastIndexOf(a, ':');
      if j < 0 then Some(HostPort(false, a, ""))
      else if AllDigits(a[j + 1..]) then Some(HostPort(false, a[..j], a[j + 1..]))
      else None
  }

  // ---- the canonical form -----------------------------------------------

  function DefaultPort(scheme: string): int {
    if scheme == "http" then 80 else 443
  }

  /** The port in its one spelling: none for the scheme's default. */
  function CanonicalPort(scheme: string, port: string): Option<string> {
    if port == "" then Some("")
    else if Value(port) > 65535 || Value(port) <= 0 then None
    else if Value(port) == DefaultPort(scheme) then Some("")
    else Some(":" + Digits(Value(port)))
  }

  function CanonicalHost(v6: IPv6, h: HostPort): Option<string> {
    var hostname := Lower(h.hostname);
    if h.bracketed then
      match v6(hostname)
      case None => None
      case Some(text) => Some("[" + text + "]")
    else if IPv4(hostname) || DnsName(hostname) then Some(hostname)
    else None
  }

  /** Every % starts an escape of two hex digits. */
  predicate EscapesOk(s: string) {
    forall i | 0 <= i < |s| && s[i] == '%' :: i + 2 < |s| && IsHex(s[i + 1]) && IsHex(s[i + 2])
  }

  /** strings.ReplaceAll(s, "%2e", "."). */
  function Undot(s: string): string {
    if s == "" then ""
    else if HasPrefix(s, "%2e") then "." + Undot(s[3..])
    else [s[0]] + Undot(s[1..])
  }

  predicate Dots(segment: string) {
    var d := Undot(Lower(segment));
    d == "." || d == ".."
  }

  predicate PathOk(path: string) {
    AllOf(path, PathChar) && EscapesOk(path) && forall seg | seg in SplitOn(path, '/', "") :: !Dots(seg)
  }

  function Canonical(v6: IPv6, raw: string): Option<string> {
    if raw == "" || !AllOf(raw, UrlChar) then None
    else
      match Cut(raw)
      case None => None
      case Some(parts) =>
        var scheme := Lower(parts.scheme);
        match CutAuthority(parts.authority)
        case None => None
        case Some(h) =>
          if scheme != "http" && scheme != "https" then None
          else
            match CanonicalPort(scheme, h.port)
            case None => None
            case Some(port) =>
              match CanonicalHost(v6, h)
              case None => None
              case Some(host) =>
                if !PathOk(parts.path) then None
                else Some(scheme + SEPARATOR + host + port + TrimSlashes(parts.path))
  }

  method CanonicalBaseURL(v6: IPv6, raw: string) returns (r: Option<string>)
    ensures r == Canonical(v6, raw)
  {
    hide Cut, CutAuthority, IPv4, DnsName, EscapesOk, Dots, UrlChar, PathChar;
    if raw == "" {
      return None;
    }
    for i := 0 to |raw|
      invariant forall k | 0 <= k < i :: UrlChar(raw[k])
    {
      if !UrlChar(raw[i]) {
        return None;
      }
    }
    var cut := Cut(raw);
    if cut.None? {
      return None;
    }
    var scheme := Lower(cut.value.scheme);
    var authority := CutAuthority(cut.value.authority);
    if authority.None? || (scheme != "http" && scheme != "https") {
      return None;
    }
    var port := authority.value.port;
    if port != "" {
      var number := Value(port);
      if number > 65535 || number <= 0 {
        return None;
      }
      port := ":" + Digits(number);
      if (scheme == "http" && number == 80) || (scheme == "https" && number == 443) {
        port := "";
      }
    }
    var host := Lower(authority.value.hostname);
    if authority.value.bracketed {
      var text := v6(host);
      if text.None? {
        return None;
      }
      host := "[" + text.value + "]";
    } else if !IPv4(host) && !DnsName(host) {
      return None;
    }
    assert scheme + SEPARATOR + host + port == scheme + SEPARATOR + (host + port);
    host := host + port;
    var path := cut.value.path;
    if !AllOf(path, PathChar) || !EscapesOk(path) {
      return None;
    }
    var segments := SplitOn(path, '/', "");
    for i := 0 to |segments|
      invariant forall k | 0 <= k < i :: !Dots(segments[k])
    {
      if Dots(segments[i]) {
        return None;
      }
    }
    r := Some(scheme + SEPARATOR + host + TrimSlashes(path));
  }

  // ---- reading a canonical URL again ------------------------------------

  lemma SeparatorAt(scheme: string, rest: string)
    requires ':' !in scheme
    ensures var raw := scheme + (SEPARATOR + rest);
            IndexOf(raw, SEPARATOR) == |scheme| && raw[..|scheme|] == scheme && raw[|scheme| + 3..] == rest
  {
    var raw := scheme + (SEPARATOR + rest);
    assert SEPARATOR[0] == ':' && |SEPARATOR| == 3;
    assert raw[|scheme|..|scheme| + 3] == SEPARATOR;
    assert At(raw, SEPARATOR, |scheme|);
    forall k | 0 <= k < |scheme| ensures !At(raw, SEPARATOR, k) {
      assert raw[k] == scheme[k];
      NotAt(raw, SEPARATOR, k);
    }
  }

  lemma NotAt(s: string, m: string, k: nat)
    requires k < |s| && m != "" && s[k] != m[0]
    ensures !At(s, m, k)
  {
    if k + |m| <= |s| {
      assert s[k..k + |m|][0] == s[k];
    }
  }

  lemma CutAgain(scheme: string, a: string, path: string)
    requires ':' !in scheme && '/' !in a && (path == "" || path[0] == '/')
    ensures Cut(scheme + SEPARATOR + a + path) == Some(Parts(scheme, a, path))
  {
    var rest := a + path;
    assert scheme + SEPARATOR + a + path == scheme + (SEPARATOR + rest);
    SeparatorAt(scheme, rest);
    FirstSlash(a, path);
    assert rest[..|a|] == a && rest[|a|..] == path;
    if path == "" {
      assert rest == a;
    }
  }

  lemma FirstSlash(a: string, path: string)
    requires '/' !in a && (path == "" || path[0] == '/')
    ensures IndexOf(a + path, "/") == if path == "" then -1 else |a|
  {
    var rest := a + path;
    forall k | 0 <= k < |a| ensures !At(rest, "/", k) {
      assert rest[k..k + 1] == [a[k]];
    }
    if path != "" {
      assert rest[|a|..|a| + 1] == "/";
      assert At(rest, "/", |a|);
    } else {
      assert rest == a;
    }
  }

  lemma {:induction false} LastIndexIs(s: string, c: char, k: nat)
    requires k < |s| && s[k] == c && forall j | k < j < |s| :: s[j] != c
    ensures LastIndexOf(s, c) == k
  {
    var r := LastIndexOf(s, c);
  }

  lemma {:induction false} SplitChars(s: string, c: char, last: string, i: nat)
    requires i < |s| + |last|
    ensures var t := s + last;
            (i < |s| && s[i] == c) || exists p :: p in SplitOn(s, c, last) && t[i] in p
  {
    var t := s + last;
    assert forall k | 0 <= k < |s| :: t[k] == s[k];
    if s == "" {
      assert last in SplitOn(s, c, last) && t[i] in last;
    } else {
      var init, d := s[..|s| - 1], s[|s| - 1];
      if d == c {
        if i < |s| - 1 {
          SplitChars(init, c, "", i);
          assert (init + "")[i] == t[i];
          if t[i] != c {
            var p :| p in SplitOn(init, c, "") && t[i] in p;
            assert p in SplitOn(s, c, last);
          }
        } else if i >= |s| {
          assert SplitOn(s, c, last)[|SplitOn(init, c, "")|] == last;
          assert last in SplitOn(s, c, last) && t[i] == last[i - |s|];
        }
      } else {
        SplitChars(init, c, [d] + last, i);
        assert init + ([d] + last) == t;
      }
    }
  }

  predicate NameChar(c: char) { AlNum(c) || c == '-' || c == '.' }

  lemma DnsChars(hostname: string)
    requires DnsName(hostname)
    ensures AllOf(hostname, NameChar) && hostname != ""
  {
    var d := TrimDot(hostname);
    var labels := SplitOn(d, '.', "");
    assert labels[0] in labels && DnsLabel(labels[0]);
    forall i | 0 <= i < |d| ensures NameChar(d[i]) {
      SplitChars(d, '.', "", i);
      assert (d + "")[i] == d[i];
      if d[i] != '.' {
        var p :| p in labels && d[i] in p;
        assert DnsLabel(p);
      }
    }
    assert forall i | 0 <= i < |d| :: hostname[i] == d[i];
  }

  lemma IPv4Chars(hostname: string)
    requires IPv4(hostname)
    ensures AllOf(hostname, NameChar) && hostname != ""
  {
    forall i | 0 <= i < |hostname| ensures NameChar(hostname[i]) {
      SplitChars(hostname, '.', "", i);
      assert (hostname + "")[i] == hostname[i];
      if hostname[i] != '.' {
        var p :| p in SplitOn(hostname, '.', "") && hostname[i] in p;
        assert Octet(p);
      }
    }
  }

  lemma LowerTwice(s: string)
    ensures Lower(Lower(s)) == Lower(s)
  {}

  predicate PortText(pt: string) {
    pt == "" || (|pt| > 1 && pt[0] == ':' && AllDigits(pt[1..]))
  }

  lemma PlainAuthority(host: string, pt: string)
    requires AllOf(host, NameChar) && host != "" && PortText(pt)
    ensures var a := host + pt;
            && a != "" && a[0] != '[' && '@' !in a && '%' !in a && a[|a| - 1] != ':'
            && (pt == "" ==> a == host && forall i | 0 <= i < |a| :: a[i] != ':')
            && (pt != "" ==> a[|host|] == ':' && (forall i | |host| < i < |a| :: a[i] != ':')
                             && a[..|host|] == host && a[|host| + 1..] == pt[1..] && AllDigits(pt[1..]))
  {
    var a := host + pt;
    assert forall i | 0 <= i < |host| :: a[i] == host[i];
    assert forall i | |host| <= i < |a| :: a[i] == pt[i - |host|];
    assert forall i | 1 <= i < |pt| :: pt[i] == pt[1..][i - 1];
    if pt != "" {
      assert a[..|host|] == host && a[|host| + 1..] == pt[1..];
    }
  }

  lemma PlainAuthorityAgain(host: string, pt: string)
    requires AllOf(host, NameChar) && host != "" && PortText(pt)
    ensures CutAuthority(host + pt) == Some(HostPort(false, host, if pt == "" then "" else pt[1..]))
  {
    hide LastIndexOf, AllOf, AllDigits;
    PlainAuthority(host, pt);
    if pt != "" {
      LastIndexIs(host + pt, ':', |host|);
    }
  }

  lemma BracketAuthority(text: string, pt: string)
    requires AllOf(text, IPv6Char) && PortText(pt)
    ensures var a, j := "[" + text + "]" + pt, |text| + 1;
            && j < |a| && a[0] == '[' && a[j] == ']' && '@' !in a && '%' !in a && a[|a| - 1] != ':'
            && (forall i | j < i < |a| :: a[i] != ']') && a[1..j] == text && a[j + 1..] == pt
            && (pt != "" ==> pt[0] == ':' && AllDigits(pt[1..]))
  {
    var a := "[" + text + "]" + pt;
    var j := |text| + 1;
    assert a[0] == '[' && a[j] == ']';
    assert forall i | 1 <= i < j :: a[i] == text[i - 1];
    assert forall i | j < i < |a| :: a[i] == pt[i - j - 1];
    assert forall i | 1 <= i < |pt| :: pt[i] == pt[1..][i - 1];
    assert a[1..j] == text && a[j + 1..] == pt;
  }

  lemma BracketAuthorityAgain(text: string, pt: string)
    requires AllOf(text, IPv6Char) && PortText(pt)
    ensures CutAuthority("[" + text + "]" + pt) == Some(HostPort(true, text, if pt == "" then "" else pt[1..]))
  {
    hide LastIndexOf, AllOf, AllDigits;
    BracketAuthority(text, pt);
    LastIndexIs("[" + text + "]" + pt, ']', |text| + 1);
  }

  /** The canonical host and port, read again, give themselves. */
  lemma HostAgain(v6: IPv6, scheme: string, h: HostPort)
    requires Lawful(v6) && CanonicalHost(v6, h).Some? && CanonicalPort(scheme, h.port).Some?
    ensures var host, pt := CanonicalHost(v6, h).value, CanonicalPort(scheme, h.port).value;
            && CutAuthority(host + pt).Some?
            && CanonicalHost(v6, CutAuthority(host + pt).value) == Some(host)
            && CanonicalPort(scheme, CutAuthority(host + pt).value.port) == Some(pt)
  {
    var host, pt := CanonicalHost(v6, h).value, CanonicalPort(scheme, h.port).value;
    PortAgain(scheme, h.port);
    LowerTwice(h.hostname);
    if h.bracketed {
      var text := v6(Lower(h.hostname)).value;
      BracketAuthorityAgain(text, pt);
      assert Lower(text) == text;
    } else {
      if IPv4(host) {
        IPv4Chars(host);
      } else {
        DnsChars(host);
      }
      PlainAuthorityAgain(host, pt);
    }
  }

  lemma PortAgain(scheme: string, port: string)
    requires CanonicalPort(scheme, port).Some?
    ensures var pt := CanonicalPort(scheme, port).value;
            PortText(pt) && CanonicalPort(scheme, if pt == "" then "" else pt[1..]) == Some(pt)
  {
    if port != "" {
      var n := Value(port);
      DigitsRead(n);
      assert (":" + Digits(n))[1..] == Digits(n);
      assert forall i | 0 <= i < |Digits(n)| :: Digits(n)[i] in Digits(n);
    }
  }

  lemma {:induction false} TrimmedPath(path: string)
    requires PathOk(path) && (path == "" || path[0] == '/')
    ensures var p := TrimSlashes(path); PathOk(p) && (p == "" || p[0] == '/') && TrimSlashes(p) == p
  {
    if path != "" && path[|path| - 1] == '/' {
      var init := path[..|path| - 1];
      assert SplitOn(path, '/', "") == SplitOn(init, '/', "") + [""];
      assert forall seg | seg in SplitOn(init, '/', "") :: seg in SplitOn(path, '/', "");
      assert forall i | 0 <= i < |init| :: init[i] == path[i];
      TrimmedPath(init);
    }
  }

  // ---- one spelling -----------------------------------------------------

  lemma PortChars(pt: string)
    requires PortText(pt)
    ensures AllOf(pt, UrlChar) && '/' !in pt
  {
    assert forall i | 1 <= i < |pt| :: pt[i] == pt[1..][i - 1];
  }

  lemma HostChars(v6: IPv6, h: HostPort)
    requires Lawful(v6) && CanonicalHost(v6, h).Some?
    ensures var host := CanonicalHost(v6, h).value; AllOf(host, UrlChar) && '/' !in host && host != ""
  {
    var host := CanonicalHost(v6, h).value;
    if h.bracketed {
      var text := v6(Lower(h.hostname)).value;
      assert forall i | 1 <= i < |host| - 1 :: host[i] == text[i - 1];
    } else if IPv4(host) {
      IPv4Chars(host);
    } else {
      DnsChars(host);
    }
  }

  lemma SchemeChars(scheme: string)
    requires scheme == "http" || scheme == "https"
    ensures AllOf(scheme + SEPARATOR, UrlChar) && ':' !in scheme && Lower(scheme) == scheme
  {}

  lemma AllConcat(a: string, b: string, p: char -> bool)
    requires AllOf(a, p) && AllOf(b, p)
    ensures AllOf(a + b, p)
  {}

  lemma PathCharsAreUrl(path: string)
    requires AllOf(path, PathChar)
    ensures AllOf(path, UrlChar)
  {}

  /** What the canonical form is made of. */
  lemma Shape(v6: IPv6, raw: string) returns (scheme: string, h: HostPort, path: string)
    requires Canonical(v6, raw).Some?
    ensures (scheme == "http" || scheme == "https") && CanonicalHost(v6, h).Some? && CanonicalPort(scheme, h.port).Some?
    ensures PathOk(path) && (path == "" || path[0] == '/')
    ensures Canonical(v6, raw).value
         == scheme + SEPARATOR + (CanonicalHost(v6, h).value + CanonicalPort(scheme, h.port).value) + TrimSlashes(path)
  {
    hide PathOk, CanonicalHost, CanonicalPort, CutAuthority, UrlChar;
    var parts := Cut(raw).value;
    scheme, h, path := Lower(parts.scheme), CutAuthority(parts.authority).value, parts.path;
    assert path == "" || path[0] == '/' by {
      var rest := raw[IndexOf(raw, SEPARATOR) + 3..];
      var j := IndexOf(rest, "/");
      if j >= 0 {
        assert rest[j..j + 1] == "/";
      }
    }
    var host, port := CanonicalHost(v6, h).value, CanonicalPort(scheme, h.port).value;
    assert scheme + SEPARATOR + host + port == scheme + SEPARATOR + (host + port);
  }

  /** The authority of a canonical URL, read again. */
  lemma AuthorityAgain(v6: IPv6, scheme: string, h: HostPort, path: string) returns (a: string)
    requires Lawful(v6) && (scheme == "http" || scheme == "https")
    requires CanonicalHost(v6, h).Some? && CanonicalPort(scheme, h.port).Some?
    requires PathOk(path) && TrimSlashes(path) == path
    ensures a == CanonicalHost(v6, h).value + CanonicalPort(scheme, h.port).value
    ensures AllOf(a, UrlChar) && '/' !in a && CutAuthority(a).Some?
    ensures FromParts(v6, scheme, CutAuthority(a).value, path) == Some(scheme + SEPARATOR + a + path)
  {
    var host, pt := CanonicalHost(v6, h).value, CanonicalPort(scheme, h.port).value;
    a := host + pt;
    SchemeChars(scheme);
    HostChars(v6, h);
    PortAgain(scheme, h.port);
    PortChars(pt);
    HostAgain(v6, scheme, h);
    AllConcat(host, pt, UrlChar);
    assert '/' !in a;
    hide *;
    FromPartsIs(v6, scheme, CutAuthority(a).value, path, host, pt);
  }

  lemma FromPartsIs(v6: IPv6, scheme: string, h: HostPort, path: string, host: string, pt: string)
    requires (scheme == "http" || scheme == "https") && Lower(scheme) == scheme
    requires CanonicalHost(v6, h) == Some(host) && CanonicalPort(scheme, h.port) == Some(pt)
    requires PathOk(path) && TrimSlashes(path) == path
    ensures FromParts(v6, scheme, h, path) == Some(scheme + SEPARATOR + (host + pt) + path)
  {
    hide CanonicalHost, CanonicalPort, PathOk, TrimSlashes, Lower;
    assert scheme + SEPARATOR + host + pt + path == scheme + SEPARATOR + (host + pt) + path;
  }

  /** Canonicalising again changes nothing. */
  lemma CanonicalIsStable(v6: IPv6, raw: string)
    requires Lawful(v6) && Canonical(v6, raw).Some?
    ensures Canonical(v6, Canonical(v6, raw).value) == Canonical(v6, raw)
  {
    var scheme, h, path := Shape(v6, raw);
    var p := TrimSlashes(path);
    SchemeChars(scheme);
    TrimmedPath(path);
    PathCharsAreUrl(p);
    var a := AuthorityAgain(v6, scheme, h, p);
    OnParts(v6, scheme, a, p);
    var c := Canonical(v6, raw).value;
    assert c == Url(scheme, a, p);
    hide *;
  }

  // ---- one spelling of the port -----------------------------------------

  lemma AppendedChars(a: string, port: string)
    requires a != "" && '@' !in a && '%' !in a && port != "" && AllDigits(port)
    ensures var b := a + (":" + port);
            && b[0] == a[0] && b[|a|] == ':' && b[..|a|] == a && b[|a| + 1..] == port && b[|a|..] == ":" + port
            && '@' !in b && '%' !in b && b[|b| - 1] != ':'
            && (forall i | |a| < i < |b| :: IsDigit(b[i])) && (forall i | 0 <= i < |a| :: b[i] == a[i])
  {
    var b := a + (":" + port);
    assert forall i | |a| < i < |b| :: b[i] == port[i - |a| - 1];
  }

  lemma PortAfterBracket(a: string, port: string)
    requires CutAuthority(a).Some? && CutAuthority(a).value.port == "" && port != "" && AllDigits(port) && a[0] == '['
    ensures CutAuthority(a + (":" + port)) == Some(CutAuthority(a).value.(port := port))
  {
    var b, j := a + (":" + port), LastIndexOf(a, ']');
    AppendedChars(a, port);
    assert j == |a| - 1;
    LastIndexIs(b, ']', j);
    assert b[1..j] == a[1..j] && b[j + 1..] == ":" + port && (":" + port)[1..] == port;
    hide LastIndexOf, AllDigits, IsDigit;
  }

  lemma PortAfterName(a: string, port: string)
    requires CutAuthority(a).Some? && CutAuthority(a).value.port == "" && port != "" && AllDigits(port) && a[0] != '['
    ensures CutAuthority(a + (":" + port)) == Some(CutAuthority(a).value.(port := port))
  {
    var b := a + (":" + port);
    AppendedChars(a, port);
    LastIndexIs(b, ':', |a|);
    hide LastIndexOf, AllDigits, IsDigit;
  }

  /** A port written after an authority that has none. */
  lemma PortAppended(a: string, port: string)
    requires CutAuthority(a).Some? && CutAuthority(a).value.port == "" && port != "" && AllDigits(port)
    ensures CutAuthority(a + ":" + port) == Some(CutAuthority(a).value.(port := port))
  {
    assert a != "" && a + ":" + port == a + (":" + port);
    hide CutAuthority;
    if a[0] == '[' {
      PortAfterBracket(a, port);
    } else {
      PortAfterName(a, port);
    }
  }

  function Url(scheme: string, a: string, path: string): string {
    scheme + SEPARATOR + a + path
  }

  predicate Placed(scheme: string, a: string, path: string) {
    ':' !in scheme && '/' !in a && (path == "" || path[0] == '/')
  }

  /** Every spelling of a port gives the same URL, and every spelling of the scheme's
      default port gives the URL without one. */
  lemma PortSpellingsAgree(v6: IPv6, scheme: string, a: string, path: string, p: string, q: string)
    requires Placed(scheme, a, path) && CutAuthority(a).Some? && CutAuthority(a).value.port == ""
    requires p != "" && q != "" && AllDigits(p) && AllDigits(q)
    ensures Value(p) == Value(q) ==>
              Canonical(v6, Url(scheme, a + ":" + p, path)) == Canonical(v6, Url(scheme, a + ":" + q, path))
    ensures (Lower(scheme) == "http" && Value(p) == 80) || (Lower(scheme) == "https" && Value(p) == 443) ==>
              Canonical(v6, Url(scheme, a + ":" + p, path)) == Canonical(v6, Url(scheme, a, path))
  {
    var h := CutAuthority(a).value;
    OnParts(v6, scheme, a, path);
    OnParts(v6, scheme, a + ":" + p, path);
    OnParts(v6, scheme, a + ":" + q, path);
    PortAppended(a, p);
    PortAppended(a, q);
    DigitsAreUrl(a, p);
    DigitsAreUrl(a, q);
    PortOnly(v6, scheme, h, path, p, q);
    DefaultPorts();
    assert h.(port := "") == h;
    hide *;
  }

  lemma DefaultPorts()
    ensures DefaultPort("http") == 80 && DefaultPort("https") == 443
  {}

  /** Only the number of the port matters. */
  lemma PortOnly(v6: IPv6, scheme: string, h: HostPort, path: string, p: string, q: string)
    requires p != "" && q != ""
    ensures Value(p) == Value(q) ==> FromParts(v6, scheme, h.(port := p), path) == FromParts(v6, scheme, h.(port := q), path)
    ensures Value(p) == DefaultPort(Lower(scheme)) ==>
              FromParts(v6, scheme, h.(port := p), path) == FromParts(v6, scheme, h.(port := ""), path)
  {
    hide PathOk, IPv4, DnsName;
  }

  lemma DigitsAreUrl(a: string, p: string)
    requires AllDigits(p)
    ensures AllOf(a + ":" + p, UrlChar) <==> AllOf(a, UrlChar)
  {
    var b := a + ":" + p;
    assert forall i | 0 <= i < |a| :: b[i] == a[i];
    assert b[|a|] == ':' && forall i | |a| < i < |b| :: b[i] == p[i - |a| - 1];
  }

  /** The canonical form, from the parts. */
  function FromParts(v6: IPv6, scheme: string, h: HostPort, path: string): Option<string> {
    var port := CanonicalPort(Lower(scheme), h.port);
    var host := CanonicalHost(v6, h);
    if (Lower(scheme) == "http" || Lower(scheme) == "https") && port.Some? && host.Some? && PathOk(path)
    then Some(Lower(scheme) + SEPARATOR + host.value + port.value + TrimSlashes(path)) else None
  }

  lemma OnParts(v6: IPv6, scheme: string, a: string, path: string)
    requires Placed(scheme, a, path)
    ensures Canonical(v6, Url(scheme, a, path))
         == if AllOf(scheme + SEPARATOR, UrlChar) && AllOf(a, UrlChar) && AllOf(path, UrlChar) && CutAuthority(a).Some?
            then FromParts(v6, scheme, CutAuthority(a).value, path) else None
  {
    CutAgain(scheme, a, path);
    AllParts(scheme + SEPARATOR, a, path);
    hide Cut, CutAuthority, CanonicalHost, CanonicalPort, PathOk, UrlChar, AllOf, Lower;
  }

  lemma AllParts(x: string, y: string, z: string)
    ensures AllOf(x + y + z, UrlChar) <==> AllOf(x, UrlChar) && AllOf(y, UrlChar) && AllOf(z, UrlChar)
  {
    var s := x + y + z;
    assert forall i | 0 <= i < |x| :: s[i] == x[i];
    assert forall i | 0 <= i < |y| :: s[|x| + i] == y[i];
    assert forall i | 0 <= i < |z| :: s[|x| + |y| + i] == z[i];
    hide UrlChar;
  }
}
