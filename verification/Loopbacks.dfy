/** Which hosts are this machine, said of each shape a host is written in, and so over
    which URLs a saved key never travels in clear text. */
module Loopbacks {
  import opened Text
  import opened Decimals
  import opened BaseURL
  import opened BasePaths
  import opened IPv6
  import opened Credentials

  // ---- dotted decimals --------------------------------------------------

  function Decimal(n: nat): string {
    if n == 0 then "0" else Digits(n)
  }

  function Quad(a: nat, b: nat, c: nat, d: nat): string {
    Decimal(a) + "." + Decimal(b) + "." + Decimal(c) + "." + Decimal(d)
  }

  lemma DecimalIsOctet(n: nat)
    requires n <= 255
    ensures Octet(Decimal(n)) && Value(Decimal(n)) == n
    ensures forall c | c in Decimal(n) :: IsDigit(c)
  {
    DigitsRead(n);
    assert Pow10(3) == 1000 by { assert Pow10(1) == 10; }
    DigitsFit(n, 3);
    if n > 0 {
      DigitsStart(n);
      assert forall i | 0 <= i < |Digits(n)| :: Digits(n)[i] in Digits(n);
    } else {
      assert Value("0") == 0 by { assert "0"[..0] == ""; }
    }
  }

  lemma {:induction false} DigitsStart(n: nat)
    requires n > 0
    ensures Digits(n) != "" && Digits(n)[0] != '0'
  {
    if n >= 10 {
      DigitsStart(n / 10);
    } else {
      assert Digits(0) == "";
    }
  }

  lemma {:induction false} ValueBounds(s: string)
    requires forall i | 0 <= i < |s| :: IsDigit(s[i])
    ensures Value(s) >= 0 && (s != "" && s[0] != '0' ==> Value(s) > 0)
  {
    if s != "" {
      ValueBounds(s[..|s| - 1]);
    }
  }

  /** A numeral without leading zeros is the numeral of its value. */
  lemma {:induction false} DigitsOf(s: string)
    requires s != "" && s[0] != '0' && forall i | 0 <= i < |s| :: IsDigit(s[i])
    ensures Value(s) > 0 && Digits(Value(s)) == s
  {
    var x, d := s[..|s| - 1], s[|s| - 1];
    ValueBounds(s);
    ValueBounds(x);
    var v := Value(x);
    assert Value(s) / 10 == v && Value(s) % 10 == d as int - '0' as int;
    if x != "" {
      DigitsOf(x);
    }
    assert s == x + [d];
  }

  lemma OctetIsDecimal(s: string)
    requires Octet(s)
    ensures 0 <= Value(s) <= 255 && s == Decimal(Value(s))
  {
    if s[0] == '0' {
      assert s == "0" && s[..0] == "";
    } else {
      DigitsOf(s);
    }
  }

  lemma SplitFour(a: string, b: string, c: string, d: string)
    requires '.' !in a && '.' !in b && '.' !in c && '.' !in d
    ensures SplitOn(a + "." + b + "." + c + "." + d, '.', "") == [a, b, c, d]
  {
    hide SplitOn;
    SplitConcatOn(a + "." + b + "." + c, '.', d, "");
    SplitConcatOn(a + "." + b, '.', c, "");
    SplitConcatOn(a, '.', b, "");
    SplitPart(a, '.', "");
    SplitPart(b, '.', "");
    SplitPart(c, '.', "");
    SplitPart(d, '.', "");
    assert a + "" == a && b + "" == b && c + "" == c && d + "" == d;
  }

  /** The text between the separators is the text. */
  function JoinOn(fields: seq<string>): string
    requires |fields| > 0
  {
    if |fields| == 1 then fields[0] else JoinOn(fields[..|fields| - 1]) + "." + fields[|fields| - 1]
  }

  lemma {:induction false} JoinSplitOn(s: string, last: string)
    ensures JoinOn(SplitOn(s, '.', last)) == s + last
  {
    if s != "" {
      var x, d := s[..|s| - 1], s[|s| - 1];
      if d == '.' {
        var f := SplitOn(x, '.', "");
        JoinSplitOn(x, "");
        assert (f + [last])[..|f|] == f && x + "" == x;
        assert s + last == x + "." + last;
      } else {
        JoinSplitOn(x, [d] + last);
        assert x + ([d] + last) == s + last;
      }
    }
  }

  /** The IPv4 hosts are exactly the dotted decimals of four numbers up to 255. */
  lemma IPv4Exactly(h: string)
    ensures IPv4(h) <==> exists a: nat, b: nat, c: nat, d: nat :: Quadded(h, a, b, c, d)
  {
    if IPv4(h) {
      var f := SplitOn(h, '.', "");
      assert Octet(f[0]) && Octet(f[1]) && Octet(f[2]) && Octet(f[3]);
      OctetIsDecimal(f[0]);
      OctetIsDecimal(f[1]);
      OctetIsDecimal(f[2]);
      OctetIsDecimal(f[3]);
      JoinSplitOn(h, "");
      hide SplitOn, Octet, Value;
      assert h + "" == h;
      JoinFour(f);
      assert Quadded(h, Value(f[0]), Value(f[1]), Value(f[2]), Value(f[3]));
    }
    if a: nat, b: nat, c: nat, d: nat :| Quadded(h, a, b, c, d) {
      QuadIs(a, b, c, d);
    }
  }

  predicate Quadded(h: string, a: nat, b: nat, c: nat, d: nat) {
    a <= 255 && b <= 255 && c <= 255 && d <= 255 && h == Quad(a, b, c, d)
  }

  lemma JoinFour(f: seq<string>)
    requires |f| == 4
    ensures JoinOn(f) == f[0] + "." + f[1] + "." + f[2] + "." + f[3]
  {
    var g := f[..3];
    assert g[..2] == f[..2] && f[..2][..1] == f[..1];
    assert JoinOn(f[..1]) == f[0];
    assert JoinOn(f[..2]) == f[0] + "." + f[1];
    assert JoinOn(g) == f[0] + "." + f[1] + "." + f[2];
  }

  lemma QuadIs(a: nat, b: nat, c: nat, d: nat)
    requires a <= 255 && b <= 255 && c <= 255 && d <= 255
    ensures IPv4(Quad(a, b, c, d)) && SplitOn(Quad(a, b, c, d), '.', "") == [Decimal(a), Decimal(b), Decimal(c), Decimal(d)]
    ensures forall x | x in Quad(a, b, c, d) :: IsDigit(x) || x == '.'
    ensures var q := Quad(a, b, c, d); q != "" && IsDigit(q[|q| - 1])
  {
    DecimalIsOctet(a);
    DecimalIsOctet(b);
    DecimalIsOctet(c);
    DecimalIsOctet(d);
    hide Octet, Value, Decimal, SplitOn;
    SplitFour(Decimal(a), Decimal(b), Decimal(c), Decimal(d));
    OctetShape(Decimal(d));
  }

  lemma OctetShape(s: string)
    requires Octet(s)
    ensures s != "" && IsDigit(s[|s| - 1])
  {}

  // ---- what is no IPv6 address ------------------------------------------

  /** A text without a colon is no IPv6 address. */
  lemma NeedsColon(s: string)
    requires ':' !in s
    ensures Canonical6(s) == None
  {
    hide ScanGroups, Print;
    OneGroupAtMost(s);
    if s != "" {
      assert s[0] in s;
      NotPrefix(s, "::");
    }
  }

  lemma OneGroupAtMost(s: string)
    requires ':' !in s
    ensures ScanGroups(s, [], None).Failed? || (ScanGroups(s, [], None).gap.None? && |ScanGroups(s, [], None).got| == 1)
  {
    hide HexNumber, IPv4, Dotted, HexEnd;
    var n := HexEnd(s, 0);
    if n < |s| {
      assert s[n..][0] == s[n] && s[n] in s;
    }
  }

  lemma PlainHost(v6: string -> Option<string>, h: string)
    requires v6 == Canonical6 && ':' !in h
    ensures Loopback(v6, h) <==>
            TrimDot(Lower(h)) == "localhost" || (IPv4(TrimDot(Lower(h))) && SplitOn(TrimDot(Lower(h)), '.', "")[0] == "127")
  {
    var t := TrimDot(Lower(h));
    LowerColon(h);
    assert forall c | c in t :: c in Lower(h);
    NeedsColon(t);
    hide Canonical6, Lower, IPv4, SplitOn;
  }

  lemma LowerColon(h: string)
    ensures ':' in Lower(h) <==> ':' in h
  {
    assert forall i | 0 <= i < |h| :: Lower(h)[i] == ':' <==> h[i] == ':';
    if ':' in h {
      var i :| 0 <= i < |h| && h[i] == ':';
      assert Lower(h)[i] == ':';
    }
  }

  // ---- each shape of a host ---------------------------------------------

  lemma LowerKeeps(h: string)
    requires forall c | c in h :: !('A' <= c <= 'Z')
    ensures Lower(h) == h
  {
    assert forall i | 0 <= i < |h| :: h[i] in h;
  }

  lemma Decimal127(a: nat)
    requires a <= 255
    ensures Decimal(a) == "127" <==> a == 127
  {
    DecimalIsOctet(a);
    assert Value("127") == 127 by {
      assert "127"[..2] == "12" && "12"[..1] == "1" && "1"[..0] == "";
    }
    OctetIsDecimal("127");
  }

  /** An address in dotted decimals is this machine exactly when it begins with 127. */
  lemma QuadIsLocal(a: nat, b: nat, c: nat, d: nat)
    requires a <= 255 && b <= 255 && c <= 255 && d <= 255
    ensures Loopback(Canonical6, Quad(a, b, c, d)) <==> a == 127
  {
    var h := Quad(a, b, c, d);
    QuadIs(a, b, c, d);
    Decimal127(a);
    hide Quad, Decimal, SplitOn, Canonical6, IPv4, Octet;
    LowerKeeps(h);
    assert TrimDot(h) == h;
    PlainHost(Canonical6, h);
    assert 'l' in "localhost";
  }

  /** A DNS name is this machine exactly when it is localhost, in any case, with at most
      one dot after it. */
  lemma NameIsLocal(h: string)
    requires DnsName(Lower(h))
    ensures Loopback(Canonical6, h) <==> Lower(h) == "localhost" || Lower(h) == "localhost."
  {
    hide Canonical6, IPv4, SplitOn, DnsName, Lower, Loopback;
    var l := Lower(h);
    DnsChars(l);
    assert forall c | c in l :: NameChar(c);
    LowerColon(h);
    NoAddress(l);
    PlainHost(Canonical6, h);
    assert "localhost" + "." == "localhost.";
    DotTrimmed(l, "localhost");
  }

  lemma NoAddress(l: string)
    requires DnsName(l)
    ensures !IPv4(TrimDot(l))
  {
    hide SplitOn, IPv4;
    if IPv4(TrimDot(l)) {
      LastIsNumber(TrimDot(l));
    }
  }

  lemma LastIsNumber(h: string)
    requires IPv4(h)
    ensures var f := SplitOn(h, '.', ""); NumericLabel(f[|f| - 1])
  {
    hide SplitOn, Value;
    assert Octet(SplitOn(h, '.', "")[3]);
  }

  lemma DotTrimmed(l: string, name: string)
    requires name != "" && name[|name| - 1] != '.'
    ensures TrimDot(l) == name <==> l == name || l == name + "."
  {
    assert l != "" && l[|l| - 1] == '.' ==> l == l[..|l| - 1] + ".";
    assert (name + ".")[..|name|] == name;
  }

  const HERE: Groups := [0, 0, 0, 0, 0, 0, 0, 1]

  lemma ZerosHere(k: nat)
    requires k <= 8
    ensures ZerosFrom(HERE, k) == if k < 7 then 7 - k else 0
    decreases 8 - k
  {
    if k < 8 {
      ZerosHere(k + 1);
    }
  }

  lemma RunHere(k: nat)
    requires 0 < k <= 8
    ensures LongestRun(HERE, k, 0, 7) == (0, 7)
    decreases 8 - k
  {
    ZerosHere(k);
    if k < 8 {
      RunHere(k + 1);
    }
  }

  lemma HereIsPrinted()
    ensures Print(HERE) == "::1" && Parse("::1") == Some(HERE)
  {
    ZerosHere(0);
    RunHere(1);
    assert LongestRun(HERE, 0, 0, 0) == (0, 7);
    assert HERE[..0] == [] && HERE[7..] == [1] && Colons([]) == "" && Colons([1]) == Hex(1) == "1";
    assert "" + "::" + "1" == "::1";
    PrintReadsBack(HERE);
  }

  /** A bracketed address is this machine exactly when its groups are seven zeros and a
      one, however they are written. */
  lemma BracketIsLocal(s: string)
    requires Canonical6(Lower(s)).Some?
    ensures Loopback(Canonical6, Canonical6(Lower(s)).value) <==> Parse(Lower(s)) == Some([0, 0, 0, 0, 0, 0, 0, 1])
  {
    var l := Lower(s);
    ParseGives(l);
    var g := Parse(l).value;
    var text := Print(g);
    PrintReadsBack(g);
    PrintChars(g);
    HereIsPrinted();
    hide Parse, Print, IPv4, SplitOn, Lower;
    AddressText(text);
    OneTextPerAddress(text, "::1");
    assert Canonical6("::1") == Some("::1");
  }

  lemma AddressText(text: string)
    requires text != "" && AllOf(text, IPv6Char)
    ensures Lower(text) == text && TrimDot(text) == text && text != "localhost" && !IPv4(text)
  {
    assert forall c | c in text :: IPv6Char(c);
    LowerKeeps(text);
    assert 'l' in "localhost";
    SplitPart(text, '.', "");
  }

  // ---- and so of every URL ----------------------------------------------

  /** The host, as a URL writes it, is this machine. */
  ghost predicate Local(h: HostPort) {
    if h.bracketed then Parse(Lower(h.hostname)) == Some([0, 0, 0, 0, 0, 0, 0, 1])
    else
      || Lower(h.hostname) == "localhost" || Lower(h.hostname) == "localhost."
      || exists b: nat, c: nat, d: nat :: Quadded(h.hostname, 127, b, c, d)
  }

  lemma HostIsLocal(h: HostPort)
    requires CanonicalHost(Canonical6, h).Some?
    ensures Loopback(Canonical6, if h.bracketed then Canonical6(Lower(h.hostname)).value else Lower(h.hostname)) <==> Local(h)
  {
    hide Canonical6, Parse, Loopback;
    var l := Lower(h.hostname);
    if h.bracketed {
      BracketIsLocal(h.hostname);
    } else if IPv4(l) {
      hide IPv4, DnsName;
      NumberIsLocal(h.hostname);
    } else {
      LowerTwice(h.hostname);
      NameIsLocal(l);
      NoQuad(h.hostname);
    }
  }

  lemma NoQuad(s: string)
    requires !IPv4(Lower(s))
    ensures forall b: nat, c: nat, d: nat :: !Quadded(s, 127, b, c, d)
  {
    hide IPv4, Quad, SplitOn;
    forall b: nat, c: nat, d: nat ensures !Quadded(s, 127, b, c, d) {
      if Quadded(s, 127, b, c, d) {
        QuadIs(127, b, c, d);
        LowerKeeps(s);
      }
    }
  }

  lemma NumberIsLocal(s: string)
    requires IPv4(Lower(s))
    ensures Loopback(Canonical6, Lower(s)) <==> exists b: nat, c: nat, d: nat :: Quadded(s, 127, b, c, d)
    ensures Lower(s) != "localhost" && Lower(s) != "localhost."
  {
    var l := Lower(s);
    hide IPv4, Quad, SplitOn, Loopback, Canonical6;
    IPv4Exactly(l);
    var a: nat, b: nat, c: nat, d: nat :| Quadded(l, a, b, c, d);
    QuadIs(a, b, c, d);
    QuadIsLocal(a, b, c, d);
    DigitsWereThere(s);
    assert 'l' in "localhost" && 'l' in "localhost.";
    if b2: nat, c2: nat, d2: nat :| Quadded(s, 127, b2, c2, d2) {
      QuadIsLocal(127, b2, c2, d2);
    }
  }

  lemma DigitsWereThere(s: string)
    requires forall c | c in Lower(s) :: IsDigit(c) || c == '.'
    ensures Lower(s) == s
  {
    forall i | 0 <= i < |s| ensures Lower(s)[i] == s[i] {
      assert Lower(s)[i] in Lower(s);
    }
  }

  /** What the canonical form of a URL is cut into. */
  lemma CanonicalCut(raw: string) returns (h: HostPort)
    requires Canonical(Canonical6, raw).Some?
    ensures Cut(raw).Some? && CutAuthority(Cut(raw).value.authority) == Some(h) && CanonicalHost(Canonical6, h).Some?
    ensures var c := Canonical(Canonical6, raw).value;
            && Cut(c).Some? && Cut(c).value.scheme == Lower(Cut(raw).value.scheme)
            && CutAuthority(Cut(c).value.authority).Some?
            && CutAuthority(Cut(c).value.authority).value.hostname
               == if h.bracketed then Canonical6(Lower(h.hostname)).value else Lower(h.hostname)
  {
    AddressesAreLawful();
    hide PathOk, CanonicalHost, CanonicalPort, Cut, CutAuthority, UrlChar, Canonical6, Lawful;
    var parts := Cut(raw).value;
    h := CutAuthority(parts.authority).value;
    var scheme, port := Lower(parts.scheme), CanonicalPort(Lower(parts.scheme), h.port).value;
    var host, p := CanonicalHost(Canonical6, h).value, TrimSlashes(parts.path);
    CutPath(raw);
    TrimmedPath(parts.path);
    SchemeChars(scheme);
    HostChars(Canonical6, h);
    PortAgain(scheme, h.port);
    PortChars(port);
    HostnameAgain(h, port);
    assert '/' !in host + port;
    assert scheme + SEPARATOR + host + port + p == scheme + SEPARATOR + (host + port) + p;
    CutAgain(scheme, host + port, p);
  }

  lemma CutPath(raw: string)
    requires Cut(raw).Some?
    ensures var path := Cut(raw).value.path; path == "" || path[0] == '/'
  {
    var rest := raw[IndexOf(raw, SEPARATOR) + 3..];
    var j := IndexOf(rest, "/");
    if j >= 0 {
      assert rest[j..j + 1] == "/";
    }
  }

  lemma HostnameAgain(h: HostPort, pt: string)
    requires Lawful(Canonical6) && CanonicalHost(Canonical6, h).Some? && PortText(pt)
    ensures var a := CutAuthority(CanonicalHost(Canonical6, h).value + pt);
            a.Some? && a.value.hostname == if h.bracketed then Canonical6(Lower(h.hostname)).value else Lower(h.hostname)
  {
    hide Canonical6, CutAuthority, IPv4, DnsName, PortText;
    var host := CanonicalHost(Canonical6, h).value;
    if h.bracketed {
      BracketAuthorityAgain(Canonical6(Lower(h.hostname)).value, pt);
    } else {
      if IPv4(host) {
        IPv4Chars(host);
      } else {
        DnsChars(host);
      }
      PlainAuthorityAgain(host, pt);
    }
  }

  /** A URL sends in clear text over the network exactly when its scheme is http, in any
      case, and the host it writes is not this machine. */
  lemma CleartextExactly(raw: string)
    requires Canonical(Canonical6, raw).Some?
    ensures Cut(raw).Some? && CutAuthority(Cut(raw).value.authority).Some?
    ensures CleartextRemote(Canonical6, Canonical(Canonical6, raw).value) <==>
            Lower(Cut(raw).value.scheme) == "http" && !Local(CutAuthority(Cut(raw).value.authority).value)
  {
    hide Canonical, Cut, CutAuthority, Canonical6, CanonicalHost, Loopback, Local, Lower;
    var h := CanonicalCut(raw);
    HostIsLocal(h);
  }

  /** Where the saved and the selected server are one, the saved key is refused exactly
      when the saved URL is http to a host that is not this machine, and goes out
      otherwise. */
  lemma SavedKeyNeverInClear(flag: string, env: Env, f: File)
    requires env.key == "" && f.Object? && f.key != "" && f.url != "" && Canonical(Canonical6, f.url).Some?
    requires Named(flag, env) == "" || Canonical(Canonical6, Named(flag, env)) == Canonical(Canonical6, f.url)
    ensures Cut(f.url).Some? && CutAuthority(Cut(f.url).value.authority).Some?
    ensures var r := Resolve(Canonical6, flag, env, f);
            if Lower(Cut(f.url).value.scheme) == "http" && !Local(CutAuthority(Cut(f.url).value.authority).value)
            then r == Refused else r.Resolved? && r.key == f.key
  {
    AddressesAreLawful();
    hide Canonical, Cut, CutAuthority, Canonical6, CleartextRemote, Local, Lower, Resolve, Lawful;
    CleartextIsRefused(Canonical6, flag, env, f);
    CleartextExactly(f.url);
    SavedKeyGoesHome(Canonical6, flag, env, f);
    if Resolve(Canonical6, flag, env, f).Resolved? {
      SentKeyIsTheSavedOne(Canonical6, flag, env, f);
    }
  }
}
