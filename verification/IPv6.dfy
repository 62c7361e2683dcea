/** IPv6 addresses as net/netip reads them and as the canonical URL prints them: the
    text forms of section 2.2 of RFC 4291, printed by section 4 of RFC 5952 with
    mapped addresses in hex. A canonical text is its own canonical text, so the
    URL canonicaliser needs no assumption about addresses. */
module IPv6 {
  import opened Text
  import opened Decimals
  import opened BaseURL

  /** Eight groups of sixteen bits. */
  type Groups = seq<nat>

  predicate Group(n: nat) { n < 0x1_0000 }

  predicate Address(g: Groups) {
    |g| == 8 && forall n | n in g :: Group(n)
  }

  // ---- printing ---------------------------------------------------------

  function ZerosFrom(g: Groups, i: nat): (r: nat)
    requires i <= |g|
    ensures i + r <= |g| && forall k | i <= k < i + r :: g[k] == 0
    ensures i + r < |g| ==> g[i + r] != 0
    decreases |g| - i
  {
    if i < |g| && g[i] == 0 then 1 + ZerosFrom(g, i + 1) else 0
  }

  /** The first longest run of at least two zero groups at or after `i`, if it is
      longer than the one found so far. */
  function LongestRun(g: Groups, i: nat, start: nat, size: nat): (r: (nat, nat))
    requires i <= |g| && start + size <= |g| && (size == 0 || size >= 2)
    requires forall k | start <= k < start + size :: g[k] == 0
    ensures r.0 + r.1 <= |g| && (r.1 == 0 || r.1 >= 2) && r.1 >= size
    ensures forall k | r.0 <= k < r.0 + r.1 :: g[k] == 0
    ensures forall k | i <= k < |g| && ZerosFrom(g, k) >= 2 :: ZerosFrom(g, k) <= r.1
    decreases |g| - i
  {
    if i == |g| then (start, size)
    else
      var n := ZerosFrom(g, i);
      if n >= 2 && n > size then LongestRun(g, i + 1, i, n) else LongestRun(g, i + 1, start, size)
  }

  /** The groups in hex with colons between. */
  function Colons(g: Groups): string {
    if g == [] then "" else if |g| == 1 then Hex(g[0]) else Hex(g[0]) + ":" + Colons(g[1..])
  }

  function Print(g: Groups): string {
    var run := LongestRun(g, 0, 0, 0);
    if run.1 == 0 then Colons(g) else Colons(g[..run.0]) + "::" + Colons(g[run.0 + run.1..])
  }

  // ---- which zeros are left out -----------------------------------------

  predicate ZeroRun(g: Groups, a: nat, n: nat) {
    a + n <= |g| && forall k | a <= k < a + n :: g[k] == 0
  }

  /** No run of zeros that begins before `i` is longer, and none as long begins earlier. */
  ghost predicate Best(g: Groups, i: nat, start: nat, size: nat) {
    && (size > 0 ==> size >= 2 && start < i && ZeroRun(g, start, size))
    && forall b: nat, m: nat | b < i && m >= 2 && ZeroRun(g, b, m) :: m <= size && (m == size ==> start <= b)
  }

  lemma RunAt(g: Groups, i: nat, m: nat)
    requires i <= |g| && ZeroRun(g, i, m)
    ensures m <= ZerosFrom(g, i)
  {
    if m > ZerosFrom(g, i) {
      NotZero(g, i);
    }
  }

  lemma NotZero(g: Groups, i: nat)
    requires i <= |g|
    ensures var n := ZerosFrom(g, i); i + n == |g| || (i + n < |g| && g[i + n] != 0)
  {}

  lemma BestNext(g: Groups, i: nat, start: nat, size: nat)
    requires i < |g| && start + size <= |g| && Best(g, i, start, size)
    ensures var n := ZerosFrom(g, i); if n >= 2 && n > size then Best(g, i + 1, i, n) else Best(g, i + 1, start, size)
  {
    var n := ZerosFrom(g, i);
    forall m: nat | ZeroRun(g, i, m) ensures m <= n {
      RunAt(g, i, m);
    }
    assert ZeroRun(g, i, n);
    hide ZerosFrom, ZeroRun;
  }

  lemma {:induction false} LongestIsBest(g: Groups, i: nat, start: nat, size: nat)
    requires i <= |g| && start + size <= |g| && Best(g, i, start, size)
    requires size == 0 || size >= 2
    requires forall k | start <= k < start + size :: g[k] == 0
    ensures var r := LongestRun(g, i, start, size); Best(g, |g|, r.0, r.1)
    decreases |g| - i
  {
    hide Best, ZerosFrom;
    if i < |g| {
      BestNext(g, i, start, size);
      var n := ZerosFrom(g, i);
      if n >= 2 && n > size {
        LongestIsBest(g, i + 1, i, n);
      } else {
        LongestIsBest(g, i + 1, start, size);
      }
    }
  }

  ghost predicate FirstLongest(g: Groups, a: nat, n: nat) {
    n >= 2 && ZeroRun(g, a, n) && forall b: nat, m: nat | m >= 2 && ZeroRun(g, b, m) :: m <= n && (m == n ==> a <= b)
  }

  lemma PrintIs(g: Groups)
    ensures var r := LongestRun(g, 0, 0, 0);
            && Best(g, |g|, r.0, r.1) && r.0 + r.1 <= |g|
            && Print(g) == if r.1 == 0 then Colons(g) else Colons(g[..r.0]) + "::" + Colons(g[r.0 + r.1..])
  {
    hide LongestRun, Best, Colons;
    NothingBest(g);
    LongestIsBest(g, 0, 0, 0);
  }

  lemma NothingBest(g: Groups)
    ensures Best(g, 0, 0, 0)
  {}

  /** The double colon stands for the first of the longest runs of two zero groups or
      more, and is not used where there is none. */
  lemma PrintExactly(g: Groups)
    ensures forall a: nat, n: nat | FirstLongest(g, a, n) :: Print(g) == Colons(g[..a]) + "::" + Colons(g[a + n..])
    ensures (forall k: nat | k + 1 < |g| :: g[k] != 0 || g[k + 1] != 0) ==> Print(g) == Colons(g)
  {
    hide LongestRun, Colons, Print;
    PrintIs(g);
    var r := LongestRun(g, 0, 0, 0);
    forall a: nat, n: nat | FirstLongest(g, a, n) ensures r == (a, n) {
      OneLongest(g, a, n, r.0, r.1);
    }
    if r.1 > 0 {
      TwoZeros(g, r.0, r.1);
    }
  }

  lemma TwoZeros(g: Groups, a: nat, n: nat)
    requires n >= 2 && ZeroRun(g, a, n)
    ensures a + 1 < |g| && g[a] == 0 && g[a + 1] == 0
  {}

  lemma OneLongest(g: Groups, a: nat, n: nat, b: nat, m: nat)
    requires FirstLongest(g, a, n) && Best(g, |g|, b, m)
    ensures a == b && n == m
  {
    TwoZeros(g, a, n);
    hide ZeroRun;
  }

  // ---- reading ----------------------------------------------------------

  /** Where the hexadecimal digits that start at `i` end. */
  function HexEnd(s: string, i: nat): (r: nat)
    requires i <= |s|
    ensures i <= r <= |s|
    decreases |s| - i
  {
    if i < |s| && HexValue(s[i]).Some? then HexEnd(s, i + 1) else i
  }

  /** The groups read, and the position of the double colon among them. */
  datatype Scan = Failed | Scanned(got: Groups, gap: Option<nat>)

  function Dotted(s: string): (r: Groups)
    requires IPv4(s)
  {
    var f := SplitOn(s, '.', "");
    [AtLeast(Value(f[0])) * 0x100 + AtLeast(Value(f[1])), AtLeast(Value(f[2])) * 0x100 + AtLeast(Value(f[3]))]
  }

  function AtLeast(n: int): nat {
    if n < 0 then 0 else n
  }

  /** The loop of the reader, with the groups got so far. */
  function ScanGroups(s: string, got: Groups, gap: Option<nat>): Scan
    decreases |s|
  {
    if |got| >= 8 then if s == "" then Scanned(got, gap) else Failed
    else
      var n := HexEnd(s, 0);
      if n == 0 || n > 4 then Failed
      else if n < |s| && s[n] == '.' then
        if (gap.None? && |got| != 6) || |got| > 6 || !IPv4(s) then Failed else Scanned(got + Dotted(s), gap)
      else AfterGroup(s[n..], got + [HexNumber(s[..n])], gap)
  }

  /** What may follow a group: nothing, a colon and more, or the one double colon. */
  function AfterGroup(s: string, got: Groups, gap: Option<nat>): Scan
    decreases |s|, 1
  {
    if s == "" then Scanned(got, gap)
    else if s[0] != ':' || |s| == 1 then Failed
    else if s[1] != ':' then ScanGroups(s[1..], got, gap)
    else if gap.Some? then Failed
    else if |s| == 2 then Scanned(got, Some(|got|))
    else ScanGroups(s[2..], got, Some(|got|))
  }

  function Zeros(n: nat): Groups {
    seq(n, _ => 0)
  }

  function Expand(r: Scan): Option<Groups> {
    match r
    case Failed => None
    case Scanned(got, gap) =>
      if |got| == 8 && gap.None? then Some(got)
      else if |got| < 8 && gap.Some? && gap.value <= |got| then
        Some(got[..gap.value] + Zeros(8 - |got|) + got[gap.value..])
      else None
  }

  function Parse(s: string): Option<Groups> {
    if HasPrefix(s, "::") then
      if |s| == 2 then Some(Zeros(8)) else Expand(ScanGroups(s[2..], [], Some(0)))
    else Expand(ScanGroups(s, [], None))
  }

  /** The canonical text of an address without a zone. */
  function Canonical6(s: string): Option<string> {
    match Parse(s)
    case None => None
    case Some(g) => Some(Print(g))
  }

  // ---- what is read are eight groups ------------------------------------

  predicate Fine(r: Scan) {
    r.Scanned? ==> |r.got| <= 8 && (forall n | n in r.got :: Group(n)) && (r.gap.Some? ==> r.gap.value <= |r.got|)
  }

  lemma {:induction false} FourDigits(s: string, k: nat)
    requires |s| <= k
    ensures HexNumber(s) < Pow16(k)
  {
    if k > 0 {
      FourDigits(if s == "" then s else s[..|s| - 1], k - 1);
    }
  }

  lemma DottedFits(s: string)
    requires IPv4(s)
    ensures |Dotted(s)| == 2 && forall n | n in Dotted(s) :: Group(n)
  {
    var f := SplitOn(s, '.', "");
    assert Octet(f[0]) && Octet(f[1]) && Octet(f[2]) && Octet(f[3]);
    hide SplitOn, Value;
  }

  lemma {:induction false} ScanIsFine(s: string, got: Groups, gap: Option<nat>)
    requires Fine(Scanned(got, gap))
    ensures Fine(ScanGroups(s, got, gap))
    decreases |s|
  {
    hide HexEnd, HexNumber, IPv4, Dotted;
    if |got| < 8 {
      var n := HexEnd(s, 0);
      if 0 < n <= 4 {
        if n < |s| && s[n] == '.' {
          if IPv4(s) {
            DottedFits(s);
          }
        } else {
          FourDigits(s[..n], 4);
          assert Pow16(4) == 0x1_0000 by { PowerOf4(); }
          var more, t := got + [HexNumber(s[..n])], s[n..];
          if |t| > 1 {
            ScanIsFine(t[1..], more, gap);
            ScanIsFine(t[2..], more, Some(|more|));
          }
        }
      }
    }
  }

  lemma PowerOf4()
    ensures Pow16(4) == 0x1_0000
  {
    assert Pow16(2) == 0x100;
  }

  lemma ParseGives(s: string)
    requires Parse(s).Some?
    ensures Address(Parse(s).value)
  {
    ScanIsFine(s, [], None);
    if HasPrefix(s, "::") && |s| > 2 {
      ScanIsFine(s[2..], [], Some(0));
    }
    hide ScanGroups;
  }

  // ---- what is printed is read ------------------------------------------

  lemma {:induction false} HexEndIs(x: string, t: string, i: nat)
    requires i <= |x| && (forall k | i <= k < |x| :: HexValue(x[k]).Some?) && (t == "" || HexValue(t[0]).None?)
    ensures HexEnd(x + t, i) == |x|
    decreases |x| - i
  {
    if i < |x| {
      HexEndIs(x, t, i + 1);
    }
  }

  /** One printed group is read as such. */
  lemma OneGroup(n: nat, t: string, got: Groups, gap: Option<nat>)
    requires Group(n) && |got| < 8 && (t == "" || t[0] == ':')
    ensures ScanGroups(Hex(n) + t, got, gap) == AfterGroup(t, got + [n], gap)
  {
    var x := Hex(n);
    HexReads(n);
    PowerOf4();
    HexFits(n, 4);
    assert forall k | 0 <= k < |x| :: x[k] in x;
    assert forall c: char | '0' <= c <= '9' || 'a' <= c <= 'f' :: HexValue(c).Some?;
    HexEndIs(x, t, 0);
    hide HexEnd, Hex, HexNumber;
    assert (x + t)[|x|..] == t && (x + t)[..|x|] == x;
  }

  lemma HexStarts(n: nat)
    ensures Hex(n) != "" && Hex(n)[0] != ':'
  {
    HexReads(n);
    assert Hex(n)[0] in Hex(n);
  }

  lemma ColonsStart(g: Groups)
    ensures g != [] ==> Colons(g) != "" && Colons(g)[0] != ':'
  {
    if g != [] {
      HexStarts(g[0]);
    }
  }

  /** The groups to the end of the text. */
  lemma {:induction false} ReadLast(g: Groups, got: Groups, gap: Option<nat>)
    requires g != [] && |got| + |g| <= 8 && forall n | n in g :: Group(n)
    ensures ScanGroups(Colons(g), got, gap) == Scanned(got + g, gap)
    decreases |g|
  {
    hide ScanGroups, Hex;
    assert g[0] in g;
    if |g| == 1 {
      assert Hex(g[0]) + "" == Hex(g[0]) && g == [g[0]];
      OneGroup(g[0], "", got, gap);
    } else {
      var rest := Colons(g[1..]);
      ColonsStart(g[1..]);
      OneGroup(g[0], ":" + rest, got, gap);
      assert Colons(g) == Hex(g[0]) + (":" + rest) && (":" + rest)[1..] == rest;
      ReadLast(g[1..], got + [g[0]], gap);
      assert got + [g[0]] + g[1..] == got + g;
    }
  }

  lemma AtDoubleColon(t: string, got: Groups)
    requires t == "" || t[0] != ':'
    ensures AfterGroup("::" + t, got, None)
         == if t == "" then Scanned(got, Some(|got|)) else ScanGroups(t, got, Some(|got|))
  {
    hide ScanGroups;
    var s := "::" + t;
    assert s[2..] == t && s[0] == ':' && s[1] == ':';
  }

  lemma AtColon(t: string, got: Groups, gap: Option<nat>)
    requires t != "" && t[0] != ':'
    ensures AfterGroup(":" + t, got, gap) == ScanGroups(t, got, gap)
  {
    hide ScanGroups;
    var s := ":" + t;
    assert s[1..] == t && s[0] == ':' && s[1] == t[0];
  }

  lemma ColonsStep(g: Groups, t: string)
    requires |g| > 1
    ensures Colons(g) + t == Hex(g[0]) + (":" + (Colons(g[1..]) + t))
    ensures Colons(g[1..]) != "" && (Colons(g[1..]) + t)[0] != ':'
  {
    ColonsStart(g[1..]);
    hide Hex;
    Assoc(Hex(g[0]) + ":", Colons(g[1..]), t);
    Assoc(Hex(g[0]), ":", Colons(g[1..]) + t);
  }

  /** The groups up to the double colon. */
  lemma {:induction false} ReadFirst(g: Groups, t: string, got: Groups)
    requires g != [] && |got| + |g| < 8 && (forall n | n in g :: Group(n)) && (t == "" || t[0] != ':')
    ensures ScanGroups(Colons(g) + ("::" + t), got, None)
         == if t == "" then Scanned(got + g, Some(|got| + |g|)) else ScanGroups(t, got + g, Some(|got| + |g|))
    decreases |g|
  {
    hide *;
    assert g[0] in g;
    var end := "::" + t;
    if |g| == 1 {
      assert g == [g[0]];
      AtDoubleColon(t, got + [g[0]]);
      OneColon(g[0]);
      Clear(t);
      OneGroup(g[0], end, got, None);
    } else {
      ColonsStep(g, end);
      var more := Colons(g[1..]) + end;
      AtColon(more, got + [g[0]], None);
      OneGroup(g[0], ":" + more, got, None);
      ReadFirst(g[1..], t, got + [g[0]]);
      assert got + [g[0]] + g[1..] == got + g;
    }
  }

  lemma Clear(t: string)
    ensures "::" + t != "" && ("::" + t)[0] == ':'
  {}

  lemma OneColon(n: nat)
    ensures Colons([n]) == Hex(n)
  {}

  /** A run of zeros put back. */
  lemma RunPutBack(g: Groups, a: nat, n: nat)
    requires |g| == 8 && n > 0 && a + n <= 8 && forall k | a <= k < a + n :: g[k] == 0
    ensures Expand(Scanned(g[..a] + g[a + n..], Some(a))) == Some(g)
  {
    var got := g[..a] + g[a + n..];
    assert got[..a] == g[..a] && got[a..] == g[a + n..];
    assert g == g[..a] + Zeros(n) + g[a + n..];
  }

  lemma NoDoubleColon(s: string)
    requires s == "" || s[0] != ':'
    ensures !HasPrefix(s, "::")
  {}

  lemma DoubleColon(t: string)
    ensures HasPrefix("::" + t, "::") && ("::" + t)[2..] == t
  {}

  /** Every address is read back from its canonical text. */
  lemma PrintReadsBack(g: Groups)
    requires Address(g)
    ensures Parse(Print(g)) == Some(g)
  {
    hide LongestRun, ScanGroups, Parse, Colons, ZerosFrom, Address;
    var run := LongestRun(g, 0, 0, 0);
    AddressLong(g);
    if run.1 == 0 {
      ReadAll(g);
    } else {
      ReadWithRun(g, run.0, run.1);
    }
  }

  lemma AddressLong(g: Groups)
    requires Address(g)
    ensures |g| == 8
  {}

  lemma ReadAll(g: Groups)
    requires Address(g)
    ensures Parse(Colons(g)) == Some(g)
  {
    hide ScanGroups, Colons;
    ColonsStart(g);
    NoDoubleColon(Colons(g));
    ReadLast(g, [], None);
    assert [] + g == g;
  }

  /** The text behind the double colon. */
  lemma ReadAfterRun(x: Groups, y: Groups)
    requires |x| + |y| < 8 && forall n | n in y :: Group(n)
    ensures y != [] ==> Colons(y) != "" && Colons(y)[0] != ':' && ScanGroups(Colons(y), x, Some(|x|)) == Scanned(x + y, Some(|x|))
    ensures y == [] ==> Colons(y) == "" && x + y == x
  {
    hide ScanGroups;
    ColonsStart(y);
    if y != [] {
      ReadLast(y, x, Some(|x|));
    }
  }

  lemma ReadWithRun(g: Groups, a: nat, n: nat)
    requires Address(g) && n > 0 && a + n <= 8 && forall k | a <= k < a + n :: g[k] == 0
    ensures Parse(Colons(g[..a]) + "::" + Colons(g[a + n..])) == Some(g)
  {
    var x, y := g[..a], g[a + n..];
    RunPutBack(g, a, n);
    assert forall m | m in x || m in y :: m in g;
    hide Colons, ScanGroups, Expand;
    ReadAfterRun(x, y);
    if a == 0 {
      assert x == [] && Colons(x) == "" by { NoGroups(); }
      RunFirst(g, y, Colons(y));
    } else {
      RunLater(g, x, y, Colons(y));
    }
  }

  lemma NoGroups()
    ensures Colons([]) == ""
  {}

  lemma RunFirst(g: Groups, y: Groups, t: string)
    requires |g| == 8 && (t == "" ==> forall k | 0 <= k < 8 :: g[k] == 0)
    requires t != "" ==> ScanGroups(t, [], Some(0)) == Scanned(y, Some(0))
    requires Expand(Scanned(y, Some(0))) == Some(g)
    ensures Parse("" + "::" + t) == Some(g)
  {
    hide ScanGroups, Expand;
    DoubleColon(t);
    assert "" + "::" + t == "::" + t;
    if t == "" {
      AllZeros(g);
    }
  }

  lemma RunLater(g: Groups, x: Groups, y: Groups, t: string)
    requires Expand(Scanned(x + y, Some(|x|))) == Some(g)
    requires x != [] && |x| < 8 && (forall m | m in x :: Group(m)) && (t == "" || t[0] != ':')
    requires if t == "" then x + y == x else ScanGroups(t, x, Some(|x|)) == Scanned(x + y, Some(|x|))
    ensures Parse(Colons(x) + "::" + t) == Some(g)
  {
    hide *;
    ColonsStart(x);
    ReadFirst(x, t, []);
    assert [] + x == x;
    Assoc(Colons(x), "::", t);
    var s := Colons(x) + ("::" + t);
    NoDoubleColon(s);
    ParseFrom(s);
  }

  lemma ParseFrom(s: string)
    requires !HasPrefix(s, "::")
    ensures Parse(s) == Expand(ScanGroups(s, [], None))
  {}

  lemma AllZeros(g: Groups)
    requires |g| == 8 && forall k | 0 <= k < 8 :: g[k] == 0
    ensures Zeros(8) == g
  {}

  lemma {:induction false} ColonsChars(g: Groups)
    ensures forall c | c in Colons(g) :: IPv6Char(c)
  {
    if g != [] {
      HexReads(g[0]);
      ColonsChars(g[1..]);
    }
  }

  lemma PrintChars(g: Groups)
    requires Address(g)
    ensures Print(g) != "" && AllOf(Print(g), IPv6Char)
  {
    var run := LongestRun(g, 0, 0, 0);
    ColonsChars(g);
    ColonsChars(g[..run.0]);
    ColonsChars(g[run.0 + run.1..]);
    ColonsStart(g);
    hide Colons, LongestRun;
    assert forall c | c in Print(g) :: IPv6Char(c);
    assert forall i | 0 <= i < |Print(g)| :: Print(g)[i] in Print(g);
  }

  /** The canonical text of an address is its own canonical text, in lower-case hex and
      colons. */
  lemma AddressesAreLawful()
    ensures Lawful(Canonical6)
  {
    forall s | Canonical6(s).Some?
      ensures Canonical6(Canonical6(s).value) == Canonical6(s) && Canonical6(s).value != "" && AllOf(Canonical6(s).value, IPv6Char)
    {
      ParseGives(s);
      var g := Parse(s).value;
      PrintReadsBack(g);
      PrintChars(g);
    }
  }

  /** Two texts have one canonical form exactly when they are one address. */
  lemma OneTextPerAddress(s: string, t: string)
    requires Parse(s).Some? && Parse(t).Some?
    ensures Canonical6(s) == Canonical6(t) <==> Parse(s) == Parse(t)
  {
    ParseGives(s);
    ParseGives(t);
    PrintReadsBack(Parse(s).value);
    PrintReadsBack(Parse(t).value);
  }

  /** So every accepted URL's canonical form is stable, whatever its host. */
  lemma UrlIsStable(raw: string)
    requires Canonical(Canonical6, raw).Some?
    ensures Canonical(Canonical6, Canonical(Canonical6, raw).value) == Canonical(Canonical6, raw)
  {
    AddressesAreLawful();
    CanonicalIsStable(Canonical6, raw);
  }
}
