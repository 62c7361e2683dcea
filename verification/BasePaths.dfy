/** Which paths a server URL may have, said of the text between slashes. */
module BasePaths {
  import opened Text
  import opened BaseURL

  // ---- pieces of a text -------------------------------------------------

  lemma {:induction false} SplitPart(x: string, c: char, last: string)
    requires c !in x
    ensures SplitOn(x, c, last) == [x + last]
  {
    if x == "" {
      assert x + last == last;
    } else {
      var y, d := x[..|x| - 1], x[|x| - 1];
      assert d in x;
      SplitPart(y, c, [d] + last);
      assert x == y + [d];
      assert y + ([d] + last) == x + last;
    }
  }

  lemma {:induction false} SplitConcatOn(x: string, c: char, y: string, last: string)
    ensures SplitOn(x + [c] + y, c, last) == SplitOn(x, c, "") + SplitOn(y, c, last)
  {
    var s := x + [c] + y;
    if y == "" {
      assert s[..|s| - 1] == x && s[|s| - 1] == c;
    } else {
      var z, d := y[..|y| - 1], y[|y| - 1];
      assert s[|s| - 1] == d && s[..|s| - 1] == x + [c] + z;
      SplitConcatOn(x, c, z, if d == c then "" else [d] + last);
    }
  }

  /** `p` stands in `s` between two separators, or between one and an end. */
  ghost predicate Between(s: string, c: char, x: string, p: string, y: string) {
    s == x + p + y && c !in p && (x == "" || x[|x| - 1] == c) && (y == "" || y[0] == c)
  }

  lemma {:induction false} PieceBetween(s: string, c: char, last: string, p: string) returns (x: string, y: string)
    requires p in SplitOn(s, c, last) && c !in last
    ensures Between(s + last, c, x, p, y)
  {
    if s == "" {
      x, y := "", "";
      assert s + last == "" + last + "";
    } else {
      var init, d := s[..|s| - 1], s[|s| - 1];
      if d != c {
        x, y := PieceBetween(init, c, [d] + last, p);
        assert init + ([d] + last) == s + last;
      } else if p == last {
        x, y := s, "";
        assert s + last == s + last + "";
      } else {
        x, y := PieceBetween(init, c, "", p);
        assert s + last == x + p + (y + [c] + last) by {
          assert init + "" == init && s == init + [c];
        }
        y := y + [c] + last;
      }
    }
  }

  lemma BetweenPiece(s: string, c: char, x: string, p: string, y: string)
    requires Between(s, c, x, p, y)
    ensures p in SplitOn(s, c, "")
  {
    hide SplitOn;
    SplitPart(p, c, "");
    assert p + "" == p;
    var t := p + y;
    if y == "" {
      assert t == p;
    } else {
      var z := y[1..];
      assert t == p + [c] + z;
      SplitConcatOn(p, c, z, "");
    }
    if x == "" {
      assert s == t;
    } else {
      var w := x[..|x| - 1];
      assert s == w + [c] + t;
      SplitConcatOn(w, c, t, "");
    }
  }

  // ---- dots -------------------------------------------------------------

  const DOT := {".", "%2e", "%2E"}

  /** One dot or two, each written in any of the three ways. */
  ghost predicate DotSegment(seg: string) {
    seg in DOT || exists a, b :: a in DOT && b in DOT && seg == a + b
  }

  lemma UndotStep(l: string)
    requires l != ""
    ensures Undot(l) == if HasPrefix(l, "%2e") then "." + Undot(l[3..]) else [l[0]] + Undot(l[1..])
    ensures Undot("") == ""
  {}

  lemma UndotEmpty(l: string)
    ensures Undot(l) == "" <==> l == ""
  {}

  lemma UndotOne(l: string)
    ensures Undot(l) == "." <==> l == "." || l == "%2e"
  {
    hide Undot;
    if l != "" {
      UndotStep(l);
      if HasPrefix(l, "%2e") {
        UndotEmpty(l[3..]);
        assert l == "%2e" + l[3..];
      } else {
        UndotEmpty(l[1..]);
        assert l == [l[0]] + l[1..];
      }
    } else {
      UndotEmpty(l);
    }
  }

  lemma UndotTwo(l: string)
    ensures Undot(l) == ".." <==>
            || (HasPrefix(l, "%2e") && (l[3..] == "." || l[3..] == "%2e"))
            || (l != "" && l[0] == '.' && (l[1..] == "." || l[1..] == "%2e"))
  {
    hide Undot;
    if l == "" {
      UndotEmpty(l);
    } else {
      UndotStep(l);
      assert "." + "." == "..";
      if HasPrefix(l, "%2e") {
        UndotOne(l[3..]);
        assert ("." + Undot(l[3..]))[1..] == Undot(l[3..]);
        assert l[0] == l[..3][0] == '%';
      } else {
        UndotOne(l[1..]);
        assert ([l[0]] + Undot(l[1..]))[1..] == Undot(l[1..]);
      }
    }
  }

  lemma LowerDot(x: string)
    ensures Lower(x) == "." <==> x == "."
    ensures Lower(x) == "%2e" <==> x == "%2e" || x == "%2E"
  {
    if |x| == 1 {
      assert Lower(x)[0] == '.' <==> x[0] == '.';
    }
    if |x| == 3 {
      assert Lower(x)[0] == '%' <==> x[0] == '%';
      assert Lower(x)[1] == '2' <==> x[1] == '2';
      assert Lower(x)[2] == 'e' <==> x[2] == 'e' || x[2] == 'E';
    }
  }

  lemma LowerPart(x: string, n: nat)
    requires n <= |x|
    ensures Lower(x)[..n] == Lower(x[..n]) && Lower(x)[n..] == Lower(x[n..])
  {}

  lemma LowerJoin(a: string, b: string)
    ensures Lower(a + b) == Lower(a) + Lower(b)
  {}

  /** The segments that are refused are exactly the dots, however they are written. */
  lemma DotsExactly(seg: string)
    ensures Dots(seg) <==> DotSegment(seg)
  {
    var l := Lower(seg);
    UndotOne(l);
    UndotTwo(l);
    LowerDot(seg);
    hide Undot, Lower;
    if Undot(l) == ".." {
      var n := if HasPrefix(l, "%2e") then 3 else 1;
      LowerPart(seg, n);
      LowerDot(seg[..n]);
      LowerDot(seg[n..]);
      assert l[..1] == [l[0]];
      assert seg == seg[..n] + seg[n..];
    }
    if a, b :| a in DOT && b in DOT && seg == a + b {
      LowerJoin(a, b);
      LowerDot(a);
      LowerDot(b);
      var x, y := Lower(a), Lower(b);
      assert (x + y)[|x|..] == y && (x + y)[..|x|] == x;
    }
  }

  /** A path is accepted exactly when it has only the characters of a path, every
      percent sign starts an escape, and no segment between its slashes is one dot or
      two, however the dots are written. */
  lemma PathExactly(path: string)
    ensures PathOk(path) <==>
            && AllOf(path, PathChar) && EscapesOk(path)
            && forall x, seg, y | Between(path, '/', x, seg, y) :: !DotSegment(seg)
  {
    hide Dots, DotSegment, AllOf, EscapesOk, SplitOn;
    assert path + "" == path;
    forall seg | seg in SplitOn(path, '/', "") && Dots(seg) ensures exists x, y :: Between(path, '/', x, seg, y) && DotSegment(seg) {
      var x, y := PieceBetween(path, '/', "", seg);
      DotsExactly(seg);
    }
    forall x, seg, y | Between(path, '/', x, seg, y) ensures seg in SplitOn(path, '/', "") && (Dots(seg) <==> DotSegment(seg)) {
      BetweenPiece(path, '/', x, seg, y);
      DotsExactly(seg);
    }
  }

  /** So no segment of an accepted URL's path is a dot segment. */
  lemma NoDotSegments(v6: IPv6, raw: string, x: string, seg: string, y: string)
    requires Canonical(v6, raw).Some?
    ensures Cut(raw).Some?
    ensures Between(Cut(raw).value.path, '/', x, seg, y) ==> !DotSegment(seg)
  {
    PathExactly(Cut(raw).value.path);
    hide Cut, CutAuthority, CanonicalHost, CanonicalPort, DotSegment, AllOf, UrlChar;
  }
}
