/** What taking punk's blocks out of a config.toml means, said of the markers in the
    text. */
module CodexStrip {
  import opened Text
  import opened CodexBlock
  import opened CodexEdit

  /** The first start marker of the text stands at the end of `x`, the first end marker
      after it at the end of `m`. */
  ghost predicate Fenced(s: string, x: string, m: string, y: string) {
    && s == x + (m + (BLOCK_END + y)) && HasPrefix(m, BLOCK_START)
    && (forall k | 0 <= k < |x| :: !At(s, BLOCK_START, k))
    && (forall k | |x| <= k < |x| + |m| :: !At(s, BLOCK_END, k))
  }

  /** A line break that ends the end marker's line goes with it. */
  function Unbroken(y: string): string {
    if y != "" && y[0] == '\n' then y[1..] else y
  }

  /** A start marker without an end marker anywhere after the first one. */
  ghost predicate Unmatched(s: string) {
    exists i: nat :: At(s, BLOCK_START, i) && (forall k | 0 <= k < i :: !At(s, BLOCK_START, k)) && forall k: nat | i <= k :: !At(s, BLOCK_END, k)
  }

  /** `t` is what is left of `s` when one block after the other is taken out. */
  ghost predicate Strips(s: string, t: string)
    decreases |s|
  {
    if !Contains(s, BLOCK_START) then t == s
    else exists x, m, y :: Fenced(s, x, m, y) && |x + Unbroken(y)| < |s| && Strips(x + Unbroken(y), t)
  }

  /** Taking out one block after the other, a start marker is left without its end. */
  ghost predicate Stuck(s: string)
    decreases |s|
  {
    Unmatched(s) || exists x, m, y :: Fenced(s, x, m, y) && |x + Unbroken(y)| < |s| && Stuck(x + Unbroken(y))
  }

  /** No end marker begins within a start marker. */
  lemma EndIsBehind(s: string, i: nat, j: nat)
    requires At(s, BLOCK_START, i) && i <= j && At(s, BLOCK_END, j)
    ensures i + |BLOCK_START| <= j && HasPrefix(s[i..j], BLOCK_START)
  {
    StartShape();
    EndNeeds(s, j);
    var n := |BLOCK_START|;
    assert s[i..i + n] == BLOCK_START;
    SameChar(s, i, i + 15);
    if i < j < i + n {
      SameChar(s, i, j);
    }
    assert i + n <= j;
    assert s[i..j][..n] == s[i..i + n];
  }

  lemma SameChar(s: string, i: nat, j: nat)
    requires At(s, BLOCK_START, i) && i <= j < i + |BLOCK_START|
    ensures s[j] == BLOCK_START[j - i]
  {
    assert s[j] == s[i..i + |BLOCK_START|][j - i];
  }

  /** One turn of the loop. */
  lemma Turn(s: string) returns (x: string, m: string, y: string)
    ensures if !Contains(s, BLOCK_START) then StripBlocks(s) == Some(s) && !Unmatched(s)
            else if Unmatched(s) then StripBlocks(s) == None
            else Fenced(s, x, m, y) && |x + Unbroken(y)| < |s| && StripBlocks(s) == StripBlocks(x + Unbroken(y))
  {
    hide *;
    x, m, y := "", "", "";
    StripStep(s);
    var i := IndexOf(s, BLOCK_START);
    if i < 0 {
      NoneUnmatched(s);
    } else {
      Somewhere(s, i);
      AtInside(s, BLOCK_START, i);
      var j := IndexFrom(s, BLOCK_END, i);
      if j < 0 {
        NowUnmatched(s, i);
      } else {
        NotUnmatched(s, i, j);
        EndIsBehind(s, i, j);
        x, m, y := s[..i], s[i..j], s[j + |BLOCK_END|..];
        FencedHere(s, i, j);
      }
    }
  }

  lemma AtInside(s: string, m: string, i: nat)
    requires At(s, m, i)
    ensures i + |m| <= |s|
  {}

  lemma NoneUnmatched(s: string)
    requires !Contains(s, BLOCK_START)
    ensures !Unmatched(s)
  {
    hide BLOCK_START, BLOCK_END, At;
  }

  lemma Somewhere(s: string, i: nat)
    requires At(s, BLOCK_START, i)
    ensures Contains(s, BLOCK_START)
  {
    hide BLOCK_START, At;
  }

  lemma NowUnmatched(s: string, i: nat)
    requires At(s, BLOCK_START, i) && (forall k | 0 <= k < i :: !At(s, BLOCK_START, k)) && forall k | i <= k :: !At(s, BLOCK_END, k)
    ensures Unmatched(s)
  {
    hide BLOCK_START, BLOCK_END, At;
  }

  lemma FencedHere(s: string, i: nat, j: nat)
    requires At(s, BLOCK_START, i) && (forall k | 0 <= k < i :: !At(s, BLOCK_START, k))
    requires i <= j <= |s| && At(s, BLOCK_END, j) && (forall k | i <= k < j :: !At(s, BLOCK_END, k)) && HasPrefix(s[i..j], BLOCK_START)
    ensures var n := j + |BLOCK_END|;
            n <= |s| && Fenced(s, s[..i], s[i..j], s[n..]) && Unbroken(s[n..]) == (if n < |s| && s[n] == '\n' then s[n + 1..] else s[n..])
            && |s[..i] + Unbroken(s[n..])| < |s|
  {
    EndShape();
    hide BLOCK_START, BLOCK_END;
    var n := j + |BLOCK_END|;
    assert s[j..n] == BLOCK_END;
    assert s == s[..i] + (s[i..j] + (s[j..n] + s[n..]));
  }

  lemma EndShape()
    ensures BLOCK_START != "" && BLOCK_END != ""
  {
    StartShape();
    MarkerShape();
  }

  lemma StripStep(s: string)
    ensures var i := IndexOf(s, BLOCK_START);
            if i < 0 then StripBlocks(s) == Some(s)
            else
              var j := IndexFrom(s, BLOCK_END, i);
              if j < 0 then StripBlocks(s) == None
              else
                var n := j + |BLOCK_END|;
                n <= |s| && StripBlocks(s) == StripBlocks(s[..i] + if n < |s| && s[n] == '\n' then s[n + 1..] else s[n..])
  {
    hide IndexOf, IndexFrom;
  }

  lemma NotUnmatched(s: string, i: nat, j: nat)
    requires At(s, BLOCK_START, i) && (forall k | 0 <= k < i :: !At(s, BLOCK_START, k)) && i <= j && At(s, BLOCK_END, j)
    ensures !Unmatched(s)
  {
    hide BLOCK_START, BLOCK_END;
  }

  /** There is one way to cut a text. */
  lemma OneFence(s: string, x: string, m: string, y: string, x2: string, m2: string, y2: string)
    requires Fenced(s, x, m, y) && Fenced(s, x2, m2, y2)
    ensures x == x2 && m == m2 && y == y2
  {
    FenceAt(s, x, m, y);
    FenceAt(s, x2, m2, y2);
    hide BLOCK_START, BLOCK_END;
    assert |x| == |x2|;
    assert |x| + |m| == |x2| + |m2|;
    assert x == s[..|x|] && x2 == s[..|x2|];
    assert m == s[|x|..|x| + |m|] && m2 == s[|x2|..|x2| + |m2|];
    assert y == s[|x| + |m| + |BLOCK_END|..] && y2 == s[|x2| + |m2| + |BLOCK_END|..];
  }

  lemma FenceAt(s: string, x: string, m: string, y: string)
    requires Fenced(s, x, m, y)
    ensures At(s, BLOCK_START, |x|) && At(s, BLOCK_END, |x| + |m|)
  {
    hide BLOCK_START, BLOCK_END;
    var n := |BLOCK_START|;
    assert s[|x|..|x| + n] == m[..n];
    assert s[|x| + |m|..|x| + |m| + |BLOCK_END|] == BLOCK_END;
  }

  /** Stripping takes out one block after the other, as long as there is one, and fails
      exactly when a start marker is left that no end marker follows. */
  lemma {:induction false} StripsExactly(s: string, t: string)
    ensures StripBlocks(s) == Some(t) <==> Strips(s, t) && !Stuck(s)
    ensures StripBlocks(s) == None <==> Stuck(s)
    decreases |s|
  {
    hide StripBlocks, Fenced, Unmatched, BLOCK_START, BLOCK_END, Unbroken;
    var x, m, y := Turn(s);
    if !Contains(s, BLOCK_START) {
      NoFence(s);
    } else if !Unmatched(s) {
      StripsExactly(x + Unbroken(y), t);
      forall x2, m2, y2 | Fenced(s, x2, m2, y2) ensures x2 == x && y2 == y {
        OneFence(s, x, m, y, x2, m2, y2);
      }
    }
  }

  lemma NoFence(s: string)
    requires !Contains(s, BLOCK_START)
    ensures forall x, m, y :: !Fenced(s, x, m, y)
  {
    hide BLOCK_START, BLOCK_END;
    forall x, m, y ensures !Fenced(s, x, m, y) {
      if Fenced(s, x, m, y) {
        FenceAt(s, x, m, y);
      }
    }
  }
}
