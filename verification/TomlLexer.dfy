/** Which lines of a TOML document begin outside every string and comment
    (sections "String" and "Comment" of TOML v1.0.0).

    The reference is an automaton that sees one character at a time. The code
    instead scans line by line with three characters of lookahead and counts
    whole runs of quotes; the method below is that scan, proved to compute what
    the automaton computes. */
module TomlLexer {
  import opened Text
  import opened TomlString

  datatype Lex =
    | Code
    | Comment
    | Open1(q: char)          // one quote seen
    | Open2(q: char)          // two quotes seen: the empty string, or half a delimiter
    | Str(q: char)            // inside a string on one line
    | StrEsc                  // after a backslash there
    | Multi(q: char)          // inside a multi-line string
    | MultiEsc                // after a backslash there
    | Run(q: char, n: nat)    // n quotes in a row inside a multi-line string
    | Dead                    // not a document this reader supports

  const MAX_CLOSING_RUN := 5

  function InCode(c: char): Lex {
    if c == '#' then Comment
    else if c == QUOTE || c == APOSTROPHE then Open1(c)
    else Code
  }

  function InString(q: char, c: char): Lex {
    if c == '\n' then Dead
    else if q == QUOTE && c == BACKSLASH then StrEsc
    else if c == q then Code
    else Str(q)
  }

  function InMulti(q: char, c: char): Lex {
    if q == QUOTE && c == BACKSLASH then MultiEsc
    else if c == q then Run(q, 1)
    else Multi(q)
  }

  function Step(s: Lex, c: char): Lex {
    match s
    case Code => InCode(c)
    case Comment => if c == '\n' then Code else Comment
    case Open1(q) => if c == q then Open2(q) else InString(q, c)
    case Open2(q) => if c == q then Multi(q) else InCode(c)
    case Str(q) => InString(q, c)
    case StrEsc => if c == '\n' then Dead else Str(QUOTE)
    case Multi(q) => InMulti(q, c)
    case MultiEsc => Multi(QUOTE)
    case Run(q, n) =>
      if c == q then (if n < MAX_CLOSING_RUN then Run(q, n + 1) else Dead)
      else if n >= 3 then InCode(c)
      else InMulti(q, c)
    case Dead => Dead
  }

  function Feed(s: Lex, text: string): Lex
    decreases |text|
  {
    if text == "" then s else Feed(Step(s, text[0]), text[1..])
  }

  /** The state after the rest of a line from `j` and its line break. */
  function LineEnd(s: Lex, ln: string, j: nat): Lex
    decreases |ln| - j
  {
    if j >= |ln| then Step(s, '\n') else LineEnd(Step(s, ln[j]), ln, j + 1)
  }

  /** The state in which line `i` begins. */
  function LineState(lines: seq<string>, i: nat): Lex
    requires i <= |lines|
  {
    if i == 0 then Code else LineEnd(LineState(lines, i - 1), lines[i - 1], 0)
  }

  function CodeStarts(lines: seq<string>): (r: Option<seq<bool>>)
    ensures r.Some? ==> |r.value| == |lines|
  {
    if LineState(lines, |lines|) == Code
    then Some(seq(|lines|, i requires 0 <= i < |lines| => LineState(lines, i) == Code))
    else None
  }

  /** Lines are only a way to walk the text: the state before line `i` is the
      automaton's state after the characters of the lines before it. */
  lemma {:induction false} LineStateReadsText(lines: seq<string>, i: nat)
    requires 0 < i <= |lines|
    ensures LineState(lines, i) == Feed(Code, Join(lines[..i]) + "\n")
  {
    var before := lines[..i];
    assert lines[..i] == lines[..i - 1] + [lines[i - 1]];
    if i == 1 {
      assert Join(before) == lines[0];
      LineEndFeeds(Code, lines[0], 0);
    } else {
      LineStateReadsText(lines, i - 1);
      JoinLast(lines[..i - 1], lines[i - 1]);
      var x, y := Join(lines[..i - 1]) + "\n", lines[i - 1] + "\n";
      assert Join(before) + "\n" == x + y;
      FeedConcat(Code, x, y);
      LineEndFeeds(LineState(lines, i - 1), lines[i - 1], 0);
    }
  }

  lemma {:induction false} JoinLast(lines: seq<string>, last: string)
    requires |lines| >= 1
    ensures Join(lines + [last]) == Join(lines) + "\n" + last
  {
    if |lines| > 1 {
      assert (lines + [last])[1..] == lines[1..] + [last];
      JoinLast(lines[1..], last);
    }
  }

  lemma {:induction false} FeedConcat(s: Lex, x: string, y: string)
    ensures Feed(s, x + y) == Feed(Feed(s, x), y)
    decreases |x|
  {
    if x == "" {
      assert x + y == y;
    } else {
      assert (x + y)[1..] == x[1..] + y;
      FeedConcat(Step(s, x[0]), x[1..], y);
    }
  }

  lemma {:induction false} LineEndFeeds(s: Lex, ln: string, j: nat)
    requires j <= |ln|
    ensures LineEnd(s, ln, j) == Feed(s, ln[j..] + "\n")
    decreases |ln| - j
  {
    if j < |ln| {
      LineEndFeeds(Step(s, ln[j]), ln, j + 1);
      assert (ln[j..] + "\n")[1..] == ln[j + 1..] + "\n";
    }
  }

  lemma {:induction false} DeadStays(ln: string, j: nat)
    ensures LineEnd(Dead, ln, j) == Dead
    decreases |ln| - j
  {
    if j < |ln| {
      DeadStays(ln, j + 1);
    }
  }

  lemma {:induction false} DeadForever(lines: seq<string>, i: nat)
    requires i <= |lines| && LineState(lines, i) == Dead
    ensures LineState(lines, |lines|) == Dead
    decreases |lines| - i
  {
    if i < |lines| {
      DeadStays(lines[i], 0);
      DeadForever(lines, i + 1);
    }
  }

  lemma {:induction false} CommentEnds(ln: string, j: nat)
    requires '\n' !in ln
    ensures LineEnd(Comment, ln, j) == Code
    decreases |ln| - j
  {
    if j < |ln| {
      CommentEnds(ln, j + 1);
    }
  }

  /** Lookahead for the opening delimiter agrees with reading it quote by quote. */
  lemma OpeningQuote(ln: string, j: nat)
    requires j < |ln| && (ln[j] == QUOTE || ln[j] == APOSTROPHE)
    ensures At(ln, [ln[j], ln[j], ln[j]], j) ==> LineEnd(Code, ln, j) == LineEnd(Multi(ln[j]), ln, j + 3)
    ensures !At(ln, [ln[j], ln[j], ln[j]], j) ==> LineEnd(Code, ln, j) == LineEnd(Str(ln[j]), ln, j + 1)
  {
    var q := ln[j];
    ThreeQuotes(ln, q, j);
    if j + 1 < |ln| && ln[j + 1] == q {
      assert LineEnd(Code, ln, j) == LineEnd(Open2(q), ln, j + 2);
    }
  }

  lemma ThreeQuotes(s: string, q: char, j: nat)
    ensures At(s, [q, q, q], j) <==> j + 2 < |s| && s[j] == q && s[j + 1] == q && s[j + 2] == q
  {
    if j + 2 < |s| {
      assert s[j..j + 3] == [s[j], s[j + 1], s[j + 2]];
    }
  }

  /** Counting a run of quotes agrees with reading it quote by quote. */
  lemma {:induction false} ClosingRun(q: char, ln: string, j: nat, n: nat, run: nat)
    requires q == QUOTE || q == APOSTROPHE
    requires 1 <= n <= run && n <= MAX_CLOSING_RUN && j + (run - n) <= |ln|
    requires forall k | j <= k < j + (run - n) :: ln[k] == q
    requires j + (run - n) == |ln| || ln[j + (run - n)] != q
    ensures LineEnd(Run(q, n), ln, j) ==
            if run > MAX_CLOSING_RUN then Dead
            else LineEnd(if run >= 3 then Code else Multi(q), ln, j + (run - n))
    decreases run - n
  {
    if n == run {
    } else if n == MAX_CLOSING_RUN {
      DeadStays(ln, j + 1);
    } else {
      ClosingRun(q, ln, j + 1, n + 1, run);
    }
  }

  lemma FirstLine(lines: seq<string>)
    ensures LineState(lines, 0) == Code
  {}

  lemma NextLine(lines: seq<string>, i: nat)
    requires i < |lines|
    ensures LineState(lines, i + 1) == LineEnd(LineState(lines, i), lines[i], 0)
  {}

  /** One character in the code state that opens no string. */
  lemma CodeStep(ln: string, j: nat)
    requires j < |ln| && ln[j] != QUOTE && ln[j] != APOSTROPHE
    ensures LineEnd(Code, ln, j) == LineEnd(if ln[j] == '#' then Comment else Code, ln, j + 1)
  {}

  lemma StrStep(ln: string, j: nat, q: char)
    requires j < |ln| && (q == QUOTE || q == APOSTROPHE) && '\n' !in ln
    ensures if q == QUOTE && ln[j] == BACKSLASH then LineEnd(Str(q), ln, j) == LineEnd(Str(q), ln, j + 2)
            else LineEnd(Str(q), ln, j) == LineEnd(if ln[j] == q then Code else Str(q), ln, j + 1)
  {}

  lemma MultiStep(ln: string, j: nat, q: char)
    requires j < |ln| && (q == QUOTE || q == APOSTROPHE)
    ensures if q == QUOTE && ln[j] == BACKSLASH then LineEnd(Multi(q), ln, j) == LineEnd(Multi(q), ln, j + 2)
            else LineEnd(Multi(q), ln, j) == LineEnd(if ln[j] == q then Run(q, 1) else Multi(q), ln, j + 1)
  {}

  lemma PastEnd(s: Lex, ln: string, j: nat)
    requires j >= |ln|
    ensures LineEnd(s, ln, j) == Step(s, '\n')
  {}

  /** tomlCodeLineStarts: it accepts exactly the documents on which the automaton
      ends in code, and marks exactly the lines where the automaton is in code. */
  method CodeLineStarts(lines: seq<string>) returns (starts: seq<bool>, ok: bool)
    requires forall ln | ln in lines :: '\n' !in ln
    ensures ok == CodeStarts(lines).Some?
    ensures ok ==> starts == CodeStarts(lines).value
  {
    hide LineEnd, LineState;
    FirstLine(lines);
    var state := Code;
    starts := [];
    for i := 0 to |lines|
      invariant |starts| == i && forall k | 0 <= k < i :: starts[k] == (LineState(lines, k) == Code)
      invariant state == LineState(lines, i)
      invariant state == Code || state == Multi(QUOTE) || state == Multi(APOSTROPHE)
    {
      var ln := lines[i];
      assert ln in lines;
      NextLine(lines, i);
      starts := starts + [state == Code];
      var j := 0;
      while j < |ln|
        invariant 0 <= j <= |ln| + 1
        invariant state in {Code, Str(QUOTE), Str(APOSTROPHE), Multi(QUOTE), Multi(APOSTROPHE)}
        invariant LineState(lines, i + 1) == LineEnd(state, ln, j)
      {
        var c := ln[j];
        if state == Code {
          if c == '#' {
            CodeStep(ln, j);
            CommentEnds(ln, j + 1);
            PastEnd(Code, ln, |ln|);
            j := |ln|;
          } else if c == QUOTE || c == APOSTROPHE {
            OpeningQuote(ln, j);
            if At(ln, [c, c, c], j) {
              state, j := Multi(c), j + 3;
            } else {
              state, j := Str(c), j + 1;
            }
          } else {
            CodeStep(ln, j);
            j := j + 1;
          }
        } else if state == Str(QUOTE) && c == BACKSLASH {
          StrStep(ln, j, QUOTE);
          j := j + 2;
        } else if state == Str(QUOTE) || state == Str(APOSTROPHE) {
          StrStep(ln, j, state.q);
          state, j := if c == state.q then Code else state, j + 1;
        } else if state == Multi(QUOTE) && c == BACKSLASH {
          MultiStep(ln, j, QUOTE);
          j := j + 2;
        } else if c != state.q {
          MultiStep(ln, j, state.q);
          j := j + 1;
        } else {
          var run := 1;
          while j + run < |ln| && ln[j + run] == state.q
            invariant 1 <= run && j + run <= |ln|
            invariant forall k | j <= k < j + run :: ln[k] == state.q
          {
            run := run + 1;
          }
          MultiStep(ln, j, state.q);
          ClosingRun(state.q, ln, j + 1, 1, run);
          if run > MAX_CLOSING_RUN {
            DeadForever(lines, i + 1);
            return [], false;
          }
          state, j := if run >= 3 then Code else state, j + run;
        }
      }
      PastEnd(state, ln, j);
      if state == Str(QUOTE) || state == Str(APOSTROPHE) {
        DeadForever(lines, i + 1);
        return [], false;
      }
    }
    ok := state == Code;
  }
}
