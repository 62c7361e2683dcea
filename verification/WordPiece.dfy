/** The BERT-style tokenizer of the static embedding models: words between spaces and
    punctuation, then greedy longest-match pieces of each word. */
module WordPiece {
  import opened Text

  // ---- characters -------------------------------------------------------

  predicate IsControl(c: char) {
    c < ' ' || '\U{007F}' <= c <= '\U{009F}'
  }

  predicate IsCJK(c: char) {
    || '\U{4E00}' <= c <= '\U{9FFF}' || '\U{3400}' <= c <= '\U{4DBF}' || '\U{20000}' <= c <= '\U{2A6DF}'
    || '\U{2A700}' <= c <= '\U{2B73F}' || '\U{2B740}' <= c <= '\U{2B81F}' || '\U{2B820}' <= c <= '\U{2CEAF}'
    || '\U{F900}' <= c <= '\U{FAFF}' || '\U{2F800}' <= c <= '\U{2FA1F}'
  }

  predicate AsciiSymbol(c: char) {
    '!' <= c <= '/' || ':' <= c <= '@' || '[' <= c <= '`' || '{' <= c <= '~'
  }

  /** unicode.IsPunct beyond ASCII is a parameter. */
  type Class = char -> bool

  predicate IsPunct(other: Class, c: char) {
    AsciiSymbol(c) || (c != ' ' && other(c))
  }

  // ---- normalisation ----------------------------------------------------

  predicate Dropped(c: char) {
    c == '\0' || c == '\U{FFFD}' || (IsControl(c) && c != '\t' && c != '\n' && c != '\r')
  }

  function Spaced(c: char, cjk: bool): string {
    if Dropped(c) then ""
    else if IsSpace(c) then " "
    else if cjk && IsCJK(c) then [' ', c, ' ']
    else [c]
  }

  function Cleaned(text: string, cjk: bool): string {
    if text == "" then "" else Cleaned(text[..|text| - 1], cjk) + Spaced(text[|text| - 1], cjk)
  }

  /** normalize; `fold` is lower-casing and the removal of accents, if configured. */
  method Normalize(text: string, cjk: bool, lowercase: bool, fold: string -> string) returns (s: string)
    ensures s == if lowercase then fold(Cleaned(text, cjk)) else Cleaned(text, cjk)
  {
    s := "";
    for k := 0 to |text|
      invariant s == Cleaned(text[..k], cjk)
    {
      assert text[..k + 1][..k] == text[..k];
      var c := text[k];
      if c == '\0' || c == '\U{FFFD}' || (IsControl(c) && c != '\t' && c != '\n' && c != '\r') {
        continue;
      }
      if IsSpace(c) {
        s := s + " ";
      } else if cjk && IsCJK(c) {
        s := s + " " + [c] + " ";
      } else {
        s := s + [c];
      }
    }
    assert text[..|text|] == text;
    if lowercase {
      s := fold(s);
    }
  }

  function WithoutSpaces(s: string): string {
    if s == "" then "" else (if s[0] == ' ' then "" else [s[0]]) + WithoutSpaces(s[1..])
  }

  lemma {:induction false} WithoutSpacesConcat(a: string, b: string)
    ensures WithoutSpaces(a + b) == WithoutSpaces(a) + WithoutSpaces(b)
  {
    if a == "" {
      assert a + b == b;
    } else {
      assert (a + b)[1..] == a[1..] + b;
      WithoutSpacesConcat(a[1..], b);
    }
  }

  /** Cleaning loses nothing but controls and white space. */
  lemma {:induction false} CleanedKeeps(text: string, cjk: bool)
    ensures WithoutSpaces(Cleaned(text, cjk)) == Visible(text)
  {
    if text != "" {
      var init, c := text[..|text| - 1], text[|text| - 1];
      CleanedKeeps(init, cjk);
      WithoutSpacesConcat(Cleaned(init, cjk), Spaced(c, cjk));
      assert WithoutSpaces([' ', c, ' ']) == WithoutSpaces([c, ' ']) by {
        assert [' ', c, ' '][1..] == [c, ' '];
      }
      assert [c, ' '][1..] == [' '] && [c][1..] == "";
      assert WithoutSpaces([c]) == if c == ' ' then "" else [c];
    }
  }

  function Visible(text: string): string {
    if text == "" then ""
    else
      var c := text[|text| - 1];
      Visible(text[..|text| - 1]) + if Dropped(c) || IsSpace(c) then "" else [c]
  }

  // ---- words ------------------------------------------------------------

  function Flushed(cur: string): seq<string> {
    if cur == "" then [] else [cur]
  }

  /** The words of a text, `cur` being the one open so far. */
  function WordsFrom(other: Class, s: string, cur: string): seq<string> {
    if s == "" then Flushed(cur)
    else if s[0] == ' ' then Flushed(cur) + WordsFrom(other, s[1..], "")
    else if IsPunct(other, s[0]) then Flushed(cur) + [[s[0]]] + WordsFrom(other, s[1..], "")
    else WordsFrom(other, s[1..], cur + [s[0]])
  }

  function Words(other: Class, s: string): seq<string> {
    WordsFrom(other, s, "")
  }

  method PreTokenize(other: Class, s: string) returns (words: seq<string>)
    ensures words == Words(other, s)
  {
    words := [];
    var cur := "";
    for k := 0 to |s|
      invariant Words(other, s) == words + WordsFrom(other, s[k..], cur)
    {
      assert s[k..][1..] == s[k + 1..] && s[k..][0] == s[k];
      var c := s[k];
      if c == ' ' {
        words, cur := words + Flushed(cur), "";
      } else if IsPunct(other, c) {
        words, cur := words + Flushed(cur) + [[c]], "";
      } else {
        cur := cur + [c];
      }
    }
    words := words + Flushed(cur);
  }

  function Concat(words: seq<string>): string {
    if words == [] then "" else words[0] + Concat(words[1..])
  }

  lemma {:induction false} ConcatAppend(a: seq<string>, b: seq<string>)
    ensures Concat(a + b) == Concat(a) + Concat(b)
  {
    if a == [] {
      assert a + b == b;
    } else {
      assert (a + b)[1..] == a[1..] + b;
      ConcatAppend(a[1..], b);
    }
  }

  /** The words hold the text without its spaces, in order. */
  lemma {:induction false} WordsHoldText(other: Class, s: string, cur: string)
    ensures Concat(WordsFrom(other, s, cur)) == cur + WithoutSpaces(s)
  {
    hide IsPunct;
    assert Concat(Flushed(cur)) == cur by {
      assert [cur][1..] == [];
    }
    if s != "" {
      if s[0] == ' ' {
        WordsHoldText(other, s[1..], "");
        ConcatAppend(Flushed(cur), WordsFrom(other, s[1..], ""));
      } else if IsPunct(other, s[0]) {
        WordsHoldText(other, s[1..], "");
        var rest := WordsFrom(other, s[1..], "");
        ConcatAppend(Flushed(cur) + [[s[0]]], rest);
        ConcatAppend(Flushed(cur), [[s[0]]]);
        assert Concat([[s[0]]]) == [s[0]] by {
          assert [[s[0]]][1..] == [];
        }
      } else {
        WordsHoldText(other, s[1..], cur + [s[0]]);
      }
    }
  }

  predicate Plain(other: Class, s: string) {
    forall i | 0 <= i < |s| :: s[i] != ' ' && !IsPunct(other, s[i])
  }

  /** A word is one punctuation mark, or has neither space nor punctuation in it. */
  predicate IsToken(other: Class, w: string) {
    w != "" && (Plain(other, w) || (|w| == 1 && IsPunct(other, w[0])))
  }

  lemma {:induction false} WordsAreTokens(other: Class, s: string, cur: string)
    requires Plain(other, cur)
    ensures forall w | w in WordsFrom(other, s, cur) :: IsToken(other, w)
  {
    if s != "" {
      WordsAreTokens(other, s[1..], if s[0] == ' ' || IsPunct(other, s[0]) then "" else cur + [s[0]]);
    }
  }

  // ---- ideographs -------------------------------------------------------

  /** The first and last code points of the CJK blocks: unified ideographs, their
      extensions A to E, and the two blocks of compatibility ideographs. */
  const CJK_BLOCKS: seq<(char, char)> := [
    ('\U{4E00}', '\U{9FFF}'), ('\U{3400}', '\U{4DBF}'), ('\U{20000}', '\U{2A6DF}'), ('\U{2A700}', '\U{2B73F}'),
    ('\U{2B740}', '\U{2B81F}'), ('\U{2B820}', '\U{2CEAF}'), ('\U{F900}', '\U{FAFF}'), ('\U{2F800}', '\U{2FA1F}')]

  ghost predicate Ideograph(c: char) {
    exists k: nat :: k < |CJK_BLOCKS| && CJK_BLOCKS[k].0 <= c <= CJK_BLOCKS[k].1
  }

  lemma IdeographExactly(c: char)
    ensures IsCJK(c) <==> Ideograph(c)
  {
    var b := CJK_BLOCKS;
    assert |b| == 8;
    assert forall k: nat | k < 8 && b[k].0 <= c <= b[k].1 :: k == 0 || k == 1 || k == 2 || k == 3 || k == 4 || k == 5 || k == 6 || k == 7;
    assert IsCJK(c) <==>
      || b[0].0 <= c <= b[0].1 || b[1].0 <= c <= b[1].1 || b[2].0 <= c <= b[2].1 || b[3].0 <= c <= b[3].1
      || b[4].0 <= c <= b[4].1 || b[5].0 <= c <= b[5].1 || b[6].0 <= c <= b[6].1 || b[7].0 <= c <= b[7].1;
  }

  lemma {:induction false} CleanedConcat(a: string, b: string, cjk: bool)
    ensures Cleaned(a + b, cjk) == Cleaned(a, cjk) + Cleaned(b, cjk)
  {
    if b == "" {
      assert a + b == a;
    } else {
      var init := b[..|b| - 1];
      assert (a + b)[..|a + b| - 1] == a + init && (a + b)[|a + b| - 1] == b[|b| - 1];
      CleanedConcat(a, init, cjk);
    }
  }

  /** A space ends one word and begins the next. */
  lemma {:induction false} WordsAtSpace(other: Class, x: string, y: string, cur: string)
    ensures WordsFrom(other, x + (" " + y), cur) == WordsFrom(other, x, cur) + Words(other, y)
  {
    if x == "" {
      assert x + (" " + y) == " " + y && (" " + y)[1..] == y;
    } else {
      var d := x[0];
      assert (x + (" " + y))[1..] == x[1..] + (" " + y);
      WordsAtSpace(other, x[1..], y, if d == ' ' || IsPunct(other, d) then "" else cur + [d]);
      hide IsPunct;
    }
  }

  /** With ideographs set apart, each of them is a word of its own, whatever stands
      around it. */
  lemma IdeographIsAWord(other: Class, a: string, c: char, b: string)
    requires Ideograph(c)
    ensures Words(other, Cleaned(a + [c] + b, true)) == Words(other, Cleaned(a, true)) + [[c]] + Words(other, Cleaned(b, true))
  {
    hide Cleaned, IsCJK, Ideograph, Words, WordsFrom;
    IdeographExactly(c);
    var x, y := Cleaned(a, true), Cleaned(b, true);
    CleanedOne(c);
    CleanedConcat(a + [c], b, true);
    CleanedConcat(a, [c], true);
    assert x + [' ', c, ' '] + y == x + (" " + ([c] + (" " + y)));
    WordsApart(other, x, [c] + (" " + y));
    WordsApart(other, [c], y);
    OneWord(other, c);
  }

  lemma WordsApart(other: Class, x: string, y: string)
    ensures Words(other, x + (" " + y)) == Words(other, x) + Words(other, y)
  {
    WordsAtSpace(other, x, y, "");
  }

  lemma CleanedOne(c: char)
    requires IsCJK(c)
    ensures Cleaned([c], true) == [' ', c, ' '] && c != ' '
  {
    assert [c][..0] == "" && Cleaned("", true) == "";
    assert !Dropped(c) && !IsSpace(c);
  }

  lemma OneWord(other: Class, c: char)
    requires c != ' '
    ensures Words(other, [c]) == [[c]]
  {
    assert [c][1..] == "" && "" + [c] == [c];
    assert WordsFrom(other, "", [c]) == [[c]] && WordsFrom(other, "", "") == [];
    assert [] + [[c]] + [] == [[c]];
  }

  // ---- pieces -----------------------------------------------------------

  type Vocab = map<string, int>

  function Piece(prefix: string, word: string, start: nat, end: nat): string
    requires start <= end <= |word|
  {
    if start > 0 then prefix + word[start..end] else word[start..end]
  }

  /** The longest match from `start` that ends at or before `end`; `start` if none. */
  function MatchEnd(v: Vocab, prefix: string, word: string, start: nat, end: nat): (r: nat)
    requires start <= end <= |word|
    ensures start <= r <= end
    ensures r > start ==> Piece(prefix, word, start, r) in v
    ensures forall e | r < e <= end :: Piece(prefix, word, start, e) !in v
    decreases end
  {
    if end == start || Piece(prefix, word, start, end) in v then end
    else MatchEnd(v, prefix, word, start, end - 1)
  }

  /** The greedy pieces of a word, or `None` where no piece matches. */
  function Pieces(v: Vocab, prefix: string, word: string, start: nat): Option<seq<string>>
    requires start <= |word|
    decreases |word| - start
  {
    if start == |word| then Some([])
    else
      var end := MatchEnd(v, prefix, word, start, |word|);
      if end == start then None
      else
        match Pieces(v, prefix, word, end)
        case None => None
        case Some(rest) => Some([Piece(prefix, word, start, end)] + rest)
  }

  ghost predicate InVocab(v: Vocab, pieces: seq<string>) {
    forall p | p in pieces :: p in v
  }

  lemma {:induction false} PiecesInVocab(v: Vocab, prefix: string, word: string, start: nat)
    requires start <= |word| && Pieces(v, prefix, word, start).Some?
    ensures InVocab(v, Pieces(v, prefix, word, start).value)
    decreases |word| - start
  {
    if start < |word| {
      PiecesInVocab(v, prefix, word, MatchEnd(v, prefix, word, start, |word|));
    }
  }

  function Lookup(v: Vocab, pieces: seq<string>): seq<int> {
    seq(|pieces|, i requires 0 <= i < |pieces| => if pieces[i] in v then v[pieces[i]] else 0)
  }

  datatype Model = Model(vocab: Vocab, unk: int, prefix: string, maxWordChars: nat)

  /** Too long a word, or one the greedy match gets stuck in. */
  predicate Unknown(m: Model, word: string) {
    |word| > m.maxWordChars || Pieces(m.vocab, m.prefix, word, 0).None?
  }

  function WordIds(m: Model, word: string): seq<int> {
    if Unknown(m, word) then [m.unk] else Lookup(m.vocab, Pieces(m.vocab, m.prefix, word, 0).value)
  }

  function Ids(m: Model, words: seq<string>): seq<int> {
    if words == [] then [] else WordIds(m, words[0]) + Ids(m, words[1..])
  }

  /** Encode, from the words on. */
  method EncodeWords(m: Model, words: seq<string>) returns (ids: seq<int>)
    ensures ids == Ids(m, words)
  {
    hide WordIds;
    ids := [];
    for k := 0 to |words|
      invariant Ids(m, words) == ids + Ids(m, words[k..])
    {
      assert words[k..][1..] == words[k + 1..] && words[k..][0] == words[k];
      var more := EncodeOne(m, words[k]);
      ids := ids + more;
    }
  }

  method EncodeOne(m: Model, word: string) returns (ids: seq<int>)
    ensures ids == WordIds(m, word)
  {
    hide Pieces, Lookup;
    if |word| > m.maxWordChars {
      return [m.unk];
    }
    var sub, bad := EncodeWord(m, word);
    ids := if bad then [m.unk] else sub;
  }

  lemma LookupStep(v: Vocab, done: seq<string>, p: string)
    requires p in v
    ensures Lookup(v, done + [p]) == Lookup(v, done) + [v[p]]
  {}

  function Continued(done: seq<string>, rest: Option<seq<string>>): Option<seq<string>> {
    if rest.Some? then Some(done + rest.value) else None
  }

  lemma ContinuedNone(r: Option<seq<string>>)
    ensures Continued([], r) == r
  {
    if r.Some? {
      assert [] + r.value == r.value;
    }
  }

  lemma ContinuedStep(v: Vocab, prefix: string, word: string, start: nat, done: seq<string>)
    requires start < |word|
    ensures var end := MatchEnd(v, prefix, word, start, |word|);
            Continued(done, Pieces(v, prefix, word, start))
            == if end == start then None
               else Continued(done + [Piece(prefix, word, start, end)], Pieces(v, prefix, word, end))
  {
    var end := MatchEnd(v, prefix, word, start, |word|);
    if end > start && Pieces(v, prefix, word, end).Some? {
      var p, rest := [Piece(prefix, word, start, end)], Pieces(v, prefix, word, end).value;
      assert done + (p + rest) == (done + p) + rest;
    }
  }

  method EncodeWord(m: Model, word: string) returns (sub: seq<int>, bad: bool)
    ensures bad <==> Pieces(m.vocab, m.prefix, word, 0).None?
    ensures !bad ==> sub == Lookup(m.vocab, Pieces(m.vocab, m.prefix, word, 0).value)
  {
    var start := 0;
    sub, bad := [], false;
    ghost var done: seq<string> := [];
    ContinuedNone(Pieces(m.vocab, m.prefix, word, 0));
    while start < |word|
      invariant 0 <= start <= |word| && sub == Lookup(m.vocab, done)
      invariant Pieces(m.vocab, m.prefix, word, 0) == Continued(done, Pieces(m.vocab, m.prefix, word, start))
    {
      ContinuedStep(m.vocab, m.prefix, word, start, done);
      var end, found := |word|, None;
      while end > start
        invariant start <= end <= |word| && found.None?
        invariant MatchEnd(m.vocab, m.prefix, word, start, |word|) == MatchEnd(m.vocab, m.prefix, word, start, end)
      {
        var piece := word[start..end];
        if start > 0 {
          piece := m.prefix + piece;
        }
        if piece in m.vocab {
          found := Some(m.vocab[piece]);
          break;
        }
        end := end - 1;
      }
      if found.None? {
        bad := true;
        return;
      }
      LookupStep(m.vocab, done, Piece(m.prefix, word, start, end));
      sub := sub + [found.value];
      done := done + [Piece(m.prefix, word, start, end)];
      start := end;
    }
  }

  // ---- which pieces a word has ------------------------------------------

  /** The word is cut at these positions, and each piece is in the vocabulary while no
      longer one from the same position is. */
  ghost predicate Greedy(v: Vocab, prefix: string, word: string, cuts: seq<nat>) {
    && |cuts| >= 1 && cuts[|cuts| - 1] == |word|
    && (forall k | 0 <= k < |cuts| :: cuts[k] <= |word|)
    && (forall k | 0 <= k < |cuts| - 1 :: LongestAt(v, prefix, word, cuts[k], cuts[k + 1]))
  }

  ghost predicate LongestAt(v: Vocab, prefix: string, word: string, start: nat, end: nat)
    requires start <= |word| && end <= |word|
  {
    && start < end && PieceAt(prefix, word, start, end) in v
    && forall e | end < e <= |word| :: PieceAt(prefix, word, start, e) !in v
  }

  /** A piece that does not begin the word carries the prefix. */
  function PieceAt(prefix: string, word: string, start: nat, end: nat): string
    requires start <= |word| && end <= |word|
  {
    if end < start then "" else if start == 0 then word[..end] else prefix + word[start..end]
  }

  /** The ids of the pieces between the cuts. */
  ghost function IdsAt(v: Vocab, prefix: string, word: string, cuts: seq<nat>): seq<int>
    requires Greedy(v, prefix, word, cuts)
    decreases |cuts|
  {
    if |cuts| == 1 then []
    else
      GreedyRest(v, prefix, word, cuts);
      [v[PieceAt(prefix, word, cuts[0], cuts[1])]] + IdsAt(v, prefix, word, cuts[1..])
  }

  lemma GreedyRest(v: Vocab, prefix: string, word: string, cuts: seq<nat>)
    requires Greedy(v, prefix, word, cuts) && |cuts| > 1
    ensures Greedy(v, prefix, word, cuts[1..]) && LongestAt(v, prefix, word, cuts[0], cuts[1])
  {
    hide LongestAt;
    forall k | 0 <= k < |cuts[1..]| - 1 ensures LongestAt(v, prefix, word, cuts[1..][k], cuts[1..][k + 1]) {
      assert LongestAt(v, prefix, word, cuts[k + 1], cuts[k + 2]);
    }
  }

  lemma PieceIs(prefix: string, word: string, start: nat, end: nat)
    requires start <= end <= |word|
    ensures Piece(prefix, word, start, end) == PieceAt(prefix, word, start, end)
  {}

  lemma LongestIsMatch(v: Vocab, prefix: string, word: string, start: nat, end: nat)
    requires start < |word| && end <= |word|
    ensures LongestAt(v, prefix, word, start, end) <==> start < end && end == MatchEnd(v, prefix, word, start, |word|)
  {
    forall e | start <= e <= |word| ensures Piece(prefix, word, start, e) == PieceAt(prefix, word, start, e) {
      PieceIs(prefix, word, start, e);
    }
  }

  lemma LookupFirst(v: Vocab, p: string, rest: seq<string>)
    requires p in v
    ensures Lookup(v, [p] + rest) == [v[p]] + Lookup(v, rest)
  {}

  /** Greedy cuts are what the matcher finds. */
  lemma {:induction false} CutsAreFound(v: Vocab, prefix: string, word: string, cuts: seq<nat>)
    requires Greedy(v, prefix, word, cuts)
    ensures var p := Pieces(v, prefix, word, cuts[0]); p.Some? && Lookup(v, p.value) == IdsAt(v, prefix, word, cuts)
    decreases |cuts|
  {
    if |cuts| > 1 {
      var start, end := cuts[0], cuts[1];
      GreedyRest(v, prefix, word, cuts);
      LongestIsMatch(v, prefix, word, start, end);
      CutsAreFound(v, prefix, word, cuts[1..]);
      PieceIs(prefix, word, start, end);
      hide Lookup, MatchEnd;
      LookupFirst(v, Piece(prefix, word, start, end), Pieces(v, prefix, word, end).value);
    } else {
      assert Lookup(v, []) == [];
    }
  }

  lemma {:induction false} FoundAreCuts(v: Vocab, prefix: string, word: string, start: nat) returns (cuts: seq<nat>)
    requires start <= |word| && Pieces(v, prefix, word, start).Some?
    ensures Greedy(v, prefix, word, cuts) && cuts[0] == start
    decreases |word| - start
  {
    if start == |word| {
      cuts := [start];
    } else {
      var end := MatchEnd(v, prefix, word, start, |word|);
      LongestIsMatch(v, prefix, word, start, end);
      var more := FoundAreCuts(v, prefix, word, end);
      cuts := [start] + more;
      forall k | 0 <= k < |cuts| - 1 ensures LongestAt(v, prefix, word, cuts[k], cuts[k + 1]) {
        if k > 0 {
          assert LongestAt(v, prefix, word, more[k - 1], more[k]);
        }
      }
    }
  }

  /** A word that is not too long and can be cut greedily has the ids of its pieces;
      any other is one unknown. */
  lemma WordIdsExactly(m: Model, word: string)
    ensures forall cuts | Greedy(m.vocab, m.prefix, word, cuts) && cuts[0] == 0 && |word| <= m.maxWordChars ::
              WordIds(m, word) == IdsAt(m.vocab, m.prefix, word, cuts)
    ensures |word| > m.maxWordChars || !(exists cuts :: Greedy(m.vocab, m.prefix, word, cuts) && cuts[0] == 0) ==>
              WordIds(m, word) == [m.unk]
  {
    hide LongestAt, Pieces, Lookup;
    forall cuts | Greedy(m.vocab, m.prefix, word, cuts) && cuts[0] == 0
      ensures Pieces(m.vocab, m.prefix, word, 0).Some?
      ensures Lookup(m.vocab, Pieces(m.vocab, m.prefix, word, 0).value) == IdsAt(m.vocab, m.prefix, word, cuts)
    {
      CutsAreFound(m.vocab, m.prefix, word, cuts);
    }
    if Pieces(m.vocab, m.prefix, word, 0).Some? {
      var cuts := FoundAreCuts(m.vocab, m.prefix, word, 0);
    }
  }

  // ---- reading the ids back ---------------------------------------------

  /** Pieces regrouped into words: a prefixed piece continues the word before it. */
  function Regroup(prefix: string, pieces: seq<string>): seq<string> {
    if pieces == [] then []
    else
      var words := Regroup(prefix, pieces[..|pieces| - 1]);
      var p := pieces[|pieces| - 1];
      if HasPrefix(p, prefix) && words != [] then
        words[..|words| - 1] + [words[|words| - 1] + p[|prefix|..]]
      else words + [p]
  }

  /** The prefix starts with a punctuation mark, as "##" does, and has two marks or
      more, so no word can start with it. */
  predicate GoodPrefix(other: Class, prefix: string) {
    |prefix| >= 2 && IsPunct(other, prefix[0])
  }

  lemma {:induction false} RegroupWord(other: Class, v: Vocab, prefix: string, word: string, start: nat, before: seq<string>, words: seq<string>)
    requires GoodPrefix(other, prefix) && 0 < start <= |word| && Pieces(v, prefix, word, start).Some?
    requires Regroup(prefix, before) == words + [word[..start]]
    ensures Regroup(prefix, before + Pieces(v, prefix, word, start).value) == words + [word]
    decreases |word| - start
  {
    if start == |word| {
      assert before + [] == before && word[..start] == word;
    } else {
      var end := MatchEnd(v, prefix, word, start, |word|);
      var p, rest := Piece(prefix, word, start, end), Pieces(v, prefix, word, end).value;
      var more := before + [p];
      assert more[..|more| - 1] == before;
      assert p[..|prefix|] == prefix && p[|prefix|..] == word[start..end];
      assert word[..start] + word[start..end] == word[..end];
      assert (words + [word[..start]])[..|words|] == words;
      RegroupWord(other, v, prefix, word, end, more, words);
      assert more + rest == before + ([p] + rest);
    }
  }

  /** The first piece of a word never looks like a continuation. */
  lemma FirstPieceStartsWord(other: Class, v: Vocab, prefix: string, word: string, before: seq<string>)
    requires GoodPrefix(other, prefix) && IsToken(other, word) && Pieces(v, prefix, word, 0).Some?
    ensures Regroup(prefix, before + Pieces(v, prefix, word, 0).value) == Regroup(prefix, before) + [word]
  {
    var end := MatchEnd(v, prefix, word, 0, |word|);
    var p, rest := word[0..end], Pieces(v, prefix, word, end).value;
    assert p[0] == word[0];
    NotPrefix(p, prefix);
    var more := before + [p];
    assert more[..|more| - 1] == before;
    assert word[..end] == p;
    RegroupWord(other, v, prefix, word, end, more, Regroup(prefix, before));
    assert more + rest == before + ([p] + rest);
  }

  function AllPieces(m: Model, words: seq<string>): seq<string> {
    if words == [] then []
    else
      var ps := Pieces(m.vocab, m.prefix, words[0], 0);
      (if ps.Some? then ps.value else []) + AllPieces(m, words[1..])
  }

  lemma {:induction false} RegroupAll(other: Class, m: Model, words: seq<string>, before: seq<string>)
    requires GoodPrefix(other, m.prefix)
    requires forall w | w in words :: IsToken(other, w) && !Unknown(m, w)
    ensures Regroup(m.prefix, before + AllPieces(m, words)) == Regroup(m.prefix, before) + words
  {
    if words == [] {
      assert before + [] == before;
    } else {
      assert words[0] in words && !Unknown(m, words[0]);
      var ps := Pieces(m.vocab, m.prefix, words[0], 0).value;
      FirstPieceStartsWord(other, m.vocab, m.prefix, words[0], before);
      RegroupAll(other, m, words[1..], before + ps);
      assert AllPieces(m, words) == ps + AllPieces(m, words[1..]);
      assert words == [words[0]] + words[1..];
      hide *;
      Assoc(before, ps, AllPieces(m, words[1..]));
      Assoc(Regroup(m.prefix, before), [words[0]], words[1..]);
    }
  }

  lemma Assoc(x: seq<string>, y: seq<string>, z: seq<string>)
    ensures x + (y + z) == (x + y) + z
  {}

  lemma {:induction false} IdsArePieces(m: Model, words: seq<string>)
    requires forall w | w in words :: !Unknown(m, w)
    ensures Ids(m, words) == Lookup(m.vocab, AllPieces(m, words)) && InVocab(m.vocab, AllPieces(m, words))
  {
    if words != [] {
      assert words[0] in words;
      IdsArePieces(m, words[1..]);
      PiecesInVocab(m.vocab, m.prefix, words[0], 0);
    }
  }

  predicate Injective(v: Vocab) {
    forall p, q | p in v && q in v && v[p] == v[q] :: p == q
  }

  /** Ids determine pieces. */
  lemma LookupInjective(v: Vocab, a: seq<string>, b: seq<string>)
    requires Injective(v) && InVocab(v, a) && InVocab(v, b) && Lookup(v, a) == Lookup(v, b)
    ensures a == b
  {
    assert |a| == |Lookup(v, a)| && |b| == |Lookup(v, b)|;
    forall i | 0 <= i < |a| ensures a[i] == b[i] {
      assert a[i] in a && b[i] in b && Lookup(v, a)[i] == Lookup(v, b)[i];
    }
  }

  /** The round trip: whatever vocabulary pieces have the ids that Encode gives,
      regrouping them gives back the words, and the words hold the normalised text
      without its spaces. */
  lemma EncodeRoundTrip(other: Class, m: Model, s: string, pieces: seq<string>)
    requires GoodPrefix(other, m.prefix) && Injective(m.vocab)
    requires forall w | w in Words(other, s) :: !Unknown(m, w)
    requires InVocab(m.vocab, pieces) && Lookup(m.vocab, pieces) == Ids(m, Words(other, s))
    ensures Regroup(m.prefix, pieces) == Words(other, s)
    ensures Concat(Regroup(m.prefix, pieces)) == WithoutSpaces(s)
  {
    var words := Words(other, s);
    IdsArePieces(m, words);
    LookupInjective(m.vocab, pieces, AllPieces(m, words));
    WordsAreTokens(other, s, "");
    RegroupAll(other, m, words, []);
    assert [] + AllPieces(m, words) == AllPieces(m, words) && [] + words == words;
    WordsHoldText(other, s, "");
  }

  /** So two texts with the same ids have the same words. */
  lemma IdsDetermineWords(other: Class, m: Model, s: string, t: string)
    requires GoodPrefix(other, m.prefix) && Injective(m.vocab)
    requires forall w | w in Words(other, s) :: !Unknown(m, w)
    requires forall w | w in Words(other, t) :: !Unknown(m, w)
    requires Ids(m, Words(other, s)) == Ids(m, Words(other, t))
    ensures Words(other, s) == Words(other, t)
  {
    IdsArePieces(m, Words(other, s));
    EncodeRoundTrip(other, m, s, AllPieces(m, Words(other, s)));
    EncodeRoundTrip(other, m, t, AllPieces(m, Words(other, s)));
  }

  lemma {:induction false} PiecesPerChar(v: Vocab, prefix: string, word: string, start: nat)
    requires start <= |word| && Pieces(v, prefix, word, start).Some?
    ensures |Pieces(v, prefix, word, start).value| <= |word| - start
    decreases |word| - start
  {
    if start < |word| {
      PiecesPerChar(v, prefix, word, MatchEnd(v, prefix, word, start, |word|));
    }
  }

  /** At most one id per visible character. */
  lemma {:induction false} IdsPerChar(other: Class, m: Model, words: seq<string>)
    requires forall w | w in words :: IsToken(other, w)
    ensures |Ids(m, words)| <= |Concat(words)|
  {
    if words != [] {
      assert words[0] in words;
      IdsPerChar(other, m, words[1..]);
      if !Unknown(m, words[0]) {
        PiecesPerChar(m.vocab, m.prefix, words[0], 0);
      }
    }
  }
}
