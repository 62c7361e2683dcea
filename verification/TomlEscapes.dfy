/** What the text of a basic string means, said as a sequence of marks: plain
    characters, one-letter escapes, and code units in hexadecimal (section 7 of
    RFC 8259). */
module TomlEscapes {
  import opened Text
  import opened Decimals
  import opened TomlString

  datatype Mark = Plain(c: char) | Short(e: char) | Unit(h: string)
  {
    function Text(): string {
      if Plain? then [c] else if Short? then ['\\', e] else ['\\', 'u'] + h
    }

    predicate Good() {
      && (Plain? ==> c >= ' ' && c != '"' && c != '\\')
      && (Short? ==> e in MEANS)
      && (Unit? ==> |h| == 4 && forall i | 0 <= i < 4 :: HexValue(h[i]).Some?)
    }
  }

  /** The one-letter escapes. */
  const MEANS: map<char, char> := map[
    '"' := '"', '\\' := '\\', '/' := '/', 'b' := '\U{0008}', 'f' := '\U{000C}', 'n' := '\U{000A}', 'r' := '\U{000D}', 't' := '\U{0009}']

  function TextOf(marks: seq<Mark>): string {
    if marks == [] then "" else marks[0].Text() + TextOf(marks[1..])
  }

  function UnitOf(m: Mark): int {
    if m.Unit? then HexNumber(m.h) else -1
  }

  /** The first of two units that make one character beyond the first plane. */
  predicate Pairs(marks: seq<Mark>) {
    |marks| >= 2 && 0xD800 <= UnitOf(marks[0]) <= 0xDBFF && 0xDC00 <= UnitOf(marks[1]) <= 0xDFFF
  }

  /** What the marks mean. A unit of a pair that stands alone means U+FFFD. */
  function MeaningOf(marks: seq<Mark>): string
    requires AllGood(marks)
  {
    if marks == [] then ""
    else if Pairs(marks) then
      var n := 0x1_0000 + (UnitOf(marks[0]) - 0xD800) * 0x400 + (UnitOf(marks[1]) - 0xDC00);
      [n as char] + MeaningOf(marks[2..])
    else
      assert marks[0] in marks && marks[0].Good();
      [match marks[0]
       case Plain(c) => c
       case Short(e) => MEANS[e]
       case Unit(h) =>
         FourDigits(h);
         if 0xD800 <= HexNumber(h) <= 0xDFFF then '\U{FFFD}' else HexNumber(h) as char]
      + MeaningOf(marks[1..])
  }

  lemma FourDigits(h: string)
    requires |h| == 4 && forall i | 0 <= i < 4 :: HexValue(h[i]).Some?
    ensures HexNumber(h) == 0x1000 * HexValue(h[0]).value + 0x100 * HexValue(h[1]).value + 16 * HexValue(h[2]).value + HexValue(h[3]).value
    ensures HexNumber(h) < 0x1_0000
  {
    var c := h[..3];
    var b := c[..2];
    var a := b[..1];
    LastDigit(h);
    LastDigit(c);
    LastDigit(b);
    LastDigit(a);
    NoDigits(a[..0]);
    hide HexNumber, HexValue;
  }

  lemma LastDigit(s: string)
    requires s != "" && HexValue(s[|s| - 1]).Some?
    ensures HexNumber(s) == 16 * HexNumber(s[..|s| - 1]) + HexValue(s[|s| - 1]).value
    ensures HexValue(s[|s| - 1]).value < 16
  {}

  lemma NoDigits(s: string)
    ensures s == "" ==> HexNumber(s) == 0
  {}

  lemma ShortExactly(e: char)
    ensures ShortEscape(e) == if e in MEANS then Some(MEANS[e]) else None
  {}

  lemma UnitAt(h: string, rest: string)
    requires |h| == 4
    ensures var s := ['\\', 'u'] + h + rest;
            CodeUnit(s) == if forall i | 0 <= i < 4 :: HexValue(h[i]).Some? then Some(HexNumber(h)) else None
    ensures (['\\', 'u'] + h + rest)[6..] == rest
  {
    var s := ['\\', 'u'] + h + rest;
    assert s[2] == h[0] && s[3] == h[1] && s[4] == h[2] && s[5] == h[3];
    if forall i | 0 <= i < 4 :: HexValue(h[i]).Some? {
      FourDigits(h);
    }
  }

  lemma UnescapeUnit(s: string, u: nat)
    requires CodeUnit(s) == Some(u)
    ensures Unescape(s) ==
            if (HighSurrogate(u) || LowSurrogate(u)) then
              var low := CodeUnit(s[6..]);
              if HighSurrogate(u) && low.Some? && LowSurrogate(low.value) then
                Prepend((0x1_0000 + (u - 0xD800) * 0x400 + (low.value - 0xDC00)) as char, Unescape(s[12..]))
              else Prepend('\U{FFFD}', Unescape(s[6..]))
            else Prepend(u as char, Unescape(s[6..]))
  {
    ShortExactly('u');
    assert !ShortEscape('u').Some?;
    hide CodeUnit;
    assert s[0] == BACKSLASH && s[1] == 'u' by { UnitShape(s); }
  }

  lemma UnitShape(s: string)
    requires CodeUnit(s).Some?
    ensures |s| >= 6 && s[0] == BACKSLASH && s[1] == 'u'
    ensures var h := s[2..6];
            (forall i | 0 <= i < 4 :: HexValue(h[i]).Some?) && CodeUnit(s).value == HexNumber(h) && s == ['\\', 'u'] + h + s[6..]
  {
    FourDigits(s[2..6]);
  }

  ghost predicate AllGood(marks: seq<Mark>) {
    forall m | m in marks :: m.Good()
  }

  /** What is written is read. */
  lemma {:induction false} MarksRead(marks: seq<Mark>)
    requires AllGood(marks)
    ensures Unescape(TextOf(marks)) == Some(MeaningOf(marks))
    decreases |marks|
  {
    if marks != [] {
      MarksRead(marks[1..]);
      if |marks| >= 2 {
        MarksRead(marks[2..]);
      }
      assert marks[0] in marks && marks[0].Good();
      hide Unescape, MeaningOf, TextOf;
      if marks[0].Unit? {
        UnitRead(marks);
      } else {
        MarkRead(marks);
      }
    }
  }

  lemma MarkRead(marks: seq<Mark>)
    requires AllGood(marks) && marks != [] && !marks[0].Unit?
    requires Unescape(TextOf(marks[1..])) == Some(MeaningOf(marks[1..]))
    ensures Unescape(TextOf(marks)) == Some(MeaningOf(marks))
  {
    var m, rest := marks[0], TextOf(marks[1..]);
    assert m in marks && m.Good();
    var s := TextOf(marks);
    assert s == m.Text() + rest;
    if m.Plain? {
      assert s[1..] == rest;
    } else {
      ShortExactly(m.e);
      assert s[0] == BACKSLASH && s[1] == m.e && s[2..] == rest;
    }
  }

  lemma UnitRead(marks: seq<Mark>)
    requires AllGood(marks) && marks != [] && marks[0].Unit?
    requires Unescape(TextOf(marks[1..])) == Some(MeaningOf(marks[1..]))
    requires |marks| >= 2 ==> Unescape(TextOf(marks[2..])) == Some(MeaningOf(marks[2..]))
    ensures Unescape(TextOf(marks)) == Some(MeaningOf(marks))
  {
    hide CodeUnit, HexNumber, Unescape, MeaningOf, TextOf, AllGood, Mark.Good, Mark.Text;
    var s, rest := TextOf(marks), TextOf(marks[1..]);
    GoodRest(marks);
    NextUnit(marks);
    NextUnit(marks[1..]);
    UnescapeUnit(s, HexNumber(marks[0].h));
    MeaningStep(marks);
    if Pairs(marks) {
      UnitShape(s);
      assert s[12..] == rest[6..];
      assert marks[1..][1..] == marks[2..];
    }
  }

  lemma GoodRest(marks: seq<Mark>)
    requires AllGood(marks) && marks != []
    ensures AllGood(marks[1..])
  {}

  lemma MeaningStep(marks: seq<Mark>)
    requires AllGood(marks) && marks != [] && marks[0].Unit?
    ensures HexNumber(marks[0].h) < 0x1_0000
    ensures MeaningOf(marks) ==
            if Pairs(marks) then
              [(0x1_0000 + (UnitOf(marks[0]) - 0xD800) * 0x400 + (UnitOf(marks[1]) - 0xDC00)) as char] + MeaningOf(marks[2..])
            else [if 0xD800 <= HexNumber(marks[0].h) <= 0xDFFF then '\U{FFFD}' else HexNumber(marks[0].h) as char] + MeaningOf(marks[1..])
  {
    assert marks[0] in marks && marks[0].Good();
    FourDigits(marks[0].h);
    hide HexNumber;
  }

  /** Whether a code unit stands at the front of a text depends on its first mark. */
  lemma NextUnit(marks: seq<Mark>)
    requires AllGood(marks)
    ensures CodeUnit(TextOf(marks)) == if marks != [] && marks[0].Unit? then Some(HexNumber(marks[0].h)) else None
    ensures marks != [] && marks[0].Unit? ==> TextOf(marks)[6..] == TextOf(marks[1..])
  {
    if marks != [] {
      assert marks[0] in marks && marks[0].Good();
      if marks[0].Unit? {
        UnitAt(marks[0].h, TextOf(marks[1..]));
      } else if marks[0].Short? {
        assert TextOf(marks)[1] == marks[0].e != 'u';
      }
    }
  }

  /** The marks after a code unit can be read if what it stands in can. */
  lemma RestReads(s: string, u: nat)
    requires CodeUnit(s) == Some(u) && Unescape(s).Some?
    ensures Unescape(s[6..]).Some?
  {
    UnescapeUnit(s, u);
    var low := CodeUnit(s[6..]);
    hide Unescape, CodeUnit;
    if low.Some? {
      UnescapeUnit(s[6..], low.value);
      assert s[6..][6..] == s[12..];
    }
  }

  lemma UnescapeStep(s: string)
    requires Unescape(s).Some? && s != ""
    ensures if s[0] != BACKSLASH then s[0] >= ' ' && s[0] != QUOTE && Unescape(s[1..]).Some?
            else if |s| >= 2 && ShortEscape(s[1]).Some? then Unescape(s[2..]).Some?
            else CodeUnit(s).Some?
  {
    hide CodeUnit, ShortEscape;
  }

  /** What is read is written. */
  lemma {:induction false} MarksFound(s: string) returns (marks: seq<Mark>)
    requires Unescape(s).Some?
    ensures AllGood(marks) && TextOf(marks) == s
    decreases |s|
  {
    if s == "" {
      marks := [];
    } else {
      UnescapeStep(s);
      var m, n := Plain(s[0]), 1;
      if s[0] == BACKSLASH {
        if |s| >= 2 && ShortEscape(s[1]).Some? {
          ShortExactly(s[1]);
          m, n := Short(s[1]), 2;
        } else {
          UnitShape(s);
          RestReads(s, CodeUnit(s).value);
          m, n := Unit(s[2..6]), 6;
        }
      }
      assert s == m.Text() + s[n..];
      var more := MarksFound(s[n..]);
      marks := [m] + more;
      assert marks[1..] == more;
    }
  }

  /** The text between the quotes of a basic string is read exactly when it is made of
      such marks, and then as what they mean. */
  lemma UnescapeExactly(s: string, v: string)
    ensures Unescape(s) == Some(v) <==> exists marks :: AllGood(marks) && TextOf(marks) == s && MeaningOf(marks) == v
  {
    hide Unescape, TextOf, MeaningOf;
    if Unescape(s) == Some(v) {
      var marks := MarksFound(s);
      MarksRead(marks);
    }
    if marks :| AllGood(marks) && TextOf(marks) == s && MeaningOf(marks) == v {
      MarksRead(marks);
    }
  }
}
