/** Ledger events as A2A artifacts and history: the decimal printer for sequence
    numbers, the artifact ids built with it, and the task view. */
module A2AMap {
  import opened Decimals

  // ---- itoa -------------------------------------------------------------

  const MIN_INT64: int := -0x8000_0000_0000_0000
  const MAX_INT64: int := 0x7FFF_FFFF_FFFF_FFFF

  predicate Int64(n: int) {
    MIN_INT64 <= n <= MAX_INT64
  }

  /** Negation in 64 bits: the least integer is its own negation. */
  function Negate(n: int): int {
    if n == MIN_INT64 then n else -n
  }

  function Decimal(n: int): string
    requires Int64(n)
  {
    if n == 0 then "0"
    else if n == MIN_INT64 then "-"
    else if n < 0 then "-" + Digits(-n)
    else Digits(n)
  }

  lemma NineteenDigits()
    ensures MAX_INT64 < Pow10(19)
  {
    assert Pow10(5) == 100000;
    assert Pow10(10) == 10000000000;
    assert Pow10(15) == 1000000000000000;
  }

  lemma MoreDigits(m: nat)
    requires m > 0
    ensures Digits(m) == Digits(m / 10) + [Digit(m % 10)] && |Digits(m)| == |Digits(m / 10)| + 1
  {}

  lemma NoDigits()
    ensures Digits(0) == ""
  {}

  lemma SameDigits(x: string, c: char, tail: string)
    ensures x + [c] + tail == x + ([c] + tail)
  {}

  /** The loop of itoa: digits are written from the end of the buffer, from `i` on. */
  method WriteDigits(b: array<char>, n: int) returns (i: nat)
    requires b.Length == 20 && n <= MAX_INT64
    modifies b
    ensures i <= 20 && b[i..] == (if n > 0 then Digits(n) else "")
    ensures i > 0
  {
    hide Digits, Pow10;
    var m := n;
    i := 20;
    if m > 0 {
      PlainReads(m);
    }
    NoDigits();
    while m > 0
      invariant i <= 20
      invariant n > 0 ==> m >= 0 && Digits(m) + b[i..] == Digits(n) && |Digits(n)| <= 19
      invariant n <= 0 ==> m == n && i == 20
      decreases m
    {
      ghost var tail := b[i..];
      MoreDigits(m);
      assert i > 0;
      i := i - 1;
      b[i] := '0' + (m % 10) as char;
      assert b[i..] == [Digit(m % 10)] + tail;
      SameDigits(Digits(m / 10), Digit(m % 10), tail);
      m := m / 10;
    }
  }

  /** itoa. */
  method Itoa(n: int) returns (r: string)
    requires Int64(n)
    ensures r == Decimal(n)
  {
    if n == 0 {
      return "0";
    }
    var neg, m := n < 0, n;
    if neg {
      m := Negate(m);
    }
    hide Digits;
    var b := new char[20];
    var i := WriteDigits(b, m);
    if neg {
      i := i - 1;
      b[i] := '-';
      assert b[i..] == ['-'] + b[i + 1..];
    }
    return b[i..];
  }

  /** What a reader of a decimal numeral makes of it. */
  function Read(s: string): int {
    if s != "" && s[0] == '-' then -Value(s[1..]) else Value(s)
  }

  /** The numeral reads back as the number, except the least one, which loses its digits. */
  lemma DecimalReadsBack(n: int)
    requires Int64(n)
    ensures Read(Decimal(n)) == n <==> n != MIN_INT64
    ensures |Decimal(n)| <= 20
  {
    hide Value, Digits, Read;
    if n > 0 {
      PlainReads(n);
      UnsignedReads(Digits(n));
    } else if MIN_INT64 < n < 0 {
      PlainReads(-n);
      NegativeReads(Digits(-n));
    } else if n == 0 {
      ZeroReads();
    } else {
      LeastReads();
    }
  }

  lemma NegativeReads(digits: string)
    ensures Read("-" + digits) == -Value(digits)
  {
    assert ("-" + digits)[1..] == digits;
  }

  lemma UnsignedReads(s: string)
    requires s != "" && s[0] != '-'
    ensures Read(s) == Value(s)
  {}

  lemma LeastReads()
    ensures Read("-") == 0
  {
    assert "-"[1..] == "";
  }

  lemma ZeroReads()
    ensures Read("0") == 0
  {
    assert "0"[0] != '-' && "0"[..0] == "";
  }

  lemma PlainReads(n: nat)
    requires 0 < n <= MAX_INT64
    ensures Digits(n) != "" && Digits(n)[0] != '-' && Value(Digits(n)) == n && |Digits(n)| <= 19
  {
    DigitsRead(n);
    assert Digits(n)[0] in Digits(n);
    NineteenDigits();
    DigitsFit(n, 19);
  }

  /** Numerals are injective on all of int64. */
  lemma DecimalInjective(m: int, n: int)
    requires Int64(m) && Int64(n) && Decimal(m) == Decimal(n)
    ensures m == n
  {
    DecimalReadsBack(m);
    DecimalReadsBack(n);
  }

  // ---- artifacts and history --------------------------------------------

  /** A ledger event: a message that decodes, a finding with its unwrapped body, or
      anything else. */
  datatype Event =
    | Message(number: int, id: string, decodes: bool)
    | Finding(number: int, body: string)
    | Other(number: int)

  predicate EventsWithin(events: seq<Event>) {
    forall e | e in events :: Int64(e.number)
  }

  const FINDING_PREFIX := "finding-"

  function ArtifactID(e: Event): string
    requires Int64(e.number)
  {
    FINDING_PREFIX + Decimal(e.number)
  }

  predicate IsArtifact(e: Event) {
    e.Finding? && e.body != ""
  }

  function Artifacts(events: seq<Event>): seq<string>
    requires EventsWithin(events)
  {
    if events == [] then []
    else
      var last := events[|events| - 1];
      Artifacts(events[..|events| - 1]) + if IsArtifact(last) then [ArtifactID(last)] else []
  }

  function Messages(events: seq<Event>): seq<string> {
    if events == [] then []
    else
      var last := events[|events| - 1];
      Messages(events[..|events| - 1]) + if last.Message? && last.decodes && last.id != "" then [last.id] else []
  }

  /** TaskFromLedger: the artifacts, and the last `limit` messages (all if not positive). */
  method TaskFromLedger(events: seq<Event>, limit: int) returns (artifacts: seq<string>, history: seq<string>)
    requires EventsWithin(events)
    ensures artifacts == Artifacts(events)
    ensures history == var all := Messages(events); if 0 < limit < |all| then all[|all| - limit..] else all
  {
    artifacts, history := [], [];
    for k := 0 to |events|
      invariant artifacts == Artifacts(events[..k]) && history == Messages(events[..k])
    {
      assert events[..k + 1][..k] == events[..k];
      match events[k] {
        case Message(_, id, decodes) =>
          if decodes && id != "" {
            history := history + [id];
          }
        case Finding(_, body) =>
          if body != "" {
            var n := Itoa(events[k].number);
            artifacts := artifacts + [FINDING_PREFIX + n];
          }
        case Other(_) =>
      }
    }
    assert events[..|events|] == events;
    if limit > 0 && |history| > limit {
      history := history[|history| - limit..];
    }
  }

  /** Sequence numbers only grow in a task's log. */
  predicate Increasing(events: seq<Event>) {
    forall i, j | 0 <= i < j < |events| :: events[i].number < events[j].number
  }

  predicate Distinct(xs: seq<string>) {
    forall i, j | 0 <= i < j < |xs| :: xs[i] != xs[j]
  }

  /** Every artifact is the id of one finding. */
  lemma {:induction false} ArtifactsOf(events: seq<Event>)
    requires EventsWithin(events)
    ensures forall a :: a in Artifacts(events) <==> exists e :: e in events && IsArtifact(e) && ArtifactID(e) == a
  {
    if events != [] {
      var init, last := events[..|events| - 1], events[|events| - 1];
      ArtifactsOf(init);
      assert forall e :: e in events <==> e in init || e == last;
    }
  }

  lemma ArtifactIDInjective(d: Event, e: Event)
    requires Int64(d.number) && Int64(e.number) && ArtifactID(d) == ArtifactID(e)
    ensures d.number == e.number
  {
    var n := |FINDING_PREFIX|;
    assert ArtifactID(d)[n..] == Decimal(d.number) && ArtifactID(e)[n..] == Decimal(e.number);
    DecimalInjective(d.number, e.number);
  }

  /** No artifact id occurs twice in a task view. */
  lemma {:induction false} ArtifactsDistinct(events: seq<Event>)
    requires EventsWithin(events) && Increasing(events)
    ensures Distinct(Artifacts(events))
  {
    if events != [] {
      var init, last := events[..|events| - 1], events[|events| - 1];
      ArtifactsDistinct(init);
      ArtifactsOf(init);
      if IsArtifact(last) && ArtifactID(last) in Artifacts(init) {
        var e :| e in init && IsArtifact(e) && ArtifactID(e) == ArtifactID(last);
        ArtifactIDInjective(e, last);
      }
    }
  }

  lemma {:induction false} ArtifactsGrow(events: seq<Event>, more: seq<Event>)
    requires EventsWithin(events + more)
    ensures EventsWithin(events) && Artifacts(events) <= Artifacts(events + more)
  {
    assert forall e | e in events :: e in events + more;
    if more == [] {
      assert events + more == events;
    } else {
      var all := events + more;
      assert all[..|all| - 1] == events + more[..|more| - 1];
      assert forall e | e in events + more[..|more| - 1] :: e in all;
      ArtifactsGrow(events, more[..|more| - 1]);
    }
  }
}
