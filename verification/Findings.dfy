/** The structured result an agent must produce: getting it out of model output, and
    holding it to the tool calls that really happened. */
module Findings {
  import opened Text

  datatype Finding = Stated(summary: string, confidence: string, evidence: seq<int>)

  datatype Problem = NoSummary | BadConfidence | NoEvidence | UnknownEvidence(number: int)

  predicate Confident(word: string) {
    word == "high" || word == "medium" || word == "low"
  }

  /** The evidence contract. */
  predicate Acceptable(f: Finding, calls: set<int>) {
    && TrimSpace(f.summary) != "" && Confident(f.confidence)
    && f.evidence != [] && forall e | e in f.evidence :: e in calls
  }

  /** validateFinding: the first of the four rules that fails, if any does. */
  method ValidateFinding(f: Finding, calls: set<int>) returns (problem: Option<Problem>)
    ensures problem.None? <==> Acceptable(f, calls)
    ensures problem == Some(NoSummary) <==> TrimSpace(f.summary) == ""
    ensures problem == Some(BadConfidence) <==>
              TrimSpace(f.summary) != "" && f.confidence != "high" && f.confidence != "medium" && f.confidence != "low"
    ensures problem == Some(NoEvidence) <==> TrimSpace(f.summary) != "" && Confident(f.confidence) && f.evidence == []
    ensures problem.Some? && problem.value.UnknownEvidence? ==>
              exists k :: 0 <= k < |f.evidence| && f.evidence[k] == problem.value.number && f.evidence[k] !in calls
                && forall j | 0 <= j < k :: f.evidence[j] in calls
  {
    if TrimSpace(f.summary) == "" {
      return Some(NoSummary);
    }
    if !Confident(f.confidence) {
      return Some(BadConfidence);
    }
    if |f.evidence| == 0 {
      return Some(NoEvidence);
    }
    for k := 0 to |f.evidence|
      invariant forall j | 0 <= j < k :: f.evidence[j] in calls
    {
      if f.evidence[k] !in calls {
        return Some(UnknownEvidence(f.evidence[k]));
      }
    }
    problem := None;
  }

  // ---- finding the object -----------------------------------------------

  const FENCE := "```"
  const LANGUAGE := "json"

  /** strings.LastIndex for one character. */
  function LastIndexOf(s: string, c: char): (r: int)
    ensures -1 <= r < |s|
    ensures r >= 0 ==> s[r] == c && forall k | r < k < |s| :: s[k] != c
    ensures r < 0 ==> c !in s
  {
    if s == "" then -1
    else if s[|s| - 1] == c then |s| - 1
    else LastIndexOf(s[..|s| - 1], c)
  }

  /** From the first brace to the last. */
  function Braced(s: string): Option<string> {
    var start, end := IndexOf(s, "{"), LastIndexOf(s, '}');
    if start < 0 || end <= start then None else Some(s[start..end + 1])
  }

  /** The inside of the first fence, or all of a text without one. */
  function Unfenced(s: string): string {
    var i := IndexOf(s, FENCE);
    if i < 0 then s
    else
      var inside := TrimPrefix(s[i + 3..], LANGUAGE);
      var j := IndexOf(inside, FENCE);
      if j < 0 then inside else inside[..j]
  }

  function ObjectText(content: string): Option<string> {
    Braced(Unfenced(TrimSpace(content)))
  }

  function Parsed(content: string, decode: string -> Option<Finding>): Option<Finding> {
    if ObjectText(content).Some? then decode(ObjectText(content).value) else None
  }

  /** The content is a finding that the run accepts. */
  predicate Accepts(content: string, decode: string -> Option<Finding>, calls: set<int>) {
    Parsed(content, decode).Some? && Acceptable(Parsed(content, decode).value, calls)
  }

  /** parseFinding, up to the JSON decoder, which is `decode`. */
  method ParseFinding(content: string, decode: string -> Option<Finding>) returns (f: Option<Finding>)
    ensures f == Parsed(content, decode)
  {
    hide TrimSpace, TrimPrefix, Contains, IndexOf, LastIndexOf;
    var s := TrimSpace(content);
    var i := IndexOf(s, FENCE);
    if i >= 0 {
      s := s[i + 3..];
      s := TrimPrefix(s, LANGUAGE);
      var j := IndexOf(s, FENCE);
      if j >= 0 {
        s := s[..j];
      }
    }
    var start, end := IndexOf(s, "{"), LastIndexOf(s, '}');
    if start < 0 || end <= start {
      return None;
    }
    f := decode(s[start..end + 1]);
  }

  // ---- what is tolerated ------------------------------------------------

  predicate IsObject(obj: string) {
    |obj| >= 2 && obj[0] == '{' && obj[|obj| - 1] == '}'
  }

  lemma BracedBetween(a: string, obj: string, b: string)
    requires IsObject(obj) && '{' !in a && '}' !in b
    ensures Braced(a + obj + b) == Some(obj)
  {
    var s := a + obj + b;
    assert s[|a|..|a| + 1] == "{";
    assert At(s, "{", |a|);
    forall k | 0 <= k < |a| ensures !At(s, "{", k) {
      assert s[k..k + 1] == [a[k]];
    }
    assert s[|a| + |obj| - 1] == '}';
    assert forall k | |a| + |obj| <= k < |s| :: s[k] == b[k - |a| - |obj|];
    assert s[|a|..|a| + |obj|] == obj;
  }

  lemma CutAfter(l: string, f: string, tail: string)
    requires (l == "" || l[|l| - 1] == '\n') && f != "" && '\n' !in f && !Contains(l, f)
    ensures var s := l + (f + tail); IndexOf(s, f) == |l| && s[..|l|] == l && s[|l| + |f|..] == tail
  {
    assert (f + tail)[..|f|] == f;
    FirstAfter(l, f + tail, f);
  }

  lemma PrefixTrimmed(g: string, x: string)
    ensures TrimPrefix(g + x, g) == x
  {
    assert (g + x)[..|g|] == g;
  }

  /** The three cuts, on a text whose ends are already trimmed. */
  lemma UnfencedBetween(l: string, inside: string, rest: string)
    requires (l == "" || l[|l| - 1] == '\n') && !Contains(l, FENCE)
    requires inside != "" && inside[|inside| - 1] == '\n' && !Contains(inside, FENCE)
    ensures Unfenced(l + (FENCE + (LANGUAGE + (inside + (FENCE + rest))))) == inside
  {
    FenceShape("");
    hide Contains, IndexOf, TrimPrefix, HasPrefix;
    CutAfter(l, FENCE, LANGUAGE + (inside + (FENCE + rest)));
    PrefixTrimmed(LANGUAGE, inside + (FENCE + rest));
    CutAfter(inside, FENCE, rest);
  }

  lemma FenceShape(tail: string)
    ensures |FENCE| == 3 && '\n' !in FENCE && HasPrefix(FENCE + tail, FENCE)
  {
    assert (FENCE + tail)[..3] == FENCE;
  }

  lemma LineInsideHasNoFence(obj: string)
    requires !Contains(obj, FENCE)
    ensures !Contains("\n" + obj + "\n", FENCE)
  {
    FenceShape("");
    ContainsAcrossBreak(obj, "", FENCE);
    ContainsAcrossBreak("", obj + "\n", FENCE);
    assert obj + "\n" + "" == obj + "\n" && "" + "\n" + (obj + "\n") == "\n" + obj + "\n";
    assert !At("", FENCE, 0);
  }

  function FencedBlock(obj: string): string {
    FENCE + LANGUAGE + "\n" + obj + "\n" + FENCE
  }

  lemma BlockParts(obj: string, rest: string)
    ensures var m := FencedBlock(obj);
            && m != "" && !IsSpace(m[0]) && !IsSpace(m[|m| - 1])
            && m + rest == FENCE + (LANGUAGE + (("\n" + obj + "\n") + (FENCE + rest)))
  {
    var m := FencedBlock(obj);
    assert m == FENCE + (LANGUAGE + "\n" + obj + "\n" + FENCE);
    assert m[0] == FENCE[0] && m[|m| - 1] == FENCE[2];
  }

  lemma TrimmedBlock(before: string, obj: string, after: string)
    ensures TrimSpace(before + FencedBlock(obj) + after)
         == TrimLeft(before) + (FENCE + (LANGUAGE + (("\n" + obj + "\n") + (FENCE + TrimRight(after)))))
  {
    var m, l, rest := FencedBlock(obj), TrimLeft(before), TrimRight(after);
    BlockParts(obj, rest);
    hide FencedBlock, TrimLeft, TrimRight, TrimSpace, IsSpace;
    TrimAround(before, m, after);
    assert l + m + rest == l + (m + rest);
  }

  lemma ObjectInLines(obj: string)
    requires IsObject(obj)
    ensures Braced("\n" + obj + "\n") == Some(obj)
  {
    BracedBetween("\n", obj, "\n");
  }

  /** A finding in a fenced block is found whatever stands after the block, and whatever
      lines without a fence stand before it. */
  lemma FencedObjectIsFound(before: string, obj: string, after: string)
    requires IsObject(obj) && !Contains(obj, FENCE)
    requires (before == "" || before[|before| - 1] == '\n') && !Contains(before, FENCE)
    ensures ObjectText(before + FencedBlock(obj) + after) == Some(obj)
  {
    var inside := "\n" + obj + "\n";
    TrimLeftKeeps(before, FENCE);
    LineInsideHasNoFence(obj);
    ObjectInLines(obj);
    TrimmedBlock(before, obj, after);
    hide *;
    UnfencedBetween(TrimLeft(before), inside, TrimRight(after));
    FoundInside(before + FencedBlock(obj) + after, TrimSpace(before + FencedBlock(obj) + after), inside, obj);
  }

  lemma FoundInside(content: string, trimmed: string, inside: string, obj: string)
    requires TrimSpace(content) == trimmed && Unfenced(trimmed) == inside && Braced(inside) == Some(obj)
    ensures ObjectText(content) == Some(obj)
  {
    hide TrimSpace, Unfenced, Braced;
  }

  lemma AtDrop(a: string, d: nat, m: string, k: nat)
    requires d <= |a|
    ensures At(a[d..], m, k) ==> At(a, m, k + d)
  {
    assert At(a[d..], m, k) ==> a[k + d..k + d + |m|] == a[d..][k..k + |m|];
  }

  lemma TrimLeftKeeps(a: string, m: string)
    requires a == "" || a[|a| - 1] == '\n'
    requires !Contains(a, m)
    ensures var l := TrimLeft(a); (l == "" || l[|l| - 1] == '\n') && !Contains(l, m)
  {
    var l := TrimLeft(a);
    var d := |a| - |l|;
    assert l == a[d..];
    forall k: nat {
      AtDrop(a, d, m, k);
    }
  }

  /** So is one in plain prose that holds no brace and no fence. */
  lemma ProseObjectIsFound(before: string, obj: string, after: string)
    requires IsObject(obj) && '{' !in before && '}' !in after
    requires !Contains(TrimSpace(before + obj + after), FENCE)
    ensures ObjectText(before + obj + after) == Some(obj)
  {
    TrimAround(before, obj, after);
    BracedBetween(TrimLeft(before), obj, TrimRight(after));
  }
}
