/** Merging recalled memory with the shared inbox into one Cline reply, within the
    host's limit. The host counts UTF-16 units; the code bounds bytes. */
module ClineReply {
  import opened Text

  type Byte = b: int | 0 <= b < 256

  const LIMIT := 50000
  const BREAK: seq<Byte> := [10, 10]

  // ---- UTF-8, section 3 of RFC 3629 -------------------------------------

  predicate Continues(s: seq<Byte>, k: nat) {
    k < |s| && 0x80 <= s[k] <= 0xBF
  }

  /** The length of the encoded character at the start of `s`; 0 if there is none. */
  function CharLength(s: seq<Byte>): (n: nat)
    ensures n <= |s| && n <= 4
  {
    if s == [] then 0
    else if s[0] < 0x80 then 1
    else if 0xC2 <= s[0] <= 0xDF && Continues(s, 1) then 2
    else if 0xE0 <= s[0] <= 0xEF && Continues(s, 1) && Continues(s, 2)
      && (s[0] == 0xE0 ==> s[1] >= 0xA0) && (s[0] == 0xED ==> s[1] <= 0x9F) then 3
    else if 0xF0 <= s[0] <= 0xF4 && Continues(s, 1) && Continues(s, 2) && Continues(s, 3)
      && (s[0] == 0xF0 ==> s[1] >= 0x90) && (s[0] == 0xF4 ==> s[1] <= 0x8F) then 4
    else 0
  }

  predicate Valid(s: seq<Byte>) {
    s == [] || (CharLength(s) > 0 && Valid(s[CharLength(s)..]))
  }

  /** How many UTF-16 units the text takes: two for a four-byte character. */
  function Units(s: seq<Byte>): nat
    requires Valid(s)
  {
    if s == [] then 0 else (if CharLength(s) == 4 then 2 else 1) + Units(s[CharLength(s)..])
  }

  lemma {:induction false} UnitsWithinBytes(s: seq<Byte>)
    requires Valid(s)
    ensures Units(s) <= |s|
  {
    if s != [] {
      UnitsWithinBytes(s[CharLength(s)..]);
    }
  }

  lemma PrefixChar(s: seq<Byte>, n: nat)
    requires CharLength(s) <= n <= |s| && CharLength(s) > 0
    ensures CharLength(s[..n]) == CharLength(s)
  {}

  lemma CharStays(s: seq<Byte>, t: seq<Byte>)
    requires CharLength(s) > 0
    ensures CharLength(s + t) == CharLength(s)
  {}

  lemma {:induction false} ValidConcat(s: seq<Byte>, t: seq<Byte>)
    requires Valid(s) && Valid(t)
    ensures Valid(s + t)
  {
    if s == [] {
      assert s + t == t;
    } else {
      var k := CharLength(s);
      CharStays(s, t);
      assert (s + t)[k..] == s[k..] + t;
      ValidConcat(s[k..], t);
    }
  }

  // ---- clipping ---------------------------------------------------------

  /** The longest valid prefix of at most `n` bytes. */
  function ValidPrefix(s: seq<Byte>, n: nat): (r: seq<Byte>)
    requires n <= |s|
    ensures |r| <= n && r == s[..|r|] && Valid(r)
    ensures forall k | |r| < k <= n :: !Valid(s[..k])
  {
    if Valid(s[..n]) then s[..n] else ValidPrefix(s, n - 1)
  }

  /** In a valid text a character ends within any four bytes. */
  lemma {:induction false} CharEndsNear(s: seq<Byte>, n: nat) returns (k: nat)
    requires Valid(s) && n <= |s|
    ensures k <= n <= k + 3 && Valid(s[..k])
    decreases |s|
  {
    var c := CharLength(s);
    if n == 0 || c > n {
      k := 0;
    } else {
      var j := CharEndsNear(s[c..], n - c);
      k := c + j;
      PrefixChar(s, k);
      assert s[..k][c..] == s[c..][..j];
    }
  }

  /** Valid memory loses at most three bytes beyond the limit. */
  lemma LittleIsLost(s: seq<Byte>, n: nat)
    requires Valid(s) && n <= |s|
    ensures n <= |ValidPrefix(s, n)| + 3
  {
    var k := CharEndsNear(s, n);
  }

  function Clip(memory: seq<Byte>, room: nat): seq<Byte> {
    if |memory| > room then ValidPrefix(memory, room) else memory
  }

  method ClipMemory(memory0: seq<Byte>, room: nat) returns (memory: seq<Byte>)
    ensures memory == Clip(memory0, room)
  {
    memory := memory0;
    if |memory| > room {
      memory := memory[..room];
      while !Valid(memory)
        invariant |memory| <= room && memory == memory0[..|memory|]
        invariant ValidPrefix(memory0, room) == ValidPrefix(memory0, |memory|)
        decreases |memory|
      {
        memory := memory[..|memory| - 1];
      }
    }
  }

  // ---- the reply --------------------------------------------------------

  /** clineContextWriter.Write: the merged context, or a refusal. */
  method MergeReply(memory: seq<Byte>, inbox: seq<Byte>) returns (merged: Option<seq<Byte>>)
    ensures merged.None? <==> |inbox| + 2 > LIMIT
    ensures merged.Some? ==> merged.value == Merged(memory, inbox)
  {
    var room := LIMIT - |inbox| - 2;
    if room < 0 {
      return None;
    }
    var clipped := ClipMemory(memory, room);
    var reply := inbox;
    if clipped != [] {
      if reply != [] {
        reply := clipped + BREAK + reply;
      } else {
        reply := clipped;
      }
    }
    merged := Some(reply);
  }

  function Merged(memory: seq<Byte>, inbox: seq<Byte>): seq<Byte>
    requires |inbox| + 2 <= LIMIT
  {
    var clipped := Clip(memory, LIMIT - |inbox| - 2);
    if clipped == [] then inbox else if inbox == [] then clipped else clipped + BREAK + inbox
  }

  /** How much of memory survives: all of it when it fits; of valid memory the longest
      valid prefix that fits, within three bytes of the room. */
  ghost predicate Survives(memory: seq<Byte>, room: nat, n: nat) {
    && n <= |memory| && n <= room
    && (|memory| <= room ==> n == |memory|)
    && (Valid(memory) ==> Valid(memory[..n]) && forall k | n < k <= room && k <= |memory| :: !Valid(memory[..k]))
    && (Valid(memory) && |memory| > room ==> room <= n + 3)
  }

  lemma ClipSurvives(memory: seq<Byte>, room: nat)
    ensures var c := Clip(memory, room); c == memory[..|c|] && Survives(memory, room, |c|)
  {
    if |memory| > room {
      if Valid(memory) {
        LittleIsLost(memory, room);
      }
    } else {
      assert memory[..|memory|] == memory;
    }
    hide CharLength, Valid;
  }

  /** The reply is within the limit in bytes; it starts with what survives of memory
      and ends with the whole inbox. */
  lemma ReplyFits(memory: seq<Byte>, inbox: seq<Byte>) returns (n: nat)
    requires |inbox| + 2 <= LIMIT
    ensures var reply := Merged(memory, inbox);
            && Survives(memory, LIMIT - |inbox| - 2, n)
            && |reply| == n + |inbox| + (if n > 0 && inbox != [] then 2 else 0) <= LIMIT
            && reply[..n] == memory[..n] && reply[|reply| - |inbox|..] == inbox
  {
    var room := LIMIT - |inbox| - 2;
    ClipSurvives(memory, room);
    n := |Clip(memory, room)|;
    hide Survives, Clip;
  }

  /** And so it is within the host's own limit, in UTF-16 units. */
  lemma ReplyUnits(memory: seq<Byte>, inbox: seq<Byte>)
    requires |inbox| + 2 <= LIMIT && Valid(memory) && Valid(inbox)
    ensures Valid(Merged(memory, inbox)) && Units(Merged(memory, inbox)) <= LIMIT
  {
    var n := ReplyFits(memory, inbox);
    var clipped := Clip(memory, LIMIT - |inbox| - 2);
    BreakIsValid();
    assert Valid(clipped);
    hide CharLength, Valid, Clip, Survives;
    ValidConcat(clipped, BREAK);
    ValidConcat(clipped + BREAK, inbox);
    UnitsWithinBytes(Merged(memory, inbox));
  }

  lemma BreakIsValid()
    ensures Valid(BREAK)
  {
    assert BREAK[1..] == [10] && [10 as Byte][1..] == [];
  }
}
