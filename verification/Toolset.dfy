/** Which tools a task may use: the agent's allowlist, narrowed by what its skills
    declare, plus the built-in tools the deployment and the budget provide. */
module Toolset {
  import opened Text

  const SPAWN := "punk__spawn_subagent"
  const REMEMBER := "punk__remember"
  const RECALL := "punk__recall"
  const LIST_KEYS := "punk__list_keys"

  /** path.Match, which is not modelled. */
  type Glob = (string, string) -> bool

  predicate Matches(glob: Glob, p: string, name: string) {
    glob(p, name) || (p != "" && p[|p| - 1] == '*' && HasPrefix(name, p[..|p| - 1])) || p == name
  }

  predicate MatchAny(glob: Glob, patterns: seq<string>, name: string) {
    exists p :: p in patterns && Matches(glob, p, name)
  }

  method MatchesAny(glob: Glob, patterns: seq<string>, name: string) returns (r: bool)
    ensures r <==> MatchAny(glob, patterns, name)
  {
    for k := 0 to |patterns|
      invariant forall j | 0 <= j < k :: !Matches(glob, patterns[j], name)
    {
      if Matches(glob, patterns[k], name) {
        return true;
      }
    }
    r := false;
  }

  /** The patterns all loaded skills declare, one after the other. */
  function SkillPatterns(skills: seq<string>): seq<string> {
    if skills == [] then []
    else SkillPatterns(skills[..|skills| - 1]) + Fields(skills[|skills| - 1])
  }

  predicate Granted(glob: Glob, patterns: seq<string>, declared: seq<string>, name: string) {
    MatchAny(glob, patterns, name) && (declared == [] || MatchAny(glob, declared, name))
  }

  function FromPool(glob: Glob, pool: seq<string>, patterns: seq<string>, declared: seq<string>): seq<string> {
    if pool == [] then []
    else
      FromPool(glob, pool[..|pool| - 1], patterns, declared)
      + if Granted(glob, patterns, declared, pool[|pool| - 1]) then [pool[|pool| - 1]] else []
  }

  function Builtins(memory: bool, subagents: int): seq<string> {
    (if memory then [REMEMBER, RECALL, LIST_KEYS] else []) + if subagents > 0 then [SPAWN] else []
  }

  function Allowed(glob: Glob, pool: seq<string>, patterns: seq<string>, skills: seq<string>,
                   memory: bool, subagents: int): seq<string> {
    FromPool(glob, pool, patterns, SkillPatterns(skills)) + Builtins(memory, subagents)
  }

  method AllowedTools(glob: Glob, pool: seq<string>, patterns: seq<string>, skills: seq<string>,
                      memory: bool, subagents: int) returns (out: seq<string>)
    ensures out == Allowed(glob, pool, patterns, skills, memory, subagents)
  {
    var declared: seq<string> := [];
    for k := 0 to |skills|
      invariant declared == SkillPatterns(skills[..k])
    {
      assert skills[..k + 1][..k] == skills[..k];
      if TrimSpace(skills[k]) != "" {
        declared := declared + Fields(skills[k]);
      } else {
        BlankHasNoFields(skills[k]);
      }
    }
    assert skills[..|skills|] == skills;
    out := [];
    for k := 0 to |pool|
      invariant out == FromPool(glob, pool[..k], patterns, declared)
    {
      assert pool[..k + 1][..k] == pool[..k];
      var mine := MatchesAny(glob, patterns, pool[k]);
      if !mine {
        continue;
      }
      if |declared| > 0 {
        var theirs := MatchesAny(glob, declared, pool[k]);
        if !theirs {
          continue;
        }
      }
      out := out + [pool[k]];
    }
    assert pool[..|pool|] == pool;
    if memory {
      out := out + [REMEMBER, RECALL, LIST_KEYS];
    }
    if subagents > 0 {
      out := out + [SPAWN];
    }
  }

  lemma {:induction false} NoFieldsInSpace(s: string)
    requires forall i | 0 <= i < |s| :: IsSpace(s[i])
    ensures Fields(s) == []
  {
    if s != "" {
      NoFieldsInSpace(s[1..]);
    }
  }

  lemma {:induction false} TrimLeftEmpty(s: string)
    requires TrimLeft(s) == ""
    ensures forall i | 0 <= i < |s| :: IsSpace(s[i])
  {
    hide IsSpace;
    if s != "" {
      assert IsSpace(s[0]) && TrimLeft(s[1..]) == "";
      TrimLeftEmpty(s[1..]);
      hide TrimLeft;
      forall i | 0 < i < |s| ensures IsSpace(s[i]) {
        assert s[i] == s[1..][i - 1];
      }
    }
  }

  lemma {:induction false} TrimRightEmpty(s: string)
    requires TrimRight(s) == ""
    ensures forall i | 0 <= i < |s| :: IsSpace(s[i])
  {
    hide IsSpace;
    if s != "" {
      TrimRightEmpty(s[..|s| - 1]);
    }
  }

  /** A skill that declares nothing narrows nothing. */
  lemma BlankHasNoFields(s: string)
    requires TrimSpace(s) == ""
    ensures Fields(s) == []
  {
    var l := TrimLeft(s);
    TrimRightEmpty(l);
    if l == "" {
      TrimLeftEmpty(s);
      NoFieldsInSpace(s);
    }
  }

  /** A tool is allowed exactly when the pool has it, the agent's list matches it and
      the skills' declared surface, if there is one, matches it too; or it is a
      built-in that the deployment and the budget provide. */
  lemma {:induction false} AllowedExactly(glob: Glob, pool: seq<string>, patterns: seq<string>, skills: seq<string>,
                                          memory: bool, subagents: int, name: string)
    ensures name in Allowed(glob, pool, patterns, skills, memory, subagents) <==>
            || (name in pool && Granted(glob, patterns, SkillPatterns(skills), name))
            || (memory && (name == "punk__remember" || name == "punk__recall" || name == "punk__list_keys"))
            || (subagents > 0 && name == "punk__spawn_subagent")
  {
    PoolExactly(glob, pool, patterns, SkillPatterns(skills), name);
  }

  /** A pattern that ends in a star allows what begins with the rest of it, any other
      only its own name, besides what path.Match takes it for. */
  lemma MatchesExactly(glob: Glob, p: string, name: string)
    ensures '*' !in p ==> (Matches(glob, p, name) <==> glob(p, name) || name == p)
    ensures Matches(glob, p + "*", name) <==> glob(p + "*", name) || exists rest :: name == p + rest
  {
    assert p != "" ==> p[|p| - 1] in p;
    var star := p + "*";
    assert star[..|star| - 1] == p;
    if HasPrefix(name, p) {
      assert name == p + name[|p|..];
    }
    if rest :| name == p + rest {
      assert name[..|p|] == p;
    }
    assert name == star ==> name == p + "*";
  }

  /** Where no pattern has a star and path.Match takes each only for itself, a tool from
      the pool must be on the agent's list by its own name. */
  lemma OnlyNamed(glob: Glob, pool: seq<string>, patterns: seq<string>, skills: seq<string>,
                  memory: bool, subagents: int, name: string)
    requires forall p | p in patterns :: '*' !in p && (glob(p, name) ==> p == name)
    requires name in Allowed(glob, pool, patterns, skills, memory, subagents) && name !in Builtins(memory, subagents)
    ensures name in pool && name in patterns
  {
    AllowedExactly(glob, pool, patterns, skills, memory, subagents, name);
    BuiltinNames(memory, subagents);
    hide Matches, Allowed, Builtins;
    var p :| p in patterns && Matches(glob, p, name);
    MatchesExactly(glob, p, name);
  }

  lemma BuiltinNames(memory: bool, subagents: int)
    ensures memory ==> forall n | n == "punk__remember" || n == "punk__recall" || n == "punk__list_keys" :: n in Builtins(memory, subagents)
    ensures subagents > 0 ==> "punk__spawn_subagent" in Builtins(memory, subagents)
  {
    var b := Builtins(memory, subagents);
    if memory {
      assert b[0] == "punk__remember" && b[1] == "punk__recall" && b[2] == "punk__list_keys";
    }
    if subagents > 0 {
      assert b[|b| - 1] == "punk__spawn_subagent";
    }
  }

  lemma {:induction false} PoolExactly(glob: Glob, pool: seq<string>, patterns: seq<string>, declared: seq<string>, name: string)
    ensures name in FromPool(glob, pool, patterns, declared) <==> name in pool && Granted(glob, patterns, declared, name)
  {
    if pool != [] {
      var init, last := pool[..|pool| - 1], pool[|pool| - 1];
      PoolExactly(glob, init, patterns, declared, name);
      assert name in pool <==> name in init || name == last;
    }
  }
}
