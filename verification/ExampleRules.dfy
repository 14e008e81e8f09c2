/** Small rulesets and their compilations, which show that the inputs of the counterexamples exist. */
module ExampleRules {
  import opened Bytes
  import opened Encoding
  import opened Rules
  import opened Compiler

  const PATH: Str := [47, 97]    // "/a"
  const EXE: Str := [47, 98]     // "/b"
  const COMM: Str := [99]        // "c"
  const PID: u32 := 5

  function HideRule(id: byte, match_: MatchSpec): Rule {
    Rule([id], true, 0, match_, ActionSpec(Hide, [], []))
  }

  /** Hide from one process. */
  function OwnRule(): Rule {
    HideRule(97, MatchSpec(PATH, Some(PID), [], []))
  }

  /** Rewrite "x" to "y" for every task of one name. */
  function NameRule(): Rule {
    Rule([98], true, 0, MatchSpec(PATH, None, COMM, []), ActionSpec(Rewrite, [120], [121]))
  }

  /** Hide another path from every task of that name. */
  function LaterNameRule(): Rule {
    HideRule(99, MatchSpec(EXE, None, COMM, []))
  }

  /** Hide from every process that runs one executable. */
  function ExeRule(): Rule {
    HideRule(100, MatchSpec(PATH, None, [], EXE))
  }

  lemma ExamplesAreValid()
    ensures ValidRule(OwnRule()) && ValidRule(NameRule()) && ValidRule(LaterNameRule()) && ValidRule(ExeRule())
    ensures forall rules: seq<Rule> | rules == [] || rules == [OwnRule()] || rules == [OwnRule(), NameRule()] ||
                                      rules == [LaterNameRule()] || rules == [ExeRule()] ::
              ValidRuleset(Ruleset(1, rules))
  {
    assert OwnRule().id[0] != NameRule().id[0];
    assert ValidRule(OwnRule());
    assert ValidRule(NameRule());
    assert ValidRule(LaterNameRule());
    assert ValidRule(ExeRule());
  }

  function ProcessTable(r: Rule): map<u32, Policy> {
    map[PID := PolicyFor(r)]
  }

  function NameTable(r: Rule): map<CommKey, Policy> {
    map[CommKeyOf(COMM) := PolicyFor(r)]
  }

  lemma OneRule<K>(table: map<K, Policy>, key: K, rules: set<Rule>, r: Rule)
    requires rules == {r} && key in table && table[key] == PolicyFor(r)
    ensures EntryFor(table, key, rules)
  {
    assert Champion(rules, r);
  }

  lemma OwnRuleCompiles(procs: seq<Process>, canon: Canon)
    ensures IsCompilation([OwnRule()], procs, canon, Compiled(ProcessTable(OwnRule()), map[]))
  {
    var rules := [OwnRule()];
    forall pid: u32
      ensures EntryFor(ProcessTable(OwnRule()), pid, PidRules(rules, procs, canon, pid))
    {
      if pid == PID {
        OneRule(ProcessTable(OwnRule()), pid, PidRules(rules, procs, canon, pid), OwnRule());
      }
    }
  }

  lemma BothRulesCompile(procs: seq<Process>, canon: Canon)
    ensures IsCompilation([OwnRule(), NameRule()], procs, canon, Compiled(ProcessTable(OwnRule()), NameTable(NameRule())))
  {
    var rules := [OwnRule(), NameRule()];
    forall pid: u32
      ensures EntryFor(ProcessTable(OwnRule()), pid, PidRules(rules, procs, canon, pid))
    {
      if pid == PID {
        OneRule(ProcessTable(OwnRule()), pid, PidRules(rules, procs, canon, pid), OwnRule());
      }
    }
    forall key: CommKey
      ensures EntryFor(NameTable(NameRule()), key, CommRules(rules, key))
    {
      if key == CommKeyOf(COMM) {
        OneRule(NameTable(NameRule()), key, CommRules(rules, key), NameRule());
      }
    }
  }

  lemma LaterNameRuleCompiles(procs: seq<Process>, canon: Canon)
    ensures IsCompilation([LaterNameRule()], procs, canon, Compiled(map[], NameTable(LaterNameRule())))
  {
    var rules := [LaterNameRule()];
    forall key: CommKey
      ensures EntryFor(NameTable(LaterNameRule()), key, CommRules(rules, key))
    {
      if key == CommKeyOf(COMM) {
        OneRule(NameTable(LaterNameRule()), key, CommRules(rules, key), LaterNameRule());
      }
    }
  }

  /** The executable's rule compiles to nothing while nobody runs it, and to one entry once the process does. */
  lemma ExeRuleCompiles(canon: Canon)
    ensures IsCompilation([ExeRule()], [], canon, Compiled(map[], map[]))
    ensures IsCompilation([ExeRule()], [Process(PID, EXE)], canon, Compiled(ProcessTable(ExeRule()), map[]))
  {
    var rules, procs := [ExeRule()], [Process(PID, EXE)];
    forall pid: u32
      ensures EntryFor(ProcessTable(ExeRule()), pid, PidRules(rules, procs, canon, pid))
    {
      if pid == PID {
        assert procs[0].pid == pid;
        OneRule(ProcessTable(ExeRule()), pid, PidRules(rules, procs, canon, pid), ExeRule());
      }
    }
  }

  lemma NoRulesCompile(procs: seq<Process>, canon: Canon)
    ensures IsCompilation([], procs, canon, Compiled(map[], map[]))
  {
  }
}
