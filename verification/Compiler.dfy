/** The rules compiler (internal/rules/compiler.go): a rule list and a process snapshot become two kernel tables. */
module Compiler {
  import opened Bytes
  import opened Encoding
  import opened Rules
  import opened KernelSpec

  datatype Process = Process(pid: u32, exe: Str)

  datatype Compiled = Compiled(pids: map<u32, Policy>, comms: map<CommKey, Policy>)

  datatype Candidate = Candidate(policy: Policy, rule: Rule, specificity: nat)

  const SELECTOR_COMM: nat := 1
  const SELECTOR_EXE: nat := 2
  const SELECTOR_PID: nat := 3

  /** Resolution of symbolic links and `.`/`..`: some function of the path. */
  type Canon = Str -> Str

  // ----- the order of rules -----

  function Specificity(r: Rule): nat {
    if r.match_.pid.Some? then SELECTOR_PID else if r.match_.comm != [] then SELECTOR_COMM else SELECTOR_EXE
  }

  /** The documented order: the more specific selector, then the smaller priority, then hide over rewrite, then the
      smaller id. */
  predicate Beats(a: Rule, b: Rule) {
    || Specificity(a) > Specificity(b)
    || (Specificity(a) == Specificity(b) &&
        (|| a.priority < b.priority
         || (a.priority == b.priority &&
             (|| (a.action.kind.Hide? && b.action.kind.Rewrite?)
              || (a.action.kind == b.action.kind && Less(a.id, b.id))))))
  }

  predicate KnownAction(r: Rule) {
    r.action.kind.Hide? || r.action.kind.Rewrite?
  }

  /** Rules tie exactly when they agree on everything the order looks at, the id included. */
  lemma BeatsIsTotal(a: Rule, b: Rule)
    requires KnownAction(a) && KnownAction(b)
    ensures !(Beats(a, b) && Beats(b, a))
    ensures !Beats(a, b) && !Beats(b, a) <==>
            Specificity(a) == Specificity(b) && a.priority == b.priority && a.action.kind == b.action.kind && a.id == b.id
  {
    LessTotal(a.id, b.id);
  }

  lemma BeatsIsTransitive(a: Rule, b: Rule, c: Rule)
    requires KnownAction(a) && KnownAction(b) && KnownAction(c) && Beats(a, b) && Beats(b, c)
    ensures Beats(a, c)
  {
    if Less(a.id, b.id) && Less(b.id, c.id) {
      LessTransitive(a.id, b.id, c.id);
    }
  }

  /** `shouldReplace`. */
  predicate ShouldReplace(current: Candidate, next: Candidate) {
    if next.specificity != current.specificity then next.specificity > current.specificity
    else if next.rule.priority != current.rule.priority then next.rule.priority < current.rule.priority
    else if next.rule.action.kind != current.rule.action.kind then next.rule.action.kind.Hide?
    else Less(next.rule.id, current.rule.id)
  }

  // ----- which rules speak for a table key -----

  /** The rule governs the process `pid`: by number, or through the executable of a process in the snapshot. */
  predicate SelectsPid(r: Rule, procs: seq<Process>, canon: Canon, pid: u32) {
    r.enabled &&
    (if r.match_.pid.Some? then r.match_.pid.value == pid
     else r.match_.comm == [] && r.match_.exe != [] && RunsAs(procs, canon, pid, r.match_.exe))
  }

  /** The snapshot lists `pid` as running the executable. */
  predicate RunsAs(procs: seq<Process>, canon: Canon, pid: u32, exe: Str) {
    exists i | 0 <= i < |procs| :: procs[i].pid == pid && canon(procs[i].exe) == canon(exe)
  }

  predicate SelectsComm(r: Rule, key: CommKey) {
    r.enabled && r.match_.pid.None? && r.match_.comm != [] && CommKeyOf(r.match_.comm) == key
  }

  function PidRules(rules: seq<Rule>, procs: seq<Process>, canon: Canon, pid: u32): set<Rule> {
    set r | r in rules && SelectsPid(r, procs, canon, pid)
  }

  function CommRules(rules: seq<Rule>, key: CommKey): set<Rule> {
    set r | r in rules && SelectsComm(r, key)
  }

  /** The rule that beats all others. */
  ghost predicate Champion(rules: set<Rule>, r: Rule) {
    r in rules && forall q | q in rules && q != r :: Beats(r, q)
  }

  lemma ChampionIsUnique(rules: set<Rule>, a: Rule, b: Rule)
    requires forall r | r in rules :: KnownAction(r)
    requires Champion(rules, a) && Champion(rules, b)
    ensures a == b
  {
    BeatsIsTotal(a, b);
  }

  /** The policy that enforces a rule. */
  function PolicyFor(r: Rule): Policy {
    if r.action.kind.Hide? then PolicyOf(ACTION_HIDE, r.match_.path, [], [])
    else PolicyOf(ACTION_REWRITE, r.match_.path, r.action.find, r.action.replace)
  }

  /** A table entry is right for the rules that speak for its key. */
  ghost predicate EntryFor<K>(table: map<K, Policy>, key: K, rules: set<Rule>) {
    && (key in table <==> rules != {})
    && (key in table ==> exists r :: Champion(rules, r) && table[key] == PolicyFor(r))
  }

  /** The meaning of compilation: every key of both tables enforces the champion of the rules that speak for it,
      and a key nobody speaks for is absent. */
  ghost predicate IsCompilation(rules: seq<Rule>, procs: seq<Process>, canon: Canon, out: Compiled) {
    && (forall pid: u32 :: EntryFor(out.pids, pid, PidRules(rules, procs, canon, pid)))
    && (forall key: CommKey :: EntryFor(out.comms, key, CommRules(rules, key)))
  }

  // ----- the program -----

  /** `buildPolicy`. */
  method BuildPolicy(r: Rule) returns (policy: Option<Policy>)
    ensures policy.Some? <==>
            (r.action.kind.Hide? ||
             (r.action.kind.Rewrite? && r.action.find != [] && |r.action.find| == |r.action.replace|))
    ensures policy.Some? ==> policy.value == PolicyFor(r)
  {
    match r.action.kind {
      case Hide =>
        var p := NewPolicy(ACTION_HIDE, r.match_.path, [], []);
        return Some(p);
      case Rewrite =>
        if r.action.find == [] || r.action.replace == [] || |r.action.find| != |r.action.replace| {
          return None;
        }
        var p := NewPolicy(ACTION_REWRITE, r.match_.path, r.action.find, r.action.replace);
        return Some(p);
      case Other(_) =>
        return None;
    }
  }

  function CandidateOf(r: Rule): Candidate {
    Candidate(PolicyFor(r), r, Specificity(r))
  }

  /** The candidate held for a key is the champion so far. */
  ghost predicate Elects<K>(candidates: map<K, Candidate>, key: K, rules: set<Rule>) {
    && (key in candidates <==> rules != {})
    && (key in candidates ==> Champion(rules, candidates[key].rule) && candidates[key] == CandidateOf(candidates[key].rule))
  }

  /** Enter a candidate for a key unless the one that is there is to be kept. */
  method Offer<K(==)>(candidates: map<K, Candidate>, key: K, candidate: Candidate) returns (updated: map<K, Candidate>)
    ensures updated == if key !in candidates || ShouldReplace(candidates[key], candidate)
                       then candidates[key := candidate] else candidates
  {
    if key in candidates {
      if ShouldReplace(candidates[key], candidate) {
        updated := candidates[key := candidate];
      } else {
        updated := candidates;
      }
    } else {
      updated := candidates[key := candidate];
    }
  }

  ghost predicate Comparable(rules: set<Rule>) {
    && (forall r | r in rules :: KnownAction(r))
    && (forall a, b | a in rules && b in rules && a.id == b.id :: a == b)
  }

  /** Offering one more rule keeps the election right, whether or not the rule already took part. */
  lemma OfferElects<K>(candidates: map<K, Candidate>, key: K, rules: set<Rule>, r: Rule)
    requires Elects(candidates, key, rules) && Comparable(rules + {r})
    ensures var updated := if key !in candidates || ShouldReplace(candidates[key], CandidateOf(r))
                           then candidates[key := CandidateOf(r)] else candidates;
            Elects(updated, key, rules + {r})
  {
    if key in candidates {
      var best := candidates[key].rule;
      assert best in rules + {r} && r in rules + {r};
      BeatsIsTotal(best, r);
      if ShouldReplace(candidates[key], CandidateOf(r)) {
        forall q | q in rules + {r} && q != r
          ensures Beats(r, q)
        {
          if q != best {
            BeatsIsTransitive(r, best, q);
          }
        }
      }
    }
  }

  lemma ValidRulesAreComparable(rs: Ruleset, rules: set<Rule>)
    requires ValidRuleset(rs) && forall r | r in rules :: r in rs.rules
    ensures Comparable(rules)
  {
    forall r | r in rules
      ensures KnownAction(r)
    {
      assert !Suffers(r, UnsupportedAction);
    }
    forall a, b | a in rules && b in rules && a.id == b.id
      ensures a == b
    {
      SameIdSameRule(rs, a, b);
    }
  }

  method NeedsProcessScan(rs: Ruleset) returns (needs: bool)
    ensures needs <==> SelectsByExe(rs)
  {
    for i := 0 to |rs.rules|
      invariant forall r | r in rs.rules[..i] :: !(r.enabled && r.match_.exe != [])
    {
      if rs.rules[i].enabled && rs.rules[i].match_.exe != [] {
        return true;
      }
    }
    assert rs.rules[..|rs.rules|] == rs.rules;
    return false;
  }

  /** Compilation depends on the running processes. */
  predicate SelectsByExe(rs: Ruleset) {
    exists r | r in rs.rules :: r.enabled && r.match_.exe != []
  }

  datatype Outcome = Done(compiled: Compiled) | Refused(errors: seq<RulesetError>) | NoProcessList

  ghost predicate ElectsPids(candidates: map<u32, Candidate>, rules: seq<Rule>, procs: seq<Process>, canon: Canon) {
    forall pid: u32 :: Elects(candidates, pid, PidRules(rules, procs, canon, pid))
  }

  ghost predicate ElectsComms(candidates: map<CommKey, Candidate>, rules: seq<Rule>) {
    forall key: CommKey :: Elects(candidates, key, CommRules(rules, key))
  }

  /** The rule alone, if the processes seen so far include one that runs as `pid` what the rule names. */
  function ExeRules(r: Rule, seen: seq<Process>, canon: Canon, pid: u32): set<Rule> {
    if RunsAs(seen, canon, pid, r.match_.exe) then {r} else {}
  }

  /** Half way through the processes for one executable rule. */
  ghost predicate ElectsSoFar(candidates: map<u32, Candidate>, before: seq<Rule>, r: Rule, procs: seq<Process>,
                              seen: seq<Process>, canon: Canon) {
    forall pid: u32 :: Elects(candidates, pid, PidRules(before, procs, canon, pid) + ExeRules(r, seen, canon, pid))
  }

  lemma PidRulesOfOneMore(before: seq<Rule>, r: Rule, procs: seq<Process>, canon: Canon, pid: u32)
    ensures PidRules(before + [r], procs, canon, pid) ==
            PidRules(before, procs, canon, pid) + if SelectsPid(r, procs, canon, pid) then {r} else {}
  {
  }

  lemma CommRulesOfOneMore(before: seq<Rule>, r: Rule, key: CommKey)
    ensures CommRules(before + [r], key) == CommRules(before, key) + if SelectsComm(r, key) then {r} else {}
  {
  }

  lemma RunsAsOneMore(seen: seq<Process>, p: Process, canon: Canon, pid: u32, exe: Str)
    ensures RunsAs(seen + [p], canon, pid, exe) <==>
            RunsAs(seen, canon, pid, exe) || (p.pid == pid && canon(p.exe) == canon(exe))
  {
    if RunsAs(seen, canon, pid, exe) {
      var i :| 0 <= i < |seen| && seen[i].pid == pid && canon(seen[i].exe) == canon(exe);
      assert (seen + [p])[i] == seen[i];
    }
    if p.pid == pid && canon(p.exe) == canon(exe) {
      assert (seen + [p])[|seen|] == p;
    }
  }

  /** A rule that names its process: one offer. */
  method CompilePid(candidates: map<u32, Candidate>, r: Rule, policy: Policy, ghost rs: Ruleset,
                    ghost before: seq<Rule>, ghost procs: seq<Process>, ghost canon: Canon)
    returns (updated: map<u32, Candidate>)
    requires ValidRuleset(rs) && before + [r] <= rs.rules && policy == PolicyFor(r)
    requires r.enabled && r.match_.pid.Some?
    requires ElectsPids(candidates, before, procs, canon)
    ensures ElectsPids(updated, before + [r], procs, canon)
  {
    var key := r.match_.pid.value;
    updated := Offer(candidates, key, Candidate(policy, r, SELECTOR_PID));
    forall pid: u32
      ensures Elects(updated, pid, PidRules(before + [r], procs, canon, pid))
    {
      var rules := PidRules(before, procs, canon, pid);
      assert Elects(candidates, pid, rules);
      PidRulesOfOneMore(before, r, procs, canon, pid);
      if pid == key {
        AmongRules(rs, before, r, rules);
        OfferElects(candidates, pid, rules, r);
      }
    }
  }

  lemma AmongRules(rs: Ruleset, before: seq<Rule>, r: Rule, rules: set<Rule>)
    requires ValidRuleset(rs) && before + [r] <= rs.rules && forall q | q in rules :: q in before || q == r
    ensures Comparable(rules + {r})
  {
    forall q | q in rules + {r}
      ensures q in rs.rules
    {
      assert q in before + [r];
    }
    ValidRulesAreComparable(rs, rules + {r});
  }

  /** A rule that names a task: one offer. */
  method CompileComm(candidates: map<CommKey, Candidate>, r: Rule, policy: Policy, ghost rs: Ruleset,
                     ghost before: seq<Rule>)
    returns (updated: map<CommKey, Candidate>)
    requires ValidRuleset(rs) && before + [r] <= rs.rules && policy == PolicyFor(r)
    requires r.enabled && r.match_.pid.None? && r.match_.comm != []
    requires ElectsComms(candidates, before)
    ensures ElectsComms(updated, before + [r])
  {
    var key := EncodeField(16, r.match_.comm);
    updated := Offer(candidates, key, Candidate(policy, r, SELECTOR_COMM));
    forall k: CommKey
      ensures Elects(updated, k, CommRules(before + [r], k))
    {
      var rules := CommRules(before, k);
      assert Elects(candidates, k, rules);
      CommRulesOfOneMore(before, r, k);
      if k == key {
        AmongRules(rs, before, r, rules);
        OfferElects(candidates, k, rules, r);
      }
    }
  }

  /** A rule that names an executable: one offer for every process that runs it. */
  method CompileExe(candidates: map<u32, Candidate>, r: Rule, policy: Policy, procs: seq<Process>, canon: Canon,
                    ghost rs: Ruleset, ghost before: seq<Rule>)
    returns (updated: map<u32, Candidate>)
    requires ValidRuleset(rs) && before + [r] <= rs.rules && policy == PolicyFor(r)
    requires r.enabled && r.match_.pid.None? && r.match_.comm == [] && r.match_.exe != []
    requires ElectsPids(candidates, before, procs, canon)
    ensures ElectsPids(updated, before + [r], procs, canon)
  {
    var targetExe := canon(r.match_.exe);
    updated := candidates;
    forall pid: u32
      ensures Elects(updated, pid, PidRules(before, procs, canon, pid) + ExeRules(r, procs[..0], canon, pid))
    {
      assert Elects(candidates, pid, PidRules(before, procs, canon, pid));
      assert PidRules(before, procs, canon, pid) + {} == PidRules(before, procs, canon, pid);
    }
    for j := 0 to |procs|
      invariant ElectsSoFar(updated, before, r, procs, procs[..j], canon)
    {
      var process := procs[j];
      assert procs[..j + 1] == procs[..j] + [process];
      ghost var old_ := updated;
      if canon(process.exe) == targetExe {
        updated := Offer(updated, process.pid, Candidate(policy, r, SELECTOR_EXE));
      }
      forall pid: u32
        ensures Elects(updated, pid, PidRules(before, procs, canon, pid) + ExeRules(r, procs[..j + 1], canon, pid))
      {
        var rules := PidRules(before, procs, canon, pid) + ExeRules(r, procs[..j], canon, pid);
        assert Elects(old_, pid, rules);
        RunsAsOneMore(procs[..j], process, canon, pid, r.match_.exe);
        if canon(process.exe) == targetExe && pid == process.pid {
          AmongRules(rs, before, r, rules);
          OfferElects(old_, pid, rules, r);
          assert rules + {r} == PidRules(before, procs, canon, pid) + {r};
        }
      }
    }
    assert procs[..|procs|] == procs;
    forall pid: u32
      ensures Elects(updated, pid, PidRules(before + [r], procs, canon, pid))
    {
      assert Elects(updated, pid, PidRules(before, procs, canon, pid) + ExeRules(r, procs, canon, pid));
      PidRulesOfOneMore(before, r, procs, canon, pid);
    }
  }

  /** The policies of the elected candidates. */
  method Policies<K(==)>(candidates: map<K, Candidate>) returns (policies: map<K, Policy>)
    ensures policies == map key | key in candidates :: candidates[key].policy
  {
    policies := map[];
    var rest := candidates.Keys;
    while rest != {}
      invariant rest <= candidates.Keys && policies.Keys == candidates.Keys - rest
      invariant forall key | key in policies :: policies[key] == candidates[key].policy
      decreases rest
    {
      var key :| key in rest;
      policies := policies[key := candidates[key].policy];
      rest := rest - {key};
    }
  }

  /** The pass over the rules of a valid ruleset. The compiler's own refusals, of a rule whose policy cannot be built
      and of a rule without selector, are the two branches that assert false: validation has ruled them out. */
  method CompileRules(rs: Ruleset, procs: seq<Process>, canon: Canon)
    returns (pidCandidates: map<u32, Candidate>, commCandidates: map<CommKey, Candidate>)
    requires ValidRuleset(rs)
    ensures ElectsPids(pidCandidates, rs.rules, procs, canon) && ElectsComms(commCandidates, rs.rules)
  {
    pidCandidates, commCandidates := map[], map[];
    for i := 0 to |rs.rules|
      invariant ElectsPids(pidCandidates, rs.rules[..i], procs, canon)
      invariant ElectsComms(commCandidates, rs.rules[..i])
    {
      var r := rs.rules[i];
      ghost var before := rs.rules[..i];
      assert rs.rules[..i + 1] == before + [r];
      IgnoredByPids(before, r, procs, canon);
      IgnoredByComms(before, r);
      if !r.enabled {
        continue;
      }
      ValidRuleCompiles(rs, r);
      var policy := BuildPolicy(r);
      if policy.None? {
        assert false;
      }
      if r.match_.pid.Some? {
        pidCandidates := CompilePid(pidCandidates, r, policy.value, rs, before, procs, canon);
      } else if r.match_.comm != [] {
        commCandidates := CompileComm(commCandidates, r, policy.value, rs, before);
      } else if r.match_.exe != [] {
        pidCandidates := CompileExe(pidCandidates, r, policy.value, procs, canon, rs, before);
      } else {
        assert false;
      }
    }
    assert rs.rules[..|rs.rules|] == rs.rules;
  }

  lemma ValidRuleCompiles(rs: Ruleset, r: Rule)
    requires ValidRuleset(rs) && r in rs.rules
    ensures r.action.kind.Hide? || (r.action.kind.Rewrite? && r.action.find != [] && |r.action.find| == |r.action.replace|)
    ensures SelectorCount(r.match_) == 1
  {
    assert !Suffers(r, NoSelector) && !Suffers(r, SeveralSelectors);
    assert !Suffers(r, UnsupportedAction) && !Suffers(r, MissingFind) && !Suffers(r, LengthsDiffer);
  }

  /** `CompileWithReport`: fails exactly on an invalid ruleset, and on a process list that is needed and cannot be had; it
      is needed only if none is given and some enabled rule names an executable. Otherwise it yields the compilation of
      the rules for the processes given, or scanned, or for none. */
  method CompileWithReport(rs: Ruleset, given: Option<seq<Process>>, scanned: Option<seq<Process>>, canon: Canon)
    returns (out: Outcome)
    ensures out.Refused? <==> !ValidRuleset(rs)
    ensures out.Refused? ==> ReportOf(rs, out.errors)
    ensures out.NoProcessList? <==> ValidRuleset(rs) && given.None? && scanned.None? &&
                                    exists r | r in rs.rules :: r.enabled && r.match_.exe != []
    ensures out.Done? && given.Some? ==> IsCompilation(rs.rules, given.value, canon, out.compiled)
    ensures out.Done? && given.None? ==>
              if exists r | r in rs.rules :: r.enabled && r.match_.exe != []
              then scanned.Some? && IsCompilation(rs.rules, scanned.value, canon, out.compiled)
              else IsCompilation(rs.rules, [], canon, out.compiled)
  {
    var errors := ValidateRuleset(rs);
    if errors != [] {
      return Refused(errors);
    }
    var procs: seq<Process> := [];
    var needs := NeedsProcessScan(rs);
    if given.Some? {
      procs := given.value;
    } else if needs {
      if scanned.None? {
        return NoProcessList;
      }
      procs := scanned.value;
    }
    var pidCandidates, commCandidates := CompileRules(rs, procs, canon);
    var pids := Policies(pidCandidates);
    var comms := Policies(commCandidates);
    out := Done(Compiled(pids, comms));
    ElectedTables(rs.rules, procs, canon, pidCandidates, commCandidates, out.compiled);
  }

  lemma IgnoredByPids(before: seq<Rule>, r: Rule, procs: seq<Process>, canon: Canon)
    ensures !r.enabled || (r.match_.pid.None? && r.match_.comm != []) ==>
            forall pid: u32 :: PidRules(before + [r], procs, canon, pid) == PidRules(before, procs, canon, pid)
  {
  }

  lemma IgnoredByComms(before: seq<Rule>, r: Rule)
    ensures !r.enabled || r.match_.pid.Some? || r.match_.comm == [] ==>
            forall key: CommKey :: CommRules(before + [r], key) == CommRules(before, key)
  {
  }

  lemma ElectedTables(rules: seq<Rule>, procs: seq<Process>, canon: Canon, pidCandidates: map<u32, Candidate>,
                      commCandidates: map<CommKey, Candidate>, out: Compiled)
    requires ElectsPids(pidCandidates, rules, procs, canon) && ElectsComms(commCandidates, rules)
    requires out.pids == map pid | pid in pidCandidates :: pidCandidates[pid].policy
    requires out.comms == map key | key in commCandidates :: commCandidates[key].policy
    ensures IsCompilation(rules, procs, canon, out)
  {
    forall pid: u32
      ensures EntryFor(out.pids, pid, PidRules(rules, procs, canon, pid))
    {
      assert Elects(pidCandidates, pid, PidRules(rules, procs, canon, pid));
    }
    forall key: CommKey
      ensures EntryFor(out.comms, key, CommRules(rules, key))
    {
      assert Elects(commCandidates, key, CommRules(rules, key));
    }
  }

  // ----- what compilation means -----

  /** The order of the rules and of the processes plays no part: any two compilations of the same set of valid rules
      for the same set of processes are the same tables. */
  lemma OrderDoesNotMatter(rs: Ruleset, rules: seq<Rule>, procs: seq<Process>, procs': seq<Process>, canon: Canon,
                           a: Compiled, b: Compiled)
    requires ValidRuleset(rs) && (forall r :: r in rules <==> r in rs.rules) && (forall p :: p in procs <==> p in procs')
    requires IsCompilation(rs.rules, procs, canon, a) && IsCompilation(rules, procs', canon, b)
    ensures a == b
  {
    forall pid: u32
      ensures pid in a.pids <==> pid in b.pids
      ensures pid in a.pids ==> a.pids[pid] == b.pids[pid]
    {
      SameProcesses(procs, procs', canon, pid);
      var chosen := PidRules(rs.rules, procs, canon, pid);
      assert chosen == PidRules(rules, procs', canon, pid);
      assert EntryFor(a.pids, pid, chosen) && EntryFor(b.pids, pid, chosen);
      ValidRulesAreComparable(rs, chosen);
      SameEntry(a.pids, b.pids, pid, chosen);
    }
    forall key: CommKey
      ensures key in a.comms <==> key in b.comms
      ensures key in a.comms ==> a.comms[key] == b.comms[key]
    {
      var chosen := CommRules(rs.rules, key);
      assert chosen == CommRules(rules, key);
      assert EntryFor(a.comms, key, chosen) && EntryFor(b.comms, key, chosen);
      ValidRulesAreComparable(rs, chosen);
      SameEntry(a.comms, b.comms, key, chosen);
    }
    assert a.pids == b.pids && a.comms == b.comms;
  }

  lemma SameProcesses(procs: seq<Process>, procs': seq<Process>, canon: Canon, pid: u32)
    requires forall p :: p in procs <==> p in procs'
    ensures forall exe :: RunsAs(procs, canon, pid, exe) <==> RunsAs(procs', canon, pid, exe)
  {
    assert forall i | 0 <= i < |procs| :: procs[i] in procs';
    assert forall i | 0 <= i < |procs'| :: procs'[i] in procs;
  }

  lemma SameEntry<K>(a: map<K, Policy>, b: map<K, Policy>, key: K, rules: set<Rule>)
    requires Comparable(rules) && EntryFor(a, key, rules) && EntryFor(b, key, rules)
    ensures key in a <==> key in b
    ensures key in a ==> a[key] == b[key]
  {
    if key in a {
      var r :| Champion(rules, r) && a[key] == PolicyFor(r);
      var q :| Champion(rules, q) && b[key] == PolicyFor(q);
      ChampionIsUnique(rules, r, q);
    }
  }

  /** The kernel's "process table, then task table" finds the policy of the best of all rules that
      select the task, whichever way they select it, and finds none exactly when no rule does. */
  lemma LookupFindsBestRule(rs: Ruleset, procs: seq<Process>, canon: Canon, out: Compiled, k: Kernel, t: Thread, comm: CommKey)
    requires IsCompilation(rs.rules, procs, canon, out) && k.policies == out.pids && k.commPolicies == out.comms
    ensures var selecting := PidRules(rs.rules, procs, canon, t.tgid) + CommRules(rs.rules, comm);
            match LookupPolicy(k, t, comm)
            case None => selecting == {}
            case Some(p) => exists r :: Champion(selecting, r) && p == PolicyFor(r)
  {
    var byPid, byComm := PidRules(rs.rules, procs, canon, t.tgid), CommRules(rs.rules, comm);
    assert EntryFor(out.pids, t.tgid, byPid) && EntryFor(out.comms, comm, byComm);
    if t.tgid in out.pids {
      var r :| Champion(byPid, r) && out.pids[t.tgid] == PolicyFor(r);
      assert Champion(byPid + byComm, r);
    } else if comm in out.comms {
      var r :| Champion(byComm, r) && out.comms[comm] == PolicyFor(r);
      assert Champion(byPid + byComm, r);
    }
  }

  /** Whether a rule that names an executable matters: an enabled one does as soon as a process that no rule names by
      number runs what it names, and without one the process list plays no part. */
  lemma ProcessListMatters(rs: Ruleset, procs: seq<Process>, canon: Canon, a: Compiled, b: Compiled)
    requires ValidRuleset(rs) && IsCompilation(rs.rules, procs, canon, a) && IsCompilation(rs.rules, [], canon, b)
    ensures !SelectsByExe(rs) ==> a == b
    ensures forall r, p | r in rs.rules && r.enabled && r.match_.exe != [] && p in procs &&
                          canon(p.exe) == canon(r.match_.exe) &&
                          (forall q | q in rs.rules :: q.match_.pid != Some(p.pid)) :: p.pid in a.pids && p.pid !in b.pids
  {
    forall r, p | r in rs.rules && r.enabled && r.match_.exe != [] && p in procs &&
                  canon(p.exe) == canon(r.match_.exe) && (forall q | q in rs.rules :: q.match_.pid != Some(p.pid))
      ensures p.pid in a.pids && p.pid !in b.pids
    {
      assert ValidRule(r) && !Suffers(r, SeveralSelectors);
      var i :| 0 <= i < |procs| && procs[i] == p;
      assert RunsAs(procs, canon, p.pid, r.match_.exe);
      assert r in PidRules(rs.rules, procs, canon, p.pid);
      assert PidRules(rs.rules, [], canon, p.pid) == {};
      assert EntryFor(a.pids, p.pid, PidRules(rs.rules, procs, canon, p.pid));
      assert EntryFor(b.pids, p.pid, PidRules(rs.rules, [], canon, p.pid));
    }
    if !SelectsByExe(rs) {
      forall pid: u32
        ensures PidRules(rs.rules, procs, canon, pid) == PidRules(rs.rules, [], canon, pid)
      {
      }
      assert IsCompilation(rs.rules, [], canon, a);
      OrderDoesNotMatter(rs, rs.rules, [], [], canon, a, b);
    }
  }

  /** The tables of a single rule: none if it is disabled, else one entry for its process or its task name, or one for
      every listed process that runs its executable. */
  lemma SingleRuleTables(rs: Ruleset, procs: seq<Process>, canon: Canon, out: Compiled, r: Rule)
    requires ValidRuleset(rs) && rs.rules == [r] && IsCompilation(rs.rules, procs, canon, out)
    ensures !r.enabled ==> out.pids == map[] && out.comms == map[]
    ensures r.enabled && r.match_.pid.Some? ==> out.pids == map[r.match_.pid.value := PolicyFor(r)] && out.comms == map[]
    ensures r.enabled && r.match_.comm != [] ==> out.pids == map[] && out.comms == map[CommKeyOf(r.match_.comm) := PolicyFor(r)]
    ensures r.enabled && r.match_.exe != [] ==>
              && out.comms == map[]
              && (forall pid: u32 :: pid in out.pids <==>
                                     exists i | 0 <= i < |procs| :: procs[i].pid == pid && canon(procs[i].exe) == canon(r.match_.exe))
              && (forall pid | pid in out.pids :: out.pids[pid] == PolicyFor(r))
  {
    assert ValidRule(r) && !Suffers(r, NoSelector) && !Suffers(r, SeveralSelectors);
    forall pid: u32
      ensures pid in out.pids <==> SelectsPid(r, procs, canon, pid)
      ensures pid in out.pids ==> out.pids[pid] == PolicyFor(r)
    {
      assert EntryFor(out.pids, pid, PidRules(rs.rules, procs, canon, pid));
      assert PidRules(rs.rules, procs, canon, pid) == if SelectsPid(r, procs, canon, pid) then {r} else {};
    }
    forall key: CommKey
      ensures key in out.comms <==> SelectsComm(r, key)
      ensures key in out.comms ==> out.comms[key] == PolicyFor(r)
    {
      assert EntryFor(out.comms, key, CommRules(rs.rules, key));
      assert CommRules(rs.rules, key) == if SelectsComm(r, key) then {r} else {};
    }
  }

  /** What it is to select a running process, in the words of the rule file. */
  predicate SelectsProcess(r: Rule, canon: Canon, process: Process, comm: Str) {
    r.enabled &&
    (|| r.match_.pid == Some(process.pid)
     || (r.match_.comm != [] && NamesTask(r.match_.comm, comm))
     || (r.match_.exe != [] && canon(r.match_.exe) == canon(process.exe)))
  }

  /** For a process of the snapshot, the rules behind the two table entries are those whose selector names the
      process, its task name or its executable. */
  lemma SelectingRules(rs: Ruleset, procs: seq<Process>, canon: Canon, process: Process, comm: Str)
    requires ValidRuleset(rs) && process in procs && NulFree(comm) && |comm| < 16
    requires forall p | p in procs && p.pid == process.pid :: p == process
    ensures PidRules(rs.rules, procs, canon, process.pid) + CommRules(rs.rules, CommKeyOf(comm)) ==
            set r | r in rs.rules && SelectsProcess(r, canon, process, comm)
  {
    forall r | r in rs.rules
      ensures SelectsPid(r, procs, canon, process.pid) || SelectsComm(r, CommKeyOf(comm)) <==>
              SelectsProcess(r, canon, process, comm)
    {
      assert !Suffers(r, NoSelector) && !Suffers(r, SeveralSelectors) && !Suffers(r, CommTooLong);
      CommKeysSeparateNames(r.match_.comm, comm);
      RunsAsItself(procs, canon, process, r.match_.exe);
    }
  }

  /** How closely a selector names a process: by number, by executable, by task name. */
  function Rank(r: Rule): nat {
    if r.match_.pid.Some? then 0 else if r.match_.exe != [] then 1 else 2
  }

  /** The documented order written out: the closer selector; among equals the smaller priority; among equals hide before
      rewrite; among equals the id that comes first. */
  predicate Precedes(a: Rule, b: Rule) {
    || Rank(a) < Rank(b)
    || (Rank(a) == Rank(b) && a.priority < b.priority)
    || (Rank(a) == Rank(b) && a.priority == b.priority && a.action.kind.Hide? && b.action.kind.Rewrite?)
    || (Rank(a) == Rank(b) && a.priority == b.priority && a.action.kind == b.action.kind && ComesBefore(a.id, b.id))
  }

  lemma BeatsIsDocumentedOrder(a: Rule, b: Rule)
    requires ValidRule(a) && ValidRule(b)
    ensures Beats(a, b) <==> Precedes(a, b)
  {
    assert !Suffers(a, NoSelector) && !Suffers(a, SeveralSelectors) && !Suffers(a, UnsupportedAction);
    assert !Suffers(b, NoSelector) && !Suffers(b, SeveralSelectors) && !Suffers(b, UnsupportedAction);
    LessIsByteOrder(a.id, b.id);
  }

  /** The rules whose selector names the process. */
  function RulesFor(rs: Ruleset, canon: Canon, process: Process, comm: Str): set<Rule> {
    set r | r in rs.rules && SelectsProcess(r, canon, process, comm)
  }

  /** Main result: for a process of the snapshot, the kernel finds the policy of the rule that precedes all other rules
      whose selector names the process in the documented order, and none exactly when there is no such rule. */
  lemma ProcessGetsBestRule(rs: Ruleset, procs: seq<Process>, canon: Canon, out: Compiled, k: Kernel,
                            process: Process, comm: Str, t: Thread)
    requires ValidRuleset(rs) && IsCompilation(rs.rules, procs, canon, out)
    requires k.policies == out.pids && k.commPolicies == out.comms
    requires process in procs && t.tgid == process.pid && NulFree(comm) && |comm| < 16
    requires forall p | p in procs && p.pid == process.pid :: p == process
    ensures LookupPolicy(k, t, CommKeyOf(comm)).None? <==> RulesFor(rs, canon, process, comm) == {}
    ensures RulesFor(rs, canon, process, comm) != {} ==>
              exists r | r in RulesFor(rs, canon, process, comm) ::
                && LookupPolicy(k, t, CommKeyOf(comm)) == Some(PolicyFor(r))
                && forall q | q in RulesFor(rs, canon, process, comm) && q != r :: Precedes(r, q)
  {
    var selecting := RulesFor(rs, canon, process, comm);
    SelectingRules(rs, procs, canon, process, comm);
    LookupFindsBestRule(rs, procs, canon, out, k, t, CommKeyOf(comm));
    if selecting != {} {
      var r :| Champion(selecting, r) && LookupPolicy(k, t, CommKeyOf(comm)) == Some(PolicyFor(r));
      forall q | q in selecting && q != r
        ensures Precedes(r, q)
      {
        BeatsIsDocumentedOrder(r, q);
      }
    }
  }

  /** Two rules that name the same process: in either order of the list, the one with the closer selector wins, then the
      one with the smaller priority, then the one that hides, then the one whose id comes first. */
  lemma TwoRulesForOneProcess(rs: Ruleset, procs: seq<Process>, canon: Canon, out: Compiled, k: Kernel,
                              process: Process, comm: Str, t: Thread, a: Rule, b: Rule)
    requires ValidRuleset(rs) && IsCompilation(rs.rules, procs, canon, out) && (rs.rules == [a, b] || rs.rules == [b, a])
    requires k.policies == out.pids && k.commPolicies == out.comms
    requires process in procs && t.tgid == process.pid && NulFree(comm) && |comm| < 16
    requires forall p | p in procs && p.pid == process.pid :: p == process
    requires SelectsProcess(a, canon, process, comm) && SelectsProcess(b, canon, process, comm)
    ensures a.match_.pid.Some? && b.match_.pid.None? ==> LookupPolicy(k, t, CommKeyOf(comm)) == Some(PolicyFor(a))
    ensures a.match_.exe != [] && b.match_.comm != [] ==> LookupPolicy(k, t, CommKeyOf(comm)) == Some(PolicyFor(a))
    ensures a.match_ == b.match_ && a.priority < b.priority ==>
              LookupPolicy(k, t, CommKeyOf(comm)) == Some(PolicyFor(a))
    ensures a.match_ == b.match_ && a.priority == b.priority && a.action.kind.Hide? && b.action.kind.Rewrite? ==>
              LookupPolicy(k, t, CommKeyOf(comm)) == Some(PolicyFor(a))
    ensures a.match_ == b.match_ && a.priority == b.priority && a.action.kind == b.action.kind && ComesBefore(a.id, b.id) ==>
              LookupPolicy(k, t, CommKeyOf(comm)) == Some(PolicyFor(a))
  {
    ProcessGetsBestRule(rs, procs, canon, out, k, process, comm, t);
    var selecting := RulesFor(rs, canon, process, comm);
    assert rs.rules[0] in rs.rules && rs.rules[1] in rs.rules;
    assert a in selecting && b in selecting;
    assert ValidRule(a) && ValidRule(b);
    assert !Suffers(a, SeveralSelectors) && !Suffers(b, SeveralSelectors);
    assert !Suffers(a, UnsupportedAction) && !Suffers(b, UnsupportedAction);
    BeatsIsDocumentedOrder(a, b);
    BeatsIsDocumentedOrder(b, a);
    BeatsIsTotal(a, b);
  }

  lemma RunsAsItself(procs: seq<Process>, canon: Canon, process: Process, exe: Str)
    requires process in procs && forall p | p in procs && p.pid == process.pid :: p == process
    ensures RunsAs(procs, canon, process.pid, exe) <==> canon(process.exe) == canon(exe)
  {
    var i :| 0 <= i < |procs| && procs[i] == process;
    assert forall j | 0 <= j < |procs| :: procs[j] in procs;
  }

  /** The gates a policy has to pass in the kernel: a known action, a path that is not empty and ends in its field,
      and for a rewrite a text of 1 to 64 bytes. */
  predicate PassesGates(p: Policy) {
    && (p.action == ACTION_HIDE || Rewrites(p))
    && 0 < |CString(p.targetPath)| < MAX_PATH_LEN
  }

  /** Validation is enough: every policy of a compiled table passes the gates. */
  lemma EmittedPoliciesPassGates(rs: Ruleset, procs: seq<Process>, canon: Canon, out: Compiled)
    requires ValidRuleset(rs) && IsCompilation(rs.rules, procs, canon, out)
    ensures forall pid | pid in out.pids :: PassesGates(out.pids[pid])
    ensures forall key | key in out.comms :: PassesGates(out.comms[key])
  {
    forall pid | pid in out.pids
      ensures PassesGates(out.pids[pid])
    {
      assert EntryFor(out.pids, pid, PidRules(rs.rules, procs, canon, pid));
      var r :| Champion(PidRules(rs.rules, procs, canon, pid), r) && out.pids[pid] == PolicyFor(r);
      ValidRulePassesGates(r);
    }
    forall key | key in out.comms
      ensures PassesGates(out.comms[key])
    {
      assert EntryFor(out.comms, key, CommRules(rs.rules, key));
      var r :| Champion(CommRules(rs.rules, key), r) && out.comms[key] == PolicyFor(r);
      ValidRulePassesGates(r);
    }
  }

  lemma ValidRulePassesGates(r: Rule)
    requires ValidRule(r)
    ensures PassesGates(PolicyFor(r))
  {
    assert !Suffers(r, RelativePath) && !Suffers(r, PathTooLong) && !Suffers(r, UnsupportedAction);
    assert !Suffers(r, MissingFind) && !Suffers(r, LengthsDiffer) && !Suffers(r, TextTooLong);
    var field := Fixed(64, r.match_.path);
    assert field[0] == r.match_.path[0] && field[63] == 0;
  }
}
