/** What a task experiences while both tables are replaced: each table is replaced without a gap, but the two are
    replaced one after the other. */
module LiveUpdates {
  import opened Bytes
  import opened Encoding
  import opened KernelSpec
  import opened Rules
  import opened Compiler
  import opened Tables
  import opened ExampleRules

  /** The policy the kernel finds for a task under the given tables. */
  function Governing(tables: Compiled, t: Thread, comm: CommKey): Option<Policy> {
    var none := Memory(map[], {});
    LookupPolicy(Kernel(tables.pids, tables.comms, map[], {}, map[], map[], map[], none, []), t, comm)
  }

  function ByName(tables: Compiled, comm: CommKey): Option<Policy> {
    if comm in tables.comms then Some(tables.comms[comm]) else None
  }

  /** The task is governed by its old or by its new policy at every moment of the update. */
  ghost predicate OldOrNew(old_: Compiled, new_: Compiled, t: Thread, comm: CommKey) {
    forall now | Moment(old_, new_, now) ::
      Governing(now, t, comm) == Governing(old_, t, comm) || Governing(now, t, comm) == Governing(new_, t, comm)
  }

  /** The process has an entry of its own that the update takes away, and the old entry for its name differs both from
      that and from the new entry for its name. */
  predicate FallsThrough(old_: Compiled, new_: Compiled, t: Thread, comm: CommKey) {
    && t.tgid in old_.pids && t.tgid !in new_.pids
    && ByName(old_, comm) != Some(old_.pids[t.tgid]) && ByName(old_, comm) != ByName(new_, comm)
  }

  /** The moment at which the process table is done and the task table still untouched; every successful update passes
      through it. */
  function HalfWay(old_: Compiled, new_: Compiled): Compiled {
    Compiled(new_.pids, old_.comms)
  }

  lemma FallingThrough(old_: Compiled, new_: Compiled, t: Thread, comm: CommKey)
    requires FallsThrough(old_, new_, t, comm)
    ensures var now := HalfWay(old_, new_);
            && Moment(old_, new_, now) && Governing(now, t, comm) == ByName(old_, comm)
            && Governing(now, t, comm) != Governing(old_, t, comm)
            && Governing(now, t, comm) != Governing(new_, t, comm)
  {
    EndsAreBetween(old_.comms, new_.comms);
  }

  /** Main result: a task is governed by its old or its new policy throughout, exactly unless it falls through its own
      entry to the old one for its name. */
  lemma {:induction false} OldOrNewThroughout(old_: Compiled, new_: Compiled, t: Thread, comm: CommKey)
    ensures OldOrNew(old_, new_, t, comm) <==> !FallsThrough(old_, new_, t, comm)
  {
    if FallsThrough(old_, new_, t, comm) {
      FallingThrough(old_, new_, t, comm);
      var now := HalfWay(old_, new_);
      assert Moment(old_, new_, now);
    } else {
      forall now | Moment(old_, new_, now)
        ensures Governing(now, t, comm) == Governing(old_, t, comm) || Governing(now, t, comm) == Governing(new_, t, comm)
      {
        AtMoment(old_, new_, now, t, comm);
      }
    }
  }

  lemma AtMoment(old_: Compiled, new_: Compiled, now: Compiled, t: Thread, comm: CommKey)
    requires Moment(old_, new_, now) && !FallsThrough(old_, new_, t, comm)
    ensures Governing(now, t, comm) == Governing(old_, t, comm) || Governing(now, t, comm) == Governing(new_, t, comm)
  {
  }

  /** A process whose own rule is replaced by one for its name is for a moment governed by nothing. */
  lemma NothingGoverns(t: Thread, procs: seq<Process>, canon: Canon)
    requires t.tgid == PID
    ensures ValidRuleset(Ruleset(1, [OwnRule()])) && ValidRuleset(Ruleset(1, [LaterNameRule()]))
    ensures var old_ := Compiled(ProcessTable(OwnRule()), map[]);
            var new_ := Compiled(map[], NameTable(LaterNameRule()));
            && IsCompilation([OwnRule()], procs, canon, old_) && IsCompilation([LaterNameRule()], procs, canon, new_)
            && Governing(old_, t, CommKeyOf(COMM)) == Some(PolicyFor(OwnRule()))
            && Governing(HalfWay(old_, new_), t, CommKeyOf(COMM)) == None
            && Governing(new_, t, CommKeyOf(COMM)) == Some(PolicyFor(LaterNameRule()))
  {
    ExamplesAreValid();
    OwnRuleCompiles(procs, canon);
    LaterNameRuleCompiles(procs, canon);
  }

  /** If a rule for its name was there before, shadowed by its own, that rule governs it for a moment, although it
      does so neither before nor after. */
  lemma ShadowedRuleGoverns(t: Thread, procs: seq<Process>, canon: Canon)
    requires t.tgid == PID
    ensures ValidRuleset(Ruleset(1, [OwnRule(), NameRule()])) && ValidRuleset(Ruleset(1, [LaterNameRule()]))
    ensures var old_ := Compiled(ProcessTable(OwnRule()), NameTable(NameRule()));
            var new_ := Compiled(map[], NameTable(LaterNameRule()));
            && IsCompilation([OwnRule(), NameRule()], procs, canon, old_)
            && IsCompilation([LaterNameRule()], procs, canon, new_)
            && Governing(old_, t, CommKeyOf(COMM)) == Some(PolicyFor(OwnRule()))
            && Governing(HalfWay(old_, new_), t, CommKeyOf(COMM)) == Some(PolicyFor(NameRule()))
            && Governing(new_, t, CommKeyOf(COMM)) == Some(PolicyFor(LaterNameRule()))
            && PolicyFor(NameRule()).action == ACTION_REWRITE
            && PolicyFor(OwnRule()).action == PolicyFor(LaterNameRule()).action == ACTION_HIDE
  {
    ExamplesAreValid();
    BothRulesCompile(procs, canon);
    LaterNameRuleCompiles(procs, canon);
  }
}
