/** When the kernel tables are what the service records, and a run in which they silently are not. */
module TableSync {
  import opened Bytes
  import opened Rules
  import opened Compiler
  import opened Service
  import opened ServiceRuns
  import opened ExampleRules

  datatype Op = ApplyOp(id: nat) | LoopOp(id: nat)

  /** The operation has decided to change the tables, or has begun to, and has not yet recorded the outcome. A reload
      is in its section from its table update on, a loop already from the check that lets it pass. */
  ghost predicate InSection(w: World, op: Op) {
    match op
    case ApplyOp(id) => id in w.applies && !w.applies[id].phase.Ready?
    case LoopOp(id) => id in w.loops && !w.loops[id].phase.Waiting? && !w.loops[id].phase.Fresh?
  }

  ghost predicate Idle(w: World) {
    forall op :: !InSection(w, op)
  }

  /** The step enters a section only when no other operation is in one. */
  ghost predicate Exclusive(w: World, e: Step)
    requires Enabled(w, e)
  {
    e.ApplyTables? || e.BreakTables? || (e.Check? && Passes(w, e.id)) ==> Idle(w)
  }

  /** The check lets the loop pass. */
  predicate Passes(w: World, id: nat)
    requires id in w.loops && w.loops[id].phase.Fresh?
  {
    MayApply(w.fields, w.loops[id].revision, w.loops[id].phase.c)
  }

  ghost predicate ExclusiveRun(w: World, es: seq<Step>)
    requires IsRun(w, es)
    decreases |es|
  {
    es == [] || (Exclusive(w, es[0]) && ExclusiveRun(Next(w, es[0]), es[1..]))
  }

  /** What the status reported as "loaded, no error" promises. */
  predicate Synced(w: World) {
    ReportsValid(w.fields) ==> w.tables == w.fields.compiled
  }

  ghost predicate OpInv(w: World, op: Op)
    requires InSection(w, op)
  {
    match op
    case ApplyOp(id) => w.applies[id].phase.Applied? ==> w.tables == w.applies[id].compiled
    case LoopOp(id) =>
      var l := w.loops[id];
      && l.revision == w.fields.syncRevision
      && (l.phase.Checked? ==> Synced(w))
      && (l.phase.LoopApplied? ==> w.tables == l.phase.c)
  }

  ghost predicate TablesInv(w: World) {
    && (forall a, b | InSection(w, a) && InSection(w, b) :: a == b)
    && (forall op | InSection(w, op) :: OpInv(w, op))
    && (Idle(w) ==> Synced(w))
  }

  /** The operation that takes the step. */
  predicate Acts(e: Step, op: Op) {
    match e
    case BeginApply(id, _, _) => op == ApplyOp(id)
    case ApplyTables(id) => op == ApplyOp(id)
    case BreakTables(id, _) => op == ApplyOp(id)
    case CommitApply(id, _) => op == ApplyOp(id)
    case FailApply(id) => op == ApplyOp(id)
    case CloseService => false
    case _ => op == LoopOp(e.id)
  }

  lemma OthersStay(w: World, e: Step, op: Op)
    requires Enabled(w, e) && !Acts(e, op)
    ensures InSection(Next(w, e), op) <==> InSection(w, op)
    ensures op.ApplyOp? && op.id in w.applies ==> op.id in Next(w, e).applies && Next(w, e).applies[op.id] == w.applies[op.id]
    ensures op.LoopOp? && op.id in w.loops ==>
              (&& op.id in Next(w, e).loops
               && Next(w, e).loops[op.id].phase == w.loops[op.id].phase
               && Next(w, e).loops[op.id].revision == w.loops[op.id].revision)
  {
  }

  lemma EntersOnlyWhenIdle(w: World, e: Step, op: Op)
    requires Enabled(w, e) && Exclusive(w, e) && Acts(e, op) && InSection(Next(w, e), op)
    ensures InSection(w, op) || Idle(w)
  {
  }

  /** Two operations that are in a section after a step are the same. */
  lemma AloneInSection(w: World, e: Step, a: Op, b: Op)
    requires Enabled(w, e) && TablesInv(w) && Exclusive(w, e)
    requires InSection(Next(w, e), a) && InSection(Next(w, e), b)
    ensures a == b
  {
    if Acts(e, a) {
      EntersOnlyWhenIdle(w, e, a);
    } else {
      OthersStay(w, e, a);
    }
    if Acts(e, b) {
      EntersOnlyWhenIdle(w, e, b);
    } else {
      OthersStay(w, e, b);
    }
  }

  lemma SectionStep(w: World, e: Step, op: Op)
    requires Enabled(w, e) && TablesInv(w) && Exclusive(w, e)
    requires InSection(Next(w, e), op)
    ensures OpInv(Next(w, e), op)
  {
    if Acts(e, op) {
      assert InSection(w, op) ==> OpInv(w, op);
    } else {
      OthersStay(w, e, op);
      assert OpInv(w, op);
      assert forall other | InSection(w, other) :: other == op;
      NobodyElseCommits(w, e, op);
    }
  }

  /** Steps that end a section are taken from inside it; table updates leave their operation inside. */
  lemma SectionEnds(w: World, e: Step)
    requires Enabled(w, e)
    ensures e.CommitApply? || e.FailApply? ==> InSection(w, ApplyOp(e.id))
    ensures e.LoopTables? || e.LoopBreakTables? || e.CommitLoop? || e.FailLoop? ==> InSection(w, LoopOp(e.id))
    ensures e.ApplyTables? || e.BreakTables? ==> InSection(Next(w, e), ApplyOp(e.id))
    ensures e.LoopTables? || e.LoopBreakTables? ==> InSection(Next(w, e), LoopOp(e.id))
  {
  }

  /** While an operation is in its section, a step of another leaves tables and record alone, up to an error. */
  lemma NobodyElseCommits(w: World, e: Step, op: Op)
    requires Enabled(w, e) && TablesInv(w) && Exclusive(w, e) && InSection(w, op) && !Acts(e, op)
    ensures Next(w, e).tables == w.tables
    ensures Next(w, e).fields == w.fields.(error := Next(w, e).fields.error, cancel := Next(w, e).fields.cancel)
    ensures Next(w, e).fields.error.None? ==> w.fields.error.None?
  {
    SectionEnds(w, e);
  }

  lemma IdleStep(w: World, e: Step)
    requires Enabled(w, e) && TablesInv(w) && Exclusive(w, e) && Idle(Next(w, e))
    ensures Synced(Next(w, e))
  {
    SectionEnds(w, e);
    match e
    case ApplyTables(_) =>
    case BreakTables(_, _) =>
    case LoopTables(_) =>
    case LoopBreakTables(_, _) =>
    case FailApply(_) =>
    case FailLoop(_) =>
    case CommitApply(id, _) => assert OpInv(w, ApplyOp(id));
    case CommitLoop(id) => assert OpInv(w, LoopOp(id));
    case _ =>
      forall op
        ensures !InSection(w, op)
      {
        assert !InSection(Next(w, e), op);
        if !Acts(e, op) {
          OthersStay(w, e, op);
        }
      }
  }

  lemma TablesStep(w: World, e: Step)
    requires Enabled(w, e) && TablesInv(w) && Exclusive(w, e)
    ensures TablesInv(Next(w, e))
  {
    forall a, b | InSection(Next(w, e), a) && InSection(Next(w, e), b)
      ensures a == b
    {
      AloneInSection(w, e, a, b);
    }
    forall op | InSection(Next(w, e), op)
      ensures OpInv(Next(w, e), op)
    {
      SectionStep(w, e, op);
    }
    if Idle(Next(w, e)) {
      IdleStep(w, e);
    }
  }

  lemma {:induction false} TablesOverRun(w: World, es: seq<Step>)
    requires IsRun(w, es) && ExclusiveRun(w, es) && TablesInv(w)
    ensures TablesInv(After(w, es))
    decreases |es|
  {
    if es != [] {
      TablesStep(w, es[0]);
      TablesOverRun(Next(w, es[0]), es[1..]);
    }
  }

  /** Main result: as long as sections do not overlap, whenever no operation is in one, "loaded and no error" means
      that the kernel tables are the recorded ones; partly failed updates, superseded loops, rounds skipped because
      nothing changed and Close included. */
  lemma NoErrorMeansInSync(w: World, es: seq<Step>)
    requires Init(w) && IsRun(w, es) && ExclusiveRun(w, es) && Idle(After(w, es))
    ensures Synced(After(w, es))
  {
    TablesOverRun(w, es);
  }

  // ----- why the section of a loop has to begin at its check -----

  /** A loop passes its check; before it updates the tables, another ruleset is applied and committed from start to
      end; then the loop applies what it had compiled for the old ruleset, and finds itself superseded. */
  function StaleTrace(rs: Ruleset, c: Compiled, later: Compiled, rs': Ruleset, c': Compiled): seq<Step> {
    [BeginApply(0, rs, c), ApplyTables(0), CommitApply(0, 7)] +
    ([Compile(7, later), Check(7), BeginApply(1, rs', c')] +
     ([ApplyTables(1), CommitApply(1, 8), LoopTables(7)] + [CommitLoop(7)]))
  }

  lemma {:induction false} RunAppend(w: World, es: seq<Step>, fs: seq<Step>)
    requires IsRun(w, es) && IsRun(After(w, es), fs)
    ensures IsRun(w, es + fs) && After(w, es + fs) == After(After(w, es), fs)
    decreases |es|
  {
    if es == [] {
      assert es + fs == fs;
    } else {
      RunAppend(Next(w, es[0]), es[1..], fs);
      assert (es + fs)[1..] == es[1..] + fs;
    }
  }

  lemma RunOfOne(w: World, e: Step)
    requires Enabled(w, e)
    ensures IsRun(w, [e]) && After(w, [e]) == Next(w, e)
  {
    assert After(Next(w, e), []) == Next(w, e);
  }

  lemma RunOfThree(w: World, a: Step, b: Step, c: Step)
    requires Enabled(w, a) && Enabled(Next(w, a), b) && Enabled(Next(Next(w, a), b), c)
    ensures IsRun(w, [a, b, c]) && After(w, [a, b, c]) == Next(Next(Next(w, a), b), c)
  {
    RunOfOne(w, a);
    RunOfOne(Next(w, a), b);
    RunOfOne(Next(Next(w, a), b), c);
    RunAppend(Next(w, a), [b], [c]);
    RunAppend(w, [a], [b] + [c]);
    assert [a] + ([b] + [c]) == [a, b, c];
  }

  lemma FirstRulesetApplied(w: World, rs: Ruleset, c: Compiled)
    requires Init(w) && CompilesTo(rs, c) && SelectsByExe(rs)
    ensures IsRun(w, [BeginApply(0, rs, c), ApplyTables(0), CommitApply(0, 7)])
    ensures After(w, [BeginApply(0, rs, c), ApplyTables(0), CommitApply(0, 7)]) ==
            World(Fields(rs, c, true, None, 1, 1, Some(1)), c, map[], map[7 := Loop(1, rs, false, Waiting)])
  {
    RunOfThree(w, BeginApply(0, rs, c), ApplyTables(0), CommitApply(0, 7));
  }

  lemma LoopPassesCheck(w: World, rs: Ruleset, later: Compiled, rs': Ruleset, c': Compiled)
    requires w.fields.syncRevision == 1 && w.fields.compiled != later
    requires w.applies == map[] && w.loops == map[7 := Loop(1, rs, false, Waiting)]
    requires CompilesTo(rs, later) && CompilesTo(rs', c')
    ensures IsRun(w, [Compile(7, later), Check(7), BeginApply(1, rs', c')])
    ensures After(w, [Compile(7, later), Check(7), BeginApply(1, rs', c')]) ==
            w.(applies := map[1 := Apply(rs', c', Ready)], loops := map[7 := Loop(1, rs, false, Checked(later))])
  {
    RunOfThree(w, Compile(7, later), Check(7), BeginApply(1, rs', c'));
  }

  lemma LoopOverwrites(w: World, rs: Ruleset, later: Compiled, rs': Ruleset, c': Compiled)
    requires w.fields.syncRevision == 1 && w.fields.cancel == Some(1) && !SelectsByExe(rs')
    requires w.applies == map[1 := Apply(rs', c', Ready)] && w.loops == map[7 := Loop(1, rs, false, Checked(later))]
    ensures IsRun(w, [ApplyTables(1), CommitApply(1, 8), LoopTables(7)] + [CommitLoop(7)])
    ensures After(w, [ApplyTables(1), CommitApply(1, 8), LoopTables(7)] + [CommitLoop(7)]) ==
            World(Fields(rs', c', true, None, w.fields.generation + 1, 2, None), later, map[],
                  map[7 := Loop(1, rs, true, Waiting)])
  {
    RunOfThree(w, ApplyTables(1), CommitApply(1, 8), LoopTables(7));
    var v := After(w, [ApplyTables(1), CommitApply(1, 8), LoopTables(7)]);
    assert v.loops == map[7 := Loop(1, rs, true, LoopApplied(later))] && v.applies == map[];
    RunOfOne(v, CommitLoop(7));
    RunAppend(w, [ApplyTables(1), CommitApply(1, 8), LoopTables(7)], [CommitLoop(7)]);
  }

  /** Nothing is in progress, nothing is reported wrong, and no two table updates overlapped: each was finished and
      recorded, or dropped as superseded, before the next began. Yet the kernel enforces the old ruleset. */
  lemma StaleLoopOverwritesTables(w: World, rs: Ruleset, c: Compiled, later: Compiled, rs': Ruleset, c': Compiled)
    requires Init(w) && CompilesTo(rs, c) && CompilesTo(rs, later) && CompilesTo(rs', c')
    requires SelectsByExe(rs) && !SelectsByExe(rs') && later != c && later != c'
    ensures IsRun(w, StaleTrace(rs, c, later, rs', c'))
    ensures var v := After(w, StaleTrace(rs, c, later, rs', c'));
            && Idle(v) && ReportsValid(v.fields)
            && v.fields.ruleset == rs' && v.fields.compiled == c' && v.tables == later != c'
  {
    var t1: seq<Step> := [BeginApply(0, rs, c), ApplyTables(0), CommitApply(0, 7)];
    var t2: seq<Step> := [Compile(7, later), Check(7), BeginApply(1, rs', c')];
    var t3: seq<Step> := [ApplyTables(1), CommitApply(1, 8), LoopTables(7)] + [CommitLoop(7)];
    FirstRulesetApplied(w, rs, c);
    var w1 := After(w, t1);
    LoopPassesCheck(w1, rs, later, rs', c');
    var w2 := After(w1, t2);
    LoopOverwrites(w2, rs, later, rs', c');
    RunAppend(w1, t2, t3);
    RunAppend(w, t1, t2 + t3);
  }

  /** There are such rulesets: a process starts to run the executable that a rule names, and then the rules are
      withdrawn. The kernel goes on hiding from it. */
  lemma WithdrawnRuleStaysEnforced(w: World)
    requires Init(w)
    ensures var none, one := Compiled(map[], map[]), Compiled(ProcessTable(ExeRule()), map[]);
            var es := StaleTrace(Ruleset(1, [ExeRule()]), none, one, Ruleset(1, []), none);
            && IsRun(w, es) && Idle(After(w, es)) && ReportsValid(After(w, es).fields)
            && After(w, es).fields.ruleset.rules == [] && After(w, es).fields.compiled == none
            && After(w, es).tables.pids == map[PID := PolicyFor(ExeRule())]
  {
    var none, one := Compiled(map[], map[]), Compiled(ProcessTable(ExeRule()), map[]);
    var canon: Canon := path => path;
    ExamplesAreValid();
    ExeRuleCompiles(canon);
    NoRulesCompile([], canon);
    assert ExeRule() in [ExeRule()];
    assert PID in one.pids;
    StaleLoopOverwritesTables(w, Ruleset(1, [ExeRule()]), none, one, Ruleset(1, []), none);
  }

  // ----- and why an error need not be one of the recorded rules -----

  /** A ruleset is applied and replaced by another; then the loop of the first, which is still in its round, fails to
      compile. */
  function StaleErrorTrace(rs: Ruleset, c: Compiled, rs': Ruleset, c': Compiled): seq<Step> {
    [BeginApply(0, rs, c), ApplyTables(0), CommitApply(0, 7)] +
    ([BeginApply(1, rs', c'), ApplyTables(1), CommitApply(1, 8)] + [FailCompile(7)])
  }

  lemma LoopFailsLate(w: World, rs: Ruleset, rs': Ruleset, c': Compiled)
    requires w.fields.syncRevision == 1 && w.fields.cancel == Some(1) && CompilesTo(rs', c') && !SelectsByExe(rs')
    requires w.applies == map[] && w.loops == map[7 := Loop(1, rs, false, Waiting)]
    ensures var es := [BeginApply(1, rs', c'), ApplyTables(1), CommitApply(1, 8)] + [FailCompile(7)];
            IsRun(w, es) &&
            After(w, es) == World(Fields(rs', c', true, Some(CompileFailed), w.fields.generation + 1, 2, None), c', map[],
                                  map[7 := Loop(1, rs, true, Waiting)])
  {
    var es: seq<Step> := [BeginApply(1, rs', c'), ApplyTables(1), CommitApply(1, 8)];
    RunOfThree(w, es[0], es[1], es[2]);
    assert After(w, es).loops == map[7 := Loop(1, rs, true, Waiting)] && After(w, es).applies == map[];
    RunOfOne(After(w, es), FailCompile(7));
    RunAppend(w, es, [FailCompile(7)]);
  }

  /** Nothing is in progress and the kernel tables are the recorded ones, yet an error is reported that belongs to rules
      which are no longer recorded; and no loop is left that could clear it. */
  lemma StaleErrorIsCharged(w: World, rs: Ruleset, c: Compiled, rs': Ruleset, c': Compiled)
    requires Init(w) && CompilesTo(rs, c) && CompilesTo(rs', c') && SelectsByExe(rs) && !SelectsByExe(rs')
    ensures IsRun(w, StaleErrorTrace(rs, c, rs', c'))
    ensures var v := After(w, StaleErrorTrace(rs, c, rs', c'));
            && Idle(v) && v.fields.loaded && v.fields.error == Some(CompileFailed)
            && v.fields.ruleset == rs' && v.tables == v.fields.compiled == c'
            && forall id | id in v.loops :: v.loops[id].revision != v.fields.syncRevision && v.loops[id].cancelled
  {
    FirstRulesetApplied(w, rs, c);
    var w1 := After(w, [BeginApply(0, rs, c), ApplyTables(0), CommitApply(0, 7)]);
    LoopFailsLate(w1, rs, rs', c');
    RunAppend(w, [BeginApply(0, rs, c), ApplyTables(0), CommitApply(0, 7)],
              [BeginApply(1, rs', c'), ApplyTables(1), CommitApply(1, 8)] + [FailCompile(7)]);
  }

  /** There are such rulesets. */
  lemma WithdrawnRuleLeavesError(w: World)
    requires Init(w)
    ensures var none := Compiled(map[], map[]);
            var es := StaleErrorTrace(Ruleset(1, [ExeRule()]), none, Ruleset(1, []), none);
            && IsRun(w, es) && Idle(After(w, es)) && After(w, es).tables == After(w, es).fields.compiled
            && After(w, es).fields.ruleset.rules == [] && !ReportsValid(After(w, es).fields)
  {
    var none := Compiled(map[], map[]);
    var canon: Canon := path => path;
    ExamplesAreValid();
    ExeRuleCompiles(canon);
    NoRulesCompile([], canon);
    assert ExeRule() in [ExeRule()];
    StaleErrorIsCharged(w, Ruleset(1, [ExeRule()]), none, Ruleset(1, []), none);
  }
}
