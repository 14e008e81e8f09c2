/** Interleavings of the control service: reloads and runtime applies, background loops old and new, table updates
    outside the lock, and Close. Every section under the lock and every table update is one step. */
module ServiceRuns {
  import opened Bytes
  import opened Rules
  import opened Compiler
  import opened Service

  /** A reload or runtime apply: compiled, then applied to the tables or failed there. */
  datatype ApplyPhase = Ready | Applied | Broken

  datatype Apply = Apply(rs: Ruleset, compiled: Compiled, phase: ApplyPhase)

  /** A background loop: waiting for its ticker, then going through the stages of one round. */
  datatype LoopPhase = Waiting | Fresh(c: Compiled) | Checked(c: Compiled) | LoopApplied(c: Compiled) | LoopBroken

  datatype Loop = Loop(revision: nat, rs: Ruleset, cancelled: bool, phase: LoopPhase)

  /** `tables` is what the kernel maps hold. Operations in progress are kept under numbers of their own. */
  datatype World = World(fields: Fields, tables: Compiled, applies: map<nat, Apply>, loops: map<nat, Loop>)

  datatype Step =
    | BeginApply(id: nat, rs: Ruleset, compiled: Compiled)
    | ApplyTables(id: nat)
    | BreakTables(id: nat, left: Compiled)
    | CommitApply(id: nat, loop: nat)
    | FailApply(id: nat)
    | Compile(id: nat, result: Compiled)
    | FailCompile(id: nat)
    | Check(id: nat)
    | LoopTables(id: nat)
    | LoopBreakTables(id: nat, left: Compiled)
    | CommitLoop(id: nat)
    | FailLoop(id: nat)
    | ExitLoop(id: nat)
    | CloseService

  /** The tables are a compilation of the rules for some snapshot of the processes and of the file system. */
  ghost predicate CompilesTo(rs: Ruleset, out: Compiled) {
    ValidRuleset(rs) && exists procs: seq<Process>, canon: Canon :: IsCompilation(rs.rules, procs, canon, out)
  }

  ghost predicate Enabled(w: World, e: Step) {
    match e
    case BeginApply(id, rs, compiled) => id !in w.applies && CompilesTo(rs, compiled)
    case ApplyTables(id) => id in w.applies && w.applies[id].phase.Ready?
    case BreakTables(id, _) => id in w.applies && w.applies[id].phase.Ready?
    case CommitApply(id, loop) => id in w.applies && w.applies[id].phase.Applied? && loop !in w.loops
    case FailApply(id) => id in w.applies && w.applies[id].phase.Broken?
    case Compile(id, result) => id in w.loops && w.loops[id].phase.Waiting? && CompilesTo(w.loops[id].rs, result)
    case FailCompile(id) => id in w.loops && w.loops[id].phase.Waiting?
    case Check(id) => id in w.loops && w.loops[id].phase.Fresh?
    case LoopTables(id) => id in w.loops && w.loops[id].phase.Checked?
    case LoopBreakTables(id, _) => id in w.loops && w.loops[id].phase.Checked?
    case CommitLoop(id) => id in w.loops && w.loops[id].phase.LoopApplied?
    case FailLoop(id) => id in w.loops && w.loops[id].phase.LoopBroken?
    case ExitLoop(id) => id in w.loops && w.loops[id].phase.Waiting? && w.loops[id].cancelled
    case CloseService => true
  }

  /** Cancelling the context of the loop with a revision; the loop may still finish its round and start another. */
  function Cancel(loops: map<nat, Loop>, revision: Option<nat>): map<nat, Loop> {
    map id | id in loops ::
      if revision == Some(loops[id].revision) then loops[id].(cancelled := true) else loops[id]
  }

  function Moved(w: World, id: nat, phase: LoopPhase): map<nat, Loop>
    requires id in w.loops
  {
    w.loops[id := w.loops[id].(phase := phase)]
  }

  function Failed(s: Fields, failure: Failure): Fields {
    s.(error := Some(failure))
  }

  ghost function Next(w: World, e: Step): World
    requires Enabled(w, e)
  {
    var s := w.fields;
    match e
    case BeginApply(id, rs, compiled) => w.(applies := w.applies[id := Apply(rs, compiled, Ready)])
    case ApplyTables(id) =>
      w.(tables := w.applies[id].compiled, applies := w.applies[id := w.applies[id].(phase := Applied)])
    case BreakTables(id, left) =>
      w.(tables := left, applies := w.applies[id := w.applies[id].(phase := Broken)])
    case CommitApply(id, loop) =>
      var a := w.applies[id];
      var s' := Committed(s, a.rs, a.compiled);
      var others := Cancel(w.loops, s.cancel);
      w.(fields := s', applies := w.applies - {id},
         loops := if s'.cancel.Some? then others[loop := Loop(s'.syncRevision, a.rs, false, Waiting)] else others)
    case FailApply(id) => w.(fields := Failed(s, ApplyFailed), applies := w.applies - {id})
    case Compile(id, result) => w.(loops := Moved(w, id, Fresh(result)))
    case FailCompile(id) => w.(fields := Failed(s, CompileFailed))
    case Check(id) =>
      var l := w.loops[id];
      w.(loops := Moved(w, id, if MayApply(s, l.revision, l.phase.c) then Checked(l.phase.c) else Waiting))
    case LoopTables(id) =>
      w.(tables := w.loops[id].phase.c, loops := Moved(w, id, LoopApplied(w.loops[id].phase.c)))
    case LoopBreakTables(id, left) => w.(tables := left, loops := Moved(w, id, LoopBroken))
    case CommitLoop(id) =>
      var l := w.loops[id];
      w.(fields := LoopCommitted(s, l.revision, l.phase.c), loops := Moved(w, id, Waiting))
    case FailLoop(id) => w.(fields := Failed(s, ApplyFailed), loops := Moved(w, id, Waiting))
    case ExitLoop(id) => w.(loops := w.loops - {id})
    case CloseService => w.(fields := s.(cancel := None), loops := Cancel(w.loops, s.cancel))
  }

  /** A new service; the tables may hold anything. */
  ghost predicate Init(w: World) {
    && w.fields == Fields(Ruleset(0, []), Compiled(map[], map[]), false, None, 0, 0, None)
    && w.applies == map[] && w.loops == map[]
  }

  ghost predicate IsRun(w: World, es: seq<Step>)
    decreases |es|
  {
    es == [] || (Enabled(w, es[0]) && IsRun(Next(w, es[0]), es[1..]))
  }

  ghost function After(w: World, es: seq<Step>): World
    requires IsRun(w, es)
    decreases |es|
  {
    if es == [] then w else After(Next(w, es[0]), es[1..])
  }

  // ----- what is recorded is a compilation of what is recorded -----

  ghost predicate LoopInv(s: Fields, l: Loop) {
    && 1 <= l.revision <= s.syncRevision
    && (l.revision == s.syncRevision ==> l.rs == s.ruleset)
    && (l.phase.Fresh? || l.phase.Checked? || l.phase.LoopApplied? ==> CompilesTo(l.rs, l.phase.c))
  }

  ghost predicate LoopsInv(s: Fields, loops: map<nat, Loop>) {
    && (forall id | id in loops :: LoopInv(s, loops[id]))
    && (forall a, b | a in loops && b in loops && a != b :: loops[a].revision != loops[b].revision)
  }

  ghost predicate FieldsInv(s: Fields) {
    && (s.loaded <==> s.syncRevision > 0)
    && (s.loaded ==> CompilesTo(s.ruleset, s.compiled))
    && (s.cancel.Some? ==> s.cancel.value == s.syncRevision)
    && s.syncRevision <= s.generation
  }

  ghost predicate Consistent(w: World) {
    && FieldsInv(w.fields)
    && (forall id | id in w.applies :: CompilesTo(w.applies[id].rs, w.applies[id].compiled))
    && LoopsInv(w.fields, w.loops)
  }

  lemma FieldsStep(w: World, e: Step)
    requires Enabled(w, e) && Consistent(w)
    ensures FieldsInv(Next(w, e).fields)
  {
    if e.CommitLoop? {
      assert LoopInv(w.fields, w.loops[e.id]);
    }
  }

  /** Moving a loop on, or dropping it, keeps what is known of the loops. */
  lemma LoopMoves(s: Fields, loops: map<nat, Loop>, id: nat, phase: LoopPhase)
    requires LoopsInv(s, loops) && id in loops
    requires LoopInv(s, loops[id].(phase := phase))
    ensures LoopsInv(s, loops[id := loops[id].(phase := phase)])
    ensures LoopsInv(s, loops - {id})
  {
  }

  lemma CancelKeeps(s: Fields, loops: map<nat, Loop>, revision: Option<nat>)
    requires LoopsInv(s, loops)
    ensures LoopsInv(s, Cancel(loops, revision))
  {
  }

  /** A commit of a ruleset raises the revision above that of every loop. */
  lemma LoopStarts(s: Fields, loops: map<nat, Loop>, rs: Ruleset, compiled: Compiled, id: nat)
    requires LoopsInv(s, loops) && id !in loops
    ensures LoopsInv(Committed(s, rs, compiled), loops)
    ensures LoopsInv(Committed(s, rs, compiled), loops[id := Loop(s.syncRevision + 1, rs, false, Waiting)])
  {
    var s' := Committed(s, rs, compiled);
    forall i | i in loops
      ensures LoopInv(s', loops[i]) && loops[i].revision < s'.syncRevision
    {
      assert LoopInv(s, loops[i]);
    }
  }

  lemma LoopsStep(w: World, e: Step)
    requires Enabled(w, e) && Consistent(w)
    ensures LoopsInv(Next(w, e).fields, Next(w, e).loops)
  {
    var s := w.fields;
    match e
    case CommitApply(id, loop) =>
      CancelKeeps(s, w.loops, s.cancel);
      LoopStarts(s, Cancel(w.loops, s.cancel), w.applies[id].rs, w.applies[id].compiled, loop);
    case CloseService => CancelKeeps(s, w.loops, s.cancel);
    case Compile(id, result) => LoopMoves(s, w.loops, id, Fresh(result));
    case Check(id) => LoopMoves(s, w.loops, id, Next(w, e).loops[id].phase);
    case LoopTables(id) => LoopMoves(s, w.loops, id, LoopApplied(w.loops[id].phase.c));
    case LoopBreakTables(id, _) => LoopMoves(s, w.loops, id, LoopBroken);
    case CommitLoop(id) => LoopMoves(s, w.loops, id, Waiting);
    case FailLoop(id) => LoopMoves(s, w.loops, id, Waiting);
    case ExitLoop(id) => LoopMoves(s, w.loops, id, Waiting);
    case _ =>
  }

  lemma ConsistentStep(w: World, e: Step)
    requires Enabled(w, e) && Consistent(w)
    ensures Consistent(Next(w, e))
  {
    FieldsStep(w, e);
    LoopsStep(w, e);
  }

  lemma {:induction false} ConsistentOverRun(w: World, es: seq<Step>)
    requires IsRun(w, es) && Consistent(w)
    ensures Consistent(After(w, es))
    decreases |es|
  {
    if es != [] {
      ConsistentStep(w, es[0]);
      ConsistentOverRun(Next(w, es[0]), es[1..]);
    }
  }

  /** Main result: in every interleaving, what the service records as compiled is a compilation of the ruleset it
      records, for some snapshot. At most one loop carries the current revision, it works on the recorded ruleset,
      and there have been at least as many commits as revisions. */
  lemma RecordedStateIsCompiled(w: World, es: seq<Step>)
    requires Init(w) && IsRun(w, es)
    ensures var v := After(w, es);
            && (v.fields.loaded ==> CompilesTo(v.fields.ruleset, v.fields.compiled))
            && (forall a, b | a in v.loops && b in v.loops && v.loops[a].revision == v.loops[b].revision :: a == b)
            && (forall id | id in v.loops && v.loops[id].revision == v.fields.syncRevision ::
                  v.loops[id].rs == v.fields.ruleset)
            && v.fields.syncRevision <= v.fields.generation
  {
    ConsistentOverRun(w, es);
    var v := After(w, es);
    assert forall id | id in v.loops :: LoopInv(v.fields, v.loops[id]);
  }

  /** The loop takes the step. */
  predicate OfLoop(e: Step, id: nat) {
    match e
    case Compile(i, _) => i == id
    case FailCompile(i) => i == id
    case Check(i) => i == id
    case LoopTables(i) => i == id
    case LoopBreakTables(i, _) => i == id
    case CommitLoop(i) => i == id
    case FailLoop(i) => i == id
    case ExitLoop(i) => i == id
    case _ => false
  }

  /** A superseded loop commits nothing, neither at the end of its round nor later: revisions only grow, so it stays
      superseded. All it can do to the record is to set the error, when it fails to compile or to apply: those writes do
      not look at the revision. */
  lemma SupersededLoopNeverCommits(w: World, e: Step, id: nat)
    requires Enabled(w, e) && Consistent(w) && id in w.loops && w.loops[id].revision != w.fields.syncRevision
    ensures OfLoop(e, id) ==>
              Next(w, e).fields == if e.FailCompile? then w.fields.(error := Some(CompileFailed))
                                   else if e.FailLoop? then w.fields.(error := Some(ApplyFailed))
                                   else w.fields
    ensures id in Next(w, e).loops ==>
              Next(w, e).loops[id].revision == w.loops[id].revision != Next(w, e).fields.syncRevision
  {
    assert LoopInv(w.fields, w.loops[id]);
  }

  // ----- rounds and loops -----

  /** A round goes on to the tables exactly when what it compiled differs from the record and its revision is current;
      otherwise the loop waits for its next tick, and nothing else has changed. */
  lemma CheckDecides(w: World, id: nat)
    requires Enabled(w, Check(id))
    ensures var c, v := w.loops[id].phase.c, Next(w, Check(id));
            && v.fields == w.fields && v.tables == w.tables
            && v.loops[id].phase == if c != w.fields.compiled && w.loops[id].revision == w.fields.syncRevision
                                    then Checked(c) else Waiting
  {
  }

  /** A loop that has not been cancelled is the one whose cancel function is stored. */
  ghost predicate LiveLoops(w: World) {
    forall id | id in w.loops && !w.loops[id].cancelled :: w.fields.cancel == Some(w.loops[id].revision)
  }

  lemma LiveLoopsStep(w: World, e: Step)
    requires Enabled(w, e) && LiveLoops(w)
    ensures LiveLoops(Next(w, e))
  {
  }

  /** In every run, whatever loops are still in their round, at most one has not been cancelled; after Close none. */
  lemma {:induction false} LiveLoopsOverRun(w: World, es: seq<Step>)
    requires IsRun(w, es) && LiveLoops(w)
    ensures LiveLoops(After(w, es))
    ensures var v := Next(After(w, es), CloseService);
            v.fields.cancel.None? && forall id | id in v.loops :: v.loops[id].cancelled
    decreases |es|
  {
    if es != [] {
      LiveLoopsStep(w, es[0]);
      LiveLoopsOverRun(Next(w, es[0]), es[1..]);
    }
  }

  /** A commit of a ruleset cancels every loop there is, and starts one for the new ruleset exactly when some enabled rule
      names an executable. */
  lemma CommitReplacesLoop(w: World, id: nat, loop: nat)
    requires Enabled(w, CommitApply(id, loop)) && LiveLoops(w)
    ensures var rs, v := w.applies[id].rs, Next(w, CommitApply(id, loop));
            && (forall i | i in w.loops :: i in v.loops && v.loops[i].cancelled)
            && (if exists r | r in rs.rules :: r.enabled && r.match_.exe != []
                then v.loops.Keys == w.loops.Keys + {loop}
                     && v.loops[loop] == Loop(v.fields.syncRevision, rs, false, Waiting)
                else v.loops.Keys == w.loops.Keys)
  {
  }

  // ----- errors -----

  /** The failure that the step records. */
  function FailureOf(e: Step): Option<Failure> {
    match e
    case FailApply(_) => Some(ApplyFailed)
    case FailCompile(_) => Some(CompileFailed)
    case FailLoop(_) => Some(ApplyFailed)
    case _ => None
  }

  /** A commit clears the error. */
  lemma CommitClearsError(w: World, e: Step)
    requires Enabled(w, e)
    ensures e.CommitApply? ==> Next(w, e).fields.error.None?
    ensures e.CommitLoop? && w.loops[e.id].revision == w.fields.syncRevision ==> Next(w, e).fields.error.None?
  {
  }

  ghost predicate AnyCommit(w: World, es: seq<Step>)
    requires IsRun(w, es)
    decreases |es|
  {
    es != [] && (Commits(w, es[0]) || AnyCommit(Next(w, es[0]), es[1..]))
  }

  /** The last failure of the run, unless something was committed after it. */
  ghost function StandingFailure(w: World, es: seq<Step>): Option<Failure>
    requires IsRun(w, es)
    decreases |es|
  {
    if es == [] then None
    else if StandingFailure(Next(w, es[0]), es[1..]).Some? then StandingFailure(Next(w, es[0]), es[1..])
    else if AnyCommit(Next(w, es[0]), es[1..]) then None
    else FailureOf(es[0])
  }

  lemma {:induction false} ErrorOverRun(w: World, es: seq<Step>)
    requires IsRun(w, es)
    ensures After(w, es).fields.error ==
            if StandingFailure(w, es).Some? then StandingFailure(w, es)
            else if AnyCommit(w, es) then None else w.fields.error
    decreases |es|
  {
    if es != [] {
      CommitClearsError(w, es[0]);
      ErrorOverRun(Next(w, es[0]), es[1..]);
    }
  }

  /** Main result: in every interleaving, the error on record is the last failure after the last commit, if any. */
  lemma ErrorIsLastFailure(w: World, es: seq<Step>)
    requires Init(w) && IsRun(w, es)
    ensures After(w, es).fields.error == StandingFailure(w, es)
  {
    ErrorOverRun(w, es);
  }

  // ----- generations -----

  /** The steps that commit something to the record. */
  predicate Commits(w: World, e: Step) {
    e.CommitApply? ||
    (e.CommitLoop? && e.id in w.loops && w.loops[e.id].revision == w.fields.syncRevision)
  }

  ghost function CommitCount(w: World, es: seq<Step>): nat
    requires IsRun(w, es)
    decreases |es|
  {
    if es == [] then 0 else (if Commits(w, es[0]) then 1 else 0) + CommitCount(Next(w, es[0]), es[1..])
  }

  ghost function ApplyCount(es: seq<Step>): nat {
    if es == [] then 0 else (if es[0].CommitApply? then 1 else 0) + ApplyCount(es[1..])
  }

  /** Main result: the generation counts commits and nothing else, the revision counts full applies, and two moments
      of a run with the same generation have the same recorded ruleset and tables. */
  lemma {:induction false} GenerationCountsCommits(w: World, es: seq<Step>)
    requires IsRun(w, es)
    ensures var s, s' := w.fields, After(w, es).fields;
            && s'.generation == s.generation + CommitCount(w, es)
            && s'.syncRevision == s.syncRevision + ApplyCount(es)
            && (s'.generation == s.generation ==>
                s'.ruleset == s.ruleset && s'.compiled == s.compiled && s'.loaded == s.loaded)
    decreases |es|
  {
    if es != [] {
      GenerationCountsCommits(Next(w, es[0]), es[1..]);
    }
  }
}
