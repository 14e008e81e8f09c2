/** The control service (internal/control/service.go): its fields, and what each section it runs under its lock does
    to them. `ServiceRuns` lets reloads, background loops and table updates interleave. */
module Service {
  import opened Bytes
  import opened Rules
  import opened Compiler
  import opened Tables

  datatype Failure = CompileFailed | ApplyFailed

  /** The fields the lock protects. `cancel` is the revision of the loop that the stored cancel function stops. */
  datatype Fields = Fields(ruleset: Ruleset, compiled: Compiled, loaded: bool, error: Option<Failure>,
                           generation: nat, syncRevision: nat, cancel: Option<nat>)

  /** The end of `applyRuntime`, with `restartSyncLocked`: record the ruleset, retire the old loop, and start a new one
      with the new revision if some rule needs the process list. */
  function Committed(s: Fields, rs: Ruleset, compiled: Compiled): Fields {
    Fields(rs, compiled, true, None, s.generation + 1, s.syncRevision + 1,
           if SelectsByExe(rs) then Some(s.syncRevision + 1) else None)
  }

  /** Whether the loop goes on to apply what it has compiled. */
  predicate MayApply(s: Fields, revision: nat, compiled: Compiled) {
    s.compiled != compiled && s.syncRevision == revision
  }

  /** The end of a round of `syncLoop`. */
  function LoopCommitted(s: Fields, revision: nat, compiled: Compiled): Fields {
    if s.syncRevision != revision then s
    else s.(compiled := compiled, error := None, generation := s.generation + 1)
  }

  /** The runtime state that status requests see; an unloaded service reports nothing but its error. */
  datatype RuntimeState = RuntimeState(loaded: bool, valid: bool, version: int, ruleCount: nat, pidPolicyCount: nat,
                                       commPolicyCount: nat, requiresProcessSync: bool, generation: nat,
                                       error: Option<Failure>)

  /** "Loaded and no error". */
  predicate ReportsValid(s: Fields) {
    s.loaded && s.error.None?
  }

  class ControlService {
    var ruleset: Ruleset
    var compiled: Compiled
    var loaded: bool
    var error: Option<Failure>
    var generation: nat
    var syncRevision: nat
    var cancel: Option<nat>

    ghost function State(): Fields
      reads this
    {
      Fields(ruleset, compiled, loaded, error, generation, syncRevision, cancel)
    }

    constructor ()
      ensures State() == Fields(Ruleset(0, []), Compiled(map[], map[]), false, None, 0, 0, None)
    {
      ruleset, compiled, loaded, error := Ruleset(0, []), Compiled(map[], map[]), false, None;
      generation, syncRevision, cancel := 0, 0, None;
    }

    /** `restartSyncLocked`: the revisions of the loop to cancel and of the loop to start. */
    method RestartSyncLocked(rs: Ruleset) returns (cancelled: Option<nat>, started: Option<nat>)
      modifies this`syncRevision, this`cancel
      ensures State() == old(State()).(syncRevision := old(syncRevision) + 1,
                                       cancel := if SelectsByExe(rs) then Some(old(syncRevision) + 1) else None)
      ensures cancelled == old(cancel) && started == cancel
    {
      syncRevision := syncRevision + 1;
      var revision := syncRevision;
      cancelled := cancel;
      if cancel.Some? {
        cancel := None;
      }
      var needs := NeedsProcessScan(rs);
      if !needs {
        return cancelled, None;
      }
      cancel := Some(revision);
      started := Some(revision);
    }

    /** The locked end of `applyRuntime`, once the tables have been applied. */
    method CommitApplied(rs: Ruleset, applied: Compiled) returns (cancelled: Option<nat>, started: Option<nat>)
      modifies this
      ensures State() == Committed(old(State()), rs, applied)
      ensures cancelled == old(cancel) && started == cancel
    {
      ruleset := rs;
      compiled := applied;
      loaded := true;
      error := None;
      generation := generation + 1;
      cancelled, started := RestartSyncLocked(rs);
    }

    /** `setRuntimeError`, also the failing end of `applyRuntime`. */
    method SetRuntimeError(failure: Failure)
      modifies this`error
      ensures State() == old(State()).(error := Some(failure))
    {
      error := Some(failure);
    }

    /** The read-locked check of `syncLoop`. */
    method CheckRound(revision: nat, result: Compiled) returns (apply: bool)
      ensures apply <==> MayApply(State(), revision, result)
    {
      var same := CompiledEqual(compiled, result);
      apply := !(same || syncRevision != revision);
    }

    /** The locked end of a round of `syncLoop`. */
    method CommitRound(revision: nat, result: Compiled)
      modifies this`compiled, this`error, this`generation
      ensures State() == LoopCommitted(old(State()), revision, result)
    {
      if syncRevision != revision {
        return;
      }
      compiled := result;
      error := None;
      generation := generation + 1;
    }

    /** `runtimeStateLocked`. */
    method RuntimeStateLocked() returns (state: RuntimeState)
      ensures state.error == error && (state.valid <==> ReportsValid(State()))
      ensures state.loaded == loaded
      ensures loaded ==> state.version == ruleset.version && state.ruleCount == |ruleset.rules|
      ensures loaded ==> state.pidPolicyCount == |compiled.pids| && state.commPolicyCount == |compiled.comms|
      ensures loaded ==> (state.requiresProcessSync <==> SelectsByExe(ruleset)) && state.generation == generation
      ensures !loaded ==> state == RuntimeState(false, false, 0, 0, 0, 0, false, 0, error)
    {
      if !loaded {
        return RuntimeState(false, false, 0, 0, 0, 0, false, 0, error);
      }
      var needs := NeedsProcessScan(ruleset);
      return RuntimeState(true, error.None?, ruleset.version, |ruleset.rules|, |compiled.pids|, |compiled.comms|, needs,
                          generation, error);
    }

    method Close() returns (cancelled: Option<nat>)
      modifies this`cancel
      ensures cancelled == old(cancel) && State() == old(State()).(cancel := None)
    {
      cancelled := cancel;
      if cancel.Some? {
        cancel := None;
      }
    }
  }

  /** `compiledEqual`: comparing sizes and looking up every entry of one table in the other is exact equality. */
  method CompiledEqual(a: Compiled, b: Compiled) returns (same: bool)
    ensures same <==> a == b
  {
    if |a.pids| != |b.pids| || |a.comms| != |b.comms| {
      return false;
    }
    var pidsIncluded := Included(a.pids, b.pids);
    if !pidsIncluded {
      return false;
    }
    var commsIncluded := Included(a.comms, b.comms);
    if !commsIncluded {
      return false;
    }
    InclusionOfSameSize(a.pids, b.pids);
    InclusionOfSameSize(a.comms, b.comms);
    return true;
  }

  method Included<K(==), V(==)>(a: map<K, V>, b: map<K, V>) returns (included: bool)
    ensures included <==> Installed(a, b)
  {
    var rest := a.Keys;
    while rest != {}
      invariant rest <= a.Keys
      invariant forall key | key in a && key !in rest :: key in b && b[key] == a[key]
      decreases rest
    {
      var key :| key in rest;
      if key !in b || b[key] != a[key] {
        return false;
      }
      rest := rest - {key};
    }
    return true;
  }

  lemma {:induction false} SameSizeSubset<K>(a: set<K>, b: set<K>)
    requires a <= b && |a| == |b|
    ensures a == b
  {
    if x :| x in b && x !in a {
      RoomForOneMore(a, x, b);
      assert false;
    }
  }

  lemma InclusionOfSameSize<K, V>(a: map<K, V>, b: map<K, V>)
    requires Installed(a, b) && |a| == |b|
    ensures a == b
  {
    assert |a.Keys| == |b.Keys| && a.Keys <= b.Keys;
    SameSizeSubset(a.Keys, b.Keys);
  }
}
