/** The hide action over every run: what `lsm/file_open` answers. */
module HideOpens {
  import opened Bytes
  import opened Encoding
  import opened KernelSpec
  import opened SyscallProtocol

  /** An open is pending exactly while the thread is inside an open whose entry matched a policy and could be
      recorded; the action is the one that matched then. */
  ghost predicate PendingInv(k: Kernel, t: Thread, phase: Phase) {
    if phase.InOpen? && phase.matched.Some? && phase.recorded
    then t in k.pendingOpens && k.pendingOpens[t].action == phase.matched.value
    else t !in k.pendingOpens
  }

  ghost predicate AllPending(w: World) {
    forall t :: PendingInv(w.kernel, t, PhaseOf(w, t))
  }

  lemma PendingStep(w: World, e: Step)
    requires Enabled(w, e) && AllPending(w)
    ensures AllPending(Next(w, e))
  {
    forall u: Thread
      ensures PendingInv(Next(w, e).kernel, u, PhaseOf(Next(w, e), u))
    {
      assert PendingInv(w.kernel, u, PhaseOf(w, u));
      if !e.UpdatePolicies? && !e.ChangeMemory? {
        StepFrame(w, e, e.t);
        if Acts(e, u) {
          PendingOfActor(w, e, u);
        }
      }
    }
  }

  lemma PendingOfActor(w: World, e: Step, t: Thread)
    requires Enabled(w, e) && Acts(e, t) && PendingInv(w.kernel, t, PhaseOf(w, t))
    ensures PendingInv(Next(w, e).kernel, t, PhaseOf(Next(w, e), t))
  {
    match e
    case ExitRead(_, comm, ret, stored) => ReadExitKeeps(w.kernel, t, comm, ret, stored);
    case Rescan(_, comm) => ScanRunKeeps(w.kernel, t, comm, PhaseOf(w, t).tailCalls < MAX_TAIL_CALLS);
    case _ =>
  }

  lemma {:induction false} PendingOverRun(w: World, es: seq<Step>)
    requires IsRun(w, es) && AllPending(w)
    ensures AllPending(After(w, es))
    decreases |es|
  {
    if es != [] {
      PendingStep(w, es[0]);
      PendingOverRun(Next(w, es[0]), es[1..]);
    }
  }

  /** Main result: at every point of every run, whatever policy updates have happened since the entry, an opening
      that the other modules allow is answered with -ENOENT exactly when the thread is inside an open that matched a
      hide policy at its entry and could be recorded; outside an open it is always allowed. A refusal by another
      module is passed on. */
  lemma HiddenExactlyWhenMatched(w: World, es: seq<Step>, t: Thread, ret: int)
    requires Init(w) && IsRun(w, es)
    ensures var v := After(w, es);
            var phase := PhaseOf(v, t);
            FileOpenVerdict(v.kernel, t, ret) ==
            if ret == 0 && phase.InOpen? && phase.matched == Some(ACTION_HIDE) && phase.recorded then -2
            else ret
  {
    PendingOverRun(w, es);
    assert PendingInv(After(w, es).kernel, t, PhaseOf(After(w, es), t));
  }

  /** A thread enters an open; whatever happens until it leaves, the hook goes by what matched at the entry. */
  lemma VerdictInsideOpen(w: World, before: seq<Step>, t: Thread, comm: CommKey, path: Option<Str>, es: seq<Step>)
    requires Init(w) && IsRun(w, before) && Enabled(After(w, before), EnterOpen(t, comm, path, true))
    requires IsRun(Next(After(w, before), EnterOpen(t, comm, path, true)), es) && Waits(es, t)
    ensures var v := After(Next(After(w, before), EnterOpen(t, comm, path, true)), es);
            FileOpenVerdict(v.kernel, t, 0) ==
            if MatchedAction(After(w, before).kernel, t, comm, path) == Some(1) then -2 else 0
  {
    var v, enter := After(w, before), EnterOpen(t, comm, path, true);
    PendingOverRun(w, before);
    PendingStep(v, enter);
    PendingOverRun(Next(v, enter), es);
    PhaseKept(Next(v, enter), es, t);
    var v' := After(Next(v, enter), es);
    assert PendingInv(v'.kernel, t, PhaseOf(v', t));
  }
}
