/** Scans in the running system: between two runs of one scan other threads make system calls, other scans take their
    turns and user space works on the tables. As long as none of that changes the policy or the buffer of the scan,
    the read ends as if it had been rewritten in one go. */
module InterleavedScans {
  import opened Bytes
  import opened Encoding
  import opened Greedy
  import opened KernelSpec
  import opened Rewriting
  import opened SyscallProtocol
  import opened Isolation

  /** A read to be rewritten: who reads, the policy, and what the buffer at `buf` held when the read returned. */
  datatype Read = Read(t: Thread, comm: CommKey, policy: Policy, buf: u64, original: Str)

  /** The rewrite events of a thread. */
  function Reports(events: seq<Event>, t: Thread): seq<Event> {
    if events == [] then []
    else
      var e := events[|events| - 1];
      Reports(events[..|events| - 1], t) + (if e.thread == t && e.op.OpRewrite? then [e] else [])
  }

  lemma ReportsOfOneMore(events: seq<Event>, e: Event, t: Thread)
    ensures Reports(events + [e], t) == Reports(events, t) + (if e.thread == t && e.op.OpRewrite? then [e] else [])
  {
    assert (events + [e])[..|events|] == events;
  }

  /** What one whole replacement of the read would report. */
  function Report(r: Read): seq<Event>
    requires Rewrites(r.policy)
  {
    var windows := Windows(r.original, FindText(r.policy), 0);
    if windows == [] then []
    else [Event(r.t, r.policy.action, OpRewrite, |windows| * r.policy.textLen, r.comm, r.policy.targetPath)]
  }

  /** The scan of the read has its next run to come, and has reported nothing since `reports`. */
  ghost predicate Underway(k: Kernel, r: Read, reports: seq<Event>) {
    && Scanning(k, r.t, r.comm, r.policy)
    && k.rewrites[r.t].buf == r.buf
    && Progress(k.memory, r.t.tgid, r.policy, k.rewrites[r.t], r.original)
    && Reports(k.events, r.t) == reports
  }

  /** The read has been rewritten and reported. */
  ghost predicate Rewritten(k: Kernel, r: Read, reports: seq<Event>) {
    && Rewrites(r.policy) && |r.original| <= MAX_SCAN_BYTES
    && Accessible(k.memory, r.t.tgid, r.buf, |r.original|)
    && Contents(k.memory, r.t.tgid, r.buf, |r.original|) ==
       Replace(r.original, FindText(r.policy), ReplaceText(r.policy))
    && Reports(k.events, r.t) == reports + Report(r)
    && r.t !in k.buffers && r.t !in k.rewrites
  }

  lemma FinishedIsRewritten(k: Kernel, r: Read, reports: seq<Event>, scan: Scan)
    requires Underway(k, r, reports) && scan.state.buf == r.buf && scan.state.offset == scan.state.len
    requires Progress(scan.memory, r.t.tgid, r.policy, scan.state, r.original)
    ensures Rewritten(Finished(k, r.t, r.comm, r.policy, scan), r, reports)
  {
    ProgressAtEnd(scan.memory, r.t.tgid, r.policy, scan.state, r.original);
    if Report(r) == [] {
      assert reports + Report(r) == reports;
    } else {
      ReportsOfOneMore(k.events, Report(r)[0], r.t);
    }
  }

  /** One run of the scanner brings the read forward or finishes it. */
  lemma {:induction false} RunAdvances(k: Kernel, r: Read, reports: seq<Event>)
    requires Underway(k, r, reports)
    ensures var run := ScanRun(k, r.t, r.comm, true);
            if run.tailCall then Underway(run.kernel, r, reports) else Rewritten(run.kernel, r, reports)
  {
    var s := k.rewrites[r.t];
    var part := ScanSteps(k.memory, r.t.tgid, r.policy, s, SCAN_CHUNK);
    OneRun(k, r.t, r.comm, r.policy, true);
    StepsKeepProgress(k.memory, r.t.tgid, r.policy, s, r.original, SCAN_CHUNK, part);
    StepsProgress(k.memory, r.t.tgid, r.policy, s, SCAN_CHUNK);
    if part.state.offset == part.state.len {
      FinishedIsRewritten(k, r, reports, part);
    }
  }

  // ----- the steps of the others -----

  predicate SameBuffer(m: Memory, m': Memory, tgid: u32, buf: u64, n: nat)
    requires n < ADDRESSES
  {
    forall i | 0 <= i < n ::
      var l := Loc(tgid, At(buf, i));
      (l in m.bytes ==> l in m'.bytes && m'.bytes[l] == m.bytes[l]) && (l in m.writable ==> l in m'.writable)
  }

  /** The step is none of the reading thread's, or one of its own under the same name; it changes neither the policy
      of the read nor, when it is another's, its buffer. */
  ghost predicate Undisturbed(w: World, e: Step, r: Read)
    requires Enabled(w, e) && |r.original| <= MAX_SCAN_BYTES
  {
    if Acts(e, r.t) then e.Rescan? ==> e.comm == r.comm
    else
      && LookupPolicy(Next(w, e).kernel, r.t, r.comm) == LookupPolicy(w.kernel, r.t, r.comm)
      && SameBuffer(w.kernel.memory, Next(w, e).kernel.memory, r.t.tgid, r.buf, |r.original|)
  }

  /** Steps that take place while the read is being scanned, the last one possibly ending the scan. */
  ghost predicate DuringScan(w: World, es: seq<Step>, r: Read)
    requires |r.original| <= MAX_SCAN_BYTES
    decreases |es|
  {
    es == [] ||
    (Enabled(w, es[0]) && PhaseOf(w, r.t).InScan? && Undisturbed(w, es[0], r) && DuringScan(Next(w, es[0]), es[1..], r))
  }

  lemma {:induction false} DuringScanIsRun(w: World, es: seq<Step>, r: Read)
    requires |r.original| <= MAX_SCAN_BYTES && DuringScan(w, es, r)
    ensures IsRun(w, es)
    decreases |es|
  {
    if es != [] {
      DuringScanIsRun(Next(w, es[0]), es[1..], r);
    }
  }

  /** The steps of other threads do not disturb a read unless the programs may write its buffer for them: those of
      other processes never, those of its own process only while a read into an overlapping buffer is exiting. */
  lemma OthersDoNotDisturb(w: World, e: Step, r: Read)
    requires |r.original| <= MAX_SCAN_BYTES && Enabled(w, e)
    requires !Acts(e, r.t) && !e.UpdatePolicies? && !e.ChangeMemory? && Isolated(w, e.t) && StoresRewriteState(w, e)
    requires e.t.tgid != r.t.tgid || forall i | 0 <= i < |r.original| :: !MayWrite(w, e, Loc(r.t.tgid, At(r.buf, i)))
    ensures Undisturbed(w, e, r)
  {
    StepFrame(w, e, e.t);
    StepWrites(w, e);
    forall i | 0 <= i < |r.original|
      ensures !MayWrite(w, e, Loc(r.t.tgid, At(r.buf, i)))
    {
    }
  }

  lemma FinishedReports(k: Kernel, u: Thread, comm: CommKey, p: Policy, scan: Scan, t: Thread)
    requires u != t
    ensures Reports(Finished(k, u, comm, p, scan).events, t) == Reports(k.events, t)
  {
    ReportsOfOneMore(k.events, Event(u, p.action, OpRewrite, scan.state.replacements * p.textLen, comm, p.targetPath), t);
  }

  lemma ScanRunReports(k: Kernel, u: Thread, comm: CommKey, canTailCall: bool, t: Thread)
    requires u != t
    ensures Reports(ScanRun(k, u, comm, canTailCall).kernel.events, t) == Reports(k.events, t)
  {
    var lookup := LookupPolicy(k, u, comm);
    if lookup.Some? && Scanning(k, u, comm, lookup.value) {
      OneRun(k, u, comm, lookup.value, canTailCall);
      FinishedReports(k, u, comm, lookup.value,
                      ScanSteps(k.memory, u.tgid, lookup.value, k.rewrites[u], SCAN_CHUNK), t);
    }
  }

  lemma OpenReports(k: Kernel, u: Thread, comm: CommKey, path: Option<Str>, stored: bool, ret: int, t: Thread)
    ensures Reports(OpenEnter(k, u, comm, path, stored).events, t) == Reports(k.events, t)
    ensures Reports(FileOpen(k, u, comm, ret).events, t) == Reports(k.events, t)
  {
    if MatchedAction(k, u, comm, path).Some? {
      ReportsOfOneMore(k.events, Event(u, MatchedAction(k, u, comm, path).value, OpOpen, 0, comm,
                                       Fixed(64, CString(path.value))), t);
    }
    if ret == 0 && FileOpenVerdict(k, u, ret) != 0 {
      ReportsOfOneMore(k.events, Event(u, ACTION_HIDE, OpBlock, -ERR_ENOENT, comm, k.pendingOpens[u].path), t);
    }
  }

  /** Only the exit of its own read or a run of its own scan makes a thread report a rewrite. */
  lemma {:induction false} OthersReportNothing(w: World, e: Step, t: Thread)
    requires Enabled(w, e) && !(Acts(e, t) && (e.ExitRead? || e.Rescan?))
    ensures Reports(Next(w, e).kernel.events, t) == Reports(w.kernel.events, t)
  {
    var k := w.kernel;
    match e
    case EnterOpen(u, comm, path, stored) => OpenReports(k, u, comm, path, stored, 0, t);
    case FileOpenHook(u, comm, ret) => OpenReports(k, u, comm, None, false, ret, t);
    case ExitRead(u, comm, ret, stored) => ScanRunReports(Prepared(k, u, ret, stored), u, comm, true, t);
    case Rescan(u, comm) => ScanRunReports(k, u, comm, PhaseOf(w, u).tailCalls < MAX_TAIL_CALLS, t);
    case _ =>
  }

  /** A state of the world in which the scan of the read is underway, or has just ended. */
  ghost predicate OnTrack(w: World, r: Read, reports: seq<Event>) {
    if PhaseOf(w, r.t).InScan? then Underway(w.kernel, r, reports) else Rewritten(w.kernel, r, reports)
  }

  lemma OtherStepKeepsTrack(w: World, e: Step, r: Read, reports: seq<Event>)
    requires Enabled(w, e) && PhaseOf(w, r.t).InScan? && Underway(w.kernel, r, reports)
    requires !e.Rescan? || e.t != r.t
    requires Undisturbed(w, e, r)
    ensures PhaseOf(Next(w, e), r.t).InScan? && Underway(Next(w, e).kernel, r, reports)
  {
    OthersReportNothing(w, e, r.t);
    if !Acts(e, r.t) {
      if !e.UpdatePolicies? && !e.ChangeMemory? {
        StepFrame(w, e, e.t);
      }
      var m, m' := w.kernel.memory, Next(w, e).kernel.memory;
      assert Contents(m', r.t.tgid, r.buf, |r.original|) == Contents(m, r.t.tgid, r.buf, |r.original|);
    }
  }

  lemma StepKeepsTrack(w: World, e: Step, r: Read, reports: seq<Event>)
    requires Enabled(w, e) && PhaseOf(w, r.t).InScan? && Underway(w.kernel, r, reports)
    requires AllScans(w) && Undisturbed(w, e, r)
    ensures OnTrack(Next(w, e), r, reports)
  {
    if e.Rescan? && e.t == r.t {
      assert ScanInv(w.kernel, r.t, PhaseOf(w, r.t));
      RunAdvances(w.kernel, r, reports);
    } else {
      OtherStepKeepsTrack(w, e, r, reports);
    }
  }

  lemma {:induction false} ScanKeepsTrack(w: World, es: seq<Step>, r: Read, reports: seq<Event>)
    requires |r.original| <= MAX_SCAN_BYTES && IsRun(w, es) && DuringScan(w, es, r)
    requires AllScans(w) && OnTrack(w, r, reports)
    ensures OnTrack(After(w, es), r, reports)
    decreases |es|
  {
    if es != [] {
      StepKeepsTrack(w, es[0], r, reports);
      ScansStep(w, es[0]);
      ScanKeepsTrack(Next(w, es[0]), es[1..], r, reports);
    }
  }

  /** A read whose entry found its descriptor tracked and could save its address returns with enough bytes for the text of the policy that governs
      the reader now, in memory that can be accessed; its rewrite state can be stored. */
  ghost predicate Returns(w: World, e: Step, r: Read) {
    && e.ExitRead? && e.t == r.t && e.comm == r.comm && e.stored
    && PhaseOf(w, r.t) == InRead(r.buf, true, true) && r.buf != 0
    && LookupPolicy(w.kernel, r.t, r.comm) == Some(r.policy)
    && Rewrites(r.policy) && r.policy.textLen <= ClampScanLen(e.ret)
    && Accessible(w.kernel.memory, r.t.tgid, r.buf, ClampScanLen(e.ret))
    && r.original == Contents(w.kernel.memory, r.t.tgid, r.buf, ClampScanLen(e.ret))
  }

  lemma ReturnStartsScan(w: World, e: Step, r: Read)
    requires SavedInv(w.kernel, r.t, PhaseOf(w, r.t)) && Returns(w, e, r)
    ensures OnTrack(Next(w, e), r, Reports(w.kernel.events, r.t))
  {
    EditStart(r.original, FindText(r.policy), ReplaceText(r.policy));
    RunAdvances(Prepared(w.kernel, r.t, e.ret, true), r, Reports(w.kernel.events, r.t));
  }

  /** The scan that the return of a tracked read starts. */
  lemma ReturningReadIsRewritten(v: World, e: Step, es: seq<Step>, r: Read)
    requires AllScans(v) && SavedInv(v.kernel, r.t, PhaseOf(v, r.t))
    requires Returns(v, e, r) && DuringScan(Next(v, e), es, r)
    ensures IsRun(Next(v, e), es)
    ensures var v' := After(Next(v, e), es);
            !PhaseOf(v', r.t).InScan? ==> Rewritten(v'.kernel, r, Reports(v.kernel.events, r.t))
  {
    ScansStep(v, e);
    ReturnStartsScan(v, e, r);
    DuringScanIsRun(Next(v, e), es, r);
    ScanKeepsTrack(Next(v, e), es, r, Reports(v.kernel.events, r.t));
  }

  /** Main result: in every run of the system, a tracked read whose policy and buffer the others leave alone until its
      scan is over ends with the greedy replacement of the bytes it had read, reported once with the total size of
      the replaced windows, or not at all when there are none. */
  lemma {:induction false} InterleavedReadIsRewritten(w: World, before: seq<Step>, e: Step, es: seq<Step>, r: Read)
    requires Init(w) && IsRun(w, before) && Returns(After(w, before), e, r)
    requires DuringScan(Next(After(w, before), e), es, r)
    ensures IsRun(Next(After(w, before), e), es)
    ensures var v := After(Next(After(w, before), e), es);
            !PhaseOf(v, r.t).InScan? ==> Rewritten(v.kernel, r, Reports(After(w, before).kernel.events, r.t))
  {
    ScansOverRun(w, before);
    SavedOverRun(w, before);
    assert SavedInv(After(w, before).kernel, r.t, PhaseOf(After(w, before), r.t));
    ReturningReadIsRewritten(After(w, before), e, es, r);
  }
}
