/** Where and when the programs write user memory, and how long a scan can take, over every run. */
module Isolation {
  import opened Bytes
  import opened Encoding
  import opened KernelSpec
  import opened Rewriting
  import opened SyscallProtocol

  // ----- scans: no assumption on map updates -----

  /** A scanning thread has a live rewrite state that has consumed 32 bytes for every tail call so far; any other
      thread has none, or one for the null address, which the scanner refuses. */
  ghost predicate ScanInv(k: Kernel, t: Thread, phase: Phase) {
    match phase
    case InScan(_, _, _, tailCalls) =>
      && t in k.rewrites && k.rewrites[t].buf != 0
      && SCAN_CHUNK * tailCalls <= k.rewrites[t].offset < k.rewrites[t].len
    case _ => t in k.rewrites ==> k.rewrites[t].buf == 0
  }

  ghost predicate AllScans(w: World) {
    forall t :: ScanInv(w.kernel, t, PhaseOf(w, t))
  }

  lemma ScanRunAdvances(k: Kernel, t: Thread, comm: CommKey, tailCalls: nat)
    requires t in k.rewrites ==>
               k.rewrites[t].buf == 0 || (k.rewrites[t].len > 0 && k.rewrites[t].offset >= SCAN_CHUNK * tailCalls)
    ensures var run := ScanRun(k, t, comm, tailCalls < MAX_TAIL_CALLS);
            if run.tailCall
            then t in k.rewrites && k.rewrites[t].buf != 0 && t in run.kernel.rewrites
                 && run.kernel.rewrites[t].buf == k.rewrites[t].buf && run.kernel.rewrites[t].len == k.rewrites[t].len
                 && run.kernel.buffers == k.buffers
                 && SCAN_CHUNK * (tailCalls + 1) <= run.kernel.rewrites[t].offset < run.kernel.rewrites[t].len
            else (t in run.kernel.rewrites ==> run.kernel.rewrites[t].buf == 0)
  {
    var lookup := LookupPolicy(k, t, comm);
    if t in k.rewrites && lookup.Some? && Rewrites(lookup.value) {
      StepsProgress(k.memory, t.tgid, lookup.value, k.rewrites[t], SCAN_CHUNK);
    }
  }

  lemma ScanStep(w: World, e: Step, t: Thread)
    requires Enabled(w, e) && Acts(e, t) && ScanInv(w.kernel, t, PhaseOf(w, t))
    ensures ScanInv(Next(w, e).kernel, t, PhaseOf(Next(w, e), t))
  {
    match e
    case ExitRead(_, comm, ret, stored) =>
      if PreparesScan(w.kernel, t, comm, ret) {
        ScanRunAdvances(Prepared(w.kernel, t, ret, stored), t, comm, 0);
      }
    case Rescan(_, comm) => ScanRunAdvances(w.kernel, t, comm, PhaseOf(w, t).tailCalls);
    case _ =>
  }

  lemma ScansStep(w: World, e: Step)
    requires Enabled(w, e) && AllScans(w)
    ensures AllScans(Next(w, e))
  {
    forall u: Thread
      ensures ScanInv(Next(w, e).kernel, u, PhaseOf(Next(w, e), u))
    {
      assert ScanInv(w.kernel, u, PhaseOf(w, u));
      if Acts(e, u) {
        ScanStep(w, e, u);
      } else if !e.UpdatePolicies? && !e.ChangeMemory? {
        StepFrame(w, e, e.t);
      }
    }
  }

  lemma {:induction false} ScansOverRun(w: World, es: seq<Step>)
    requires IsRun(w, es) && AllScans(w)
    ensures AllScans(After(w, es))
    decreases |es|
  {
    if es != [] {
      ScansStep(w, es[0]);
      ScansOverRun(Next(w, es[0]), es[1..]);
    }
  }

  /** In every run, whatever policies are installed between program runs, a scan makes at most 31 tail calls: it is
      over after 32 program runs, and the limit of 33 never cuts it short with bytes left. */
  lemma ScansFinishInTime(w: World, es: seq<Step>, t: Thread)
    requires Init(w) && IsRun(w, es) && PhaseOf(After(w, es), t).InScan?
    ensures PhaseOf(After(w, es), t).tailCalls <= 31 < 33 == MAX_TAIL_CALLS
  {
    ScansOverRun(w, es);
    assert ScanInv(After(w, es).kernel, t, PhaseOf(After(w, es), t));
  }

  /** A run of a scan hands over exactly when it leaves bytes to scan: in no run of the system does a scanner fall
      through a refused tail call. */
  lemma ScansAreNeverCutShort(w: World, es: seq<Step>, t: Thread, comm: CommKey, p: Policy)
    requires Init(w) && IsRun(w, es) && PhaseOf(After(w, es), t).InScan?
    requires LookupPolicy(After(w, es).kernel, t, comm) == Some(p) && Rewrites(p)
    ensures var v := After(w, es);
            && t in v.kernel.rewrites
            && var s := ScanSteps(v.kernel.memory, t.tgid, p, v.kernel.rewrites[t], SCAN_CHUNK).state;
               PhaseOf(Next(v, Rescan(t, comm)), t).InScan? <==> s.offset < s.len
  {
    var v := After(w, es);
    ScansFinishInTime(w, es, t);
    ScansOverRun(w, es);
    assert ScanInv(v.kernel, t, PhaseOf(v, t));
    OneRun(v.kernel, t, comm, p, true);
  }

  // ----- saved buffer addresses: the rewrite state of every prepared read of the thread could be stored -----

  predicate StoresRewriteState(w: World, e: Step) {
    e.ExitRead? && PreparesScan(w.kernel, e.t, e.comm, e.ret) ==> e.stored
  }

  predicate StoresSucceed(w: World, es: seq<Step>, t: Thread)
    requires IsRun(w, es)
    decreases |es|
  {
    es == [] ||
    ((Acts(es[0], t) ==> StoresRewriteState(w, es[0])) && StoresSucceed(Next(w, es[0]), es[1..], t))
  }

  /** A saved address belongs to a read in progress that found its descriptor tracked, or is null. A scan works on
      the buffer of its own read. */
  ghost predicate AddressInv(k: Kernel, t: Thread, phase: Phase) {
    match phase
    case InScan(buf, tracked, len, _) =>
      tracked && t in k.rewrites && k.rewrites[t].buf == buf && k.rewrites[t].len == len
    case InRead(buf, tracked, _) => t in k.buffers && k.buffers[t] != 0 ==> tracked && k.buffers[t] == buf
    case _ => t in k.buffers ==> k.buffers[t] == 0
  }

  ghost predicate Isolated(w: World, t: Thread) {
    AllScans(w) && AddressInv(w.kernel, t, PhaseOf(w, t))
  }

  /** A finished run leaves the address only where the scanner refused a null one. */
  lemma ScanRunClears(k: Kernel, t: Thread, comm: CommKey, canTailCall: bool)
    ensures var run := ScanRun(k, t, comm, canTailCall);
            !run.tailCall && t in run.kernel.buffers ==>
              t !in k.rewrites || k.rewrites[t].buf == 0 || k.rewrites[t].len == 0
  {
  }

  lemma AddressStep(w: World, e: Step, t: Thread)
    requires Enabled(w, e) && Acts(e, t) && StoresRewriteState(w, e)
    requires ScanInv(w.kernel, t, PhaseOf(w, t)) && AddressInv(w.kernel, t, PhaseOf(w, t))
    ensures AddressInv(Next(w, e).kernel, t, PhaseOf(Next(w, e), t))
  {
    match e
    case ExitRead(_, comm, ret, stored) =>
      if PreparesScan(w.kernel, t, comm, ret) {
        ScanRunAdvances(Prepared(w.kernel, t, ret, stored), t, comm, 0);
        ScanRunClears(Prepared(w.kernel, t, ret, stored), t, comm, true);
        ScanRunKeepsAddress(Prepared(w.kernel, t, ret, stored), t, comm, true);
      }
    case Rescan(_, comm) =>
      ScanRunAdvances(w.kernel, t, comm, PhaseOf(w, t).tailCalls);
      ScanRunClears(w.kernel, t, comm, PhaseOf(w, t).tailCalls < MAX_TAIL_CALLS);
    case _ =>
  }

  lemma ScanRunKeepsAddress(k: Kernel, t: Thread, comm: CommKey, canTailCall: bool)
    ensures var k' := ScanRun(k, t, comm, canTailCall).kernel;
            t in k'.buffers ==> t in k.buffers && k'.buffers[t] == k.buffers[t]
  {
  }

  lemma IsolationStep(w: World, e: Step, t: Thread)
    requires Enabled(w, e) && Isolated(w, t) && (Acts(e, t) ==> StoresRewriteState(w, e))
    ensures Isolated(Next(w, e), t)
  {
    ScansStep(w, e);
    assert ScanInv(w.kernel, t, PhaseOf(w, t));
    if Acts(e, t) {
      AddressStep(w, e, t);
    } else if !e.UpdatePolicies? && !e.ChangeMemory? {
      StepFrame(w, e, e.t);
    }
  }

  lemma {:induction false} IsolationOverRun(w: World, es: seq<Step>, t: Thread)
    requires IsRun(w, es) && Isolated(w, t) && StoresSucceed(w, es, t)
    ensures Isolated(After(w, es), t)
    decreases |es|
  {
    if es != [] {
      IsolationStep(w, es[0], t);
      IsolationOverRun(Next(w, es[0]), es[1..], t);
    }
  }

  /** The bytes a step may write: those of the buffer of a read that is exiting, whose own entry found its
      descriptor tracked, up to the smaller of what was read and 1024. */
  ghost predicate MayWrite(w: World, e: Step, l: Loc) {
    match e
    case ExitRead(t, _, ret, _) =>
      && PhaseOf(w, t).InRead? && PhaseOf(w, t).tracked
      && InSpan(t.tgid, PhaseOf(w, t).buf, ClampScanLen(ret), l)
    case Rescan(t, _) =>
      && PhaseOf(w, t).InScan? && PhaseOf(w, t).tracked
      && InSpan(t.tgid, PhaseOf(w, t).buf, PhaseOf(w, t).len, l)
    case _ => false
  }

  lemma StepWrites(w: World, e: Step)
    requires Enabled(w, e) && !e.ChangeMemory? && StoresRewriteState(w, e)
    requires !e.UpdatePolicies? ==> Isolated(w, e.t)
    ensures var m, m' := w.kernel.memory, Next(w, e).kernel.memory;
            && m'.bytes.Keys == m.bytes.Keys && m'.writable == m.writable
            && forall l | l in m.bytes && !MayWrite(w, e, l) :: m'.bytes[l] == m.bytes[l]
  {
    match e
    case ExitRead(t, comm, ret, stored) =>
      assert ScanInv(w.kernel, t, PhaseOf(w, t)) && AddressInv(w.kernel, t, PhaseOf(w, t));
      RunStaysInside(Prepared(w.kernel, t, ret, stored), t, comm, true);
    case Rescan(t, comm) =>
      assert ScanInv(w.kernel, t, PhaseOf(w, t)) && AddressInv(w.kernel, t, PhaseOf(w, t));
      RunStaysInside(w.kernel, t, comm, PhaseOf(w, t).tailCalls < MAX_TAIL_CALLS);
    case _ =>
  }

  /** Main result: at every step of every run, the programs write user memory only on behalf of a tracked read that is
      exiting, and only inside its own buffer. Of all map updates, only those of the rewrite states of the acting thread
      have to succeed. */
  lemma {:induction false} WritesStayInOwnRead(w: World, es: seq<Step>, e: Step)
    requires Init(w) && IsRun(w, es) && Enabled(After(w, es), e) && !e.ChangeMemory?
    requires !e.UpdatePolicies? ==> StoresSucceed(w, es, e.t) && StoresRewriteState(After(w, es), e)
    ensures var v := After(w, es);
            && Next(v, e).kernel.memory.bytes.Keys == v.kernel.memory.bytes.Keys
            && forall l | l in v.kernel.memory.bytes && !MayWrite(v, e, l) ::
                 Next(v, e).kernel.memory.bytes[l] == v.kernel.memory.bytes[l]
  {
    if !e.UpdatePolicies? {
      IsolationOverRun(w, es, e.t);
      StepWrites(After(w, es), e);
    }
  }

  /** The exit of a read that failed or met the end of the file is over at once and leaves memory and events as they
      were. */
  lemma FailedReadChangesNothing(w: World, t: Thread, comm: CommKey, ret: int, stored: bool)
    requires Enabled(w, ExitRead(t, comm, ret, stored)) && ret <= 0
    ensures var v := Next(w, ExitRead(t, comm, ret, stored));
            && v.kernel.memory == w.kernel.memory && v.kernel.events == w.kernel.events && PhaseOf(v, t).Idle?
            && t !in v.kernel.buffers
  {
    ClampIsMinimum(ret);
    assert !PreparesScan(w.kernel, t, comm, ret);
  }

  // ----- the other direction: the address of a tracked read is saved, if its own entry could save it -----

  ghost predicate AllSaved(w: World) {
    forall t :: SavedInv(w.kernel, t, PhaseOf(w, t))
  }

  predicate SavedInv(k: Kernel, t: Thread, phase: Phase) {
    phase.InRead? && phase.tracked && phase.saved ==> t in k.buffers && k.buffers[t] == phase.buf
  }

  lemma SavedStep(w: World, e: Step)
    requires Enabled(w, e) && AllSaved(w)
    ensures AllSaved(Next(w, e))
  {
    forall u: Thread
      ensures SavedInv(Next(w, e).kernel, u, PhaseOf(Next(w, e), u))
    {
      assert SavedInv(w.kernel, u, PhaseOf(w, u));
      if !Acts(e, u) && !e.UpdatePolicies? && !e.ChangeMemory? {
        StepFrame(w, e, e.t);
      }
    }
  }

  lemma {:induction false} SavedOverRun(w: World, es: seq<Step>)
    requires IsRun(w, es) && AllSaved(w)
    ensures AllSaved(After(w, es))
    decreases |es|
  {
    if es != [] {
      SavedStep(w, es[0]);
      SavedOverRun(Next(w, es[0]), es[1..]);
    }
  }

  /** In every run in which the rewrite states of a thread can be stored, the address saved inside one of its reads whose
      entry could save it is that of the read exactly when the read is tracked. */
  lemma SavedExactlyWhenTracked(w: World, es: seq<Step>, t: Thread)
    requires Init(w) && IsRun(w, es) && StoresSucceed(w, es, t)
    requires var phase := PhaseOf(After(w, es), t); phase.InRead? && phase.saved && phase.buf != 0
    ensures var k, phase := After(w, es).kernel, PhaseOf(After(w, es), t);
            phase.tracked <==> t in k.buffers && k.buffers[t] == phase.buf
  {
    SavedOverRun(w, es);
    IsolationOverRun(w, es, t);
    assert SavedInv(After(w, es).kernel, t, PhaseOf(After(w, es), t));
  }

  // ----- why the assumption on stores is needed -----

  /** A thread of a process with a rewrite policy, and a buffer that holds the policy's text. */
  ghost predicate LeakSetting(w: World, t: Thread, comm: CommKey, p: Policy, path: Str, buf: u64) {
    && Init(w) && PhaseOf(w, t).Idle? && FdKey(t.tgid, 3) !in w.openFds
    && LookupPolicy(w.kernel, t, comm) == Some(p) && Rewrites(p)
    && PathMatches(p.targetPath, Fixed(64, CString(path)))
    && buf != 0 && Accessible(w.kernel.memory, t.tgid, buf, p.textLen)
    && Contents(w.kernel.memory, t.tgid, buf, p.textLen) == FindText(p)
  }

  /** A read of `fd` whose rewrite state cannot be stored, then a read of another descriptor up to its exit. */
  function ReadTrace(t: Thread, comm: CommKey, ret: int, fd: u32, buf: u64, fd': u32, other: u64): seq<Step> {
    [EnterRead(t, fd, buf, true), ExitRead(t, comm, ret, false), EnterRead(t, fd', other, true)]
  }

  lemma AddressIsLeft(w: World, t: Thread, comm: CommKey, p: Policy, buf: u64, other: u64)
    requires PhaseOf(w, t).Idle? && w.kernel.trackedFds == {FdKey(t.tgid, 3)} && t !in w.kernel.rewrites
    requires LookupPolicy(w.kernel, t, comm) == Some(p) && Rewrites(p)
    ensures IsRun(w, ReadTrace(t, comm, p.textLen, 3, buf, 4, other))
    ensures var v := After(w, ReadTrace(t, comm, p.textLen, 3, buf, 4, other));
            && v.kernel == w.kernel.(buffers := w.kernel.buffers[t := buf])
            && PhaseOf(v, t) == InRead(other, false, true)
  {
    RunOfThree(w, EnterRead(t, 3, buf, true), ExitRead(t, comm, p.textLen, false), EnterRead(t, 4, other, true));
  }

  /** The scan of a buffer that is exactly the text. */
  lemma ScanOfText(m: Memory, tgid: u32, p: Policy, s: RewriteState)
    requires Rewrites(p) && s.offset == s.replacements == 0 && s.len == p.textLen
    requires Accessible(m, tgid, s.buf, p.textLen) && Contents(m, tgid, s.buf, p.textLen) == FindText(p)
    ensures ScanSteps(m, tgid, p, s, SCAN_CHUNK).memory == Store(m, tgid, s.buf, ReplaceText(p))
    ensures ScanSteps(m, tgid, p, s, SCAN_CHUNK).state.offset == s.len
  {
    var contents := Contents(m, tgid, s.buf, p.textLen);
    assert contents[0..0 + p.textLen] == contents;
    HoldsIsOccurrence(m, tgid, s.buf, p.textLen, 0, FindText(p));
    EnoughSteps(m, tgid, p, s, s.len + SCAN_CHUNK);
    ScanAllStep(m, tgid, p, s);
    StepsProgress(m, tgid, p, s, 1);
    StepsCompose(m, tgid, p, s, 1, SCAN_CHUNK - 1);
  }

  lemma UntrackedReadWrites(v: World, t: Thread, comm: CommKey, p: Policy, buf: u64, other: u64)
    requires PhaseOf(v, t) == InRead(other, false, true) && t in v.kernel.buffers && v.kernel.buffers[t] == buf != 0
    requires LookupPolicy(v.kernel, t, comm) == Some(p) && Rewrites(p)
    requires Accessible(v.kernel.memory, t.tgid, buf, p.textLen)
    requires Contents(v.kernel.memory, t.tgid, buf, p.textLen) == FindText(p)
    ensures var e := ExitRead(t, comm, p.textLen, true);
            && Enabled(v, e) && (forall l :: !MayWrite(v, e, l))
            && Next(v, e).kernel.memory == Store(v.kernel.memory, t.tgid, buf, ReplaceText(p))
  {
    var k := Prepared(v.kernel, t, p.textLen, true);
    assert PreparesScan(v.kernel, t, comm, p.textLen) && k.rewrites[t] == RewriteState(buf, p.textLen, 0, 0);
    OneRun(k, t, comm, p, true);
    ScanOfText(v.kernel.memory, t.tgid, p, RewriteState(buf, p.textLen, 0, 0));
  }

  /** Without the assumption the result fails: the address saved for the first read survives its exit, and the exit
      of the second read, whose descriptor was never tracked, rewrites the buffer of the first. */
  lemma FailedStoreLeaksAddress(w: World, t: Thread, comm: CommKey, p: Policy, path: Str, buf: u64, other: u64)
    requires LeakSetting(w, t, comm, p, path, buf)
    ensures var es := OpenTrace(t, comm, path, 3) + ReadTrace(t, comm, p.textLen, 3, buf, 4, other);
            var e := ExitRead(t, comm, p.textLen, true);
            && IsRun(w, es) && Enabled(After(w, es), e)
            && (forall l :: !MayWrite(After(w, es), e, l))
            && After(w, es).kernel.memory == w.kernel.memory
            && Next(After(w, es), e).kernel.memory == Store(w.kernel.memory, t.tgid, buf, ReplaceText(p))
  {
    OpenIsTracked(w, t, comm, path, 3);
    var w3 := After(w, OpenTrace(t, comm, path, 3));
    AddressIsLeft(w3, t, comm, p, buf, other);
    RunAppend(w, OpenTrace(t, comm, path, 3), ReadTrace(t, comm, p.textLen, 3, buf, 4, other));
    var v := After(w3, ReadTrace(t, comm, p.textLen, 3, buf, 4, other));
    assert v.kernel.memory == w.kernel.memory && LookupPolicy(v.kernel, t, comm) == Some(p);
    UntrackedReadWrites(v, t, comm, p, buf, other);
  }

  // ----- why a tracked read has to save its address -----

  /** An open that a rewrite policy matches, and a read of its descriptor whose entry cannot save the address. */
  function UnsavedTrace(t: Thread, comm: CommKey, path: Str, fd: u32, buf: u64): seq<Step> {
    OpenTrace(t, comm, path, fd) + [EnterRead(t, fd, buf, false)]
  }

  /** Such a read is tracked, and yet its exit leaves memory as it is and reports nothing. */
  lemma UnsavedReadIsNotRewritten(w: World, t: Thread, comm: CommKey, path: Str, fd: u32, buf: u64, ret: int, stored: bool)
    requires Init(w) && PhaseOf(w, t).Idle? && FdKey(t.tgid, fd) !in w.openFds
    requires MatchedAction(w.kernel, t, comm, Some(path)) == Some(ACTION_REWRITE)
    ensures var es, e := UnsavedTrace(t, comm, path, fd, buf), ExitRead(t, comm, ret, stored);
            && IsRun(w, es) && PhaseOf(After(w, es), t) == InRead(buf, true, false)
            && Enabled(After(w, es), e) && PhaseOf(Next(After(w, es), e), t).Idle?
            && Next(After(w, es), e).kernel == After(w, es).kernel
  {
    OpenIsTracked(w, t, comm, path, fd);
    var v, enter := After(w, OpenTrace(t, comm, path, fd)), EnterRead(t, fd, buf, false);
    assert After(Next(v, enter), []) == Next(v, enter);
    RunCons(v, enter, []);
    assert [enter] + [] == [enter];
    RunAppend(w, OpenTrace(t, comm, path, fd), [enter]);
  }
}
