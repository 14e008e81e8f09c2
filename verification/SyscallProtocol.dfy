/** Runs of the whole system: system calls of many threads interleave with each other, with policy updates from
    user space and with changes of user memory by its owners. Every tracepoint program run is one step. Threads
    may already be inside a system call when the programs are attached. */
module SyscallProtocol {
  import opened Bytes
  import opened Encoding
  import opened KernelSpec
  import opened Rewriting

  /** Where a thread is, with what its own entry saw.
      - `matched`: the action of the policy that matched the open at its entry; `recorded`: the map update succeeded;
        `installed`: the descriptor once the kernel has installed it.
      - `tracked`: the descriptor of the read was tracked at its entry; `saved`: the map update succeeded.
      - `released`: the kernel has removed the descriptor from the process. */
  datatype Phase =
    | Idle
    | InOpen(matched: Option<byte>, recorded: bool, installed: Option<u32>)
    | InRead(buf: u64, tracked: bool, saved: bool)
    | InScan(buf: u64, tracked: bool, len: nat, tailCalls: nat)
    | InClose(fd: u32, released: bool)

  /** `openFds` holds the open descriptors of every process, each with whether it came from an open whose entry
      matched a rewrite policy. */
  datatype World = World(kernel: Kernel, phases: map<Thread, Phase>, openFds: map<FdKey, bool>)

  datatype Step =
    | EnterOpen(t: Thread, comm: CommKey, path: Option<Str>, stored: bool)
    | Install(t: Thread, fd: u32)
    | FileOpenHook(t: Thread, comm: CommKey, ret: int)
    | ExitOpen(t: Thread, ret: int, stored: bool)
    | EnterRead(t: Thread, fd: u32, buf: u64, stored: bool)
    | ExitRead(t: Thread, comm: CommKey, ret: int, stored: bool)
    | Rescan(t: Thread, comm: CommKey)
    | EnterClose(t: Thread, fd: u32, stored: bool)
    | Release(t: Thread)
    | ExitClose(t: Thread)
    | UpdatePolicies(policies: map<u32, Policy>, commPolicies: map<CommKey, Policy>)
    | ChangeMemory(memory: Memory)

  function PhaseOf(w: World, t: Thread): Phase {
    if t in w.phases then w.phases[t] else Idle
  }

  /** The thread that takes the step; policy and memory updates belong to none. */
  predicate Acts(e: Step, t: Thread) {
    !e.UpdatePolicies? && !e.ChangeMemory? && e.t == t
  }

  predicate Enabled(w: World, e: Step) {
    match e
    case EnterOpen(t, _, _, _) => PhaseOf(w, t).Idle?
    case Install(t, fd) => PhaseOf(w, t).InOpen? && PhaseOf(w, t).installed.None? && FdKey(t.tgid, fd) !in w.openFds
    case FileOpenHook(_, _, _) => true
    case ExitOpen(t, ret, _) =>
      PhaseOf(w, t).InOpen? &&
      (match PhaseOf(w, t).installed case Some(fd) => ret == fd case None => ret < 0)
    case EnterRead(t, _, _, _) => PhaseOf(w, t).Idle?
    case ExitRead(t, _, _, _) => PhaseOf(w, t).InRead?
    case Rescan(t, _) => PhaseOf(w, t).InScan?
    case EnterClose(t, _, _) => PhaseOf(w, t).Idle?
    case Release(t) => PhaseOf(w, t).InClose? && !PhaseOf(w, t).released
    case ExitClose(t) => PhaseOf(w, t).InClose? && PhaseOf(w, t).released
    case UpdatePolicies(_, _) => true
    case ChangeMemory(_) => true
  }

  function Next(w: World, e: Step): World
    requires Enabled(w, e)
  {
    var k := w.kernel;
    match e
    case EnterOpen(t, comm, path, stored) =>
      w.(kernel := OpenEnter(k, t, comm, path, stored),
         phases := w.phases[t := InOpen(MatchedAction(k, t, comm, path), stored, None)])
    case Install(t, fd) =>
      w.(phases := w.phases[t := PhaseOf(w, t).(installed := Some(fd))],
         openFds := w.openFds[FdKey(t.tgid, fd) := PhaseOf(w, t).matched == Some(ACTION_REWRITE)])
    case FileOpenHook(t, comm, ret) => w.(kernel := FileOpen(k, t, comm, ret))
    case ExitOpen(t, ret, stored) => w.(kernel := OpenExit(k, t, ret, stored), phases := w.phases[t := Idle])
    case EnterRead(t, fd, buf, stored) =>
      w.(kernel := ReadEnter(k, t, fd, buf, stored),
         phases := w.phases[t := InRead(buf, FdKey(t.tgid, fd) in k.trackedFds, stored)])
    case ExitRead(t, comm, ret, stored) =>
      var run := ReadExit(k, t, comm, ret, stored);
      var phase := PhaseOf(w, t);
      w.(kernel := run.kernel,
         phases := w.phases[t := if run.tailCall then InScan(phase.buf, phase.tracked, ClampScanLen(ret), 1) else Idle])
    case Rescan(t, comm) =>
      var phase := PhaseOf(w, t);
      var run := ScanRun(k, t, comm, phase.tailCalls < MAX_TAIL_CALLS);
      w.(kernel := run.kernel,
         phases := w.phases[t := if run.tailCall then phase.(tailCalls := phase.tailCalls + 1) else Idle])
    case EnterClose(t, fd, stored) =>
      w.(kernel := CloseEnter(k, t, fd, stored), phases := w.phases[t := InClose(fd, false)])
    case Release(t) =>
      w.(phases := w.phases[t := InClose(PhaseOf(w, t).fd, true)],
         openFds := w.openFds - {FdKey(t.tgid, PhaseOf(w, t).fd)})
    case ExitClose(t) => w.(kernel := CloseExit(k, t), phases := w.phases[t := Idle])
    case UpdatePolicies(policies, commPolicies) =>
      w.(kernel := k.(policies := policies, commPolicies := commPolicies))
    case ChangeMemory(memory) => w.(kernel := k.(memory := memory))
  }

  /** The programs have just been attached: no bookkeeping, and nothing known of calls or descriptors in progress. */
  ghost predicate Init(w: World) {
    && w.kernel.pendingOpens == map[] && w.kernel.trackedFds == {} && w.kernel.buffers == map[]
    && w.kernel.closingFds == map[] && w.kernel.rewrites == map[]
    && (forall key | key in w.openFds :: !w.openFds[key])
    && (forall t :: match PhaseOf(w, t)
                    case InOpen(matched, _, installed) => matched.None? && installed.None?
                    case InRead(_, tracked, _) => !tracked
                    case InScan(_, _, _, _) => false
                    case InClose(fd, released) => released ==> FdKey(t.tgid, fd) !in w.openFds
                    case Idle => true)
  }

  predicate IsRun(w: World, es: seq<Step>)
    decreases |es|
  {
    es == [] || (Enabled(w, es[0]) && IsRun(Next(w, es[0]), es[1..]))
  }

  /** The state after a run. */
  function After(w: World, es: seq<Step>): World
    requires IsRun(w, es)
    decreases |es|
  {
    if es == [] then w else After(Next(w, es[0]), es[1..])
  }

  lemma RunCons(w: World, e: Step, es: seq<Step>)
    requires Enabled(w, e) && IsRun(Next(w, e), es)
    ensures IsRun(w, [e] + es) && After(w, [e] + es) == After(Next(w, e), es)
  {
    assert ([e] + es)[1..] == es;
  }

  lemma RunOfThree(w: World, a: Step, b: Step, c: Step)
    requires Enabled(w, a) && Enabled(Next(w, a), b) && Enabled(Next(Next(w, a), b), c)
    ensures IsRun(w, [a, b, c]) && After(w, [a, b, c]) == Next(Next(Next(w, a), b), c)
  {
    var w1 := Next(w, a);
    var w2 := Next(w1, b);
    assert After(Next(w2, c), []) == Next(w2, c);
    RunCons(w2, c, []);
    RunCons(w1, b, [c] + []);
    RunCons(w, a, [b] + ([c] + []));
    assert [a] + ([b] + ([c] + [])) == [a, b, c];
  }

  lemma {:induction false} RunAppend(w: World, es: seq<Step>, fs: seq<Step>)
    requires IsRun(w, es) && IsRun(After(w, es), fs)
    ensures IsRun(w, es + fs) && After(w, es + fs) == After(After(w, es), fs)
    decreases |es|
  {
    if es == [] {
      assert es + fs == fs;
    } else {
      RunAppend(Next(w, es[0]), es[1..], fs);
      assert es + fs == [es[0]] + (es[1..] + fs);
      RunCons(w, es[0], es[1..] + fs);
    }
  }

  /** An open of `path` that gets `fd`. */
  function OpenTrace(t: Thread, comm: CommKey, path: Str, fd: u32): seq<Step> {
    [EnterOpen(t, comm, Some(path), true), Install(t, fd), ExitOpen(t, fd, true)]
  }

  lemma OpenIsEntered(w: World, t: Thread, comm: CommKey, path: Str)
    requires PhaseOf(w, t).Idle? && MatchedAction(w.kernel, t, comm, Some(path)) == Some(ACTION_REWRITE)
    ensures var v := Next(w, EnterOpen(t, comm, Some(path), true));
            && v.openFds == w.openFds && v.phases == w.phases[t := InOpen(Some(ACTION_REWRITE), true, None)]
            && t in v.kernel.pendingOpens && v.kernel.pendingOpens[t].action == ACTION_REWRITE
            && v.kernel == w.kernel.(pendingOpens := w.kernel.pendingOpens[t := v.kernel.pendingOpens[t]],
                                     events := v.kernel.events)
  {
  }

  /** An undisturbed open that a rewrite policy matches makes its descriptor tracked. */
  lemma OpenIsTracked(w: World, t: Thread, comm: CommKey, path: Str, fd: u32)
    requires PhaseOf(w, t).Idle? && t !in w.kernel.pendingOpens && FdKey(t.tgid, fd) !in w.openFds
    requires MatchedAction(w.kernel, t, comm, Some(path)) == Some(ACTION_REWRITE)
    ensures IsRun(w, OpenTrace(t, comm, path, fd))
    ensures var v, key := After(w, OpenTrace(t, comm, path, fd)), FdKey(t.tgid, fd);
            && v.kernel == w.kernel.(trackedFds := w.kernel.trackedFds + {key}, events := v.kernel.events)
            && v.openFds == w.openFds[key := true]
            && forall u :: PhaseOf(v, u) == PhaseOf(w, u)
  {
    OpenIsEntered(w, t, comm, path);
    OpenIsFinished(w, Next(w, EnterOpen(t, comm, Some(path), true)), t, fd);
    RunOfThree(w, EnterOpen(t, comm, Some(path), true), Install(t, fd), ExitOpen(t, fd, true));
  }

  lemma OpenIsFinished(w: World, w1: World, t: Thread, fd: u32)
    requires PhaseOf(w, t).Idle? && t !in w.kernel.pendingOpens && FdKey(t.tgid, fd) !in w.openFds
    requires w1.openFds == w.openFds && w1.phases == w.phases[t := InOpen(Some(ACTION_REWRITE), true, None)]
    requires t in w1.kernel.pendingOpens && w1.kernel.pendingOpens[t].action == ACTION_REWRITE
    requires w1.kernel == w.kernel.(pendingOpens := w.kernel.pendingOpens[t := w1.kernel.pendingOpens[t]],
                                    events := w1.kernel.events)
    ensures Enabled(w1, Install(t, fd)) && Enabled(Next(w1, Install(t, fd)), ExitOpen(t, fd, true))
    ensures var v, key := Next(Next(w1, Install(t, fd)), ExitOpen(t, fd, true)), FdKey(t.tgid, fd);
            && v.kernel == w.kernel.(trackedFds := w.kernel.trackedFds + {key}, events := v.kernel.events)
            && v.openFds == w.openFds[key := true]
            && forall u :: PhaseOf(v, u) == PhaseOf(w, u)
  {
    assert w1.kernel.pendingOpens - {t} == w.kernel.pendingOpens;
  }

  // ----- what a step leaves alone -----

  /** The state in which the first scanner run of a prepared read exit starts. */
  function Prepared(k: Kernel, t: Thread, ret: int, stored: bool): Kernel
  {
    if stored && t in k.buffers
    then k.(rewrites := k.rewrites[t := RewriteState(k.buffers[t], ClampScanLen(ret), 0, 0)])
    else k
  }

  /** The two tables agree on every thread but `t`. */
  ghost predicate SameBut<V(!new)>(m: map<Thread, V>, m': map<Thread, V>, t: Thread) {
    forall u | u != t :: (u in m' <==> u in m) && (u in m ==> m'[u] == m[u])
  }

  /** From `k` to `k'` only thread `t` has run: no other per-thread entry, no descriptor and no memory of another
      process has changed, nor have the policies. */
  ghost predicate OnlyRan(k: Kernel, k': Kernel, t: Thread) {
    && k'.policies == k.policies && k'.commPolicies == k.commPolicies
    && SameBut(k.pendingOpens, k'.pendingOpens, t)
    && SameBut(k.closingFds, k'.closingFds, t)
    && SameBut(k.buffers, k'.buffers, t)
    && SameBut(k.rewrites, k'.rewrites, t)
    && (forall key: FdKey | key.tgid != t.tgid :: key in k'.trackedFds <==> key in k.trackedFds)
    && k'.memory.bytes.Keys == k.memory.bytes.Keys
    && (forall l | l in k.memory.bytes && l.tgid != t.tgid :: k'.memory.bytes[l] == k.memory.bytes[l])
  }

  /** What a read exit or a run of the scanner can change besides memory and events. */
  ghost predicate OnlyReadState(k: Kernel, k': Kernel, t: Thread) {
    && k' == k.(memory := k'.memory, events := k'.events, buffers := k'.buffers, rewrites := k'.rewrites)
    && SameBut(k.buffers, k'.buffers, t)
    && SameBut(k.rewrites, k'.rewrites, t)
  }

  lemma ScanRunKeeps(k: Kernel, t: Thread, comm: CommKey, canTailCall: bool)
    ensures OnlyReadState(k, ScanRun(k, t, comm, canTailCall).kernel, t)
  {
  }

  lemma ReadExitKeeps(k: Kernel, t: Thread, comm: CommKey, ret: int, stored: bool)
    ensures OnlyReadState(k, ReadExit(k, t, comm, ret, stored).kernel, t)
  {
    if PreparesScan(k, t, comm, ret) {
      ScanRunKeeps(Prepared(k, t, ret, stored), t, comm, true);
    }
  }

  lemma ScanRunFrame(k: Kernel, t: Thread, comm: CommKey, canTailCall: bool)
    ensures OnlyRan(k, ScanRun(k, t, comm, canTailCall).kernel, t)
  {
    ScanRunKeeps(k, t, comm, canTailCall);
    RunStaysInside(k, t, comm, canTailCall);
  }

  lemma ReadExitFrame(k: Kernel, t: Thread, comm: CommKey, ret: int, stored: bool)
    ensures OnlyRan(k, ReadExit(k, t, comm, ret, stored).kernel, t)
  {
    ReadExitKeeps(k, t, comm, ret, stored);
    RunStaysInside(Prepared(k, t, ret, stored), t, comm, true);
  }

  lemma RecordFrame(k: Kernel, t: Thread, pending: PendingOpen, events: seq<Event>)
    ensures OnlyRan(k, k.(events := events), t)
    ensures OnlyRan(k, k.(pendingOpens := k.pendingOpens[t := pending], events := events), t)
  {
  }

  lemma OpenEnterFrame(k: Kernel, t: Thread, comm: CommKey, path: Option<Str>, stored: bool)
    ensures OnlyRan(k, OpenEnter(k, t, comm, path, stored), t)
  {
    if MatchedAction(k, t, comm, path).Some? {
      RecordFrame(k, t, PendingOpen(MatchedAction(k, t, comm, path).value, Fixed(64, CString(path.value))),
                  OpenEnter(k, t, comm, path, stored).events);
    }
  }

  lemma OpenExitFrame(k: Kernel, t: Thread, ret: int, stored: bool)
    ensures OnlyRan(k, OpenExit(k, t, ret, stored), t)
  {
  }

  lemma CloseFrame(k: Kernel, t: Thread, fd: u32, stored: bool)
    ensures OnlyRan(k, CloseEnter(k, t, fd, stored), t)
    ensures OnlyRan(k, CloseExit(k, t), t)
  {
  }

  /** Main frame result: a step touches the entries of its own thread, and the descriptors and memory of its own
      process; those of other threads and processes it leaves alone. */
  lemma {:induction false} StepFrame(w: World, e: Step, t: Thread)
    requires Enabled(w, e) && Acts(e, t)
    ensures OnlyRan(w.kernel, Next(w, e).kernel, t)
    ensures forall u: Thread | u != t :: PhaseOf(Next(w, e), u) == PhaseOf(w, u)
    ensures forall key: FdKey | key.tgid != t.tgid ::
              (key in Next(w, e).openFds <==> key in w.openFds) &&
              (key in w.openFds ==> Next(w, e).openFds[key] == w.openFds[key])
  {
    var k := w.kernel;
    match e
    case EnterOpen(_, comm, path, stored) => OpenEnterFrame(k, t, comm, path, stored);
    case ExitOpen(_, ret, stored) => OpenExitFrame(k, t, ret, stored);
    case ExitRead(_, comm, ret, stored) => ReadExitFrame(k, t, comm, ret, stored);
    case Rescan(_, comm) => ScanRunFrame(k, t, comm, PhaseOf(w, t).tailCalls < MAX_TAIL_CALLS);
    case EnterClose(_, fd, stored) => CloseFrame(k, t, fd, stored);
    case ExitClose(_) => CloseFrame(k, t, 0, false);
    case _ =>
  }

  // ----- a thread in the middle of a call -----

  /** The thread stays where it is, up to hook calls. */
  predicate Waits(es: seq<Step>, t: Thread) {
    forall i | 0 <= i < |es| && Acts(es[i], t) :: es[i].FileOpenHook?
  }

  lemma {:induction false} PhaseKept(w: World, es: seq<Step>, t: Thread)
    requires IsRun(w, es) && Waits(es, t)
    ensures PhaseOf(After(w, es), t) == PhaseOf(w, t)
    decreases |es|
  {
    if es != [] {
      var e := es[0];
      if !Acts(e, t) && !e.UpdatePolicies? && !e.ChangeMemory? {
        StepFrame(w, e, e.t);
      }
      PhaseKept(Next(w, e), es[1..], t);
    }
  }

  lemma {:induction false} PendingKept(w: World, es: seq<Step>, t: Thread)
    requires IsRun(w, es) && Waits(es, t)
    ensures t in After(w, es).kernel.pendingOpens <==> t in w.kernel.pendingOpens
    ensures t in w.kernel.pendingOpens ==> After(w, es).kernel.pendingOpens[t] == w.kernel.pendingOpens[t]
    decreases |es|
  {
    if es != [] {
      var e := es[0];
      if !Acts(e, t) && !e.UpdatePolicies? && !e.ChangeMemory? {
        StepFrame(w, e, e.t);
      }
      PendingKept(Next(w, e), es[1..], t);
    }
  }

  // ----- what single steps report and clean up -----

  /** The events that a step of the open handlers adds, byte for byte: one for an open whose policy matches, and one for a
      denial, with the path as it was copied at the entry. */
  lemma OpenStepsReport(w: World, e: Step)
    requires Enabled(w, e) && (e.EnterOpen? || e.FileOpenHook? || e.ExitOpen?)
    ensures Next(w, e).kernel.events == w.kernel.events +
            match e
            case EnterOpen(t, comm, path, _) =>
              (match MatchedAction(w.kernel, t, comm, path)
               case Some(action) => [Event(t, action, OpOpen, 0, comm, Fixed(64, CString(path.value)))]
               case None => [])
            case FileOpenHook(t, comm, ret) =>
              if ret == 0 && t in w.kernel.pendingOpens && w.kernel.pendingOpens[t].action == 1
              then [Event(t, 1, OpBlock, -2, comm, w.kernel.pendingOpens[t].path)] else []
            case _ => []
  {
  }

  /** A policy that passes, and a path that cannot be read, match no open. */
  lemma PassMatchesNothing(k: Kernel, t: Thread, comm: CommKey, path: Option<Str>)
    requires path.None? || (LookupPolicy(k, t, comm).Some? && LookupPolicy(k, t, comm).value.action == 0)
    ensures MatchedAction(k, t, comm, path) == None
  {
  }

  /** A close that was recorded at its entry takes back the descriptor, the record and any address that a read of the
      thread has left behind. */
  lemma CloseCleansUp(w: World, t: Thread)
    requires Enabled(w, ExitClose(t)) && t in w.kernel.closingFds
    ensures var k := Next(w, ExitClose(t)).kernel;
            && FdKey(t.tgid, w.kernel.closingFds[t]) !in k.trackedFds && t !in k.closingFds && t !in k.buffers
  {
  }
}
