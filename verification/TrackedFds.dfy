/** Which descriptors of a process are tracked, over every run in which its opens and closes do not overlap, whatever the
    other processes do. */
module TrackedFds {
  import opened Bytes
  import opened Encoding
  import opened KernelSpec
  import opened SyscallProtocol
  import opened HideOpens

  /** Inside an open or a close. */
  predicate Busy(phase: Phase) {
    phase.InOpen? || phase.InClose?
  }

  ghost predicate Quiet(w: World, tgid: u32) {
    forall t: Thread | t.tgid == tgid :: !Busy(PhaseOf(w, t))
  }

  /** At most one thread of the process is inside an open or a close. */
  ghost predicate Serialized(w: World, tgid: u32) {
    forall t: Thread, u: Thread | t.tgid == u.tgid == tgid && Busy(PhaseOf(w, t)) && Busy(PhaseOf(w, u)) :: t == u
  }

  /** A thread of the process takes the step. */
  predicate Concerns(e: Step, tgid: u32) {
    !e.UpdatePolicies? && !e.ChangeMemory? && e.t.tgid == tgid
  }

  /** A step of the process keeps its opens and closes apart, and its map update succeeds. */
  ghost predicate Orderly(w: World, e: Step, tgid: u32) {
    Concerns(e, tgid) ==>
      match e
      case EnterOpen(_, _, _, stored) => Quiet(w, tgid) && stored
      case ExitOpen(_, _, stored) => stored
      case EnterClose(_, _, stored) => Quiet(w, tgid) && stored
      case _ => true
  }

  ghost predicate OrderlyRun(w: World, es: seq<Step>, tgid: u32)
    requires IsRun(w, es)
    decreases |es|
  {
    es == [] || (Orderly(w, es[0], tgid) && OrderlyRun(Next(w, es[0]), es[1..], tgid))
  }

  /** The descriptor is open and came from an open whose entry matched a rewrite policy. */
  predicate OpenForRewrite(w: World, key: FdKey) {
    key in w.openFds && w.openFds[key]
  }

  /** `t` has installed the descriptor but not yet returned from its open. */
  predicate Opening(w: World, t: Thread, key: FdKey) {
    t.tgid == key.tgid && PhaseOf(w, t).InOpen? && PhaseOf(w, t).installed == Some(key.fd)
  }

  /** The kernel has released the descriptor but `t` has not yet returned from its close. */
  predicate Closing(w: World, t: Thread, key: FdKey) {
    t.tgid == key.tgid && PhaseOf(w, t) == InClose(key.fd, true)
  }

  /** What is known of a thread inside an open or a close. */
  ghost predicate CallInv(w: World, t: Thread) {
    match PhaseOf(w, t)
    case InOpen(matched, recorded, installed) =>
      && t !in w.kernel.closingFds && (matched.Some? ==> recorded)
      && (match installed
          case None => true
          case Some(fd) =>
            && FdKey(t.tgid, fd) !in w.kernel.trackedFds && FdKey(t.tgid, fd) in w.openFds
            && (w.openFds[FdKey(t.tgid, fd)] <==> matched == Some(ACTION_REWRITE)))
    case InClose(fd, released) =>
      && (t in w.kernel.closingFds <==> FdKey(t.tgid, fd) in w.kernel.trackedFds)
      && (t in w.kernel.closingFds ==> w.kernel.closingFds[t] == fd)
      && (released ==> FdKey(t.tgid, fd) !in w.openFds)
    case _ => t !in w.kernel.closingFds
  }

  /** Tracked and open for rewriting differ only for a descriptor that an open or close in progress is about. */
  ghost predicate FdInv(w: World, key: FdKey) {
    && (key in w.kernel.trackedFds && !OpenForRewrite(w, key) ==> exists t :: Closing(w, t, key))
    && (OpenForRewrite(w, key) && key !in w.kernel.trackedFds ==> exists t :: Opening(w, t, key))
  }

  ghost predicate Inv(w: World, tgid: u32) {
    && AllPending(w) && Serialized(w, tgid)
    && (forall t: Thread | t.tgid == tgid :: CallInv(w, t))
    && (forall key: FdKey | key.tgid == tgid :: FdInv(w, key))
  }

  lemma SerializedStep(w: World, e: Step, tgid: u32)
    requires Enabled(w, e) && Serialized(w, tgid) && Orderly(w, e, tgid)
    ensures Serialized(Next(w, e), tgid)
  {
    if !e.UpdatePolicies? && !e.ChangeMemory? {
      StepFrame(w, e, e.t);
    }
  }

  /** A step of another thread keeps what is known of a call: only a call of the same process could disturb it. */
  lemma CallOfOther(w: World, e: Step, u: Thread)
    requires Enabled(w, e) && Inv(w, u.tgid) && Orderly(w, e, u.tgid) && !Acts(e, u)
    ensures CallInv(Next(w, e), u)
  {
    assert CallInv(w, u);
    if !e.UpdatePolicies? && !e.ChangeMemory? {
      StepFrame(w, e, e.t);
      match e
      case ExitRead(t, comm, ret, stored) => ReadExitKeeps(w.kernel, t, comm, ret, stored);
      case Rescan(t, comm) => ScanRunKeeps(w.kernel, t, comm, PhaseOf(w, t).tailCalls < MAX_TAIL_CALLS);
      case _ =>
    }
  }

  lemma CallOfActor(w: World, e: Step, t: Thread)
    requires Enabled(w, e) && Inv(w, t.tgid) && Orderly(w, e, t.tgid) && Acts(e, t)
    ensures CallInv(Next(w, e), t)
  {
    assert CallInv(w, t) && PendingInv(w.kernel, t, PhaseOf(w, t));
    match e
    case Install(_, fd) =>
      var key := FdKey(t.tgid, fd);
      assert FdInv(w, key);
    case ExitRead(_, comm, ret, stored) => ReadExitKeeps(w.kernel, t, comm, ret, stored);
    case Rescan(_, comm) => ScanRunKeeps(w.kernel, t, comm, PhaseOf(w, t).tailCalls < MAX_TAIL_CALLS);
    case _ =>
  }

  /** The steps that change the descriptors of a process. */
  predicate ChangesDescriptors(e: Step, tgid: u32) {
    Concerns(e, tgid) && (e.Install? || e.ExitOpen? || e.Release? || e.ExitClose?)
  }

  lemma DescriptorsKept(w: World, e: Step, key: FdKey)
    requires Enabled(w, e) && !ChangesDescriptors(e, key.tgid)
    ensures key in Next(w, e).kernel.trackedFds <==> key in w.kernel.trackedFds
    ensures OpenForRewrite(Next(w, e), key) <==> OpenForRewrite(w, key)
  {
    if !e.UpdatePolicies? && !e.ChangeMemory? {
      StepFrame(w, e, e.t);
      match e
      case ExitRead(t, comm, ret, stored) => ReadExitKeeps(w.kernel, t, comm, ret, stored);
      case Rescan(t, comm) => ScanRunKeeps(w.kernel, t, comm, PhaseOf(w, t).tailCalls < MAX_TAIL_CALLS);
      case _ =>
    }
  }

  lemma CallsInProgressKept(w: World, e: Step, key: FdKey)
    requires Enabled(w, e)
    ensures forall t | !Acts(e, t) && Closing(w, t, key) :: Closing(Next(w, e), t, key)
    ensures forall t | !Acts(e, t) && Opening(w, t, key) :: Opening(Next(w, e), t, key)
    ensures !ChangesDescriptors(e, key.tgid) ==> forall t | Closing(w, t, key) :: Closing(Next(w, e), t, key)
    ensures !ChangesDescriptors(e, key.tgid) ==> forall t | Opening(w, t, key) :: Opening(Next(w, e), t, key)
  {
    if !e.UpdatePolicies? && !e.ChangeMemory? {
      StepFrame(w, e, e.t);
    }
  }

  lemma DescriptorChange(w: World, e: Step, key: FdKey)
    requires Enabled(w, e) && Inv(w, key.tgid) && Orderly(w, e, key.tgid) && ChangesDescriptors(e, key.tgid)
    ensures FdInv(Next(w, e), key)
  {
    assert FdInv(w, key) && CallInv(w, e.t) && PendingInv(w.kernel, e.t, PhaseOf(w, e.t));
    CallsInProgressKept(w, e, key);
    match e
    case Install(t, fd) => assert Opening(Next(w, e), t, FdKey(t.tgid, fd));
    case Release(t) => assert Closing(Next(w, e), t, FdKey(t.tgid, PhaseOf(w, t).fd));
    case _ =>
  }

  lemma DescriptorStep(w: World, e: Step, key: FdKey)
    requires Enabled(w, e) && Inv(w, key.tgid) && Orderly(w, e, key.tgid)
    ensures FdInv(Next(w, e), key)
  {
    if ChangesDescriptors(e, key.tgid) {
      DescriptorChange(w, e, key);
    } else {
      assert FdInv(w, key);
      DescriptorsKept(w, e, key);
      CallsInProgressKept(w, e, key);
    }
  }

  lemma InvStep(w: World, e: Step, tgid: u32)
    requires Enabled(w, e) && Inv(w, tgid) && Orderly(w, e, tgid)
    ensures Inv(Next(w, e), tgid)
  {
    PendingStep(w, e);
    SerializedStep(w, e, tgid);
    forall t: Thread | t.tgid == tgid
      ensures CallInv(Next(w, e), t)
    {
      if Acts(e, t) {
        CallOfActor(w, e, t);
      } else {
        CallOfOther(w, e, t);
      }
    }
    forall key: FdKey | key.tgid == tgid
      ensures FdInv(Next(w, e), key)
    {
      DescriptorStep(w, e, key);
    }
  }

  lemma {:induction false} InvOverRun(w: World, es: seq<Step>, tgid: u32)
    requires IsRun(w, es) && OrderlyRun(w, es, tgid) && Inv(w, tgid)
    ensures Inv(After(w, es), tgid)
    decreases |es|
  {
    if es != [] {
      InvStep(w, es[0], tgid);
      InvOverRun(Next(w, es[0]), es[1..], tgid);
    }
  }

  /** Main result: whenever no thread of a process is inside an open or a close, the tracked descriptors of the
      process are exactly those that are open and came from an open that matched a rewrite policy at its entry,
      whichever of its threads opened, read or closed them, and whatever the other processes do. */
  lemma TrackedExactlyWhenOpenForRewrite(w: World, es: seq<Step>, key: FdKey)
    requires Init(w) && Serialized(w, key.tgid) && IsRun(w, es) && OrderlyRun(w, es, key.tgid)
    requires Quiet(After(w, es), key.tgid)
    ensures key in After(w, es).kernel.trackedFds <==> OpenForRewrite(After(w, es), key)
  {
    InvOverRun(w, es, key.tgid);
    assert FdInv(After(w, es), key);
  }

  // ----- why opens and closes must not overlap, and map updates must succeed -----

  /** Two idle threads of one process whose opens of `path` match a rewrite policy, right after attachment. */
  ghost predicate Setting(w: World, a: Thread, b: Thread, comm: CommKey, path: Str, fd: u32) {
    && Init(w) && a.tgid == b.tgid && a != b && PhaseOf(w, a).Idle? && PhaseOf(w, b).Idle?
    && FdKey(a.tgid, fd) !in w.openFds
    && MatchedAction(w.kernel, a, comm, Some(path)) == Some(ACTION_REWRITE)
  }

  /** Two threads of one process are governed by the same policies. */
  lemma SameMatch(k: Kernel, k': Kernel, a: Thread, b: Thread, comm: CommKey, path: Option<Str>)
    requires a.tgid == b.tgid && k'.policies == k.policies && k'.commPolicies == k.commPolicies
    ensures MatchedAction(k', b, comm, path) == MatchedAction(k, a, comm, path)
  {
  }

  /** One thread closes a descriptor while another opens the same number again. */
  function OverlapTrace(a: Thread, b: Thread, comm: CommKey, path: Str, fd: u32): seq<Step> {
    [EnterClose(a, fd, true), Release(a), EnterOpen(b, comm, Some(path), true)] +
    [Install(b, fd), ExitOpen(b, fd, true), ExitClose(a)]
  }

  lemma OverlapFromTracked(w: World, a: Thread, b: Thread, comm: CommKey, path: Str, fd: u32)
    requires a.tgid == b.tgid && a != b && PhaseOf(w, a).Idle? && PhaseOf(w, b).Idle?
    requires var key := FdKey(a.tgid, fd); key in w.kernel.trackedFds && OpenForRewrite(w, key)
    requires MatchedAction(w.kernel, b, comm, Some(path)) == Some(ACTION_REWRITE)
    ensures var es, key := OverlapTrace(a, b, comm, path, fd), FdKey(a.tgid, fd);
            && IsRun(w, es) && OpenForRewrite(After(w, es), key) && key !in After(w, es).kernel.trackedFds
  {
    var key := FdKey(a.tgid, fd);
    RunOfThree(w, EnterClose(a, fd, true), Release(a), EnterOpen(b, comm, Some(path), true));
    var v := After(w, [EnterClose(a, fd, true), Release(a), EnterOpen(b, comm, Some(path), true)]);
    assert PhaseOf(v, a) == InClose(fd, true) && PhaseOf(v, b) == InOpen(Some(ACTION_REWRITE), true, None);
    assert key !in v.openFds && v.kernel.closingFds[a] == fd && v.kernel.pendingOpens[b].action == ACTION_REWRITE;
    RunOfThree(v, Install(b, fd), ExitOpen(b, fd, true), ExitClose(a));
    RunAppend(w, [EnterClose(a, fd, true), Release(a), EnterOpen(b, comm, Some(path), true)],
              [Install(b, fd), ExitOpen(b, fd, true), ExitClose(a)]);
  }

  /** From attachment on: the descriptor is open and came from a matching open, but it is not tracked. */
  lemma OverlapLosesDescriptor(w: World, a: Thread, b: Thread, comm: CommKey, path: Str, fd: u32)
    requires Setting(w, a, b, comm, path, fd)
    ensures var es := OpenTrace(a, comm, path, fd) + OverlapTrace(a, b, comm, path, fd);
            var key := FdKey(a.tgid, fd);
            && IsRun(w, es) && OpenForRewrite(After(w, es), key) && key !in After(w, es).kernel.trackedFds
  {
    OpenIsTracked(w, a, comm, path, fd);
    var v := After(w, OpenTrace(a, comm, path, fd));
    SameMatch(w.kernel, v.kernel, a, b, comm, Some(path));
    OverlapFromTracked(v, a, b, comm, path, fd);
    RunAppend(w, OpenTrace(a, comm, path, fd), OverlapTrace(a, b, comm, path, fd));
  }

  /** One thread closes a descriptor that another has just been given but not yet returned from opening. */
  function EarlyCloseTrace(a: Thread, b: Thread, comm: CommKey, path: Str, fd: u32): seq<Step> {
    [EnterOpen(a, comm, Some(path), true), Install(a, fd), EnterClose(b, fd, true)] +
    [Release(b), ExitOpen(a, fd, true), ExitClose(b)]
  }

  lemma CloseIsEntered(w: World, a: Thread, b: Thread, comm: CommKey, path: Str, fd: u32, v: World)
    requires Setting(w, a, b, comm, path, fd)
    requires v == Next(Next(Next(w, EnterOpen(a, comm, Some(path), true)), Install(a, fd)), EnterClose(b, fd, true))
    ensures PhaseOf(v, b) == InClose(fd, false) && PhaseOf(v, a) == InOpen(Some(ACTION_REWRITE), true, Some(fd))
    ensures v.kernel.closingFds == map[] && v.kernel.pendingOpens.Keys == {a}
    ensures v.kernel.pendingOpens[a].action == ACTION_REWRITE
    ensures v.kernel.policies == w.kernel.policies && v.kernel.commPolicies == w.kernel.commPolicies
  {
    OpenIsEntered(w, a, comm, path);
  }

  /** The number of a closed descriptor stays tracked. */
  lemma OverlapKeepsDescriptor(w: World, a: Thread, b: Thread, comm: CommKey, path: Str, fd: u32)
    requires Setting(w, a, b, comm, path, fd)
    ensures var es, key := EarlyCloseTrace(a, b, comm, path, fd), FdKey(a.tgid, fd);
            && IsRun(w, es)
            && key in After(w, es).kernel.trackedFds && key !in After(w, es).openFds
            && PhaseOf(After(w, es), b).Idle? && b !in After(w, es).kernel.pendingOpens
            && After(w, es).kernel.policies == w.kernel.policies
            && After(w, es).kernel.commPolicies == w.kernel.commPolicies
  {
    OpenIsEntered(w, a, comm, path);
    var v := Next(Next(Next(w, EnterOpen(a, comm, Some(path), true)), Install(a, fd)), EnterClose(b, fd, true));
    RunOfThree(w, EnterOpen(a, comm, Some(path), true), Install(a, fd), EnterClose(b, fd, true));
    CloseIsEntered(w, a, b, comm, path, fd, v);
    CloseIsFinished(v, a, b, fd);
    RunOfThree(v, Release(b), ExitOpen(a, fd, true), ExitClose(b));
    RunAppend(w, [EnterOpen(a, comm, Some(path), true), Install(a, fd), EnterClose(b, fd, true)],
              [Release(b), ExitOpen(a, fd, true), ExitClose(b)]);
  }

  lemma CloseIsFinished(v: World, a: Thread, b: Thread, fd: u32)
    requires a.tgid == b.tgid && a != b && PhaseOf(v, b) == InClose(fd, false)
    requires PhaseOf(v, a) == InOpen(Some(ACTION_REWRITE), true, Some(fd))
    requires v.kernel.closingFds == map[] && v.kernel.pendingOpens.Keys == {a}
    requires v.kernel.pendingOpens[a].action == ACTION_REWRITE
    ensures Enabled(v, Release(b)) && Enabled(Next(v, Release(b)), ExitOpen(a, fd, true))
    ensures Enabled(Next(Next(v, Release(b)), ExitOpen(a, fd, true)), ExitClose(b))
    ensures var v' := Next(Next(Next(v, Release(b)), ExitOpen(a, fd, true)), ExitClose(b));
            && FdKey(a.tgid, fd) in v'.kernel.trackedFds && FdKey(a.tgid, fd) !in v'.openFds
            && PhaseOf(v', b).Idle? && v'.kernel.pendingOpens == map[]
            && v'.kernel.policies == v.kernel.policies && v'.kernel.commPolicies == v.kernel.commPolicies
  {
  }

  /** An open that no policy matches, and the entry of a read of its descriptor. */
  function UnrelatedTrace(t: Thread, comm: CommKey, other: Str, fd: u32, buf: u64): seq<Step> {
    [EnterOpen(t, comm, Some(other), true), Install(t, fd), ExitOpen(t, fd, true)] + [EnterRead(t, fd, buf, true)]
  }

  lemma StaleNumberIsRead(v: World, t: Thread, comm: CommKey, other: Str, fd: u32, buf: u64)
    requires PhaseOf(v, t).Idle? && t !in v.kernel.pendingOpens
    requires FdKey(t.tgid, fd) in v.kernel.trackedFds && FdKey(t.tgid, fd) !in v.openFds
    requires MatchedAction(v.kernel, t, comm, Some(other)) == None
    ensures var es := UnrelatedTrace(t, comm, other, fd, buf);
            && IsRun(v, es) && FdKey(t.tgid, fd) in After(v, es).openFds
            && !OpenForRewrite(After(v, es), FdKey(t.tgid, fd)) && PhaseOf(After(v, es), t) == InRead(buf, true, true)
  {
    var open: seq<Step> := [EnterOpen(t, comm, Some(other), true), Install(t, fd), ExitOpen(t, fd, true)];
    RunOfThree(v, open[0], open[1], open[2]);
    var u := After(v, open);
    assert After(Next(u, EnterRead(t, fd, buf, true)), []) == Next(u, EnterRead(t, fd, buf, true));
    RunCons(u, EnterRead(t, fd, buf, true), []);
    assert [EnterRead(t, fd, buf, true)] + [] == [EnterRead(t, fd, buf, true)];
    RunAppend(v, open, [EnterRead(t, fd, buf, true)]);
  }

  /** From attachment on: a later open of the same number that no policy matches is read as if it were to be rewritten. */
  lemma OverlapRewritesUnrelatedFile(w: World, a: Thread, b: Thread, comm: CommKey, path: Str, other: Str, fd: u32,
                                     buf: u64)
    requires Setting(w, a, b, comm, path, fd) && MatchedAction(w.kernel, a, comm, Some(other)) == None
    ensures var es := EarlyCloseTrace(a, b, comm, path, fd) + UnrelatedTrace(b, comm, other, fd, buf);
            && IsRun(w, es) && !OpenForRewrite(After(w, es), FdKey(a.tgid, fd))
            && PhaseOf(After(w, es), b) == InRead(buf, true, true)
  {
    OverlapKeepsDescriptor(w, a, b, comm, path, fd);
    var v := After(w, EarlyCloseTrace(a, b, comm, path, fd));
    SameMatch(w.kernel, v.kernel, a, b, comm, Some(other));
    StaleNumberIsRead(v, b, comm, other, fd, buf);
    RunAppend(w, EarlyCloseTrace(a, b, comm, path, fd), UnrelatedTrace(b, comm, other, fd, buf));
  }

  /** Without overlap, but with one of the two updates of an open failing, its descriptor is not tracked. */
  lemma UnstoredOpenLosesDescriptor(w: World, a: Thread, b: Thread, comm: CommKey, path: Str, fd: u32, entry: bool,
                                    exit: bool)
    requires Setting(w, a, b, comm, path, fd) && !(entry && exit)
    ensures var es: seq<Step> := [EnterOpen(a, comm, Some(path), entry), Install(a, fd), ExitOpen(a, fd, exit)];
            && IsRun(w, es) && OpenForRewrite(After(w, es), FdKey(a.tgid, fd))
            && FdKey(a.tgid, fd) !in After(w, es).kernel.trackedFds
  {
    RunOfThree(w, EnterOpen(a, comm, Some(path), entry), Install(a, fd), ExitOpen(a, fd, exit));
  }

  /** With the update of a close failing, its descriptor stays tracked. */
  lemma UnstoredCloseKeepsDescriptor(w: World, a: Thread, b: Thread, comm: CommKey, path: Str, fd: u32)
    requires Setting(w, a, b, comm, path, fd)
    ensures var es := OpenTrace(a, comm, path, fd) + [EnterClose(a, fd, false), Release(a), ExitClose(a)];
            && IsRun(w, es) && FdKey(a.tgid, fd) !in After(w, es).openFds
            && FdKey(a.tgid, fd) in After(w, es).kernel.trackedFds
  {
    OpenIsTracked(w, a, comm, path, fd);
    var v := After(w, OpenTrace(a, comm, path, fd));
    RunOfThree(v, EnterClose(a, fd, false), Release(a), ExitClose(a));
    RunAppend(w, OpenTrace(a, comm, path, fd), [EnterClose(a, fd, false), Release(a), ExitClose(a)]);
  }
}
