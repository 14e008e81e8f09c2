/** From a rule in the file to what a process sees: validation, compilation, encoding, lookup and rewriting together. */
module EndToEnd {
  import opened Bytes
  import opened Encoding
  import opened Greedy
  import opened KernelSpec
  import opened Rewriting
  import opened Rules
  import opened Compiler
  import opened SyscallProtocol
  import opened Isolation
  import opened HideOpens
  import opened InterleavedScans

  /** The rules that select the task, whichever way. */
  function Selecting(rs: Ruleset, procs: seq<Process>, canon: Canon, t: Thread, comm: CommKey): set<Rule> {
    PidRules(rs.rules, procs, canon, t.tgid) + CommRules(rs.rules, comm)
  }

  /** The kernel runs with the compiled tables of a valid ruleset. */
  ghost predicate Enforces(k: Kernel, rs: Ruleset, procs: seq<Process>, canon: Canon) {
    ValidRuleset(rs) && IsCompilation(rs.rules, procs, canon, Compiled(k.policies, k.commPolicies))
  }

  /** The policy the kernel finds is that of the best selecting rule. */
  lemma LookupOfChampion(k: Kernel, rs: Ruleset, procs: seq<Process>, canon: Canon, t: Thread, comm: CommKey, r: Rule)
    requires Enforces(k, rs, procs, canon) && Champion(Selecting(rs, procs, canon, t, comm), r)
    ensures LookupPolicy(k, t, comm) == Some(PolicyFor(r))
  {
    var selecting := Selecting(rs, procs, canon, t, comm);
    LookupFindsBestRule(rs, procs, canon, Compiled(k.policies, k.commPolicies), k, t, comm);
    ValidRulesAreComparable(rs, selecting);
    var q :| Champion(selecting, q) && LookupPolicy(k, t, comm) == Some(PolicyFor(q));
    ChampionIsUnique(selecting, q, r);
  }

  /** A rewrite rule of at most 63 bytes reaches the kernel's loops byte for byte. */
  lemma RuleTextReachesKernel(r: Rule)
    requires ValidRule(r) && r.action.kind.Rewrite? && |r.action.find| < MAX_TEXT_LEN
    ensures Rewrites(PolicyFor(r))
    ensures FindText(PolicyFor(r)) == r.action.find && ReplaceText(PolicyFor(r)) == r.action.replace
  {
    assert !Suffers(r, LengthsDiffer) && !Suffers(r, MissingFind);
    TextFidelity(ACTION_REWRITE, r.match_.path, r.action.find, r.action.replace);
  }

  /** Main result: a process whose best rule rewrites sees, in the scanned part of a tracked read that is long enough
      for the text, its file's bytes with every greedy occurrence of the rule's `find` replaced by its `replace`, and
      everything else as it was. */
  lemma ProcessSeesRewrittenText(w: World, before: seq<Step>, rs: Ruleset, procs: seq<Process>, canon: Canon,
                                 t: Thread, comm: CommKey, r: Rule, buf: u64, ret: int)
    requires Init(w) && IsRun(w, before)
    requires PhaseOf(After(w, before), t) == InRead(buf, true, true) && buf != 0
    requires Enforces(After(w, before).kernel, rs, procs, canon)
    requires Champion(Selecting(rs, procs, canon, t, comm), r) && r.action.kind.Rewrite?
    requires |r.action.find| < MAX_TEXT_LEN && |r.action.find| <= ClampScanLen(ret)
    requires Accessible(After(w, before).kernel.memory, t.tgid, buf, ClampScanLen(ret))
    ensures var k, n := After(w, before).kernel, ClampScanLen(ret);
            var k' := CompleteReadExit(k, t, comm, ret, true);
            && 0 < |r.action.find| == |r.action.replace|
            && Accessible(k'.memory, t.tgid, buf, n)
            && Contents(k'.memory, t.tgid, buf, n) ==
               Replace(Contents(k.memory, t.tgid, buf, n), r.action.find, r.action.replace)
            && SameOutside(k.memory, k'.memory, t.tgid, buf, 0, n)
  {
    var v := After(w, before);
    SavedOverRun(w, before);
    assert SavedInv(v.kernel, t, PhaseOf(v, t));
    LookupOfChampion(v.kernel, rs, procs, canon, t, comm, r);
    assert r in rs.rules && ValidRule(r);
    RuleTextReachesKernel(r);
    RewriteTextsAreEqual(r);
    ReadIsRewritten(v.kernel, t, comm, ret);
  }

  lemma RewriteTextsAreEqual(r: Rule)
    requires ValidRule(r) && r.action.kind.Rewrite?
    ensures 0 < |r.action.find| == |r.action.replace|
  {
    assert !Suffers(r, LengthsDiffer) && !Suffers(r, MissingFind);
  }

  /** The read as the kernel sees it when it returns `ret` bytes to a task governed by the rule. */
  function ReadUnder(v: World, t: Thread, comm: CommKey, r: Rule, buf: u64, ret: int): Read
    requires Accessible(v.kernel.memory, t.tgid, buf, ClampScanLen(ret))
  {
    Read(t, comm, PolicyFor(r), buf, Contents(v.kernel.memory, t.tgid, buf, ClampScanLen(ret)))
  }

  /** The bytes are those that were read, with the rule applied. */
  ghost predicate RuleApplied(v: World, read: Read, r: Rule) {
    && 0 < |r.action.find| == |r.action.replace| && |read.original| <= MAX_SCAN_BYTES
    && Accessible(v.kernel.memory, read.t.tgid, read.buf, |read.original|)
    && Contents(v.kernel.memory, read.t.tgid, read.buf, |read.original|) ==
       Replace(read.original, r.action.find, r.action.replace)
  }

  /** The same in the running system, where other threads and user space act between the runs of the scan: once the
      scan is over, the process sees its rule applied to the bytes it read. */
  lemma RuleIsApplied(v: World, e: Step, es: seq<Step>, rs: Ruleset, procs: seq<Process>, canon: Canon, r: Rule, buf: u64)
    requires e.ExitRead? && e.stored && AllScans(v) && SavedInv(v.kernel, e.t, PhaseOf(v, e.t))
    requires PhaseOf(v, e.t) == InRead(buf, true, true) && buf != 0
    requires Enforces(v.kernel, rs, procs, canon)
    requires Champion(Selecting(rs, procs, canon, e.t, e.comm), r) && r.action.kind.Rewrite?
    requires |r.action.find| < MAX_TEXT_LEN && |r.action.find| <= ClampScanLen(e.ret)
    requires Accessible(v.kernel.memory, e.t.tgid, buf, ClampScanLen(e.ret))
    requires DuringScan(Next(v, e), es, ReadUnder(v, e.t, e.comm, r, buf, e.ret))
    ensures IsRun(Next(v, e), es)
    ensures var v' := After(Next(v, e), es);
            !PhaseOf(v', e.t).InScan? ==> RuleApplied(v', ReadUnder(v, e.t, e.comm, r, buf, e.ret), r)
  {
    var read := ReadUnder(v, e.t, e.comm, r, buf, e.ret);
    LookupOfChampion(v.kernel, rs, procs, canon, e.t, e.comm, r);
    assert r in rs.rules && ValidRule(r);
    RuleTextReachesKernel(r);
    RewriteTextsAreEqual(r);
    ReturningReadIsRewritten(v, e, es, read);
  }

  /** The policy of a rule that hides, or whose text is longer than the read, does not rewrite it. */
  lemma RuleLeavesRead(r: Rule, ret: int)
    requires ValidRule(r) && (r.action.kind.Hide? || |r.action.find| > ClampScanLen(ret))
    ensures !Rewrites(PolicyFor(r)) || PolicyFor(r).textLen > ClampScanLen(ret)
  {
    assert !Suffers(r, TextTooLong) && !Suffers(r, UnsupportedAction);
  }

  /** A process that no rule selects, or whose best rule hides, or whose read is shorter than the text, keeps its
      bytes. */
  lemma {:induction false} ProcessSeesOriginalText(k: Kernel, rs: Ruleset, procs: seq<Process>, canon: Canon,
                                                   t: Thread, comm: CommKey, ret: int, stored: bool)
    requires Enforces(k, rs, procs, canon)
    requires forall r | Champion(Selecting(rs, procs, canon, t, comm), r) ::
               r.action.kind.Hide? || |r.action.find| > ClampScanLen(ret)
    ensures CompleteReadExit(k, t, comm, ret, stored).memory == k.memory
  {
    assert !PreparesScan(k, t, comm, ret) by {
      LookupFindsBestRule(rs, procs, canon, Compiled(k.policies, k.commPolicies), k, t, comm);
      if LookupPolicy(k, t, comm).Some? {
        var r :| Champion(Selecting(rs, procs, canon, t, comm), r) && LookupPolicy(k, t, comm) == Some(PolicyFor(r));
        assert r in rs.rules;
        RuleLeavesRead(r, ret);
      }
    }
    ReadIsLeftAlone(k, t, comm, ret, stored);
  }

  /** What an open of `path` is governed by when only its rule's own path counts. */
  function ActionOn(r: Rule, path: Str): Option<byte> {
    if path == r.match_.path then Some(if r.action.kind.Hide? then ACTION_HIDE else ACTION_REWRITE) else None
  }

  lemma OpenIsGovernedByMatch(k: Kernel, rs: Ruleset, procs: seq<Process>, canon: Canon, t: Thread, comm: CommKey,
                              r: Rule, path: Str)
    requires Enforces(k, rs, procs, canon) && Champion(Selecting(rs, procs, canon, t, comm), r) && NulFree(path)
    ensures MatchedAction(k, t, comm, Some(path)) ==
            if PathMatches(Fixed(64, r.match_.path), Fixed(64, path))
            then Some(if r.action.kind.Hide? then ACTION_HIDE else ACTION_REWRITE) else None
  {
    LookupOfChampion(k, rs, procs, canon, t, comm, r);
    assert r in rs.rules && ValidRule(r) && !Suffers(r, UnsupportedAction);
    CStringOfNulFree(path);
  }

  /** Opens are governed by the rule exactly when their path is the rule's. */
  ghost predicate GovernsItsPath(k: Kernel, t: Thread, comm: CommKey, r: Rule) {
    forall path: Str | NulFree(path) :: MatchedAction(k, t, comm, Some(path)) == ActionOn(r, path)
  }

  lemma GovernsWhatItMatches(k: Kernel, rs: Ruleset, procs: seq<Process>, canon: Canon, t: Thread, comm: CommKey, r: Rule)
    requires Enforces(k, rs, procs, canon) && Champion(Selecting(rs, procs, canon, t, comm), r)
    ensures GovernsItsPath(k, t, comm, r) <==> ComparesExactly(r.match_.path)
  {
    if GovernsItsPath(k, t, comm, r) {
      forall path: Str | NulFree(path)
        ensures PathMatches(Fixed(64, r.match_.path), Fixed(64, path)) <==> path == r.match_.path
      {
        OpenIsGovernedByMatch(k, rs, procs, canon, t, comm, r, path);
        assert MatchedAction(k, t, comm, Some(path)) == ActionOn(r, path);
      }
    }
    if ComparesExactly(r.match_.path) {
      forall path: Str | NulFree(path)
        ensures MatchedAction(k, t, comm, Some(path)) == ActionOn(r, path)
      {
        OpenIsGovernedByMatch(k, rs, procs, canon, t, comm, r, path);
      }
    }
  }

  /** Main result: every open is governed by the best selecting rule exactly when its path is the rule's path, if and
      only if the rule's path has no NUL inside and at most 62 bytes. */
  lemma OpenIsGovernedByPath(k: Kernel, rs: Ruleset, procs: seq<Process>, canon: Canon, t: Thread, comm: CommKey,
                             r: Rule)
    requires Enforces(k, rs, procs, canon) && Champion(Selecting(rs, procs, canon, t, comm), r)
    ensures GovernsItsPath(k, t, comm, r) <==> NulFree(r.match_.path) && |r.match_.path| <= 62
  {
    assert r in rs.rules && ValidRule(r) && !Suffers(r, RelativePath);
    PathEqualityIsExact(r.match_.path);
    GovernsWhatItMatches(k, rs, procs, canon, t, comm, r);
  }

  /** The kernel takes the rule's own path for the rule's, whatever its length. */
  lemma OwnPathMatches(r: Rule)
    requires ValidRule(r) && NulFree(r.match_.path)
    ensures PathMatches(Fixed(64, r.match_.path), Fixed(64, r.match_.path))
  {
    assert !Suffers(r, MissingPath) && !Suffers(r, PathTooLong);
    PathEncoding(r.match_.path, r.match_.path);
    CStringOfNulFree(r.match_.path);
  }

  // ----- hiding -----

  /** A thread of a task whose best rule hides is inside an open, whatever happened since its entry. The file_open hook
      denies the open, and reports the path, exactly when the kernel takes its path for the rule's. */
  lemma HidingAnswersByMatch(w: World, before: seq<Step>, t: Thread, comm: CommKey, path: Str, es: seq<Step>,
                             rs: Ruleset, procs: seq<Process>, canon: Canon, r: Rule)
    requires Init(w) && IsRun(w, before) && Enabled(After(w, before), EnterOpen(t, comm, Some(path), true))
    requires Enforces(After(w, before).kernel, rs, procs, canon)
    requires Champion(Selecting(rs, procs, canon, t, comm), r) && r.action.kind.Hide? && NulFree(path)
    requires IsRun(Next(After(w, before), EnterOpen(t, comm, Some(path), true)), es) && Waits(es, t)
    ensures var v := After(Next(After(w, before), EnterOpen(t, comm, Some(path), true)), es);
            if PathMatches(Fixed(64, r.match_.path), Fixed(64, path))
            then FileOpenVerdict(v.kernel, t, 0) == -2 &&
                 forall c: CommKey :: Next(v, FileOpenHook(t, c, 0)).kernel.events ==
                                      v.kernel.events + [Event(t, 1, OpBlock, -2, c, Fixed(64, path))]
            else FileOpenVerdict(v.kernel, t, 0) == 0 &&
                 forall c: CommKey :: Next(v, FileOpenHook(t, c, 0)).kernel.events == v.kernel.events
  {
    var v, enter := After(w, before), EnterOpen(t, comm, Some(path), true);
    OpenIsGovernedByMatch(v.kernel, rs, procs, canon, t, comm, r, path);
    VerdictInsideOpen(w, before, t, comm, Some(path), es);
    PendingKept(Next(v, enter), es, t);
    CStringOfNulFree(path);
    var v' := After(Next(v, enter), es);
    forall c: CommKey
      ensures FileOpen(v'.kernel, t, c, 0).events == v'.kernel.events +
              if t in v'.kernel.pendingOpens && v'.kernel.pendingOpens[t].action == 1
              then [Event(t, 1, OpBlock, -2, c, v'.kernel.pendingOpens[t].path)] else []
    {
      OpenStepsReport(v', FileOpenHook(t, c, 0));
    }
  }

  /** Main result: the process must not see the file. Its opens of the rule's path, and only those, fail with -ENOENT,
      for rule paths that the kernel tells from all others. */
  lemma HiddenFileIsDenied(w: World, before: seq<Step>, t: Thread, comm: CommKey, path: Str, es: seq<Step>,
                           rs: Ruleset, procs: seq<Process>, canon: Canon, r: Rule)
    requires Init(w) && IsRun(w, before) && Enabled(After(w, before), EnterOpen(t, comm, Some(path), true))
    requires Enforces(After(w, before).kernel, rs, procs, canon)
    requires Champion(Selecting(rs, procs, canon, t, comm), r) && r.action.kind.Hide? && NulFree(path)
    requires IsRun(Next(After(w, before), EnterOpen(t, comm, Some(path), true)), es) && Waits(es, t)
    ensures var v := After(Next(After(w, before), EnterOpen(t, comm, Some(path), true)), es);
            && (path == r.match_.path ==> FileOpenVerdict(v.kernel, t, 0) == -2)
            && (NulFree(r.match_.path) && |r.match_.path| <= 62 ==>
                (FileOpenVerdict(v.kernel, t, 0) == -2 <==> path == r.match_.path))
  {
    HidingAnswersByMatch(w, before, t, comm, path, es, rs, procs, canon, r);
    assert r in rs.rules && ValidRule(r);
    if path == r.match_.path {
      OwnPathMatches(r);
    }
    PathEqualityIsExact(r.match_.path);
  }
}
