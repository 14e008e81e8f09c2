/** From the flags to what a process sees: the entries of flag mode in the kernel. */
module FlagModeToKernel {
  import opened Bytes
  import opened Encoding
  import opened Greedy
  import opened KernelSpec
  import opened Rewriting
  import opened SyscallProtocol
  import opened Isolation
  import opened HideOpens
  import opened FlagMode

  /** The flags' texts are what the kernel compares and stores. */
  lemma FlagTextsReachKernel(cfg: Config)
    requires 0 < |cfg.findText| == |cfg.replaceText| < 64
    ensures var p := RewritePolicy(cfg);
            Rewrites(p) && FindText(p) == cfg.findText && ReplaceText(p) == cfg.replaceText
  {
    TextFidelity(ACTION_REWRITE, cfg.targetPath, cfg.findText, cfg.replaceText);
  }

  /** What `Apply` makes of the flags, entry by entry. An explicit process for rewriting gets the flags' texts unless the
      same process is hidden from; the process to hide from is always hidden from. */
  lemma WhoGetsWhat(cfg: Config, split: Splitter, comm: Str)
    ensures cfg.hidePid != 0 ==> ToU32(cfg.hidePid) in StaticTable(cfg) &&
                                 StaticTable(cfg)[ToU32(cfg.hidePid)] == PolicyOf(1, cfg.targetPath, [], [])
    ensures cfg.rewritePidExplicit && cfg.rewritePid != 0 &&
            (cfg.hidePid == 0 || ToU32(cfg.hidePid) != ToU32(cfg.rewritePid)) ==>
              ToU32(cfg.rewritePid) in StaticTable(cfg) &&
              StaticTable(cfg)[ToU32(cfg.rewritePid)] == PolicyOf(2, cfg.targetPath, cfg.findText, cfg.replaceText)
    ensures comm in split(cfg.hideComms) ==>
              var names := RewriteNames(cfg, split) + HideNames(cfg, split);
              CommKeyOf(comm) in names && names[CommKeyOf(comm)] == PolicyOf(1, cfg.targetPath, [], [])
    ensures comm in split(cfg.rewriteComms) && cfg.rewriteComms != [] && CommKeyOf(comm) !in Names(split(cfg.hideComms)) ==>
              var names := RewriteNames(cfg, split) + HideNames(cfg, split);
              CommKeyOf(comm) in names &&
              names[CommKeyOf(comm)] == PolicyOf(2, cfg.targetPath, cfg.findText, cfg.replaceText)
  {
  }

  /** Main result: a task for which the kernel holds the flags' rewrite policy sees, in any tracked read of any run whose
      entry could save the address, every greedy occurrence of the flags' text replaced by the other, and nothing else
      changed. */
  lemma FlagsRewriteReads(w: World, before: seq<Step>, cfg: Config, t: Thread, comm: CommKey, buf: u64, ret: int)
    requires Init(w) && IsRun(w, before) && PhaseOf(After(w, before), t) == InRead(buf, true, true) && buf != 0
    requires LookupPolicy(After(w, before).kernel, t, comm) ==
             Some(PolicyOf(2, cfg.targetPath, cfg.findText, cfg.replaceText))
    requires 0 < |cfg.findText| == |cfg.replaceText| < 64 && |cfg.findText| <= ClampScanLen(ret)
    requires Accessible(After(w, before).kernel.memory, t.tgid, buf, ClampScanLen(ret))
    ensures var k, n := After(w, before).kernel, ClampScanLen(ret);
            var k' := CompleteReadExit(k, t, comm, ret, true);
            && Accessible(k'.memory, t.tgid, buf, n)
            && Contents(k'.memory, t.tgid, buf, n) ==
               Replace(Contents(k.memory, t.tgid, buf, n), cfg.findText, cfg.replaceText)
            && SameOutside(k.memory, k'.memory, t.tgid, buf, 0, n)
  {
    SavedOverRun(w, before);
    assert SavedInv(After(w, before).kernel, t, PhaseOf(After(w, before), t));
    FlagTextsReachKernel(cfg);
    ReadIsRewritten(After(w, before).kernel, t, comm, ret);
  }

  /** Main result: a task for which the kernel holds the flags' hide policy gets -ENOENT when it opens the flags' path,
      and, for a path of at most 62 bytes without NUL, for no other. */
  lemma FlagsHidePath(w: World, before: seq<Step>, cfg: Config, t: Thread, comm: CommKey, path: Str, es: seq<Step>)
    requires Init(w) && IsRun(w, before) && Enabled(After(w, before), EnterOpen(t, comm, Some(path), true))
    requires LookupPolicy(After(w, before).kernel, t, comm) == Some(PolicyOf(1, cfg.targetPath, [], []))
    requires IsRun(Next(After(w, before), EnterOpen(t, comm, Some(path), true)), es) && Waits(es, t)
    requires NulFree(path) && NulFree(cfg.targetPath) && 0 < |cfg.targetPath| <= 62
    ensures var v := After(Next(After(w, before), EnterOpen(t, comm, Some(path), true)), es);
            FileOpenVerdict(v.kernel, t, 0) == if path == cfg.targetPath then -2 else 0
  {
    PathEqualityIsExact(cfg.targetPath);
    CStringOfNulFree(path);
    assert PathMatches(Fixed(64, cfg.targetPath), Fixed(64, path)) <==> path == cfg.targetPath;
    VerdictInsideOpen(w, before, t, comm, Some(path), es);
  }
}
