/** One file from its open to the bytes a process sees: the open of a rule's path makes the descriptor tracked, whichever
    thread of the process then reads it finds it so, and the read ends with the rule applied. */
module OpenToRead {
  import opened Bytes
  import opened Encoding
  import opened KernelSpec
  import opened Rewriting
  import opened SyscallProtocol
  import opened Isolation
  import opened TrackedFds
  import opened InterleavedScans
  import opened Rules
  import opened Compiler
  import opened EndToEnd

  /** Everything that is kept in runs in which the opens and closes of the process do not overlap and their map updates
      succeed. */
  ghost predicate Sound(w: World, tgid: u32) {
    Inv(w, tgid) && AllScans(w) && AllSaved(w)
  }

  lemma InitIsSound(w: World, tgid: u32)
    requires Init(w) && Serialized(w, tgid)
    ensures Sound(w, tgid)
  {
  }

  lemma SoundStep(w: World, e: Step, tgid: u32)
    requires Enabled(w, e) && Sound(w, tgid) && Orderly(w, e, tgid)
    ensures Sound(Next(w, e), tgid)
  {
    InvStep(w, e, tgid);
    ScansStep(w, e);
    SavedStep(w, e);
  }

  lemma {:induction false} SoundOverRun(w: World, es: seq<Step>, tgid: u32)
    requires IsRun(w, es) && OrderlyRun(w, es, tgid) && Sound(w, tgid)
    ensures Sound(After(w, es), tgid)
    decreases |es|
  {
    if es != [] {
      SoundStep(w, es[0], tgid);
      SoundOverRun(Next(w, es[0]), es[1..], tgid);
    }
  }

  // ----- a descriptor that stays open -----

  /** The descriptor is not closed on the way. */
  predicate StaysOpen(w: World, es: seq<Step>, key: FdKey)
    requires IsRun(w, es)
    decreases |es|
  {
    key in w.openFds && (es == [] || StaysOpen(Next(w, es[0]), es[1..], key))
  }

  lemma OriginKept(w: World, e: Step, key: FdKey)
    requires Enabled(w, e) && OpenForRewrite(w, key) && key in Next(w, e).openFds
    ensures OpenForRewrite(Next(w, e), key)
  {
  }

  lemma {:induction false} OriginKeptOverRun(w: World, es: seq<Step>, key: FdKey)
    requires IsRun(w, es) && StaysOpen(w, es, key) && OpenForRewrite(w, key)
    ensures OpenForRewrite(After(w, es), key)
    decreases |es|
  {
    if es != [] {
      OriginKept(w, es[0], key);
      OriginKeptOverRun(Next(w, es[0]), es[1..], key);
    }
  }

  // ----- the episode -----

  /** `opener` opens `path` under the name `comm` and gets `fd`; later `reader`, of the same process, reads it into
      `buf`. Between these, the other threads, the other processes and user
      space do what they like. */
  datatype Episode = Episode(opener: Thread, comm: CommKey, path: Str, waiting: seq<Step>, fd: u32,
                             between: seq<Step>, reader: Thread, buf: u64, reading: seq<Step>)

  function KeyOf(ep: Episode): FdKey {
    FdKey(ep.opener.tgid, ep.fd)
  }

  /** From `v`, the open is entered and the descriptor installed; `v'` is the state then. */
  ghost predicate Opens(v: World, ep: Episode, v': World) {
    var enter, install := EnterOpen(ep.opener, ep.comm, Some(ep.path), true), Install(ep.opener, ep.fd);
    && Enabled(v, enter) && Orderly(v, enter, ep.opener.tgid)
    && IsRun(Next(v, enter), ep.waiting) && OrderlyRun(Next(v, enter), ep.waiting, ep.opener.tgid) && Waits(ep.waiting, ep.opener)
    && Enabled(After(Next(v, enter), ep.waiting), install)
    && v' == Next(After(Next(v, enter), ep.waiting), install)
  }

  /** From `v`, the open returns, the descriptor stays open, and a read of it is entered; `v'` is a state inside the
      read. */
  ghost predicate Reads(v: World, ep: Episode, v': World) {
    var enter := EnterRead(ep.reader, ep.fd, ep.buf, true);
    && ep.reader.tgid == ep.opener.tgid
    && IsRun(v, ep.between) && OrderlyRun(v, ep.between, ep.opener.tgid) && StaysOpen(v, ep.between, KeyOf(ep))
    && (forall t :: !Opening(After(v, ep.between), t, KeyOf(ep)))
    && Enabled(After(v, ep.between), enter)
    && IsRun(Next(After(v, ep.between), enter), ep.reading)
    && OrderlyRun(Next(After(v, ep.between), enter), ep.reading, ep.opener.tgid)
    && Waits(ep.reading, ep.reader)
    && v' == After(Next(After(v, ep.between), enter), ep.reading)
  }

  lemma OpeningIsForRewrite(v: World, ep: Episode, v': World, rs: Ruleset, procs: seq<Process>, canon: Canon, r: Rule)
    requires Sound(v, ep.opener.tgid) && Opens(v, ep, v') && Enforces(v.kernel, rs, procs, canon)
    requires Champion(Selecting(rs, procs, canon, ep.opener, ep.comm), r) && r.action.kind.Rewrite?
    requires ep.path == r.match_.path && NulFree(ep.path)
    ensures Sound(v', ep.opener.tgid) && OpenForRewrite(v', KeyOf(ep))
  {
    var enter, install := EnterOpen(ep.opener, ep.comm, Some(ep.path), true), Install(ep.opener, ep.fd);
    OwnPathMatches(r);
    OpenIsGovernedByMatch(v.kernel, rs, procs, canon, ep.opener, ep.comm, r, ep.path);
    var u := Next(v, enter);
    assert PhaseOf(u, ep.opener) == InOpen(Some(ACTION_REWRITE), true, None);
    PhaseKept(u, ep.waiting, ep.opener);
    SoundStep(v, enter, ep.opener.tgid);
    SoundOverRun(u, ep.waiting, ep.opener.tgid);
    SoundStep(After(u, ep.waiting), install, ep.opener.tgid);
  }

  lemma ReadingIsTracked(v: World, ep: Episode, v': World)
    requires Sound(v, ep.opener.tgid) && OpenForRewrite(v, KeyOf(ep)) && Reads(v, ep, v')
    ensures Sound(v', ep.opener.tgid) && PhaseOf(v', ep.reader) == InRead(ep.buf, true, true)
  {
    var enter, u := EnterRead(ep.reader, ep.fd, ep.buf, true), After(v, ep.between);
    OriginKeptOverRun(v, ep.between, KeyOf(ep));
    SoundOverRun(v, ep.between, ep.opener.tgid);
    assert FdInv(u, KeyOf(ep));
    SoundStep(u, enter, ep.opener.tgid);
    PhaseKept(Next(u, enter), ep.reading, ep.reader);
    SoundOverRun(Next(u, enter), ep.reading, ep.opener.tgid);
  }

  /** Main result: a process whose own opens and closes do not overlap and whose map updates for them succeed opens the
      path of its best rule, and one of its threads reads the descriptor, saving the address. When the read returns,
      under the same or newer rules, the reader's best rule at that moment is applied to the bytes read. The other
      processes do what they like. */
  lemma OpenedFileIsRewritten(w: World, before: seq<Step>, ep: Episode, v1: World, v2: World,
                              rs: Ruleset, procs: seq<Process>, canon: Canon, r: Rule,
                              rs': Ruleset, procs': seq<Process>, r': Rule, exit: Step, scanning: seq<Step>)
    requires Init(w) && Serialized(w, ep.opener.tgid) && IsRun(w, before) && OrderlyRun(w, before, ep.opener.tgid)
    requires Opens(After(w, before), ep, v1) && Reads(v1, ep, v2)
    requires Enforces(After(w, before).kernel, rs, procs, canon) && Enforces(v2.kernel, rs', procs', canon)
    requires Champion(Selecting(rs, procs, canon, ep.opener, ep.comm), r) && r.action.kind.Rewrite?
    requires ep.path == r.match_.path && NulFree(ep.path)
    requires exit.ExitRead? && exit.t == ep.reader && exit.stored && ep.buf != 0
    requires Champion(Selecting(rs', procs', canon, ep.reader, exit.comm), r') && r'.action.kind.Rewrite?
    requires |r'.action.find| < MAX_TEXT_LEN && |r'.action.find| <= ClampScanLen(exit.ret)
    requires Accessible(v2.kernel.memory, ep.reader.tgid, ep.buf, ClampScanLen(exit.ret))
    requires Enabled(v2, exit)
    requires DuringScan(Next(v2, exit), scanning, ReadUnder(v2, ep.reader, exit.comm, r', ep.buf, exit.ret))
    ensures IsRun(Next(v2, exit), scanning)
    ensures var v3 := After(Next(v2, exit), scanning);
            !PhaseOf(v3, ep.reader).InScan? ==>
              RuleApplied(v3, ReadUnder(v2, ep.reader, exit.comm, r', ep.buf, exit.ret), r')
  {
    InitIsSound(w, ep.opener.tgid);
    SoundOverRun(w, before, ep.opener.tgid);
    OpeningIsForRewrite(After(w, before), ep, v1, rs, procs, canon, r);
    ReadingIsTracked(v1, ep, v2);
    assert SavedInv(v2.kernel, ep.reader, PhaseOf(v2, ep.reader));
    RuleIsApplied(v2, exit, scanning, rs', procs', canon, r', ep.buf);
  }

  // ----- such episodes happen -----

  /** The shortest episode: one thread opens and reads. */
  function OpenThenRead(t: Thread, comm: CommKey, path: Str, fd: u32, buf: u64): Episode {
    Episode(t, comm, path, [], fd, [ExitOpen(t, fd, true)], t, buf, [])
  }

  lemma OpenHappens(w: World, t: Thread, comm: CommKey, path: Str, fd: u32, buf: u64) returns (v: World)
    requires Quiet(w, t.tgid) && PhaseOf(w, t).Idle? && FdKey(t.tgid, fd) !in w.openFds
    requires MatchedAction(w.kernel, t, comm, Some(path)) == Some(ACTION_REWRITE)
    ensures Opens(w, OpenThenRead(t, comm, path, fd, buf), v)
    ensures PhaseOf(v, t) == InOpen(Some(ACTION_REWRITE), true, Some(fd)) && FdKey(t.tgid, fd) in v.openFds
    ensures forall u | u != t :: PhaseOf(v, u) == PhaseOf(w, u)
  {
    OpenIsEntered(w, t, comm, path);
    v := Next(Next(w, EnterOpen(t, comm, Some(path), true)), Install(t, fd));
  }

  lemma ReadHappens(w: World, t: Thread, comm: CommKey, path: Str, fd: u32, buf: u64) returns (v: World)
    requires PhaseOf(w, t) == InOpen(Some(ACTION_REWRITE), true, Some(fd)) && FdKey(t.tgid, fd) in w.openFds
    requires forall u: Thread | u != t && u.tgid == t.tgid :: !Busy(PhaseOf(w, u))
    ensures Reads(w, OpenThenRead(t, comm, path, fd, buf), v)
  {
    var exit, enter := ExitOpen(t, fd, true), EnterRead(t, fd, buf, true);
    var u := Next(w, exit);
    assert After(u, []) == u;
    RunCons(w, exit, []);
    assert [exit] + [] == [exit] && [exit][1..] == [];
    assert OrderlyRun(w, [exit], t.tgid) && StaysOpen(w, [exit], FdKey(t.tgid, fd));
    v := Next(u, enter);
    assert After(v, []) == v;
  }

  /** Right after attachment a matching open and a read of its descriptor make an episode. */
  lemma EpisodeHappens(w: World, t: Thread, comm: CommKey, path: Str, fd: u32, buf: u64) returns (v: World, v': World)
    requires Init(w) && Quiet(w, t.tgid) && PhaseOf(w, t).Idle? && FdKey(t.tgid, fd) !in w.openFds
    requires MatchedAction(w.kernel, t, comm, Some(path)) == Some(ACTION_REWRITE)
    ensures Opens(w, OpenThenRead(t, comm, path, fd, buf), v) && Reads(v, OpenThenRead(t, comm, path, fd, buf), v')
  {
    v := OpenHappens(w, t, comm, path, fd, buf);
    v' := ReadHappens(v, t, comm, path, fd, buf);
  }
}
