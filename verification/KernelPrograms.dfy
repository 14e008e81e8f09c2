/** The programs of internal/ebpf/agentguardian.bpf.c in their own step-by-step form: handlers that insert into
    and delete from shared maps, and a scan loop that edits user memory byte by byte. Each is proved to change
    the state exactly as the function of the same name in `KernelSpec` says. */
module KernelPrograms {
  import opened Bytes
  import opened Encoding
  import opened KernelSpec

  class Programs {
    var policies: map<u32, Policy>
    var commPolicies: map<CommKey, Policy>
    var pendingOpens: map<Thread, PendingOpen>
    var trackedFds: set<FdKey>
    var buffers: map<Thread, u64>
    var closingFds: map<Thread, u32>
    var rewrites: map<Thread, RewriteState>
    var userBytes: map<Loc, byte>
    var writable: set<Loc>
    var events: seq<Event>

    ghost function Memory(): Memory
      reads this
    {
      KernelSpec.Memory(userBytes, writable)
    }

    /** The abstract value of all the maps. */
    ghost function State(): Kernel
      reads this
    {
      Kernel(policies, commPolicies, pendingOpens, trackedFds, buffers, closingFds, rewrites, Memory(), events)
    }

    /** All maps start empty. */
    constructor (userBytes: map<Loc, byte>, writable: set<Loc>)
      ensures State() == Kernel(map[], map[], map[], {}, map[], map[], map[],
                                KernelSpec.Memory(userBytes, writable), [])
    {
      policies, commPolicies, pendingOpens, trackedFds := map[], map[], map[], {};
      buffers, closingFds, rewrites, events := map[], map[], map[], [];
      this.userBytes, this.writable := userBytes, writable;
    }

    /** `bpf_probe_read_user` of one byte. */
    method ProbeRead(l: Loc) returns (ch: Option<byte>)
      ensures ch == if l in userBytes then Some(userBytes[l]) else None
    {
      ch := if l in userBytes then Some(userBytes[l]) else None;
    }

    /** `bpf_probe_write_user` of one byte; its failure is ignored by the caller. */
    method ProbeWrite(l: Loc, ch: byte)
      modifies this`userBytes
      ensures userBytes == if l in old(userBytes) && l in writable then old(userBytes)[l := ch] else old(userBytes)
    {
      if l in userBytes && l in writable {
        userBytes := userBytes[l := ch];
      }
    }

    method FindPolicy(t: Thread, comm: CommKey) returns (policy: Option<Policy>)
      ensures policy == LookupPolicy(State(), t, comm)
    {
      if t.tgid in policies {
        return Some(policies[t.tgid]);
      }
      policy := if comm in commPolicies then Some(commPolicies[comm]) else None;
    }

    method SubmitEvent(t: Thread, action: byte, op: Operation, ret: int, comm: CommKey, path: Field)
      modifies this`events
      ensures State() == Submit(old(State()), t, action, op, ret, comm, path)
    {
      events := events + [Event(t, action, op, ret, comm, path)];
    }

    method ClearRead(t: Thread)
      modifies this`buffers, this`rewrites
      ensures State() == ClearReadState(old(State()), t)
    {
      buffers := buffers - {t};
      rewrites := rewrites - {t};
    }

    method HandleOpenEnter(t: Thread, comm: CommKey, path: Option<Str>, stored: bool)
      modifies this`pendingOpens, this`events
      ensures State() == OpenEnter(old(State()), t, comm, path, stored)
    {
      var policy := FindPolicy(t, comm);
      if policy.None? || policy.value.action == ACTION_PASS {
        return;
      }
      if path.None? {
        return;
      }
      var userPath := EncodeField(64, CString(path.value));
      var matches := PathMatchesLoop(policy.value, userPath);
      if !matches {
        return;
      }
      if stored {
        pendingOpens := pendingOpens[t := PendingOpen(policy.value.action, userPath)];
      }
      SubmitEvent(t, policy.value.action, OpOpen, 0, comm, userPath);
    }

    method HandleOpenExit(t: Thread, ret: int, stored: bool)
      modifies this`trackedFds, this`pendingOpens
      ensures State() == OpenExit(old(State()), t, ret, stored)
    {
      if t !in pendingOpens {
        return;
      }
      if ret >= 0 && pendingOpens[t].action == ACTION_REWRITE {
        var fd := ToU32(ret);
        if stored {
          trackedFds := trackedFds + {FdKey(t.tgid, fd)};
        }
      }
      pendingOpens := pendingOpens - {t};
    }

    method EnforceFileOpen(t: Thread, comm: CommKey, ret: int) returns (verdict: int)
      modifies this`events
      ensures verdict == FileOpenVerdict(old(State()), t, ret)
      ensures State() == FileOpen(old(State()), t, comm, ret)
    {
      if ret != 0 {
        return ret;
      }
      if t !in pendingOpens || pendingOpens[t].action != ACTION_HIDE {
        return 0;
      }
      SubmitEvent(t, pendingOpens[t].action, OpBlock, -ERR_ENOENT, comm, pendingOpens[t].path);
      return -ERR_ENOENT;
    }

    method HandleCloseEnter(t: Thread, fd: u32, stored: bool)
      modifies this`closingFds
      ensures State() == CloseEnter(old(State()), t, fd, stored)
    {
      if FdKey(t.tgid, fd) !in trackedFds {
        return;
      }
      if stored {
        closingFds := closingFds[t := fd];
      }
    }

    method HandleCloseExit(t: Thread)
      modifies this`closingFds, this`trackedFds, this`buffers
      ensures State() == CloseExit(old(State()), t)
    {
      if t !in closingFds {
        return;
      }
      var key := FdKey(t.tgid, closingFds[t]);
      closingFds := closingFds - {t};
      trackedFds := trackedFds - {key};
      buffers := buffers - {t};
    }

    method HandleReadEnter(t: Thread, fd: u32, buf: u64, stored: bool)
      modifies this`buffers
      ensures State() == ReadEnter(old(State()), t, fd, buf, stored)
    {
      if FdKey(t.tgid, fd) !in trackedFds {
        return;
      }
      if stored {
        buffers := buffers[t := buf];
      }
    }

    /** `buffer_matches_find`. */
    method BufferMatchesFind(t: Thread, policy: Policy, addr: u64) returns (matches: bool)
      requires policy.textLen <= MAX_TEXT_LEN
      ensures matches <==> Holds(Memory(), t.tgid, addr, FindText(policy))
    {
      for i := 0 to MAX_TEXT_LEN
        invariant forall j | 0 <= j < i && j < policy.textLen ::
          Loc(t.tgid, At(addr, j)) in userBytes && userBytes[Loc(t.tgid, At(addr, j))] == policy.find[j]
      {
        if i >= policy.textLen {
          return true;
        }
        var ch := ProbeRead(Loc(t.tgid, At(addr, i)));
        if ch.None? {
          return false;
        }
        if ch.value != policy.find[i] {
          return false;
        }
      }
      return true;
    }

    /** `write_replace_text`. */
    method WriteReplaceText(t: Thread, policy: Policy, addr: u64)
      requires policy.textLen <= MAX_TEXT_LEN
      modifies this`userBytes
      ensures Memory() == Store(old(Memory()), t.tgid, addr, ReplaceText(policy))
    {
      ghost var before := Memory();
      for i := 0 to MAX_TEXT_LEN
        invariant i <= policy.textLen
        invariant Memory() == Store(before, t.tgid, addr, policy.replace[..i])
      {
        if i >= policy.textLen {
          return;
        }
        ProbeWrite(Loc(t.tgid, At(addr, i)), policy.replace[i]);
        StoreOneMore(before, t.tgid, addr, policy.replace[..i], policy.replace[i]);
        assert policy.replace[..i + 1] == policy.replace[..i] + [policy.replace[i]];
      }
    }

    /** The scan loop of `scan_read_buffer_impl`: at most 32 iterations under one policy. */
    method ScanChunk(t: Thread, policy: Policy)
      requires t in rewrites && Rewrites(policy)
      modifies this`rewrites, this`userBytes
      ensures var scan := ScanSteps(old(Memory()), t.tgid, policy, old(rewrites[t]), SCAN_CHUNK);
              Memory() == scan.memory && rewrites == old(rewrites)[t := scan.state]
    {
      var i := 0;
      while i < SCAN_CHUNK
        invariant 0 <= i <= SCAN_CHUNK
        invariant t in rewrites && rewrites == old(rewrites)[t := rewrites[t]]
        invariant ScanSteps(Memory(), t.tgid, policy, rewrites[t], SCAN_CHUNK - i) ==
                  ScanSteps(old(Memory()), t.tgid, policy, old(rewrites[t]), SCAN_CHUNK)
      {
        var state := rewrites[t];
        if state.offset >= state.len {
          return;
        }
        if state.offset + policy.textLen > state.len {
          rewrites := rewrites[t := state.(offset := state.len)];
          return;
        }
        var candidate := At(state.buf, state.offset);
        var matches := BufferMatchesFind(t, policy, candidate);
        if matches {
          WriteReplaceText(t, policy, candidate);
          rewrites := rewrites[t := state.(replacements := state.replacements + 1,
                                           offset := state.offset + policy.textLen)];
        } else {
          rewrites := rewrites[t := state.(offset := state.offset + 1)];
        }
        i := i + 1;
      }
    }

    /** `scan_read_buffer_impl`: a chunk of the scan, then a tail call or the end. */
    method ScanReadBuffer(t: Thread, comm: CommKey, canTailCall: bool) returns (tailCall: bool)
      modifies this`buffers, this`rewrites, this`userBytes, this`events
      ensures Run(State(), tailCall) == ScanRun(old(State()), t, comm, canTailCall)
    {
      if t !in rewrites || rewrites[t].buf == 0 || rewrites[t].len == 0 {
        return false;
      }
      var lookup := FindPolicy(t, comm);
      if lookup.None? || lookup.value.action != ACTION_REWRITE || lookup.value.textLen == 0 {
        ClearRead(t);
        return false;
      }
      if lookup.value.textLen > MAX_TEXT_LEN {
        ClearRead(t);
        return false;
      }
      var policy := lookup.value;
      ScanChunk(t, policy);
      var final := rewrites[t];
      if final.offset < final.len && canTailCall {
        return true;
      }
      if final.replacements > 0 {
        SubmitEvent(t, policy.action, OpRewrite, final.replacements * policy.textLen, comm, policy.targetPath);
      }
      ClearRead(t);
      return false;
    }

    /** `handle_read_exit` with `prepare_read_rewrite_state`. */
    method HandleReadExit(t: Thread, comm: CommKey, ret: int, stored: bool) returns (tailCall: bool)
      modifies this`buffers, this`rewrites, this`userBytes, this`events
      ensures Run(State(), tailCall) == ReadExit(old(State()), t, comm, ret, stored)
    {
      if t !in buffers {
        return false;
      }
      var lookup := FindPolicy(t, comm);
      if lookup.None? || lookup.value.action != ACTION_REWRITE || lookup.value.textLen == 0 ||
         lookup.value.textLen > MAX_TEXT_LEN
      {
        ClearRead(t);
        return false;
      }
      var bytesToScan := ClampScanLen(ret);
      if bytesToScan < lookup.value.textLen {
        ClearRead(t);
        return false;
      }
      if stored {
        rewrites := rewrites[t := RewriteState(buffers[t], bytesToScan, 0, 0)];
      }
      tailCall := ScanReadBuffer(t, comm, 0 < MAX_TAIL_CALLS);
    }
  }

  /** Storing one byte behind a stored text stores the longer text. */
  lemma StoreOneMore(m: Memory, tgid: u32, base: u64, text: Str, ch: byte)
    requires |text| < MAX_TEXT_LEN
    ensures var l := Loc(tgid, At(base, |text|));
            var stored := Store(m, tgid, base, text);
            Store(m, tgid, base, text + [ch]) ==
            if l in m.bytes && l in m.writable then stored.(bytes := stored.bytes[l := ch]) else stored
  {
    var l := Loc(tgid, At(base, |text|));
    assert Distance(base, l.addr) == |text|;
    var stored, longer := Store(m, tgid, base, text), Store(m, tgid, base, text + [ch]);
    assert longer.bytes == if l in m.bytes && l in m.writable then stored.bytes[l := ch] else stored.bytes;
  }
}
