/** The state of the eBPF side (internal/ebpf/agentguardian.bpf.c) and what one run of each program does to it,
    as functions on values. `KernelPrograms` proves the step-by-step programs against these functions;
    the remaining modules prove what whole scans and whole runs of the system achieve. */
module KernelSpec {
  import opened Bytes
  import opened Encoding

  const ERR_ENOENT := 2
  const SCAN_CHUNK: nat := 32
  const MAX_SCAN_BYTES: nat := 1024
  const MAX_TAIL_CALLS: nat := 33  // the kernel's limit on one chain of programs
  const ADDRESSES := 0x1_0000_0000_0000_0000

  datatype Operation = OpOpen | OpBlock | OpRewrite

  /** `pid_tgid`: the process (`tgid`) in the upper half, the thread in the lower. */
  datatype Thread = Thread(tgid: u32, tid: u32)

  datatype FdKey = FdKey(tgid: u32, fd: u32)

  datatype PendingOpen = PendingOpen(action: byte, path: Field)

  datatype Event = Event(thread: Thread, action: byte, op: Operation, ret: int, comm: CommKey, path: Field)

  datatype RawRewriteState = RewriteState(buf: u64, len: nat, offset: nat, replacements: nat)

  /** Every state the programs store satisfies this bound, so none of the `__u32` sums can wrap. */
  type RewriteState = s: RawRewriteState | s.offset <= s.len <= MAX_SCAN_BYTES && s.replacements <= s.offset
    witness RewriteState(0, 0, 0, 0)

  /** A user address inside one process. */
  datatype Loc = Loc(tgid: u32, addr: u64)

  /** User memory: `bytes` holds what can be read, and only locations in `writable` can be written. */
  datatype Memory = Memory(bytes: map<Loc, byte>, writable: set<Loc>)

  datatype Kernel = Kernel(
    policies: map<u32, Policy>,
    commPolicies: map<CommKey, Policy>,
    pendingOpens: map<Thread, PendingOpen>,
    trackedFds: set<FdKey>,
    buffers: map<Thread, u64>,
    closingFds: map<Thread, u32>,
    rewrites: map<Thread, RewriteState>,
    memory: Memory,
    events: seq<Event>)

  // ----- addresses and user memory -----

  /** `base + i` in 64-bit arithmetic. */
  function At(base: u64, i: nat): u64
    requires i < ADDRESSES
  {
    if base + i < ADDRESSES then base + i else base + i - ADDRESSES
  }

  /** How far `addr` lies behind `base`, going around the end of the address space if need be. */
  function Distance(base: u64, addr: u64): nat {
    if base <= addr then addr - base else addr + ADDRESSES - base
  }

  predicate InSpan(tgid: u32, base: u64, n: nat, l: Loc) {
    l.tgid == tgid && Distance(base, l.addr) < n
  }

  /** Memory after storing `text` at `base`, skipping whatever cannot be written. */
  function Store(m: Memory, tgid: u32, base: u64, text: Str): Memory {
    m.(bytes := map l | l in m.bytes ::
      if l in m.writable && InSpan(tgid, base, |text|, l) then text[Distance(base, l.addr)] else m.bytes[l])
  }

  /** `buffer_matches_find`: every byte can be read and equals the text. */
  predicate Holds(m: Memory, tgid: u32, base: u64, text: Str)
    requires |text| <= MAX_TEXT_LEN
  {
    forall i | 0 <= i < |text| ::
      Loc(tgid, At(base, i)) in m.bytes && m.bytes[Loc(tgid, At(base, i))] == text[i]
  }

  // ----- policies -----

  /** The process table first, the task-name table only when it has no entry. */
  function LookupPolicy(k: Kernel, t: Thread, comm: CommKey): Option<Policy> {
    if t.tgid in k.policies then Some(k.policies[t.tgid])
    else if comm in k.commPolicies then Some(k.commPolicies[comm])
    else None
  }

  predicate Rewrites(p: Policy) {
    p.action == ACTION_REWRITE && 0 < p.textLen <= MAX_TEXT_LEN
  }

  function FindText(p: Policy): Str
    requires p.textLen <= MAX_TEXT_LEN
  {
    p.find[..p.textLen]
  }

  function ReplaceText(p: Policy): Str
    requires p.textLen <= MAX_TEXT_LEN
  {
    p.replace[..p.textLen]
  }

  function Submit(k: Kernel, t: Thread, action: byte, op: Operation, ret: int, comm: CommKey, path: Field): Kernel {
    k.(events := k.events + [Event(t, action, op, ret, comm, path)])
  }

  // ----- open -----

  /** The action of the policy that governs an open of `path`; no path when the user pointer cannot be read. */
  function MatchedAction(k: Kernel, t: Thread, comm: CommKey, path: Option<Str>): Option<byte> {
    match LookupPolicy(k, t, comm)
    case None => None
    case Some(p) =>
      if p.action != ACTION_PASS && path.Some? && PathMatches(p.targetPath, Fixed(64, CString(path.value)))
      then Some(p.action)
      else None
  }

  /** `stored` tells whether the map update succeeds. */
  function OpenEnter(k: Kernel, t: Thread, comm: CommKey, path: Option<Str>, stored: bool): Kernel {
    match MatchedAction(k, t, comm, path)
    case None => k
    case Some(action) =>
      var userPath := Fixed(64, CString(path.value));
      var k1 := if stored then k.(pendingOpens := k.pendingOpens[t := PendingOpen(action, userPath)]) else k;
      Submit(k1, t, action, OpOpen, 0, comm, userPath)
  }

  function OpenExit(k: Kernel, t: Thread, ret: int, stored: bool): Kernel {
    if t !in k.pendingOpens then k
    else
      var tracks := ret >= 0 && k.pendingOpens[t].action == ACTION_REWRITE && stored;
      k.(trackedFds := if tracks then k.trackedFds + {FdKey(t.tgid, ToU32(ret))} else k.trackedFds,
         pendingOpens := k.pendingOpens - {t})
  }

  /** The C cast to `__u32`. */
  function ToU32(x: int): u32 {
    x % 0x1_0000_0000
  }

  /** The answer of `lsm/file_open` when the modules before it answered `ret`. */
  function FileOpenVerdict(k: Kernel, t: Thread, ret: int): int {
    if ret != 0 then ret
    else if t in k.pendingOpens && k.pendingOpens[t].action == ACTION_HIDE then -ERR_ENOENT
    else 0
  }

  function FileOpen(k: Kernel, t: Thread, comm: CommKey, ret: int): Kernel {
    if ret == 0 && FileOpenVerdict(k, t, ret) != 0
    then Submit(k, t, ACTION_HIDE, OpBlock, -ERR_ENOENT, comm, k.pendingOpens[t].path)
    else k
  }

  // ----- close -----

  function CloseEnter(k: Kernel, t: Thread, fd: u32, stored: bool): Kernel {
    if FdKey(t.tgid, fd) in k.trackedFds && stored then k.(closingFds := k.closingFds[t := fd]) else k
  }

  function CloseExit(k: Kernel, t: Thread): Kernel {
    if t !in k.closingFds then k
    else
      k.(closingFds := k.closingFds - {t},
         trackedFds := k.trackedFds - {FdKey(t.tgid, k.closingFds[t])},
         buffers := k.buffers - {t})
  }

  // ----- read -----

  function ReadEnter(k: Kernel, t: Thread, fd: u32, buf: u64, stored: bool): Kernel {
    if FdKey(t.tgid, fd) in k.trackedFds && stored then k.(buffers := k.buffers[t := buf]) else k
  }

  function ClearReadState(k: Kernel, t: Thread): Kernel {
    k.(buffers := k.buffers - {t}, rewrites := k.rewrites - {t})
  }

  /** `clamp_scan_len`: the cast to `__u32` comes before the comparison. */
  function ClampScanLen(ret: int): nat {
    if ret <= 0 then 0 else Min(ToU32(ret), MAX_SCAN_BYTES)
  }

  datatype Scan = Scan(memory: Memory, state: RewriteState)

  /** One iteration of the scan loop: to the end when the text no longer fits, behind a window just replaced, or one
      byte further. */
  function Iterate(m: Memory, tgid: u32, p: Policy, s: RewriteState): (r: Scan)
    requires Rewrites(p) && s.offset < s.len
    ensures r.state.buf == s.buf && r.state.len == s.len && s.offset < r.state.offset
  {
    if s.offset + p.textLen > s.len then Scan(m, s.(offset := s.len))
    else if Holds(m, tgid, At(s.buf, s.offset), FindText(p)) then
      Scan(Store(m, tgid, At(s.buf, s.offset), ReplaceText(p)),
           s.(replacements := s.replacements + 1, offset := s.offset + p.textLen))
    else Scan(m, s.(offset := s.offset + 1))
  }

  /** At most `n` iterations of the scan loop. */
  function ScanSteps(m: Memory, tgid: u32, p: Policy, s: RewriteState, n: nat): Scan
    requires Rewrites(p)
    decreases s.len - s.offset
  {
    if n == 0 || s.offset >= s.len then Scan(m, s)
    else
      var next := Iterate(m, tgid, p, s);
      ScanSteps(next.memory, tgid, p, next.state, n - 1)
  }

  /** The result of one program run: the new state, and whether another run of the scanner takes over. */
  datatype Run = Run(kernel: Kernel, tailCall: bool)

  /** One run of `scan_read_buffer_impl`. `canTailCall` tells whether the limit on tail calls leaves room. */
  function ScanRun(k: Kernel, t: Thread, comm: CommKey, canTailCall: bool): Run {
    if t !in k.rewrites || k.rewrites[t].buf == 0 || k.rewrites[t].len == 0 then Run(k, false)
    else
      match LookupPolicy(k, t, comm)
      case None => Run(ClearReadState(k, t), false)
      case Some(p) =>
        if !Rewrites(p) then Run(ClearReadState(k, t), false)
        else
          var scan := ScanSteps(k.memory, t.tgid, p, k.rewrites[t], SCAN_CHUNK);
          var s := scan.state;
          var k1 := k.(memory := scan.memory, rewrites := k.rewrites[t := s]);
          if s.offset < s.len && canTailCall then Run(k1, true)
          else
            var k2 := if s.replacements > 0
                      then Submit(k1, t, p.action, OpRewrite, s.replacements * p.textLen, comm, p.targetPath)
                      else k1;
            Run(ClearReadState(k2, t), false)
  }

  /** Whether the exit of a read goes on to store a rewrite state. */
  predicate PreparesScan(k: Kernel, t: Thread, comm: CommKey, ret: int) {
    && t in k.buffers
    && LookupPolicy(k, t, comm).Some?
    && Rewrites(LookupPolicy(k, t, comm).value)
    && LookupPolicy(k, t, comm).value.textLen <= ClampScanLen(ret)
  }

  /** `handle_read_exit`: the preparation and the first run of the scanner. */
  function ReadExit(k: Kernel, t: Thread, comm: CommKey, ret: int, stored: bool): Run {
    if t !in k.buffers then Run(k, false)
    else if !PreparesScan(k, t, comm, ret) then Run(ClearReadState(k, t), false)
    else
      var s := RewriteState(k.buffers[t], ClampScanLen(ret), 0, 0);
      ScanRun(if stored then k.(rewrites := k.rewrites[t := s]) else k, t, comm, 0 < MAX_TAIL_CALLS)
  }
}
