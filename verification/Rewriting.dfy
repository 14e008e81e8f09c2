/** Whole scans. A chain of chunked, in-place program runs under one policy refines the single greedy
    replacement of `Greedy`, always finishes within the limit on tail calls, and reports what it did. */
module Rewriting {
  import opened Bytes
  import opened Encoding
  import opened Greedy
  import opened KernelSpec

  /** The rest of a chain of scanner runs after `tails` tail calls, the maps otherwise left alone. */
  function Chain(k: Kernel, t: Thread, comm: CommKey, tails: nat): Kernel
    requires tails <= MAX_TAIL_CALLS
    decreases MAX_TAIL_CALLS - tails
  {
    var run := ScanRun(k, t, comm, tails < MAX_TAIL_CALLS);
    if run.tailCall && tails < MAX_TAIL_CALLS then Chain(run.kernel, t, comm, tails + 1) else run.kernel
  }

  /** The exit of a read with all the scanner runs it leads to. */
  function CompleteReadExit(k: Kernel, t: Thread, comm: CommKey, ret: int, stored: bool): Kernel {
    var run := ReadExit(k, t, comm, ret, stored);
    if run.tailCall then Chain(run.kernel, t, comm, 1) else run.kernel
  }

  // ----- the scan loop -----

  /** The scan loop without a bound on its iterations. */
  function ScanAll(m: Memory, tgid: u32, p: Policy, s: RewriteState): Scan
    requires Rewrites(p)
  {
    ScanSteps(m, tgid, p, s, s.len - s.offset)
  }

  lemma {:induction false} StepsCompose(m: Memory, tgid: u32, p: Policy, s: RewriteState, a: nat, b: nat)
    requires Rewrites(p)
    ensures var first := ScanSteps(m, tgid, p, s, a);
            ScanSteps(m, tgid, p, s, a + b) == ScanSteps(first.memory, tgid, p, first.state, b)
    decreases a
  {
    if a > 0 && s.offset < s.len {
      var next := Iterate(m, tgid, p, s);
      StepsCompose(next.memory, tgid, p, next.state, a - 1, b);
    }
  }

  /** Each iteration consumes at least one byte, so `n` of them finish or consume `n`. */
  lemma {:induction false} StepsProgress(m: Memory, tgid: u32, p: Policy, s: RewriteState, n: nat)
    requires Rewrites(p)
    ensures var s' := ScanSteps(m, tgid, p, s, n).state;
            && s'.buf == s.buf && s'.len == s.len
            && (s'.offset == s.len || s'.offset >= s.offset + n)
    decreases n
  {
    if n > 0 && s.offset < s.len {
      var next := Iterate(m, tgid, p, s);
      StepsProgress(next.memory, tgid, p, next.state, n - 1);
    }
  }

  /** `n` iterations replace at most `n` windows, and without reaching the end pass at most `n` of them. */
  lemma {:induction false} StepsAreBounded(m: Memory, tgid: u32, p: Policy, s: RewriteState, n: nat)
    requires Rewrites(p)
    ensures var s' := ScanSteps(m, tgid, p, s, n).state;
            && s'.replacements <= s.replacements + n
            && (s'.offset < s'.len ==> s'.offset <= s.offset + p.textLen * n)
    decreases n
  {
    if n > 0 && s.offset < s.len {
      var next := Iterate(m, tgid, p, s);
      StepsAreBounded(next.memory, tgid, p, next.state, n - 1);
      assert p.textLen * n == p.textLen + p.textLen * (n - 1);
    }
  }

  /** One program run does at most 32 iterations. */
  lemma RunIsBounded(k: Kernel, t: Thread, comm: CommKey, p: Policy, canTailCall: bool)
    requires Scanning(k, t, comm, p) && ScanRun(k, t, comm, canTailCall).tailCall
    ensures var s, s' := k.rewrites[t], ScanRun(k, t, comm, canTailCall).kernel.rewrites[t];
            s.offset + 32 <= s'.offset <= s.offset + 32 * p.textLen && s'.replacements <= s.replacements + 32
  {
    OneRun(k, t, comm, p, canTailCall);
    StepsAreBounded(k.memory, t.tgid, p, k.rewrites[t], SCAN_CHUNK);
    StepsProgress(k.memory, t.tgid, p, k.rewrites[t], SCAN_CHUNK);
  }

  /** More iterations than bytes change nothing. */
  lemma EnoughSteps(m: Memory, tgid: u32, p: Policy, s: RewriteState, n: nat)
    requires Rewrites(p) && n >= s.len - s.offset
    ensures ScanSteps(m, tgid, p, s, n) == ScanAll(m, tgid, p, s)
  {
    StepsCompose(m, tgid, p, s, s.len - s.offset, n - (s.len - s.offset));
    StepsProgress(m, tgid, p, s, s.len - s.offset);
  }

  /** Cutting a scan anywhere does not change where it ends. */
  lemma CutScan(m: Memory, tgid: u32, p: Policy, s: RewriteState, n: nat)
    requires Rewrites(p)
    ensures var part := ScanSteps(m, tgid, p, s, n);
            ScanAll(part.memory, tgid, p, part.state) == ScanAll(m, tgid, p, s)
  {
    var part := ScanSteps(m, tgid, p, s, n);
    StepsProgress(m, tgid, p, s, n);
    var rest := part.state.len - part.state.offset;
    StepsCompose(m, tgid, p, s, n, s.len);
    EnoughSteps(m, tgid, p, s, n + s.len);
    EnoughSteps(part.memory, tgid, p, part.state, s.len);
  }

  // ----- chunk size and tail calls -----

  /** `runs` program runs of `chunk` iterations each. */
  function Rounds(m: Memory, tgid: u32, p: Policy, s: RewriteState, chunk: nat, runs: nat): Scan
    requires Rewrites(p)
    decreases runs
  {
    if runs == 0 then Scan(m, s)
    else
      var first := ScanSteps(m, tgid, p, s, chunk);
      Rounds(first.memory, tgid, p, first.state, chunk, runs - 1)
  }

  lemma {:induction false} RoundsAreSteps(m: Memory, tgid: u32, p: Policy, s: RewriteState, chunk: nat, runs: nat)
    requires Rewrites(p)
    ensures Rounds(m, tgid, p, s, chunk, runs) == ScanSteps(m, tgid, p, s, chunk * runs)
    decreases runs
  {
    if runs > 0 {
      var first := ScanSteps(m, tgid, p, s, chunk);
      RoundsAreSteps(first.memory, tgid, p, first.state, chunk, runs - 1);
      assert chunk * runs == chunk + chunk * (runs - 1);
      StepsCompose(m, tgid, p, s, chunk, chunk * (runs - 1));
    }
  }

  /** Whatever the chunk size, enough runs give the result of the unbounded loop. */
  lemma ChunkSizeDoesNotMatter(m: Memory, tgid: u32, p: Policy, s: RewriteState, chunk: nat, runs: nat)
    requires Rewrites(p) && chunk * runs >= s.len - s.offset
    ensures Rounds(m, tgid, p, s, chunk, runs) == ScanAll(m, tgid, p, s)
  {
    RoundsAreSteps(m, tgid, p, s, chunk, runs);
    EnoughSteps(m, tgid, p, s, chunk * runs);
  }

  ghost predicate EveryScanCompletes(chunk: nat, runs: nat) {
    forall m: Memory, tgid: u32, p: Policy, s: RewriteState | Rewrites(p) ::
      Rounds(m, tgid, p, s, chunk, runs).state.offset == s.len
  }

  lemma {:induction false} ScanOfNothing(p: Policy, s: RewriteState, n: nat)
    requires Rewrites(p) && p.textLen == 1
    ensures ScanSteps(Memory(map[], {}), 0, p, s, n).state.offset == Min(s.len, s.offset + n)
    decreases n
  {
    var m := Memory(map[], {});
    if n > 0 && s.offset < s.len {
      var l := Loc(0, At(At(s.buf, s.offset), 0));
      assert l !in m.bytes;
      ScanOfNothing(p, s.(offset := s.offset + 1), n - 1);
    }
  }

  /** A text of one byte and the longest scan; over memory that cannot be read this is the slowest scan there is. */
  lemma LongestScan() returns (p: Policy, s: RewriteState)
    ensures Rewrites(p) && p.textLen == 1 && s.offset == 0 && s.len == MAX_SCAN_BYTES
  {
    var field: Field := seq(64, i => 0);
    p, s := Policy(ACTION_REWRITE, field, 1, field, field), RewriteState(1, MAX_SCAN_BYTES, 0, 0);
  }

  lemma CoveringChunksComplete(m: Memory, tgid: u32, p: Policy, s: RewriteState, chunk: nat, runs: nat)
    requires Rewrites(p) && chunk * runs >= MAX_SCAN_BYTES
    ensures Rounds(m, tgid, p, s, chunk, runs).state.offset == s.len
  {
    ChunkSizeDoesNotMatter(m, tgid, p, s, chunk, runs);
    StepsProgress(m, tgid, p, s, s.len - s.offset);
  }

  /** The constants fit together exactly when the chunks of one chain cover the longest scan. */
  lemma ChunksFitLimit(chunk: nat, runs: nat)
    ensures EveryScanCompletes(chunk, runs) <==> chunk * runs >= MAX_SCAN_BYTES
  {
    var p, s := LongestScan();
    RoundsAreSteps(Memory(map[], {}), 0, p, s, chunk, runs);
    ScanOfNothing(p, s, chunk * runs);
    if chunk * runs >= MAX_SCAN_BYTES {
      forall m: Memory, tgid: u32, p: Policy, s: RewriteState | Rewrites(p)
        ensures Rounds(m, tgid, p, s, chunk, runs).state.offset == s.len
      {
        CoveringChunksComplete(m, tgid, p, s, chunk, runs);
      }
    }
  }

  // ----- a whole chain -----

  /** The state once a finished scan has been reported and its bookkeeping removed. */
  function Finished(k: Kernel, t: Thread, comm: CommKey, p: Policy, scan: Scan): Kernel {
    var cleared := ClearReadState(k, t).(memory := scan.memory);
    if scan.state.replacements > 0
    then Submit(cleared, t, p.action, OpRewrite, scan.state.replacements * p.textLen, comm, p.targetPath)
    else cleared
  }

  predicate Scanning(k: Kernel, t: Thread, comm: CommKey, p: Policy) {
    && t in k.rewrites && k.rewrites[t].buf != 0 && k.rewrites[t].len != 0
    && LookupPolicy(k, t, comm) == Some(p) && Rewrites(p)
  }

  /** One program run: hand over after a chunk, or finish. */
  lemma OneRun(k: Kernel, t: Thread, comm: CommKey, p: Policy, canTailCall: bool)
    requires Scanning(k, t, comm, p)
    ensures var part := ScanSteps(k.memory, t.tgid, p, k.rewrites[t], SCAN_CHUNK);
            ScanRun(k, t, comm, canTailCall) ==
            if part.state.offset < part.state.len && canTailCall
            then Run(k.(memory := part.memory, rewrites := k.rewrites[t := part.state]), true)
            else Run(Finished(k, t, comm, p, part), false)
  {
    var part := ScanSteps(k.memory, t.tgid, p, k.rewrites[t], SCAN_CHUNK);
    ForgetUpdate(k.rewrites, t, part.state);
  }

  /** An intermediate state of the scan leaves no trace in the finished kernel. */
  lemma FinishedForgets(k: Kernel, t: Thread, comm: CommKey, p: Policy, m: Memory, s: RewriteState, scan: Scan)
    ensures Finished(k.(memory := m, rewrites := k.rewrites[t := s]), t, comm, p, scan) ==
            Finished(k, t, comm, p, scan)
  {
    ForgetUpdate(k.rewrites, t, s);
  }

  lemma ForgetUpdate(m: map<Thread, RewriteState>, t: Thread, s: RewriteState)
    ensures m[t := s] - {t} == m - {t}
  {
  }

  lemma {:induction false} ChainFinishes(k: Kernel, t: Thread, comm: CommKey, p: Policy, tails: nat)
    requires Scanning(k, t, comm, p) && tails < MAX_TAIL_CALLS
    requires k.rewrites[t].offset >= SCAN_CHUNK * tails
    ensures Chain(k, t, comm, tails) == Finished(k, t, comm, p, ScanAll(k.memory, t.tgid, p, k.rewrites[t]))
    decreases MAX_TAIL_CALLS - tails
  {
    var s := k.rewrites[t];
    var part := ScanSteps(k.memory, t.tgid, p, s, SCAN_CHUNK);
    OneRun(k, t, comm, p, true);
    StepsProgress(k.memory, t.tgid, p, s, SCAN_CHUNK);
    CutScan(k.memory, t.tgid, p, s, SCAN_CHUNK);
    if part.state.offset < part.state.len {
      var k1 := k.(memory := part.memory, rewrites := k.rewrites[t := part.state]);
      ChainFinishes(k1, t, comm, p, tails + 1);
      FinishedForgets(k, t, comm, p, part.memory, part.state, ScanAll(k.memory, t.tgid, p, s));
    }
  }

  // ----- in-place editing against the reference -----

  predicate Accessible(m: Memory, tgid: u32, base: u64, n: nat)
    requires n < ADDRESSES
  {
    forall i | 0 <= i < n :: Loc(tgid, At(base, i)) in m.bytes && Loc(tgid, At(base, i)) in m.writable
  }

  /** The `n` bytes of a buffer. */
  function Contents(m: Memory, tgid: u32, base: u64, n: nat): (s: Str)
    requires n < ADDRESSES && Accessible(m, tgid, base, n)
    ensures |s| == n
  {
    seq(n, i requires 0 <= i < n => m.bytes[Loc(tgid, At(base, i))])
  }

  /** The two memories differ at most at distances `from..to` behind `base`. */
  predicate SameOutside(a: Memory, b: Memory, tgid: u32, base: u64, from: nat, to: nat) {
    && a.bytes.Keys == b.bytes.Keys && a.writable == b.writable
    && forall l | l in a.bytes && !(l.tgid == tgid && from <= Distance(base, l.addr) < to) :: a.bytes[l] == b.bytes[l]
  }

  lemma DistanceFromWithin(base: u64, o: nat, i: nat)
    requires o < ADDRESSES && i < ADDRESSES
    ensures Distance(base, At(base, i)) == i
    ensures Distance(At(base, o), At(base, i)) == if i >= o then i - o else i - o + ADDRESSES
    ensures o + i < ADDRESSES ==> At(At(base, o), i) == At(base, o + i)
  {
  }

  lemma DistanceShift(base: u64, o: nat, addr: u64)
    requires o < ADDRESSES
    ensures Distance(At(base, o), addr) ==
            if Distance(base, addr) >= o then Distance(base, addr) - o else Distance(base, addr) - o + ADDRESSES
  {
  }

  // ----- where a scan writes, whatever the policy and whatever can be accessed -----

  lemma {:induction false} StepsStayInside(m: Memory, tgid: u32, p: Policy, s: RewriteState, n: nat)
    requires Rewrites(p)
    ensures SameOutside(m, ScanSteps(m, tgid, p, s, n).memory, tgid, s.buf, s.offset, s.len)
    decreases n
  {
    if n > 0 && s.offset < s.len {
      var next := Iterate(m, tgid, p, s);
      StoreStaysInside(m, tgid, s.buf, s.offset, ReplaceText(p));
      StepsStayInside(next.memory, tgid, p, next.state, n - 1);
      SameOutsideCompose(m, next.memory, ScanSteps(m, tgid, p, s, n).memory, tgid, s.buf, s.offset, next.state.offset,
                         s.len);
    }
  }

  lemma StoreStaysInside(m: Memory, tgid: u32, base: u64, offset: nat, text: Str)
    requires offset + |text| < ADDRESSES
    ensures SameOutside(m, Store(m, tgid, At(base, offset), text), tgid, base, offset, offset + |text|)
  {
    forall l | l in m.bytes && InSpan(tgid, At(base, offset), |text|, l)
      ensures l.tgid == tgid && offset <= Distance(base, l.addr) < offset + |text|
    {
      DistanceShift(base, offset, l.addr);
    }
  }

  /** What cannot be written keeps its value. */
  lemma {:induction false} StepsRespectProtection(m: Memory, tgid: u32, p: Policy, s: RewriteState, n: nat, l: Loc)
    requires Rewrites(p) && l in m.bytes && l !in m.writable
    ensures var m' := ScanSteps(m, tgid, p, s, n).memory; l in m'.bytes && m'.bytes[l] == m.bytes[l]
    decreases n
  {
    if n > 0 && s.offset < s.len {
      var next := Iterate(m, tgid, p, s);
      StepsRespectProtection(next.memory, tgid, p, next.state, n - 1, l);
    }
  }

  /** A text some byte of which cannot be read, or differs, is not matched; the scan moves on by one byte and writes
      nothing. */
  lemma UnreadableIsNoMatch(m: Memory, tgid: u32, p: Policy, s: RewriteState, i: nat)
    requires Rewrites(p) && i < p.textLen && s.offset + p.textLen <= s.len
    requires var l := Loc(tgid, At(At(s.buf, s.offset), i)); l in m.bytes ==> m.bytes[l] != p.find[i]
    ensures Iterate(m, tgid, p, s) == Scan(m, s.(offset := s.offset + 1))
  {
    assert FindText(p)[i] == p.find[i];
  }

  /** One run of the scanner writes inside the buffer of its thread's rewrite state, or not at all. */
  lemma RunStaysInside(k: Kernel, t: Thread, comm: CommKey, canTailCall: bool)
    ensures var m, m' := k.memory, ScanRun(k, t, comm, canTailCall).kernel.memory;
            if t in k.rewrites && k.rewrites[t].buf != 0
            then SameOutside(m, m', t.tgid, k.rewrites[t].buf, 0, k.rewrites[t].len)
            else m' == m
  {
    var lookup := LookupPolicy(k, t, comm);
    if lookup.Some? && Scanning(k, t, comm, lookup.value) {
      OneRun(k, t, comm, lookup.value, canTailCall);
      StepsStayInside(k.memory, t.tgid, lookup.value, k.rewrites[t], SCAN_CHUNK);
    }
  }

  /** Storing the replacement at `offset` writes exactly its window of an accessible buffer. */
  lemma StoreInBuffer(m: Memory, tgid: u32, base: u64, n: nat, offset: nat, text: Str)
    requires n <= MAX_SCAN_BYTES && Accessible(m, tgid, base, n) && offset + |text| <= n
    ensures var m' := Store(m, tgid, At(base, offset), text);
            && Accessible(m', tgid, base, n)
            && SameOutside(m, m', tgid, base, offset, offset + |text|)
            && Contents(m', tgid, base, n) ==
               Contents(m, tgid, base, n)[..offset] + text + Contents(m, tgid, base, n)[offset + |text|..]
  {
    var m' := Store(m, tgid, At(base, offset), text);
    forall l | l in m.bytes
      ensures InSpan(tgid, At(base, offset), |text|, l) <==>
              l.tgid == tgid && offset <= Distance(base, l.addr) < offset + |text|
    {
      DistanceShift(base, offset, l.addr);
    }
    forall i | 0 <= i < n
      ensures m'.bytes[Loc(tgid, At(base, i))] ==
              if offset <= i < offset + |text| then text[i - offset] else m.bytes[Loc(tgid, At(base, i))]
    {
      DistanceFromWithin(base, offset, i);
    }
  }

  /** The kernel's byte-by-byte match is an occurrence in the buffer's contents. */
  lemma HoldsIsOccurrence(m: Memory, tgid: u32, base: u64, n: nat, offset: nat, text: Str)
    requires n <= MAX_SCAN_BYTES && Accessible(m, tgid, base, n) && offset + |text| <= n && |text| <= MAX_TEXT_LEN
    ensures Holds(m, tgid, At(base, offset), text) <==> Occurs(Contents(m, tgid, base, n), text, offset)
  {
    var s := Contents(m, tgid, base, n);
    forall i | 0 <= i < |text|
      ensures At(At(base, offset), i) == At(base, offset + i)
      ensures s[offset..offset + |text|][i] == m.bytes[Loc(tgid, At(At(base, offset), i))]
    {
      DistanceFromWithin(base, offset, i);
    }
  }

  lemma SameOutsideCompose(a: Memory, b: Memory, c: Memory, tgid: u32, base: u64, from: nat, mid: nat, to: nat)
    requires from <= mid <= to
    requires SameOutside(a, b, tgid, base, from, mid) && SameOutside(b, c, tgid, base, mid, to)
    ensures SameOutside(a, c, tgid, base, from, to)
  {
  }

  /** One iteration of the unbounded scan. */
  lemma ScanAllStep(m: Memory, tgid: u32, p: Policy, s: RewriteState)
    requires Rewrites(p) && s.offset < s.len
    ensures var next := Iterate(m, tgid, p, s);
            ScanAll(m, tgid, p, s) == ScanAll(next.memory, tgid, p, next.state)
  {
    var next := Iterate(m, tgid, p, s);
    EnoughSteps(next.memory, tgid, p, next.state, s.len - s.offset - 1);
  }

  /** A scan in progress over a buffer that held `original` when the scan started. */
  predicate Progress(m: Memory, tgid: u32, p: Policy, s: RewriteState, original: Str)
    requires Rewrites(p)
  {
    && |original| == s.len && Accessible(m, tgid, s.buf, s.len)
    && EditedUpTo(Contents(m, tgid, s.buf, s.len), original, FindText(p), ReplaceText(p), s.offset, s.replacements)
  }

  /** One iteration keeps the scan on its way to the greedy replacement of the original bytes: text already written
      lies before the offset and is never looked at again. */
  lemma IterateKeepsProgress(m: Memory, tgid: u32, p: Policy, s: RewriteState, original: Str, next: Scan)
    requires Rewrites(p) && Progress(m, tgid, p, s, original)
    requires s.offset < s.len && next == Iterate(m, tgid, p, s)
    ensures Progress(next.memory, tgid, p, next.state, original)
  {
    var find, replace, current := FindText(p), ReplaceText(p), Contents(m, tgid, s.buf, s.len);
    if s.offset + p.textLen > s.len {
      EditEnd(current, original, find, replace, s.offset, s.replacements);
    } else {
      HoldsIsOccurrence(m, tgid, s.buf, s.len, s.offset, find);
      if Holds(m, tgid, At(s.buf, s.offset), find) {
        StoreInBuffer(m, tgid, s.buf, s.len, s.offset, replace);
        EditHit(current, Contents(next.memory, tgid, s.buf, s.len), original, find, replace, s.offset, s.replacements);
      } else {
        EditMiss(current, original, find, replace, s.offset, s.replacements);
      }
    }
  }

  lemma {:induction false} StepsKeepProgress(m: Memory, tgid: u32, p: Policy, s: RewriteState, original: Str, n: nat,
                                             scan: Scan)
    requires Rewrites(p) && Progress(m, tgid, p, s, original) && scan == ScanSteps(m, tgid, p, s, n)
    ensures Progress(scan.memory, tgid, p, scan.state, original)
    decreases n
  {
    if n > 0 && s.offset < s.len {
      var next := Iterate(m, tgid, p, s);
      IterateKeepsProgress(m, tgid, p, s, original, next);
      StepsKeepProgress(next.memory, tgid, p, next.state, original, n - 1, scan);
    }
  }

  /** A scan that has reached the end of its buffer has replaced it. */
  lemma ProgressAtEnd(m: Memory, tgid: u32, p: Policy, s: RewriteState, original: Str)
    requires Rewrites(p) && Progress(m, tgid, p, s, original) && s.offset == s.len
    ensures Contents(m, tgid, s.buf, s.len) == Replace(original, FindText(p), ReplaceText(p))
    ensures s.replacements == |Windows(original, FindText(p), 0)|
  {
    EditEnd(Contents(m, tgid, s.buf, s.len), original, FindText(p), ReplaceText(p), s.offset, s.replacements);
  }

  /** The bytes to scan: none after an error or the end of the file, what was read up to 1024 bytes; and a minimum exactly
      when the cast to 32 bits does not cut below the limit. */
  lemma ClampIsMinimum(ret: int)
    ensures ret <= 0 ==> ClampScanLen(ret) == 0
    ensures 0 < ret < 1024 ==> ClampScanLen(ret) == ret
    ensures 1024 <= ret < 0x1_0000_0000 ==> ClampScanLen(ret) == 1024
    ensures ret > 0 ==> (ClampScanLen(ret) == Min(ret, 1024) <==>
                         ret < 0x1_0000_0000 || ret % 0x1_0000_0000 >= 1024)
  {
  }

  /** A scan of a whole buffer. */
  lemma ScanBuffer(m: Memory, tgid: u32, p: Policy, s: RewriteState)
    requires Rewrites(p) && s.offset == s.replacements == 0 && Accessible(m, tgid, s.buf, s.len)
    ensures var scan, original := ScanAll(m, tgid, p, s), Contents(m, tgid, s.buf, s.len);
            && Accessible(scan.memory, tgid, s.buf, s.len)
            && Contents(scan.memory, tgid, s.buf, s.len) == Replace(original, FindText(p), ReplaceText(p))
            && SameOutside(m, scan.memory, tgid, s.buf, 0, s.len)
            && scan.state.replacements == |Windows(original, FindText(p), 0)|
  {
    var scan, original := ScanAll(m, tgid, p, s), Contents(m, tgid, s.buf, s.len);
    EditStart(original, FindText(p), ReplaceText(p));
    StepsKeepProgress(m, tgid, p, s, original, s.len, scan);
    StepsProgress(m, tgid, p, s, s.len);
    StepsStayInside(m, tgid, p, s, s.len);
    ProgressAtEnd(scan.memory, tgid, p, scan.state, original);
  }

  /** A prepared read exit is one chain from the start of the buffer. */
  lemma PreparedChain(k: Kernel, t: Thread, comm: CommKey, ret: int, p: Policy, s: RewriteState)
    requires PreparesScan(k, t, comm, ret) && k.buffers[t] != 0 && LookupPolicy(k, t, comm) == Some(p)
    requires s == RewriteState(k.buffers[t], ClampScanLen(ret), 0, 0)
    ensures CompleteReadExit(k, t, comm, ret, true) == Finished(k, t, comm, p, ScanAll(k.memory, t.tgid, p, s))
  {
    var k0 := k.(rewrites := k.rewrites[t := s]);
    ChainFinishes(k0, t, comm, p, 0);
    assert CompleteReadExit(k, t, comm, ret, true) == Chain(k0, t, comm, 0);
    FinishedForgets(k, t, comm, p, k.memory, s, ScanAll(k.memory, t.tgid, p, s));
  }

  /** Main result: a read that is rewritten leaves the scanned bytes equal to one greedy replacement of their
      original values, every other byte of every process as it was, no bookkeeping, and one event carrying the
      total size of the replaced windows exactly when there are any. */
  lemma {:induction false} ReadIsRewritten(k: Kernel, t: Thread, comm: CommKey, ret: int)
    requires PreparesScan(k, t, comm, ret) && k.buffers[t] != 0
    requires Accessible(k.memory, t.tgid, k.buffers[t], ClampScanLen(ret))
    ensures var n, buf, p := ClampScanLen(ret), k.buffers[t], LookupPolicy(k, t, comm).value;
            var k' := CompleteReadExit(k, t, comm, ret, true);
            var original := Contents(k.memory, t.tgid, buf, n);
            var windows := Windows(original, FindText(p), 0);
            && Accessible(k'.memory, t.tgid, buf, n)
            && Contents(k'.memory, t.tgid, buf, n) == Replace(original, FindText(p), ReplaceText(p))
            && SameOutside(k.memory, k'.memory, t.tgid, buf, 0, n)
            && |windows| * p.textLen <= n
            && k' == ClearReadState(k, t).(
                       memory := k'.memory,
                       events := if (exists j: nat :: Occurs(original, FindText(p), j))
                                 then k.events + [Event(t, p.action, OpRewrite, |windows| * p.textLen, comm, p.targetPath)]
                                 else k.events)
  {
    var n, buf, p := ClampScanLen(ret), k.buffers[t], LookupPolicy(k, t, comm).value;
    var s: RewriteState := RewriteState(buf, n, 0, 0);
    PreparedChain(k, t, comm, ret, p, s);
    ScanBuffer(k.memory, t.tgid, p, s);
    WindowsFit(Contents(k.memory, t.tgid, buf, n), FindText(p), 0);
    SomeWindowIffOccurs(Contents(k.memory, t.tgid, buf, n), FindText(p));
  }

  /** A read that is not prepared for rewriting leaves memory and events alone. */
  lemma ReadIsLeftAlone(k: Kernel, t: Thread, comm: CommKey, ret: int, stored: bool)
    requires !PreparesScan(k, t, comm, ret)
    ensures CompleteReadExit(k, t, comm, ret, stored) == if t in k.buffers then ClearReadState(k, t) else k
  {
  }

  /** A read that failed or met the end of the file touches no memory and reports nothing; it only clears the state. */
  lemma FailedReadIsLeftAlone(k: Kernel, t: Thread, comm: CommKey, ret: int, stored: bool)
    requires ret <= 0
    ensures CompleteReadExit(k, t, comm, ret, stored) ==
            if t in k.buffers then k.(buffers := k.buffers - {t}, rewrites := k.rewrites - {t}) else k
  {
    ClampIsMinimum(ret);
    assert !PreparesScan(k, t, comm, ret);
    ReadIsLeftAlone(k, t, comm, ret, stored);
  }

  /** What a whole read exit leaves behind: the saved address survives exactly when storing the rewrite state
      failed with no older state to use, or the address is zero; nothing else keeps it. */
  lemma {:induction false} AddressLeftBehind(k: Kernel, t: Thread, comm: CommKey, ret: int, stored: bool)
    requires t !in k.rewrites
    ensures t in CompleteReadExit(k, t, comm, ret, stored).buffers <==>
            PreparesScan(k, t, comm, ret) && (!stored || k.buffers[t] == 0)
  {
    if PreparesScan(k, t, comm, ret) && stored && k.buffers[t] != 0 {
      PreparedChain(k, t, comm, ret, LookupPolicy(k, t, comm).value,
                    RewriteState(k.buffers[t], ClampScanLen(ret), 0, 0));
    }
  }
}
