/** Flag mode (config/store.go): static entries from the command line, and rounds that keep the process table in step
    with the processes that run the watched executables. */
module FlagMode {
  import opened Bytes
  import opened Encoding
  import opened KernelSpec
  import opened Tables

  /** The flags; process numbers are Go `uint`s, cut to 32 bits where they become keys. */
  datatype Config = Config(targetPath: Str, rewritePid: nat, hidePid: nat, rewritePidExplicit: bool, rewriteComms: Str,
                           hideComms: Str, rewriteExes: Str, findText: Str, replaceText: Str)

  /** How a comma-separated flag is taken apart. */
  type Splitter = Str -> seq<Str>

  predicate RewriteRequested(cfg: Config) {
    cfg.rewritePidExplicit || cfg.rewriteComms != [] || cfg.rewriteExes != [] || cfg.findText != [] || cfg.replaceText != []
  }

  predicate ShouldApplyRewritePid(cfg: Config) {
    RewriteRequested(cfg) && cfg.rewritePid != 0 &&
    (cfg.rewritePidExplicit || (cfg.rewriteComms == [] && cfg.rewriteExes == []))
  }

  function EffectiveRewritePid(cfg: Config): nat {
    if ShouldApplyRewritePid(cfg) then cfg.rewritePid else 0
  }

  predicate IsStaticPid(cfg: Config, pid: u32) {
    ToU32(EffectiveRewritePid(cfg)) == pid || ToU32(cfg.hidePid) == pid
  }

  function RewritePolicy(cfg: Config): Policy {
    PolicyOf(ACTION_REWRITE, cfg.targetPath, cfg.findText, cfg.replaceText)
  }

  function HidePolicy(cfg: Config): Policy {
    PolicyOf(ACTION_HIDE, cfg.targetPath, [], [])
  }

  /** The keys `Apply` enters. */
  function StaticPids(cfg: Config): set<u32> {
    (if ShouldApplyRewritePid(cfg) then {ToU32(cfg.rewritePid)} else {}) +
    (if cfg.hidePid != 0 then {ToU32(cfg.hidePid)} else {})
  }

  function Entry(wanted: bool, pid: nat, policy: Policy): map<u32, Policy> {
    if wanted then map[ToU32(pid) := policy] else map[]
  }

  function RewriteEntry(cfg: Config): map<u32, Policy> {
    Entry(ShouldApplyRewritePid(cfg), cfg.rewritePid, RewritePolicy(cfg))
  }

  function HideEntry(cfg: Config): map<u32, Policy> {
    Entry(cfg.hidePid != 0, cfg.hidePid, HidePolicy(cfg))
  }

  /** What `Apply` enters; hide comes last and wins. */
  function StaticTable(cfg: Config): (table: map<u32, Policy>)
    ensures table.Keys == StaticPids(cfg)
    ensures forall pid | pid in table ::
              table[pid] == if cfg.hidePid != 0 && pid == ToU32(cfg.hidePid) then HidePolicy(cfg) else RewritePolicy(cfg)
  {
    RewriteEntry(cfg) + HideEntry(cfg)
  }

  /** One policy for every task of a list. */
  function NameEntries(comms: seq<Str>, policy: Policy): map<CommKey, Policy> {
    map key | key in Names(comms) :: policy
  }

  function Names(comms: seq<Str>): set<CommKey> {
    set comm | comm in comms :: CommKeyOf(comm)
  }

  function RewriteNames(cfg: Config, split: Splitter): map<CommKey, Policy> {
    if RewriteRequested(cfg) then NameEntries(split(cfg.rewriteComms), RewritePolicy(cfg)) else map[]
  }

  function HideNames(cfg: Config, split: Splitter): map<CommKey, Policy> {
    NameEntries(split(cfg.hideComms), HidePolicy(cfg))
  }

  /** Which flags ask for rewriting, and when the flag's process is entered: if it was given explicitly, or if texts are
      given without naming tasks or executables. */
  lemma WhatFlagsAskFor(cfg: Config)
    ensures !RewriteRequested(cfg) <==>
            !cfg.rewritePidExplicit && cfg.rewriteComms == [] && cfg.rewriteExes == [] && cfg.findText == [] && cfg.replaceText == []
    ensures cfg.rewritePidExplicit && cfg.rewritePid != 0 ==> ToU32(cfg.rewritePid) in StaticPids(cfg)
    ensures !cfg.rewritePidExplicit && cfg.hidePid == 0 ==>
              (StaticPids(cfg) != {} <==> cfg.rewritePid != 0 && cfg.rewriteComms == [] && cfg.rewriteExes == [] &&
                                          (cfg.findText != [] || cfg.replaceText != []))
    ensures cfg.hidePid != 0 ==> ToU32(cfg.hidePid) in StaticPids(cfg)
    ensures cfg.hidePid == 0 && cfg.rewritePid == 0 ==> StaticPids(cfg) == {}
  {
    assert ToU32(cfg.rewritePid) in {ToU32(cfg.rewritePid)};
  }

  // ----- Apply -----

  /** `buildRewritePolicy`. */
  method BuildRewritePolicy(cfg: Config) returns (policy: Option<Policy>)
    ensures policy == if cfg.findText != [] && |cfg.findText| == |cfg.replaceText| then Some(RewritePolicy(cfg)) else None
  {
    if cfg.findText == [] || cfg.replaceText == [] || |cfg.findText| != |cfg.replaceText| {
      return None;
    }
    var p := NewPolicy(ACTION_REWRITE, cfg.targetPath, cfg.findText, cfg.replaceText);
    return Some(p);
  }

  /** Rewriting is asked for with texts that no policy can be built from. */
  predicate BadTexts(cfg: Config) {
    RewriteRequested(cfg) && (cfg.findText == [] || |cfg.findText| != |cfg.replaceText|)
  }

  /** Some of the entries have been put over the old table. */
  ghost predicate PartlyPut<K, V>(old_: map<K, V>, entries: map<K, V>, now: map<K, V>) {
    exists done: set<K> | done <= entries.Keys :: now == Merged(old_, entries, done)
  }

  lemma PartlyPutEnds<K, V>(old_: map<K, V>, entries: map<K, V>)
    ensures PartlyPut(old_, entries, old_) && PartlyPut(old_, entries, old_ + entries)
  {
    MergedEnds(old_, entries);
  }

  /** There is a fault, or room is missing for an entry. */
  ghost predicate CannotPut<K, V>(m: BpfMap<K, V>, entries: map<K, V>)
    reads m
  {
    m.faulty || Full(entries, m.contents, m.capacity)
  }

  /** `applyCommPolicies`. */
  method ApplyNames(m: BpfMap<CommKey, Policy>, comms: seq<Str>, policy: Policy) returns (ok: bool)
    modifies m`contents, m`history, m.log
    ensures ok ==> m.contents == old(m.contents) + NameEntries(comms, policy)
    ensures !ok ==> CannotPut(m, NameEntries(comms, policy))
    ensures !ok ==> PartlyPut(old(m.contents), NameEntries(comms, policy), m.contents)
  {
    ghost var before, entries, done: set<CommKey> := m.contents, NameEntries(comms, policy), {};
    MergedEnds(before, entries);
    for i := 0 to |comms|
      invariant done == Names(comms[..i]) && done <= entries.Keys && m.contents == Merged(before, entries, done)
    {
      var key := EncodeField(16, comms[i]);
      assert comms[i] in comms && key in Names(comms);
      ok := PutOne(m, key, policy, entries, before, done);
      if !ok {
        return;
      }
      assert comms[..i + 1] == comms[..i] + [comms[i]];
      NamesOfOneMore(comms[..i], comms[i]);
      done := done + {CommKeyOf(comms[i])};
    }
    assert comms[..|comms|] == comms;
    return true;
  }

  lemma NamesOfOneMore(comms: seq<Str>, comm: Str)
    ensures Names(comms + [comm]) == Names(comms) + {CommKeyOf(comm)}
  {
    forall key | key in Names(comms) + {CommKeyOf(comm)}
      ensures key in Names(comms + [comm])
    {
      var c :| (c in comms || c == comm) && CommKeyOf(c) == key;
      assert c in comms + [comm];
    }
  }

  /** One process entry, if there is to be one. */
  method ApplyPid(m: BpfMap<u32, Policy>, wanted: bool, pid: nat, policy: Policy) returns (ok: bool)
    modifies m`contents, m`history, m.log
    ensures m.contents == if ok then old(m.contents) + Entry(wanted, pid, policy) else old(m.contents)
    ensures !ok ==> CannotPut(m, Entry(wanted, pid, policy))
  {
    if !wanted {
      return true;
    }
    ok := m.Put(ToU32(pid), policy);
    assert ToU32(pid) in Entry(wanted, pid, policy);
  }

  /** The part of `Apply` about rewriting. */
  method ApplyRewrite(policyMap: BpfMap<u32, Policy>, commPolicyMap: BpfMap<CommKey, Policy>, cfg: Config, split: Splitter)
    returns (ok: bool)
    modifies policyMap`contents, policyMap`history, policyMap.log
    modifies commPolicyMap`contents, commPolicyMap`history, commPolicyMap.log
    ensures BadTexts(cfg) ==> !ok && policyMap.contents == old(policyMap.contents)
    ensures ok ==> policyMap.contents == old(policyMap.contents) + RewriteEntry(cfg)
    ensures ok ==> commPolicyMap.contents == old(commPolicyMap.contents) + RewriteNames(cfg, split)
    ensures !ok ==> || BadTexts(cfg) || CannotPut(policyMap, RewriteEntry(cfg))
                    || CannotPut(commPolicyMap, RewriteNames(cfg, split))
    ensures policyMap.contents == old(policyMap.contents) + RewriteEntry(cfg) ||
            (policyMap.contents == old(policyMap.contents) && commPolicyMap.contents == old(commPolicyMap.contents))
    ensures PartlyPut(old(commPolicyMap.contents), RewriteNames(cfg, split), commPolicyMap.contents)
  {
    PartlyPutEnds(commPolicyMap.contents, RewriteNames(cfg, split));
    if !RewriteRequested(cfg) {
      return true;
    }
    var policy := BuildRewritePolicy(cfg);
    if policy.None? {
      return false;
    }
    ok := ApplyPid(policyMap, ShouldApplyRewritePid(cfg), cfg.rewritePid, policy.value);
    if !ok {
      return;
    }
    ok := ApplyNames(commPolicyMap, split(cfg.rewriteComms), policy.value);
  }

  /** The part of `Apply` about hiding. */
  method ApplyHide(policyMap: BpfMap<u32, Policy>, commPolicyMap: BpfMap<CommKey, Policy>, cfg: Config, split: Splitter)
    returns (ok: bool)
    modifies policyMap`contents, policyMap`history, policyMap.log
    modifies commPolicyMap`contents, commPolicyMap`history, commPolicyMap.log
    ensures ok ==> policyMap.contents == old(policyMap.contents) + HideEntry(cfg)
    ensures ok ==> commPolicyMap.contents == old(commPolicyMap.contents) + HideNames(cfg, split)
    ensures !ok ==> CannotPut(policyMap, HideEntry(cfg)) || CannotPut(commPolicyMap, HideNames(cfg, split))
    ensures policyMap.contents == old(policyMap.contents) + HideEntry(cfg) ||
            (policyMap.contents == old(policyMap.contents) && commPolicyMap.contents == old(commPolicyMap.contents))
    ensures PartlyPut(old(commPolicyMap.contents), HideNames(cfg, split), commPolicyMap.contents)
  {
    PartlyPutEnds(commPolicyMap.contents, HideNames(cfg, split));
    var hidePolicy := NewPolicy(ACTION_HIDE, cfg.targetPath, [], []);
    ok := ApplyPid(policyMap, cfg.hidePid != 0, cfg.hidePid, hidePolicy);
    if !ok {
      return;
    }
    ok := ApplyNames(commPolicyMap, split(cfg.hideComms), hidePolicy);
  }

  /** How far `Apply` has come: every entry for rewriting is made before any for hiding, and in each part the process
      comes before the names. */
  ghost predicate AppliedInOrder(cfg: Config, split: Splitter, pids: map<u32, Policy>, names: map<CommKey, Policy>,
                                 pidsNow: map<u32, Policy>, namesNow: map<CommKey, Policy>) {
    || (pidsNow == pids && namesNow == names)
    || (pidsNow == pids + RewriteEntry(cfg) && PartlyPut(names, RewriteNames(cfg, split), namesNow))
    || (pidsNow == pids + StaticTable(cfg) && PartlyPut(names + RewriteNames(cfg, split), HideNames(cfg, split), namesNow))
  }

  /** `Apply`: on success both tables hold the static entries over what they held, hide winning over rewrite; a failure
      leaves the part made so far, and has one of the reasons listed. */
  method Apply(policyMap: BpfMap<u32, Policy>, commPolicyMap: BpfMap<CommKey, Policy>, cfg: Config, split: Splitter)
    returns (ok: bool)
    modifies policyMap`contents, policyMap`history, policyMap.log
    modifies commPolicyMap`contents, commPolicyMap`history, commPolicyMap.log
    ensures ok ==> policyMap.contents == old(policyMap.contents) + StaticTable(cfg)
    ensures ok ==> commPolicyMap.contents ==
                   old(commPolicyMap.contents) + (RewriteNames(cfg, split) + HideNames(cfg, split))
    ensures BadTexts(cfg) ==> !ok
    ensures !ok ==> || BadTexts(cfg)
                    || CannotPut(policyMap, RewriteEntry(cfg)) || CannotPut(commPolicyMap, RewriteNames(cfg, split))
                    || CannotPut(policyMap, HideEntry(cfg)) || CannotPut(commPolicyMap, HideNames(cfg, split))
    ensures AppliedInOrder(cfg, split, old(policyMap.contents), old(commPolicyMap.contents),
                           policyMap.contents, commPolicyMap.contents)
  {
    MergeTwice(policyMap.contents, RewriteEntry(cfg), HideEntry(cfg));
    MergeTwice(commPolicyMap.contents, RewriteNames(cfg, split), HideNames(cfg, split));
    PartlyPutEnds(commPolicyMap.contents, RewriteNames(cfg, split));
    ok := ApplyRewrite(policyMap, commPolicyMap, cfg, split);
    if ok {
      ok := ApplyHide(policyMap, commPolicyMap, cfg, split);
    }
  }

  lemma MergeTwice<K, V>(a: map<K, V>, b: map<K, V>, c: map<K, V>)
    ensures (a + b) + c == a + (b + c)
  {
  }

  // ----- rounds -----

  /** One tick of `SyncExecutablePolicies`: the process list could not be read, or its entries were put and those gone
      deleted, or this failed with some of the puts or some of the deletions done. */
  datatype Round =
    | Unlisted
    | Complete(current: map<u32, Policy>)
    | PutFailed(current: map<u32, Policy>, done: set<u32>)
    | DeleteFailed(current: map<u32, Policy>, done: set<u32>)

  /** The processes of the last complete round that are gone and not static. */
  function Gone(cfg: Config, current: map<u32, Policy>, last: set<u32>): set<u32> {
    set pid | pid in last && pid !in current && !IsStaticPid(cfg, pid)
  }

  /** The process numbers whose entries the round puts. */
  function Put(round: Round): set<u32> {
    match round
    case Unlisted => {}
    case Complete(current) => current.Keys
    case PutFailed(current, done) => current.Keys * done
    case DeleteFailed(current, _) => current.Keys
  }

  /** The table after a round, when `last` is what the last complete round saw. */
  function AfterRound(cfg: Config, table: map<u32, Policy>, last: set<u32>, round: Round): map<u32, Policy> {
    match round
    case Unlisted => table
    case Complete(current) => (table + current) - Gone(cfg, current, last)
    case PutFailed(current, done) => Merged(table, current, current.Keys * done)
    case DeleteFailed(current, done) => (table + current) - Gone(cfg, current, last * done)
  }

  /** What the last complete round saw. */
  function Listed(rounds: seq<Round>): set<u32> {
    if rounds == [] then {}
    else
      var n := |rounds| - 1;
      if rounds[n].Complete? then rounds[n].current.Keys else Listed(rounds[..n])
  }

  /** The table after some rounds. */
  function AfterRounds(cfg: Config, table: map<u32, Policy>, rounds: seq<Round>): map<u32, Policy> {
    if rounds == [] then table
    else
      var n := |rounds| - 1;
      AfterRound(cfg, AfterRounds(cfg, table, rounds[..n]), Listed(rounds[..n]), rounds[n])
  }

  /** The loop over the processes of the last complete round; `done` are those it has dealt with. */
  method DeleteGone(m: BpfMap<u32, Policy>, current: map<u32, Policy>, last: set<u32>, cfg: Config)
    returns (ok: bool, ghost done: set<u32>)
    modifies m`contents, m`history, m.log
    ensures done <= last && m.contents == old(m.contents) - Gone(cfg, current, done)
    ensures ok ==> done == last
    ensures !ok ==> m.faulty
  {
    var rest := last;
    done := {};
    while rest != {}
      invariant rest <= last && done == last - rest
      invariant m.contents == old(m.contents) - Gone(cfg, current, done)
      decreases rest
    {
      var pid :| pid in rest;
      GoneStep(cfg, current, done, pid);
      if !(pid in current || IsStaticPid(cfg, pid)) {
        DeleteOneMore(old(m.contents), Gone(cfg, current, done), pid);
        var outcome := m.Delete(pid);
        if outcome.Failed? {
          return false, done;
        }
      }
      rest, done := rest - {pid}, done + {pid};
    }
    ok := true;
  }

  /** `reconcileExecutablePolicies`. */
  method Reconcile(m: BpfMap<u32, Policy>, current: map<u32, Policy>, last: set<u32>, cfg: Config)
    returns (ok: bool, ghost round: Round)
    modifies m`contents, m`history, m.log
    ensures m.contents == AfterRound(cfg, old(m.contents), last, round)
    ensures ok <==> round == Complete(current)
    ensures !ok ==> (round.PutFailed? || round.DeleteFailed?) && round.current == current
    ensures !ok ==> m.faulty || Full(current, m.contents, m.capacity)
  {
    ghost var done;
    ok, done := PutEach(m, current);
    round := PutFailed(current, done);
    assert current.Keys * done == done;
    if ok {
      ok, done := DeleteGone(m, current, last, cfg);
      assert last * done == done;
      round := if ok then Complete(current) else DeleteFailed(current, done);
    }
  }

  /** In a round the puts come first: one in which a put fails takes no key away, and one that deletes anything has put
      every current entry. */
  lemma PutsComeFirst(cfg: Config, table: map<u32, Policy>, last: set<u32>, current: map<u32, Policy>, done: set<u32>)
    ensures table.Keys <= AfterRound(cfg, table, last, PutFailed(current, done)).Keys <= table.Keys + current.Keys
    ensures forall pid | pid in current ::
              && pid in AfterRound(cfg, table, last, DeleteFailed(current, done))
              && AfterRound(cfg, table, last, DeleteFailed(current, done))[pid] == current[pid]
  {
    PutsAreBetween(table, current, current.Keys * done);
  }

  lemma GoneStep(cfg: Config, current: map<u32, Policy>, pids: set<u32>, pid: u32)
    ensures Gone(cfg, current, pids + {pid}) ==
            Gone(cfg, current, pids) + if pid in current || IsStaticPid(cfg, pid) then {} else {pid}
  {
  }

  lemma DeleteOneMore(table: map<u32, Policy>, pids: set<u32>, pid: u32)
    ensures (table - pids) - {pid} == table - (pids + {pid})
  {
  }

  /** The round is one for the process list read, if any. */
  predicate RoundFor(round: Round, list: Option<map<u32, Policy>>) {
    match list
    case None => round.Unlisted?
    case Some(current) => !round.Unlisted? && round.current == current
  }

  /** The loop of `SyncExecutablePolicies` for some number of ticks: a failed round leaves what it has done and keeps the
      old list. */
  method SyncExecutablePolicies(m: BpfMap<u32, Policy>, cfg: Config, lists: seq<Option<map<u32, Policy>>>)
    returns (ghost rounds: seq<Round>)
    modifies m`contents, m`history, m.log
    ensures |rounds| == |lists| && forall i | 0 <= i < |rounds| :: RoundFor(rounds[i], lists[i])
    ensures m.contents == AfterRounds(cfg, old(m.contents), rounds)
  {
    var last: set<u32> := {};
    rounds := [];
    for i := 0 to |lists|
      invariant |rounds| == i && forall j | 0 <= j < i :: RoundFor(rounds[j], lists[j])
      invariant last == Listed(rounds) && m.contents == AfterRounds(cfg, old(m.contents), rounds)
    {
      ghost var round := Unlisted;
      if lists[i].Some? {
        var ok;
        ok, round := Reconcile(m, lists[i].value, last, cfg);
        if ok {
          last := lists[i].value.Keys;
        }
      }
      assert (rounds + [round])[..i] == rounds;
      rounds := rounds + [round];
    }
  }

  // ----- which keys there are -----

  /** Process 0 counts as static whenever one of the two static flags is unset, without ever being entered. */
  predicate Sticks(cfg: Config, pid: u32) {
    IsStaticPid(cfg, pid) && pid !in StaticPids(cfg)
  }

  lemma OnlyZeroSticks(cfg: Config, pid: u32)
    ensures Sticks(cfg, pid) ==> pid == 0
    ensures pid in StaticPids(cfg) ==> IsStaticPid(cfg, pid)
  {
  }

  /** Round `i` puts an entry that no later round will delete: it fails, the process was not listed before, and no
      complete round lists it later; or the process sticks. */
  predicate StraysAt(cfg: Config, rounds: seq<Round>, pid: u32, i: nat)
    requires i < |rounds|
  {
    pid in Put(rounds[i]) &&
    (|| Sticks(cfg, pid)
     || (&& !rounds[i].Complete? && pid !in Listed(rounds[..i])
         && forall j | i < j < |rounds| && rounds[j].Complete? :: pid !in rounds[j].current))
  }

  predicate Strays(cfg: Config, rounds: seq<Round>, pid: u32) {
    exists i | 0 <= i < |rounds| :: StraysAt(cfg, rounds, pid, i)
  }

  lemma StraysStep(cfg: Config, rounds: seq<Round>, pid: u32)
    requires rounds != []
    ensures var n := |rounds| - 1;
            var before, round := rounds[..n], rounds[n];
            Strays(cfg, rounds, pid) <==>
            || (pid in Put(round) && (Sticks(cfg, pid) || (!round.Complete? && pid !in Listed(before))))
            || (Strays(cfg, before, pid) && (Sticks(cfg, pid) || !(round.Complete? && pid in round.current)))
  {
    var n := |rounds| - 1;
    var before, round := rounds[..n], rounds[n];
    forall i | 0 <= i < n
      ensures StraysAt(cfg, rounds, pid, i) <==>
              StraysAt(cfg, before, pid, i) && (Sticks(cfg, pid) || !(round.Complete? && pid in round.current))
    {
      assert before[..i] == rounds[..i];
    }
    assert StraysAt(cfg, rounds, pid, n) <==>
           pid in Put(round) && (Sticks(cfg, pid) || (!round.Complete? && pid !in Listed(before)));
    if Strays(cfg, rounds, pid) {
      var i :| 0 <= i < |rounds| && StraysAt(cfg, rounds, pid, i);
      assert i < n ==> StraysAt(cfg, before, pid, i);
    }
    if Strays(cfg, before, pid) {
      var i :| 0 <= i < |before| && StraysAt(cfg, before, pid, i);
      assert StraysAt(cfg, rounds, pid, i) <==> Sticks(cfg, pid) || !(round.Complete? && pid in round.current);
    }
  }

  /** What is known of one key after any rounds, failed ones included. */
  ghost predicate KeyInv(cfg: Config, rounds: seq<Round>, pid: u32) {
    var table := AfterRounds(cfg, StaticTable(cfg), rounds);
    && (pid in StaticPids(cfg) || Strays(cfg, rounds, pid) ==> pid in table)
    && (pid in table ==> pid in StaticPids(cfg) || Strays(cfg, rounds, pid) || pid in Listed(rounds))
    && (Strays(cfg, rounds, pid) && !Sticks(cfg, pid) ==> pid !in Listed(rounds))
    && (Sticks(cfg, pid) && pid in Listed(rounds) ==> Strays(cfg, rounds, pid))
  }

  lemma {:induction false} KeysOverRounds(cfg: Config, rounds: seq<Round>, pid: u32)
    ensures KeyInv(cfg, rounds, pid)
  {
    if rounds != [] {
      var n := |rounds| - 1;
      KeysOverRounds(cfg, rounds[..n], pid);
      StraysStep(cfg, rounds, pid);
      OnlyZeroSticks(cfg, pid);
    }
  }

  /** Main result: after any rounds, complete or failed, that end with a complete one, the keys are the static process
      numbers, those just listed, and the strays. */
  lemma {:induction false} KeysAfterCompleteRound(cfg: Config, rounds: seq<Round>, pid: u32)
    requires rounds != [] && rounds[|rounds| - 1].Complete?
    ensures pid in AfterRounds(cfg, StaticTable(cfg), rounds) <==>
            pid in StaticPids(cfg) || pid in rounds[|rounds| - 1].current || Strays(cfg, rounds, pid)
  {
    KeysOverRounds(cfg, rounds, pid);
  }

  /** All process lists could be read or not at all, and no map operation failed. */
  predicate NoneFailed(rounds: seq<Round>) {
    forall i | 0 <= i < |rounds| :: rounds[i].Unlisted? || rounds[i].Complete?
  }

  predicate EverListed(rounds: seq<Round>, pid: u32) {
    exists i | 0 <= i < |rounds| :: pid in Put(rounds[i])
  }

  /** Without failed rounds the keys are exactly the static and the current process numbers, unless process 0, which
      no system has, was listed once, is gone, and is taken for static. */
  lemma {:induction false} KeysInStep(cfg: Config, rounds: seq<Round>)
    requires rounds != [] && rounds[|rounds| - 1].Complete? && NoneFailed(rounds)
    ensures var current := rounds[|rounds| - 1].current;
            AfterRounds(cfg, StaticTable(cfg), rounds).Keys == StaticPids(cfg) + current.Keys <==>
            !(EverListed(rounds, 0) && 0 !in current && Sticks(cfg, 0))
  {
    var table, current := AfterRounds(cfg, StaticTable(cfg), rounds), rounds[|rounds| - 1].current;
    forall pid: u32
      ensures pid in table <==>
              pid in StaticPids(cfg) + current.Keys || (pid == 0 && Sticks(cfg, 0) && EverListed(rounds, 0))
    {
      KeysAfterCompleteRound(cfg, rounds, pid);
      OnlyZeroSticks(cfg, pid);
      if Sticks(cfg, pid) && EverListed(rounds, pid) {
        var i :| 0 <= i < |rounds| && pid in Put(rounds[i]);
        assert StraysAt(cfg, rounds, pid, i);
      }
    }
    assert 0 in table || 0 !in table;
  }

  /** So for real process numbers the table is always in step. */
  lemma {:induction false} KeysInStepForProcesses(cfg: Config, rounds: seq<Round>)
    requires rounds != [] && rounds[|rounds| - 1].Complete? && NoneFailed(rounds) && !EverListed(rounds, 0)
    ensures AfterRounds(cfg, StaticTable(cfg), rounds).Keys == StaticPids(cfg) + rounds[|rounds| - 1].current.Keys
  {
    KeysInStep(cfg, rounds);
  }

  /** A stray stays through any further rounds as long as no complete round lists its process. */
  lemma {:induction false} StraysStay(cfg: Config, rounds: seq<Round>, more: seq<Round>, pid: u32)
    requires Strays(cfg, rounds, pid)
    requires forall i | 0 <= i < |more| && more[i].Complete? :: pid !in more[i].current
    ensures Strays(cfg, rounds + more, pid) && pid in AfterRounds(cfg, StaticTable(cfg), rounds + more)
    decreases |more|
  {
    KeysOverRounds(cfg, rounds + more, pid);
    if more == [] {
      assert rounds + more == rounds;
    } else {
      var n := |more| - 1;
      StraysStay(cfg, rounds, more[..n], pid);
      assert (rounds + more)[..|rounds| + n] == rounds + more[..n];
      StraysStep(cfg, rounds + more, pid);
    }
  }

  /** Failed rounds do leave entries for good: two processes are listed, the second entry cannot be put, and both
      processes are gone by the next round. */
  lemma FailedRoundLeavesEntry(cfg: Config, pid: u32, other: u32, policy: Policy, more: seq<Round>)
    requires pid != other && !IsStaticPid(cfg, pid)
    requires forall i | 0 <= i < |more| && more[i].Complete? :: pid !in more[i].current
    ensures var rounds := [PutFailed(map[pid := policy, other := policy], {pid}), Complete(map[])];
            pid in AfterRounds(cfg, StaticTable(cfg), rounds + more)
  {
    var rounds := [PutFailed(map[pid := policy, other := policy], {pid}), Complete(map[])];
    assert rounds[..0] == [];
    assert StraysAt(cfg, rounds, pid, 0);
    StraysStay(cfg, rounds, more, pid);
  }

  // ----- which policies static processes have -----

  /** The entry that was put last for a process. */
  function LastPut(rounds: seq<Round>, pid: u32): Option<Policy> {
    if rounds == [] then None
    else
      var n := |rounds| - 1;
      if pid in Put(rounds[n]) then Some(rounds[n].current[pid]) else LastPut(rounds[..n], pid)
  }

  lemma {:induction false} StaticPolicyAfterRounds(cfg: Config, rounds: seq<Round>, pid: u32)
    requires pid in StaticPids(cfg)
    ensures var table, last := AfterRounds(cfg, StaticTable(cfg), rounds), LastPut(rounds, pid);
            pid in table && table[pid] == if last.Some? then last.value else StaticTable(cfg)[pid]
  {
    OnlyZeroSticks(cfg, pid);
    if rounds != [] {
      StaticPolicyAfterRounds(cfg, rounds[..|rounds| - 1], pid);
    }
  }

  /** Main result: after any rounds, complete or failed, a static process has its static policy exactly when no round
      has put another entry for it, or the last one to put an entry put the same. */
  lemma {:induction false} StaticPolicyHolds(cfg: Config, rounds: seq<Round>, pid: u32)
    requires pid in StaticPids(cfg)
    ensures var table, last := AfterRounds(cfg, StaticTable(cfg), rounds), LastPut(rounds, pid);
            && pid in table
            && (table[pid] == StaticTable(cfg)[pid] <==> last.None? || last == Some(StaticTable(cfg)[pid]))
  {
    StaticPolicyAfterRounds(cfg, rounds, pid);
  }

  /** A static process that runs a watched executable for a while does not get its static policy back afterwards. */
  lemma StaticPolicyIsNotRestored(cfg: Config, pid: u32, policy: Policy)
    requires pid in StaticPids(cfg) && policy != StaticTable(cfg)[pid]
    ensures var table := AfterRounds(cfg, StaticTable(cfg), [Complete(map[pid := policy]), Complete(map[])]);
            table.Keys == StaticPids(cfg) && table[pid] == policy != StaticTable(cfg)[pid]
  {
    var rounds: seq<Round> := [Complete(map[pid := policy]), Complete(map[])];
    assert rounds[..1] == [Complete(map[pid := policy])];
    StaticPolicyAfterRounds(cfg, rounds, pid);
    OnlyZeroSticks(cfg, pid);
    KeysInStepOfTwo(cfg, rounds, pid);
  }

  lemma KeysInStepOfTwo(cfg: Config, rounds: seq<Round>, pid: u32)
    requires |rounds| == 2 && rounds[0].Complete? && rounds[1] == Complete(map[])
    requires rounds[0].current.Keys == {pid} <= StaticPids(cfg)
    ensures AfterRounds(cfg, StaticTable(cfg), rounds).Keys == StaticPids(cfg)
  {
    OnlyZeroSticks(cfg, pid);
    assert Put(rounds[1]) == {} && Put(rounds[0]) == {pid};
    assert EverListed(rounds, 0) ==> pid == 0;
    KeysInStep(cfg, rounds);
    assert StaticPids(cfg) + rounds[1].current.Keys == StaticPids(cfg);
  }
}
