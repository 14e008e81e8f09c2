/** Live replacement of the kernel tables (internal/rules/compiler.go): put everything new, then delete what is old,
    on bounded maps whose operations can fail. */
module Tables {
  import opened Bytes
  import opened Encoding
  import opened Compiler

  datatype Deletion = Deleted | NotExist | Failed

  /** The order in which the maps of one kernel are written. */
  class Log {
    ghost var writers: seq<object>

    constructor ()
      ensures writers == []
    {
      writers := [];
    }
  }

  /** A bounded BPF hash map. A new key does not fit a full map; a faulty map may fail at any time.
      `history` lists the contents after every operation: what the kernel may see at any moment. */
  class BpfMap<K(==), V> {
    const capacity: nat
    const log: Log
    var contents: map<K, V>
    var faulty: bool
    ghost var history: seq<map<K, V>>

    constructor (capacity: nat, faulty: bool, log: Log)
      ensures this.capacity == capacity && this.faulty == faulty && this.log == log && contents == map[] && history == []
    {
      this.capacity, this.faulty, this.log, contents, history := capacity, faulty, log, map[], [];
    }

    method Put(key: K, value: V) returns (ok: bool)
      modifies this`contents, this`history, log
      ensures contents == if ok then old(contents)[key := value] else old(contents)
      ensures !ok ==> faulty || (key !in contents && |contents| >= capacity)
      ensures history == old(history) + [contents] && log.writers == old(log.writers) + [this]
    {
      var fault: bool := *;
      ok := !(faulty && fault) && (key in contents || |contents| < capacity);
      if ok {
        contents := contents[key := value];
      }
      history, log.writers := history + [contents], log.writers + [this];
    }

    method Delete(key: K) returns (outcome: Deletion)
      modifies this`contents, this`history, log
      ensures contents == if outcome.Deleted? then old(contents) - {key} else old(contents)
      ensures outcome.NotExist? ==> key !in contents
      ensures outcome.Failed? ==> faulty
      ensures history == old(history) + [contents] && log.writers == old(log.writers) + [this]
    {
      var fault: bool := *;
      if faulty && fault {
        outcome := Failed;
      } else if key !in contents {
        outcome := NotExist;
      } else {
        contents := contents - {key};
        outcome := Deleted;
      }
      history, log.writers := history + [contents], log.writers + [this];
    }

    /** Iterate over the map. */
    method Keys() returns (ok: bool, keys: set<K>)
      ensures ok ==> keys == contents.Keys
      ensures !ok ==> faulty
    {
      var fault: bool := *;
      ok, keys := !(faulty && fault), contents.Keys;
    }
  }

  /** Everything new is in place. */
  ghost predicate Installed<K, V>(new_: map<K, V>, now: map<K, V>) {
    forall key | key in new_ :: key in now && now[key] == new_[key]
  }

  /** A state the kernel may see between an old table and a new one: no foreign key, every entry old or new, every
      key of both tables present, and nothing old missing until everything new is in place. */
  ghost predicate Between<K, V>(old_: map<K, V>, new_: map<K, V>, now: map<K, V>) {
    && (forall key | key in now :: (key in old_ && now[key] == old_[key]) || (key in new_ && now[key] == new_[key]))
    && (forall key | key in old_ && key in new_ :: key in now)
    && ((forall key | key in old_ :: key in now) || Installed(new_, now))
  }

  lemma EndsAreBetween<K, V>(old_: map<K, V>, new_: map<K, V>)
    ensures Between(old_, new_, old_) && Between(old_, new_, new_)
  {
  }

  lemma RoomForOneMore<K>(have: set<K>, key: K, all: set<K>)
    requires have <= all && key in all && key !in have
    ensures |have| < |all|
  {
    SubsetIsSmaller(have + {key}, all);
  }

  lemma {:induction false} SubsetIsSmaller<K>(a: set<K>, b: set<K>)
    requires a <= b
    ensures |a| <= |b|
    decreases a
  {
    if a != {} {
      var x :| x in a;
      SubsetIsSmaller(a - {x}, b - {x});
    }
  }

  /** The old table with some of the new entries put over it. */
  function Merged<K, V>(old_: map<K, V>, new_: map<K, V>, done: set<K>): map<K, V>
    requires done <= new_.Keys
  {
    old_ + map key | key in done :: new_[key]
  }

  lemma PutsAreBetween<K, V>(old_: map<K, V>, new_: map<K, V>, done: set<K>)
    requires done <= new_.Keys
    ensures Between(old_, new_, Merged(old_, new_, done))
    ensures Merged(old_, new_, done).Keys == old_.Keys + done
  {
  }

  lemma MergedEnds<K, V>(old_: map<K, V>, new_: map<K, V>)
    ensures Merged(old_, new_, {}) == old_ && Merged(old_, new_, new_.Keys) == old_ + new_
    ensures Between(old_, new_, old_)
  {
  }

  lemma MergeOneMore<K, V>(old_: map<K, V>, new_: map<K, V>, done: set<K>, key: K)
    requires done <= new_.Keys && key in new_
    ensures Merged(old_, new_, done + {key}) == Merged(old_, new_, done)[key := new_[key]]
  {
  }

  /** Everything new is in, and some keys that are not new have been deleted. */
  lemma DeletesAreBetween<K, V>(old_: map<K, V>, new_: map<K, V>, gone: set<K>)
    requires gone !! new_.Keys
    ensures Between(old_, new_, (old_ + new_) - gone)
  {
  }

  /** All states recorded since there were `from` of them lie between the tables. */
  ghost predicate HistoryBetween<K, V>(history: seq<map<K, V>>, from: nat, old_: map<K, V>, new_: map<K, V>) {
    forall i | from <= i < |history| :: Between(old_, new_, history[i])
  }

  lemma HistoryOfOneMore<K, V>(history: seq<map<K, V>>, from: nat, old_: map<K, V>, new_: map<K, V>, now: map<K, V>)
    requires HistoryBetween(history, from, old_, new_) && Between(old_, new_, now)
    ensures HistoryBetween(history + [now], from, old_, new_)
  {
  }

  function Times(writer: object, n: nat): seq<object> {
    seq(n, i => writer)
  }

  lemma TimesCompose(writer: object, a: nat, b: nat)
    ensures Times(writer, a) + Times(writer, b) == Times(writer, a + b)
    ensures Times(writer, a) + [writer] == Times(writer, a + 1)
  {
  }

  /** Since the log, the history and the contents were as given, the map has been written and no other. */
  ghost predicate OnlyWrote<K, V>(writers: seq<object>, history: seq<map<K, V>>, contents: map<K, V>, m: BpfMap<K, V>)
    reads m, m.log
  {
    && history <= m.history && m.log.writers == writers + Times(m, |m.history| - |history|)
    && m.contents == if |m.history| == |history| then contents else m.history[|m.history| - 1]
  }

  /** The same for two stretches, the first of which ended with the given log, history and contents. */
  lemma WroteTwice<K, V>(writers: seq<object>, history: seq<map<K, V>>, contents: map<K, V>,
                         writers1: seq<object>, history1: seq<map<K, V>>, contents1: map<K, V>, m: BpfMap<K, V>)
    requires history <= history1 && writers1 == writers + Times(m, |history1| - |history|)
    requires contents1 == if |history1| == |history| then contents else history1[|history1| - 1]
    requires OnlyWrote(writers1, history1, contents1, m)
    ensures OnlyWrote(writers, history, contents, m)
  {
    TimesCompose(m, |history1| - |history|, |m.history| - |history1|);
  }

  lemma SuffixBetween<K, V>(history: seq<map<K, V>>, from: nat, old_: map<K, V>, new_: map<K, V>)
    requires from <= |history| && HistoryBetween(history, from, old_, new_)
    ensures HistoryBetween(history[from..], 0, old_, new_)
  {
  }

  lemma HistoryContinues<K, V>(history: seq<map<K, V>>, longer: seq<map<K, V>>, from: nat, old_: map<K, V>, new_: map<K, V>)
    requires history <= longer && HistoryBetween(history, from, old_, new_)
    requires HistoryBetween(longer, |history|, old_, new_)
    ensures HistoryBetween(longer, from, old_, new_)
  {
  }

  /** A new key is missing and the map is full. */
  ghost predicate Full<K, V>(new_: map<K, V>, now: map<K, V>, capacity: nat) {
    |now| >= capacity && exists key :: key in new_ && key !in now
  }

  /** Filling a map on the way from one table to another takes keys of both tables that do not fit together. */
  lemma FullMeansTooMany<K, V>(old_: map<K, V>, new_: map<K, V>, now: map<K, V>, capacity: nat)
    requires Between(old_, new_, now) && Full(new_, now, capacity)
    ensures |old_.Keys + new_.Keys| > capacity
  {
    var key :| key in new_ && key !in now;
    RoomForOneMore(now.Keys, key, old_.Keys + new_.Keys);
  }

  /** Put one more entry: the key is in, or nothing has changed and there is a reason. */
  method PutOne<K, V>(m: BpfMap<K, V>, key: K, value: V, ghost policies: map<K, V>, ghost before: map<K, V>,
                      ghost done: set<K>)
    returns (ok: bool)
    requires done <= policies.Keys && key in policies && policies[key] == value
    requires m.contents == Merged(before, policies, done)
    modifies m`contents, m`history, m.log
    ensures m.contents == Merged(before, policies, if ok then done + {key} else done)
    ensures !ok ==> m.faulty || Full(policies, m.contents, m.capacity)
    ensures Between(before, policies, m.contents)
    ensures m.history == old(m.history) + [m.contents] && m.log.writers == old(m.log.writers) + [m]
  {
    PutsAreBetween(before, policies, done);
    PutsAreBetween(before, policies, done + {key});
    MergeOneMore(before, policies, done, key);
    ok := m.Put(key, value);
  }

  /** The loop over the new entries; `done` are those that were put. */
  method PutEach<K, V>(m: BpfMap<K, V>, policies: map<K, V>) returns (ok: bool, ghost done: set<K>)
    modifies m`contents, m`history, m.log
    ensures done <= policies.Keys && m.contents == Merged(old(m.contents), policies, done)
    ensures ok ==> m.contents == old(m.contents) + policies
    ensures !ok ==> m.faulty || Full(policies, m.contents, m.capacity)
    ensures Between(old(m.contents), policies, m.contents)
    ensures HistoryBetween(m.history, |old(m.history)|, old(m.contents), policies)
    ensures OnlyWrote(old(m.log.writers), old(m.history), old(m.contents), m)
  {
    ghost var before := m.contents;
    var puts := policies.Keys;
    done := {};
    MergedEnds(before, policies);
    while puts != {}
      invariant puts <= policies.Keys && done == policies.Keys - puts
      invariant m.contents == Merged(before, policies, done) && Between(before, policies, m.contents)
      invariant |old(m.history)| <= |m.history| && HistoryBetween(m.history, |old(m.history)|, before, policies)
      invariant OnlyWrote(old(m.log.writers), old(m.history), old(m.contents), m)
      decreases puts
    {
      var key :| key in puts;
      ghost var history := m.history;
      ok := PutOne(m, key, policies[key], policies, before, done);
      HistoryOfOneMore(history, |old(m.history)|, before, policies, m.contents);
      TimesCompose(m, |history| - |old(m.history)|, 1);
      if !ok {
        return;
      }
      puts := puts - {key};
      done := done + {key};
    }
    ok := true;
  }

  method DeleteStale<K, V>(m: BpfMap<K, V>, existing: set<K>, policies: map<K, V>, ghost before: map<K, V>)
    returns (ok: bool)
    requires existing == before.Keys && m.contents == before + policies
    modifies m`contents, m`history, m.log
    ensures ok ==> m.contents == policies
    ensures !ok ==> m.faulty
    ensures Between(before, policies, m.contents)
    ensures HistoryBetween(m.history, |old(m.history)|, before, policies)
    ensures OnlyWrote(old(m.log.writers), old(m.history), old(m.contents), m)
  {
    var stale := existing;
    ghost var gone: set<K> := {};
    DeletesAreBetween(before, policies, gone);
    assert m.contents == (before + policies) - gone;
    while stale != {}
      invariant stale <= existing && gone == existing - stale - policies.Keys
      invariant m.contents == (before + policies) - gone
      invariant Between(before, policies, m.contents)
      invariant |old(m.history)| <= |m.history| && HistoryBetween(m.history, |old(m.history)|, before, policies)
      invariant OnlyWrote(old(m.log.writers), old(m.history), old(m.contents), m)
      decreases stale
    {
      var key :| key in stale;
      stale := stale - {key};
      if key in policies {
        continue;
      }
      ghost var history := m.history;
      var outcome := m.Delete(key);
      TimesCompose(m, |history| - |old(m.history)|, 1);
      if outcome.Failed? {
        HistoryOfOneMore(history, |old(m.history)|, before, policies, m.contents);
        return false;
      }
      gone := gone + {key};
      assert m.contents == (before + policies) - gone;
      DeletesAreBetween(before, policies, gone);
      HistoryOfOneMore(history, |old(m.history)|, before, policies, m.contents);
    }
    assert m.contents == policies;
    return true;
  }

  /** The two loops. */
  method ReplaceTable<K, V>(m: BpfMap<K, V>, policies: map<K, V>) returns (ok: bool)
    modifies m`contents, m`history, m.log
    ensures ok ==> m.contents == policies
    ensures !ok ==> m.faulty || Full(policies, m.contents, m.capacity)
    ensures Between(old(m.contents), policies, m.contents)
    ensures HistoryBetween(m.history, |old(m.history)|, old(m.contents), policies)
    ensures OnlyWrote(old(m.log.writers), old(m.history), old(m.contents), m)
  {
    EndsAreBetween(m.contents, policies);
    var listed, existing := m.Keys();
    if !listed {
      return false;
    }
    ghost var before, writers, history := m.contents, m.log.writers, m.history;
    ghost var done;
    ok, done := PutEach(m, policies);
    if ok {
      ghost var writers1, history1, contents1 := m.log.writers, m.history, m.contents;
      ok := DeleteStale(m, existing, policies, before);
      HistoryContinues(history1, m.history, |history|, before, policies);
      WroteTwice(writers, history, before, writers1, history1, contents1, m);
    }
  }

  /** `replacePIDPolicies` and `replaceCommPolicies`. On success the map holds exactly the new table; every state on
      the way, and the one left by a failure, lies between the two tables; and without faults it fails for lack of
      space only if the keys of both tables together do not fit. */
  method ReplacePolicies<K, V>(m: BpfMap<K, V>, policies: map<K, V>) returns (ok: bool)
    modifies m`contents, m`history, m.log
    ensures ok ==> m.contents == policies
    ensures !ok ==> m.faulty || |old(m.contents).Keys + policies.Keys| > m.capacity
    ensures Between(old(m.contents), policies, m.contents)
    ensures HistoryBetween(m.history, |old(m.history)|, old(m.contents), policies)
    ensures OnlyWrote(old(m.log.writers), old(m.history), old(m.contents), m)
  {
    ok := ReplaceTable(m, policies);
    if !ok && !m.faulty {
      FullMeansTooMany(old(m.contents), policies, m.contents, m.capacity);
    }
  }

  // ----- both tables -----

  /** A moment of a live update of both tables: the process table is on its way and the task table untouched, or the
      process table is new and the task table on its way. */
  ghost predicate Moment(old_: Compiled, new_: Compiled, now: Compiled) {
    || (Between(old_.pids, new_.pids, now.pids) && now.comms == old_.comms)
    || (now.pids == new_.pids && Between(old_.comms, new_.comms, now.comms))
  }

  /** The states of both tables that the log and the two histories record, starting with the one given. */
  ghost function Moments(start: Compiled, writers: seq<object>, pidMap: object,
                         pids: seq<map<u32, Policy>>, comms: seq<map<CommKey, Policy>>): seq<Compiled>
    decreases |writers|
  {
    if writers == [] then [start]
    else if writers[0] == pidMap then
      if pids == [] then [start]
      else [start] + Moments(start.(pids := pids[0]), writers[1..], pidMap, pids[1..], comms)
    else
      if comms == [] then [start]
      else [start] + Moments(start.(comms := comms[0]), writers[1..], pidMap, pids, comms[1..])
  }

  lemma {:induction false} MomentsOfComms(old_: Compiled, new_: Compiled, start: Compiled, writers: seq<object>,
                                          pidMap: object, commMap: object, comms: seq<map<CommKey, Policy>>)
    requires pidMap != commMap && writers == Times(commMap, |comms|)
    requires start.pids == new_.pids && Between(old_.comms, new_.comms, start.comms)
    requires HistoryBetween(comms, 0, old_.comms, new_.comms)
    ensures forall now | now in Moments(start, writers, pidMap, [], comms) :: Moment(old_, new_, now)
    decreases |comms|
  {
    if comms != [] {
      assert writers[1..] == Times(commMap, |comms[1..]|);
      MomentsOfComms(old_, new_, start.(comms := comms[0]), writers[1..], pidMap, commMap, comms[1..]);
    }
  }

  /** First all writes to the process table, then those to the task table, which begin from the new process table. */
  lemma {:induction false} MomentsOfBoth(old_: Compiled, new_: Compiled, start: Compiled, writers: seq<object>,
                                         pidMap: object, commMap: object,
                                         pids: seq<map<u32, Policy>>, comms: seq<map<CommKey, Policy>>)
    requires pidMap != commMap && writers == Times(pidMap, |pids|) + Times(commMap, |comms|)
    requires Between(old_.pids, new_.pids, start.pids) && start.comms == old_.comms
    requires HistoryBetween(pids, 0, old_.pids, new_.pids) && HistoryBetween(comms, 0, old_.comms, new_.comms)
    requires comms != [] ==> (if pids == [] then start.pids else pids[|pids| - 1]) == new_.pids
    ensures forall now | now in Moments(start, writers, pidMap, pids, comms) :: Moment(old_, new_, now)
    ensures Compiled(if pids == [] then start.pids else pids[|pids| - 1], start.comms) in
            Moments(start, writers, pidMap, pids, comms)
    decreases |pids|
  {
    if pids != [] {
      assert writers[1..] == Times(pidMap, |pids[1..]|) + Times(commMap, |comms|);
      MomentsOfBoth(old_, new_, start.(pids := pids[0]), writers[1..], pidMap, commMap, pids[1..], comms);
    } else if comms != [] {
      EndsAreBetween(old_.comms, new_.comms);
      assert writers == Times(commMap, |comms|);
      MomentsOfComms(old_, new_, start, writers, pidMap, commMap, comms);
    }
  }

  /** Both tables are the new ones if all went well; and the log and the two histories of the operation, replayed, show
      nothing but moments, among them, if all went well, the one between the two tables. */
  twostate predicate AppliedInTurn(policyMap: BpfMap<u32, Policy>, commPolicyMap: BpfMap<CommKey, Policy>,
                                   compiled: Compiled, ok: bool)
    reads policyMap, commPolicyMap, policyMap.log
  {
    var start := Compiled(old(policyMap.contents), old(commPolicyMap.contents));
    && (ok ==> policyMap.contents == compiled.pids && commPolicyMap.contents == compiled.comms)
    && Moment(start, compiled, Compiled(policyMap.contents, commPolicyMap.contents))
    && old(policyMap.history) <= policyMap.history && old(commPolicyMap.history) <= commPolicyMap.history
    && old(policyMap.log.writers) <= policyMap.log.writers
    && var moments := Moments(start, policyMap.log.writers[|old(policyMap.log.writers)|..], policyMap,
                              policyMap.history[|old(policyMap.history)|..],
                              commPolicyMap.history[|old(commPolicyMap.history)|..]);
       && (forall now | now in moments :: Moment(start, compiled, now))
       && (ok ==> Compiled(compiled.pids, start.comms) in moments)
  }

  /** The two replacements, one after the other. */
  method ApplyTables(policyMap: BpfMap<u32, Policy>, commPolicyMap: BpfMap<CommKey, Policy>, compiled: Compiled)
    returns (ok: bool)
    requires policyMap.log == commPolicyMap.log
    modifies policyMap`contents, policyMap`history, commPolicyMap`contents, commPolicyMap`history, policyMap.log
    ensures AppliedInTurn(policyMap, commPolicyMap, compiled, ok)
    ensures Between(old(policyMap.contents), compiled.pids, policyMap.contents)
    ensures Between(old(commPolicyMap.contents), compiled.comms, commPolicyMap.contents)
    ensures !ok ==> || policyMap.faulty || Full(compiled.pids, policyMap.contents, policyMap.capacity)
                    || commPolicyMap.faulty || Full(compiled.comms, commPolicyMap.contents, commPolicyMap.capacity)
  {
    ghost var start := Compiled(policyMap.contents, commPolicyMap.contents);
    ghost var writers, pids, comms := policyMap.log.writers, |policyMap.history|, |commPolicyMap.history|;
    EndsAreBetween(start.comms, compiled.comms);
    ok := ReplaceTable(policyMap, compiled.pids);
    ghost var pidWrites := |policyMap.history| - pids;
    if ok {
      ok := ReplaceTable(commPolicyMap, compiled.comms);
    }
    ghost var commWrites := |commPolicyMap.history| - comms;
    assert policyMap.log.writers == writers + (Times(policyMap, pidWrites) + Times(commPolicyMap, commWrites));
    SuffixBetween(policyMap.history, pids, start.pids, compiled.pids);
    SuffixBetween(commPolicyMap.history, comms, start.comms, compiled.comms);
    MomentsOfBoth(start, compiled, start, policyMap.log.writers[|writers|..], policyMap, commPolicyMap,
                  policyMap.history[pids..], commPolicyMap.history[comms..]);
  }

  /** `ApplyCompiled`: the process table, then the task table. Every state of the two together that the kernel may see
      on the way is a `Moment`; without faults it fails only if the old and new keys of one table do not fit. */
  method ApplyCompiled(policyMap: BpfMap<u32, Policy>, commPolicyMap: BpfMap<CommKey, Policy>, compiled: Compiled)
    returns (ok: bool)
    requires policyMap.log == commPolicyMap.log
    modifies policyMap`contents, policyMap`history, commPolicyMap`contents, commPolicyMap`history, policyMap.log
    ensures AppliedInTurn(policyMap, commPolicyMap, compiled, ok)
    ensures !ok ==> || policyMap.faulty || |old(policyMap.contents).Keys + compiled.pids.Keys| > policyMap.capacity
                    || commPolicyMap.faulty
                    || |old(commPolicyMap.contents).Keys + compiled.comms.Keys| > commPolicyMap.capacity
  {
    ok := ApplyTables(policyMap, commPolicyMap, compiled);
    if !ok && !policyMap.faulty && !commPolicyMap.faulty {
      if Full(compiled.pids, policyMap.contents, policyMap.capacity) {
        FullMeansTooMany(old(policyMap.contents), compiled.pids, policyMap.contents, policyMap.capacity);
      } else {
        FullMeansTooMany(old(commPolicyMap.contents), compiled.comms, commPolicyMap.contents, commPolicyMap.capacity);
      }
    }
  }
}
