/** From the control service to the kernel: what a valid status means for enforcement. */
module ServiceToKernel {
  import opened Bytes
  import opened KernelSpec
  import opened Rules
  import opened Compiler
  import opened Service
  import opened ServiceRuns
  import opened TableSync
  import opened EndToEnd

  /** The kernel's two policy tables are the ones the service writes. */
  predicate Installed(k: Kernel, tables: Compiled) {
    k.policies == tables.pids && k.commPolicies == tables.comms
  }

  /** Main result: after any run of the service whose sections do not overlap, when no operation is in one and the status
      is valid, the kernel enforces the recorded ruleset, for some snapshot of the processes. */
  lemma ValidStatusMeansEnforced(w: World, es: seq<Step>, k: Kernel)
    requires Init(w) && IsRun(w, es) && ExclusiveRun(w, es) && Idle(After(w, es))
    requires ReportsValid(After(w, es).fields) && Installed(k, After(w, es).tables)
    ensures exists procs: seq<Process>, canon: Canon :: Enforces(k, After(w, es).fields.ruleset, procs, canon)
  {
    NoErrorMeansInSync(w, es);
    RecordedStateIsCompiled(w, es);
    var v := After(w, es);
    var procs: seq<Process>, canon: Canon :| IsCompilation(v.fields.ruleset.rules, procs, canon, v.fields.compiled);
    assert Compiled(k.policies, k.commPolicies) == v.fields.compiled;
    assert Enforces(k, v.fields.ruleset, procs, canon);
  }
}
