/**
 * One run of the validation script as a pure function of what it reads:
 * the configuration file, the listing of `solutions`, and the workflow files.
 */
module Validator {
  import opened Wrappers
  import opened Seqs
  import opened Config
  import opened Directories
  import opened Workflows

  /** Everything the script reads from disk. A workflow path missing from `workflows` is a missing file. */
  datatype Snapshot = Snapshot(
    config: ConfigFile,
    listing: Option<seq<DirEntry>>,
    workflows: map<WorkflowPath, seq<string>>)

  /** How a run ends: configuration and reconciliation errors stop the run, workflow errors are batched. */
  datatype Outcome =
    | ConfigErr(reason: ConfigError)
    | MissingErr(missing: seq<string>)
    | ExtraErr(extra: seq<string>)
    | WorkflowErrs(errors: seq<WorkflowError>)
    | Passed(declared: seq<string>, dirs: seq<string>)

  /** The process exit status of a run. */
  function ExitStatus(o: Outcome): int {
    if o.Passed? then 0 else 1
  }

  /** Every workflow file passes its check against the declared set. */
  predicate AllWorkflowsPass(files: map<WorkflowPath, seq<string>>, expected: set<string>) {
    forall p :: p in WorkflowPaths ==> CheckFile(files, p, expected).None?
  }

  /** The whole script: load, scan and reconcile, then check the four workflow files. */
  function Run(snap: Snapshot): (o: Outcome)
    ensures o.ConfigErr? <==> LoadDeclared(snap.config).Failure?
    ensures o.ConfigErr? ==> o.reason == LoadDeclared(snap.config).error
    ensures LoadDeclared(snap.config).Success? ==>
              var declared := LoadDeclared(snap.config).value;
              var dirs := ScanDirectories(snap.listing);
              && (o.MissingErr? <==> exists s :: s in declared && s !in dirs)
              && (o.MissingErr? ==> forall s :: s in o.missing <==> s in declared && s !in dirs)
              && (o.ExtraErr? ==> forall s :: s in o.extra <==> s in dirs && s !in declared)
              && (o.WorkflowErrs? || o.Passed? <==> SetOf(declared) == SetOf(dirs))
              && (o.WorkflowErrs? ==> 0 < |o.errors| <= |WorkflowPaths|)
              && (o.Passed? <==> SetOf(declared) == SetOf(dirs) && AllWorkflowsPass(snap.workflows, SetOf(declared)))
              && (o.Passed? ==> o.declared == declared && o.dirs == dirs)
  {
    match LoadDeclared(snap.config)
    case Failure(e) => ConfigErr(e)
    case Success(declared) =>
      var dirs := ScanDirectories(snap.listing);
      match Reconcile(declared, dirs)
      case Missing(names) => MissingErr(names)
      case Extra(names) => ExtraErr(names)
      case Reconciled =>
        var errors := ErrorsFor(WorkflowPaths, snap.workflows, SetOf(declared));
        if errors != [] then WorkflowErrs(errors) else Passed(declared, dirs)
  }

  /** The run fails exactly when some check fails, and succeeds exactly when all of them pass. */
  lemma ExitStatusSpec(snap: Snapshot)
    ensures ExitStatus(Run(snap)) == 0 <==>
      && LoadDeclared(snap.config).Success?
      && SetOf(LoadDeclared(snap.config).value) == SetOf(ScanDirectories(snap.listing))
      && AllWorkflowsPass(snap.workflows, SetOf(LoadDeclared(snap.config).value))
  {
  }

  /** A rejected configuration ends the run before the directories or workflows are looked at. */
  lemma ConfigErrorStopsRun(s1: Snapshot, s2: Snapshot)
    requires LoadDeclared(s1.config).Failure? && s1.config == s2.config
    ensures Run(s1) == Run(s2) == ConfigErr(LoadDeclared(s1.config).error)
  {
  }

  /** A reconciliation error ends the run before any workflow file is looked at. */
  lemma ReconcileErrorStopsRun(s1: Snapshot, s2: Snapshot)
    requires Run(s1).MissingErr? || Run(s1).ExtraErr?
    requires s1.config == s2.config && s1.listing == s2.listing
    ensures Run(s2) == Run(s1)
  {
  }

  /** Declared names without a directory are reported whatever extra directories exist. */
  lemma MissingReportedFirst(snap: Snapshot, s: string)
    requires LoadDeclared(snap.config).Success?
    requires s in LoadDeclared(snap.config).value && s !in ScanDirectories(snap.listing)
    ensures Run(snap).MissingErr? && s in Run(snap).missing
  {
  }

  /**
   * Past reconciliation every workflow path is checked: each failing path has
   * its error in the report, in path order, whatever the other paths did.
   */
  lemma WorkflowErrorsBatched(snap: Snapshot)
    requires Run(snap).WorkflowErrs?
    ensures var expected := SetOf(LoadDeclared(snap.config).value);
      && Run(snap).errors == ErrorsFor(WorkflowPaths, snap.workflows, expected)
      && IsSubseq(ErrorPaths(Run(snap).errors), WorkflowPaths)
      && forall p :: p in WorkflowPaths && CheckFile(snap.workflows, p, expected).Some? ==>
           WorkflowError(p, CheckFile(snap.workflows, p, expected).value) in Run(snap).errors
  {
  }

  /**
   * Only the set of declared names matters past loading: two configurations
   * that declare the same names, in any order and with any repetition, end the
   * same way except for the order and repetition of the missing names listed.
   */
  lemma OnlyDeclaredSetMatters(s1: Snapshot, s2: Snapshot)
    requires LoadDeclared(s1.config).Success? && LoadDeclared(s2.config).Success?
    requires SetOf(LoadDeclared(s1.config).value) == SetOf(LoadDeclared(s2.config).value)
    requires s1.listing == s2.listing && s1.workflows == s2.workflows
    ensures ExitStatus(Run(s1)) == ExitStatus(Run(s2))
    ensures Run(s1).MissingErr? <==> Run(s2).MissingErr?
    ensures Run(s1).MissingErr? ==> SetOf(Run(s1).missing) == SetOf(Run(s2).missing)
    ensures Run(s1).ExtraErr? ==> Run(s2) == Run(s1)
    ensures Run(s1).WorkflowErrs? ==> Run(s2) == Run(s1)
  {
    var d1, d2 := LoadDeclared(s1.config).value, LoadDeclared(s2.config).value;
    ReconcileOnlyDeclaredSet(d1, d2, ScanDirectories(s1.listing));
    if Run(s1).MissingErr? {
      MissingNamesOnlyDeclaredSet(d1, d2, ScanDirectories(s1.listing));
    }
  }
}
