/**
 * Worked runs: two solutions `a` and `b`, their directories, and workflow
 * files whose generated blocks list them. The names are arbitrary solution
 * names, so each run stands for every pair of names of that shape.
 */
module Scenarios {
  import opened Wrappers
  import opened Text
  import opened Seqs
  import opened Sorting
  import opened Config
  import opened Directories
  import opened Workflows
  import opened Validator

  predicate NoHash(s: string) {
    forall k :: 0 <= k < |s| ==> s[k] != '#'
  }

  /** A name a generator would write: clean, visible, free of `#`, and not the placeholder. */
  predicate IsPlainName(s: string) {
    IsClean(s) && NoHash(s) && !IsHidden(s) && s != Sentinel
  }

  /** `solutions.json` holding the array of `names`. */
  function DeclaredAs(names: seq<string>): (f: ConfigFile)
    ensures f.Parsed? && f.value.JArray? && |f.value.elems| == |names|
    ensures forall k :: 0 <= k < |names| ==> f.value.elems[k] == JString(names[k])
  {
    Parsed(JArray(seq(|names|, k requires 0 <= k < |names| => JString(names[k]))))
  }

  /** An indented list item, as the generator writes it. */
  function Item(name: string): string {
    "  - " + name
  }

  /** The list items naming `names`, one per line. */
  function Items(names: seq<string>): (r: seq<string>)
    ensures |r| == |names| && forall k :: 0 <= k < |r| ==> r[k] == Item(names[k])
  {
    seq(|names|, k requires 0 <= k < |names| => Item(names[k]))
  }

  /** An indented marker comment. */
  function MarkerLine(token: string): string {
    "  # " + token
  }

  /** A line holding the start marker and not the end marker. */
  predicate IsStartLine(s: string) {
    HasMarker(s, StartToken) && !HasMarker(s, EndToken)
  }

  predicate IsEndLine(e: string) {
    HasMarker(e, EndToken)
  }

  /** A workflow file whose generated block, between the marker lines `s` and `e`, lists `names`. */
  function GeneratedFile(s: string, names: seq<string>, e: string): seq<string> {
    [s] + Items(names) + [e]
  }

  /** The same file in all four workflow paths. */
  function AllFiles(lines: seq<string>): (files: map<WorkflowPath, seq<string>>)
    ensures forall p :: p in files && files[p] == lines
  {
    var files := map[ExportFromDev := lines, ReleaseActionCall := lines, ReleaseManual := lines, DeleteSolution := lines];
    assert forall p :: p in files && files[p] == lines by {
      forall p ensures p in files && files[p] == lines {
        assert p.ExportFromDev? || p.ReleaseActionCall? || p.ReleaseManual? || p.DeleteSolution?;
      }
    }
    files
  }

  /** A declared list of clean names loads as itself. */
  lemma LoadCleanNames(names: seq<string>)
    requires forall k :: 0 <= k < |names| ==> IsClean(names[k])
    ensures LoadDeclared(DeclaredAs(names)) == Success(names)
  {
    var elems := DeclaredAs(names).value.elems;
    assert AllStrings(elems);
    assert Strings(elems).value == names;
    NormalizeClean(names);
  }

  /** Two visible directories, listed in either order, scan to the sorted pair. */
  lemma ScanTwo(a: string, b: string)
    requires !IsHidden(a) && !IsHidden(b) && LexLe(a, b)
    ensures ScanDirectories(Some([DirEntry(b, true), DirEntry(a, true)])) == [a, b]
  {
    var es := [DirEntry(b, true), DirEntry(a, true)];
    assert VisibleDirs(es[1..]) == [a];
    assert VisibleDirs(es) == [b, a];
    var r := ScanDirectories(Some(es));
    assert multiset([b, a]) == multiset([a, b]);
    SortedPermutationUnique(r, [a, b]);
  }

  lemma ItemOption(name: string)
    requires IsClean(name)
    ensures OptionText(Item(name)) == Some(name)
  {
    var line := Item(name);
    var t := "- " + name;
    assert line == "  " + t;
    assert line[2..2 + |t|] == t;
    assert PaddedAt(line, t, 2);
    assert IsTrimmed(t) by { assert t[|t| - 1] == name[|name| - 1]; }
    TrimUnique(line, t);
    assert t[|ItemPrefix|..] == name;
    TrimTrimmed(name);
  }

  lemma ItemHeadOption(block: seq<string>, name: string)
    requires |block| > 0 && block[0] == Item(name) && OptionText(Item(name)) == Some(name)
    ensures BlockOptions(block) == [name] + BlockOptions(block[1..])
  {
  }

  /** A block of list items yields exactly the names, in order. */
  lemma {:induction false} ItemsOptions(names: seq<string>)
    requires forall k :: 0 <= k < |names| ==> IsClean(names[k])
    ensures BlockOptions(Items(names)) == names
    decreases |names|
  {
    if |names| > 0 {
      var block := Items(names);
      ItemOption(names[0]);
      assert block[1..] == Items(names[1..]);
      ItemsOptions(names[1..]);
      ItemHeadOption(block, names[0]);
      assert names == [names[0]] + names[1..];
    }
  }

  /** The options of an item block are its names, less the placeholder. */
  lemma ItemsOptionSet(names: seq<string>)
    requires forall k :: 0 <= k < |names| ==> IsClean(names[k])
    ensures OptionSet(Items(names)) == SetOf(names) - {Sentinel}
  {
    ItemsOptions(names);
  }

  lemma ItemsHaveNoHash(names: seq<string>)
    requires forall k :: 0 <= k < |names| ==> NoHash(names[k])
    ensures forall i :: 0 <= i < |Items(names)| ==> NoHash(Items(names)[i])
  {
    forall i | 0 <= i < |names| ensures NoHash(Items(names)[i]) {
      assert Items(names)[i] == "  - " + names[i];
    }
  }

  lemma MarkerLineHasMarker(token: string)
    requires |token| > 0 && !IsWs(token[0])
    ensures HasMarker(MarkerLine(token), token)
  {
    var line := MarkerLine(token);
    assert line[3] == ' ' && line[4] == token[0];
    assert SkipWs(line, 3) == 4;
    assert line[4..4 + |token|] == token;
    assert MarkerAt(line, token, 2);
  }

  lemma NoHashNoMarker(line: string, token: string)
    requires NoHash(line)
    ensures !HasMarker(line, token)
  {
  }

  /** The start marker line does not hold the end marker. */
  lemma StartLineIsNotEnd()
    ensures !HasMarker(MarkerLine(StartToken), EndToken)
  {
    var line := MarkerLine(StartToken);
    assert SkipWs(line, 3) == 4;
    assert !OccursAt(line, EndToken, 4) by {
      assert line[4 + 18] != EndToken[18];
    }
    forall k | 0 <= k < |line| && k != 2 ensures line[k] != '#' {
      if k >= 4 {
        assert line[k] == StartToken[k - 4];
      }
    }
  }

  /** The generator's marker comments are start and end lines. */
  lemma MarkerLinesQualify()
    ensures IsStartLine(MarkerLine(StartToken)) && IsEndLine(MarkerLine(EndToken))
  {
    MarkerLineHasMarker(StartToken);
    MarkerLineHasMarker(EndToken);
    StartLineIsNotEnd();
  }

  /** Both markers are found where the file puts them, whatever `#`-free names lie between them. */
  lemma GeneratedFileMarkers(s: string, names: seq<string>, e: string)
    requires IsStartLine(s) && IsEndLine(e)
    requires forall k :: 0 <= k < |names| ==> NoHash(names[k])
    ensures IsFirstMarker(GeneratedFile(s, names, e), StartToken, 0)
    ensures IsFirstMarker(GeneratedFile(s, names, e), EndToken, |names| + 1)
  {
    var lines := GeneratedFile(s, names, e);
    ItemsHaveNoHash(names);
    forall k | 1 <= k < |names| + 1 ensures !HasMarker(lines[k], EndToken) {
      assert lines[k] == Items(names)[k - 1];
      NoHashNoMarker(Items(names)[k - 1], EndToken);
    }
  }

  /** A generated file passes exactly when its names, less the placeholder, are the declared set. */
  lemma GeneratedFileCheck(s: string, names: seq<string>, e: string, expected: set<string>)
    requires IsStartLine(s) && IsEndLine(e)
    requires forall k :: 0 <= k < |names| ==> IsClean(names[k]) && NoHash(names[k])
    ensures SetOf(names) - {Sentinel} == expected ==> CheckLines(GeneratedFile(s, names, e), expected).None?
    ensures SetOf(names) - {Sentinel} != expected ==>
              CheckLines(GeneratedFile(s, names, e), expected) == Some(OptionMismatch(SetOf(names) - {Sentinel}, expected))
  {
    var lines := GeneratedFile(s, names, e);
    GeneratedFileMarkers(s, names, e);
    CheckLinesBetweenMarkers(lines, expected, 0, |names| + 1);
    assert lines[1..|names| + 1] == Items(names);
    ItemsOptionSet(names);
  }

  /** The placeholder is itself a clean item value without `#`. */
  lemma SentinelIsPlainItem()
    ensures IsClean(Sentinel) && NoHash(Sentinel)
  {
    assert IsTrimmed(Sentinel);
  }

  /** The block listing `a`, `b` and the `<none>` placeholder passes against `{a, b}`. */
  lemma PairFilePasses(s: string, a: string, b: string, e: string)
    requires IsStartLine(s) && IsEndLine(e) && IsPlainName(a) && IsPlainName(b)
    ensures CheckLines(GeneratedFile(s, [a, b, Sentinel], e), {a, b}).None?
  {
    var names := [a, b, Sentinel];
    assert names[0] == a && names[1] == b && names[2] == Sentinel;
    assert SetOf(names) - {Sentinel} == {a, b};
    SentinelIsPlainItem();
    GeneratedFileCheck(s, names, e, {a, b});
  }

  /** The block listing only `a` fails against `{a, b}`, reporting `{a}`. */
  lemma StaleFileFails(s: string, a: string, b: string, e: string)
    requires IsStartLine(s) && IsEndLine(e) && IsPlainName(a) && IsPlainName(b) && a != b
    ensures CheckLines(GeneratedFile(s, [a], e), {a, b}) == Some(OptionMismatch({a}, {a, b}))
  {
    assert SetOf([a]) - {Sentinel} == {a};
    assert {a} != {a, b} by { assert b !in {a}; }
    GeneratedFileCheck(s, [a], e, {a, b});
  }

  lemma SetOfPair(a: string, b: string)
    ensures SetOf([a, b]) == {a, b}
  {
    assert [a, b][0] == a && [a, b][1] == b;
  }

  /** A run whose declared list matches the scan and whose four files pass ends in `Passed`. */
  lemma RunPasses(snap: Snapshot, d: seq<string>)
    requires LoadDeclared(snap.config) == Success(d) && ScanDirectories(snap.listing) == d
    requires forall p :: p in WorkflowPaths ==> CheckFile(snap.workflows, p, SetOf(d)).None?
    ensures Run(snap) == Passed(d, d)
  {
    assert Reconcile(d, d) == Reconciled;
    assert ErrorsFor(WorkflowPaths, snap.workflows, SetOf(d)) == [];
  }

  /** A run whose declared list matches the scan reports exactly the workflow errors. */
  lemma RunReportsWorkflows(snap: Snapshot, d: seq<string>, errors: seq<WorkflowError>)
    requires LoadDeclared(snap.config) == Success(d) && ScanDirectories(snap.listing) == d
    requires ErrorsFor(WorkflowPaths, snap.workflows, SetOf(d)) == errors != []
    ensures Run(snap) == WorkflowErrs(errors)
  {
    assert Reconcile(d, d) == Reconciled;
  }

  lemma SameFilePasses(lines: seq<string>, expected: set<string>)
    requires CheckLines(lines, expected).None?
    ensures forall p :: p in WorkflowPaths ==> CheckFile(AllFiles(lines), p, expected).None?
  {
  }

  /** Only `ReleaseManual` failing, with `problem`: that is the whole error list. */
  lemma OnlyReleaseManualFails(files: map<WorkflowPath, seq<string>>, expected: set<string>, problem: Problem)
    requires CheckFile(files, ExportFromDev, expected).None? && CheckFile(files, ReleaseActionCall, expected).None?
    requires CheckFile(files, ReleaseManual, expected) == Some(problem) && CheckFile(files, DeleteSolution, expected).None?
    ensures ErrorsFor(WorkflowPaths, files, expected) == [WorkflowError(ReleaseManual, problem)]
  {
    var w := WorkflowPaths;
    assert w[1..][1..] == w[2..] && w[2..][1..] == w[3..] && w[3..] == [DeleteSolution];
    ErrorsForHead(w, files, expected);
    ErrorsForHead(w[1..], files, expected);
    ErrorsForHead(w[2..], files, expected);
    ErrorsForOne(DeleteSolution, files, expected);
  }

  /** With one path holding a failing file and the rest a passing one, only that path is reported. */
  lemma OneFileFails(good: seq<string>, stale: seq<string>, expected: set<string>, problem: Problem)
    requires CheckLines(good, expected).None? && CheckLines(stale, expected) == Some(problem)
    ensures ErrorsFor(WorkflowPaths, AllFiles(good)[ReleaseManual := stale], expected) ==
              [WorkflowError(ReleaseManual, problem)]
  {
    var files := AllFiles(good)[ReleaseManual := stale];
    assert files[ExportFromDev] == files[ReleaseActionCall] == files[DeleteSolution] == good;
    assert files[ReleaseManual] == stale;
    OnlyReleaseManualFails(files, expected, problem);
  }

  /** `ErrorsFor` takes the head path's error, if any, and goes on with the rest. */
  lemma ErrorsForHead(paths: seq<WorkflowPath>, files: map<WorkflowPath, seq<string>>, expected: set<string>)
    requires |paths| > 0
    ensures CheckFile(files, paths[0], expected).None? ==>
              ErrorsFor(paths, files, expected) == ErrorsFor(paths[1..], files, expected)
    ensures CheckFile(files, paths[0], expected).Some? ==>
              ErrorsFor(paths, files, expected) ==
                [WorkflowError(paths[0], CheckFile(files, paths[0], expected).value)] + ErrorsFor(paths[1..], files, expected)
  {
  }

  /** Declared `a`, `b`; directories `b`, `a`; every block lists `a`, `b` and `<none>`: the run passes. */
  lemma AllInSyncPasses(s: string, a: string, b: string, e: string)
    requires IsStartLine(s) && IsEndLine(e)
    requires IsPlainName(a) && IsPlainName(b) && a != b && LexLe(a, b)
    ensures var files := AllFiles(GeneratedFile(s, [a, b, Sentinel], e));
      Run(Snapshot(DeclaredAs([a, b]), Some([DirEntry(b, true), DirEntry(a, true)]), files)) == Passed([a, b], [a, b])
  {
    var good := GeneratedFile(s, [a, b, Sentinel], e);
    var snap := Snapshot(DeclaredAs([a, b]), Some([DirEntry(b, true), DirEntry(a, true)]), AllFiles(good));
    LoadCleanNames([a, b]);
    ScanTwo(a, b);
    PairFilePasses(s, a, b, e);
    SetOfPair(a, b);
    SameFilePasses(good, {a, b});
    RunPasses(snap, [a, b]);
  }

  /** A declared name without a directory stops the run with the names `NotIn` finds. */
  lemma RunReportsMissing(snap: Snapshot, d: seq<string>, missing: seq<string>)
    requires LoadDeclared(snap.config) == Success(d)
    requires NotIn(d, ScanDirectories(snap.listing)) == missing != []
    ensures Run(snap) == MissingErr(missing)
  {
  }

  lemma ScanOne(a: string)
    requires !IsHidden(a)
    ensures ScanDirectories(Some([DirEntry(a, true)])) == [a]
  {
    assert VisibleDirs([DirEntry(a, true)]) == [a];
  }

  /** Declared `a`, `b` with only directory `a`: `b` is reported missing, whatever the workflows hold. */
  lemma MissingDirectoryReported(a: string, b: string, files: map<WorkflowPath, seq<string>>)
    requires IsPlainName(a) && IsPlainName(b) && a != b
    ensures Run(Snapshot(DeclaredAs([a, b]), Some([DirEntry(a, true)]), files)) == MissingErr([b])
  {
    LoadCleanNames([a, b]);
    ScanOne(a);
    assert NotIn([a, b], [a]) == [b] by {
      assert NotIn([b], [a]) == [b];
    }
    RunReportsMissing(Snapshot(DeclaredAs([a, b]), Some([DirEntry(a, true)]), files), [a, b], [b]);
  }

  /** One block lists only `a`: that file alone is reported, with the set it found and the set expected. */
  lemma OneStaleWorkflowReported(s: string, a: string, b: string, e: string)
    requires IsStartLine(s) && IsEndLine(e)
    requires IsPlainName(a) && IsPlainName(b) && a != b && LexLe(a, b)
    ensures var files := AllFiles(GeneratedFile(s, [a, b, Sentinel], e))[ReleaseManual := GeneratedFile(s, [a], e)];
      Run(Snapshot(DeclaredAs([a, b]), Some([DirEntry(b, true), DirEntry(a, true)]), files)) ==
        WorkflowErrs([WorkflowError(ReleaseManual, OptionMismatch({a}, {a, b}))])
  {
    var good := GeneratedFile(s, [a, b, Sentinel], e);
    var stale := GeneratedFile(s, [a], e);
    var snap := Snapshot(DeclaredAs([a, b]), Some([DirEntry(b, true), DirEntry(a, true)]), AllFiles(good)[ReleaseManual := stale]);
    LoadCleanNames([a, b]);
    ScanTwo(a, b);
    PairFilePasses(s, a, b, e);
    StaleFileFails(s, a, b, e);
    SetOfPair(a, b);
    StaleRunReported(snap, [a, b], good, stale, OptionMismatch({a}, {a, b}));
  }

  /** A run in sync with its directories whose release-manual file alone fails reports just that file. */
  lemma StaleRunReported(snap: Snapshot, d: seq<string>, good: seq<string>, stale: seq<string>, problem: Problem)
    requires LoadDeclared(snap.config) == Success(d) && ScanDirectories(snap.listing) == d
    requires snap.workflows == AllFiles(good)[ReleaseManual := stale]
    requires CheckLines(good, SetOf(d)).None? && CheckLines(stale, SetOf(d)) == Some(problem)
    ensures Run(snap) == WorkflowErrs([WorkflowError(ReleaseManual, problem)])
  {
    OneFileFails(good, stale, SetOf(d), problem);
    RunReportsWorkflows(snap, d, [WorkflowError(ReleaseManual, problem)]);
  }
}
