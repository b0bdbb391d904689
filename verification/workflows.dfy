/**
 * Step 3 of the script: every workflow file must hold a generated block,
 * delimited by a start and an end marker line, whose list items name exactly
 * the declared solutions (plus, optionally, the `<none>` placeholder).
 */
module Workflows {
  import opened Wrappers
  import opened Text
  import opened Seqs

  const StartToken: string := "GENERATED-OPTIONS-START"
  const EndToken: string := "GENERATED-OPTIONS-END"
  const ItemPrefix: string := "- "
  /** The placeholder option that stands for "no solution" and is never compared. */
  const Sentinel: string := "<none>"

  /** The four workflow definitions kept in sync with the declared list, in the order they are checked. */
  datatype WorkflowPath = ExportFromDev | ReleaseActionCall | ReleaseManual | DeleteSolution

  const WorkflowPaths: seq<WorkflowPath> := [ExportFromDev, ReleaseActionCall, ReleaseManual, DeleteSolution]

  // ---------------------------------------------------------------------------
  // Marker lines
  // ---------------------------------------------------------------------------

  predicate AllWsBetween(s: string, i: int, j: int)
    requires 0 <= i && j <= |s|
  {
    forall k :: i <= k < j ==> IsWs(s[k])
  }

  /** What `re.search(r'#\s*TOKEN', line)` means: `#` at `k`, whitespace up to `j`, the token at `j`. */
  predicate RegexMatchAt(line: string, token: string, k: int, j: int) {
    && 0 <= k < j <= |line|
    && line[k] == '#'
    && AllWsBetween(line, k + 1, j)
    && OccursAt(line, token, j)
  }

  ghost predicate RegexSearch(line: string, token: string) {
    exists k, j :: RegexMatchAt(line, token, k, j)
  }

  /** The matcher as a scan: a `#` at `k`, then all the whitespace after it, then the token. */
  predicate MarkerAt(line: string, token: string, k: int) {
    0 <= k < |line| && line[k] == '#' && OccursAt(line, token, SkipWs(line, k + 1))
  }

  predicate HasMarker(line: string, token: string) {
    exists k :: 0 <= k < |line| && MarkerAt(line, token, k)
  }

  /**
   * Skipping all the whitespace after `#` finds every match the backtracking
   * `\s*` finds, because the token does not itself start with whitespace.
   */
  lemma HasMarkerIsRegexSearch(line: string, token: string)
    requires |token| > 0 && !IsWs(token[0])
    ensures HasMarker(line, token) <==> RegexSearch(line, token)
  {
    if HasMarker(line, token) {
      var k :| 0 <= k < |line| && MarkerAt(line, token, k);
      var j := SkipWs(line, k + 1);
      assert RegexMatchAt(line, token, k, j);
    }
    if RegexSearch(line, token) {
      var k, j :| RegexMatchAt(line, token, k, j);
      assert line[j] == token[0];
      assert SkipWs(line, k + 1) == j;
      assert MarkerAt(line, token, k);
    }
  }

  /** Both markers of the script are matched exactly as its regular expressions specify. */
  lemma MarkersFollowRegex(line: string)
    ensures HasMarker(line, StartToken) <==> RegexSearch(line, StartToken)
    ensures HasMarker(line, EndToken) <==> RegexSearch(line, EndToken)
  {
    HasMarkerIsRegexSearch(line, StartToken);
    HasMarkerIsRegexSearch(line, EndToken);
  }

  predicate NoMarker(lines: seq<string>, token: string) {
    forall k :: 0 <= k < |lines| ==> !HasMarker(lines[k], token)
  }

  /** Line `i` is the first line holding the marker. */
  predicate IsFirstMarker(lines: seq<string>, token: string, i: int) {
    0 <= i < |lines| && HasMarker(lines[i], token) && forall k :: 0 <= k < i ==> !HasMarker(lines[k], token)
  }

  function FirstMarkerFrom(lines: seq<string>, token: string, from: nat): (r: Option<nat>)
    requires from <= |lines|
    ensures r.Some? ==> from <= r.value < |lines| && HasMarker(lines[r.value], token)
    ensures r.Some? ==> forall k :: from <= k < r.value ==> !HasMarker(lines[k], token)
    ensures r.None? ==> forall k :: from <= k < |lines| ==> !HasMarker(lines[k], token)
    decreases |lines| - from
  {
    if from == |lines| then None
    else if HasMarker(lines[from], token) then Some(from)
    else FirstMarkerFrom(lines, token, from + 1)
  }

  /** `next(i for i, l in enumerate(lines) if marker.search(l))`, with `None` for `StopIteration`. */
  function FirstMarker(lines: seq<string>, token: string): (r: Option<nat>)
    ensures r.Some? ==> IsFirstMarker(lines, token, r.value)
    ensures r.None? <==> NoMarker(lines, token)
  {
    FirstMarkerFrom(lines, token, 0)
  }

  lemma FirstMarkerUnique(lines: seq<string>, token: string, i: int, j: int)
    requires IsFirstMarker(lines, token, i) && IsFirstMarker(lines, token, j)
    ensures i == j
  {
  }

  // ---------------------------------------------------------------------------
  // The generated block and its options
  // ---------------------------------------------------------------------------

  /** Why one workflow file fails its check. */
  datatype Problem =
    | MissingWorkflow
    | MarkersMissing
    | MarkersMalformed
    | OptionMismatch(got: set<string>, expected: set<string>)

  /** The lines strictly between the first start marker and the first end marker. */
  function MarkedBlock(lines: seq<string>): (r: Result<seq<string>, Problem>)
    ensures r == Failure(MarkersMissing) <==> NoMarker(lines, StartToken) || NoMarker(lines, EndToken)
    ensures r.Failure? ==> r.error == MarkersMissing || r.error == MarkersMalformed
    ensures r.Success? ==> |r.value| + 2 <= |lines|
  {
    var si := FirstMarker(lines, StartToken);
    var ei := FirstMarker(lines, EndToken);
    if si.None? || ei.None? then Failure(MarkersMissing)
    else if ei.value <= si.value then Failure(MarkersMalformed)
    else Success(lines[si.value + 1..ei.value])
  }

  /** Given where the first markers are, the block is rejected or is exactly the lines between them. */
  lemma MarkedBlockBetweenMarkers(lines: seq<string>, si: int, ei: int)
    requires IsFirstMarker(lines, StartToken, si) && IsFirstMarker(lines, EndToken, ei)
    ensures ei <= si ==> MarkedBlock(lines) == Failure(MarkersMalformed)
    ensures si < ei ==> MarkedBlock(lines) == Success(lines[si + 1..ei])
  {
    FirstMarkerUnique(lines, StartToken, si, FirstMarker(lines, StartToken).value);
    FirstMarkerUnique(lines, EndToken, ei, FirstMarker(lines, EndToken).value);
  }

  /**
   * The option a block line contributes: a line whose stripped form starts with
   * `- ` yields the stripped text after the first `- `; other lines yield none.
   */
  function OptionText(line: string): (r: Option<string>)
    ensures r.Some? <==> StartsWith(Trim(line), ItemPrefix)
    ensures r.Some? ==> IsClean(r.value)
    ensures r.Some? ==> r.value == Trim(Trim(line)[|ItemPrefix|..])
  {
    var t := Trim(line);
    if !StartsWith(t, ItemPrefix) then None
    else
      var rest := SplitAfterFirst(t, ItemPrefix).value;
      assert IsWs(t[1]);
      assert !IsWs(rest[|rest| - 1]);
      TrimEmptyIffAllWs(rest);
      Some(Trim(rest))
  }

  /** The comprehension collecting the option of every list-item line of the block, in order. */
  function BlockOptions(block: seq<string>): (r: seq<string>)
    ensures |r| <= |block|
    ensures forall k :: 0 <= k < |r| ==> IsClean(r[k])
    decreases |block|
  {
    if |block| == 0 then []
    else
      match OptionText(block[0])
      case Some(o) => [o] + BlockOptions(block[1..])
      case None => BlockOptions(block[1..])
  }

  /** Line `i` of the block is a list item whose option is `o`. */
  predicate YieldsAt(block: seq<string>, i: int, o: string) {
    0 <= i < |block| && OptionText(block[i]) == Some(o)
  }

  /** An option is collected exactly when some line of the block yields it. */
  lemma BlockOptionsMembers(block: seq<string>, o: string)
    ensures o in BlockOptions(block) <==> exists i :: YieldsAt(block, i, o)
  {
    if o in BlockOptions(block) {
      var i := CollectedOptionSource(block, o);
    }
    if exists i :: YieldsAt(block, i, o) {
      var i :| YieldsAt(block, i, o);
      YieldedOptionCollected(block, i, o);
    }
  }

  /** A collected option comes from some line of the block; the result is the index of one. */
  lemma {:induction false} CollectedOptionSource(block: seq<string>, o: string) returns (i: int)
    requires o in BlockOptions(block)
    ensures YieldsAt(block, i, o)
    decreases |block|
  {
    var head := OptionText(block[0]);
    if head == Some(o) {
      i := 0;
    } else {
      assert o in BlockOptions(block[1..]);
      var j := CollectedOptionSource(block[1..], o);
      i := j + 1;
    }
  }

  /** The option of every list-item line of the block is collected. */
  lemma {:induction false} YieldedOptionCollected(block: seq<string>, i: int, o: string)
    requires YieldsAt(block, i, o)
    ensures o in BlockOptions(block)
    decreases |block|
  {
    if i > 0 {
      assert YieldsAt(block[1..], i - 1, o);
      YieldedOptionCollected(block[1..], i - 1, o);
    }
  }

  /** Each line contributes independently, so options distribute over concatenation of blocks. */
  lemma {:induction false} BlockOptionsAppend(a: seq<string>, b: seq<string>)
    ensures BlockOptions(a + b) == BlockOptions(a) + BlockOptions(b)
    decreases |a|
  {
    if |a| > 0 {
      assert (a + b)[1..] == a[1..] + b;
      BlockOptionsAppend(a[1..], b);
    } else {
      assert a + b == b;
    }
  }

  /** A line that is not a list item contributes nothing, wherever it appears in the block. */
  lemma NonItemLineIgnored(a: seq<string>, line: string, b: seq<string>)
    requires !StartsWith(Trim(line), ItemPrefix)
    ensures BlockOptions(a + [line] + b) == BlockOptions(a + b)
  {
    assert BlockOptions([line]) == [] by {
      assert [line][1..] == [];
    }
    BlockOptionsAppend(a, [line]);
    assert BlockOptions(a + [line]) == BlockOptions(a);
    BlockOptionsAppend(a + [line], b);
    BlockOptionsAppend(a, b);
  }

  /** `set(o for o in opts if o != '<none>')`. */
  function OptionSet(block: seq<string>): (r: set<string>)
    ensures Sentinel !in r
    ensures forall o :: o in r <==> o != Sentinel && exists i :: YieldsAt(block, i, o)
  {
    var r := SetOf(BlockOptions(block)) - {Sentinel};
    assert forall o :: o in r <==> o != Sentinel && exists i :: YieldsAt(block, i, o) by {
      forall o ensures o in r <==> o != Sentinel && exists i :: YieldsAt(block, i, o) {
        BlockOptionsMembers(block, o);
      }
    }
    r
  }

  /** Only which lines the block holds matters, not their order or how often they repeat. */
  lemma OptionSetIgnoresLineOrder(b1: seq<string>, b2: seq<string>)
    requires SetOf(b1) == SetOf(b2)
    ensures OptionSet(b1) == OptionSet(b2)
  {
    forall o | o in OptionSet(b1) ensures o in OptionSet(b2) {
      var i :| YieldsAt(b1, i, o);
      assert b1[i] in SetOf(b2);
      var j :| 0 <= j < |b2| && b2[j] == b1[i];
      assert YieldsAt(b2, j, o);
    }
    forall o | o in OptionSet(b2) ensures o in OptionSet(b1) {
      var j :| YieldsAt(b2, j, o);
      assert b2[j] in SetOf(b1);
      var i :| 0 <= i < |b1| && b1[i] == b2[j];
      assert YieldsAt(b1, i, o);
    }
  }

  // ---------------------------------------------------------------------------
  // One file, then all four
  // ---------------------------------------------------------------------------

  /** The check of one workflow file's lines against the declared set. */
  function CheckLines(lines: seq<string>, expected: set<string>): (r: Option<Problem>)
    ensures r != Some(MissingWorkflow)
    ensures r == Some(MarkersMissing) <==> NoMarker(lines, StartToken) || NoMarker(lines, EndToken)
    ensures r.Some? && r.value.OptionMismatch? ==>
              r.value.expected == expected && r.value.got != expected && Sentinel !in r.value.got
    ensures Sentinel in expected ==> r.Some?
  {
    match MarkedBlock(lines)
    case Failure(e) => Some(e)
    case Success(block) =>
      var got := OptionSet(block);
      if got != expected then Some(OptionMismatch(got, expected)) else None
  }

  /** With both markers in place, a file passes exactly when its option set is the declared set. */
  lemma CheckLinesBetweenMarkers(lines: seq<string>, expected: set<string>, si: int, ei: int)
    requires IsFirstMarker(lines, StartToken, si) && IsFirstMarker(lines, EndToken, ei)
    ensures ei <= si ==> CheckLines(lines, expected) == Some(MarkersMalformed)
    ensures si < ei ==> (CheckLines(lines, expected).None? <==> OptionSet(lines[si + 1..ei]) == expected)
    ensures si < ei && OptionSet(lines[si + 1..ei]) != expected ==>
              CheckLines(lines, expected) == Some(OptionMismatch(OptionSet(lines[si + 1..ei]), expected))
  {
    MarkedBlockBetweenMarkers(lines, si, ei);
  }

  /** A workflow path absent from `files` is a file that does not exist. */
  function CheckFile(files: map<WorkflowPath, seq<string>>, p: WorkflowPath, expected: set<string>): (r: Option<Problem>)
    ensures r == Some(MissingWorkflow) <==> p !in files
    ensures p in files ==> r == CheckLines(files[p], expected)
  {
    if p !in files then Some(MissingWorkflow) else CheckLines(files[p], expected)
  }

  /** A failed check of one workflow file. */
  datatype WorkflowError = WorkflowError(path: WorkflowPath, problem: Problem)

  /** The errors of the given paths, each path contributing its own error if it has one, in path order. */
  function ErrorsFor(paths: seq<WorkflowPath>, files: map<WorkflowPath, seq<string>>, expected: set<string>): (r: seq<WorkflowError>)
    ensures |r| <= |paths|
    ensures forall e :: e in r ==> e.path in paths && CheckFile(files, e.path, expected) == Some(e.problem)
    ensures forall p :: p in paths && CheckFile(files, p, expected).Some? ==>
              WorkflowError(p, CheckFile(files, p, expected).value) in r
    ensures r == [] <==> forall p :: p in paths ==> CheckFile(files, p, expected).None?
    ensures IsSubseq(ErrorPaths(r), paths)
    decreases |paths|
  {
    if |paths| == 0 then []
    else
      var rest := ErrorsFor(paths[1..], files, expected);
      var head := match CheckFile(files, paths[0], expected)
        case Some(problem) => [WorkflowError(paths[0], problem)]
        case None => [];
      assert paths == [paths[0]] + paths[1..];
      SubseqCons(paths[0], head != [], ErrorPaths(rest), paths[1..]);
      assert ErrorPaths(head) == if head != [] then [paths[0]] else [];
      assert ErrorPaths(head + rest) == ErrorPaths(head) + ErrorPaths(rest);
      head + rest
  }

  /** Batching: a failing path neither stops nor changes the checks of the paths after it. */
  lemma {:induction false} ErrorsForAppend(a: seq<WorkflowPath>, b: seq<WorkflowPath>, files: map<WorkflowPath, seq<string>>, expected: set<string>)
    ensures ErrorsFor(a + b, files, expected) == ErrorsFor(a, files, expected) + ErrorsFor(b, files, expected)
    decreases |a|
  {
    if |a| > 0 {
      AppendTail(a, b);
      ErrorsForAppend(a[1..], b, files, expected);
      ErrorsForCons(a, files, expected);
      ErrorsForCons(a + b, files, expected);
      AppendAssoc(ErrorsFor([a[0]], files, expected), ErrorsFor(a[1..], files, expected), ErrorsFor(b, files, expected));
    } else {
      assert a + b == b;
    }
  }

  function ErrorPaths(errors: seq<WorkflowError>): (r: seq<WorkflowPath>)
    ensures |r| == |errors| && forall k :: 0 <= k < |r| ==> r[k] == errors[k].path
  {
    seq(|errors|, k requires 0 <= k < |errors| => errors[k].path)
  }

  lemma ErrorsForOne(p: WorkflowPath, files: map<WorkflowPath, seq<string>>, expected: set<string>)
    ensures ErrorsFor([p], files, expected) ==
      (match CheckFile(files, p, expected)
       case Some(problem) => [WorkflowError(p, problem)]
       case None => [])
  {
    assert [p][1..] == [];
  }

  /** The errors of a non-empty path list are those of its head followed by those of its tail. */
  lemma ErrorsForCons(paths: seq<WorkflowPath>, files: map<WorkflowPath, seq<string>>, expected: set<string>)
    requires |paths| > 0
    ensures ErrorsFor(paths, files, expected) == ErrorsFor([paths[0]], files, expected) + ErrorsFor(paths[1..], files, expected)
  {
    ErrorsForOne(paths[0], files, expected);
  }

  /** Checking one more path appends that path's error, if any, to the errors found so far. */
  lemma ErrorsForStep(paths: seq<WorkflowPath>, i: int, files: map<WorkflowPath, seq<string>>, expected: set<string>)
    requires 0 <= i < |paths|
    ensures ErrorsFor(paths[..i + 1], files, expected) == ErrorsFor(paths[..i], files, expected) +
      (match CheckFile(files, paths[i], expected)
       case Some(problem) => [WorkflowError(paths[i], problem)]
       case None => [])
  {
    var front, p := paths[..i], paths[i];
    assert paths[..i + 1] == front + [p];
    ErrorsForAppend(front, [p], files, expected);
    ErrorsForOne(p, files, expected);
  }

  /** The script's loop over the workflow paths, collecting one error per failing file. */
  method CheckWorkflows(paths: seq<WorkflowPath>, files: map<WorkflowPath, seq<string>>, expected: set<string>)
    returns (errors: seq<WorkflowError>)
    ensures errors == ErrorsFor(paths, files, expected)
  {
    errors := [];
    for i := 0 to |paths|
      invariant errors == ErrorsFor(paths[..i], files, expected)
    {
      var problem := CheckFile(files, paths[i], expected);
      if problem.Some? {
        errors := errors + [WorkflowError(paths[i], problem.value)];
      }
      ErrorsForStep(paths, i, files, expected);
    }
    assert paths[..|paths|] == paths;
  }
}
