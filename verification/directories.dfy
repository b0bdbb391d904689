/**
 * Step 2 of the script: the scan of the `solutions` directory and its
 * reconciliation with the declared list.
 */
module Directories {
  import opened Wrappers
  import opened Text
  import opened Seqs
  import opened Sorting

  /** One entry of the directory listing, with whether the path is a directory. */
  datatype DirEntry = DirEntry(name: string, isDir: bool)

  /** Names starting with `.` are hidden and never count as solution directories. */
  predicate IsHidden(name: string) {
    StartsWith(name, ".")
  }

  predicate IsSolutionDir(e: DirEntry) {
    e.isDir && !IsHidden(e.name)
  }

  /** The names of the listed entries that are visible directories, in listing order. */
  function VisibleDirs(es: seq<DirEntry>): (r: seq<string>)
    ensures |r| <= |es|
    ensures forall n :: n in r <==> exists e :: e in es && IsSolutionDir(e) && e.name == n
    decreases |es|
  {
    if |es| == 0 then []
    else
      var rest := VisibleDirs(es[1..]);
      assert es == [es[0]] + es[1..];
      if IsSolutionDir(es[0]) then [es[0].name] + rest else rest
  }

  /**
   * The filter keeps the listing order and takes each entry once: with the
   * membership clause on a single entry, this fixes `VisibleDirs` completely.
   */
  lemma {:induction false} VisibleDirsAppend(a: seq<DirEntry>, b: seq<DirEntry>)
    ensures VisibleDirs(a + b) == VisibleDirs(a) + VisibleDirs(b)
    decreases |a|
  {
    if |a| == 0 {
      assert a + b == b;
    } else {
      assert (a + b)[1..] == a[1..] + b;
      VisibleDirsAppend(a[1..], b);
    }
  }

  /** A single entry contributes its name exactly when it is a visible directory. */
  lemma VisibleDirsOne(e: DirEntry)
    ensures VisibleDirs([e]) == if IsSolutionDir(e) then [e.name] else []
  {
    assert [e][1..] == [];
  }

  /**
   * The sorted solution directories. `None` is a `solutions` path that is not
   * a directory, which yields no directories rather than an error.
   */
  function ScanDirectories(listing: Option<seq<DirEntry>>): (r: seq<string>)
    ensures Sorted(r)
    ensures listing.None? ==> r == []
    ensures listing.Some? ==> multiset(r) == multiset(VisibleDirs(listing.value))
    ensures forall n :: n in r <==> listing.Some? && exists e :: e in listing.value && IsSolutionDir(e) && e.name == n
  {
    match listing
    case None => []
    case Some(es) =>
      var v := VisibleDirs(es);
      var r := Sort(v);
      assert forall n :: n in r <==> n in multiset(r);
      assert forall n :: n in v <==> n in multiset(v);
      r
  }

  /** The comprehension `[x for x in xs if x not in ys]`: the entries of `xs` absent from `ys`, in order. */
  function NotIn(xs: seq<string>, ys: seq<string>): (r: seq<string>)
    ensures IsSubseq(r, xs)
    ensures forall s :: s in r <==> s in xs && s !in ys
    ensures forall s :: s !in ys ==> multiset(r)[s] == multiset(xs)[s]
    decreases |xs|
  {
    if |xs| == 0 then []
    else
      var rest := NotIn(xs[1..], ys);
      var head := if xs[0] !in ys then [xs[0]] else [];
      assert xs == [xs[0]] + xs[1..];
      assert multiset(xs) == multiset([xs[0]]) + multiset(xs[1..]);
      assert multiset(head + rest) == multiset(head) + multiset(rest);
      SubseqCons(xs[0], xs[0] !in ys, rest, xs[1..]);
      head + rest
  }

  /** The outcome of comparing the declared list with the directories. */
  datatype Reconciliation = Reconciled | Missing(names: seq<string>) | Extra(names: seq<string>)

  /**
   * Declared names without a directory are reported first; only when there
   * are none are directories without a declaration reported.
   */
  function Reconcile(declared: seq<string>, dirs: seq<string>): (r: Reconciliation)
    ensures r.Reconciled? <==> SetOf(declared) == SetOf(dirs)
    ensures r.Missing? <==> exists s :: s in declared && s !in dirs
    ensures r.Missing? ==> r.names != [] && IsSubseq(r.names, declared)
    ensures r.Missing? ==> forall s :: s in r.names <==> s in declared && s !in dirs
    ensures r.Missing? ==> forall s :: s !in dirs ==> multiset(r.names)[s] == multiset(declared)[s]
    ensures r.Extra? ==> r.names != [] && IsSubseq(r.names, dirs)
    ensures r.Extra? ==> forall s :: s in r.names <==> s in dirs && s !in declared
    ensures r.Extra? ==> forall s :: s !in declared ==> multiset(r.names)[s] == multiset(dirs)[s]
  {
    var missing := NotIn(declared, dirs);
    var extra := NotIn(dirs, declared);
    if missing != [] then
      assert missing[0] in declared && missing[0] !in dirs;
      assert missing[0] !in SetOf(dirs);
      Missing(missing)
    else if extra != [] then
      assert extra[0] in dirs && extra[0] !in declared;
      assert extra[0] !in SetOf(declared);
      Extra(extra)
    else
      assert SetOf(declared) == SetOf(dirs) by {
        assert forall s :: s in declared ==> s in dirs by {
          forall s | s in declared ensures s in dirs { assert s !in missing; }
        }
        assert forall s :: s in dirs ==> s in declared by {
          forall s | s in dirs ensures s in declared { assert s !in extra; }
        }
      }
      Reconciled
  }

  /** `NotIn` only asks whether an element is in `ys`, not where or how often. */
  lemma {:induction false} NotInSameMembers(xs: seq<string>, ys1: seq<string>, ys2: seq<string>)
    requires forall s :: s in ys1 <==> s in ys2
    ensures NotIn(xs, ys1) == NotIn(xs, ys2)
    decreases |xs|
  {
    if |xs| > 0 {
      NotInSameMembers(xs[1..], ys1, ys2);
    }
  }

  /**
   * Reconciliation sees the declared list only as a set, except for the order
   * and repetition of the missing names it lists.
   */
  lemma ReconcileOnlyDeclaredSet(d1: seq<string>, d2: seq<string>, dirs: seq<string>)
    requires SetOf(d1) == SetOf(d2)
    ensures Reconcile(d1, dirs).Missing? <==> Reconcile(d2, dirs).Missing?
    ensures !Reconcile(d1, dirs).Missing? ==> Reconcile(d1, dirs) == Reconcile(d2, dirs)
    ensures Reconcile(d1, dirs).Missing? ==> SetOf(Reconcile(d1, dirs).names) == SetOf(Reconcile(d2, dirs).names)
  {
    assert forall s :: s in d1 <==> s in d2 by {
      forall s ensures s in d1 <==> s in d2 {
        assert s in d1 <==> s in SetOf(d1);
        assert s in d2 <==> s in SetOf(d2);
      }
    }
    NotInSameMembers(dirs, d1, d2);
    if Reconcile(d1, dirs).Missing? {
      MissingNamesOnlyDeclaredSet(d1, d2, dirs);
    }
  }

  /** Declared lists with the same names report the same set of missing names. */
  lemma MissingNamesOnlyDeclaredSet(d1: seq<string>, d2: seq<string>, dirs: seq<string>)
    requires SetOf(d1) == SetOf(d2)
    requires Reconcile(d1, dirs).Missing? && Reconcile(d2, dirs).Missing?
    ensures SetOf(Reconcile(d1, dirs).names) == SetOf(Reconcile(d2, dirs).names)
  {
    assert forall s :: s in d1 <==> s in d2 by {
      forall s ensures s in d1 <==> s in d2 {
        assert s in d1 <==> s in SetOf(d1);
        assert s in d2 <==> s in SetOf(d2);
      }
    }
  }
}
