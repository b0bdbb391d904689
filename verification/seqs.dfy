/** Small facts about sequences used as Python lists. */
module Seqs {

  /** The elements of a list, as Python's `set(xs)` or `x in xs` sees them. */
  function SetOf<T(!new)>(xs: seq<T>): (r: set<T>)
    ensures forall x :: x in r <==> x in xs
  {
    set x | x in xs
  }

  /** The tail of a concatenation with a non-empty front. */
  lemma AppendTail<T>(a: seq<T>, b: seq<T>)
    requires |a| > 0
    ensures (a + b)[0] == a[0] && (a + b)[1..] == a[1..] + b
  {
  }

  lemma AppendAssoc<T>(x: seq<T>, y: seq<T>, z: seq<T>)
    ensures x + (y + z) == (x + y) + z
  {
  }

  /** `xs` is obtained from `ys` by deleting elements: order is preserved. */
  predicate IsSubseq<T(==)>(xs: seq<T>, ys: seq<T>)
    decreases |ys|
  {
    if |xs| == 0 then true
    else if |ys| == 0 then false
    else if xs[0] == ys[0] then IsSubseq(xs[1..], ys[1..])
    else IsSubseq(xs, ys[1..])
  }

  /** Putting any element in front of `ys` keeps every subsequence of `ys` a subsequence. */
  lemma {:induction false} SubseqDropHead<T>(xs: seq<T>, ys: seq<T>, y: T)
    requires IsSubseq(xs, ys)
    ensures IsSubseq(xs, [y] + ys)
    decreases |ys|, 1
  {
    var zs := [y] + ys;
    assert zs[1..] == ys;
    if |xs| > 0 && xs[0] == y {
      SubseqTail(xs, ys);
    }
  }

  /** Dropping the head of a subsequence leaves a subsequence. */
  lemma {:induction false} SubseqTail<T>(xs: seq<T>, ys: seq<T>)
    requires |xs| > 0 && IsSubseq(xs, ys)
    ensures IsSubseq(xs[1..], ys)
    decreases |ys|, 0
  {
    assert |ys| > 0;
    if xs[0] == ys[0] {
      SubseqDropHead(xs[1..], ys[1..], ys[0]);
    } else {
      SubseqTail(xs, ys[1..]);
      SubseqDropHead(xs[1..], ys[1..], ys[0]);
    }
    assert [ys[0]] + ys[1..] == ys;
  }

  /** Keeping or dropping the head of `ys` extends a subsequence of its tail. */
  lemma SubseqCons<T>(y: T, keep: bool, xs: seq<T>, ys: seq<T>)
    requires IsSubseq(xs, ys)
    ensures IsSubseq((if keep then [y] else []) + xs, [y] + ys)
  {
    var zs := [y] + ys;
    assert zs[1..] == ys;
    if keep {
      var ws := [y] + xs;
      assert ws[1..] == xs;
    } else {
      assert [] + xs == xs;
      SubseqDropHead(xs, ys, y);
    }
  }
}
