/**
 * Fixed-size windows over a sequence, starting at offset 0 and advancing by a fixed step.
 * With step < size the windows overlap (the chunker); with step == size they partition
 * the sequence into consecutive batches (`range(0, n, B)` slicing).
 */
module Windowing {

  function Min(a: int, b: int): int { if a <= b then a else b }

  /** The windows produced by a loop whose cursor is currently at `start`. */
  function WindowsFrom<T>(xs: seq<T>, size: nat, step: nat, start: nat): seq<seq<T>>
    requires 0 < size && 0 < step
    decreases if start < |xs| then |xs| - start else 0
  {
    if start >= |xs| then []
    else [xs[start .. Min(start + size, |xs|)]] + WindowsFrom(xs, size, step, start + step)
  }

  function Windows<T>(xs: seq<T>, size: nat, step: nat): seq<seq<T>>
    requires 0 < size && 0 < step
  {
    WindowsFrom(xs, size, step, 0)
  }

  /** Ceiling of m / d. */
  function CeilDiv(m: nat, d: nat): nat
    requires 0 < d
  {
    (m + d - 1) / d
  }

  /** The number of windows from `start` is the least c with start + c * step >= |xs|. */
  lemma {:induction false} WindowsFromCount<T>(xs: seq<T>, size: nat, step: nat, start: nat)
    requires 0 < size && 0 < step
    ensures var c := |WindowsFrom(xs, size, step, start)|;
      && start + c * step >= |xs|
      && (c > 0 ==> start + (c - 1) * step < |xs|)
    decreases if start < |xs| then |xs| - start else 0
  {
    if start < |xs| {
      WindowsFromCount(xs, size, step, start + step);
      var c' := |WindowsFrom(xs, size, step, start + step)|;
      assert |WindowsFrom(xs, size, step, start)| == c' + 1;
      assert (c' + 1) * step == c' * step + step;
      if c' > 0 {
        assert c' * step == (c' - 1) * step + step;
      }
    }
  }

  /** A count bracketed as in WindowsFromCount is the ceiling of m / step. */
  lemma CeilDivUnique(m: nat, step: nat, c: nat)
    requires 0 < step
    requires m <= c * step
    requires c > 0 ==> (c - 1) * step < m
    ensures c == CeilDiv(m, step)
  {
    if c > 0 {
      assert (c - 1) * step == c * step - step;
    }
    DivUnique(m + step - 1, step, c, m + step - 1 - c * step);
  }

  /** Euclidean division has a unique quotient. */
  lemma DivUnique(a: int, d: int, q: int, r: int)
    requires 0 < d && a == q * d + r && 0 <= r < d
    ensures a / d == q
  {
    var x := q - a / d;
    assert x * d == a % d - r;
    MulSign(x, d);
  }

  lemma MulSign(x: int, d: int)
    requires 0 <= d
    ensures x >= 1 ==> x * d >= d
    ensures x <= -1 ==> x * d <= -d
  {
    if x >= 1 {
      MulMonotone(1, x, d);
    } else if x <= -1 {
      MulMonotone(1, -x, d);
    }
  }

  /** Window j from `start` is the slice beginning j steps further on, cut at the end of xs. */
  lemma {:induction false} WindowsFromAt<T>(xs: seq<T>, size: nat, step: nat, start: nat, j: nat)
    requires 0 < size && 0 < step
    requires j < |WindowsFrom(xs, size, step, start)|
    ensures start + j * step < |xs|
    ensures WindowsFrom(xs, size, step, start)[j]
         == xs[start + j * step .. Min(start + j * step + size, |xs|)]
    decreases if start < |xs| then |xs| - start else 0
  {
    if j > 0 {
      WindowsFromAt(xs, size, step, start + step, j - 1);
      assert start + step + (j - 1) * step == start + j * step;
    }
  }

  /**
   * The closed form of the windows: ceil(|xs| / step) of them, window j being
   * xs[j * step .. min(j * step + size, |xs|)].
   */
  lemma WindowsShape<T>(xs: seq<T>, size: nat, step: nat)
    requires 0 < size && 0 < step
    ensures |Windows(xs, size, step)| == CeilDiv(|xs|, step)
    ensures forall j :: 0 <= j < |Windows(xs, size, step)| ==>
      j * step < |xs| && Windows(xs, size, step)[j] == xs[j * step .. Min(j * step + size, |xs|)]
  {
    WindowsFromCount(xs, size, step, 0);
    CeilDivUnique(|xs|, step, |Windows(xs, size, step)|);
    forall j | 0 <= j < |Windows(xs, size, step)|
      ensures j * step < |xs| && Windows(xs, size, step)[j] == xs[j * step .. Min(j * step + size, |xs|)]
    {
      WindowsFromAt(xs, size, step, 0, j);
    }
  }

  /** Every window is non-empty and at most `size` long; one shorter than `size` ends at the end of xs. */
  lemma WindowLengths<T>(xs: seq<T>, size: nat, step: nat, j: nat)
    requires 0 < size && 0 < step
    requires j < |Windows(xs, size, step)|
    ensures 0 < |Windows(xs, size, step)[j]| <= size
    ensures |Windows(xs, size, step)[j]| < size ==> j * step + |Windows(xs, size, step)[j]| == |xs|
  {
    WindowsShape(xs, size, step);
  }

  /** With step <= size (non-negative overlap) every position of xs lies inside some window. */
  lemma WindowsCover<T>(xs: seq<T>, size: nat, step: nat, p: nat)
    requires 0 < step <= size
    requires p < |xs|
    ensures exists j :: 0 <= j < |Windows(xs, size, step)| && j * step <= p < Min(j * step + size, |xs|)
  {
    WindowsFromCount(xs, size, step, 0);
    var j := p / step;
    CoverIndex(p, step, |Windows(xs, size, step)|, |xs|);
    WindowsFromAt(xs, size, step, 0, j);
    assert j * step <= p < Min(j * step + size, |xs|);
  }

  /** The window holding position p is window p / step, and it exists. */
  lemma CoverIndex(p: nat, step: nat, c: nat, n: nat)
    requires 0 < step && p < n <= c * step
    ensures p / step < c && (p / step) * step <= p < (p / step) * step + step
  {
    DivBracket(p, step);
    MulCancel(p / step, c, step);
  }

  lemma DivBracket(p: nat, d: nat)
    requires 0 < d
    ensures (p / d) * d <= p < (p / d) * d + d
  {
    assert p == d * (p / d) + p % d;
  }

  /** Multiplying by a positive k preserves strict order, read backwards. */
  lemma MulCancel(a: nat, b: nat, k: nat)
    ensures a * k < b * k ==> a < b
  {
    if b <= a {
      MulMonotone(b, a, k);
    }
  }

  lemma MulMonotone(a: nat, b: nat, k: nat)
    requires a <= b
    ensures a * k <= b * k
  {
  }

  /** The results of f on each element, concatenated in order. */
  function ConcatMap<T, U>(xs: seq<T>, f: T -> seq<U>): seq<U>
  {
    if xs == [] then [] else ConcatMap(xs[..|xs| - 1], f) + f(xs[|xs| - 1])
  }

  lemma {:induction false} ConcatMapAppend<T, U>(a: seq<T>, b: seq<T>, f: T -> seq<U>)
    ensures ConcatMap(a + b, f) == ConcatMap(a, f) + ConcatMap(b, f)
  {
    if b == [] {
      assert a + b == a;
    } else {
      var ab := a + b;
      assert ab[..|ab| - 1] == a + b[..|b| - 1];
      ConcatMapAppend(a, b[..|b| - 1], f);
    }
  }

  lemma ConcatMapSnoc<T, U>(xs: seq<T>, x: T, f: T -> seq<U>)
    ensures ConcatMap(xs + [x], f) == ConcatMap(xs, f) + f(x)
  {
    assert (xs + [x])[..|xs|] == xs;
  }

  lemma ConcatMapCons<T, U>(x: T, xs: seq<T>, f: T -> seq<U>)
    ensures ConcatMap([x] + xs, f) == f(x) + ConcatMap(xs, f)
  {
    ConcatMapAppend([x], xs, f);
    assert [x][..0] == [];
  }

  /** An element that f maps to nothing can be dropped from xs without changing ConcatMap(xs, f). */
  lemma ConcatMapSkip<T, U>(xs: seq<T>, k: nat, f: T -> seq<U>)
    requires k < |xs| && f(xs[k]) == []
    ensures ConcatMap(xs, f) == ConcatMap(xs[..k] + xs[k + 1..], f)
  {
    var pre, post := xs[..k], xs[k + 1..];
    assert xs == (pre + [xs[k]]) + post;
    ConcatMapAppend(pre + [xs[k]], post, f);
    ConcatMapSnoc(pre, xs[k], f);
    ConcatMapAppend(pre, post, f);
  }

  /** An element of ConcatMap(xs, f) comes from f of some element of xs ... */
  lemma {:induction false} ConcatMapMember<T, U>(xs: seq<T>, f: T -> seq<U>, y: U)
    requires y in ConcatMap(xs, f)
    ensures exists k :: 0 <= k < |xs| && y in f(xs[k])
  {
    var init := xs[..|xs| - 1];
    if y in ConcatMap(init, f) {
      ConcatMapMember(init, f, y);
      var k :| 0 <= k < |init| && y in f(init[k]);
      assert init[k] == xs[k];
    } else {
      assert y in f(xs[|xs| - 1]);
    }
  }

  /** ... and every element of f of an element of xs is in ConcatMap(xs, f). */
  lemma {:induction false} ConcatMapContains<T, U>(xs: seq<T>, f: T -> seq<U>, k: nat, y: U)
    requires k < |xs| && y in f(xs[k])
    ensures y in ConcatMap(xs, f)
  {
    var init := xs[..|xs| - 1];
    if k < |init| {
      assert init[k] == xs[k];
      ConcatMapContains(init, f, k, y);
    }
  }

  function Flatten<T>(xss: seq<seq<T>>): seq<T>
  {
    if xss == [] then [] else xss[0] + Flatten(xss[1..])
  }

  lemma {:induction false} FlattenAppend<T>(a: seq<seq<T>>, b: seq<seq<T>>)
    ensures Flatten(a + b) == Flatten(a) + Flatten(b)
  {
    if a == [] {
      assert a + b == b;
    } else {
      assert (a + b)[1..] == a[1..] + b;
      FlattenAppend(a[1..], b);
    }
  }

  /** Non-overlapping windows (step == size) partition xs: concatenated they give xs back. */
  lemma {:induction false} BatchesFromFlatten<T>(xs: seq<T>, size: nat, start: nat)
    requires 0 < size
    requires start <= |xs|
    ensures Flatten(WindowsFrom(xs, size, size, start)) == xs[start..]
    decreases |xs| - start
  {
    if start < |xs| {
      var end := Min(start + size, |xs|);
      BatchesFromFlatten(xs, size, end);
      if end == |xs| {
        assert WindowsFrom(xs, size, size, start + size) == [];
      }
      assert xs[start..] == xs[start..end] + xs[end..];
    }
  }
}
