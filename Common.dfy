/** Shared failure-carrying datatypes and small sequence helpers used by every module. */
module Common {

  datatype Option<+T> = None | Some(value: T)

  /** The outcome of a step that either produces a value or fails the way the source
      fails (an exception that is raised, or a value that is left unbound). */
  datatype Result<+T> = Ok(value: T) | Fail(reason: string)

  /** Sum of a sequence of reals, folded from the left as `reduce((a, b) => a + b, 0)` does. */
  function Sum(s: seq<real>): real
  {
    if s == [] then 0.0 else Sum(s[..|s| - 1]) + s[|s| - 1]
  }

  lemma {:induction false} SumAppend(s: seq<real>, x: real)
    ensures Sum(s + [x]) == Sum(s) + x
  {
    assert (s + [x])[..|s + [x]| - 1] == s;
  }

  /** Every element lies between lo and hi, so the sum lies between n*lo and n*hi. */
  lemma {:induction false} SumBounds(s: seq<real>, lo: real, hi: real)
    requires forall i :: 0 <= i < |s| ==> lo <= s[i] <= hi
    ensures (|s| as real) * lo <= Sum(s) <= (|s| as real) * hi
  {
    if s != [] {
      SumBounds(s[..|s| - 1], lo, hi);
    }
  }

  /** A sum of non-negative reals is non-negative. */
  lemma {:induction false} SumNonNegative(s: seq<real>)
    requires forall i :: 0 <= i < |s| ==> 0.0 <= s[i]
    ensures 0.0 <= Sum(s)
  {
    if s != [] {
      SumNonNegative(s[..|s| - 1]);
    }
  }

  /** The arithmetic mean: the sum divided by the count. */
  function Mean(s: seq<real>): real
    requires s != []
  {
    Sum(s) / (|s| as real)
  }

  /** A mean lies between any lower and upper bound of its values. */
  lemma MeanBounds(s: seq<real>, lo: real, hi: real)
    requires s != []
    requires forall i :: 0 <= i < |s| ==> lo <= s[i] <= hi
    ensures lo <= Mean(s) <= hi
  {
    SumBounds(s, lo, hi);
    QuotientBounds(Sum(s), |s| as real, lo, hi);
  }

  /** A fraction of a positive total is 1 exactly when the part is the whole. */
  lemma FractionOne(a: real, t: real)
    requires 0.0 < t
    ensures a / t == 1.0 <==> a == t
  {
    if a / t == 1.0 {
      assert a == (a / t) * t;
    }
  }

  /** A total between n*lo and n*hi, divided by a positive n, lies between lo and hi. */
  lemma QuotientBounds(t: real, n: real, lo: real, hi: real)
    requires n > 0.0 && n * lo <= t <= n * hi
    ensures lo <= t / n <= hi
  {
    assert t / n - lo == (t - lo * n) / n;
    assert hi - t / n == (hi * n - t) / n;
  }

  lemma NonNegativeProduct(a: real, b: real)
    requires a >= 0.0 && b >= 0.0
    ensures a * b >= 0.0
  {
  }

  lemma PositiveFactor(x: real, d: real)
    requires d > 0.0 && x * d >= 0.0
    ensures x >= 0.0
  {
  }

  lemma ZeroFactor(x: real, d: real)
    requires d != 0.0 && x * d == 0.0
    ensures x == 0.0
  {
  }

  /** The concatenation of a sequence of sequences, in order. */
  function Flatten<T>(ss: seq<seq<T>>): seq<T>
  {
    if ss == [] then [] else Flatten(ss[..|ss| - 1]) + ss[|ss| - 1]
  }

  lemma FlattenSnoc<T>(ss: seq<seq<T>>, s: seq<T>)
    ensures Flatten(ss + [s]) == Flatten(ss) + s
  {
    assert (ss + [s])[..|ss|] == ss;
  }

  lemma {:induction false} FlattenAppend<T>(ss: seq<seq<T>>, ts: seq<seq<T>>)
    ensures Flatten(ss + ts) == Flatten(ss) + Flatten(ts)
    decreases |ts|
  {
    if ts == [] {
      assert ss + ts == ss;
    } else {
      var init := ts[..|ts| - 1];
      assert (ss + ts)[..|ss + ts| - 1] == ss + init;
      FlattenAppend(ss, init);
    }
  }

  /** What f yields on the elements of xs, in order, up to the first element on which it
      fails: a loop that stops at its first exception. */
  function PrefixWhile<T, U>(xs: seq<T>, f: T -> Option<U>): (r: seq<U>)
    ensures |r| <= |xs|
  {
    if xs == [] then []
    else
      match f(xs[0])
      case None => []
      case Some(y) => [y] + PrefixWhile(xs[1..], f)
  }

  /** The prefix holds what f yields on the first elements and stops exactly at the first
      failure. */
  lemma {:induction false} PrefixWhileSpec<T, U>(xs: seq<T>, f: T -> Option<U>)
    ensures forall k :: 0 <= k < |PrefixWhile(xs, f)| ==> f(xs[k]) == Some(PrefixWhile(xs, f)[k])
    ensures |PrefixWhile(xs, f)| < |xs| ==> f(xs[|PrefixWhile(xs, f)|]).None?
  {
    if xs != [] && f(xs[0]).Some? {
      var rest := PrefixWhile(xs[1..], f);
      PrefixWhileSpec(xs[1..], f);
      assert PrefixWhile(xs, f) == [f(xs[0]).value] + rest;
      forall k | 1 <= k < |PrefixWhile(xs, f)|
        ensures f(xs[k]) == Some(PrefixWhile(xs, f)[k])
      {
        assert xs[1..][k - 1] == xs[k];
      }
      if |rest| < |xs| - 1 {
        assert xs[1..][|rest|] == xs[|rest| + 1];
      }
    }
  }

  /** The prefix at one position, as a loop over xs sees it. */
  lemma PrefixWhileAt<T, U>(xs: seq<T>, f: T -> Option<U>, i: int)
    requires 0 <= i < |xs| && i <= |PrefixWhile(xs, f)|
    ensures i < |PrefixWhile(xs, f)| <==> f(xs[i]).Some?
    ensures i < |PrefixWhile(xs, f)| ==> f(xs[i]) == Some(PrefixWhile(xs, f)[i])
  {
    PrefixWhileSpec(xs, f);
  }

  /** The elements satisfying p, in their input order. */
  function Filter<T>(xs: seq<T>, p: T -> bool): seq<T>
  {
    if xs == [] then []
    else Filter(xs[..|xs| - 1], p) + (if p(xs[|xs| - 1]) then [xs[|xs| - 1]] else [])
  }

  /** An element is kept exactly when it occurs in the input and satisfies p. */
  lemma {:induction false} FilterMembers<T>(xs: seq<T>, p: T -> bool)
    ensures |Filter(xs, p)| <= |xs|
    ensures forall k :: 0 <= k < |Filter(xs, p)| ==> p(Filter(xs, p)[k])
    ensures forall x :: x in Filter(xs, p) <==> x in xs && p(x)
  {
    if xs != [] {
      FilterMembers(xs[..|xs| - 1], p);
      assert xs == xs[..|xs| - 1] + [xs[|xs| - 1]];
    }
  }

  /** Filtering keeps the order: filtering a concatenation concatenates the filtered parts. */
  lemma {:induction false} FilterAppend<T>(xs: seq<T>, ys: seq<T>, p: T -> bool)
    ensures Filter(xs + ys, p) == Filter(xs, p) + Filter(ys, p)
    decreases |ys|
  {
    if ys != [] {
      var init := ys[..|ys| - 1];
      assert (xs + ys)[..|xs + ys| - 1] == xs + init;
      FilterAppend(xs, init, p);
    } else {
      assert xs + ys == xs;
    }
  }

  /** Nothing is dropped when every element satisfies p. */
  lemma {:induction false} FilterAll<T>(xs: seq<T>, p: T -> bool)
    requires forall k :: 0 <= k < |xs| ==> p(xs[k])
    ensures Filter(xs, p) == xs
  {
    if xs != [] {
      FilterAll(xs[..|xs| - 1], p);
    }
  }

  /** A longer prefix keeps at least as many elements satisfying p. */
  lemma FilterPrefixMonotone<T>(xs: seq<T>, p: T -> bool, j: int, k: int)
    requires 0 <= j <= k <= |xs|
    ensures |Filter(xs[..j], p)| <= |Filter(xs[..k], p)| <= |Filter(xs, p)|
  {
    assert xs[..k] == xs[..j] + xs[j..k];
    FilterAppend(xs[..j], xs[j..k], p);
    assert xs == xs[..k] + xs[k..];
    FilterAppend(xs[..k], xs[k..], p);
  }

  /** Nothing is dropped only when every element satisfies p. */
  lemma {:induction false} FilterKeepsAll<T>(xs: seq<T>, p: T -> bool)
    requires |Filter(xs, p)| == |xs|
    ensures forall x :: x in xs ==> p(x)
  {
    if xs != [] {
      var init := xs[..|xs| - 1];
      FilterMembers(init, p);
      FilterKeepsAll(init, p);
      assert xs == init + [xs[|xs| - 1]];
    }
  }
}
