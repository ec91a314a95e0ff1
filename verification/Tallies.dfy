/** Sums of a measure over a table of processes. */
module Tallies {

  /** The sum of `f` over the first `n` elements. */
  function SumTo<T>(f: T -> nat, ts: seq<T>, n: nat): nat
    requires n <= |ts|
  {
    if n == 0 then 0 else SumTo(f, ts, n - 1) + f(ts[n - 1])
  }

  function Sum<T>(f: T -> nat, ts: seq<T>): nat {
    SumTo(f, ts, |ts|)
  }

  lemma {:induction false} SumToUpdate<T>(f: T -> nat, ts: seq<T>, n: nat, i: nat, t: T)
    requires n <= |ts| && i < |ts|
    ensures SumTo(f, ts[i := t], n) == SumTo(f, ts, n) + if i < n then f(t) - f(ts[i]) else 0
  {
    if n > 0 {
      SumToUpdate(f, ts, n - 1, i, t);
    }
  }

  lemma SumUpdate<T>(f: T -> nat, ts: seq<T>, i: nat, t: T)
    requires i < |ts|
    ensures Sum(f, ts[i := t]) == Sum(f, ts) - f(ts[i]) + f(t)
  {
    SumToUpdate(f, ts, |ts|, i, t);
  }

  lemma {:induction false} SumToAtLeast<T>(f: T -> nat, ts: seq<T>, n: nat, i: nat)
    requires i < n <= |ts|
    ensures SumTo(f, ts, n) >= f(ts[i])
  {
    if i < n - 1 {
      SumToAtLeast(f, ts, n - 1, i);
    }
  }

  lemma SumAtLeast<T>(f: T -> nat, ts: seq<T>, i: nat)
    requires i < |ts|
    ensures Sum(f, ts) >= f(ts[i])
  {
    SumToAtLeast(f, ts, |ts|, i);
  }

  /** A positive sum has a positive term. */
  lemma {:induction false} PositiveTerm<T>(f: T -> nat, ts: seq<T>, n: nat) returns (i: nat)
    requires n <= |ts| && SumTo(f, ts, n) > 0
    ensures i < n && f(ts[i]) > 0
  {
    if f(ts[n - 1]) > 0 {
      i := n - 1;
    } else {
      i := PositiveTerm(f, ts, n - 1);
    }
  }

  lemma {:induction false} SumToZero<T>(f: T -> nat, ts: seq<T>, n: nat)
    requires n <= |ts| && forall j | 0 <= j < n :: f(ts[j]) == 0
    ensures SumTo(f, ts, n) == 0
  {
    if n > 0 {
      SumToZero(f, ts, n - 1);
    }
  }

  /** When at most one element counts for `g`, it alone counts for any `f`
      below `g`. */
  lemma {:induction false} OnlyOne<T(!new)>(f: T -> nat, g: T -> nat, ts: seq<T>, n: nat, i: nat)
    requires i < n <= |ts| && SumTo(g, ts, n) <= 1 && g(ts[i]) == 1
    requires forall t :: f(t) <= g(t)
    ensures SumTo(f, ts, n) == f(ts[i])
  {
    if i == n - 1 {
      forall j | 0 <= j < n - 1
        ensures f(ts[j]) == 0
      {
        SumToAtLeast(g, ts, n - 1, j);
      }
      SumToZero(f, ts, n - 1);
    } else {
      SumToAtLeast(g, ts, n - 1, i);
      OnlyOne(f, g, ts, n - 1, i);
    }
  }

  lemma {:induction false} SumToOfTwo<T>(f: T -> nat, ts: seq<T>, n: nat, i: nat, j: nat)
    requires i < j < n <= |ts|
    ensures SumTo(f, ts, n) >= f(ts[i]) + f(ts[j])
  {
    if j < n - 1 {
      SumToOfTwo(f, ts, n - 1, i, j);
    } else {
      SumToAtLeast(f, ts, n - 1, i);
    }
  }

  /** A sum of at most one has room for one element only. */
  lemma Exclusion<T>(f: T -> nat, ts: seq<T>, i: nat, j: nat)
    requires i < |ts| && j < |ts| && i != j && Sum(f, ts) <= 1
    ensures f(ts[i]) == 0 || f(ts[j]) == 0
  {
    if i < j {
      SumToOfTwo(f, ts, |ts|, i, j);
    } else {
      SumToOfTwo(f, ts, |ts|, j, i);
    }
  }
}
