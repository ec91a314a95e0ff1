/** Orders in which a system lets processes go on: each place of an order is an
    offer to one process, which moves if it can. */
module Offers {

  /** The items at the places that are marked, in order. */
  function Chosen<T>(items: seq<T>, marks: seq<bool>): seq<T>
    requires |items| == |marks|
  {
    if items == [] then []
    else
      var n := |items| - 1;
      Chosen(items[..n], marks[..n]) + if marks[n] then [items[n]] else []
  }

  function Marked(marks: seq<bool>): nat {
    if marks == [] then 0 else Marked(marks[..|marks| - 1]) + if marks[|marks| - 1] then 1 else 0
  }

  lemma ChosenMore<T>(items: seq<T>, marks: seq<bool>, t: T, b: bool)
    requires |items| == |marks|
    ensures Chosen(items + [t], marks + [b]) == Chosen(items, marks) + if b then [t] else []
  {
    assert (items + [t])[..|items|] == items && (marks + [b])[..|marks|] == marks;
  }

  lemma ChosenNext<T>(items: seq<T>, marks: seq<bool>, k: nat, b: bool)
    requires |marks| == k < |items|
    ensures Chosen(items[..k + 1], marks + [b]) == if b then Chosen(items[..k], marks) + [items[k]] else Chosen(items[..k], marks)
  {
    ChosenMore(items[..k], marks, items[k], b);
    assert items[..k + 1] == items[..k] + [items[k]];
  }

  /** Each marked item has its place: as many marked ones are before it. */
  lemma {:induction false} ChosenPlace<T>(items: seq<T>, marks: seq<bool>, k: nat)
    requires |items| == |marks| && k < |items| && marks[k]
    ensures |Chosen(items, marks)| == Marked(marks)
    ensures Marked(marks[..k]) < |Chosen(items, marks)| && Chosen(items, marks)[Marked(marks[..k])] == items[k]
    decreases |items|
  {
    var n := |items| - 1;
    ChosenLength(items, marks);
    ChosenLength(items[..n], marks[..n]);
    if k < n {
      ChosenPlace(items[..n], marks[..n], k);
      assert marks[..n][..k] == marks[..k];
    }
  }

  lemma {:induction false} ChosenLength<T>(items: seq<T>, marks: seq<bool>)
    requires |items| == |marks|
    ensures |Chosen(items, marks)| == Marked(marks)
    decreases |items|
  {
    if items != [] {
      ChosenLength(items[..|items| - 1], marks[..|items| - 1]);
    }
  }

  // -------------------------------------------------------------------- runs

  /** All the offers of an order, with the states between them: `offer` says
      whether the process moves in a state, and what the next state is. */
  ghost predicate Ran<S, I>(offer: (S, I, bool, S) -> bool, start: S, order: seq<I>, moved: seq<bool>, trace: seq<S>) {
    && |moved| == |order| && |trace| == |order| + 1 && trace[0] == start
    && forall k | 0 <= k < |order| :: offer(trace[k], order[k], moved[k], trace[k + 1])
  }

  lemma RanMore<S, I>(offer: (S, I, bool, S) -> bool, start: S, order: seq<I>, moved: seq<bool>, trace: seq<S>,
                      i: I, m: bool, next: S)
    requires Ran(offer, start, order, moved, trace) && offer(trace[|order|], i, m, next)
    ensures Ran(offer, start, order + [i], moved + [m], trace + [next])
  {
  }

  lemma RanInit<S, I>(offer: (S, I, bool, S) -> bool, start: S, order: seq<I>, moved: seq<bool>, trace: seq<S>, n: nat)
    requires Ran(offer, start, order, moved, trace) && n <= |order|
    ensures Ran(offer, start, order[..n], moved[..n], trace[..n + 1])
  {
    forall k | 0 <= k < n
      ensures offer(trace[..n + 1][k], order[..n][k], moved[..n][k], trace[..n + 1][k + 1])
    {
      assert offer(trace[k], order[k], moved[k], trace[k + 1]);
    }
  }

  /** The first `k` offers are made. */
  ghost predicate Running<S, I>(offer: (S, I, bool, S) -> bool, start: S, order: seq<I>, k: nat,
                                moved: seq<bool>, trace: seq<S>, now: S)
  {
    k <= |order| && Ran(offer, start, order[..k], moved, trace) && trace[k] == now
  }

  lemma RunningMore<S, I>(offer: (S, I, bool, S) -> bool, start: S, order: seq<I>, k: nat,
                          moved: seq<bool>, trace: seq<S>, now: S, m: bool, next: S)
    requires Running(offer, start, order, k, moved, trace, now) && k < |order| && offer(now, order[k], m, next)
    ensures Running(offer, start, order, k + 1, moved + [m], trace + [next], next)
  {
    RanMore(offer, start, order[..k], moved, trace, order[k], m, next);
    assert order[..k + 1] == order[..k] + [order[k]];
  }

  lemma RunningEnds<S, I>(offer: (S, I, bool, S) -> bool, start: S, order: seq<I>,
                          moved: seq<bool>, trace: seq<S>, now: S)
    requires Running(offer, start, order, |order|, moved, trace, now)
    ensures Ran(offer, start, order, moved, trace) && trace[|order|] == now
  {
    assert order[..|order|] == order;
  }

  // ------------------------------------------------------------- fair orders

  /** The order is cut into rounds, and in each of them each of `m` processes
      gets an offer. */
  ghost predicate Rounds(order: seq<nat>, cuts: seq<nat>, m: nat) {
    && cuts != [] && cuts[0] == 0
    && (forall r | 0 <= r < |cuts| :: cuts[r] <= |order|)
    && forall r | 0 < r < |cuts| :: Covers(order, cuts[r - 1], cuts[r], m)
  }

  ghost predicate Covers(order: seq<nat>, a: nat, b: nat, m: nat) {
    a <= b <= |order| && forall i | 0 <= i < m :: i in order[a..b]
  }

  /** A measure of the work left at each place, and who moves there. */
  ghost predicate Descending(work: seq<nat>, moved: seq<bool>) {
    && |work| == |moved| + 1
    && forall k | 0 <= k < |moved| :: if moved[k] then work[k + 1] < work[k] else work[k + 1] == work[k]
  }

  ghost predicate MovedIn(moved: seq<bool>, a: nat, b: nat) {
    exists k | 0 <= k < |moved| :: a <= k < b && moved[k]
  }

  lemma {:induction false} WorkFalls(work: seq<nat>, moved: seq<bool>, a: nat, b: nat)
    requires Descending(work, moved) && a <= b <= |moved|
    ensures work[b] <= work[a]
    ensures MovedIn(moved, a, b) ==> work[b] < work[a]
    decreases b - a
  {
    if a < b {
      WorkFalls(work, moved, a, b - 1);
      if MovedIn(moved, a, b) && !moved[b - 1] {
        assert MovedIn(moved, a, b - 1);
      }
    }
  }

  /** When somebody moves in each round that begins with work left, no work is
      left after as many rounds as there was work. */
  lemma {:induction false} WorkEnds(work: seq<nat>, moved: seq<bool>, cuts: seq<nat>, r: nat)
    requires Descending(work, moved) && r < |cuts| && cuts[0] == 0
    requires forall q | 0 <= q < |cuts| :: cuts[q] <= |moved|
    requires forall q | 0 < q < |cuts| :: cuts[q - 1] <= cuts[q]
    requires forall q | 0 < q < |cuts| :: work[cuts[q - 1]] > 0 ==> MovedIn(moved, cuts[q - 1], cuts[q])
    ensures work[cuts[r]] == 0 || work[cuts[r]] + r <= work[0]
  {
    if r > 0 {
      WorkEnds(work, moved, cuts, r - 1);
      WorkFalls(work, moved, cuts[r - 1], cuts[r]);
    }
  }

  /** Where nobody moves the state stays. */
  lemma {:induction false} Still<S>(trace: seq<S>, moved: seq<bool>, a: nat, b: nat)
    requires |trace| == |moved| + 1 && a <= b <= |moved| && !MovedIn(moved, a, b)
    requires forall k | 0 <= k < |moved| && !moved[k] :: trace[k + 1] == trace[k]
    ensures trace[b] == trace[a]
    decreases b - a
  {
    if a < b {
      assert !moved[b - 1];
      Still(trace, moved, a, b - 1);
    }
  }
}
