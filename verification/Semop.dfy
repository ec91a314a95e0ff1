/** The semop() system call on one System V semaphore set: an array of
    operations is carried out in order, and if one of them would block, every
    operation before it is taken back. */
module Semop {

  /** One entry of a `struct sembuf` array.  The flag field is left out: no
      array of the programs asks for IPC_NOWAIT or SEM_UNDO. */
  datatype Sembuf = Sembuf(num: nat, delta: int)

  predicate InSet(ops: seq<Sembuf>, n: nat) {
    forall j | 0 <= j < |ops| :: ops[j].num < n
  }

  /** What the first `j` entries add to semaphore `s` altogether. */
  function Net(ops: seq<Sembuf>, j: nat, s: nat): int
    requires j <= |ops|
  {
    if j == 0 then 0
    else Net(ops, j - 1, s) + if ops[j - 1].num == s then ops[j - 1].delta else 0
  }

  /** Whether an operation goes through on a semaphore that holds `v`. */
  predicate Passes(v: int, delta: int) {
    delta > 0 || (if delta == 0 then v == 0 else v + delta >= 0)
  }

  /** Entry `j` passes on the value its semaphore has by then. */
  predicate PassesAt(sems: seq<int>, ops: seq<Sembuf>, j: nat)
    requires InSet(ops, |sems|) && j < |ops|
  {
    Passes(sems[ops[j].num] + Net(ops, j, ops[j].num), ops[j].delta)
  }

  /** The guard of a whole array: each entry passes on the value that its
      semaphore has once the entries before it are counted in. */
  predicate Admissible(sems: seq<int>, ops: seq<Sembuf>)
    requires InSet(ops, |sems|)
  {
    forall j | 0 <= j < |ops| :: PassesAt(sems, ops, j)
  }

  /** The effect of the first `j` entries of an array. */
  function EffectOf(sems: seq<int>, ops: seq<Sembuf>, j: nat): (r: seq<int>)
    requires j <= |ops|
    ensures |r| == |sems|
    ensures forall s | 0 <= s < |sems| :: r[s] == sems[s] + Net(ops, j, s)
  {
    seq(|sems|, s requires 0 <= s < |sems| => sems[s] + Net(ops, j, s))
  }

  function Effect(sems: seq<int>, ops: seq<Sembuf>): (r: seq<int>)
    ensures |r| == |sems|
    ensures forall s | 0 <= s < |sems| :: r[s] == sems[s] + Net(ops, |ops|, s)
  {
    EffectOf(sems, ops, |ops|)
  }

  /** Takes the first `n` entries of an array back, last one first. */
  method RollBack(sem: array<int>, ops: seq<Sembuf>, n: nat, ghost was: seq<int>)
    requires InSet(ops, sem.Length) && n <= |ops| && |was| == sem.Length
    requires forall s | 0 <= s < sem.Length :: sem[s] == was[s] + Net(ops, n, s)
    modifies sem
    ensures sem[..] == was
  {
    var i := n;
    while i > 0
      invariant 0 <= i <= n
      invariant forall s | 0 <= s < sem.Length :: sem[s] == was[s] + Net(ops, i, s)
    {
      i := i - 1;
      sem[ops[i].num] := sem[ops[i].num] - ops[i].delta;
    }
  }

  /** The executor: a forward loop, rolled back when an entry blocks.  It is
      one guarded atomic update of the whole set. */
  method Run(sem: array<int>, ops: seq<Sembuf>) returns (ok: bool)
    requires InSet(ops, sem.Length)
    modifies sem
    ensures ok == Admissible(old(sem[..]), ops)
    ensures sem[..] == if ok then Effect(old(sem[..]), ops) else old(sem[..])
  {
    ghost var was := sem[..];
    for i := 0 to |ops|
      invariant forall s | 0 <= s < sem.Length :: sem[s] == was[s] + Net(ops, i, s)
      invariant forall j | 0 <= j < i :: PassesAt(was, ops, j)
    {
      var v := sem[ops[i].num];
      if !Passes(v, ops[i].delta) {
        assert !PassesAt(was, ops, i);
        RollBack(sem, ops, i, was);
        return false;
      }
      sem[ops[i].num] := v + ops[i].delta;
    }
    return true;
  }

  /** Values stay non-negative: an admitted array never drives any semaphore
      below zero, at no point of its execution. */
  lemma {:induction false} NeverNegative(sems: seq<int>, ops: seq<Sembuf>, j: nat)
    requires InSet(ops, |sems|) && Admissible(sems, ops)
    requires forall s | 0 <= s < |sems| :: sems[s] >= 0
    requires j <= |ops|
    ensures forall s | 0 <= s < |sems| :: EffectOf(sems, ops, j)[s] >= 0
  {
    if j > 0 {
      NeverNegative(sems, ops, j - 1);
      assert PassesAt(sems, ops, j - 1);
      assert EffectOf(sems, ops, j - 1)[ops[j - 1].num] >= 0;
      forall s | 0 <= s < |sems|
        ensures EffectOf(sems, ops, j)[s] >= 0
      {
        assert EffectOf(sems, ops, j - 1)[s] >= 0;
      }
    }
  }
}
