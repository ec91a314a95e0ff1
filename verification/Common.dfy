/** Small things that several modules share. */
module Common {

  datatype Option<+T> = None | Some(value: T)

  lemma Associative<T>(a: seq<T>, b: seq<T>, c: seq<T>)
    ensures (a + b) + c == a + (b + c)
  {
  }

  /** One sequence after the other. */
  function Flat<T>(parts: seq<seq<T>>): seq<T> {
    if parts == [] then [] else Flat(parts[..|parts| - 1]) + parts[|parts| - 1]
  }

  lemma FlatMore<T>(parts: seq<seq<T>>, more: seq<T>)
    ensures Flat(parts + [more]) == Flat(parts) + more
  {
    assert (parts + [more])[..|parts|] == parts;
  }

  /** Item `j` of part `k` comes behind all the parts before it. */
  lemma {:induction false} FlatAt<T>(parts: seq<seq<T>>, k: nat, j: nat)
    requires k < |parts| && j < |parts[k]|
    ensures |Flat(parts[..k])| + j < |Flat(parts)| && Flat(parts)[|Flat(parts[..k])| + j] == parts[k][j]
    decreases |parts|
  {
    var n := |parts| - 1;
    if k < n {
      FlatAt(parts[..n], k, j);
      assert parts[..n][..k] == parts[..k];
    }
  }

  lemma {:induction false} FlatLength<T>(parts: seq<seq<T>>, k: nat)
    requires k < |parts|
    ensures |Flat(parts[..k + 1])| == |Flat(parts[..k])| + |parts[k]|
    ensures |Flat(parts[..0])| == 0 && Flat(parts[..|parts|]) == Flat(parts)
  {
    assert parts[..k + 1][..k] == parts[..k] && parts[..|parts|] == parts;
  }
}
