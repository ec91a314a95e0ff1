/** Sorting a matrix along its spiral: flatten it, sort the array, and write
    the array back from its end, walking inwards. */
module SpiralSort {
  import opened SpiralWalk

  ghost predicate InBounds(mat: array2<int>, cells: seq<Cell>) {
    forall t | 0 <= t < |cells| :: 0 <= cells[t].0 < mat.Length0 && 0 <= cells[t].1 < mat.Length1
  }

  /** The entries of a matrix along a walk. */
  ghost function Entries(mat: array2<int>, cells: seq<Cell>): (r: seq<int>)
    requires InBounds(mat, cells)
    reads mat
    ensures |r| == |cells|
    ensures forall t | 0 <= t < |cells| :: r[t] == mat[cells[t].0, cells[t].1]
  {
    seq(|cells|, t requires 0 <= t < |cells| reads mat => mat[cells[t].0, cells[t].1])
  }

  // ---------------------------------------------------------------- filling

  /** A walk over all the cells of a matrix, as many as the array has. */
  ghost predicate Tour(mat: array2<int>, arr: array<int>, path: seq<Cell>) {
    |path| == arr.Length && Distinct(path) && InBounds(mat, path)
  }

  /** The cells before the one that takes arr[d] hold their values. */
  ghost predicate Written(mat: array2<int>, arr: array<int>, path: seq<Cell>, d: int)
    requires Tour(mat, arr, path)
    reads mat, arr
  {
    && -1 <= d < arr.Length
    && forall t | 0 <= t < arr.Length - 1 - d :: mat[path[t].0, path[t].1] == arr[arr.Length - 1 - t]
  }

  /** mat[i][j] = arr[d--] */
  method Put(mat: array2<int>, arr: array<int>, d0: int, i: int, j: int, ghost path: seq<Cell>) returns (d: int)
    requires Tour(mat, arr, path) && Written(mat, arr, path, d0) && d0 >= 0
    requires path[arr.Length - 1 - d0] == (i, j)
    modifies mat
    ensures d == d0 - 1 && Written(mat, arr, path, d)
  {
    mat[i, j] := arr[d0];
    d := d0 - 1;
  }

  lemma HeadOff(path: seq<Cell>, p: nat, c: Cell, side: seq<Cell>, rest: seq<Cell>)
    requires p <= |path| && path[p..] == ([c] + side) + rest
    ensures p < |path| && path[p] == c && path[p + 1..] == side + rest
  {
    assert path[p..][0] == c && path[p..][1..] == side + rest;
  }

  method FillRow(mat: array2<int>, arr: array<int>, d0: int, k: int, l: int, n: int,
                 ghost path: seq<Cell>, ghost rest: seq<Cell>) returns (d: int)
    requires Tour(mat, arr, path) && Written(mat, arr, path, d0)
    requires path[arr.Length - 1 - d0..] == Row(k, l, n) + rest
    modifies mat
    ensures Written(mat, arr, path, d) && path[arr.Length - 1 - d..] == rest
  {
    d := d0;
    var i := l;
    while i < n
      invariant Written(mat, arr, path, d)
      invariant path[arr.Length - 1 - d..] == Row(k, i, n) + rest
    {
      HeadOff(path, arr.Length - 1 - d, (k, i), Row(k, i + 1, n), rest);
      d := Put(mat, arr, d, k, i, path);
      i := i + 1;
    }
  }

  method FillColumn(mat: array2<int>, arr: array<int>, d0: int, j: int, k: int, m: int,
                    ghost path: seq<Cell>, ghost rest: seq<Cell>) returns (d: int)
    requires Tour(mat, arr, path) && Written(mat, arr, path, d0)
    requires path[arr.Length - 1 - d0..] == Col(j, k, m) + rest
    modifies mat
    ensures Written(mat, arr, path, d) && path[arr.Length - 1 - d..] == rest
  {
    d := d0;
    var i := k;
    while i < m
      invariant Written(mat, arr, path, d)
      invariant path[arr.Length - 1 - d..] == Col(j, i, m) + rest
    {
      HeadOff(path, arr.Length - 1 - d, (i, j), Col(j, i + 1, m), rest);
      d := Put(mat, arr, d, i, j, path);
      i := i + 1;
    }
  }

  method FillRowBack(mat: array2<int>, arr: array<int>, d0: int, k: int, n: int, l: int,
                     ghost path: seq<Cell>, ghost rest: seq<Cell>) returns (d: int)
    requires Tour(mat, arr, path) && Written(mat, arr, path, d0)
    requires path[arr.Length - 1 - d0..] == RowBack(k, n - 1, l) + rest
    modifies mat
    ensures Written(mat, arr, path, d) && path[arr.Length - 1 - d..] == rest
  {
    d := d0;
    var i := n - 1;
    while i >= l
      invariant Written(mat, arr, path, d)
      invariant path[arr.Length - 1 - d..] == RowBack(k, i, l) + rest
    {
      HeadOff(path, arr.Length - 1 - d, (k, i), RowBack(k, i - 1, l), rest);
      d := Put(mat, arr, d, k, i, path);
      i := i - 1;
    }
  }

  method FillColumnBack(mat: array2<int>, arr: array<int>, d0: int, j: int, m: int, k: int,
                        ghost path: seq<Cell>, ghost rest: seq<Cell>) returns (d: int)
    requires Tour(mat, arr, path) && Written(mat, arr, path, d0)
    requires path[arr.Length - 1 - d0..] == ColBack(j, m - 1, k) + rest
    modifies mat
    ensures Written(mat, arr, path, d) && path[arr.Length - 1 - d..] == rest
  {
    d := d0;
    var i := m - 1;
    while i >= k
      invariant Written(mat, arr, path, d)
      invariant path[arr.Length - 1 - d..] == ColBack(j, i, k) + rest
    {
      HeadOff(path, arr.Length - 1 - d, (i, j), ColBack(j, i - 1, k), rest);
      d := Put(mat, arr, d, i, j, path);
      i := i - 1;
    }
  }

  /** Writes the array into the matrix along the spiral, from its last element
      on; each element is used once and the index ends at -1. */
  method FillMatrix(mat: array2<int>, arr: array<int>) returns (d: int)
    requires arr.Length == mat.Length0 * mat.Length1
    requires Fits(mat.Length0, mat.Length1)
    modifies mat
    ensures d == -1
    ensures Walk(Rightwards, Rect(0, 0, mat.Length0, mat.Length1)) == Spiral(mat.Length0, mat.Length1)
    ensures Tour(mat, arr, Spiral(mat.Length0, mat.Length1))
    ensures forall t | 0 <= t < arr.Length ::
      Entries(mat, Spiral(mat.Length0, mat.Length1))[t] == arr[arr.Length - 1 - t]
  {
    SpiralShape(mat.Length0, mat.Length1);
    WalkIsSpiral(mat.Length0, mat.Length1);
    ghost var path := Spiral(mat.Length0, mat.Length1);
    SpiralInBounds(mat);
    var k, l, m, n := 0, 0, mat.Length0, mat.Length1;
    d := arr.Length - 1;
    while k < m && l < n
      invariant 0 <= l && n <= mat.Length1
      invariant Written(mat, arr, path, d) && Left(path, arr.Length, d, Rightwards, Rect(k, l, m, n))
      decreases m - k + n - l
    {
      d, k := TopSide(mat, arr, d, k, l, m, n, path);
      d, n := RightSide(mat, arr, d, k, l, m, n, path);
      d, m := BottomSide(mat, arr, d, k, l, m, n, path);
      d, l := LeftSide(mat, arr, d, k, l, m, n, path);
    }
  }

  lemma SpiralInBounds(mat: array2<int>)
    ensures InBounds(mat, Spiral(mat.Length0, mat.Length1))
  {
    var path := Spiral(mat.Length0, mat.Length1);
    SpiralShape(mat.Length0, mat.Length1);
    forall t | 0 <= t < |path|
      ensures 0 <= path[t].0 < mat.Length0 && 0 <= path[t].1 < mat.Length1
    {
      assert path[t] in path;
    }
  }

  /** The walk so far: what is left of the spiral is the one over `r`. */
  ghost predicate Left(path: seq<Cell>, length: nat, d: int, dir: Dir, r: Rect)
    requires 0 <= length - 1 - d <= |path|
  {
    Bounds(dir, r) && FitsFrom(dir, r) && path[length - 1 - d..] == Path(dir, r)
  }

  /** The four inner loops, each with the bound that it moves. */
  method TopSide(mat: array2<int>, arr: array<int>, d0: int, k0: int, l: int, m: int, n: int, ghost path: seq<Cell>)
    returns (d: int, k: int)
    requires Tour(mat, arr, path) && Written(mat, arr, path, d0) && k0 < m && l < n
    requires Left(path, arr.Length, d0, Rightwards, Rect(k0, l, m, n))
    modifies mat
    ensures k == k0 + 1 && Written(mat, arr, path, d) && Left(path, arr.Length, d, Downwards, Rect(k, l, m, n))
  {
    Advance(Rightwards, Rect(k0, l, m, n));
    d := FillRow(mat, arr, d0, k0, l, n, path, Path(Downwards, Rect(k0 + 1, l, m, n)));
    k := k0 + 1;
  }

  method RightSide(mat: array2<int>, arr: array<int>, d0: int, k: int, l: int, m: int, n0: int, ghost path: seq<Cell>)
    returns (d: int, n: int)
    requires Tour(mat, arr, path) && Written(mat, arr, path, d0)
    requires Left(path, arr.Length, d0, Downwards, Rect(k, l, m, n0))
    modifies mat
    ensures n == n0 - 1 && Written(mat, arr, path, d) && Left(path, arr.Length, d, Leftwards, Rect(k, l, m, n))
  {
    Advance(Downwards, Rect(k, l, m, n0));
    d := FillColumn(mat, arr, d0, n0 - 1, k, m, path, Path(Leftwards, Rect(k, l, m, n0 - 1)));
    n := n0 - 1;
  }

  method BottomSide(mat: array2<int>, arr: array<int>, d0: int, k: int, l: int, m0: int, n: int, ghost path: seq<Cell>)
    returns (d: int, m: int)
    requires Tour(mat, arr, path) && Written(mat, arr, path, d0)
    requires Left(path, arr.Length, d0, Leftwards, Rect(k, l, m0, n))
    modifies mat
    ensures m == if k < m0 then m0 - 1 else m0
    ensures Written(mat, arr, path, d) && Left(path, arr.Length, d, Upwards, Rect(k, l, m, n))
  {
    d, m := d0, m0;
    if k < m {
      Advance(Leftwards, Rect(k, l, m, n));
      d := FillRowBack(mat, arr, d, m - 1, n, l, path, Path(Upwards, Rect(k, l, m - 1, n)));
      m := m - 1;
    }
  }

  method LeftSide(mat: array2<int>, arr: array<int>, d0: int, k: int, l0: int, m: int, n: int, ghost path: seq<Cell>)
    returns (d: int, l: int)
    requires Tour(mat, arr, path) && Written(mat, arr, path, d0) && l0 < mat.Length1
    requires Left(path, arr.Length, d0, Upwards, Rect(k, l0, m, n))
    modifies mat
    ensures l == l0 + 1 && Written(mat, arr, path, d) && Left(path, arr.Length, d, Rightwards, Rect(k, l, m, n))
  {
    d, l := d0, l0;
    if l < mat.Length1 {
      Advance(Upwards, Rect(k, l, m, n));
      d := FillColumnBack(mat, arr, d, l, m, k, path, Path(Rightwards, Rect(k, l + 1, m, n)));
      l := l + 1;
    }
  }

  // ------------------------------------------------------------- flattening

  /** The cells of the first `i` rows, row by row. */
  function RowMajor(i: nat, cols: nat): seq<Cell> {
    if i == 0 then [] else RowMajor(i - 1, cols) + Row(i - 1, 0, cols)
  }

  lemma {:induction false} RowMajorLength(i: nat, cols: nat)
    ensures |RowMajor(i, cols)| == i * cols
  {
    if i > 0 {
      RowMajorLength(i - 1, cols);
      assert i * cols == (i - 1) * cols + cols;
    }
  }

  lemma {:induction false} RowMajorAt(rows: nat, cols: nat, i: nat, j: nat)
    requires i < rows && j < cols
    ensures i * cols + j < |RowMajor(rows, cols)| && RowMajor(rows, cols)[i * cols + j] == (i, j)
  {
    RowMajorLength(rows - 1, cols);
    if i < rows - 1 {
      RowMajorAt(rows - 1, cols, i, j);
    } else {
      RowCells(rows - 1, 0, cols);
    }
  }

  lemma {:induction false} RowMajorOnce(rows: nat, cols: nat, c: Cell)
    ensures Visits(RowMajor(rows, cols), c) == if Rect(0, 0, rows, cols).Has(c) then 1 else 0
  {
    if rows > 0 {
      RowOnce(rows - 1, 0, cols, c);
      RowMajorOnce(rows - 1, cols, c);
      VisitsAppend(RowMajor(rows - 1, cols), Row(rows - 1, 0, cols), c);
    }
  }

  lemma RowMajorInBounds(mat: array2<int>)
    ensures InBounds(mat, RowMajor(mat.Length0, mat.Length1))
  {
    var cells := RowMajor(mat.Length0, mat.Length1);
    forall t | 0 <= t < |cells|
      ensures 0 <= cells[t].0 < mat.Length0 && 0 <= cells[t].1 < mat.Length1
    {
      RowMajorOnce(mat.Length0, mat.Length1, cells[t]);
      VisitsCount(cells, cells[t]);
      assert cells[t] in multiset(cells);
    }
  }

  /** Copies the matrix into the array, row by row. */
  method FillArray(mat: array2<int>, arr: array<int>)
    requires arr.Length == mat.Length0 * mat.Length1
    modifies arr
    ensures InBounds(mat, RowMajor(mat.Length0, mat.Length1))
    ensures arr[..] == Entries(mat, RowMajor(mat.Length0, mat.Length1))
  {
    var rows, cols := mat.Length0, mat.Length1;
    ghost var cells := RowMajor(rows, cols);
    RowMajorInBounds(mat);
    RowMajorLength(rows, cols);
    for i := 0 to rows
      invariant i * cols <= arr.Length
      invariant forall t | 0 <= t < i * cols :: arr[t] == mat[cells[t].0, cells[t].1]
    {
      RowFits(i, rows, cols);
      for j := 0 to cols
        invariant forall t | 0 <= t < i * cols + j :: arr[t] == mat[cells[t].0, cells[t].1]
      {
        RowMajorAt(rows, cols, i, j);
        arr[i * cols + j] := mat[i, j];
      }
    }
  }

  lemma RowFits(i: nat, rows: nat, cols: nat)
    requires i < rows
    ensures (i + 1) * cols == i * cols + cols <= rows * cols
  {
    assert rows * cols == (i + 1) * cols + (rows - i - 1) * cols;
  }

  // ---------------------------------------------------------------- sorting

  /** 32-bit wrap-around, as two's complement machines do it. */
  function Wrap32(v: int): int {
    (v + 0x8000_0000) % 0x1_0000_0000 - 0x8000_0000
  }

  /** The comparator: a difference of ints. */
  function CmpInt(lhs: int, rhs: int): int {
    Wrap32(lhs - rhs)
  }

  predicate Near(x: int, y: int) {
    -0x8000_0000 <= x - y < 0x8000_0000
  }

  predicate Int32(x: int) {
    -0x8000_0000 <= x < 0x8000_0000
  }

  /** The comparator tells the order of two ints exactly when their difference
      is an int again. */
  lemma CmpIntExact(x: int, y: int)
    requires Int32(x) && Int32(y)
    ensures (CmpInt(x, y) <= 0 <==> x <= y) <==> Near(x, y)
  {
  }

  /** The largest int and -1: the difference wraps to the smallest int, so the
      larger one comes out as the smaller. */
  lemma CmpIntWraps()
    ensures CmpInt(0x7FFF_FFFF, -1) == -0x8000_0000 && !Near(0x7FFF_FFFF, -1)
  {
  }

  predicate Comparable(s: seq<int>) {
    forall i, j | 0 <= i < |s| && 0 <= j < |s| :: Near(s[i], s[j])
  }

  predicate NonDecreasing(s: seq<int>) {
    forall i, j | 0 <= i < j < |s| :: s[i] <= s[j]
  }

  predicate NonIncreasing(s: seq<int>) {
    forall i, j | 0 <= i < j < |s| :: s[i] >= s[j]
  }

  function Insert(x: int, s: seq<int>): (r: seq<int>)
    ensures multiset(r) == multiset{x} + multiset(s)
  {
    if s == [] then [x]
    else if CmpInt(x, s[0]) <= 0 then [x] + s
    else
      assert s == [s[0]] + s[1..];
      [s[0]] + Insert(x, s[1..])
  }

  function Sorted(s: seq<int>): (r: seq<int>)
    ensures multiset(r) == multiset(s)
  {
    if s == [] then []
    else
      assert s == [s[0]] + s[1..];
      Insert(s[0], Sorted(s[1..]))
  }

  lemma {:induction false} InsertSorts(x: int, s: seq<int>)
    requires NonDecreasing(s) && forall i | 0 <= i < |s| :: Near(x, s[i])
    ensures NonDecreasing(Insert(x, s))
  {
    if s != [] && CmpInt(x, s[0]) > 0 {
      InsertSorts(x, s[1..]);
      InsertBounded(s[0], x, s[1..]);
      InFront(s[0], Insert(x, s[1..]));
    }
  }

  lemma InsertBounded(low: int, x: int, s: seq<int>)
    requires low <= x && forall i | 0 <= i < |s| :: low <= s[i]
    ensures forall i | 0 <= i < |Insert(x, s)| :: low <= Insert(x, s)[i]
  {
    var r := Insert(x, s);
    forall i | 0 <= i < |r|
      ensures low <= r[i]
    {
      assert r[i] in multiset(r);
      assert r[i] == x || r[i] in s;
    }
  }

  lemma InFront(low: int, s: seq<int>)
    requires NonDecreasing(s) && forall i | 0 <= i < |s| :: low <= s[i]
    ensures NonDecreasing([low] + s)
  {
  }

  lemma {:induction false} SortedSorts(s: seq<int>)
    requires Comparable(s)
    ensures NonDecreasing(Sorted(s))
  {
    if s != [] {
      SortedSorts(s[1..]);
      var r := Sorted(s[1..]);
      forall i | 0 <= i < |r|
        ensures Near(s[0], r[i])
      {
        assert r[i] in multiset(s[1..]);
      }
      InsertSorts(s[0], r);
    }
  }

  /** qsort() with the comparator above. */
  method Qsort(a: array<int>)
    requires Comparable(a[..])
    modifies a
    ensures NonDecreasing(a[..]) && multiset(a[..]) == multiset(old(a[..]))
  {
    var s := Sorted(a[..]);
    SortedSorts(a[..]);
    assert |s| == |multiset(s)| == |multiset(a[..])| == a.Length;
    forall i | 0 <= i < a.Length {
      a[i] := s[i];
    }
    assert a[..] == s;
  }

  // -------------------------------------------------------- sort the matrix

  lemma MultisetSplit<T>(s: seq<T>, i: nat)
    requires i < |s|
    ensures multiset(s) == multiset(s[..i] + s[i + 1..]) + multiset{s[i]}
  {
    assert s == s[..i] + [s[i]] + s[i + 1..];
  }

  /** Two walks over the same cells meet the same entries. */
  lemma {:induction false} SameEntries(mat: array2<int>, a: seq<Cell>, b: seq<Cell>)
    requires InBounds(mat, a) && InBounds(mat, b) && multiset(a) == multiset(b)
    ensures multiset(Entries(mat, a)) == multiset(Entries(mat, b))
    decreases |a|
  {
    if a == [] {
      assert |multiset(b)| == 0;
    } else {
      assert a[0] in multiset(b);
      var i :| 0 <= i < |b| && b[i] == a[0];
      SameRest(a, b, i);
      EntriesRemove(mat, b, i);
      EntriesRemove(mat, a, 0);
      SameEntries(mat, a[..0] + a[1..], b[..i] + b[i + 1..]);
    }
  }

  lemma SameRest<T>(a: seq<T>, b: seq<T>, i: nat)
    requires multiset(a) == multiset(b) && a != [] && i < |b| && b[i] == a[0]
    ensures multiset(a[..0] + a[1..]) == multiset(b[..i] + b[i + 1..])
  {
    MultisetSplit(a, 0);
    MultisetSplit(b, i);
    assert multiset(a[..0] + a[1..]) == multiset(a) - multiset{a[0]};
    assert multiset(b[..i] + b[i + 1..]) == multiset(b) - multiset{a[0]};
  }

  lemma EntriesRemove(mat: array2<int>, b: seq<Cell>, i: nat)
    requires InBounds(mat, b) && i < |b|
    ensures InBounds(mat, b[..i] + b[i + 1..])
    ensures multiset(Entries(mat, b)) ==
      multiset(Entries(mat, b[..i] + b[i + 1..])) + multiset{mat[b[i].0, b[i].1]}
  {
    var e := Entries(mat, b);
    MultisetSplit(e, i);
    assert Entries(mat, b[..i] + b[i + 1..]) == e[..i] + e[i + 1..];
  }

  function Reversed(s: seq<int>): (r: seq<int>)
    ensures |r| == |s|
    ensures forall t | 0 <= t < |s| :: r[t] == s[|s| - 1 - t]
    ensures multiset(r) == multiset(s)
  {
    if s == [] then []
    else
      assert s == [s[0]] + s[1..];
      Reversed(s[1..]) + [s[0]]
  }

  lemma SpiralIsPermutation(rows: nat, cols: nat)
    ensures multiset(Spiral(rows, cols)) == multiset(RowMajor(rows, cols))
  {
    forall c
      ensures multiset(Spiral(rows, cols))[c] == multiset(RowMajor(rows, cols))[c]
    {
      PathOnce(Rightwards, Rect(0, 0, rows, cols), c);
      RowMajorOnce(rows, cols, c);
      VisitsCount(Spiral(rows, cols), c);
      VisitsCount(RowMajor(rows, cols), c);
    }
  }

  /** Sorts a matrix: it keeps its entries, with their multiplicities, and they
      do not increase along the inward spiral. */
  method SortSnakeLike(mat: array2<int>)
    requires Fits(mat.Length0, mat.Length1)
    requires InBounds(mat, RowMajor(mat.Length0, mat.Length1))
    requires Comparable(Entries(mat, RowMajor(mat.Length0, mat.Length1)))
    modifies mat
    ensures InBounds(mat, Spiral(mat.Length0, mat.Length1))
    ensures multiset(Entries(mat, RowMajor(mat.Length0, mat.Length1))) ==
      multiset(old(Entries(mat, RowMajor(mat.Length0, mat.Length1))))
    ensures NonIncreasing(Entries(mat, Spiral(mat.Length0, mat.Length1)))
  {
    var temp := new int[mat.Length0 * mat.Length1];
    FillArray(mat, temp);
    Qsort(temp);
    ghost var sorted := temp[..];
    var d := FillMatrix(mat, temp);
    SpiralEnd(mat, sorted);
  }

  /** A sorted array, written backwards along the spiral. */
  lemma SpiralEnd(mat: array2<int>, sorted: seq<int>)
    requires NonDecreasing(sorted)
    requires InBounds(mat, Spiral(mat.Length0, mat.Length1))
    requires |Spiral(mat.Length0, mat.Length1)| == |sorted|
    requires forall t | 0 <= t < |sorted| ::
      Entries(mat, Spiral(mat.Length0, mat.Length1))[t] == sorted[|sorted| - 1 - t]
    ensures InBounds(mat, RowMajor(mat.Length0, mat.Length1))
    ensures multiset(Entries(mat, RowMajor(mat.Length0, mat.Length1))) == multiset(sorted)
    ensures NonIncreasing(Entries(mat, Spiral(mat.Length0, mat.Length1)))
  {
    var cells, path := RowMajor(mat.Length0, mat.Length1), Spiral(mat.Length0, mat.Length1);
    RowMajorInBounds(mat);
    assert Entries(mat, path) == Reversed(sorted);
    SpiralIsPermutation(mat.Length0, mat.Length1);
    SameEntries(mat, path, cells);
  }
}
