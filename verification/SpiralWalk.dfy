/** The inward spiral over a rectangle of cells, and the walk that the matrix
    filler makes. */
module SpiralWalk {
  import opened Common

  type Cell = (int, int)  // row, column

  datatype Dir = Rightwards | Downwards | Leftwards | Upwards

  // ------------------------------------------------------- arms of the spiral

  function Row(k: int, i: int, n: int): (r: seq<Cell>)
    ensures |r| == if i < n then n - i else 0
    decreases n - i
  {
    if i >= n then [] else [(k, i)] + Row(k, i + 1, n)
  }

  function RowBack(k: int, i: int, l: int): (r: seq<Cell>)
    ensures |r| == if i >= l then i - l + 1 else 0
    decreases i - l
  {
    if i < l then [] else [(k, i)] + RowBack(k, i - 1, l)
  }

  function Col(j: int, i: int, m: int): (r: seq<Cell>)
    ensures |r| == if i < m then m - i else 0
    decreases m - i
  {
    if i >= m then [] else [(i, j)] + Col(j, i + 1, m)
  }

  function ColBack(j: int, i: int, k: int): (r: seq<Cell>)
    ensures |r| == if i >= k then i - k + 1 else 0
    decreases i - k
  {
    if i < k then [] else [(i, j)] + ColBack(j, i - 1, k)
  }

  /** Rows k..m and columns l..n. */
  datatype Rect = Rect(k: int, l: int, m: int, n: int) {
    predicate Empty() { k >= m || l >= n }

    predicate Has(c: Cell) { k <= c.0 < m && l <= c.1 < n }

    /** The side that is walked in a direction. */
    function Side(dir: Dir): seq<Cell> {
      match dir
      case Rightwards => Row(k, l, n)
      case Downwards => Col(n - 1, k, m)
      case Leftwards => RowBack(m - 1, n - 1, l)
      case Upwards => ColBack(l, m - 1, k)
    }

    /** What is left without that side. */
    function Without(dir: Dir): Rect {
      match dir
      case Rightwards => Rect(k + 1, l, m, n)
      case Downwards => Rect(k, l, m, n - 1)
      case Leftwards => Rect(k, l, m - 1, n)
      case Upwards => Rect(k, l + 1, m, n)
    }

    /** Where a walk in a direction begins. */
    function Corner(dir: Dir): Cell {
      match dir
      case Rightwards => (k, l)
      case Downwards => (k, n - 1)
      case Leftwards => (m - 1, n - 1)
      case Upwards => (m - 1, l)
    }
  }

  function Turn(dir: Dir): Dir {
    match dir
    case Rightwards => Downwards
    case Downwards => Leftwards
    case Leftwards => Upwards
    case Upwards => Rightwards
  }

  /** The clockwise inward spiral over a rectangle: one whole side, then, after
      a turn, the spiral over what is left. */
  function Path(dir: Dir, r: Rect): seq<Cell>
    decreases r.m - r.k + r.n - r.l
  {
    if r.Empty() then [] else r.Side(dir) + Path(Turn(dir), r.Without(dir))
  }

  function Spiral(rows: nat, cols: nat): seq<Cell> {
    Path(Rightwards, Rect(0, 0, rows, cols))
  }

  // ------------------------------------------------ it is the inward spiral

  /** How often a walk visits a cell. */
  function Visits(path: seq<Cell>, c: Cell): nat {
    if path == [] then 0 else (if path[0] == c then 1 else 0) + Visits(path[1..], c)
  }

  lemma {:induction false} VisitsAppend(a: seq<Cell>, b: seq<Cell>, c: Cell)
    ensures Visits(a + b, c) == Visits(a, c) + Visits(b, c)
    decreases |a|
  {
    if a == [] {
      assert a + b == b;
    } else {
      assert (a + b)[0] == a[0] && (a + b)[1..] == a[1..] + b;
      VisitsAppend(a[1..], b, c);
    }
  }

  lemma {:induction false} VisitsCount(path: seq<Cell>, c: Cell)
    ensures Visits(path, c) == multiset(path)[c]
  {
    if path != [] {
      VisitsCount(path[1..], c);
      assert path == [path[0]] + path[1..];
    }
  }

  lemma {:induction false} RowOnce(k: int, i: int, n: int, c: Cell)
    ensures Visits(Row(k, i, n), c) == if c.0 == k && i <= c.1 < n then 1 else 0
    decreases n - i
  {
    if i < n {
      assert Row(k, i, n)[1..] == Row(k, i + 1, n);
      RowOnce(k, i + 1, n, c);
    }
  }

  lemma {:induction false} RowBackOnce(k: int, i: int, l: int, c: Cell)
    ensures Visits(RowBack(k, i, l), c) == if c.0 == k && l <= c.1 <= i then 1 else 0
    decreases i - l
  {
    if i >= l {
      assert RowBack(k, i, l)[1..] == RowBack(k, i - 1, l);
      RowBackOnce(k, i - 1, l, c);
    }
  }

  lemma {:induction false} ColOnce(j: int, i: int, m: int, c: Cell)
    ensures Visits(Col(j, i, m), c) == if c.1 == j && i <= c.0 < m then 1 else 0
    decreases m - i
  {
    if i < m {
      assert Col(j, i, m)[1..] == Col(j, i + 1, m);
      ColOnce(j, i + 1, m, c);
    }
  }

  lemma {:induction false} ColBackOnce(j: int, i: int, k: int, c: Cell)
    ensures Visits(ColBack(j, i, k), c) == if c.1 == j && k <= c.0 <= i then 1 else 0
    decreases i - k
  {
    if i >= k {
      assert ColBack(j, i, k)[1..] == ColBack(j, i - 1, k);
      ColBackOnce(j, i - 1, k, c);
    }
  }

  lemma SideOnce(dir: Dir, r: Rect, c: Cell)
    requires !r.Empty()
    ensures Visits(r.Side(dir), c) == if r.Has(c) && !r.Without(dir).Has(c) then 1 else 0
  {
    match dir
    case Rightwards => RowOnce(r.k, r.l, r.n, c);
    case Downwards => ColOnce(r.n - 1, r.k, r.m, c);
    case Leftwards => RowBackOnce(r.m - 1, r.n - 1, r.l, c);
    case Upwards => ColBackOnce(r.l, r.m - 1, r.k, c);
  }

  /** Every cell of the rectangle is visited once, and no other cell is. */
  lemma {:induction false} PathOnce(dir: Dir, r: Rect, c: Cell)
    ensures Visits(Path(dir, r), c) == if r.Has(c) then 1 else 0
    decreases r.m - r.k + r.n - r.l
  {
    if !r.Empty() {
      SideOnce(dir, r, c);
      PathOnce(Turn(dir), r.Without(dir), c);
      VisitsAppend(r.Side(dir), Path(Turn(dir), r.Without(dir)), c);
    }
  }

  function Area(r: Rect): int { (r.m - r.k) * (r.n - r.l) }

  lemma SideLength(dir: Dir, r: Rect)
    requires r.k <= r.m && r.l <= r.n
    ensures |r.Side(dir)| == Area(r) - Area(r.Without(dir))
  {
    var h, w := r.m - r.k, r.n - r.l;
    assert (h - 1) * w == h * w - w;
    assert h * (w - 1) == h * w - h;
  }

  lemma {:induction false} PathLength(dir: Dir, r: Rect)
    requires r.k <= r.m && r.l <= r.n
    ensures |Path(dir, r)| == Area(r)
    decreases r.m - r.k + r.n - r.l
  {
    if !r.Empty() {
      SideLength(dir, r);
      PathLength(Turn(dir), r.Without(dir));
    }
  }

  predicate Touching(a: Cell, b: Cell) {
    || (a.0 == b.0 && (a.1 == b.1 + 1 || b.1 == a.1 + 1))
    || (a.1 == b.1 && (a.0 == b.0 + 1 || b.0 == a.0 + 1))
  }

  predicate Connected(path: seq<Cell>) {
    forall t | 0 < t < |path| :: Touching(path[t - 1], path[t])
  }

  lemma Join(a: seq<Cell>, b: seq<Cell>)
    requires Connected(a) && Connected(b)
    requires a != [] && b != [] ==> Touching(a[|a| - 1], b[0])
    ensures Connected(a + b)
  {
    var ab := a + b;
    forall t | 0 < t < |ab|
      ensures Touching(ab[t - 1], ab[t])
    {
      if t > |a| {
        assert ab[t - 1] == b[t - 1 - |a|] && ab[t] == b[t - |a|];
      }
    }
  }

  lemma {:induction false} RowCells(k: int, i: int, n: int)
    ensures Connected(Row(k, i, n))
    ensures forall t | 0 <= t < n - i :: Row(k, i, n)[t] == (k, i + t)
    decreases n - i
  {
    if i < n {
      RowCells(k, i + 1, n);
      Join([(k, i)], Row(k, i + 1, n));
    }
  }

  lemma {:induction false} RowBackCells(k: int, i: int, l: int)
    ensures Connected(RowBack(k, i, l))
    ensures forall t | 0 <= t <= i - l :: RowBack(k, i, l)[t] == (k, i - t)
    decreases i - l
  {
    if i >= l {
      RowBackCells(k, i - 1, l);
      Join([(k, i)], RowBack(k, i - 1, l));
    }
  }

  lemma {:induction false} ColCells(j: int, i: int, m: int)
    ensures Connected(Col(j, i, m))
    ensures forall t | 0 <= t < m - i :: Col(j, i, m)[t] == (i + t, j)
    decreases m - i
  {
    if i < m {
      ColCells(j, i + 1, m);
      Join([(i, j)], Col(j, i + 1, m));
    }
  }

  lemma {:induction false} ColBackCells(j: int, i: int, k: int)
    ensures Connected(ColBack(j, i, k))
    ensures forall t | 0 <= t <= i - k :: ColBack(j, i, k)[t] == (i - t, j)
    decreases i - k
  {
    if i >= k {
      ColBackCells(j, i - 1, k);
      Join([(i, j)], ColBack(j, i - 1, k));
    }
  }

  lemma SideConnected(dir: Dir, r: Rect)
    requires !r.Empty()
    ensures Connected(r.Side(dir)) && r.Side(dir) != [] && r.Side(dir)[0] == r.Corner(dir)
    ensures !r.Without(dir).Empty() ==>
      Touching(r.Side(dir)[|r.Side(dir)| - 1], r.Without(dir).Corner(Turn(dir)))
  {
    match dir
    case Rightwards => RowCells(r.k, r.l, r.n);
    case Downwards => ColCells(r.n - 1, r.k, r.m);
    case Leftwards => RowBackCells(r.m - 1, r.n - 1, r.l);
    case Upwards => ColBackCells(r.l, r.m - 1, r.k);
  }

  /** The walk never jumps: consecutive cells share a border. */
  lemma {:induction false} PathConnected(dir: Dir, r: Rect)
    ensures Connected(Path(dir, r))
    ensures !r.Empty() ==> Path(dir, r) != [] && Path(dir, r)[0] == r.Corner(dir)
    decreases r.m - r.k + r.n - r.l
  {
    if !r.Empty() {
      SideConnected(dir, r);
      PathConnected(Turn(dir), r.Without(dir));
      Join(r.Side(dir), Path(Turn(dir), r.Without(dir)));
    }
  }

  function Min(a: int, b: int): int { if a <= b then a else b }

  /** How far a cell is from the border of a rows x cols matrix. */
  function Ring(c: Cell, rows: int, cols: int): int {
    Min(Min(c.0, c.1), Min(rows - 1 - c.0, cols - 1 - c.1))
  }

  /** The sides that the spiral has already taken off ring `t`. */
  predicate OnRing(dir: Dir, r: Rect, rows: int, cols: int, t: int) {
    match dir
    case Rightwards => r == Rect(t, t, rows - t, cols - t)
    case Downwards => r == Rect(t + 1, t, rows - t, cols - t)
    case Leftwards => r == Rect(t + 1, t, rows - t, cols - t - 1)
    case Upwards => r == Rect(t + 1, t, rows - t - 1, cols - t - 1)
  }

  predicate Inward(path: seq<Cell>, rows: int, cols: int, t: int) {
    && (forall a | 0 <= a < |path| :: Ring(path[a], rows, cols) >= t)
    && (forall a, b | 0 <= a <= b < |path| :: Ring(path[a], rows, cols) <= Ring(path[b], rows, cols))
  }

  lemma InwardJoin(side: seq<Cell>, rest: seq<Cell>, rows: int, cols: int, t: int)
    requires forall a | 0 <= a < |side| :: Ring(side[a], rows, cols) == t
    requires Inward(rest, rows, cols, t)
    ensures Inward(side + rest, rows, cols, t)
  {
    var p := side + rest;
    assert forall a | |side| <= a < |p| :: p[a] == rest[a - |side|];
  }

  lemma SideOnRing(dir: Dir, r: Rect, rows: int, cols: int, t: int)
    requires !r.Empty() && OnRing(dir, r, rows, cols, t)
    ensures forall a | 0 <= a < |r.Side(dir)| :: Ring(r.Side(dir)[a], rows, cols) == t
    ensures OnRing(Turn(dir), r.Without(dir), rows, cols, if dir.Upwards? then t + 1 else t)
  {
    match dir
    case Rightwards => RowCells(r.k, r.l, r.n);
    case Downwards => ColCells(r.n - 1, r.k, r.m);
    case Leftwards => RowBackCells(r.m - 1, r.n - 1, r.l);
    case Upwards => ColBackCells(r.l, r.m - 1, r.k);
  }

  /** The spiral goes inwards: it finishes each ring before a deeper one. */
  lemma {:induction false} PathInward(dir: Dir, r: Rect, rows: int, cols: int, t: int)
    requires OnRing(dir, r, rows, cols, t)
    ensures Inward(Path(dir, r), rows, cols, t)
    decreases r.m - r.k + r.n - r.l
  {
    if !r.Empty() {
      SideOnRing(dir, r, rows, cols, t);
      PathInward(Turn(dir), r.Without(dir), rows, cols, if dir.Upwards? then t + 1 else t);
      InwardJoin(r.Side(dir), Path(Turn(dir), r.Without(dir)), rows, cols, t);
    }
  }

  predicate Distinct(path: seq<Cell>) {
    forall a, b | 0 <= a < b < |path| :: path[a] != path[b]
  }

  lemma DistinctFromCounts(path: seq<Cell>)
    requires forall c :: multiset(path)[c] <= 1
    ensures Distinct(path)
  {
    forall a, b | 0 <= a < b < |path|
      ensures path[a] != path[b]
    {
      assert path == path[..b] + path[b..];
      assert path[a] in path[..b] && path[b] in path[b..];
      assert multiset(path)[path[b]] == multiset(path[..b])[path[b]] + multiset(path[b..])[path[b]];
    }
  }

  /** The spiral over a whole matrix: each cell once, in unit steps, ring after
      ring from the outside, beginning at the top left. */
  lemma SpiralShape(rows: nat, cols: nat)
    ensures |Spiral(rows, cols)| == rows * cols
    ensures Distinct(Spiral(rows, cols))
    ensures forall c :: c in Spiral(rows, cols) <==> Rect(0, 0, rows, cols).Has(c)
    ensures Connected(Spiral(rows, cols)) && Inward(Spiral(rows, cols), rows, cols, 0)
    ensures rows > 0 && cols > 0 ==> Spiral(rows, cols) != [] && Spiral(rows, cols)[0] == (0, 0)
  {
    PathLength(Rightwards, Rect(0, 0, rows, cols));
    forall c
      ensures multiset(Spiral(rows, cols))[c] == if Rect(0, 0, rows, cols).Has(c) then 1 else 0
    {
      PathOnce(Rightwards, Rect(0, 0, rows, cols), c);
      VisitsCount(Spiral(rows, cols), c);
    }
    DistinctFromCounts(Spiral(rows, cols));
    forall c
      ensures c in Spiral(rows, cols) <==> Rect(0, 0, rows, cols).Has(c)
    {
      assert c in Spiral(rows, cols) <==> c in multiset(Spiral(rows, cols));
    }
    PathConnected(Rightwards, Rect(0, 0, rows, cols));
    PathInward(Rightwards, Rect(0, 0, rows, cols), rows, cols, 0);
  }

  // ---------------------------------------------------- the walk of the code

  /** The rectangles that the bounds k, l, m, n of the code can describe before
      each of its four inner loops. */
  predicate Bounds(dir: Dir, r: Rect) {
    match dir
    case Rightwards => r.k <= r.m && r.l <= r.n + 1
    case Downwards => r.k <= r.m && r.l < r.n
    case Leftwards => r.k <= r.m && r.l <= r.n
    case Upwards => r.k <= r.m && r.l <= r.n
  }

  /** The cells in the order in which the four inner loops write them.  The
      first loop runs while the bounds leave something, the third one if rows
      are left; the second has no guard, and that of the fourth, `l < cols`,
      always holds there. */
  function Walk(dir: Dir, r: Rect): seq<Cell>
    requires Bounds(dir, r)
    decreases r.m - r.k + r.n - r.l, dir.Leftwards?
  {
    match dir
    case Rightwards =>
      if r.k < r.m && r.l < r.n then r.Side(dir) + Walk(Downwards, r.Without(dir)) else []
    case Downwards => r.Side(dir) + Walk(Leftwards, r.Without(dir))
    case Leftwards =>
      if r.k < r.m then r.Side(dir) + Walk(Upwards, r.Without(dir)) else Walk(Upwards, r)
    case Upwards => r.Side(dir) + Walk(Rightwards, r.Without(dir))
  }

  /** The sizes for which the walk is right: every square matrix is one. */
  predicate Fits(rows: int, cols: int) {
    cols % 2 == 0 || rows <= cols + 1
  }

  /** The same before each inner loop. */
  predicate FitsFrom(dir: Dir, r: Rect) {
    var h, w := r.m - r.k, r.n - r.l;
    match dir
    case Rightwards => w % 2 == 0 || h <= w + 1
    case Downwards => w % 2 == 0 || h <= w
    case Leftwards => w % 2 == 1 || h <= w + 1
    case Upwards => w % 2 == 1 || h <= w
  }

  lemma BoundsMove(dir: Dir, r: Rect)
    requires Bounds(dir, r) && FitsFrom(dir, r)
    requires dir.Rightwards? ==> !r.Empty()
    requires dir.Leftwards? ==> r.k < r.m
    ensures Bounds(Turn(dir), r.Without(dir)) && FitsFrom(Turn(dir), r.Without(dir))
    ensures r.Empty() ==> r.Without(dir).Empty()
  {
  }

  lemma EmptySide(dir: Dir, r: Rect)
    requires Bounds(dir, r) && FitsFrom(dir, r) && r.Empty() && !dir.Rightwards?
    requires dir.Leftwards? ==> r.k < r.m
    ensures r.Side(dir) == []
  {
  }

  /** One inner loop is one side of the spiral, also where nothing is left. */
  lemma Advance(dir: Dir, r: Rect)
    requires Bounds(dir, r) && FitsFrom(dir, r)
    requires dir.Rightwards? ==> !r.Empty()
    requires dir.Leftwards? ==> r.k < r.m
    ensures Path(dir, r) == r.Side(dir) + Path(Turn(dir), r.Without(dir))
    ensures Bounds(Turn(dir), r.Without(dir)) && FitsFrom(Turn(dir), r.Without(dir))
  {
    BoundsMove(dir, r);
    if r.Empty() {
      EmptySide(dir, r);
    }
  }

  lemma {:induction false} WalkIsPath(dir: Dir, r: Rect)
    requires Bounds(dir, r) && FitsFrom(dir, r)
    ensures Walk(dir, r) == Path(dir, r)
    decreases r.m - r.k + r.n - r.l, dir.Leftwards?
  {
    if dir.Rightwards? && r.Empty() {
    } else if dir.Leftwards? && r.k == r.m {
      WalkIsPath(Upwards, r);
    } else {
      Advance(dir, r);
      WalkIsPath(Turn(dir), r.Without(dir));
    }
  }

  lemma {:induction false} WalkLength(dir: Dir, r: Rect)
    requires Bounds(dir, r) && !FitsFrom(dir, r)
    ensures |Walk(dir, r)| == Area(r) + (r.m - r.k) - (r.n - r.l)
                              - if dir.Rightwards? || dir.Leftwards? then 1 else 0
    decreases r.m - r.k + r.n - r.l, dir.Leftwards?
  {
    if r.l <= r.n {
      SideLength(dir, r);
      WalkLength(Turn(dir), r.Without(dir));
    }
  }

  /** Exactly when the walk is the spiral.  Otherwise, with an odd number of
      columns and at least two rows more, it is longer than the matrix has
      cells, and the index into the array goes below zero. */
  lemma WalkIsSpiral(rows: nat, cols: nat)
    ensures Walk(Rightwards, Rect(0, 0, rows, cols)) == Spiral(rows, cols) <==> Fits(rows, cols)
    ensures !Fits(rows, cols) ==> |Walk(Rightwards, Rect(0, 0, rows, cols))| > rows * cols
  {
    var r := Rect(0, 0, rows, cols);
    if Fits(rows, cols) {
      WalkIsPath(Rightwards, r);
    } else {
      WalkLength(Rightwards, r);
      PathLength(Rightwards, r);
    }
  }

  // ------------------------------------------- the loops, without a matrix

  /** The first inner loop. */
  method TraceRow(before: seq<Cell>, k: int, l: int, n: int) returns (cells: seq<Cell>)
    ensures cells == before + Row(k, l, n)
  {
    cells := before;
    var i := l;
    while i < n
      invariant cells + Row(k, i, n) == before + Row(k, l, n)
    {
      Associative(cells, [(k, i)], Row(k, i + 1, n));
      cells := cells + [(k, i)];
      i := i + 1;
    }
  }

  /** The second. */
  method TraceColumn(before: seq<Cell>, j: int, k: int, m: int) returns (cells: seq<Cell>)
    ensures cells == before + Col(j, k, m)
  {
    cells := before;
    var i := k;
    while i < m
      invariant cells + Col(j, i, m) == before + Col(j, k, m)
    {
      Associative(cells, [(i, j)], Col(j, i + 1, m));
      cells := cells + [(i, j)];
      i := i + 1;
    }
  }

  /** The third. */
  method TraceRowBack(before: seq<Cell>, k: int, n: int, l: int) returns (cells: seq<Cell>)
    ensures cells == before + RowBack(k, n - 1, l)
  {
    cells := before;
    var i := n - 1;
    while i >= l
      invariant cells + RowBack(k, i, l) == before + RowBack(k, n - 1, l)
    {
      Associative(cells, [(k, i)], RowBack(k, i - 1, l));
      cells := cells + [(k, i)];
      i := i - 1;
    }
  }

  /** The fourth. */
  method TraceColumnBack(before: seq<Cell>, j: int, m: int, k: int) returns (cells: seq<Cell>)
    ensures cells == before + ColBack(j, m - 1, k)
  {
    cells := before;
    var i := m - 1;
    while i >= k
      invariant cells + ColBack(j, i, k) == before + ColBack(j, m - 1, k)
    {
      Associative(cells, [(i, j)], ColBack(j, i - 1, k));
      cells := cells + [(i, j)];
      i := i - 1;
    }
  }

  /** What is written and what is still to be written. */
  ghost predicate Tracing(cells: seq<Cell>, dir: Dir, r: Rect, all: seq<Cell>) {
    Bounds(dir, r) && cells + Walk(dir, r) == all
  }

  lemma SideDone(before: seq<Cell>, dir: Dir, r: Rect, all: seq<Cell>)
    requires Tracing(before, dir, r, all)
    requires dir.Rightwards? ==> !r.Empty()
    requires dir.Leftwards? ==> r.k < r.m
    ensures Tracing(before + r.Side(dir), Turn(dir), r.Without(dir), all)
  {
    Associative(before, r.Side(dir), Walk(Turn(dir), r.Without(dir)));
  }

  /** The first two inner loops, each with the bound that it moves. */
  method TraceAhead(before: seq<Cell>, k: int, l: int, m: int, n: int, ghost all: seq<Cell>)
    returns (cells: seq<Cell>)
    requires Tracing(before, Rightwards, Rect(k, l, m, n), all) && k < m && l < n
    ensures Tracing(cells, Leftwards, Rect(k + 1, l, m, n - 1), all)
  {
    SideDone(before, Rightwards, Rect(k, l, m, n), all);
    cells := TraceRow(before, k, l, n);
    SideDone(cells, Downwards, Rect(k + 1, l, m, n), all);
    cells := TraceColumn(cells, n - 1, k + 1, m);
  }

  /** The last two, with their guards. */
  method TraceBack(before: seq<Cell>, k: int, l0: int, m0: int, n: int, cols: int, ghost all: seq<Cell>)
    returns (cells: seq<Cell>, l: int, m: int)
    requires Tracing(before, Leftwards, Rect(k, l0, m0, n), all) && n < cols
    ensures l == l0 + 1 && m <= m0 && Tracing(cells, Rightwards, Rect(k, l, m, n), all)
  {
    cells, l, m := before, l0, m0;
    if k < m {
      SideDone(cells, Leftwards, Rect(k, l, m, n), all);
      cells := TraceRowBack(cells, m - 1, n, l);
      m := m - 1;
    }
    if l < cols {
      SideDone(cells, Upwards, Rect(k, l, m, n), all);
      cells := TraceColumnBack(cells, l, m, k);
      l := l + 1;
    }
  }

  /** The filler's loops on bounds alone, for a matrix of any size: the cells it
      writes, in order, and the index into the array that it ends at.  Each
      write takes one element, from the last one on, so an index below -1 means
      that the array was left at its front, which happens exactly where the size
      does not fit. */
  method Trace(rows: nat, cols: nat) returns (cells: seq<Cell>, d: int)
    ensures cells == Walk(Rightwards, Rect(0, 0, rows, cols))
    ensures d == rows * cols - 1 - |cells|
    ensures if Fits(rows, cols) then d == -1 else d < -1
  {
    ghost var all := Walk(Rightwards, Rect(0, 0, rows, cols));
    var k, l, m, n := 0, 0, rows as int, cols as int;
    cells := [];
    assert cells + all == all;
    while k < m && l < n
      invariant n <= cols && Tracing(cells, Rightwards, Rect(k, l, m, n), all)
      decreases m - k + n - l
    {
      cells := TraceAhead(cells, k, l, m, n, all);
      k, n := k + 1, n - 1;
      cells, l, m := TraceBack(cells, k, l, m, n, cols, all);
    }
    assert cells + [] == cells;
    d := rows * cols - 1 - |cells|;
    WalkIsSpiral(rows, cols);
    PathLength(Rightwards, Rect(0, 0, rows, cols));
  }

  /** Three rows of one column: a fourth write, for which the array has no
      element, goes back to the cell in the middle. */
  lemma ThreeByOne()
    ensures !Fits(3, 1) && Spiral(3, 1) == [(0, 0), (1, 0), (2, 0)]
    ensures Walk(Rightwards, Rect(0, 0, 3, 1)) == [(0, 0), (1, 0), (2, 0), (1, 0)]
  {
    assert Col(0, 1, 3) == [(1, 0), (2, 0)];
    assert RowBack(2, -1, 0) == [];
    assert ColBack(0, 1, 1) == [(1, 0)];
    assert Walk(Rightwards, Rect(2, 1, 2, 0)) == [];
  }
}
