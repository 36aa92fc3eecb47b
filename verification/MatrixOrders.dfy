/** The walking orders of the dot matrix, for any side length: snake, inward spiral and diagonal snake. */
module MatrixOrders {

  datatype Walk = Snake | Spiral | Diagonal

  predicate InGrid(n: int, row: int, col: int) {
    0 <= row < n && 0 <= col < n
  }

  function RowMajorIndex(n: int, row: int, col: int): int {
    row * n + col
  }

  function Max(a: int, b: int): int {
    if a > b then a else b
  }

  function Min(a: int, b: int): int {
    if a < b then a else b
  }

  // ----- Where each cell stands in the walk

  function SnakeOrder(n: int, row: int, col: int): int {
    row * n + if row % 2 == 0 then col else n - 1 - col
  }

  predicate OnBorder(m: int, row: int, col: int) {
    row == 0 || col == m - 1 || row == m - 1 || col == 0
  }

  /** Along the top, down the right side, back along the bottom, up the left side. */
  function BorderStep(m: int, row: int, col: int): int {
    if row == 0 then col
    else if col == m - 1 then m - 1 + row
    else if row == m - 1 then 3 * (m - 1) - col
    else 4 * (m - 1) - row
  }

  /** Round the border of an m by m square, then on into the square inside it. */
  function SpiralOrder(m: int, row: int, col: int): int
    decreases m
  {
    if m <= 0 || OnBorder(m, row, col) then BorderStep(m, row, col)
    else 4 * (m - 1) + SpiralOrder(m - 2, row - 1, col - 1)
  }

  function RowStart(n: int, diagonal: int): int {
    Max(0, diagonal - (n - 1))
  }

  function RowEnd(n: int, diagonal: int): int {
    Min(n - 1, diagonal)
  }

  /** How many cells the diagonals before this one hold. */
  function DiagonalStart(n: int, diagonal: int): int
    decreases diagonal
  {
    if diagonal <= 0 then 0
    else DiagonalStart(n, diagonal - 1) + RowEnd(n, diagonal - 1) - RowStart(n, diagonal - 1) + 1
  }

  function DiagonalOrder(n: int, row: int, col: int): int {
    var d := row + col;
    DiagonalStart(n, d) + if d % 2 == 0 then RowEnd(n, d) - row else row - RowStart(n, d)
  }

  function Order(walk: Walk, n: int, row: int, col: int): int {
    match walk
    case Snake => SnakeOrder(n, row, col)
    case Spiral => SpiralOrder(n, row, col)
    case Diagonal => DiagonalOrder(n, row, col)
  }

  // ----- The cell reached at each step: the inverse

  datatype Cell = Cell(row: int, col: int)

  function SnakeCell(n: int, t: int): Cell
    requires n > 0
  {
    Cell(t / n, if t / n % 2 == 0 then t % n else n - 1 - t % n)
  }

  function SpiralCell(m: int, t: int): Cell
    decreases m
  {
    if m <= 1 || t <= m - 1 then Cell(0, t)
    else if t <= 2 * (m - 1) then Cell(t - (m - 1), m - 1)
    else if t <= 3 * (m - 1) then Cell(m - 1, 3 * (m - 1) - t)
    else if t < 4 * (m - 1) then Cell(4 * (m - 1) - t, 0)
    else
      var inner := SpiralCell(m - 2, t - 4 * (m - 1));
      Cell(inner.row + 1, inner.col + 1)
  }

  /** The diagonal, from this one on, that holds step t. */
  function DiagonalOf(n: int, t: int, diagonal: int): int
    decreases 2 * n - diagonal
  {
    if diagonal >= 2 * n - 2 || t < DiagonalStart(n, diagonal + 1) then diagonal
    else DiagonalOf(n, t, diagonal + 1)
  }

  function DiagonalCell(n: int, t: int): Cell {
    var d := DiagonalOf(n, t, 0);
    var k := t - DiagonalStart(n, d);
    var row := if d % 2 == 0 then RowEnd(n, d) - k else RowStart(n, d) + k;
    Cell(row, d - row)
  }

  function CellAt(walk: Walk, n: int, t: int): Cell
    requires n > 0
  {
    match walk
    case Snake => SnakeCell(n, t)
    case Spiral => SpiralCell(n, t)
    case Diagonal => DiagonalCell(n, t)
  }

  // ----- Each walk numbers the cells one to one

  lemma TimesAtLeast(d: int, n: int)
    requires n >= 0
    ensures d >= 1 ==> d * n >= n
  {
  }

  lemma QuotientUnique(n: int, q: int, r: int, q': int, r': int)
    requires 0 <= r < n && 0 <= r' < n && q * n + r == q' * n + r'
    ensures q == q' && r == r'
  {
    var d := q - q';
    assert d * n == q * n - q' * n;
    TimesAtLeast(d, n);
    TimesAtLeast(-d, n);
    assert (-d) * n == -(d * n);
  }

  lemma DivMod(n: int, q: int, r: int)
    requires 0 <= r < n
    ensures (q * n + r) / n == q && (q * n + r) % n == r
  {
    var t := q * n + r;
    QuotientUnique(n, t / n, t % n, q, r);
  }

  lemma BelowSquare(n: int, q: int, r: int)
    requires 0 <= q < n && 0 <= r < n
    ensures 0 <= q * n + r < n * n
  {
    var d := n - q;
    TimesAtLeast(d, n);
    assert d * n == n * n - q * n;
    assert q * n >= 0;
  }

  lemma SnakeThere(n: int, row: int, col: int)
    requires InGrid(n, row, col)
    ensures 0 <= SnakeOrder(n, row, col) < n * n
    ensures SnakeCell(n, SnakeOrder(n, row, col)) == Cell(row, col)
  {
    var r := if row % 2 == 0 then col else n - 1 - col;
    DivMod(n, row, r);
    BelowSquare(n, row, r);
  }

  lemma SnakeBack(n: int, t: int)
    requires 0 <= t < n * n
    ensures n > 0 ==> var c := SnakeCell(n, t); InGrid(n, c.row, c.col) && SnakeOrder(n, c.row, c.col) == t
  {
    if n > 0 {
      var q := t / n;
      assert t == q * n + t % n;
      if q >= n {
        assert (q - n) * n >= 0;
      }
    }
  }

  lemma SquareOfInner(m: int)
    ensures m * m - 4 * (m - 1) == (m - 2) * (m - 2)
  {
  }

  /** The border fits into the square. */
  lemma BorderFits(m: int)
    requires m >= 2
    ensures 4 * (m - 1) <= m * m
  {
    SquareOfInner(m);
    assert (m - 2) * (m - 2) >= 0;
  }

  lemma BorderThere(m: int, row: int, col: int)
    requires InGrid(m, row, col) && OnBorder(m, row, col)
    ensures 0 <= BorderStep(m, row, col) && (m > 1 ==> BorderStep(m, row, col) < 4 * (m - 1))
    ensures SpiralCell(m, BorderStep(m, row, col)) == Cell(row, col)
  {
  }

  lemma {:induction false} SpiralThere(m: int, row: int, col: int)
    requires InGrid(m, row, col)
    ensures 0 <= SpiralOrder(m, row, col) < m * m
    ensures SpiralCell(m, SpiralOrder(m, row, col)) == Cell(row, col)
    decreases m
  {
    hide BorderStep;
    if OnBorder(m, row, col) {
      BorderThere(m, row, col);
      if m >= 2 { BorderFits(m); } else { OneCell(row, col); }
    } else {
      SquareOfInner(m);
      SpiralThere(m - 2, row - 1, col - 1);
    }
  }

  lemma OneCell(row: int, col: int)
    requires InGrid(1, row, col)
    ensures BorderStep(1, row, col) == 0
  {
  }

  lemma BorderBack(m: int, t: int)
    requires m > 0 && 0 <= t && (m == 1 ==> t == 0) && (m > 1 ==> t < 4 * (m - 1))
    ensures var c := SpiralCell(m, t);
      InGrid(m, c.row, c.col) && OnBorder(m, c.row, c.col) && BorderStep(m, c.row, c.col) == t
  {
  }

  lemma {:induction false} SpiralBack(m: int, t: int)
    requires 0 <= t < m * m && m > 0
    ensures var c := SpiralCell(m, t); InGrid(m, c.row, c.col) && SpiralOrder(m, c.row, c.col) == t
    decreases m
  {
    hide BorderStep;
    if m > 1 && t >= 4 * (m - 1) {
      SquareOfInner(m);
      assert m == 2 ==> m * m == 4;
      SpiralBack(m - 2, t - 4 * (m - 1));
    } else {
      assert m == 1 ==> m * m == 1;
      BorderBack(m, t);
    }
  }

  /** The first d diagonals hold a triangle, and after the middle the square less a triangle. */
  lemma {:induction false} DiagonalStartClosed(n: int, d: int)
    requires n > 0 && 0 <= d <= 2 * n - 1
    ensures d <= n ==> 2 * DiagonalStart(n, d) == d * (d + 1)
    ensures d >= n ==> 2 * (n * n - DiagonalStart(n, d)) == (2 * n - 1 - d) * (2 * n - d)
    decreases d
  {
    if d > 0 {
      DiagonalStartClosed(n, d - 1);
      if d == n {
        assert 2 * (n * n) - n * (n + 1) == (n - 1) * n;
      }
    }
  }

  lemma {:induction false} DiagonalStartGrows(n: int, d: int, e: int)
    requires n > 0 && 0 <= d <= e <= 2 * n - 1
    ensures DiagonalStart(n, d) <= DiagonalStart(n, e)
    decreases e - d
  {
    if d < e {
      DiagonalStartGrows(n, d, e - 1);
    }
  }

  lemma {:induction false} DiagonalFound(n: int, t: int, d: int, from: int)
    requires n > 0 && 0 <= from <= d <= 2 * n - 2
    requires DiagonalStart(n, d) <= t < DiagonalStart(n, d + 1)
    ensures DiagonalOf(n, t, from) == d
    decreases d - from
  {
    hide DiagonalStart;
    if from < d {
      DiagonalStartGrows(n, from + 1, d);
      DiagonalFound(n, t, d, from + 1);
    }
  }

  lemma DiagonalThere(n: int, row: int, col: int)
    requires InGrid(n, row, col)
    ensures 0 <= DiagonalOrder(n, row, col) < n * n
    ensures DiagonalCell(n, DiagonalOrder(n, row, col)) == Cell(row, col)
  {
    var d, t := row + col, DiagonalOrder(n, row, col);
    assert RowStart(n, d) <= row <= RowEnd(n, d);
    assert DiagonalStart(n, d + 1) == DiagonalStart(n, d) + RowEnd(n, d) - RowStart(n, d) + 1;
    DiagonalStartGrows(n, 0, d);
    DiagonalStartGrows(n, d + 1, 2 * n - 1);
    DiagonalStartClosed(n, 2 * n - 1);
    DiagonalFound(n, t, d, 0);
  }

  lemma {:induction false} DiagonalHolds(n: int, t: int, from: int)
    requires n > 0 && 0 <= from <= 2 * n - 2 && DiagonalStart(n, from) <= t < n * n
    ensures var d := DiagonalOf(n, t, from);
      from <= d <= 2 * n - 2 && DiagonalStart(n, d) <= t < DiagonalStart(n, d + 1)
    decreases 2 * n - from
  {
    hide DiagonalStart;
    DiagonalStartClosed(n, 2 * n - 1);
    if from < 2 * n - 2 && t >= DiagonalStart(n, from + 1) {
      DiagonalHolds(n, t, from + 1);
    }
  }

  lemma DiagonalBack(n: int, t: int)
    requires 0 <= t < n * n && n > 0
    ensures var c := DiagonalCell(n, t); InGrid(n, c.row, c.col) && DiagonalOrder(n, c.row, c.col) == t
  {
    DiagonalHolds(n, t, 0);
    var d := DiagonalOf(n, t, 0);
    assert DiagonalStart(n, d + 1) == DiagonalStart(n, d) + RowEnd(n, d) - RowStart(n, d) + 1;
  }

  /** Every cell has its own number below n * n. */
  lemma NumberOfCell(walk: Walk, n: int, row: int, col: int)
    requires InGrid(n, row, col)
    ensures 0 <= Order(walk, n, row, col) < n * n
    ensures CellAt(walk, n, Order(walk, n, row, col)) == Cell(row, col)
  {
    match walk
    case Snake => SnakeThere(n, row, col);
    case Spiral => SpiralThere(n, row, col);
    case Diagonal => DiagonalThere(n, row, col);
  }

  /** Every number below n * n has its own cell. */
  lemma CellOfNumber(walk: Walk, n: int, t: int)
    requires n > 0 && 0 <= t < n * n
    ensures var c := CellAt(walk, n, t); InGrid(n, c.row, c.col) && Order(walk, n, c.row, c.col) == t
  {
    match walk
    case Snake => SnakeBack(n, t);
    case Spiral => SpiralBack(n, t);
    case Diagonal => DiagonalBack(n, t);
  }

  // ----- Consecutive steps

  predicate EdgeNeighbours(a: Cell, b: Cell) {
    (a.row == b.row && (a.col == b.col + 1 || b.col == a.col + 1)) ||
    (a.col == b.col && (a.row == b.row + 1 || b.row == a.row + 1))
  }

  lemma {:induction false} SpiralNeighbours(m: int, t: int)
    requires m > 0 && 0 <= t && t + 1 < m * m
    ensures EdgeNeighbours(SpiralCell(m, t), SpiralCell(m, t + 1))
    decreases m
  {
    SquareOfInner(m);
    if m > 1 && t >= 4 * (m - 1) {
      assert m == 2 ==> m * m == 4;
      SpiralNeighbours(m - 2, t - 4 * (m - 1));
    } else if m > 1 && t + 1 == 4 * (m - 1) {
      assert m == 2 ==> m * m == 4;
      assert SpiralCell(m - 2, 0) == Cell(0, 0);
    }
  }

  lemma SnakeNeighbours(n: int, t: int)
    requires n > 0 && 0 <= t && t + 1 < n * n
    ensures EdgeNeighbours(SnakeCell(n, t), SnakeCell(n, t + 1))
  {
    var q, r := t / n, t % n;
    Quotients(n, t);
    if r + 1 < n {
      DivMod(n, q, r + 1);
    } else {
      assert t + 1 == (q + 1) * n + 0;
      DivMod(n, q + 1, 0);
    }
  }

  lemma Quotients(n: int, t: int)
    requires n > 0 && t >= 0
    ensures t == t / n * n + t % n && 0 <= t % n < n
  {
  }

  /** In the snake and the spiral every step crosses one edge of the grid. */
  lemma StepsCrossOneEdge(walk: Walk, n: int, t: int)
    requires walk != Diagonal && n > 0 && 0 <= t && t + 1 < n * n
    ensures EdgeNeighbours(CellAt(walk, n, t), CellAt(walk, n, t + 1))
  {
    if walk == Snake { SnakeNeighbours(n, t); } else { SpiralNeighbours(n, t); }
  }

  // ----- Which of two cells comes first

  /** The snake goes row by row, to the right in even rows and to the left in odd ones. */
  lemma SnakeInOrder(n: int, a: Cell, b: Cell)
    requires InGrid(n, a.row, a.col) && InGrid(n, b.row, b.col)
    ensures SnakeOrder(n, a.row, a.col) < SnakeOrder(n, b.row, b.col) <==>
      a.row < b.row || (a.row == b.row && if a.row % 2 == 0 then a.col < b.col else b.col < a.col)
  {
    if a.row < b.row {
      TimesAtLeast(b.row - a.row, n);
      assert (b.row - a.row) * n == b.row * n - a.row * n;
    } else if b.row < a.row {
      TimesAtLeast(a.row - b.row, n);
      assert (a.row - b.row) * n == a.row * n - b.row * n;
    }
  }

  /** The diagonal snake goes diagonal by diagonal, upwards in even ones and downwards in odd ones. */
  lemma DiagonalInOrder(n: int, a: Cell, b: Cell)
    requires InGrid(n, a.row, a.col) && InGrid(n, b.row, b.col)
    ensures DiagonalOrder(n, a.row, a.col) < DiagonalOrder(n, b.row, b.col) <==>
      var d, e := a.row + a.col, b.row + b.col;
      d < e || (d == e && if d % 2 == 0 then b.row < a.row else a.row < b.row)
  {
    hide DiagonalStart;
    WithinDiagonal(n, a);
    WithinDiagonal(n, b);
    var d, e := a.row + a.col, b.row + b.col;
    if d < e { DiagonalStartGrows(n, d + 1, e); } else if e < d { DiagonalStartGrows(n, e + 1, d); }
  }

  lemma WithinDiagonal(n: int, c: Cell)
    requires InGrid(n, c.row, c.col)
    ensures var d := c.row + c.col;
      DiagonalStart(n, d) <= DiagonalOrder(n, c.row, c.col) < DiagonalStart(n, d + 1)
  {
    var d := c.row + c.col;
    assert DiagonalStart(n, d + 1) == DiagonalStart(n, d) + RowEnd(n, d) - RowStart(n, d) + 1;
  }

  /** How far a cell is from the border. */
  function Depth(n: int, c: Cell): int {
    Min(Min(c.row, c.col), Min(n - 1 - c.row, n - 1 - c.col))
  }

  /** The spiral goes inwards: every cell nearer to the border comes first. */
  lemma {:induction false} SpiralInward(m: int, a: Cell, b: Cell)
    requires InGrid(m, a.row, a.col) && InGrid(m, b.row, b.col) && Depth(m, a) < Depth(m, b)
    ensures SpiralOrder(m, a.row, a.col) < SpiralOrder(m, b.row, b.col)
    decreases m
  {
    hide SpiralOrder, BorderStep;
    if OnBorder(m, a.row, a.col) {
      BorderFirst(m, a, b);
    } else {
      SpiralInward(m - 2, Cell(a.row - 1, a.col - 1), Cell(b.row - 1, b.col - 1));
      InnerOrder(m, a);
      InnerOrder(m, b);
    }
  }

  lemma InnerOrder(m: int, c: Cell)
    requires InGrid(m, c.row, c.col) && !OnBorder(m, c.row, c.col)
    ensures SpiralOrder(m, c.row, c.col) == 4 * (m - 1) + SpiralOrder(m - 2, c.row - 1, c.col - 1)
  {
  }

  lemma BorderFirst(m: int, a: Cell, b: Cell)
    requires InGrid(m, a.row, a.col) && InGrid(m, b.row, b.col)
    requires OnBorder(m, a.row, a.col) && !OnBorder(m, b.row, b.col)
    ensures SpiralOrder(m, a.row, a.col) < SpiralOrder(m, b.row, b.col)
  {
    hide BorderStep;
    InnerOrder(m, b);
    SpiralThere(m - 2, b.row - 1, b.col - 1);
    BorderThere(m, a.row, a.col);
    assert SpiralOrder(m, a.row, a.col) == BorderStep(m, a.row, a.col);
  }

  /** Every ring of the spiral is entered at its top left corner and first walked to the right. */
  lemma {:induction false} SpiralEntersCorner(m: int, k: int, c: Cell)
    requires 0 <= k && InGrid(m, c.row, c.col) && Depth(m, c) == k
    ensures SpiralOrder(m, k, k) <= SpiralOrder(m, c.row, c.col)
    ensures m - 2 * k > 1 ==> SpiralOrder(m, k, k + 1) == SpiralOrder(m, k, k) + 1
    decreases m
  {
    if k > 0 {
      SpiralEntersCorner(m - 2, k - 1, Cell(c.row - 1, c.col - 1));
    } else {
      BorderThere(m, c.row, c.col);
    }
  }

  // ----- The builders

  /** The steps before t are written where the walk has them. */
  ghost predicate WrittenUpTo(walk: Walk, n: int, order: seq<int>, t: int) {
    && |order| == n * n
    && forall row, col :: InGrid(n, row, col) && Order(walk, n, row, col) < t ==>
         0 <= RowMajorIndex(n, row, col) < |order| &&
         order[RowMajorIndex(n, row, col)] == Order(walk, n, row, col)
  }

  /** The map from cells to steps that a builder returns. */
  ghost predicate IsOrderMap(walk: Walk, n: int, order: seq<int>) {
    && |order| == n * n
    && forall row, col :: InGrid(n, row, col) ==>
         0 <= RowMajorIndex(n, row, col) < |order| &&
         order[RowMajorIndex(n, row, col)] == Order(walk, n, row, col)
  }

  lemma WriteNext(walk: Walk, n: int, order: seq<int>, row: int, col: int, t: int)
    requires InGrid(n, row, col) && Order(walk, n, row, col) == t
    requires WrittenUpTo(walk, n, order, t)
    ensures 0 <= RowMajorIndex(n, row, col) < |order|
    ensures WrittenUpTo(walk, n, order[RowMajorIndex(n, row, col) := t], t + 1)
  {
    hide Order, CellAt;
    BelowSquare(n, row, col);
    forall r, c | InGrid(n, r, c) && Order(walk, n, r, c) < t + 1
      ensures 0 <= RowMajorIndex(n, r, c) < |order|
      ensures order[RowMajorIndex(n, row, col) := t][RowMajorIndex(n, r, c)] == Order(walk, n, r, c)
    {
      BelowSquare(n, r, c);
      if Order(walk, n, r, c) == t {
        NumberOfCell(walk, n, r, c);
        NumberOfCell(walk, n, row, col);
      } else if RowMajorIndex(n, row, col) == RowMajorIndex(n, r, c) {
        QuotientUnique(n, row, col, r, c);
      }
    }
  }

  lemma AllWritten(walk: Walk, n: int, order: seq<int>)
    requires WrittenUpTo(walk, n, order, n * n)
    ensures IsOrderMap(walk, n, order)
  {
    hide Order, CellAt;
    forall row, col | InGrid(n, row, col) ensures Order(walk, n, row, col) < n * n {
      NumberOfCell(walk, n, row, col);
    }
  }

  /** An order map holds every number below n * n, each at one index only. */
  lemma OrderMapIsPermutation(walk: Walk, n: int, order: seq<int>)
    requires n > 0 && IsOrderMap(walk, n, order)
    ensures forall i :: 0 <= i < |order| ==> 0 <= order[i] < n * n
    ensures forall i, j :: 0 <= i < |order| && 0 <= j < |order| && order[i] == order[j] ==> i == j
    ensures forall t :: 0 <= t < n * n ==> t in order
  {
    hide Order, CellAt;
    forall i | 0 <= i < |order|
      ensures 0 <= order[i] < n * n
      ensures CellAt(walk, n, order[i]) == Cell(i / n, i % n)
    {
      IndexToCoord(n, i);
      assert RowMajorIndex(n, i / n, i % n) == i;
      NumberOfCell(walk, n, i / n, i % n);
    }
    forall i, j | 0 <= i < |order| && 0 <= j < |order| && order[i] == order[j] ensures i == j {
      IndexToCoord(n, i);
      IndexToCoord(n, j);
      assert Cell(i / n, i % n) == CellAt(walk, n, order[i]) == Cell(j / n, j % n);
    }
    forall t | 0 <= t < n * n ensures t in order {
      CellOfNumber(walk, n, t);
      var c := CellAt(walk, n, t);
      assert order[RowMajorIndex(n, c.row, c.col)] == t;
    }
  }

  lemma IndexToCoord(n: int, i: int)
    requires n > 0 && 0 <= i < n * n
    ensures InGrid(n, i / n, i % n) && i / n * n + i % n == i
  {
    Quotients(n, i);
    var d := i / n - n;
    TimesAtLeast(d, n);
    assert d * n == i / n * n - n * n;
  }

  lemma NothingWritten(walk: Walk, n: int, order: seq<int>)
    requires |order| == n * n
    ensures WrittenUpTo(walk, n, order, 0)
  {
    hide Order, CellAt;
    forall row, col | InGrid(n, row, col) ensures Order(walk, n, row, col) >= 0 {
      NumberOfCell(walk, n, row, col);
    }
  }

  method BuildSnakeOrder(n: nat) returns (pathOrder: array<int>)
    requires n >= 1
    ensures IsOrderMap(Snake, n, pathOrder[..])
  {
    pathOrder := new int[n * n];
    var t := 0;
    NothingWritten(Snake, n, pathOrder[..]);
    var row := 0;
    while row < n
      invariant 0 <= row <= n && t == row * n
      invariant WrittenUpTo(Snake, n, pathOrder[..], t)
    {
      if row % 2 == 0 {
        var col := 0;
        while col < n
          invariant 0 <= col <= n && t == row * n + col
          invariant WrittenUpTo(Snake, n, pathOrder[..], t)
        {
          WriteNext(Snake, n, pathOrder[..], row, col, t);
          pathOrder[RowMajorIndex(n, row, col)] := t;
          t := t + 1;
          col := col + 1;
        }
      } else {
        var col := n - 1;
        while col >= 0
          invariant -1 <= col < n && t == row * n + (n - 1 - col)
          invariant WrittenUpTo(Snake, n, pathOrder[..], t)
        {
          WriteNext(Snake, n, pathOrder[..], row, col, t);
          pathOrder[RowMajorIndex(n, row, col)] := t;
          t := t + 1;
          col := col - 1;
        }
      }
      assert (row + 1) * n == row * n + n;
      row := row + 1;
    }
    AllWritten(Snake, n, pathOrder[..]);
  }

  lemma NextDiagonal(n: int, diagonal: int)
    requires diagonal >= 0
    ensures DiagonalStart(n, 0) == 0
    ensures DiagonalStart(n, diagonal + 1)
      == DiagonalStart(n, diagonal) + RowEnd(n, diagonal) - RowStart(n, diagonal) + 1
  {
  }

  method BuildDiagonalSnakeOrder(n: nat) returns (order: array<int>)
    requires n >= 1
    ensures IsOrderMap(Diagonal, n, order[..])
  {
    hide DiagonalStart, WrittenUpTo, IsOrderMap;
    NextDiagonal(n, 0);
    order := new int[n * n];
    var t := 0;
    NothingWritten(Diagonal, n, order[..]);
    var diagonal := 0;
    while diagonal <= (n - 1) * 2
      invariant 0 <= diagonal <= 2 * n - 1 && t == DiagonalStart(n, diagonal) && order.Length == n * n
      invariant WrittenUpTo(Diagonal, n, order[..], t)
    {
      NextDiagonal(n, diagonal);
      var rowStart := Max(0, diagonal - (n - 1));
      var rowEnd := Min(n - 1, diagonal);
      if diagonal % 2 == 0 {
        var row := rowEnd;
        while row >= rowStart
          invariant rowStart - 1 <= row <= rowEnd && t == DiagonalStart(n, diagonal) + rowEnd - row
          invariant order.Length == n * n && WrittenUpTo(Diagonal, n, order[..], t)
        {
          WriteNext(Diagonal, n, order[..], row, diagonal - row, t);
          order[RowMajorIndex(n, row, diagonal - row)] := t;
          t := t + 1;
          row := row - 1;
        }
      } else {
        var row := rowStart;
        while row <= rowEnd
          invariant rowStart <= row <= rowEnd + 1 && t == DiagonalStart(n, diagonal) + row - rowStart
          invariant order.Length == n * n && WrittenUpTo(Diagonal, n, order[..], t)
        {
          WriteNext(Diagonal, n, order[..], row, diagonal - row, t);
          order[RowMajorIndex(n, row, diagonal - row)] := t;
          t := t + 1;
          row := row + 1;
        }
      }
      diagonal := diagonal + 1;
    }
    DiagonalStartClosed(n, 2 * n - 1);
    AllWritten(Diagonal, n, order[..]);
  }

  /** The border of ring k, cell by cell, in terms of the outer square. */
  lemma {:induction false} SpiralRing(n: int, k: int, row: int, col: int)
    requires 0 <= k && n - 2 * k > 0
    requires InGrid(n - 2 * k, row, col)
    ensures SpiralOrder(n, k + row, k + col) == n * n - (n - 2 * k) * (n - 2 * k) + SpiralOrder(n - 2 * k, row, col)
    decreases k
  {
    if k > 0 {
      SpiralRing(n, k - 1, row + 1, col + 1);
      SquareOfInner(n - 2 * (k - 1));
    }
  }

  /** Steps taken before ring k. */
  function RingStart(n: int, k: int): int {
    var m := Max(0, n - 2 * k);
    n * n - m * m
  }

  /** The next step of ring k goes to this cell. */
  lemma WriteOnRing(n: int, k: int, order: seq<int>, row: int, col: int, t: int)
    requires 0 <= k && n - 2 * k > 0 && InGrid(n - 2 * k, row - k, col - k)
    requires OnBorder(n - 2 * k, row - k, col - k)
    requires t == RingStart(n, k) + BorderStep(n - 2 * k, row - k, col - k)
    requires WrittenUpTo(Spiral, n, order, t)
    ensures 0 <= RowMajorIndex(n, row, col) < |order|
    ensures WrittenUpTo(Spiral, n, order[RowMajorIndex(n, row, col) := t], t + 1)
  {
    SpiralRing(n, k, row - k, col - k);
    WriteNext(Spiral, n, order, row, col, t);
  }

  lemma NextRing(n: int, k: int)
    requires n >= 1 && k >= 0
    ensures RingStart(n, 0) == 0
    ensures n - 2 * k == 1 ==> RingStart(n, k + 1) == RingStart(n, k) + 1
    ensures n - 2 * k >= 2 ==> RingStart(n, k + 1) == RingStart(n, k) + 4 * (n - 2 * k - 1)
    ensures n - 2 * k <= 0 ==> RingStart(n, k) == n * n
  {
    SquareOfInner(n - 2 * k);
  }

  method BuildSpiralInwardOrder(n: nat) returns (order: array<int>)
    requires n >= 1
    ensures IsOrderMap(Spiral, n, order[..])
  {
    hide WrittenUpTo, IsOrderMap, RingStart, SpiralOrder;
    NextRing(n, 0);
    order := new int[n * n];
    var top, bottom, left, right, t := 0, n - 1, 0, n - 1, 0;
    NothingWritten(Spiral, n, order[..]);
    while top <= bottom && left <= right
      invariant 0 <= top == left && bottom == right == n - 1 - top && top <= bottom + 2
      invariant t == RingStart(n, top)
      invariant order.Length == n * n && WrittenUpTo(Spiral, n, order[..], t)
      decreases bottom - top
    {
      ghost var k, m, start := top, n - 2 * top, t;
      NextRing(n, k);
      NextRing(n, k + 1);
      var col := left;
      while col <= right
        invariant left <= col <= right + 1 && t == start + col - left
        invariant order.Length == n * n && WrittenUpTo(Spiral, n, order[..], t)
      {
        WriteOnRing(n, k, order[..], top, col, t);
        order[RowMajorIndex(n, top, col)] := t;
        t := t + 1;
        col := col + 1;
      }
      var row := top + 1;
      while row <= bottom
        invariant top + 1 <= row <= bottom + 1 && t == start + m + row - (top + 1)
        invariant order.Length == n * n && WrittenUpTo(Spiral, n, order[..], t)
      {
        WriteOnRing(n, k, order[..], row, right, t);
        order[RowMajorIndex(n, row, right)] := t;
        t := t + 1;
        row := row + 1;
      }
      if top < bottom {
        col := right - 1;
        while col >= left
          invariant left - 1 <= col <= right - 1 && t == start + 3 * (m - 1) - (col - left)
          invariant order.Length == n * n && WrittenUpTo(Spiral, n, order[..], t)
        {
          WriteOnRing(n, k, order[..], bottom, col, t);
          order[RowMajorIndex(n, bottom, col)] := t;
          t := t + 1;
          col := col - 1;
        }
      }
      if left < right {
        row := bottom - 1;
        while row > top
          invariant top <= row <= bottom - 1 && t == start + 4 * (m - 1) - (row - top)
          invariant order.Length == n * n && WrittenUpTo(Spiral, n, order[..], t)
        {
          WriteOnRing(n, k, order[..], row, left, t);
          order[RowMajorIndex(n, row, left)] := t;
          t := t + 1;
          row := row - 1;
        }
      }
      top := top + 1;
      bottom := bottom - 1;
      left := left + 1;
      right := right - 1;
    }
    NextRing(n, top);
    AllWritten(Spiral, n, order[..]);
  }
}
