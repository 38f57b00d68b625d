/** Screen and board geometry of the Life window: the configuration constants,
    the two index/coordinate conversions of the board, the neighbour offsets,
    and the cell rectangles handed to the renderer. */
module Geometry {

  const WindowWidth: int := 800
  const WindowHeight: int := 800
  const GridSize: int := 20

  /** Cells per row (WindowWidth / GridSize), cells per column
      (WindowHeight / GridSize) and cells on the board (Columns * Rows),
      written as their values; SquareGrid derives them from the window. */
  const Columns: int := 40
  const Rows: int := 40
  const BoardSize: int := 1600

  /** The derived sizes follow from the window and cell size, and the row
      stride GridSize * 2 of the coordinate-to-index map agrees with both
      divisors of the index-to-coordinate map. This holds only because of
      these constants; it is what makes the two maps inverse. */
  lemma SquareGrid()
    ensures Columns == WindowWidth / GridSize && Rows == WindowHeight / GridSize
    ensures BoardSize == Columns * Rows
    ensures GridSize * 2 == Columns == Rows
  {
  }

  predicate InGrid(x: int, y: int)
  {
    0 <= x < Columns && 0 <= y < Rows
  }

  /** Index to column/row. The source's floor division and remainder agree
      with Dafny's Euclidean ones because the divisors are positive, so the
      map is modelled on all integers. */
  function IdxToXY(idx: int): (p: (int, int))
    ensures 0 <= idx < BoardSize ==> InGrid(p.0, p.1)
  {
    (idx % Columns, idx / Rows)
  }

  /** Column/row to index, with the source's row stride GridSize * 2. */
  function XYToIdx(x: int, y: int): (idx: int)
    ensures InGrid(x, y) ==> 0 <= idx < BoardSize
  {
    x + y * GridSize * 2
  }

  /** Every board index names a grid cell, and converting back gives the index. */
  lemma IndexRoundTrip(idx: int)
    requires 0 <= idx < BoardSize
    ensures InGrid(IdxToXY(idx).0, IdxToXY(idx).1)
    ensures XYToIdx(IdxToXY(idx).0, IdxToXY(idx).1) == idx
  {
  }

  /** Every grid cell has an index on the board, and converting back gives the cell. */
  lemma CoordRoundTrip(x: int, y: int)
    requires InGrid(x, y)
    ensures 0 <= XYToIdx(x, y) < BoardSize
    ensures IdxToXY(XYToIdx(x, y)) == (x, y)
  {
    var i := XYToIdx(x, y);
    assert i == y * 40 + x;
    DivModOf40(i, y, x);
  }

  /** Quotient and remainder by 40 are determined by any decomposition with
      the remainder in range. */
  lemma DivModOf40(n: int, q: int, r: int)
    requires 0 <= r < 40 && n == q * 40 + r
    ensures n / 40 == q && n % 40 == r
  {
    var q', r' := n / 40, n % 40;
    assert n == q' * 40 + r' && 0 <= r' < 40;
    assert (q - q') * 40 == r' - r;
  }

  /** The eight neighbour offsets, in the order the neighbour lookup visits them:
      the row above left to right, then left and right, then the row below. */
  const Offsets: seq<(int, int)> := [(-1, -1), (0, -1), (1, -1), (-1, 0),
                                     (1, 0), (-1, 1), (0, 1), (1, 1)]

  /** A rectangle as (left, top, width, height) in window pixels. */
  datatype Rect = Rect(left: int, top: int, width: int, height: int)

  /** Point-in-rectangle test: half-open on the right and bottom edges. */
  predicate Contains(r: Rect, px: int, py: int)
    ensures r.width <= 0 || r.height <= 0 ==> !Contains(r, px, py)
  {
    r.left <= px < r.left + r.width && r.top <= py < r.top + r.height
  }

  predicate InWindow(px: int, py: int)
  {
    0 <= px < WindowWidth && 0 <= py < WindowHeight
  }

  /** The square on screen that cell idx is drawn in. */
  function RectOf(idx: int): (r: Rect)
    ensures r.width == GridSize && r.height == GridSize
    ensures 0 <= idx < BoardSize ==>
              0 <= r.left && r.left + r.width <= WindowWidth &&
              0 <= r.top && r.top + r.height <= WindowHeight
  {
    var p := IdxToXY(idx);
    Rect(p.0 * GridSize, p.1 * GridSize, GridSize, GridSize)
  }

  /** The cell under a window point. */
  function CellAt(px: int, py: int): (idx: int)
    ensures InWindow(px, py) ==> 0 <= idx < BoardSize
  {
    XYToIdx(px / GridSize, py / GridSize)
  }

  /** A point lies in the rectangle of cell idx exactly when it is inside the
      window and idx is the cell under it: the rectangles tile the window
      without overlap, so the first rectangle a click hits is CellAt's. */
  lemma RectsTileWindow(px: int, py: int, idx: int)
    requires 0 <= idx < BoardSize
    ensures Contains(RectOf(idx), px, py) <==> InWindow(px, py) && idx == CellAt(px, py)
  {
    var p := IdxToXY(idx);
    IndexRoundTrip(idx);
    if Contains(RectOf(idx), px, py) {
      assert p.0 * GridSize <= px < p.0 * GridSize + GridSize;
      assert px / GridSize == p.0;
      assert py / GridSize == p.1;
    }
    if InWindow(px, py) && idx == CellAt(px, py) {
      CoordRoundTrip(px / GridSize, py / GridSize);
    }
  }

  /** Every point of the window lies in the rectangle of the cell under it. */
  lemma CellUnderPoint(px: int, py: int)
    ensures InWindow(px, py) ==> 0 <= CellAt(px, py) < BoardSize && Contains(RectOf(CellAt(px, py)), px, py)
  {
    if InWindow(px, py) {
      RectsTileWindow(px, py, CellAt(px, py));
    }
  }
}
