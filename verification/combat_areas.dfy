/** Combat areas: matrices with a centre, and their quarter turns. */
module CombatAreas {
  import opened Basics

  // ---------------------------------------------------------------- matrices as values

  /** A matrix in row-major order; the coordinates of the centre are 32 bits wide. */
  datatype Matrix = Matrix(rows: nat, cols: nat, centerX: nat, centerY: nat, cells: seq<Byte>)

  ghost predicate WellFormed(m: Matrix) {
    |m.cells| == m.rows * m.cols && m.centerX < UINT32 && m.centerY < UINT32 && m.rows < UINT32 && m.cols < UINT32
  }

  predicate Inside(rows: nat, cols: nat, y: int, x: int) {
    0 <= y < rows && 0 <= x < cols
  }

  lemma IndexInside(rows: nat, cols: nat, y: int, x: int)
    requires Inside(rows, cols, y, x)
    ensures 0 <= y * cols + x < rows * cols
  {
    Product(y, cols);
    Larger(y + 1, rows, cols);
    Difference(y + 1, 1, cols);
  }

  lemma Difference(a: int, b: int, c: int)
    ensures (a - b) * c == a * c - b * c
  {
  }

  lemma Product(a: int, c: int)
    requires a >= 0 && c >= 0
    ensures a * c >= 0
  {
  }

  lemma Larger(a: int, b: int, c: int)
    requires a <= b && c >= 0
    ensures a * c <= b * c
  {
    Product(b - a, c);
    Difference(b, a, c);
  }

  /** Different cells have different indices. */
  lemma IndexInjective(cols: nat, y: int, x: int, j: int, i: int)
    requires 0 <= x < cols && 0 <= i < cols && y * cols + x == j * cols + i
    ensures y == j && x == i
  {
    Difference(y + 1, 1, cols);
    Difference(j + 1, 1, cols);
    if y < j { Larger(y + 1, j, cols); }
    if j < y { Larger(j + 1, y, cols); }
  }

  function At(m: Matrix, y: int, x: int): Byte
    requires WellFormed(m) && Inside(m.rows, m.cols, y, x)
  {
    IndexInside(m.rows, m.cols, y, x);
    m.cells[y * m.cols + x]
  }

  /** Subtraction of 32-bit numbers. */
  function Minus(a: int, b: int): nat {
    (a - b) % UINT32
  }

  lemma MinusTwice(a: int, b: nat)
    requires b < UINT32
    ensures Minus(a, Minus(a, b)) == b
  {
  }

  /** `n` is `m` turned by 90, 180 and 270 degrees: where each cell goes, and the centre. */
  ghost predicate Turned90(m: Matrix, n: Matrix) {
    && WellFormed(m) && WellFormed(n) && n.rows == m.cols && n.cols == m.rows
    && n.centerX == Minus(m.rows - 1, m.centerY) && n.centerY == m.centerX
    && forall y, x :: Inside(m.rows, m.cols, y, x) ==> At(n, x, m.rows - 1 - y) == At(m, y, x)
  }

  ghost predicate Turned180(m: Matrix, n: Matrix) {
    && WellFormed(m) && WellFormed(n) && n.rows == m.rows && n.cols == m.cols
    && n.centerX == Minus(m.cols - 1, m.centerX) && n.centerY == Minus(m.rows - 1, m.centerY)
    && forall y, x :: Inside(m.rows, m.cols, y, x) ==> At(n, m.rows - 1 - y, m.cols - 1 - x) == At(m, y, x)
  }

  ghost predicate Turned270(m: Matrix, n: Matrix) {
    && WellFormed(m) && WellFormed(n) && n.rows == m.cols && n.cols == m.rows
    && n.centerX == m.centerY && n.centerY == Minus(m.cols - 1, m.centerX)
    && forall y, x :: Inside(m.rows, m.cols, y, x) ==> At(n, m.cols - 1 - x, y) == At(m, y, x)
  }

  /** Matrices of the same shape with the same cells are the same. */
  lemma SameCells(m: Matrix, n: Matrix)
    requires WellFormed(m) && WellFormed(n) && n.rows == m.rows && n.cols == m.cols
    requires forall y, x :: Inside(m.rows, m.cols, y, x) ==> At(n, y, x) == At(m, y, x)
    ensures n.cells == m.cells
  {
    forall k | 0 <= k < |m.cells|
      ensures n.cells[k] == m.cells[k]
    {
      var y, x := k / m.cols, k % m.cols;
      assert k == y * m.cols + x;
      RowInside(m.rows, m.cols, y, x);
      assert At(n, y, x) == At(m, y, x);
    }
  }

  lemma RowInside(rows: nat, cols: nat, y: int, x: int)
    requires 0 <= x < cols && 0 <= y * cols + x < rows * cols
    ensures Inside(rows, cols, y, x)
  {
    Difference(y + 1, 1, cols);
    if y < 0 { Larger(y + 1, 0, cols); }
    if y >= rows { Larger(rows, y, cols); }
  }

  // ---------------------------------------------------------------- the group of turns

  /** Two quarter turns are a half turn. */
  lemma TwoTurns(m: Matrix, n: Matrix, k: Matrix)
    requires Turned90(m, n) && Turned90(n, k)
    ensures Turned180(m, k)
  {
    forall y, x | Inside(m.rows, m.cols, y, x)
      ensures At(k, m.rows - 1 - y, m.cols - 1 - x) == At(m, y, x)
    {
      assert At(n, x, m.rows - 1 - y) == At(m, y, x);
    }
  }

  /** Three of them are the turn by 270 degrees. */
  lemma ThreeTurns(m: Matrix, n: Matrix, k: Matrix)
    requires Turned180(m, n) && Turned90(n, k)
    ensures Turned270(m, k)
  {
    hide At, Minus;
    MinusTwice(m.rows - 1, m.centerY);
    forall y, x | Inside(m.rows, m.cols, y, x)
      ensures At(k, m.cols - 1 - x, y) == At(m, y, x)
    {
      assert Inside(n.rows, n.cols, m.rows - 1 - y, m.cols - 1 - x);
      assert At(n, m.rows - 1 - y, m.cols - 1 - x) == At(m, y, x);
    }
  }

  /** A turn by 270 degrees is undone by a quarter turn. */
  lemma TurnBack(m: Matrix, n: Matrix)
    requires Turned270(m, n)
    ensures Turned90(n, m)
  {
    hide At, Minus;
    MinusTwice(m.cols - 1, m.centerX);
    forall y, x | Inside(n.rows, n.cols, y, x)
      ensures At(m, x, n.rows - 1 - y) == At(n, y, x)
    {
      assert At(n, m.cols - 1 - (n.rows - 1 - y), x) == At(m, x, n.rows - 1 - y);
    }
  }

  /** Every matrix has a quarter turn. */
  ghost function Quarter(m: Matrix): (n: Matrix)
    requires WellFormed(m)
    ensures Turned90(m, n)
  {
    var n := Matrix(m.cols, m.rows, Minus(m.rows - 1, m.centerY), m.centerX,
                    seq(|m.cells|, k requires 0 <= k < |m.cells| => QuarterCell(m, k)));
    QuarterTurns(m, n);
    n
  }

  ghost function QuarterCell(m: Matrix, k: nat): Byte
    requires WellFormed(m) && k < |m.cells|
  {
    QuarterInside(m, k);
    At(m, m.rows - 1 - k % m.rows, k / m.rows)
  }

  lemma QuarterInside(m: Matrix, k: nat)
    requires WellFormed(m) && k < |m.cells|
    ensures m.rows > 0 && Inside(m.rows, m.cols, m.rows - 1 - k % m.rows, k / m.rows)
  {
    assert m.rows > 0;
    assert k == k / m.rows * m.rows + k % m.rows;
    RowInside(m.cols, m.rows, k / m.rows, k % m.rows);
  }

  lemma QuarterTurns(m: Matrix, n: Matrix)
    requires WellFormed(m) && |n.cells| == |m.cells| && forall k :: 0 <= k < |m.cells| ==> n.cells[k] == QuarterCell(m, k)
    requires n.(cells := []) == Matrix(m.cols, m.rows, Minus(m.rows - 1, m.centerY), m.centerX, [])
    ensures Turned90(m, n)
  {
    forall y, x | Inside(m.rows, m.cols, y, x)
      ensures At(n, x, m.rows - 1 - y) == At(m, y, x)
    {
      IndexInside(m.cols, m.rows, x, m.rows - 1 - y);
      DivMod(x * m.rows + (m.rows - 1 - y), m.rows, x, m.rows - 1 - y);
    }
  }

  /** A turn leaves no choice: every cell of the result is given. */
  lemma TurnedOnce(m: Matrix, n: Matrix, k: Matrix)
    requires (Turned90(m, n) && Turned90(m, k)) || (Turned180(m, n) && Turned180(m, k)) || (Turned270(m, n) && Turned270(m, k))
    ensures n == k
  {
    forall y, x | Inside(n.rows, n.cols, y, x)
      ensures At(k, y, x) == At(n, y, x)
    {
      if Turned90(m, n) && Turned90(m, k) {
        assert At(n, y, m.rows - 1 - (m.rows - 1 - x)) == At(m, m.rows - 1 - x, y);
        assert At(k, y, m.rows - 1 - (m.rows - 1 - x)) == At(m, m.rows - 1 - x, y);
      } else if Turned180(m, n) && Turned180(m, k) {
        assert At(n, m.rows - 1 - (m.rows - 1 - y), m.cols - 1 - (m.cols - 1 - x)) == At(m, m.rows - 1 - y, m.cols - 1 - x);
        assert At(k, m.rows - 1 - (m.rows - 1 - y), m.cols - 1 - (m.cols - 1 - x)) == At(m, m.rows - 1 - y, m.cols - 1 - x);
      } else {
        assert At(n, m.cols - 1 - (m.cols - 1 - y), x) == At(m, x, m.cols - 1 - y);
        assert At(k, m.cols - 1 - (m.cols - 1 - y), x) == At(m, x, m.cols - 1 - y);
      }
    }
    SameCells(n, k);
  }

  /** And four of them lead back. */
  lemma FourTurns(m: Matrix, n: Matrix, k: Matrix)
    requires Turned270(m, n) && Turned90(n, k)
    ensures k == m
  {
    hide Turned90, Turned270;
    TurnBack(m, n);
    TurnedOnce(n, k, m);
  }

  /** The cell at an offset from the centre, when the centre lies in the matrix. */
  ghost predicate CellAt(m: Matrix, dx: int, dy: int, value: Byte)
    requires WellFormed(m)
  {
    Inside(m.rows, m.cols, m.centerY + dy, m.centerX + dx) && At(m, m.centerY + dy, m.centerX + dx) == value
  }

  /** A quarter turn takes the cell at (dx, dy) to (-dy, dx). */
  lemma TurnsOffsets(m: Matrix, n: Matrix, dx: int, dy: int, value: Byte)
    requires Turned90(m, n) && m.centerY < m.rows && m.centerX < m.cols
    ensures n.centerY < n.rows && n.centerX < n.cols
    ensures CellAt(n, -dy, dx, value) <==> CellAt(m, dx, dy, value)
  {
    var y, x := m.centerY + dy, m.centerX + dx;
    assert n.centerX == m.rows - 1 - m.centerY;
    assert n.centerX - dy == m.rows - 1 - y && n.centerY + dx == x;
    if Inside(m.rows, m.cols, y, x) {
      assert At(n, x, m.rows - 1 - y) == At(m, y, x);
    }
  }

  // ---------------------------------------------------------------- counting

  /** Sum of f(y, 0), ..., f(y, n - 1). */
  ghost function RowSum(f: (int, int) -> int, y: int, n: nat): int {
    if n == 0 then 0 else RowSum(f, y, n - 1) + f(y, n - 1)
  }

  ghost function GridSum(f: (int, int) -> int, rows: nat, cols: nat): int {
    if rows == 0 then 0 else GridSum(f, rows - 1, cols) + RowSum(f, rows - 1, cols)
  }

  /** The sum of one column. */
  ghost function ColumnSum(f: (int, int) -> int, x: int, n: nat): int {
    if n == 0 then 0 else ColumnSum(f, x, n - 1) + f(n - 1, x)
  }

  lemma {:induction false} LastColumn(f: (int, int) -> int, rows: nat, cols: nat)
    requires cols > 0
    ensures GridSum(f, rows, cols) == GridSum(f, rows, cols - 1) + ColumnSum(f, cols - 1, rows)
  {
    if rows > 0 { LastColumn(f, rows - 1, cols); }
  }

  lemma {:induction false} NoColumns(f: (int, int) -> int, rows: nat)
    ensures GridSum(f, rows, 0) == 0
  {
    if rows > 0 { NoColumns(f, rows - 1); }
  }

  /** Row n of `g` is column x of `f` upside down. */
  lemma {:induction false} TurnedColumn(f: (int, int) -> int, g: (int, int) -> int, x: nat, rows: nat, cols: nat, n: nat)
    requires n <= rows && x < cols && forall j, i :: Inside(rows, cols, j, i) ==> g(i, rows - 1 - j) == f(j, i)
    ensures RowSum(g, x, n) == ColumnSum(f, x, rows) - ColumnSum(f, x, rows - n)
  {
    if n > 0 {
      TurnedColumn(f, g, x, rows, cols, n - 1);
      assert Inside(rows, cols, rows - n, x);
    }
  }

  /** Sums are the same after a quarter turn. */
  lemma {:induction false} TurnedSum(f: (int, int) -> int, g: (int, int) -> int, rows: nat, cols: nat)
    requires forall y, x :: Inside(rows, cols, y, x) ==> g(x, rows - 1 - y) == f(y, x)
    ensures GridSum(g, cols, rows) == GridSum(f, rows, cols)
  {
    if cols == 0 {
      NoColumns(f, rows);
    } else {
      assert forall y, x :: Inside(rows, cols - 1, y, x) ==> Inside(rows, cols, y, x);
      TurnedSum(f, g, rows, cols - 1);
      LastColumn(f, rows, cols);
      TurnedColumn(f, g, cols - 1, rows, cols, rows);
    }
  }

  /** The number of set cells. */
  ghost function SetCells(m: Matrix): int
    requires WellFormed(m)
  {
    GridSum(Bits(m), m.rows, m.cols)
  }

  ghost function Bits(m: Matrix): (int, int) -> int
    requires WellFormed(m)
  {
    (y, x) => if Inside(m.rows, m.cols, y, x) && At(m, y, x) != 0 then 1 else 0
  }

  /** A quarter turn neither adds nor loses a set cell. */
  lemma TurnKeepsCount(m: Matrix, n: Matrix)
    requires Turned90(m, n)
    ensures SetCells(n) == SetCells(m)
  {
    forall y, x | Inside(m.rows, m.cols, y, x)
      ensures Bits(n)(x, m.rows - 1 - y) == Bits(m)(y, x)
    {
      assert At(n, x, m.rows - 1 - y) == At(m, y, x);
    }
    TurnedSum(Bits(m), Bits(n), m.rows, m.cols);
  }

  /** Nor does any other turn. */
  lemma TurnsKeepCount(m: Matrix, n: Matrix)
    requires Turned180(m, n) || Turned270(m, n)
    ensures SetCells(n) == SetCells(m)
  {
    hide Turned90, SetCells;
    if Turned270(m, n) {
      TurnBack(m, n);
      TurnKeepsCount(n, m);
    } else {
      var k := Quarter(m);
      TwoTurns(m, k, Quarter(k));
      TurnedOnce(m, n, Quarter(k));
      TurnKeepsCount(m, k);
      TurnKeepsCount(k, Quarter(k));
    }
  }

  // ---------------------------------------------------------------- the areas as objects

  datatype MatrixOperation = Copy | Rotate90 | Rotate180 | Rotate270

  /** Where the loops of construct put the cell at (y, x). */
  function Slot90(rows: nat, y: int, x: int): int { x * rows + (rows - y - 1) }
  function Slot270(rows: nat, cols: nat, y: int, x: int): int { (cols - 1 - x) * rows + y }

  lemma SlotInside(rows: nat, cols: nat, y: int, x: int)
    requires Inside(rows, cols, y, x)
    ensures 0 <= Slot90(rows, y, x) < rows * cols && 0 <= Slot270(rows, cols, y, x) < rows * cols
  {
    IndexInside(cols, rows, x, rows - 1 - y);
    IndexInside(cols, rows, cols - 1 - x, y);
  }

  /** No two cells are put into the same place. */
  lemma SlotsApart(rows: nat, cols: nat, y: int, x: int, j: int, i: int)
    requires Inside(rows, cols, y, x) && Inside(rows, cols, j, i) && (y, x) != (j, i)
    ensures Slot90(rows, y, x) != Slot90(rows, j, i) && Slot270(rows, cols, y, x) != Slot270(rows, cols, j, i)
  {
    if Slot90(rows, y, x) == Slot90(rows, j, i) { IndexInjective(rows, x, rows - y - 1, i, rows - j - 1); }
    if Slot270(rows, cols, y, x) == Slot270(rows, cols, j, i) { IndexInjective(rows, cols - 1 - x, y, cols - 1 - i, j); }
  }

  /** The cells before (y, x) have been moved. */
  ghost predicate Done90(m: Matrix, cells: seq<Byte>, y: int, x: int) {
    && WellFormed(m) && |cells| == |m.cells|
    && forall j, i :: Inside(m.rows, m.cols, j, i) && (j < y || (j == y && i < x)) ==>
         0 <= Slot90(m.rows, j, i) < |cells| && cells[Slot90(m.rows, j, i)] == At(m, j, i)
  }

  lemma Start90(m: Matrix, cells: seq<Byte>)
    requires WellFormed(m) && |cells| == |m.cells|
    ensures Done90(m, cells, 0, 0)
  {
  }

  lemma Step90(m: Matrix, cells: seq<Byte>, y: nat, x: nat)
    requires Done90(m, cells, y, x) && y < m.rows && x < m.cols
    ensures 0 <= y * m.cols + x < |m.cells| && 0 <= Slot90(m.rows, y, x) < |cells|
    ensures Done90(m, cells[Slot90(m.rows, y, x) := m.cells[y * m.cols + x]], y, x + 1)
  {
    hide Slot90;
    IndexInside(m.rows, m.cols, y, x);
    SlotInside(m.rows, m.cols, y, x);
    forall j, i | Inside(m.rows, m.cols, j, i) && (j < y || (j == y && i < x))
      ensures Slot90(m.rows, j, i) != Slot90(m.rows, y, x)
    {
      SlotsApart(m.rows, m.cols, y, x, j, i);
    }
  }

  lemma RowEnd90(m: Matrix, cells: seq<Byte>, y: nat)
    requires Done90(m, cells, y, m.cols)
    ensures Done90(m, cells, y + 1, 0)
  {
  }

  lemma End90(m: Matrix, cells: seq<Byte>)
    requires Done90(m, cells, m.rows, 0)
    ensures m.rows * m.cols == m.cols * m.rows
    ensures Turned90(m, Matrix(m.cols, m.rows, Minus(m.rows - 1, m.centerY), m.centerX, cells))
  {
    var n := Matrix(m.cols, m.rows, Minus(m.rows - 1, m.centerY), m.centerX, cells);
    forall y, x | Inside(m.rows, m.cols, y, x)
      ensures At(n, x, m.rows - 1 - y) == At(m, y, x)
    {
      assert y < m.rows;
    }
  }

  /** The cells before (y, x) have been moved. */
  ghost predicate Done270(m: Matrix, cells: seq<Byte>, y: int, x: int) {
    && WellFormed(m) && |cells| == |m.cells|
    && forall j, i :: Inside(m.rows, m.cols, j, i) && (j < y || (j == y && i < x)) ==>
         0 <= Slot270(m.rows, m.cols, j, i) < |cells| && cells[Slot270(m.rows, m.cols, j, i)] == At(m, j, i)
  }

  lemma Start270(m: Matrix, cells: seq<Byte>)
    requires WellFormed(m) && |cells| == |m.cells|
    ensures Done270(m, cells, 0, 0)
  {
  }

  lemma Step270(m: Matrix, cells: seq<Byte>, y: nat, x: nat)
    requires Done270(m, cells, y, x) && y < m.rows && x < m.cols
    ensures 0 <= y * m.cols + x < |m.cells| && 0 <= Slot270(m.rows, m.cols, y, x) < |cells|
    ensures Done270(m, cells[Slot270(m.rows, m.cols, y, x) := m.cells[y * m.cols + x]], y, x + 1)
  {
    hide Slot270;
    IndexInside(m.rows, m.cols, y, x);
    SlotInside(m.rows, m.cols, y, x);
    forall j, i | Inside(m.rows, m.cols, j, i) && (j < y || (j == y && i < x))
      ensures Slot270(m.rows, m.cols, j, i) != Slot270(m.rows, m.cols, y, x)
    {
      SlotsApart(m.rows, m.cols, y, x, j, i);
    }
  }

  lemma RowEnd270(m: Matrix, cells: seq<Byte>, y: nat)
    requires Done270(m, cells, y, m.cols)
    ensures Done270(m, cells, y + 1, 0)
  {
  }

  lemma End270(m: Matrix, cells: seq<Byte>)
    requires Done270(m, cells, m.rows, 0)
    ensures m.rows * m.cols == m.cols * m.rows
    ensures Turned270(m, Matrix(m.cols, m.rows, m.centerY, Minus(m.cols - 1, m.centerX), cells))
  {
    var n := Matrix(m.cols, m.rows, m.centerY, Minus(m.cols - 1, m.centerX), cells);
    forall y, x | Inside(m.rows, m.cols, y, x)
      ensures At(n, m.cols - 1 - x, y) == At(m, y, x)
    {
      assert y < m.rows;
    }
  }

  class MatrixArea {
    const m_array: array<Byte>
    const rows: nat
    const cols: nat
    var centerX: nat
    var centerY: nat

    ghost predicate Valid()
      reads this
    {
      m_array.Length == rows * cols && centerX < UINT32 && centerY < UINT32 && rows < UINT32 && cols < UINT32
    }

    ghost function View(): (m: Matrix)
      requires Valid()
      reads this, m_array
      ensures WellFormed(m)
    {
      Matrix(rows, cols, centerX, centerY, m_array[..])
    }

    constructor (x: nat, y: nat, rows: nat, cols: nat, arr: array<Byte>)
      requires arr.Length == rows * cols && x < UINT32 && y < UINT32 && rows < UINT32 && cols < UINT32
      ensures Valid() && View() == Matrix(rows, cols, x, y, arr[..]) && m_array == arr
    {
      this.rows, this.cols, centerX, centerY, m_array := rows, cols, x, y, arr;
    }

    method SetCell(row: nat, col: nat, value: Byte)
      requires Valid() && Inside(rows, cols, row, col)
      modifies m_array
      ensures View().(cells := []) == old(View()).(cells := [])
      ensures forall y, x :: Inside(rows, cols, y, x) ==>
                At(View(), y, x) == if y == row && x == col then value else At(old(View()), y, x)
    {
      IndexInside(rows, cols, row, col);
      m_array[row * cols + col] := value;
      forall y, x | Inside(rows, cols, y, x) && (y, x) != (row, col)
        ensures At(View(), y, x) == At(old(View()), y, x)
      {
        IndexInside(rows, cols, y, x);
        if y * cols + x == row * cols + col { IndexInjective(cols, y, x, row, col); }
      }
    }

    method SetCenter(y: nat, x: nat)
      requires Valid() && y < UINT32 && x < UINT32
      modifies this`centerX, this`centerY
      ensures Valid() && View() == old(View()).(centerX := x, centerY := y)
    {
      centerX, centerY := x, y;
    }

    /** MatrixArea::construct */
    method Construct(operation: MatrixOperation) returns (area: MatrixArea)
      requires Valid()
      ensures area.Valid() && (area == this || (fresh(area) && fresh(area.m_array)))
      ensures operation == Copy ==> area.View() == View()
      ensures operation == Rotate90 ==> Turned90(View(), area.View())
      ensures operation == Rotate180 ==> Turned180(View(), area.View())
      ensures operation == Rotate270 ==> Turned270(View(), area.View())
    {
      match operation {
        case Copy => area := this;
        case Rotate90 => area := Construct90();
        case Rotate180 => area := Construct180();
        case Rotate270 => area := Construct270();
      }
    }

    method Construct90() returns (area: MatrixArea)
      requires Valid()
      ensures area.Valid() && fresh(area) && fresh(area.m_array) && Turned90(View(), area.View())
    {
      hide Done90, At, Inside;
      ghost var m := View();
      var newArr := new Byte[m_array.Length](i => 0);
      Start90(m, newArr[..]);
      for y := 0 to rows
        invariant Done90(m, newArr[..], y, 0) && m == View()
      {
        for x := 0 to cols
          invariant Done90(m, newArr[..], y, x) && m == View()
        {
          Step90(m, newArr[..], y, x);
          newArr[Slot90(rows, y, x)] := m_array[y * cols + x];
        }
        RowEnd90(m, newArr[..], y);
      }
      End90(m, newArr[..]);
      area := new MatrixArea(Minus(rows - 1, centerY), centerX, cols, rows, newArr);
    }

    method Construct270() returns (area: MatrixArea)
      requires Valid()
      ensures area.Valid() && fresh(area) && fresh(area.m_array) && Turned270(View(), area.View())
    {
      hide Done270, At, Inside;
      ghost var m := View();
      var newArr := new Byte[m_array.Length](i => 0);
      Start270(m, newArr[..]);
      for y := 0 to rows
        invariant Done270(m, newArr[..], y, 0) && m == View()
      {
        for x := 0 to cols
          invariant Done270(m, newArr[..], y, x) && m == View()
        {
          Step270(m, newArr[..], y, x);
          newArr[Slot270(rows, cols, y, x)] := m_array[y * cols + x];
        }
        RowEnd270(m, newArr[..], y);
      }
      End270(m, newArr[..]);
      area := new MatrixArea(centerY, Minus(cols - 1, centerX), cols, rows, newArr);
    }

    /** std::reverse_copy of the cells. */
    method Construct180() returns (area: MatrixArea)
      requires Valid()
      ensures area.Valid() && fresh(area) && fresh(area.m_array) && Turned180(View(), area.View())
    {
      var n := m_array.Length;
      var newArr := new Byte[n](i => 0);
      forall k | 0 <= k < n {
        newArr[k] := m_array[n - 1 - k];
      }
      area := new MatrixArea(Minus(cols - 1, centerX), Minus(rows - 1, centerY), rows, cols, newArr);
      forall y, x | Inside(rows, cols, y, x)
        ensures At(area.View(), rows - 1 - y, cols - 1 - x) == At(View(), y, x)
      {
        IndexInside(rows, cols, y, x);
        IndexInside(rows, cols, rows - 1 - y, cols - 1 - x);
        Difference(rows - 1, y, cols);
        Difference(rows, 1, cols);
      }
    }
  }

  // ---------------------------------------------------------------- setting areas up

  /** The columns createArea takes a vector to have. */
  function Columns(size: nat, rows: nat): nat { if rows == 0 then 0 else size / rows }

  lemma ColumnsFit(size: nat, rows: nat)
    ensures rows * Columns(size, rows) <= size
  {
    if rows != 0 {
      assert size == size / rows * rows + size % rows;
    }
  }

  /** 1 and 3 are set cells, 2 and 3 are centres. */
  predicate IsSet(value: Byte) { value == 1 || value == 3 }
  predicate IsCenter(value: Byte) { value == 2 || value == 3 }

  /** The last centre of a vector, or -1. */
  ghost function LastCenter(vec: seq<Byte>): int {
    if vec == [] then -1
    else if IsCenter(vec[|vec| - 1]) then |vec| - 1
    else LastCenter(vec[..|vec| - 1])
  }

  /** The matrix after the first `i` values: its cells, and the centre if there was one. */
  ghost predicate Filled(m: Matrix, vec: seq<Byte>, i: nat) {
    && WellFormed(m) && i <= |vec| && m.rows * m.cols <= |vec|
    && (forall y, x :: Inside(m.rows, m.cols, y, x) ==>
          0 <= y * m.cols + x < |vec| && At(m, y, x) == (if y * m.cols + x < i && IsSet(vec[y * m.cols + x]) then 1 else 0))
    && (if LastCenter(vec[..i]) < 0 then m.centerX == m.centerY == 0
        else if m.cols == 0 then m.centerY == 0 && m.centerX == LastCenter(vec[..i])
        else m.centerX < m.cols && LastCenter(vec[..i]) == m.centerY * m.cols + m.centerX)
  }

  lemma CenterStep(vec: seq<Byte>, i: nat)
    requires i < |vec|
    ensures LastCenter(vec[..i + 1]) == if IsCenter(vec[i]) then i else LastCenter(vec[..i])
  {
    assert vec[..i + 1][..i] == vec[..i];
  }

  /** One value more. */
  lemma FilledStep(m: Matrix, n: Matrix, vec: seq<Byte>, i: nat, y: nat, x: nat)
    requires Filled(m, vec, i) && i < |vec| && WellFormed(n) && n.rows == m.rows && n.cols == m.cols
    requires if m.cols == 0 then y == 0 && x == i else x < m.cols && i == y * m.cols + x
    requires Inside(m.rows, m.cols, y, x) || !IsSet(vec[i])
    requires forall j, k :: Inside(m.rows, m.cols, j, k) ==>
               At(n, j, k) == if IsSet(vec[i]) && j == y && k == x then 1 else At(m, j, k)
    requires (n.centerY, n.centerX) == if IsCenter(vec[i]) then (y, x) else (m.centerY, m.centerX)
    ensures Filled(n, vec, i + 1)
  {
    hide LastCenter;
    CenterStep(vec, i);
    forall j, k | Inside(m.rows, m.cols, j, k)
      ensures j * m.cols + k == i <==> j == y && k == x
    {
      if j * m.cols + k == i { IndexInjective(m.cols, j, k, y, x); }
    }
  }

  lemma FilledStart(m: Matrix, vec: seq<Byte>)
    requires WellFormed(m) && m.centerX == m.centerY == 0 && m.rows * m.cols <= |vec| && forall k :: 0 <= k < |m.cells| ==> m.cells[k] == 0
    ensures Filled(m, vec, 0)
  {
    forall y, x | Inside(m.rows, m.cols, y, x)
      ensures 0 <= y * m.cols + x < |vec| && At(m, y, x) == 0
    {
      IndexInside(m.rows, m.cols, y, x);
    }
  }

  /** createArea.  Values that are left over behind the last full row may not be set cells, for which
      the matrix has no place. */
  method CreateArea(vec: seq<Byte>, rows: nat) returns (area: MatrixArea)
    requires rows < UINT32 && |vec| < UINT32
    requires forall i :: rows * Columns(|vec|, rows) <= i < |vec| ==> !IsSet(vec[i])
    ensures fresh(area) && fresh(area.m_array) && area.Valid() && area.rows == rows && area.cols == Columns(|vec|, rows)
    ensures Filled(area.View(), vec, |vec|)
  {
    hide Filled;
    ColumnsFit(|vec|, rows);
    var cols := if rows == 0 then 0 else |vec| / rows;
    assert cols <= |vec|;
    Product(rows, cols);
    var arr := new Byte[rows * cols](i => 0);
    area := new MatrixArea(0, 0, rows, cols, arr);
    FilledStart(area.View(), vec);
    var x, y := 0, 0;
    for i := 0 to |vec|
      invariant fresh(area) && fresh(area.m_array) && area.Valid() && area.rows == rows && area.cols == cols
      invariant x >= 0 && y >= 0 && y <= i && x <= i && if cols == 0 then y == 0 && x == i else x < cols && i == y * cols + x
      invariant Filled(area.View(), vec, i)
    {
      var value := vec[i];
      ghost var m := area.View();
      if value == 1 || value == 3 {
        SetInside(vec, rows, cols, i, y, x);
        area.SetCell(y, x, 1);
      }
      if value == 2 || value == 3 {
        area.SetCenter(y, x);
      }
      FilledStep(m, area.View(), vec, i, y, x);
      x := x + 1;
      if cols == x {
        Difference(y + 1, 1, cols);
        x := 0;
        y := y + 1;
      }
    }
  }

  /** Two rows of three cells: a 1 and a 3 are set, and the last of the 2 and the 3 is the centre. */
  method SmallArea() returns (area: MatrixArea)
    ensures area.Valid() && area.View() == Matrix(2, 3, 1, 1, [1, 0, 0, 0, 1, 1])
  {
    hide LastCenter;
    var vec: seq<Byte> := [1, 2, 0, 0, 3, 1];
    area := CreateArea(vec, 2);
    assert vec[..|vec|] == vec && vec[..|vec| - 1] == [1, 2, 0, 0, 3];
    SmallCenter(vec);
    var m := area.View();
    forall i | 0 <= i < 6
      ensures m.cells[i] == [1, 0, 0, 0, 1, 1][i]
    {
      assert At(m, i / 3, i % 3) == m.cells[i / 3 * 3 + i % 3];
    }
    assert m.cells == [1, 0, 0, 0, 1, 1];
  }

  lemma SmallCenter(vec: seq<Byte>)
    requires vec == [1, 2, 0, 0, 3, 1]
    ensures LastCenter(vec) == 4 && LastCenter(vec[..|vec|]) == 4
  {
    assert vec[..|vec|] == vec && vec[..|vec| - 1] == [1, 2, 0, 0, 3];
  }

  lemma SetInside(vec: seq<Byte>, rows: nat, cols: nat, i: nat, y: nat, x: nat)
    requires cols == Columns(|vec|, rows) && i < |vec| && IsSet(vec[i])
    requires forall i :: rows * cols <= i < |vec| ==> !IsSet(vec[i])
    requires if cols == 0 then y == 0 && x == i else x < cols && i == y * cols + x
    ensures Inside(rows, cols, y, x)
  {
    if cols != 0 { RowInside(rows, cols, y, x); }
  }

  const NORTH := 0
  const EAST := 1
  const SOUTH := 2
  const WEST := 3

  // ---------------------------------------------------------------- spreading areas

  /** How far the beam is in from both sides in row `y`, and the number of columns. */
  function Inset(spread: nat, y: nat): int
    requires y > 0
  {
    if spread == 0 then 0 else (y - 1) / spread
  }

  function Width(length: nat, spread: nat): nat {
    if spread == 0 then 1 else 2 * ((length - length % spread) / spread) + 1
  }

  /** The beam is one or three columns wide in front of the caster, which is row `length`, and two columns
      wider for every `spread` rows away from there; without a spread it stays one column wide. */
  lemma BeamShape(length: nat, spread: nat, y: nat)
    requires 1 <= y <= length
    ensures spread == 0 ==> Width(length, spread) == 1 && Inset(spread, y) == 0
    ensures spread > 0 ==> Width(length, spread) - 2 * Inset(spread, length) == if length % spread == 0 then 3 else 1
    ensures spread > 0 && y + spread <= length ==> Inset(spread, y + spread) == Inset(spread, y) + 1
    ensures spread > 0 && y <= spread ==> Inset(spread, y) == 0
  {
    if spread > 0 {
      BeamFront(length, spread);
      var k, r := (y - 1) / spread, (y - 1) % spread;
      assert y - 1 == k * spread + r;
      assert y + spread - 1 == (k + 1) * spread + r;
      DivMod(y + spread - 1, spread, k + 1, r);
      if y <= spread { DivMod(y - 1, spread, 0, y - 1); }
    }
  }

  lemma BeamFront(length: nat, spread: nat)
    requires spread > 0 && length > 0
    ensures Width(length, spread) - 2 * Inset(spread, length) == if length % spread == 0 then 3 else 1
  {
    var q, r := length / spread, length % spread;
    assert length == q * spread + r;
    if r == 0 {
      assert length - 1 == (q - 1) * spread + (spread - 1);
      DivMod(length - 1, spread, q - 1, spread - 1);
    } else {
      DivMod(length - 1, spread, q, r - 1);
    }
    DivMod(length - r, spread, q, 0);
  }

  /** Row y, counted from 1, covers the columns k + 1 .. cols - k for k = (y - 1) / spread. */
  predicate InBeam(length: nat, spread: nat, y: nat, x: int)
    requires y > 0
  {
    Inset(spread, y) + 1 <= x <= Width(length, spread) - Inset(spread, y)
  }

  /** The value at row y and column x, both counted from 1; the middle of the last row is the centre. */
  function Beam(length: nat, spread: nat, y: nat, x: int): Byte
    requires y > 0
  {
    if y == length && x == Width(length, spread) / 2 + 1 then 3
    else if InBeam(length, spread, y, x) then 1
    else 0
  }

  lemma InsetStep(spread: nat, y: nat)
    requires y > 0
    ensures Inset(spread, y + 1) == Inset(spread, y) + (if spread > 0 && y % spread == 0 then 1 else 0)
  {
    if spread > 0 {
      var q, r := (y - 1) / spread, (y - 1) % spread;
      assert y - 1 == q * spread + r;
      Difference(q + 1, 1, spread);
      if r == spread - 1 {
        DivMod(y, spread, q + 1, 0);
      } else {
        DivMod(y, spread, q, r + 1);
      }
    }
  }

  /** The centre lies in the beam. */
  lemma CenterInBeam(length: nat, spread: nat)
    requires length > 0
    ensures InBeam(length, spread, length, Width(length, spread) / 2 + 1)
  {
    if spread > 0 {
      var q := length / spread;
      assert length == q * spread + length % spread;
      DivMod(length - length % spread, spread, q, 0);
      assert Width(length, spread) == 2 * q + 1;
      Difference(q + 1, 1, spread);
      var k := (length - 1) / spread;
      assert length - 1 == k * spread + (length - 1) % spread;
      if k > q { Larger(q + 1, k, spread); }
      assert Inset(spread, length) <= q;
    }
  }

  /** The vector holds the beam up to before row `y`, column `x`, both counted from 0. */
  ghost predicate Beamed(vec: seq<Byte>, length: nat, spread: nat, y: nat, x: nat) {
    var cols := Width(length, spread);
    && |vec| == y * cols + x
    && forall j, i :: Inside(length, cols, j, i) && (j < y || (j == y && i < x)) ==>
         0 <= j * cols + i < |vec| && vec[j * cols + i] == Beam(length, spread, j + 1, i + 1)
  }

  lemma BeamedStep(vec: seq<Byte>, length: nat, spread: nat, y: nat, x: nat)
    requires Beamed(vec, length, spread, y, x) && y < length && x < Width(length, spread)
    ensures Beamed(vec + [Beam(length, spread, y + 1, x + 1)], length, spread, y, x + 1)
  {
  }

  lemma BeamedRow(vec: seq<Byte>, length: nat, spread: nat, y: nat)
    requires Beamed(vec, length, spread, y, Width(length, spread))
    ensures Beamed(vec, length, spread, y + 1, 0)
  {
    Difference(y + 1, 1, Width(length, spread));
  }

  lemma BeamIs(length: nat, spread: nat, y: nat, x: int, cols: int, colSpread: int)
    requires y > 0 && cols == Width(length, spread) && colSpread == cols - Inset(spread, y)
    ensures Beam(length, spread, y, x) ==
              if y == length && x == (cols - cols % 2) / 2 + 1 then 3
              else if cols - colSpread + 1 <= x <= cols - (cols - colSpread) then 1
              else 0
  {
  }

  /** One row of setupArea. */
  method SpreadRow(start: seq<Byte>, length: nat, spread: nat, cols: int, colSpread: int, y: nat) returns (vec: seq<Byte>)
    requires 0 < y <= length && cols == Width(length, spread) && colSpread == cols - Inset(spread, y)
    requires Beamed(start, length, spread, y - 1, 0)
    ensures Beamed(vec, length, spread, y - 1, cols)
  {
    hide Beamed, Beam, Inset, Width;
    vec := start;
    var mincol, maxcol := cols - colSpread + 1, cols - (cols - colSpread);
    for x := 1 to cols + 1
      invariant Beamed(vec, length, spread, y - 1, x - 1)
    {
      BeamIs(length, spread, y, x, cols, colSpread);
      BeamedStep(vec, length, spread, y - 1, x - 1);
      if y == length && x == (cols - cols % 2) / 2 + 1 {
        vec := vec + [3];
      } else if x >= mincol && x <= maxcol {
        vec := vec + [1];
      } else {
        vec := vec + [0];
      }
    }
  }

  /** The loops of CombatArea::setupArea for a length and a spread. */
  method SpreadVector(length: nat, spread: nat) returns (vec: seq<Byte>)
    ensures Beamed(vec, length, spread, length, 0)
  {
    hide Beamed, Beam, Inset;
    var rows, cols := length, 1;
    if spread != 0 {
      cols := ((length - length % spread) / spread) * 2 + 1;
    }
    vec := [];
    BeamedStart(length, spread);
    var colSpread := cols;
    for y := 1 to rows + 1
      invariant colSpread == cols - Inset(spread, y) && Beamed(vec, length, spread, y - 1, 0)
    {
      vec := SpreadRow(vec, length, spread, cols, colSpread, y);
      BeamedRow(vec, length, spread, y - 1);
      InsetStep(spread, y);
      if spread > 0 && y % spread == 0 {
        colSpread := colSpread - 1;
      }
    }
  }

  lemma BeamedStart(length: nat, spread: nat)
    ensures Beamed([], length, spread, 0, 0) && Inset(spread, 1) == 0
  {
    if spread > 0 { DivMod(0, spread, 0, 0); }
  }

  lemma {:induction false} LastCenterAt(vec: seq<Byte>, i: nat)
    requires i < |vec| && IsCenter(vec[i]) && forall j :: i < j < |vec| ==> !IsCenter(vec[j])
    ensures LastCenter(vec) == i
  {
    if i < |vec| - 1 { LastCenterAt(vec[..|vec| - 1], i); }
  }

  /** The columns of the vector are the columns it was made with. */
  lemma BeamColumns(length: nat, spread: nat, size: nat)
    requires length > 0 && size == length * Width(length, spread)
    ensures Columns(size, length) == Width(length, spread)
  {
    DivMod(size, length, Width(length, spread), 0);
  }

  /** What the matrix of a spreading area looks like: the beam, its foot in the middle of the last row. */
  ghost predicate IsBeam(m: Matrix, length: nat, spread: nat) {
    && WellFormed(m) && m.rows == length
    && (length > 0 ==>
          && m.cols == Width(length, spread) && m.centerY == length - 1 && m.centerX == m.cols / 2
          && forall y, x :: Inside(m.rows, m.cols, y, x) ==>
               (At(m, y, x) == 1 <==> InBeam(length, spread, y + 1, x + 1)) && (At(m, y, x) == 0 <==> !InBeam(length, spread, y + 1, x + 1)))
  }

  lemma BeamFilled(m: Matrix, vec: seq<Byte>, length: nat, spread: nat)
    requires Beamed(vec, length, spread, length, 0) && Filled(m, vec, |vec|)
    requires m.rows == length && (length > 0 ==> m.cols == Width(length, spread))
    ensures IsBeam(m, length, spread)
  {
    hide Beam, InBeam, Filled;
    if length > 0 {
      BeamCenter(m, vec, length, spread);
      BeamCells(m, vec, length, spread);
    } else {
      FilledWell(m, vec);
    }
  }

  lemma FilledWell(m: Matrix, vec: seq<Byte>)
    requires Filled(m, vec, |vec|)
    ensures WellFormed(m)
  {
  }

  lemma BeamCells(m: Matrix, vec: seq<Byte>, length: nat, spread: nat)
    requires Beamed(vec, length, spread, length, 0) && Filled(m, vec, |vec|) && length > 0
    requires m.rows == length && m.cols == Width(length, spread)
    ensures WellFormed(m)
    ensures forall y, x :: Inside(m.rows, m.cols, y, x) ==>
              At(m, y, x) == if InBeam(length, spread, y + 1, x + 1) then 1 else 0
  {
    hide Width, LastCenter, At;
    CenterInBeam(length, spread);
  }

  lemma BeamCenter(m: Matrix, vec: seq<Byte>, length: nat, spread: nat)
    requires Beamed(vec, length, spread, length, 0) && Filled(m, vec, |vec|) && length > 0
    requires m.rows == length && m.cols == Width(length, spread)
    ensures m.centerY == length - 1 && m.centerX == m.cols / 2
  {
    hide Inset, At;
    var cols := m.cols;
    var c := (length - 1) * cols + cols / 2;
    Difference(length, 1, cols);
    assert Inside(length, cols, length - 1, cols / 2) && vec[c] == 3;
    forall j | c < j < |vec|
      ensures !IsCenter(vec[j])
    {
      assert Inside(length, cols, length - 1, j - (length - 1) * cols);
    }
    LastCenterAt(vec, c);
    assert vec[..|vec|] == vec;
    IndexInjective(cols, m.centerY, m.centerX, length - 1, cols / 2);
  }

  lemma BeamSize(vec: seq<Byte>, length: nat, spread: nat)
    requires Beamed(vec, length, spread, length, 0) && length < 0x100
    ensures |vec| < UINT32 && length * Columns(|vec|, length) == |vec|
    ensures length > 0 ==> Columns(|vec|, length) == Width(length, spread)
  {
    var cols := Width(length, spread);
    if spread > 0 {
      assert length == length / spread * spread + length % spread;
      DivMod(length - length % spread, spread, length / spread, 0);
      Larger(1, spread, length / spread);
    }
    assert cols <= 2 * length + 1;
    Larger(length, 0x100, cols);
    if length > 0 { BeamColumns(length, spread, |vec|); }
  }

  class CombatArea {
    var areas: seq<MatrixArea>

    constructor ()
      ensures areas == []
    {
      areas := [];
    }

    /** The four directions are the four turns of one matrix. */
    ghost predicate Oriented()
      reads this, areas, set a | a in areas :: a.m_array
    {
      && |areas| >= 4 && (forall i :: 0 <= i < 4 ==> areas[i].Valid())
      && Turned90(areas[NORTH].View(), areas[EAST].View())
      && Turned180(areas[NORTH].View(), areas[SOUTH].View())
      && Turned270(areas[NORTH].View(), areas[WEST].View())
    }

    /** CombatArea::setupArea for a vector. */
    method SetupArea(vec: seq<Byte>, rows: nat)
      requires rows < UINT32 && |vec| < UINT32 && (areas == [] || |areas| >= 4)
      requires forall i :: rows * Columns(|vec|, rows) <= i < |vec| ==> !IsSet(vec[i])
      modifies this
      ensures Oriented() && areas[NORTH].rows == rows && areas[NORTH].cols == Columns(|vec|, rows)
      ensures Filled(areas[NORTH].View(), vec, |vec|)
      ensures old(areas) != [] ==> |areas| == |old(areas)| && areas[4..] == old(areas)[4..]
    {
      hide Turned90, Turned180, Turned270, Filled, WellFormed;
      var area := CreateArea(vec, rows);
      if areas == [] {
        areas := [area, area, area, area];
      }
      Orient(area);
    }

    /** The turns of an area take their places. */
    method Orient(area: MatrixArea)
      requires area.Valid() && |areas| >= 4
      modifies this
      ensures Oriented() && areas[NORTH] == area && |areas| == |old(areas)| && areas[4..] == old(areas)[4..]
    {
      hide Turned90, Turned180, Turned270, WellFormed;
      var east := area.Construct(Rotate90);
      var south := area.Construct(Rotate180);
      var west := area.Construct(Rotate270);
      areas := areas[EAST := east][SOUTH := south][WEST := west][NORTH := area];
    }

    /** CombatArea::setupArea for a length and a spread. */
    method SetupSpread(length: nat, spread: nat)
      requires length < 0x100 && spread < 0x100 && (areas == [] || |areas| >= 4)
      modifies this
      ensures Oriented() && IsBeam(areas[NORTH].View(), length, spread)
    {
      hide Turned90, Turned180, Turned270, Filled, Beamed, IsBeam;
      var vec := SpreadVector(length, spread);
      BeamSize(vec, length, spread);
      SetupArea(vec, length);
      BeamFilled(areas[NORTH].View(), vec, length, spread);
    }
  }
}
