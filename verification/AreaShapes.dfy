/** Combat areas as shapes: the hit cells of a matrix around its centre, and the operations on them. */
module AreaShapes {
  import opened Bytes

  /** Columns count to the east, rows to the south. */
  datatype Cell = Cell(x: int, y: int)

  /** A matrix with its centre and its hit cells. */
  datatype Shape = Shape(rows: nat, cols: nat, centerY: int, centerX: int, cells: set<Cell>)
  {
    predicate Inside(c: Cell) {
      0 <= c.x < cols && 0 <= c.y < rows
    }

    predicate Valid() {
      forall c :: c in cells ==> Inside(c)
    }

    function Offset(c: Cell): Cell {
      Cell(c.x - centerX, c.y - centerY)
    }

    /** The cells hit, as seen from the centre. */
    function Offsets(): set<Cell> {
      set c | c in cells :: Offset(c)
    }
  }

  datatype Turning = Rotate90 | Rotate180 | Rotate270

  /** Rotation about the origin by exact quarter turns, clockwise on the map. */
  function Turn(t: Turning, d: Cell): Cell {
    match t
    case Rotate90 => Cell(-d.y, d.x)
    case Rotate180 => Cell(-d.x, -d.y)
    case Rotate270 => Cell(d.y, -d.x)
  }

  function TurnBack(t: Turning, d: Cell): (r: Cell)
    ensures Turn(t, r) == d
  {
    match t
    case Rotate90 => Cell(d.y, -d.x)
    case Rotate180 => Cell(-d.x, -d.y)
    case Rotate270 => Cell(-d.y, d.x)
  }

  lemma TurnedBack(t: Turning, d: Cell)
    ensures TurnBack(t, Turn(t, d)) == d
  {
  }

  function Max(a: nat, b: nat): nat {
    if a >= b then a else b
  }

  /** The side of the square matrices that rotated areas go into. */
  function OutputSize(rows: nat, cols: nat): nat {
    Max(cols, rows) * 2
  }

  /** Where `copyArea` writes the value of an input cell when rotating into a square of the given size. */
  function Rotated(s: Shape, t: Turning, size: nat, c: Cell): Cell {
    var d := Turn(t, s.Offset(c));
    Cell(d.x + (size / 2 - 1), d.y + (size / 2 - 1))
  }

  function RotatedFrom(s: Shape, t: Turning, size: nat, e: Cell): (c: Cell)
    ensures Rotated(s, t, size, c) == e
  {
    var d := TurnBack(t, Cell(e.x - (size / 2 - 1), e.y - (size / 2 - 1)));
    Cell(d.x + s.centerX, d.y + s.centerY)
  }

  lemma RotatedOnce(s: Shape, t: Turning, size: nat, c: Cell)
    ensures RotatedFrom(s, t, size, Rotated(s, t, size, c)) == c
  {
  }

  function Rotation(s: Shape, t: Turning, size: nat): Shape {
    Shape(size, size, size / 2 - 1, size / 2 - 1, set c | c in s.cells :: Rotated(s, t, size, c))
  }

  function MirroredCell(s: Shape, c: Cell): Cell {
    Cell(s.cols - 1 - c.x, c.y)
  }

  function FlippedCell(s: Shape, c: Cell): Cell {
    Cell(c.x, s.rows - 1 - c.y)
  }

  /** The centre formulas are the source's: rows for columns and columns for rows. */
  function Mirror(s: Shape, size: nat): Shape {
    Shape(size, size, s.centerY, s.rows - 1 - s.centerX, set c | c in s.cells :: MirroredCell(s, c))
  }

  function Flip(s: Shape, size: nat): Shape {
    Shape(size, size, s.cols - 1 - s.centerY, s.centerX, set c | c in s.cells :: FlippedCell(s, c))
  }

  /** With the centre inside, no rotation leaves a square of twice the longer side. */
  lemma RotationFits(s: Shape, t: Turning, c: Cell)
    requires s.Inside(Cell(s.centerX, s.centerY)) && s.Inside(c)
    ensures var n := OutputSize(s.rows, s.cols); var e := Rotated(s, t, n, c); 0 <= e.x < n && 0 <= e.y < n
  {
  }

  /** The offsets of a rotated area are the offsets of the area, rotated; and there are as many. */
  lemma RotationOffsets(s: Shape, t: Turning, size: nat)
    ensures Rotation(s, t, size).Offsets() == set d | d in s.Offsets() :: Turn(t, d)
    ensures |Rotation(s, t, size).Offsets()| == |s.Offsets()|
  {
    var r := Rotation(s, t, size);
    forall c | c in s.cells ensures Turn(t, s.Offset(c)) in r.Offsets() {
      assert r.Offset(Rotated(s, t, size, c)) == Turn(t, s.Offset(c));
    }
    forall d | d in r.Offsets() ensures exists c :: c in s.cells && d == Turn(t, s.Offset(c)) {
      var e :| e in r.cells && d == r.Offset(e);
      var c :| c in s.cells && e == Rotated(s, t, size, c);
      assert d == Turn(t, s.Offset(c));
    }
    TurnKeepsCount(t, s.Offsets());
  }

  lemma {:induction false} TurnKeepsCount(t: Turning, ds: set<Cell>)
    ensures |set d | d in ds :: Turn(t, d)| == |ds|
  {
    if ds != {} {
      var d :| d in ds;
      TurnKeepsCount(t, ds - {d});
      forall e | e in ds - {d} ensures Turn(t, e) != Turn(t, d) {
        TurnedBack(t, e);
        TurnedBack(t, d);
      }
      assert (set e | e in ds :: Turn(t, e)) == (set e | e in ds - {d} :: Turn(t, e)) + {Turn(t, d)};
    }
  }

  /** Four quarter turns are none, and half a turn is two. */
  lemma TurnsCompose(d: Cell)
    ensures Turn(Rotate180, d) == Turn(Rotate90, Turn(Rotate90, d))
    ensures Turn(Rotate270, d) == Turn(Rotate90, Turn(Rotate180, d))
    ensures Turn(Rotate90, Turn(Rotate270, d)) == d
  {
  }

  // ---------------------------------------------------------------- mirror and flip

  function AcrossY(ds: set<Cell>): set<Cell> {
    set d | d in ds :: Cell(-d.x, d.y)
  }

  function AcrossX(ds: set<Cell>): set<Cell> {
    set d | d in ds :: Cell(d.x, -d.y)
  }

  lemma MirrorOffset(s: Shape, size: nat, d: Cell)
    ensures d in Mirror(s, size).Offsets() <==> Cell(-(d.x - (s.cols - s.rows)), d.y) in s.Offsets()
  {
    var m := Mirror(s, size);
    if d in m.Offsets() {
      var e :| e in m.cells && d == m.Offset(e);
      var c :| c in s.cells && e == MirroredCell(s, c);
      assert s.Offset(c) == Cell(-(d.x - (s.cols - s.rows)), d.y);
    }
    if Cell(-(d.x - (s.cols - s.rows)), d.y) in s.Offsets() {
      var c :| c in s.cells && s.Offset(c) == Cell(-(d.x - (s.cols - s.rows)), d.y);
      assert m.Offset(MirroredCell(s, c)) == d;
    }
  }

  lemma FlipOffset(s: Shape, size: nat, d: Cell)
    ensures d in Flip(s, size).Offsets() <==> Cell(d.x, -(d.y - (s.rows - s.cols))) in s.Offsets()
  {
    var m := Flip(s, size);
    if d in m.Offsets() {
      var e :| e in m.cells && d == m.Offset(e);
      var c :| c in s.cells && e == FlippedCell(s, c);
      assert s.Offset(c) == Cell(d.x, -(d.y - (s.rows - s.cols)));
    }
    if Cell(d.x, -(d.y - (s.rows - s.cols))) in s.Offsets() {
      var c :| c in s.cells && s.Offset(c) == Cell(d.x, -(d.y - (s.rows - s.cols)));
      assert m.Offset(FlippedCell(s, c)) == d;
    }
  }

  /** A mirrored area hits the mirrored offsets exactly when the matrix is square (or hits nothing). */
  lemma MirrorIsRightIfSquare(s: Shape, size: nat)
    ensures Mirror(s, size).Offsets() == AcrossY(s.Offsets()) <==> s.rows == s.cols || s.cells == {}
  {
    var m, ds := Mirror(s, size).Offsets(), s.Offsets();
    var k := s.cols - s.rows;
    if k == 0 {
      forall d ensures d in m <==> d in AcrossY(ds) {
        MirrorOffset(s, size, d);
        assert d == Cell(-(-d.x), d.y);
      }
    } else if s.cells != {} && m == AcrossY(ds) {
      var c :| c in s.cells;
      assert s.Offset(c) in ds;
      forall d | d in ds ensures Cell(d.x + k, d.y) in ds {
        assert Cell(-d.x, d.y) in AcrossY(ds);
        MirrorOffset(s, size, Cell(-d.x, d.y));
      }
      NoShift(ds, Cell(k, 0));
    } else if s.cells == {} {
      assert m == {} && ds == {};
    }
  }

  /** A flipped area hits the flipped offsets exactly when the matrix is square (or hits nothing). */
  lemma FlipIsRightIfSquare(s: Shape, size: nat)
    ensures Flip(s, size).Offsets() == AcrossX(s.Offsets()) <==> s.rows == s.cols || s.cells == {}
  {
    var m, ds := Flip(s, size).Offsets(), s.Offsets();
    var k := s.rows - s.cols;
    if k == 0 {
      forall d ensures d in m <==> d in AcrossX(ds) {
        FlipOffset(s, size, d);
        assert d == Cell(d.x, -(-d.y));
      }
    } else if s.cells != {} && m == AcrossX(ds) {
      var c :| c in s.cells;
      assert s.Offset(c) in ds;
      forall d | d in ds ensures Cell(d.x, d.y + k) in ds {
        assert Cell(d.x, -d.y) in AcrossX(ds);
        FlipOffset(s, size, Cell(d.x, -d.y));
      }
      NoShift(ds, Cell(0, k));
    } else if s.cells == {} {
      assert m == {} && ds == {};
    }
  }

  /** One row and two columns: the cell right of the centre is mirrored onto the centre of the output, not to its left. */
  lemma MirrorGoesWrong(size: nat)
    ensures var s := Shape(1, 2, 0, 0, {Cell(1, 0)});
            Cell(0, 0) in Mirror(s, size).Offsets() && s.Offsets() == {Cell(1, 0)} && Mirror(s, size).Offsets() != AcrossY(s.Offsets())
  {
    var s := Shape(1, 2, 0, 0, {Cell(1, 0)});
    assert s.Offset(Cell(1, 0)) == Cell(1, 0);
    MirrorOffset(s, size, Cell(0, 0));
    MirrorIsRightIfSquare(s, size);
  }

  /** A finite set of offsets that contains its own shift is empty. */
  lemma NoShift(ds: set<Cell>, k: Cell)
    requires k != Cell(0, 0)
    requires forall d :: d in ds ==> Cell(d.x + k.x, d.y + k.y) in ds
    ensures ds == {}
  {
    if ds != {} {
      var d := Farthest(ds, k);
      FartherBy(d, k);
    }
  }

  lemma FartherBy(d: Cell, k: Cell)
    requires k != Cell(0, 0)
    ensures Along(Cell(d.x + k.x, d.y + k.y), k) > Along(d, k)
  {
    assert k.x != 0 ==> k.x * k.x > 0;
    assert k.y != 0 ==> k.y * k.y > 0;
    assert Along(Cell(d.x + k.x, d.y + k.y), k) == Along(d, k) + (k.x * k.x + k.y * k.y);
  }

  function Along(d: Cell, k: Cell): int {
    d.x * k.x + d.y * k.y
  }

  lemma {:induction false} Farthest(ds: set<Cell>, k: Cell) returns (d: Cell)
    requires ds != {}
    ensures d in ds && forall e :: e in ds ==> Along(e, k) <= Along(d, k)
  {
    d :| d in ds;
    if ds != {d} {
      var e := Farthest(ds - {d}, k);
      if Along(d, k) < Along(e, k) {
        d := e;
      }
    }
  }

  lemma AcrossBoth(ds: set<Cell>)
    ensures AcrossY(AcrossX(ds)) == set d | d in ds :: Turn(Rotate180, d)
  {
    forall d | d in ds ensures Cell(-d.x, -d.y) in AcrossY(AcrossX(ds)) {
      assert Cell(d.x, -d.y) in AcrossX(ds);
    }
  }

  /** The area for the fourth corner mirrors the flipped one, a square: it is the input turned half round exactly when the
      input is square (or hits nothing). */
  lemma FourthCorner(s: Shape, size: nat)
    ensures Mirror(Flip(s, size), size).Offsets() == (set d | d in s.Offsets() :: Turn(Rotate180, d))
            <==> s.rows == s.cols || s.cells == {}
  {
    hide AcrossX, AcrossY, Turn, Mirror;
    FlipIsRightIfSquare(s, size);
    MirrorIsRightIfSquare(Flip(s, size), size);
    AcrossBoth(s.Offsets());
    if AcrossY(Flip(s, size).Offsets()) == AcrossY(AcrossX(s.Offsets())) {
      AcrossOnce(Flip(s, size).Offsets(), AcrossX(s.Offsets()));
    }
  }

  lemma AcrossOnce(a: set<Cell>, b: set<Cell>)
    requires AcrossY(a) == AcrossY(b)
    ensures a == b
  {
    forall d ensures d in a <==> d in b {
      assert d in a <==> Cell(-d.x, d.y) in AcrossY(a);
      assert d in b <==> Cell(-d.x, d.y) in AcrossY(b);
    }
  }

  // ---------------------------------------------------------------- areas drawn as lists of numbers

  predicate Hit(n: nat) {
    n == 1 || n == 3
  }

  predicate Mark(n: nat) {
    n == 2 || n == 3
  }

  /** Places in a matrix written row by row. */
  function Place(x: nat, y: nat, cols: nat): nat {
    y * cols + x
  }

  function RowOf(i: nat, cols: nat): nat
    requires cols > 0
  {
    i / cols
  }

  function ColOf(i: nat, cols: nat): nat
    requires cols > 0
  {
    i % cols
  }

  function Count(rows: nat, cols: nat): nat {
    rows * cols
  }

  function CellAt(i: nat, cols: nat): Cell
    requires cols > 0
  {
    Cell(ColOf(i, cols), RowOf(i, cols))
  }

  lemma PlaceBack(x: nat, y: nat, rows: nat, cols: nat)
    requires x < cols && y < rows
    ensures Place(x, y, cols) < Count(rows, cols)
    ensures ColOf(Place(x, y, cols), cols) == x && RowOf(Place(x, y, cols), cols) == y
  {
    hide Place, Count;
    var i := Place(x, y, cols);
    assert i == y * cols + x by { PlaceIs(x, y, cols); }
    RemainderIs(i, cols, y, x);
    PlaceBelow(x, y, rows, cols);
  }

  lemma PlaceIs(x: nat, y: nat, cols: nat)
    ensures Place(x, y, cols) == y * cols + x
  {
  }

  lemma PlaceBelow(x: nat, y: nat, rows: nat, cols: nat)
    requires x < cols && y < rows
    ensures Place(x, y, cols) < Count(rows, cols)
  {
    Scaled(y + 1, rows, cols);
    assert (y + 1) * cols == y * cols + cols;
  }

  lemma Scaled(a: nat, b: nat, n: nat)
    requires a <= b
    ensures a * n <= b * n
  {
  }

  lemma PlaceOf(i: nat, rows: nat, cols: nat)
    requires cols > 0 && i < Count(rows, cols)
    ensures ColOf(i, cols) < cols && RowOf(i, cols) < rows && Place(ColOf(i, cols), RowOf(i, cols), cols) == i
  {
    assert i == cols * (i / cols) + i % cols;
    if rows <= i / cols {
      Scaled(rows, i / cols, cols);
    }
  }

  /** The index of the last centre mark, or -1. */
  function LastMark(list: seq<nat>): (i: int)
    ensures -1 <= i < |list| && (i >= 0 ==> Mark(list[i]))
    ensures forall j :: i < j < |list| ==> !Mark(list[j])
  {
    if list == [] then -1
    else if Mark(list[|list| - 1]) then |list| - 1
    else LastMark(list[..|list| - 1])
  }

  function CenterCell(list: seq<nat>, cols: nat): Cell
    requires list != [] ==> cols > 0
  {
    if LastMark(list) < 0 then Cell(0, 0) else CellAt(LastMark(list), cols)
  }

  /** The cells that the first `n` numbers make hit. */
  function DrawnCells(list: seq<nat>, cols: nat, n: nat): set<Cell>
    requires (list != [] ==> cols > 0) && n <= |list|
  {
    set i | 0 <= i < n && Hit(list[i]) :: CellAt(i, cols)
  }

  function Drawn(list: seq<nat>, rows: nat): Shape
    requires rows > 0 && |list| % rows == 0
  {
    var cols := |list| / rows;
    ColsPositive(list, rows);
    var c := CenterCell(list, cols);
    Shape(rows, cols, c.y, c.x, DrawnCells(list, cols, |list|))
  }

  /** The matrix drawn, number by number: 1 and 3 are hits, 2 and 3 mark the centre, and the last mark counts. */
  lemma DrawnIs(list: seq<nat>, rows: nat)
    requires rows > 0 && |list| % rows == 0
    ensures forall i :: 0 <= i < |list| ==>
              && |list| / rows > 0
              && (Cell(i % (|list| / rows), i / (|list| / rows)) in Drawn(list, rows).cells <==> list[i] == 1 || list[i] == 3)
    ensures (forall i :: 0 <= i < |list| ==> list[i] != 2 && list[i] != 3) ==>
              Drawn(list, rows).centerX == Drawn(list, rows).centerY == 0
    ensures forall i :: 0 <= i < |list| && (list[i] == 2 || list[i] == 3)
                        && (forall j :: i < j < |list| ==> list[j] != 2 && list[j] != 3) ==>
              |list| / rows > 0 && Drawn(list, rows).centerX == i % (|list| / rows) && Drawn(list, rows).centerY == i / (|list| / rows)
  {
    hide Place, Count, Drawn;
    var cols := |list| / rows;
    ColsPositive(list, rows);
    DrawnHas(list, rows);
    forall i | 0 <= i < |list|
      ensures cols > 0 && (Cell(i % cols, i / cols) in Drawn(list, rows).cells <==> list[i] == 1 || list[i] == 3) {
      assert Cell(i % cols, i / cols) == CellAt(i, cols);
      if CellAt(i, cols) in DrawnCells(list, cols, |list|) {
        var j :| 0 <= j < |list| && Hit(list[j]) && CellAt(j, cols) == CellAt(i, cols);
        PlaceOf(i, rows, cols);
        PlaceOf(j, rows, cols);
      }
    }
    forall i | 0 <= i < |list| && (list[i] == 2 || list[i] == 3) && (forall j :: i < j < |list| ==> list[j] != 2 && list[j] != 3)
      ensures Drawn(list, rows).centerX == i % cols && Drawn(list, rows).centerY == i / cols {
      assert Mark(list[i]) && LastMark(list) == i;
    }
  }

  lemma DrawnHas(list: seq<nat>, rows: nat)
    requires rows > 0 && |list| % rows == 0
    ensures list != [] ==> |list| / rows > 0
    ensures var s, cols := Drawn(list, rows), |list| / rows;
            s.cells == DrawnCells(list, cols, |list|) && s.centerX == CenterCell(list, cols).x && s.centerY == CenterCell(list, cols).y
  {
    hide CenterCell, DrawnCells;
  }

  lemma ColsPositive(list: seq<nat>, rows: nat)
    requires rows > 0 && |list| % rows == 0
    ensures list != [] ==> |list| / rows > 0
    ensures |list| == Count(rows, |list| / rows)
  {
  }

  /** Unless nothing is drawn, the centre is inside, marked or not. */
  lemma CenterInside(list: seq<nat>, rows: nat)
    requires rows > 0 && |list| % rows == 0 && list != []
    ensures var s := Drawn(list, rows); s.Inside(Cell(s.centerX, s.centerY))
  {
    ColsPositive(list, rows);
    if LastMark(list) >= 0 {
      PlaceOf(LastMark(list), rows, |list| / rows);
    }
  }

  // ---------------------------------------------------------------- beams

  /** Half the width of a beam in its farthest row. */
  function Spreading(length: nat, spread: nat): nat {
    if spread == 0 then 0 else length / spread
  }

  function BeamCols(length: nat, spread: nat): nat {
    Spreading(length, spread) * 2 + 1
  }

  /** `colSpread` when row `y`, counted from 1, is drawn. */
  function ColSpread(length: nat, spread: nat, y: nat): int
    requires y >= 1
  {
    BeamCols(length, spread) - (if spread == 0 then 0 else (y - 1) / spread)
  }

  /** The number the loops put in column `x` of row `y`, both counted from 1. */
  function BeamMark(length: nat, spread: nat, x: nat, y: nat): nat
    requires y >= 1
  {
    var cols := BeamCols(length, spread);
    var colSpread := ColSpread(length, spread, y);
    if y == length && x == ((cols - cols % 2) / 2) + 1 then 3
    else if cols - colSpread + 1 <= x <= cols - (cols - colSpread) then 1
    else 0
  }

  function BeamList(length: nat, spread: nat): (list: seq<nat>)
    ensures |list| == Count(length, BeamCols(length, spread))
  {
    var cols := BeamCols(length, spread);
    seq(Count(length, cols), i requires 0 <= i < Count(length, cols) => BeamMark(length, spread, ColOf(i, cols) + 1, RowOf(i, cols) + 1))
  }

  /** How far a beam reaches to either side, `back` rows before the caster's own. */
  function Reach(length: nat, spread: nat, back: nat): int {
    if spread == 0 then 0 else Spreading(length, spread) - (length - 1 - back) / spread
  }

  /** A beam's rows are never empty and never narrower farther from the caster. */
  lemma ReachGrows(length: nat, spread: nat, back: nat)
    requires back < length
    ensures Reach(length, spread, back) >= 0
    ensures back + 1 < length ==> Reach(length, spread, back) <= Reach(length, spread, back + 1)
  {
    if spread > 0 {
      DivGrows(length - 1 - back, length, spread);
      if back + 1 < length {
        DivGrows(length - 2 - back, length - 1 - back, spread);
      }
    }
  }

  lemma DivGrows(a: nat, b: nat, d: nat)
    requires a <= b && d > 0
    ensures a / d <= b / d
  {
    if b / d < a / d {
      Scaled(b / d + 1, a / d, d);
      BelowNext(b, d);
      AtLeast(a, d);
    }
  }

  lemma AtLeast(a: nat, d: nat)
    requires d > 0
    ensures a / d * d <= a
  {
    assert a == d * (a / d) + a % d;
  }

  lemma BelowNext(b: nat, d: nat)
    requires d > 0
    ensures b < (b / d + 1) * d
  {
    assert b == d * (b / d) + b % d;
  }

  predicate InBeam(length: nat, spread: nat, d: Cell) {
    d.y <= 0 < d.y + length && -Reach(length, spread, -d.y) <= d.x <= Reach(length, spread, -d.y)
  }

  /** A beam in numbers: it gains one cell on either side with every full `spread` rows, counted from the farthest. */
  lemma InBeamIs(length: nat, spread: nat, d: Cell)
    ensures InBeam(length, spread, d) <==>
            && 0 <= -d.y < length
            && (spread == 0 ==> d.x == 0)
            && (spread > 0 ==> length - 1 + d.y < spread * (length / spread + 1 - d.x))
            && (spread > 0 ==> length - 1 + d.y < spread * (length / spread + 1 + d.x))
  {
    if spread > 0 && 0 <= -d.y < length {
      var a, k := length - 1 + d.y, (length - 1 + d.y) / spread;
      AtLeast(a, spread);
      BelowNext(a, spread);
      Between(a, spread, k, length / spread - d.x);
      Between(a, spread, k, length / spread + d.x);
    }
  }

  lemma Between(a: nat, d: nat, k: nat, q: int)
    requires d > 0 && k * d <= a < (k + 1) * d
    ensures k <= q <==> a < d * (q + 1)
  {
    if k <= q {
      Scaled(k + 1, q + 1, d);
    } else if q + 1 >= 0 {
      Scaled(q + 1, k, d);
    } else {
      NotPositive(d, q + 1);
    }
  }

  lemma NotPositive(d: nat, n: int)
    requires n <= 0
    ensures d * n <= 0
  {
  }

  lemma BeamMarks(length: nat, spread: nat, x: nat, y: nat)
    requires 1 <= y <= length && 1 <= x <= BeamCols(length, spread)
    ensures var q := Spreading(length, spread);
            && (Hit(BeamMark(length, spread, x, y)) <==> InBeam(length, spread, Cell(x - 1 - q, y - length)))
            && (Mark(BeamMark(length, spread, x, y)) <==> y == length && x == q + 1)
  {
    var q, cols := Spreading(length, spread), BeamCols(length, spread);
    assert (cols - cols % 2) / 2 == q;
    ReachGrows(length, spread, length - y);
    assert ColSpread(length, spread, y) == q + 1 + Reach(length, spread, length - y);
  }

  lemma BeamMarkAt(length: nat, spread: nat, i: nat)
    requires length >= 1 && i < Count(length, BeamCols(length, spread))
    ensures var q, cols := Spreading(length, spread), BeamCols(length, spread);
            && (Hit(BeamList(length, spread)[i]) <==> InBeam(length, spread, Cell(ColOf(i, cols) - q, RowOf(i, cols) - (length - 1))))
            && (Mark(BeamList(length, spread)[i]) <==> i == Place(q, length - 1, cols))
  {
    hide Place, ColOf, RowOf, Count, BeamMark, InBeam, Hit, Mark;
    var q, cols := Spreading(length, spread), BeamCols(length, spread);
    PlaceOf(i, length, cols);
    PlaceBack(q, length - 1, length, cols);
    BeamMarks(length, spread, ColOf(i, cols) + 1, RowOf(i, cols) + 1);
  }

  /** Exactly one number of a beam marks the centre: the middle one of the last row. */
  lemma BeamCenter(length: nat, spread: nat)
    requires length >= 1
    ensures var i := Place(Spreading(length, spread), length - 1, BeamCols(length, spread));
            && LastMark(BeamList(length, spread)) == i
            && forall j :: 0 <= j < |BeamList(length, spread)| ==> (Mark(BeamList(length, spread)[j]) <==> j == i)
  {
    hide Place, Count, Mark, BeamList;
    var q, cols := Spreading(length, spread), BeamCols(length, spread);
    var list, i := BeamList(length, spread), Place(q, length - 1, cols);
    PlaceBack(q, length - 1, length, cols);
    forall j | 0 <= j < |list| ensures Mark(list[j]) <==> j == i {
      BeamMarkAt(length, spread, j);
    }
    assert Mark(list[i]);
  }

  lemma BeamShape(length: nat, spread: nat)
    requires length >= 1
    ensures |BeamList(length, spread)| % length == 0
    ensures var s := Drawn(BeamList(length, spread), length);
            s.cols == BeamCols(length, spread) && s.centerX == Spreading(length, spread) && s.centerY == length - 1
            && s.cells == DrawnCells(BeamList(length, spread), s.cols, |BeamList(length, spread)|)
  {
    hide BeamList, Place, ColOf, RowOf, LastMark;
    var q, cols := Spreading(length, spread), BeamCols(length, spread);
    var list := BeamList(length, spread);
    assert |list| == cols * length + 0;
    RemainderIs(|list|, length, cols, 0);
    BeamCenter(length, spread);
    PlaceBack(q, length - 1, length, cols);
  }

  /** A beam, as drawn: one centre in the last row, and the rows of `InBeam` before it. */
  lemma BeamOffsets(length: nat, spread: nat, d: Cell)
    requires length >= 1
    ensures |BeamList(length, spread)| % length == 0
    ensures d in Drawn(BeamList(length, spread), length).Offsets() <==> InBeam(length, spread, d)
  {
    hide BeamList, Place, ColOf, RowOf, LastMark, Drawn, InBeam, Hit, Count;
    var q, cols := Spreading(length, spread), BeamCols(length, spread);
    var list := BeamList(length, spread);
    BeamShape(length, spread);
    var s := Drawn(list, length);
    if d in s.Offsets() {
      var c :| c in s.cells && d == s.Offset(c);
      var i :| 0 <= i < |list| && Hit(list[i]) && c == CellAt(i, cols);
      BeamMarkAt(length, spread, i);
    }
    if InBeam(length, spread, d) {
      ReachIsBounded(length, spread, d);
      var i := Place(q + d.x, length - 1 + d.y, cols);
      PlaceBack(q + d.x, length - 1 + d.y, length, cols);
      BeamMarkAt(length, spread, i);
      assert s.Offset(CellAt(i, cols)) == d;
    }
  }

  lemma ReachIsBounded(length: nat, spread: nat, d: Cell)
    requires length >= 1 && InBeam(length, spread, d)
    ensures 0 <= Spreading(length, spread) + d.x < BeamCols(length, spread) && 0 <= length - 1 + d.y < length
  {
    if spread > 0 {
      DivGrows(0, length - 1 + d.y, spread);
    }
  }
}
