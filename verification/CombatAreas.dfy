/** Combat areas as the server builds them: matrices filled by loops, one for each direction. */
module CombatAreas {
  import Bytes
  import opened AreaShapes

  class MatrixArea {
    var centerX: int
    var centerY: int
    const rows: nat
    const cols: nat
    const data: array2<bool>

    ghost predicate Valid() {
      data.Length0 == rows && data.Length1 == cols
    }

    predicate Holds(c: Cell)
      requires Valid()
      reads data
    {
      0 <= c.x < cols && 0 <= c.y < rows && data[c.y, c.x]
    }

    /** The matrix as a shape. */
    ghost function Now(): Shape
      requires Valid()
      reads this, data
    {
      Shape(rows, cols, centerY, centerX, set x, y | 0 <= x < cols && 0 <= y < rows && data[y, x] :: Cell(x, y))
    }

    constructor (rows: nat, cols: nat)
      ensures this.rows == rows && this.cols == cols && Valid() && fresh(data)
      ensures Now() == Shape(rows, cols, 0, 0, {})
    {
      this.rows, this.cols, centerX, centerY := rows, cols, 0, 0;
      data := new bool[rows, cols]((_, _) => false);
    }

    method SetValue(row: nat, col: nat, value: bool)
      requires Valid() && row < rows && col < cols
      modifies data
      ensures forall c: Cell :: Holds(c) == if c == Cell(col, row) then value else old(Holds(c))
    {
      data[row, col] := value;
    }

    function GetValue(row: nat, col: nat): (r: bool)
      requires Valid() && row < rows && col < cols
      reads data
      ensures r == Holds(Cell(col, row))
    {
      data[row, col]
    }

    method SetCenter(y: int, x: int)
      modifies this
      ensures centerY == y && centerX == x
    {
      centerX, centerY := x, y;
    }

    lemma CellsHold(c: Cell)
      requires Valid()
      ensures c in Now().cells <==> Holds(c)
    {
    }
  }

  /** Which input cells the loops of a rotation have copied: columns one after the other. */
  predicate ByColumn(c: Cell, x: int, y: int) {
    c.x < x || (c.x == x && c.y < y)
  }

  predicate ByRow(c: Cell, x: int, y: int) {
    c.y < y || (c.y == y && c.x < x)
  }

  method Rotate(input: MatrixArea, output: MatrixArea, t: Turning)
    requires input.Valid() && output.Valid() && input.data != output.data && input != output
    requires input.rows > 0 && input.cols > 0 ==> input.Now().Inside(Cell(input.centerX, input.centerY))
    requires output.rows == output.cols == OutputSize(input.rows, input.cols) && output.Now().cells == {}
    modifies output, output.data
    ensures output.Now() == Rotation(input.Now(), t, output.cols)
  {
    hide Rotated, RotatedFrom;
    ghost var s, n := input.Now(), output.cols;
    var rotateCenterX, rotateCenterY := output.cols / 2 - 1, output.rows / 2 - 1;
    EmptyHolds(output);
    for x := 0 to input.cols
      invariant forall e :: output.Holds(e) <==> input.Holds(RotatedFrom(s, t, n, e)) && ByColumn(RotatedFrom(s, t, n, e), x, 0)
    {
      for y := 0 to input.rows
        invariant forall e :: output.Holds(e) <==> input.Holds(RotatedFrom(s, t, n, e)) && ByColumn(RotatedFrom(s, t, n, e), x, y)
      {
        var rotated := Turn(t, Cell(x - input.centerX, y - input.centerY));
        ghost var c := Cell(x, y);
        RotationFits(s, t, c);
        RotatedOnce(s, t, n, c);
        RotatedIs(s, t, n, c, rotated);
        output.SetValue(rotated.y + rotateCenterY, rotated.x + rotateCenterX, input.GetValue(y, x));
      }
    }
    output.SetCenter(rotateCenterY, rotateCenterX);
    RotationIs(input, output, t);
  }

  lemma EmptyHolds(m: MatrixArea)
    requires m.Valid() && m.Now().cells == {}
    ensures forall e :: !m.Holds(e)
  {
    forall e ensures !m.Holds(e) {
      m.CellsHold(e);
    }
  }

  lemma RotatedIs(s: Shape, t: Turning, n: nat, c: Cell, d: Cell)
    requires d == Turn(t, s.Offset(c))
    ensures Rotated(s, t, n, c) == Cell(d.x + (n / 2 - 1), d.y + (n / 2 - 1))
  {
  }

  lemma RotationIs(input: MatrixArea, output: MatrixArea, t: Turning)
    requires input.Valid() && output.Valid() && output.rows == output.cols
    requires output.centerX == output.centerY == output.cols / 2 - 1
    requires forall e :: output.Holds(e) <==>
               input.Holds(RotatedFrom(input.Now(), t, output.cols, e)) && ByColumn(RotatedFrom(input.Now(), t, output.cols, e), input.cols, 0)
    ensures output.Now() == Rotation(input.Now(), t, output.cols)
  {
    hide Rotated, RotatedFrom;
    var s, n := input.Now(), output.cols;
    forall e ensures e in output.Now().cells <==> e in Rotation(s, t, n).cells {
      output.CellsHold(e);
      var c := RotatedFrom(s, t, n, e);
      input.CellsHold(c);
      if e in Rotation(s, t, n).cells {
        var b :| b in s.cells && e == Rotated(s, t, n, b);
        RotatedOnce(s, t, n, b);
      }
    }
  }

  method MirrorInto(input: MatrixArea, output: MatrixArea)
    requires input.Valid() && output.Valid() && input.data != output.data && input != output
    requires input.cols <= output.cols == output.rows && input.rows <= output.rows && output.Now().cells == {}
    modifies output, output.data
    ensures output.Now() == Mirror(input.Now(), output.cols)
  {
    EmptyHolds(output);
    ghost var s := input.Now();
    for y := 0 to input.rows
      invariant forall e :: output.Holds(e) <==> input.Holds(MirroredCell(s, e)) && ByRow(e, 0, y)
    {
      var rx := 0;
      for x := input.cols downto 0
        invariant rx == input.cols - x
        invariant forall e :: output.Holds(e) <==> input.Holds(MirroredCell(s, e)) && ByRow(e, rx, y)
      {
        output.SetValue(y, rx, input.GetValue(y, x));
        rx := rx + 1;
      }
    }
    output.SetCenter(input.centerY, (input.rows - 1) - input.centerX);
    forall e ensures e in output.Now().cells <==> e in Mirror(s, output.cols).cells {
      output.CellsHold(e);
      input.CellsHold(MirroredCell(s, e));
      assert MirroredCell(s, MirroredCell(s, e)) == e;
    }
  }

  method FlipInto(input: MatrixArea, output: MatrixArea)
    requires input.Valid() && output.Valid() && input.data != output.data && input != output
    requires input.cols <= output.cols == output.rows && input.rows <= output.rows && output.Now().cells == {}
    modifies output, output.data
    ensures output.Now() == Flip(input.Now(), output.cols)
  {
    EmptyHolds(output);
    ghost var s := input.Now();
    for x := 0 to input.cols
      invariant forall e :: output.Holds(e) <==> input.Holds(FlippedCell(s, e)) && ByColumn(e, x, 0)
    {
      var ry := 0;
      for y := input.rows downto 0
        invariant ry == input.rows - y
        invariant forall e :: output.Holds(e) <==> input.Holds(FlippedCell(s, e)) && ByColumn(e, x, ry)
      {
        output.SetValue(ry, x, input.GetValue(y, x));
        ry := ry + 1;
      }
    }
    output.SetCenter((input.cols - 1) - input.centerY, input.centerX);
    forall e ensures e in output.Now().cells <==> e in Flip(s, output.cols).cells {
      output.CellsHold(e);
      input.CellsHold(FlippedCell(s, e));
      assert FlippedCell(s, FlippedCell(s, e)) == e;
    }
  }

  // ---------------------------------------------------------------- areas from lists

  lemma DrawnStep(list: seq<nat>, cols: nat, i: nat)
    requires cols > 0 && i < |list|
    ensures DrawnCells(list, cols, i + 1) == DrawnCells(list, cols, i) + (if Hit(list[i]) then {CellAt(i, cols)} else {})
    ensures CenterCell(list[..i + 1], cols) == if Mark(list[i]) then CellAt(i, cols) else CenterCell(list[..i], cols)
  {
    assert list[..i + 1][..i] == list[..i];
  }

  lemma SetCell(m: MatrixArea, was: Shape, cell: Cell)
    requires m.Valid() && was.rows == m.rows && was.cols == m.cols
    requires 0 <= cell.x < m.cols && 0 <= cell.y < m.rows
    requires forall c: Cell :: m.Holds(c) <==> c == cell || c in was.cells
    ensures m.Now().cells == was.cells + {cell}
  {
    forall c ensures c in m.Now().cells <==> c in was.cells + {cell} {
      m.CellsHold(c);
    }
  }

  /** One number of the list. */
  method DrawOne(area: MatrixArea, n: nat, x: nat, y: nat)
    requires area.Valid() && x < area.cols && y < area.rows
    modifies area, area.data
    ensures area.Now() == old(area.Now()).(cells := old(area.Now()).cells + (if n == 1 || n == 3 then {Cell(x, y)} else {}),
                                           centerX := if n == 2 || n == 3 then x else old(area.centerX),
                                           centerY := if n == 2 || n == 3 then y else old(area.centerY))
  {
    ghost var was := area.Now();
    if n == 1 || n == 3 {
      forall c: Cell ensures c in was.cells <==> area.Holds(c) {
        area.CellsHold(c);
      }
      area.SetValue(y, x, true);
      SetCell(area, was, Cell(x, y));
    }
    if n == 2 || n == 3 {
      area.SetCenter(y, x);
    }
  }

  method CreateArea(list: seq<nat>, rows: nat) returns (area: MatrixArea)
    requires rows > 0 && |list| % rows == 0
    ensures fresh(area) && fresh(area.data) && area.Valid() && area.Now() == Drawn(list, rows)
    ensures forall i :: 0 <= i < |list| ==>
              && |list| / rows > 0
              && (Cell(i % (|list| / rows), i / (|list| / rows)) in area.Now().cells <==> list[i] == 1 || list[i] == 3)
    ensures (forall i :: 0 <= i < |list| ==> list[i] != 2 && list[i] != 3) ==> area.centerX == area.centerY == 0
    ensures forall i :: 0 <= i < |list| && (list[i] == 2 || list[i] == 3)
                        && (forall j :: i < j < |list| ==> list[j] != 2 && list[j] != 3) ==>
              |list| / rows > 0 && area.centerX == i % (|list| / rows) && area.centerY == i / (|list| / rows)
  {
    hide Place, ColOf, RowOf, LastMark, Count, CenterCell, DrawnCells;
    var cols := |list| / rows;
    ColsPositive(list, rows);
    area := new MatrixArea(rows, cols);
    NothingDrawn(list, cols);
    var x, y := 0, 0;
    assert list[..0] == [];
    for i := 0 to |list|
      invariant area.Valid() && area.rows == rows && area.cols == cols
      invariant x < cols || list == []
      invariant Place(x, y, cols) == i
      invariant area.Now() == Shape(rows, cols, CenterCell(list[..i], cols).y, CenterCell(list[..i], cols).x, DrawnCells(list, cols, i))
    {
      PlaceIsCell(x, y, i, rows, cols);
      DrawnStep(list, cols, i);
      DrawOne(area, list[i], x, y);
      NextPlace(x, y, cols);
      x := x + 1;
      if cols == x {
        x := 0;
        y := y + 1;
      }
    }
    assert list[..|list|] == list;
    DrawnIs(list, rows);
  }

  lemma NothingDrawn(list: seq<nat>, cols: nat)
    requires list != [] ==> cols > 0
    ensures DrawnCells(list, cols, 0) == {} && CenterCell([], cols) == Cell(0, 0) && Place(0, 0, cols) == 0
  {
  }

  lemma PlaceIsCell(x: nat, y: nat, i: nat, rows: nat, cols: nat)
    requires x < cols && Place(x, y, cols) == i < Count(rows, cols)
    ensures y < rows && CellAt(i, cols) == Cell(x, y)
  {
    hide Place, ColOf, RowOf, Count;
    PlaceOf(i, rows, cols);
    PlaceBack(x, y, y + 1, cols);
  }

  lemma NextPlace(x: nat, y: nat, cols: nat)
    requires x < cols
    ensures Place(x + 1, y, cols) == Place(x, y, cols) + 1
    ensures x + 1 == cols ==> Place(0, y + 1, cols) == Place(x, y, cols) + 1
  {
  }

  // ---------------------------------------------------------------- one area for each direction

  datatype Direction = NORTH | EAST | SOUTH | WEST | SOUTHWEST | SOUTHEAST | NORTHWEST | NORTHEAST

  /** The direction of an attack from its offset. */
  function Toward(dx: int, dy: int, hasExtArea: bool): Direction {
    if hasExtArea && dx < 0 && dy < 0 then NORTHWEST
    else if hasExtArea && dx > 0 && dy < 0 then NORTHEAST
    else if hasExtArea && dx < 0 && dy > 0 then SOUTHWEST
    else if hasExtArea && dx > 0 && dy > 0 then SOUTHEAST
    else if dx < 0 then WEST
    else if dx > 0 then EAST
    else if dy < 0 then NORTH
    else SOUTH
  }

  /** Turning the attack a quarter round turns the direction picked a quarter round, off the diagonals. */
  function TurnedDirection(d: Direction): Direction {
    match d
    case NORTH => EAST
    case EAST => SOUTH
    case SOUTH => WEST
    case WEST => NORTH
    case NORTHEAST => SOUTHEAST
    case SOUTHEAST => SOUTHWEST
    case SOUTHWEST => NORTHWEST
    case NORTHWEST => NORTHEAST
  }

  lemma TowardTurns(d: Cell)
    requires (d.x == 0) != (d.y == 0)
    ensures var t := Turn(Rotate90, d); Toward(t.x, t.y, false) == TurnedDirection(Toward(d.x, d.y, false))
  {
  }

  /** The areas `setupArea` makes of the one drawn for the north. */
  function AreaToward(n: Shape, dir: Direction, size: nat): Shape
    requires dir in {NORTH, EAST, SOUTH, WEST}
  {
    match dir
    case NORTH => n
    case EAST => Rotation(n, Rotate90, size)
    case SOUTH => Rotation(n, Rotate180, size)
    case WEST => Rotation(n, Rotate270, size)
  }

  /** Attacks along the axes do not prefer a direction: turning the target a quarter round turns the cells hit a quarter round. */
  lemma AttackTurns(n: Shape, d: Cell, size: nat, o: Cell)
    requires (d.x == 0) != (d.y == 0)
    ensures var t := Turn(Rotate90, d);
            o in AreaToward(n, Toward(d.x, d.y, false), size).Offsets() <==>
            Turn(Rotate90, o) in AreaToward(n, Toward(t.x, t.y, false), size).Offsets()
  {
    hide Turn, TurnBack, Rotation;
    TowardTurns(d);
    TurnsMeet(n, Rotate90, size, Turn(Rotate90, o), o);
    match Toward(d.x, d.y, false) {
      case NORTH =>
      case EAST =>
        TurnsMeet(n, Rotate90, size, o, TurnBack(Rotate90, o));
        TurnsCompose(TurnBack(Rotate90, o));
        TurnsMeet(n, Rotate180, size, Turn(Rotate90, o), TurnBack(Rotate90, o));
      case SOUTH =>
        TurnsMeet(n, Rotate180, size, o, TurnBack(Rotate180, o));
        TurnsCompose(TurnBack(Rotate180, o));
        TurnsMeet(n, Rotate270, size, Turn(Rotate90, o), TurnBack(Rotate180, o));
      case _ =>
        TurnsMeet(n, Rotate270, size, o, TurnBack(Rotate270, o));
        TurnsCompose(TurnBack(Rotate270, o));
    }
  }

  /** A rotated area hits an offset exactly when the area hits the offset it comes from. */
  lemma TurnsMeet(n: Shape, t: Turning, size: nat, o: Cell, from: Cell)
    requires Turn(t, from) == o
    ensures o in Rotation(n, t, size).Offsets() <==> from in n.Offsets()
  {
    hide Turn, TurnBack, Rotation;
    RotationOffsets(n, t, size);
    if o in Rotation(n, t, size).Offsets() {
      var e :| e in n.Offsets() && o == Turn(t, e);
      TurnedBack(t, e);
      TurnedBack(t, from);
    }
  }

  class CombatArea {
    var areas: map<Direction, MatrixArea>
    var hasExtArea: bool

    ghost predicate Valid()
      reads this, areas.Values
    {
      forall d :: d in areas ==> areas[d].Valid()
    }

    constructor ()
      ensures areas == map[] && !hasExtArea
    {
      areas, hasExtArea := map[], false;
    }

    /** `setupArea` from a list: three rotations of the area drawn for the north. */
    method SetupArea(list: seq<nat>, rows: nat)
      requires rows > 0 && |list| % rows == 0
      modifies this
      ensures hasExtArea == old(hasExtArea)
      ensures areas.Keys == old(areas).Keys + {NORTH, EAST, SOUTH, WEST}
      ensures forall d :: d in {NORTH, EAST, SOUTH, WEST} ==> fresh(areas[d]) && fresh(areas[d].data) && areas[d].Valid()
      ensures forall d :: d in old(areas) && d !in {NORTH, EAST, SOUTH, WEST} ==> areas[d] == old(areas)[d]
      ensures areas[NORTH].Now() == Drawn(list, rows)
      ensures var n := Drawn(list, rows);
              var size := OutputSize(n.rows, n.cols);
              && areas[EAST].Now() == Rotation(n, Rotate90, size)
              && areas[SOUTH].Now() == Rotation(n, Rotate180, size)
              && areas[WEST].Now() == Rotation(n, Rotate270, size)
              && forall d :: d in {NORTH, EAST, SOUTH, WEST} ==> areas[d].Now() == AreaToward(n, d, size)
    {
      hide Drawn;
      var area := CreateArea(list, rows);
      DrawnCenter(area, list, rows);
      var maxOutput := Max(area.cols, area.rows) * 2;
      var southArea := RotatedArea(area, maxOutput, Rotate180);
      var eastArea := RotatedArea(area, maxOutput, Rotate90);
      var westArea := RotatedArea(area, maxOutput, Rotate270);
      areas := areas[NORTH := area][SOUTH := southArea][EAST := eastArea][WEST := westArea];
    }

    /** `setupExtArea`: the diagonals, from an area drawn for the north-west. */
    method SetupExtArea(list: seq<nat>, rows: nat)
      requires rows > 0 && |list| % rows == 0
      modifies this
      ensures list == [] ==> areas == old(areas) && hasExtArea == old(hasExtArea)
      ensures list != [] ==> hasExtArea && areas.Keys == old(areas).Keys + {NORTHWEST, NORTHEAST, SOUTHWEST, SOUTHEAST}
      ensures list != [] ==> forall d :: d in {NORTHWEST, NORTHEAST, SOUTHWEST, SOUTHEAST} ==>
                fresh(areas[d]) && fresh(areas[d].data) && areas[d].Valid()
      ensures forall d :: d in old(areas) && d !in {NORTHWEST, NORTHEAST, SOUTHWEST, SOUTHEAST} ==> d in areas && areas[d] == old(areas)[d]
      ensures list != [] ==>
                var n := Drawn(list, rows);
                var size := OutputSize(n.rows, n.cols);
                && areas[NORTHWEST].Now() == n
                && areas[NORTHEAST].Now() == Mirror(n, size)
                && areas[SOUTHWEST].Now() == Flip(n, size)
                && areas[SOUTHEAST].Now() == Mirror(Flip(n, size), size)
    {
      hide Drawn;
      if list == [] {
        return;
      }
      var area := CreateArea(list, rows);
      var maxOutput := Max(area.cols, area.rows) * 2;
      var neArea := MirroredArea(area, maxOutput);
      var swArea := FlippedArea(area, maxOutput);
      var seArea := MirroredArea(swArea, maxOutput);
      areas := areas[NORTHWEST := area][NORTHEAST := neArea][SOUTHWEST := swArea][SOUTHEAST := seArea];
      hasExtArea := true;
    }

    /** `getArea` */
    method GetArea(dx: int, dy: int) returns (area: MatrixArea?)
      ensures dx < 0 && (dy == 0 || !hasExtArea) ==> area == if WEST in areas then areas[WEST] else null
      ensures dx > 0 && (dy == 0 || !hasExtArea) ==> area == if EAST in areas then areas[EAST] else null
      ensures dx == 0 && dy < 0 ==> area == if NORTH in areas then areas[NORTH] else null
      ensures dx == 0 && dy >= 0 ==> area == if SOUTH in areas then areas[SOUTH] else null
      ensures hasExtArea && dx < 0 && dy < 0 ==> area == if NORTHWEST in areas then areas[NORTHWEST] else null
      ensures hasExtArea && dx > 0 && dy < 0 ==> area == if NORTHEAST in areas then areas[NORTHEAST] else null
      ensures hasExtArea && dx < 0 && dy > 0 ==> area == if SOUTHWEST in areas then areas[SOUTHWEST] else null
      ensures hasExtArea && dx > 0 && dy > 0 ==> area == if SOUTHEAST in areas then areas[SOUTHEAST] else null
    {
      var dir := NORTH;
      if dx < 0 {
        dir := WEST;
      } else if dx > 0 {
        dir := EAST;
      } else if dy < 0 {
        dir := NORTH;
      } else {
        dir := SOUTH;
      }
      if hasExtArea {
        if dx < 0 && dy < 0 {
          dir := NORTHWEST;
        } else if dx > 0 && dy < 0 {
          dir := NORTHEAST;
        } else if dx < 0 && dy > 0 {
          dir := SOUTHWEST;
        } else if dx > 0 && dy > 0 {
          dir := SOUTHEAST;
        }
      }
      area := if dir in areas then areas[dir] else null;
    }

    /** `getList`: the places hit that can be seen from the target, each once. */
    method GetList(center: Cell, target: Cell, clear: Cell -> bool) returns (ok: bool, list: seq<Cell>)
      requires Valid()
      ensures ok <==> Toward(target.x - center.x, target.y - center.y, hasExtArea) in areas
      ensures ok ==> forall p :: p in list <==>
                var area := areas[Toward(target.x - center.x, target.y - center.y, hasExtArea)];
                Cell(p.x - target.x, p.y - target.y) in area.Now().Offsets() && clear(p)
      ensures Distinct(list)
    {
      var area := GetArea(target.x - center.x, target.y - center.y);
      if area == null {
        return false, [];
      }
      list := Enumerate(area, target, clear);
      ok := true;
    }
  }

  predicate Distinct(list: seq<Cell>) {
    forall i, j :: 0 <= i < j < |list| ==> list[i] != list[j]
  }

  /** The place is a hit, clear, and among the cells scanned before column `x` of row `y`. */
  predicate Found(area: MatrixArea, left: int, top: int, clear: Cell -> bool, p: Cell, x: int, y: int)
    requires area.Valid()
    reads area.data
  {
    area.Holds(Cell(p.x - left, p.y - top)) && ByRow(Cell(p.x - left, p.y - top), x, y) && clear(p)
  }

  ghost predicate Lists(list: seq<Cell>, area: MatrixArea, left: int, top: int, clear: Cell -> bool, x: int, y: int)
    requires area.Valid()
    reads area.data
  {
    Distinct(list) && forall p :: p in list <==> Found(area, left, top, clear, p, x, y)
  }

  lemma ListsNext(list: seq<Cell>, area: MatrixArea, left: int, top: int, clear: Cell -> bool, x: nat, y: nat)
    requires area.Valid() && x < area.cols && y < area.rows && Lists(list, area, left, top, clear, x, y)
    ensures var p := Cell(left + x, top + y);
            Lists(if area.GetValue(y, x) && clear(p) then list + [p] else list, area, left, top, clear, x + 1, y)
  {
    var p := Cell(left + x, top + y);
    var more := if area.GetValue(y, x) && clear(p) then list + [p] else list;
    assert !Found(area, left, top, clear, p, x, y);
    forall q ensures q in more <==> Found(area, left, top, clear, q, x + 1, y) {
      assert q != p ==> (Found(area, left, top, clear, q, x + 1, y) <==> Found(area, left, top, clear, q, x, y));
      assert Found(area, left, top, clear, p, x + 1, y) <==> area.GetValue(y, x) && clear(p);
    }
  }

  lemma RowDone(list: seq<Cell>, area: MatrixArea, left: int, top: int, clear: Cell -> bool, y: nat)
    requires area.Valid() && y < area.rows && Lists(list, area, left, top, clear, area.cols, y)
    ensures Lists(list, area, left, top, clear, 0, y + 1)
  {
    forall q ensures Found(area, left, top, clear, q, area.cols, y) <==> Found(area, left, top, clear, q, 0, y + 1) {
    }
  }

  lemma ScanDone(list: seq<Cell>, area: MatrixArea, target: Cell, clear: Cell -> bool)
    requires area.Valid() && Lists(list, area, target.x - area.centerX, target.y - area.centerY, clear, 0, area.rows)
    ensures Distinct(list)
    ensures forall p :: p in list <==> Cell(p.x - target.x, p.y - target.y) in area.Now().Offsets() && clear(p)
  {
    hide Distinct;
    var left, top := target.x - area.centerX, target.y - area.centerY;
    forall p ensures p in list <==> Cell(p.x - target.x, p.y - target.y) in area.Now().Offsets() && clear(p) {
      OffsetHolds(area, Cell(p.x - target.x, p.y - target.y));
      assert p in list <==> Found(area, left, top, clear, p, 0, area.rows);
    }
  }

  /** The scan of the matrix in `getList`, row by row, with the running position. */
  method Enumerate(area: MatrixArea, target: Cell, clear: Cell -> bool) returns (list: seq<Cell>)
    requires area.Valid()
    ensures Distinct(list)
    ensures forall p :: p in list <==> Cell(p.x - target.x, p.y - target.y) in area.Now().Offsets() && clear(p)
  {
    hide Lists, Distinct;
    var tmpX, tmpY := target.x - area.centerX, target.y - area.centerY;
    ghost var left, top := tmpX, tmpY;
    list := [];
    assert Lists(list, area, left, top, clear, 0, 0) by { NothingListed(area, left, top, clear); }
    for y := 0 to area.rows
      invariant tmpX == left && tmpY == top + y
      invariant Lists(list, area, left, top, clear, 0, y)
    {
      for x := 0 to area.cols
        invariant tmpX == left + x && tmpY == top + y
        invariant Lists(list, area, left, top, clear, x, y)
      {
        ListsNext(list, area, left, top, clear, x, y);
        if area.GetValue(y, x) && clear(Cell(tmpX, tmpY)) {
          list := list + [Cell(tmpX, tmpY)];
        }
        tmpX := tmpX + 1;
      }
      RowDone(list, area, left, top, clear, y);
      tmpX := tmpX - area.cols;
      tmpY := tmpY + 1;
    }
    ScanDone(list, area, target, clear);
  }

  lemma NothingListed(area: MatrixArea, left: int, top: int, clear: Cell -> bool)
    requires area.Valid()
    ensures Lists([], area, left, top, clear, 0, 0)
  {
  }

  lemma OffsetHolds(m: MatrixArea, d: Cell)
    requires m.Valid()
    ensures d in m.Now().Offsets() <==> m.Holds(Cell(d.x + m.centerX, d.y + m.centerY))
  {
    var c := Cell(d.x + m.centerX, d.y + m.centerY);
    m.CellsHold(c);
    assert m.Now().Offset(c) == d;
    if d in m.Now().Offsets() {
      var e :| e in m.Now().cells && d == m.Now().Offset(e);
      assert e == c;
    }
  }

  lemma DrawnCenter(area: MatrixArea, list: seq<nat>, rows: nat)
    requires rows > 0 && |list| % rows == 0 && area.Valid() && area.Now() == Drawn(list, rows)
    ensures area.cols > 0 ==> area.Now().Inside(Cell(area.centerX, area.centerY))
  {
    if list != [] {
      CenterInside(list, rows);
    }
  }

  method RotatedArea(area: MatrixArea, size: nat, t: Turning) returns (r: MatrixArea)
    requires area.Valid() && size == OutputSize(area.rows, area.cols)
    requires area.rows > 0 && area.cols > 0 ==> area.Now().Inside(Cell(area.centerX, area.centerY))
    ensures fresh(r) && fresh(r.data) && r.Valid() && r.Now() == Rotation(area.Now(), t, size)
  {
    r := new MatrixArea(size, size);
    Rotate(area, r, t);
  }

  method MirroredArea(area: MatrixArea, size: nat) returns (r: MatrixArea)
    requires area.Valid() && area.cols <= size && area.rows <= size
    ensures fresh(r) && fresh(r.data) && r.Valid() && r.rows == r.cols == size && r.Now() == Mirror(area.Now(), size)
  {
    r := new MatrixArea(size, size);
    MirrorInto(area, r);
  }

  method FlippedArea(area: MatrixArea, size: nat) returns (r: MatrixArea)
    requires area.Valid() && area.cols <= size && area.rows <= size
    ensures fresh(r) && fresh(r.data) && r.Valid() && r.rows == r.cols == size && r.Now() == Flip(area.Now(), size)
  {
    r := new MatrixArea(size, size);
    FlipInto(area, r);
  }

  // ---------------------------------------------------------------- beams

  /** The list of `setupArea(length, spread)`. */
  method DrawBeam(length: nat, spread: nat) returns (list: seq<nat>)
    requires length >= 1
    ensures list == BeamList(length, spread)
  {
    hide Place, ColOf, RowOf, Count, ColSpread, BeamList;
    list := [];
    var cols := 1;
    if spread != 0 {
      cols := ((length - length % spread) / spread) * 2 + 1;
      WholeSpreads(length, spread);
    }
    var colSpread: int := cols;
    ghost var full := BeamList(length, spread);
    BeamStart(length, spread);
    for y := 1 to length + 1
      invariant colSpread == ColSpread(length, spread, y)
      invariant |list| == Place(0, y - 1, cols) <= |full| && list == full[..|list|]
    {
      BeamRow(length, spread, y);
      var mincol, maxcol := cols - colSpread + 1, cols - (cols - colSpread);
      for x := 1 to cols + 1
        invariant |list| == Place(x - 1, y - 1, cols) <= |full| && list == full[..|list|]
      {
        PlaceBack(x - 1, y - 1, length, cols);
        BeamNumber(length, spread, x, y);
        NextPlace(x - 1, y - 1, cols);
        assert full[..|list| + 1] == full[..|list|] + [full[|list|]];
        if y == length && x == ((cols - cols % 2) / 2) + 1 {
          list := list + [3];
        } else if x >= mincol && x <= maxcol {
          list := list + [1];
        } else {
          list := list + [0];
        }
      }
      RowEnds(y - 1, length, cols);
      if spread > 0 && y % spread == 0 {
        colSpread := colSpread - 1;
      }
    }
    BeamEnd(length, BeamCols(length, spread));
  }

  lemma WholeSpreads(length: nat, spread: nat)
    requires spread > 0
    ensures (length - length % spread) / spread == length / spread
  {
    assert length == spread * (length / spread) + length % spread;
    Bytes.RemainderIs(length - length % spread, spread, length / spread, 0);
  }

  lemma BeamStart(length: nat, spread: nat)
    requires length >= 1
    ensures ColSpread(length, spread, 1) == BeamCols(length, spread) && Place(0, 0, BeamCols(length, spread)) == 0
  {
  }

  lemma BeamEnd(length: nat, cols: nat)
    ensures Place(0, length, cols) == Count(length, cols)
  {
  }

  lemma RowEnds(y: nat, length: nat, cols: nat)
    requires y < length
    ensures Place(cols, y, cols) == Place(0, y + 1, cols) <= Count(length, cols)
  {
    Scaled(y + 1, length, cols);
    assert (y + 1) * cols == y * cols + cols;
  }

  /** `colSpread` loses one after every row whose number divides by the spread. */
  lemma BeamRow(length: nat, spread: nat, y: nat)
    requires y >= 1
    ensures ColSpread(length, spread, y + 1) == ColSpread(length, spread, y) - (if spread > 0 && y % spread == 0 then 1 else 0)
  {
    if spread > 0 {
      var q, r := (y - 1) / spread, (y - 1) % spread;
      assert y - 1 == spread * q + r;
      if r + 1 == spread {
        assert (q + 1) * spread == spread * q + spread;
        Bytes.RemainderIs(y, spread, q + 1, 0);
      } else {
        Bytes.RemainderIs(y, spread, q, r + 1);
      }
    }
  }

  lemma BeamNumber(length: nat, spread: nat, x: nat, y: nat)
    requires 1 <= y <= length && 1 <= x <= BeamCols(length, spread)
    ensures var cols := BeamCols(length, spread);
            var i := Place(x - 1, y - 1, cols);
            i < |BeamList(length, spread)| && BeamList(length, spread)[i] == BeamMark(length, spread, x, y)
  {
    hide Place, ColOf, RowOf, Count, BeamMark;
    PlaceBack(x - 1, y - 1, length, BeamCols(length, spread));
  }

  lemma BeamTurned(length: nat, spread: nat, t: Turning, size: nat, d: Cell)
    requires length >= 1 && |BeamList(length, spread)| % length == 0
    ensures d in Rotation(Drawn(BeamList(length, spread), length), t, size).Offsets() <==> InBeam(length, spread, TurnBack(t, d))
  {
    hide BeamList, InBeam, Drawn, Rotation, Turn, TurnBack;
    var s := Drawn(BeamList(length, spread), length);
    RotationOffsets(s, t, size);
    BeamOffsets(length, spread, TurnBack(t, d));
    if d in Rotation(s, t, size).Offsets() {
      var e :| e in s.Offsets() && d == Turn(t, e);
      TurnedBack(t, e);
    }
  }

  /** `setupArea(length, spread)` */
  method SetupBeam(area: CombatArea, length: nat, spread: nat)
    requires length >= 1
    modifies area
    ensures area.hasExtArea == old(area.hasExtArea) && {NORTH, EAST, SOUTH, WEST} <= area.areas.Keys
    ensures forall d :: d in {NORTH, EAST, SOUTH, WEST} ==> fresh(area.areas[d]) && fresh(area.areas[d].data) && area.areas[d].Valid()
    ensures forall d :: d in area.areas && d !in {NORTH, EAST, SOUTH, WEST} ==> d in old(area.areas) && area.areas[d] == old(area.areas)[d]
    ensures forall o :: o in area.areas[NORTH].Now().Offsets() <==> InBeam(length, spread, o)
    ensures forall o :: o in area.areas[EAST].Now().Offsets() <==> InBeam(length, spread, TurnBack(Rotate90, o))
    ensures forall o :: o in area.areas[SOUTH].Now().Offsets() <==> InBeam(length, spread, TurnBack(Rotate180, o))
    ensures forall o :: o in area.areas[WEST].Now().Offsets() <==> InBeam(length, spread, TurnBack(Rotate270, o))
  {
    hide BeamList, InBeam, Drawn, Rotation, Turn, TurnBack, AreaToward;
    var numbers := DrawBeam(length, spread);
    BeamShape(length, spread);
    area.SetupArea(numbers, length);
    ghost var n := Drawn(numbers, length);
    forall o: Cell ensures o in n.Offsets() <==> InBeam(length, spread, o) {
      BeamOffsets(length, spread, o);
    }
    forall t: Turning, o: Cell
      ensures o in Rotation(n, t, OutputSize(n.rows, n.cols)).Offsets() <==> InBeam(length, spread, TurnBack(t, o)) {
      BeamTurned(length, spread, t, OutputSize(n.rows, n.cols), o);
    }
  }

  /** An offset from the target, turned to where it lies when the attack is to the north. */
  function Facing(dx: int, dy: int, o: Cell): Cell {
    if dx < 0 then TurnBack(Rotate270, o) else if dx > 0 then TurnBack(Rotate90, o) else if dy < 0 then o else TurnBack(Rotate180, o)
  }

  lemma StruckIs(length: nat, spread: nat, dx: int, dy: int, ox: int, oy: int)
    ensures InBeam(length, spread, Facing(dx, dy, Cell(ox, oy))) <==>
              var along := if dx < 0 then -ox else if dx > 0 then ox else if dy < 0 then -oy else oy;
              var side := if dx != 0 then oy else ox;
              && 0 <= along < length
              && (spread == 0 ==> side == 0)
              && (spread > 0 ==> length - 1 - along < spread * (length / spread + 1 - side))
              && (spread > 0 ==> length - 1 - along < spread * (length / spread + 1 + side))
  {
    hide InBeam;
    InBeamIs(length, spread, Facing(dx, dy, Cell(ox, oy)));
  }

  lemma SameSide(a: int, b: int)
    requires (a >= 0 && b >= 0) || (a <= 0 && b <= 0)
    ensures a * b >= 0
  {
  }

  method StrikeFacing(area: CombatArea, length: nat, spread: nat, center: Cell, target: Cell, clear: Cell -> bool)
    returns (list: seq<Cell>)
    requires length >= 1 && area.Valid() && (!area.hasExtArea || center.x == target.x || center.y == target.y)
    modifies area
    ensures Distinct(list)
    ensures forall p :: p in list <==>
              && clear(p)
              && InBeam(length, spread, Facing(target.x - center.x, target.y - center.y, Cell(p.x - target.x, p.y - target.y)))
  {
    hide InBeam, Distinct, Facing, TurnBack, Turn, MatrixArea.Now, Shape.Offsets;
    SetupBeam(area, length, spread);
    PickedArea(area, length, spread, target.x - center.x, target.y - center.y);
    hide Toward;
    var ok;
    ok, list := area.GetList(center, target, clear);
  }

  lemma PickedArea(area: CombatArea, length: nat, spread: nat, dx: int, dy: int)
    requires {NORTH, EAST, SOUTH, WEST} <= area.areas.Keys && (!area.hasExtArea || dx == 0 || dy == 0)
    requires forall d :: d in {NORTH, EAST, SOUTH, WEST} ==> area.areas[d].Valid()
    requires forall o :: o in area.areas[NORTH].Now().Offsets() <==> InBeam(length, spread, o)
    requires forall o :: o in area.areas[EAST].Now().Offsets() <==> InBeam(length, spread, TurnBack(Rotate90, o))
    requires forall o :: o in area.areas[SOUTH].Now().Offsets() <==> InBeam(length, spread, TurnBack(Rotate180, o))
    requires forall o :: o in area.areas[WEST].Now().Offsets() <==> InBeam(length, spread, TurnBack(Rotate270, o))
    ensures var d := Toward(dx, dy, area.hasExtArea);
            && d in area.areas && area.areas[d].Valid()
            && forall o :: o in area.areas[d].Now().Offsets() <==> InBeam(length, spread, Facing(dx, dy, o))
  {
    hide InBeam, Facing, TurnBack, Turn, MatrixArea.Now, Shape.Offsets;
    var d := Toward(dx, dy, area.hasExtArea);
    forall o ensures o in area.areas[d].Now().Offsets() <==> InBeam(length, spread, Facing(dx, dy, o)) {
      FacingIs(dx, dy, o);
    }
  }

  /** A beam goes away from the attacker, starting at the target: it hits the places less than the length farther out, and to
      either side of the line as far as one cell for each full `spread` rows. */
  method Strike(area: CombatArea, length: nat, spread: nat, center: Cell, target: Cell, clear: Cell -> bool) returns (list: seq<Cell>)
    requires length >= 1 && area.Valid() && (!area.hasExtArea || center.x == target.x || center.y == target.y)
    modifies area
    ensures Distinct(list)
    ensures forall p :: p in list <==>
              var dx, dy, ox, oy := target.x - center.x, target.y - center.y, p.x - target.x, p.y - target.y;
              var along := if dx < 0 then -ox else if dx > 0 then ox else if dy < 0 then -oy else oy;
              var side := if dx != 0 then oy else ox;
              && clear(p) && 0 <= along < length
              && (spread == 0 ==> side == 0)
              && (spread > 0 ==> length - 1 - along < spread * (length / spread + 1 - side))
              && (spread > 0 ==> length - 1 - along < spread * (length / spread + 1 + side))
    ensures forall p :: p in list ==>
              var dx, dy := target.x - center.x, target.y - center.y;
              && (dx != 0 ==> (p.x - target.x) * dx >= 0)
              && (dx == 0 ==> (p.y - target.y) * dy >= 0)
  {
    hide InBeam, Distinct, Facing, CombatArea.Valid;
    list := StrikeFacing(area, length, spread, center, target, clear);
    BeamAhead(list, length, spread, center, target, clear);
  }

  lemma FacingIs(dx: int, dy: int, o: Cell)
    ensures dx < 0 ==> Facing(dx, dy, o) == TurnBack(Rotate270, o)
    ensures dx > 0 ==> Facing(dx, dy, o) == TurnBack(Rotate90, o)
    ensures dx == 0 && dy < 0 ==> Facing(dx, dy, o) == o
    ensures dx == 0 && dy >= 0 ==> Facing(dx, dy, o) == TurnBack(Rotate180, o)
  {
  }

  lemma BeamAhead(list: seq<Cell>, length: nat, spread: nat, center: Cell, target: Cell, clear: Cell -> bool)
    requires forall p :: p in list <==>
               && clear(p)
               && InBeam(length, spread, Facing(target.x - center.x, target.y - center.y, Cell(p.x - target.x, p.y - target.y)))
    ensures forall p :: p in list <==>
              var dx, dy, ox, oy := target.x - center.x, target.y - center.y, p.x - target.x, p.y - target.y;
              var along := if dx < 0 then -ox else if dx > 0 then ox else if dy < 0 then -oy else oy;
              var side := if dx != 0 then oy else ox;
              && clear(p) && 0 <= along < length
              && (spread == 0 ==> side == 0)
              && (spread > 0 ==> length - 1 - along < spread * (length / spread + 1 - side))
              && (spread > 0 ==> length - 1 - along < spread * (length / spread + 1 + side))
    ensures forall p :: p in list ==>
              var dx, dy := target.x - center.x, target.y - center.y;
              && (dx != 0 ==> (p.x - target.x) * dx >= 0)
              && (dx == 0 ==> (p.y - target.y) * dy >= 0)
  {
    hide InBeam, Facing;
    var dx, dy := target.x - center.x, target.y - center.y;
    forall p {:trigger p in list}
      ensures p in list <==>
              var ox, oy := p.x - target.x, p.y - target.y;
              var along := if dx < 0 then -ox else if dx > 0 then ox else if dy < 0 then -oy else oy;
              var side := if dx != 0 then oy else ox;
              && clear(p) && 0 <= along < length
              && (spread == 0 ==> side == 0)
              && (spread > 0 ==> length - 1 - along < spread * (length / spread + 1 - side))
              && (spread > 0 ==> length - 1 - along < spread * (length / spread + 1 + side))
    {
      StruckIs(length, spread, dx, dy, p.x - target.x, p.y - target.y);
    }
    forall p | p in list ensures (dx != 0 ==> (p.x - target.x) * dx >= 0) && (dx == 0 ==> (p.y - target.y) * dy >= 0) {
      StruckIs(length, spread, dx, dy, p.x - target.x, p.y - target.y);
      SameSide(p.x - target.x, if dx != 0 then dx else 0);
      SameSide(p.y - target.y, if dx == 0 then dy else 0);
    }
  }
}
