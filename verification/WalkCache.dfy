/** The window of walkability a creature keeps around itself, and how it follows the creature. */
module WalkCache {

  const MAX_VIEWPORT_X := 11
  const MAX_VIEWPORT_Y := 11
  const WIDTH := MAX_VIEWPORT_X * 2 + 1
  const HEIGHT := MAX_VIEWPORT_Y * 2 + 1
  const HALF_X := (WIDTH - 1) / 2
  const HALF_Y := (HEIGHT - 1) / 2

  datatype Position = Position(x: int, y: int, z: int)

  /** Where tiles exist, and whether the creature could enter them (the tile's own answer, which is
      not looked into). */
  datatype World = World(tile: Position -> bool, walk: Position -> bool)

  /** What `updateTileCache` stores for a place. */
  function Stored(w: World, p: Position): bool {
    w.tile(p) && w.walk(p)
  }

  /** The same tiles, and the same answers except at a and b. */
  ghost predicate SameBut(w: World, w': World, a: Position, b: Position) {
    forall p: Position {:trigger w.tile(p)} {:trigger w'.tile(p)} {:trigger w.walk(p)} {:trigger w'.walk(p)} ::
      w.tile(p) == w'.tile(p) && (p != a && p != b ==> w.walk(p) == w'.walk(p))
  }

  /** The place the cell in row i, column j stands for. */
  function Place(pos: Position, i: int, j: int): Position {
    Position(pos.x + j - HALF_X, pos.y + i - HALF_Y, pos.z)
  }

  predicate InWindow(i: int, j: int) {
    0 <= i < HEIGHT && 0 <= j < WIDTH
  }

  /** p lies inside the window around pos. */
  predicate Near(pos: Position, p: Position) {
    pos.z == p.z && Abs(p.x - pos.x) <= HALF_X && Abs(p.y - pos.y) <= HALF_Y
  }

  function Abs(n: int): nat {
    if n < 0 then -n else n
  }

  class Creature {
    var pos: Position
    const cache: array2<bool>

    ghost predicate Valid()
    {
      cache.Length0 == HEIGHT && cache.Length1 == WIDTH
    }

    /** Every cell but the creature's own agrees with the world wherever there is a tile. */
    ghost predicate Agrees(w: World)
      requires Valid()
      reads this, cache
    {
      forall i, j :: InWindow(i, j) && (i, j) != (HALF_Y, HALF_X) && w.tile(Place(pos, i, j)) ==>
        cache[i, j] == w.walk(Place(pos, i, j))
    }

    constructor (pos: Position)
      ensures Valid() && fresh(cache) && this.pos == pos
      ensures forall i, j :: InWindow(i, j) ==> !cache[i, j]
    {
      this.pos := pos;
      cache := new bool[HEIGHT, WIDTH]((i, j) => false);
    }

    /** One cell, by its offset from the creature; silently nothing when out of range. */
    method UpdateTileCache(w: World, dx: int, dy: int)
      requires Valid()
      modifies cache
      ensures forall i, j :: InWindow(i, j) ==>
        cache[i, j] == if i == HALF_Y + dy && j == HALF_X + dx then w.tile(Place(pos, i, j)) && w.walk(Place(pos, i, j)) else old(cache[i, j])
    {
      if Abs(dx) <= HALF_X && Abs(dy) <= HALF_Y {
        var x, y := HALF_X + dx, HALF_Y + dy;
        cache[y, x] := Stored(w, Place(pos, y, x));
      }
    }

    /** Recomputes every cell that has a tile. */
    method UpdateMapCache(w: World)
      requires Valid()
      modifies cache
      ensures Agrees(w)
    {
      for y := -HALF_Y to HALF_Y + 1
        invariant forall i, j :: InWindow(i, j) && i < HALF_Y + y && w.tile(Place(pos, i, j)) ==> cache[i, j] == w.walk(Place(pos, i, j))
      {
        for x := -HALF_X to HALF_X + 1
          invariant forall i, j :: InWindow(i, j) && (i < HALF_Y + y || (i == HALF_Y + y && j < HALF_X + x)) && w.tile(Place(pos, i, j)) ==>
            cache[i, j] == w.walk(Place(pos, i, j))
        {
          if w.tile(Place(pos, HALF_Y + y, HALF_X + x)) {
            UpdateTileCache(w, x, y);
          }
        }
      }
    }

    /** 1 walkable, 0 not, 2 unknown; `useCacheMap` is false for creatures that keep no window. */
    method GetWalkCache(p: Position, useCacheMap: bool) returns (r: int)
      requires Valid()
      ensures !useCacheMap ==> r == 2
      ensures useCacheMap && pos.z != p.z ==> r == 0
      ensures useCacheMap && p == pos ==> r == 1
      ensures useCacheMap && pos.z == p.z && !Near(pos, p) ==> r == 2
      ensures forall w: World :: useCacheMap && Agrees(w) && w.tile(p) && p != pos && Near(pos, p) ==> r == if w.walk(p) then 1 else 0
    {
      if !useCacheMap {
        return 2;
      }
      if pos.z != p.z {
        return 0;
      }
      if p == pos {
        return 1;
      }
      var dx, dy := p.x - pos.x, p.y - pos.y;
      if Abs(dx) <= HALF_X && Abs(dy) <= HALF_Y {
        var x, y := HALF_X + dx, HALF_Y + dy;
        assert Place(pos, y, x) == p;
        return if cache[y, x] then 1 else 0;
      }
      return 2;
    }

    // ------------------------------------------------------------ the in-place shifts

    /** memcpy of one row. */
    method CopyRow(to: int, from: int)
      requires Valid() && 0 <= to < HEIGHT && 0 <= from < HEIGHT
      modifies cache
      ensures forall i, j :: InWindow(i, j) ==> cache[i, j] == old(cache[if i == to then from else i, j])
    {
      forall j | 0 <= j < WIDTH {
        cache[to, j] := cache[from, j];
      }
    }

    method ShiftSouth()
      requires Valid()
      modifies cache
      ensures forall i, j :: InWindow(i, j) ==> cache[i, j] == old(cache[if i > 0 then i - 1 else 0, j])
    {
      for y := HEIGHT - 1 downto 0
        invariant forall i, j :: InWindow(i, j) && i <= y ==> cache[i, j] == old(cache[i, j])
        invariant forall i, j :: InWindow(i, j) && i > y ==> cache[i, j] == old(cache[i - 1, j])
      {
        CopyRow(y + 1, y);
      }
    }

    method ShiftNorth()
      requires Valid()
      modifies cache
      ensures forall i, j :: InWindow(i, j) ==> cache[i, j] == old(cache[if i < HEIGHT - 1 then i + 1 else i, j])
    {
      for y := 0 to HEIGHT - 1
        invariant forall i, j :: InWindow(i, j) && i >= y ==> cache[i, j] == old(cache[i, j])
        invariant forall i, j :: InWindow(i, j) && i < y ==> cache[i, j] == old(cache[i + 1, j])
      {
        CopyRow(y, y + 1);
      }
    }

    method ShiftRowWest(y: int)
      requires Valid() && 0 <= y < HEIGHT
      modifies cache
      ensures forall i, j :: InWindow(i, j) ==> cache[i, j] == old(cache[i, if i == y && j < WIDTH - 1 then j + 1 else j])
    {
      for x := 0 to WIDTH - 1
        invariant forall i, j :: InWindow(i, j) && !(i == y && j < x) ==> cache[i, j] == old(cache[i, j])
        invariant forall j :: 0 <= j < x ==> cache[y, j] == old(cache[y, j + 1])
      {
        cache[y, x] := cache[y, x + 1];
      }
    }

    method ShiftWest(starty: int, endy: int)
      requires Valid() && 0 <= starty && endy < HEIGHT
      modifies cache
      ensures forall i, j :: InWindow(i, j) ==>
        cache[i, j] == old(cache[i, if starty <= i <= endy && j < WIDTH - 1 then j + 1 else j])
    {
      var y := starty;
      while y <= endy
        invariant starty <= y
        invariant forall i, j :: InWindow(i, j) ==>
          cache[i, j] == old(cache[i, if starty <= i < y && i <= endy && j < WIDTH - 1 then j + 1 else j])
      {
        ShiftRowWest(y);
        y := y + 1;
      }
    }

    method ShiftRowEast(y: int)
      requires Valid() && 0 <= y < HEIGHT
      modifies cache
      ensures forall i, j :: InWindow(i, j) ==> cache[i, j] == old(cache[i, if i == y && j > 0 then j - 1 else j])
    {
      for x := WIDTH - 1 downto 0
        invariant forall i, j :: InWindow(i, j) && !(i == y && j > x) ==> cache[i, j] == old(cache[i, j])
        invariant forall j :: x < j < WIDTH ==> cache[y, j] == old(cache[y, j - 1])
      {
        cache[y, x + 1] := cache[y, x];
      }
    }

    method ShiftEast(starty: int, endy: int)
      requires Valid() && 0 <= starty && endy < HEIGHT
      modifies cache
      ensures forall i, j :: InWindow(i, j) ==>
        cache[i, j] == old(cache[i, if starty <= i <= endy && j > 0 then j - 1 else j])
    {
      var y := starty;
      while y <= endy
        invariant starty <= y
        invariant forall i, j :: InWindow(i, j) ==>
          cache[i, j] == old(cache[i, if starty <= i < y && i <= endy && j > 0 then j - 1 else j])
      {
        ShiftRowEast(y);
        y := y + 1;
      }
    }

    method RefreshRow(w: World, dy: int)
      requires Valid() && Abs(dy) <= HALF_Y
      modifies cache
      ensures forall i, j :: InWindow(i, j) ==>
        cache[i, j] == if i == HALF_Y + dy then w.tile(Place(pos, i, j)) && w.walk(Place(pos, i, j)) else old(cache[i, j])
    {
      for x := -HALF_X to HALF_X + 1
        invariant forall i, j :: InWindow(i, j) ==>
          cache[i, j] == if i == HALF_Y + dy && j < HALF_X + x then w.tile(Place(pos, i, j)) && w.walk(Place(pos, i, j)) else old(cache[i, j])
      {
        UpdateTileCache(w, x, dy);
      }
    }

    method RefreshColumn(w: World, dx: int)
      requires Valid() && Abs(dx) <= HALF_X
      modifies cache
      ensures forall i, j :: InWindow(i, j) ==>
        cache[i, j] == if j == HALF_X + dx then w.tile(Place(pos, i, j)) && w.walk(Place(pos, i, j)) else old(cache[i, j])
    {
      for y := -HALF_Y to HALF_Y + 1
        invariant forall i, j :: InWindow(i, j) ==>
          cache[i, j] == if j == HALF_X + dx && i < HALF_Y + y then w.tile(Place(pos, i, j)) && w.walk(Place(pos, i, j)) else old(cache[i, j])
      {
        UpdateTileCache(w, dx, y);
      }
    }

    // ------------------------------------------------------------ following the creature

    /** The place a cell stands for once the rows, but not yet the columns, have moved. */
    ghost function RowPlace(from: Position, to: Position, i: int, j: int): Position {
      Position(from.x + j - HALF_X, to.y + i - HALF_Y, to.z)
    }

    /** The rows have moved: the row that came into view is already right for the new position,
        the others are right for the old column. */
    ghost predicate RowsDone(w: World, from: Position, to: Position)
      requires Valid()
      reads this, cache
    {
      forall i, j :: InWindow(i, j) ==>
        if FreshRow(from, to, i) then cache[i, j] == Stored(w, Place(to, i, j))
        else RowPlace(from, to, i, j) != from && RowPlace(from, to, i, j) != to && w.tile(RowPlace(from, to, i, j)) ==>
          cache[i, j] == w.walk(RowPlace(from, to, i, j))
    }

    /** Only the place left and the place entered may still be wrong. */
    ghost predicate AllButEnds(w: World, from: Position, to: Position)
      requires Valid()
      reads this, cache
    {
      forall i, j :: InWindow(i, j) && Place(to, i, j) != from && Place(to, i, j) != to && w.tile(Place(to, i, j)) ==>
        cache[i, j] == w.walk(Place(to, i, j))
    }

    /** The window was right around the old position. */
    ghost predicate AgreedAt(w: World, from: Position)
      requires Valid()
      reads this, cache
    {
      forall i, j :: InWindow(i, j) && (i, j) != (HALF_Y, HALF_X) && w.tile(Place(from, i, j)) ==>
        cache[i, j] == w.walk(Place(from, i, j))
    }

    method MoveRows(ghost w0: World, w: World, from: Position, to: Position)
      requires Valid() && pos == to && Beside(from, to) && SameBut(w0, w, from, to) && AgreedAt(w0, from)
      modifies cache
      ensures RowsDone(w, from, to)
    {
      if from.y > to.y {
        MoveWindowNorth(w0, w, from, to);
      } else if from.y < to.y {
        MoveWindowSouth(w0, w, from, to);
      } else {
        assert forall i, j :: RowPlace(from, to, i, j) == Place(from, i, j);
      }
    }

    method MoveWindowNorth(ghost w0: World, w: World, from: Position, to: Position)
      requires Valid() && pos == to && Beside(from, to) && SameBut(w0, w, from, to) && AgreedAt(w0, from) && from.y > to.y
      modifies cache
      ensures RowsDone(w, from, to)
    {
      ShiftSouth();
      RefreshRow(w, -HALF_Y);
      forall i, j | InWindow(i, j) && i > 0 ensures RowPlace(from, to, i, j) == Place(from, i - 1, j) {
      }
    }

    method MoveWindowSouth(ghost w0: World, w: World, from: Position, to: Position)
      requires Valid() && pos == to && Beside(from, to) && SameBut(w0, w, from, to) && AgreedAt(w0, from) && from.y < to.y
      modifies cache
      ensures RowsDone(w, from, to)
    {
      ShiftNorth();
      RefreshRow(w, HALF_Y);
      forall i, j | InWindow(i, j) && i < HEIGHT - 1 ensures RowPlace(from, to, i, j) == Place(from, i + 1, j) {
      }
    }

    method MoveColumns(w: World, from: Position, to: Position)
      requires Valid() && pos == to && Beside(from, to) && RowsDone(w, from, to)
      modifies cache
      ensures AllButEnds(w, from, to)
    {
      // the row that came into view must not be shifted again
      var starty, endy, dy := 0, HEIGHT - 1, from.y - to.y;
      if dy < 0 {
        endy := endy + dy;
      } else if dy > 0 {
        starty := starty + dy;
      }
      if from.x < to.x { // east
        MoveWindowEast(w, from, to, starty, endy);
      } else if from.x > to.x { // west
        MoveWindowWest(w, from, to, starty, endy);
      } else {
        assert forall i, j :: RowPlace(from, to, i, j) == Place(to, i, j);
      }
    }

    method MoveWindowEast(w: World, from: Position, to: Position, starty: int, endy: int)
      requires Valid() && pos == to && Beside(from, to) && from.x < to.x && RowsDone(w, from, to)
      requires starty == (if to.y < from.y then 1 else 0) && endy == HEIGHT - 1 - (if to.y > from.y then 1 else 0)
      modifies cache
      ensures AllButEnds(w, from, to)
    {
      ShiftWest(starty, endy);
      RefreshColumn(w, HALF_X);
      forall i, j | InWindow(i, j) && j < WIDTH - 1 ensures RowPlace(from, to, i, j + 1) == Place(to, i, j) {
      }
    }

    method MoveWindowWest(w: World, from: Position, to: Position, starty: int, endy: int)
      requires Valid() && pos == to && Beside(from, to) && from.x > to.x && RowsDone(w, from, to)
      requires starty == (if to.y < from.y then 1 else 0) && endy == HEIGHT - 1 - (if to.y > from.y then 1 else 0)
      modifies cache
      ensures AllButEnds(w, from, to)
    {
      ShiftEast(starty, endy);
      RefreshColumn(w, -HALF_X);
      forall i, j | InWindow(i, j) && j > 0 ensures RowPlace(from, to, i, j - 1) == Place(to, i, j) {
      }
    }

    /** `onCreatureMove` for the creature itself: a step to one of the eight neighbours shifts the
        window in place, a teleport or a change of floor recomputes it. */
    method OnOwnMove(ghost w0: World, w: World, newPos: Position, teleport: bool)
      requires Valid() && Agrees(w0) && SameBut(w0, w, pos, newPos) && w.tile(pos)
      requires !teleport && pos.z == newPos.z ==> Beside(pos, newPos)
      modifies this`pos, cache
      ensures pos == newPos && Agrees(w)
    {
      var oldPos := pos;
      pos := newPos;
      if !teleport && oldPos.z == newPos.z {
        MoveRows(w0, w, oldPos, newPos);
        MoveColumns(w, oldPos, newPos);
        UpdateTileCache(w, oldPos.x - newPos.x, oldPos.y - newPos.y);
      } else {
        UpdateMapCache(w);
      }
    }

    /** `updateTileCache` by position, on the creature's floor only. */
    method UpdateTileAt(ghost w0: World, w: World, p: Position)
      requires Valid() && Agrees(w0) && SameBut(w0, w, p, p)
      modifies cache
      ensures Agrees(w)
    {
      if p.z == pos.z {
        UpdateTileCache(w, p.x - pos.x, p.y - pos.y);
      }
    }

    /** `onCreatureMove` for another creature: the two tiles involved. */
    method OnOtherMove(ghost w0: World, w: World, from: Position, to: Position)
      requires Valid() && Agrees(w0) && SameBut(w0, w, from, to)
      modifies cache
      ensures Agrees(w)
    {
      if to.z == pos.z {
        UpdateTileCache(w, to.x - pos.x, to.y - pos.y);
      }
      if from.z == pos.z {
        UpdateTileCache(w, from.x - pos.x, from.y - pos.y);
      }
    }
  }

  predicate Beside(a: Position, b: Position) {
    a.z == b.z && Abs(a.x - b.x) <= 1 && Abs(a.y - b.y) <= 1
  }

  /** The row that comes into view on a step. */
  predicate FreshRow(from: Position, to: Position, i: int) {
    (to.y < from.y && i == 0) || (to.y > from.y && i == HEIGHT - 1)
  }

  // ---------------------------------------------------------------- whole runs

  /** What happens to the world around a creature, with the world after it. */
  datatype Event =
    | Own(to: Position, teleport: bool, after: World)
    | Other(from: Position, to: Position, after: World)
    | Changed(at: Position, after: World)

  /** The creature stands at `pos` in world `w`; may `e` happen next? */
  ghost predicate Possible(pos: Position, w: World, e: Event) {
    match e
    case Own(to, teleport, after) =>
      SameBut(w, after, pos, to) && after.tile(pos) && (!teleport && pos.z == to.z ==> Beside(pos, to))
    case Other(from, to, after) => SameBut(w, after, from, to)
    case Changed(at, after) => SameBut(w, after, at, at)
  }

  function PosAfter(pos: Position, e: Event): Position {
    if e.Own? then e.to else pos
  }

  ghost predicate AllPossible(pos: Position, w: World, es: seq<Event>)
    decreases |es|
  {
    es == [] || (Possible(pos, w, es[0]) && AllPossible(PosAfter(pos, es[0]), es[0].after, es[1..]))
  }

  function WorldAfter(w: World, es: seq<Event>): World {
    if es == [] then w else es[|es| - 1].after
  }

  /** After any run of events the window agrees with the world as it now is. */
  method Follow(c: Creature, ghost w0: World, es: seq<Event>)
    requires c.Valid() && c.Agrees(w0) && AllPossible(c.pos, w0, es)
    modifies c`pos, c.cache
    ensures c.Agrees(WorldAfter(w0, es))
    decreases |es|
  {
    if es != [] {
      match es[0] {
        case Own(to, teleport, after) => c.OnOwnMove(w0, after, to, teleport);
        case Other(from, to, after) => c.OnOtherMove(w0, after, from, to);
        case Changed(at, after) => c.UpdateTileAt(w0, after, at);
      }
      Follow(c, es[0].after, es[1..]);
    }
  }
}
