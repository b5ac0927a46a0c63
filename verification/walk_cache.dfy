/** The walk cache of a creature: a window of booleans that follows it over the map. */
module WalkCache {
  import opened Basics

  /** Twice Map::maxViewport plus one, for both axes. */
  const WIDTH := 23
  const RADIUS := 11

  datatype Position = Position(x: int, y: int, z: int)

  /** What asking the tile at a position for a place answers. */
  datatype Passage = NoTile | Open | Blocked

  type World = Position -> Passage

  /** The position that the window around `at` shows in row `y`, column `x`. */
  function At(at: Position, y: int, x: int): Position {
    Position(at.x + x - RADIUS, at.y + y - RADIUS, at.z)
  }

  predicate InWindow(y: int, x: int) {
    0 <= y < WIDTH && 0 <= x < WIDTH
  }

  /** The window shows 23 by 23 squares, the creature's own in the middle. */
  lemma WindowSquares(at: Position, y: int, x: int)
    ensures InWindow(y, x) <==> 0 <= y <= 22 && 0 <= x <= 22
    ensures At(at, 11, 11) == at && At(at, 0, 22) == Position(at.x + 11, at.y - 11, at.z)
    ensures (exists v, u :: InWindow(v, u) && At(at, v, u) == Position(x, y, at.z)) <==> -11 <= x - at.x <= 11 && -11 <= y - at.y <= 11
  {
    if -11 <= x - at.x <= 11 && -11 <= y - at.y <= 11 {
      assert InWindow(y - at.y + 11, x - at.x + 11) && At(at, y - at.y + 11, x - at.x + 11) == Position(x, y, at.z);
    }
  }

  /** The worlds before and after a creature walked: only the two squares may answer differently. */
  ghost predicate Stepped(before: World, after: World, oldPos: Position, newPos: Position) {
    forall pos :: pos != oldPos && pos != newPos ==> after(pos) == before(pos)
  }

  class Creature {
    var position: Position
    var isMapLoaded: bool
    const useCacheMap: bool
    const localMapCache: array2<bool>

    ghost predicate Valid() {
      localMapCache.Length0 == WIDTH && localMapCache.Length1 == WIDTH
    }

    /** The window shows the world around `at`, wherever there is a tile; its own square is not looked at. */
    ghost predicate Agrees(world: World, at: Position)
      requires Valid()
      reads localMapCache
    {
      forall y, x :: InWindow(y, x) && !(y == x == RADIUS) && world(At(at, y, x)) != NoTile ==>
        localMapCache[y, x] == (world(At(at, y, x)) == Open)
    }

    constructor (position: Position, useCacheMap: bool)
      ensures Valid() && fresh(localMapCache) && !isMapLoaded
      ensures this.position == position && this.useCacheMap == useCacheMap
      ensures forall y, x :: InWindow(y, x) ==> !localMapCache[y, x]
    {
      this.position, this.useCacheMap, isMapLoaded := position, useCacheMap, false;
      localMapCache := new bool[WIDTH, WIDTH]((y, x) => false);
    }

    /** Creature::updateTileCache by offset; a missing tile is blocked. */
    method UpdateTileCache(tile: Passage, dx: int, dy: int)
      requires Valid()
      modifies localMapCache
      ensures forall y, x :: InWindow(y, x) ==>
                localMapCache[y, x] == if y == RADIUS + dy && x == RADIUS + dx then tile == Open else old(localMapCache[y, x])
    {
      if Abs(dx) <= (WIDTH - 1) / 2 && Abs(dy) <= (WIDTH - 1) / 2 {
        var x, y := (WIDTH - 1) / 2 + dx, (WIDTH - 1) / 2 + dy;
        localMapCache[y, x] := tile == Open;
      }
    }

    method UpdateTileAt(tile: Passage, pos: Position)
      requires Valid()
      modifies localMapCache
      ensures forall y, x :: InWindow(y, x) ==>
                localMapCache[y, x] == if At(position, y, x) == pos then tile == Open else old(localMapCache[y, x])
    {
      if pos.z == position.z {
        UpdateTileCache(tile, pos.x - position.x, pos.y - position.y);
      }
    }

    /** Creature::updateMapCache; where there is no tile the old entry stays. */
    method UpdateMapCache(world: World)
      requires Valid()
      modifies localMapCache
      ensures Agrees(world, position)
      ensures forall y, x :: InWindow(y, x) ==>
                localMapCache[y, x] ==
                  if world(At(position, y, x)) == NoTile then old(localMapCache[y, x]) else world(At(position, y, x)) == Open
    {
      for y := -RADIUS to RADIUS + 1
        invariant Filled(world, y + RADIUS, 0)
      {
        for x := -RADIUS to RADIUS + 1
          invariant Filled(world, y + RADIUS, x + RADIUS)
        {
          var dest := Position(position.x + x, position.y + y, position.z);
          assert dest == At(position, y + RADIUS, x + RADIUS);
          var tile := world(dest);
          if tile != NoTile {
            UpdateTileAt(tile, dest);
          }
        }
      }
    }

    /** Rows before `row`, and of `row` the columns before `column`, were asked anew. */
    twostate predicate Filled(world: World, row: int, column: int)
      requires Valid()
      reads this, localMapCache
    {
      forall y, x :: InWindow(y, x) ==>
        localMapCache[y, x] ==
          if (y < row || (y == row && x < column)) && world(At(position, y, x)) != NoTile then world(At(position, y, x)) == Open
          else old(localMapCache[y, x])
    }

    // -------------------------------------------------------------- following a step

    /** The loop over a row or column that was freed: every tile is asked, missing ones included. */
    method RefillRow(world: World, dy: int)
      requires Valid() && Abs(dy) <= RADIUS
      modifies localMapCache
      ensures forall y, x :: InWindow(y, x) ==>
                localMapCache[y, x] == if y == RADIUS + dy then world(At(position, y, x)) == Open else old(localMapCache[y, x])
    {
      for x := -RADIUS to RADIUS + 1
        invariant forall j, i :: InWindow(j, i) ==>
                    localMapCache[j, i] ==
                      if j == RADIUS + dy && i < RADIUS + x then world(At(position, j, i)) == Open else old(localMapCache[j, i])
      {
        var tile := world(Position(position.x + x, position.y + dy, position.z));
        assert Position(position.x + x, position.y + dy, position.z) == At(position, RADIUS + dy, RADIUS + x);
        UpdateTileCache(tile, x, dy);
      }
    }

    method RefillColumn(world: World, dx: int)
      requires Valid() && Abs(dx) <= RADIUS
      modifies localMapCache
      ensures forall y, x :: InWindow(y, x) ==>
                localMapCache[y, x] == if x == RADIUS + dx then world(At(position, y, x)) == Open else old(localMapCache[y, x])
    {
      for y := -RADIUS to RADIUS + 1
        invariant forall j, i :: InWindow(j, i) ==>
                    localMapCache[j, i] ==
                      if i == RADIUS + dx && j < RADIUS + y then world(At(position, j, i)) == Open else old(localMapCache[j, i])
      {
        var tile := world(Position(position.x + dx, position.y + y, position.z));
        assert Position(position.x + dx, position.y + y, position.z) == At(position, RADIUS + y, RADIUS + dx);
        UpdateTileCache(tile, dx, y);
      }
    }

    /** memcpy of one row onto another. */
    method CopyRow(to: int, from: int)
      requires Valid() && 0 <= to < WIDTH && 0 <= from < WIDTH && to != from
      modifies localMapCache
      ensures forall y, x :: InWindow(y, x) ==>
                localMapCache[y, x] == if y == to then old(localMapCache[from, x]) else old(localMapCache[y, x])
    {
      forall x | 0 <= x < WIDTH {
        localMapCache[to, x] := localMapCache[from, x];
      }
    }

    method ShiftSouth()
      requires Valid()
      modifies localMapCache
      ensures forall y, x :: InWindow(y, x) ==>
                localMapCache[y, x] == old(localMapCache[if y > 0 then y - 1 else y, x])
    {
      var y := WIDTH - 1 - 1;
      while y >= 0
        invariant -1 <= y <= WIDTH - 2
        invariant forall j, i :: InWindow(j, i) ==>
                    localMapCache[j, i] == old(localMapCache[if j > y + 1 then j - 1 else j, i])
      {
        CopyRow(y + 1, y);
        y := y - 1;
      }
    }

    method ShiftNorth()
      requires Valid()
      modifies localMapCache
      ensures forall y, x :: InWindow(y, x) ==>
                localMapCache[y, x] == old(localMapCache[if y < WIDTH - 1 then y + 1 else y, x])
    {
      for y := 0 to WIDTH - 1
        invariant forall j, i :: InWindow(j, i) ==>
                    localMapCache[j, i] == old(localMapCache[if j < y then j + 1 else j, i])
      {
        CopyRow(y, y + 1);
      }
    }

    method ShiftRowWest(y: int)
      requires Valid() && 0 <= y < WIDTH
      modifies localMapCache
      ensures forall j, i :: InWindow(j, i) ==>
                localMapCache[j, i] == old(localMapCache[j, if j == y && i < WIDTH - 1 then i + 1 else i])
    {
      for x := 0 to WIDTH - 1
        invariant forall i :: 0 <= i < x ==> localMapCache[y, i] == old(localMapCache[y, i + 1])
        invariant forall j, i :: InWindow(j, i) && !(j == y && i < x) ==> localMapCache[j, i] == old(localMapCache[j, i])
      {
        localMapCache[y, x] := localMapCache[y, x + 1];
      }
    }

    method ShiftRowEast(y: int)
      requires Valid() && 0 <= y < WIDTH
      modifies localMapCache
      ensures forall j, i :: InWindow(j, i) ==>
                localMapCache[j, i] == old(localMapCache[j, if j == y && i > 0 then i - 1 else i])
    {
      var x := WIDTH - 1 - 1;
      while x >= 0
        invariant -1 <= x <= WIDTH - 2
        invariant forall i :: x + 1 < i < WIDTH ==> localMapCache[y, i] == old(localMapCache[y, i - 1])
        invariant forall j, i :: InWindow(j, i) && !(j == y && i > x + 1) ==> localMapCache[j, i] == old(localMapCache[j, i])
      {
        localMapCache[y, x + 1] := localMapCache[y, x];
        x := x - 1;
      }
    }

    method ShiftWest(starty: int, endy: int)
      requires Valid() && 0 <= starty && endy < WIDTH
      modifies localMapCache
      ensures forall j, i :: InWindow(j, i) ==>
                localMapCache[j, i] == old(localMapCache[j, if starty <= j <= endy && i < WIDTH - 1 then i + 1 else i])
    {
      var y := starty;
      while y <= endy
        invariant starty <= y
        invariant forall j, i :: InWindow(j, i) ==>
                    localMapCache[j, i] == old(localMapCache[j, if starty <= j <= endy && j < y && i < WIDTH - 1 then i + 1 else i])
      {
        ShiftRowWest(y);
        y := y + 1;
      }
    }

    method ShiftEast(starty: int, endy: int)
      requires Valid() && 0 <= starty && endy < WIDTH
      modifies localMapCache
      ensures forall j, i :: InWindow(j, i) ==>
                localMapCache[j, i] == old(localMapCache[j, if starty <= j <= endy && i > 0 then i - 1 else i])
    {
      var y := starty;
      while y <= endy
        invariant starty <= y
        invariant forall j, i :: InWindow(j, i) ==>
                    localMapCache[j, i] == old(localMapCache[j, if starty <= j <= endy && j < y && i > 0 then i - 1 else i])
      {
        ShiftRowEast(y);
        y := y + 1;
      }
    }

    method MoveSouth(world: World)
      requires Valid()
      modifies localMapCache
      ensures forall y, x :: InWindow(y, x) ==>
                localMapCache[y, x] == if y - 1 >= 0 then old(localMapCache[y - 1, x]) else world(At(position, y, x)) == Open
    {
      ShiftSouth();
      RefillRow(world, -((WIDTH - 1) / 2));
    }

    method MoveNorth(world: World)
      requires Valid()
      modifies localMapCache
      ensures forall y, x :: InWindow(y, x) ==>
                localMapCache[y, x] == if y + 1 < WIDTH then old(localMapCache[y + 1, x]) else world(At(position, y, x)) == Open
    {
      ShiftNorth();
      RefillRow(world, (WIDTH - 1) / 2);
    }

    /** The north-south part: with dy = oldPos.y - newPos.y, a row comes from `dy` rows above it,
        and the row that comes from outside the window is asked anew. */
    method MoveRows(world: World, oldPos: Position, newPos: Position)
      requires Valid() && Abs(oldPos.y - newPos.y) <= 1
      modifies localMapCache
      ensures forall y, x {:trigger localMapCache[y, x]} :: InWindow(y, x) ==>
                var from := y - (oldPos.y - newPos.y);
                localMapCache[y, x] ==
                  if 0 <= from < WIDTH then old(localMapCache[from, x]) else world(At(position, y, x)) == Open
    {
      if oldPos.y > newPos.y {
        MoveSouth(world);
      } else if oldPos.y < newPos.y {
        MoveNorth(world);
      }
    }

    method MoveWest(world: World, starty: int, endy: int)
      requires Valid() && 0 <= starty && endy < WIDTH
      modifies localMapCache
      ensures forall y, x :: InWindow(y, x) ==>
                localMapCache[y, x] ==
                  if x + 1 >= WIDTH then world(At(position, y, x)) == Open
                  else old(localMapCache[y, if starty <= y <= endy then x + 1 else x])
    {
      ShiftWest(starty, endy);
      RefillColumn(world, (WIDTH - 1) / 2);
    }

    method MoveEast(world: World, starty: int, endy: int)
      requires Valid() && 0 <= starty && endy < WIDTH
      modifies localMapCache
      ensures forall y, x :: InWindow(y, x) ==>
                localMapCache[y, x] ==
                  if x - 1 < 0 then world(At(position, y, x)) == Open
                  else old(localMapCache[y, if starty <= y <= endy then x - 1 else x])
    {
      ShiftEast(starty, endy);
      RefillColumn(world, -((WIDTH - 1) / 2));
    }

    /** The east-west part: the row that was asked anew stays where it is. */
    method MoveColumns(world: World, oldPos: Position, newPos: Position)
      requires Valid() && Abs(oldPos.y - newPos.y) <= 1 && Abs(oldPos.x - newPos.x) <= 1
      modifies localMapCache
      ensures forall y, x {:trigger localMapCache[y, x]} :: InWindow(y, x) ==>
                var from, row := x - (oldPos.x - newPos.x), y - (oldPos.y - newPos.y);
                localMapCache[y, x] ==
                  if !(0 <= from < WIDTH) then world(At(position, y, x)) == Open
                  else old(localMapCache[y, if 0 <= row < WIDTH then from else x])
    {
      var starty, endy, dy := 0, WIDTH - 1, oldPos.y - newPos.y;
      if dy < 0 {
        endy := endy + dy;
      } else if dy > 0 {
        starty := starty + dy;
      }
      if oldPos.x < newPos.x {
        MoveWest(world, starty, endy);
      } else if oldPos.x > newPos.x {
        MoveEast(world, starty, endy);
      }
    }

    /** Creature::onCreatureMove for the creature itself, which already stands at `newPos`: a window
        that agreed before the step agrees after it, and a jump makes it agree whatever it held. */
    method OnOwnMove(ghost before: World, world: World, oldPos: Position, newPos: Position, teleport: bool)
      requires Valid() && position == newPos
      requires !teleport && oldPos.z == newPos.z ==> Abs(oldPos.x - newPos.x) <= 1 && Abs(oldPos.y - newPos.y) <= 1
      requires Stepped(before, world, oldPos, newPos)
      modifies localMapCache
      ensures isMapLoaded && (old(Agrees(before, oldPos)) || teleport || oldPos.z != newPos.z) ==> Agrees(world, newPos)
      ensures !isMapLoaded ==> forall y, x :: InWindow(y, x) ==> localMapCache[y, x] == old(localMapCache[y, x])
    {
      if isMapLoaded {
        if !teleport && oldPos.z == newPos.z {
          FollowStep(before, world, oldPos, newPos);
        } else {
          UpdateMapCache(world);
        }
      }
    }

    method FollowStep(ghost before: World, world: World, oldPos: Position, newPos: Position)
      requires Valid() && position == newPos && oldPos.z == newPos.z
      requires Abs(oldPos.x - newPos.x) <= 1 && Abs(oldPos.y - newPos.y) <= 1
      requires Stepped(before, world, oldPos, newPos)
      modifies localMapCache
      ensures old(Agrees(before, oldPos)) ==> Agrees(world, newPos)
    {
      Carry(before, world, oldPos, newPos);
      UpdateTileAt(world(oldPos), oldPos);
    }

    /** The entry of one square is right, unless it is the creature's own or has no tile. */
    ghost predicate Right(world: World, at: Position, y: int, x: int)
      requires Valid() && InWindow(y, x)
      reads localMapCache
    {
      !(y == x == RADIUS) && world(At(at, y, x)) != NoTile ==> localMapCache[y, x] == (world(At(at, y, x)) == Open)
    }

    /** After the shift only the square left behind may be wrong. */
    method Carry(ghost before: World, world: World, oldPos: Position, newPos: Position)
      requires Valid() && position == newPos && oldPos.z == newPos.z
      requires Abs(oldPos.x - newPos.x) <= 1 && Abs(oldPos.y - newPos.y) <= 1
      requires Stepped(before, world, oldPos, newPos)
      modifies localMapCache
      ensures old(Agrees(before, oldPos)) ==>
                forall y, x :: InWindow(y, x) && At(newPos, y, x) != oldPos ==> Right(world, newPos, y, x)
    {
      ghost var dy, dx := oldPos.y - newPos.y, oldPos.x - newPos.x;
      Shift(world, oldPos, newPos);
      if old(Agrees(before, oldPos)) {
        forall y, x | InWindow(y, x) && At(newPos, y, x) != oldPos
          ensures Right(world, newPos, y, x)
        {
          assert Came(world, y, x, dy, dx);
          if InWindow(y - dy, x - dx) {
            assert At(oldPos, y - dy, x - dx) == At(newPos, y, x);
          }
        }
      }
    }

    /** A square's entry came along from where it was `dy` rows and `dx` columns away, or was asked anew. */
    twostate predicate Came(world: World, y: int, x: int, dy: int, dx: int)
      requires Valid() && InWindow(y, x)
      reads this, localMapCache
    {
      localMapCache[y, x] ==
        if InWindow(y - dy, x - dx) then old(localMapCache[y - dy, x - dx]) else world(At(position, y, x)) == Open
    }

    /** Both parts together: every square keeps its entry, and those new in the window are asked. */
    method Shift(world: World, oldPos: Position, newPos: Position)
      requires Valid() && Abs(oldPos.x - newPos.x) <= 1 && Abs(oldPos.y - newPos.y) <= 1
      modifies localMapCache
      ensures forall y, x :: InWindow(y, x) ==> Came(world, y, x, oldPos.y - newPos.y, oldPos.x - newPos.x)
    {
      hide At;
      MoveRows(world, oldPos, newPos);
      MoveColumns(world, oldPos, newPos);
    }

    /** Creature::onCreatureMove for another creature. */
    method OnOtherMove(ghost before: World, world: World, oldPos: Position, newPos: Position)
      requires Valid() && Stepped(before, world, oldPos, newPos)
      modifies localMapCache
      ensures isMapLoaded && old(Agrees(before, position)) ==> Agrees(world, position)
    {
      if isMapLoaded {
        if newPos.z == position.z {
          UpdateTileAt(world(newPos), newPos);
        }
        if oldPos.z == position.z {
          UpdateTileAt(world(oldPos), oldPos);
        }
      }
    }

    /** onAddTileItem, onUpdateTileItem and onRemoveTileItem, when the square's answer changes. */
    method OnTileChange(ghost before: World, world: World, pos: Position)
      requires Valid() && Stepped(before, world, pos, pos)
      modifies localMapCache
      ensures isMapLoaded && old(Agrees(before, position)) ==> Agrees(world, position)
    {
      if isMapLoaded && pos.z == position.z {
        UpdateTileAt(world(pos), pos);
      }
    }

    /** onCreatureAppear and onThink load the window the first time it is of use. */
    method Load(world: World)
      requires Valid()
      modifies this`isMapLoaded, localMapCache
      ensures useCacheMap ==> isMapLoaded
      ensures !old(isMapLoaded) && useCacheMap ==> Agrees(world, position)
    {
      if !isMapLoaded && useCacheMap {
        isMapLoaded := true;
        UpdateMapCache(world);
      }
    }

    /** Creature::getWalkCache: 1 open, 0 blocked, 2 not known.  A window that agrees answers as the
        world would. */
    method GetWalkCache(ghost world: World, pos: Position) returns (answer: nat)
      requires Valid()
      ensures answer <= 2
      ensures answer == 2 <==> !useCacheMap || (pos.z == position.z && (Abs(pos.x - position.x) > RADIUS || Abs(pos.y - position.y) > RADIUS))
      ensures answer != 2 ==>
                && (pos.z != position.z ==> answer == 0)
                && (pos == position ==> answer == 1)
                && (pos.z == position.z && pos != position && Agrees(world, position) && world(pos) != NoTile ==>
                      (answer == 1 <==> world(pos) == Open))
    {
      if !useCacheMap {
        return 2;
      }
      if position.z != pos.z {
        return 0;
      }
      if pos == position {
        return 1;
      }
      var dx, dy := pos.x - position.x, pos.y - position.y;
      if Abs(dx) <= (WIDTH - 1) / 2 && Abs(dy) <= (WIDTH - 1) / 2 {
        var x, y := (WIDTH - 1) / 2 + dx, (WIDTH - 1) / 2 + dy;
        assert At(position, y, x) == pos;
        if localMapCache[y, x] {
          return 1;
        }
        return 0;
      }
      return 2;
    }
  }

  /** What a creature is told of: its own moves, those of others, and changes of single squares; each
      with the world as it is afterwards. */
  datatype Event =
    | OwnMove(after: World, newPos: Position, teleport: bool)
    | OtherMove(after: World, oldPos: Position, newPos: Position)
    | TileChange(after: World, pos: Position)

  /** Each event changes the world at its own squares only, and steps on the same floor that are
      no teleports go to a neighbouring square, as Tile::moveCreature sees to. */
  ghost predicate Plausible(world: World, position: Position, events: seq<Event>)
    decreases |events|
  {
    events == [] ||
    match events[0]
    case OwnMove(after, newPos, teleport) =>
      && Stepped(world, after, position, newPos)
      && (teleport || position.z != newPos.z || (Abs(position.x - newPos.x) <= 1 && Abs(position.y - newPos.y) <= 1))
      && Plausible(after, newPos, events[1..])
    case OtherMove(after, oldPos, newPos) =>
      Stepped(world, after, oldPos, newPos) && Plausible(after, position, events[1..])
    case TileChange(after, pos) =>
      Stepped(world, after, pos, pos) && Plausible(after, position, events[1..])
  }

  ghost function Finally(world: World, events: seq<Event>): World {
    if events == [] then world else events[|events| - 1].after
  }

  /** Over any run of events the window goes on showing the world. */
  method Follow(creature: Creature, ghost world: World, events: seq<Event>)
    requires creature.Valid() && creature.isMapLoaded && creature.Agrees(world, creature.position)
    requires Plausible(world, creature.position, events)
    modifies creature`position, creature.localMapCache
    ensures creature.Agrees(Finally(world, events), creature.position)
  {
    hide Creature.Agrees, Stepped;
    ghost var now := world;
    assert events[0..] == events;
    for i := 0 to |events|
      invariant creature.Agrees(now, creature.position) && Plausible(now, creature.position, events[i..])
      invariant now == Finally(world, events[..i])
    {
      assert events[i..][0] == events[i] && events[i..][1..] == events[i + 1..];
      match events[i] {
        case OwnMove(after, newPos, teleport) =>
          var oldPos := creature.position;
          creature.position := newPos;
          creature.OnOwnMove(now, after, oldPos, newPos, teleport);
        case OtherMove(after, oldPos, newPos) =>
          creature.OnOtherMove(now, after, oldPos, newPos);
        case TileChange(after, pos) =>
          creature.OnTileChange(now, after, pos);
      }
      now := events[i].after;
    }
    assert events[..|events|] == events;
  }
}
