/** The catalog of square evacuation rooms: for each named configuration, the wall
    segments, the exit destinations, the door width and the zone where agents spawn.
    The source builds the tables once in the `Room` constructor and never changes
    them, so a room is a value here. */
module RoomLayout {
  import opened Planar

  datatype Option<T> = None | Some(value: T)

  /** A closed interval `[lo, hi]`: one row of the source's `spawn_zone` array. */
  datatype Interval = Interval(lo: real, hi: real)

  /** The rectangle `x × y` in which agents are placed before the run. */
  datatype SpawnZone = SpawnZone(x: Interval, y: Interval)

  datatype Room = Room(
    roomSize: real,
    wallShear: bool,
    doorSize: real,
    destination: seq<Vec>,
    numberOfWalls: nat,
    walls: seq<Wall>,
    spawnZone: SpawnZone)

  const OneExit := "square_room_with_1_exit"
  const OneExitWall := "square_room_with_1_exit_1_additional_wall"
  const TwoExits := "square_room_with_2_exits"
  const TwoExitsWall1 := "square_room_with_2_exits_1_additional_wall_1"
  const TwoExitsWall2 := "square_room_with_2_exits_1_additional_wall_2"

  /** The five configuration names the constructor recognises. */
  predicate Known(name: string) {
    name == OneExit || name == OneExitWall || name == TwoExits
    || name == TwoExitsWall1 || name == TwoExitsWall2
  }

  /** The interior wall that the configurations with `wall_shear` add. */
  function InteriorWall(l: real): Wall {
    Wall(Vec(l / 4.0, l * 0.3), Vec(l / 4.0, l * 0.7))
  }

  /** The two left-hand walls leave a gap of exactly `doorSize`, centred on the
      left side's mid-height. */
  predicate DoorGapCentred(room: Room) {
    && |room.walls| >= 2
    && room.walls[0].p1.x == 0.0 && room.walls[1].p0.x == 0.0
    && room.walls[1].p0.y - room.walls[0].p1.y == room.doorSize
    && room.walls[0].p1.y + room.walls[1].p0.y == room.roomSize
  }

  /** Every wall segment has two distinct endpoints. */
  predicate NonDegenerate(walls: seq<Wall>) {
    forall j :: 0 <= j < |walls| ==> walls[j].p0 != walls[j].p1
  }

  /** Every destination lies to the left or the right of the closed room square. */
  predicate DestinationsOutside(room: Room) {
    forall d :: d in room.destination ==> d.x < 0.0 || d.x > room.roomSize
  }

  /** The spawn zone is a non-empty rectangle strictly inside the room square. */
  predicate SpawnInside(room: Room) {
    var z := room.spawnZone;
    && 0.0 < z.x.lo <= z.x.hi < room.roomSize
    && 0.0 < z.y.lo <= z.y.hi < room.roomSize
  }

  /** The perimeter walls every catalog room lists first, in table order: the left side
      split by a door of width `door` centred at mid-height, the top side, the right side
      (split by a second such door when `rightDoor`), and the bottom side last. */
  function Perimeter(l: real, door: real, rightDoor: bool): (ws: seq<Wall>)
    ensures |ws| == if rightDoor then 6 else 5
    ensures ws[0] == Wall(Vec(0.0, 0.0), Vec(0.0, l / 2.0 - door / 2.0))
    ensures ws[1] == Wall(Vec(0.0, l / 2.0 + door / 2.0), Vec(0.0, l))
    ensures ws[|ws| - 1] == Wall(Vec(l, 0.0), Vec(0.0, 0.0))
    ensures forall j :: 0 <= j < |ws| ==> ws[j].p0.x == 0.0 || ws[j].p0.x == l
    ensures 0.0 < door < l ==> NonDegenerate(ws)
  {
    var left := [Wall(Vec(0.0, 0.0), Vec(0.0, l / 2.0 - door / 2.0)),
                 Wall(Vec(0.0, l / 2.0 + door / 2.0), Vec(0.0, l)),
                 Wall(Vec(0.0, l), Vec(l, l))];
    var bottom := Wall(Vec(l, 0.0), Vec(0.0, 0.0));
    if rightDoor then
      left + [Wall(Vec(l, l), Vec(l, l / 2.0 + door / 2.0)),
              Wall(Vec(l, l / 2.0 - door / 2.0), Vec(l, 0.0)), bottom]
    else
      left + [Wall(Vec(l, l), Vec(l, 0.0)), bottom]
  }

  /** No perimeter wall of a room of positive size is the interior wall: every perimeter
      wall starts on the left or the right side, the interior wall at a quarter of the
      width. */
  lemma PerimeterLacksInteriorWall(l: real, door: real, rightDoor: bool)
    requires l > 0.0
    ensures InteriorWall(l) !in Perimeter(l, door, rightDoor)
  {
  }

  /** The `Room` constructor. An unrecognised name leaves the source's object without
      any of its tables (the first access fails), which is `None` here. */
  function NewRoom(name: string, roomSize: real): (r: Option<Room>)
    ensures r.Some? <==> Known(name)
    ensures r.Some? ==> r.value.roomSize == roomSize && r.value.numberOfWalls == |r.value.walls|
    ensures r.Some? ==> (r.value.wallShear <==> name != OneExit && name != TwoExits)
  {
    var l := roomSize;
    var oneDoor := [Vec(-0.5, l / 2.0)];
    var twoDoors := [Vec(-0.5, l / 2.0), Vec(l + 0.5, l / 2.0)];
    var rightHalf := SpawnZone(Interval(l / 2.0, l - 1.0), Interval(1.0, l - 1.0));
    if name == OneExit then
      Some(Room(l, false, l / 10.0, oneDoor, 5, Perimeter(l, l / 10.0, false), rightHalf))
    else if name == OneExitWall then
      Some(Room(l, true, l / 15.0, oneDoor, 6,
                Perimeter(l, l / 15.0, false) + [InteriorWall(l)], rightHalf))
    else if name == TwoExits then
      Some(Room(l, false, l / 15.0, twoDoors, 6, Perimeter(l, l / 15.0, true),
                SpawnZone(Interval(1.0, l - 1.0), Interval(1.0, l - 1.0))))
    else if name == TwoExitsWall1 then
      Some(Room(l, true, l / 15.0, oneDoor, 7,
                Perimeter(l, l / 15.0, true) + [InteriorWall(l)], rightHalf))
    else if name == TwoExitsWall2 then
      Some(Room(l, true, l / 15.0, twoDoors, 7,
                Perimeter(l, l / 15.0, true) + [InteriorWall(l)], rightHalf))
    else
      None
  }

  /** Every catalog room's walls are its perimeter, followed by the interior wall exactly
      when the room has `wall_shear`; the door is a tenth of the side in the room with
      one exit and no interior wall and a fifteenth in the others. */
  lemma CatalogWallTable(name: string, l: real)
    requires Known(name)
    ensures var room := NewRoom(name, l).value;
      var rightDoor := |room.walls| - (if room.wallShear then 1 else 0) == 6;
      && room.doorSize == (if name == OneExit then l / 10.0 else l / 15.0)
      && room.walls == Perimeter(l, room.doorSize, rightDoor)
                       + (if room.wallShear then [InteriorWall(l)] else [])
      && (rightDoor <==> name != OneExit && name != OneExitWall)
  {
  }

  /** In every catalog room the two left-hand walls leave a door of `door_size`
      centred on the left side. */
  lemma CatalogDoorGapCentred(name: string, l: real)
    requires Known(name)
    ensures DoorGapCentred(NewRoom(name, l).value)
  {
  }

  /** In a catalog room of positive size the door is open and no wall is a single
      point, and the interior wall is present exactly when `wall_shear` is set. */
  lemma CatalogWalls(name: string, l: real)
    requires Known(name) && l > 0.0
    ensures var room := NewRoom(name, l).value;
      && room.doorSize > 0.0
      && NonDegenerate(room.walls)
      && (room.wallShear <==> InteriorWall(l) in room.walls)
  {
  }

  /** Every destination of a catalog room lies outside the room, and exactly the two
      configurations with an exit on each side have two. */
  lemma CatalogDestinations(name: string, l: real)
    requires Known(name)
    ensures var room := NewRoom(name, l).value;
      && DestinationsOutside(room)
      && (|room.destination| == 2 <==> name == TwoExits || name == TwoExitsWall2)
      && (|room.destination| == 1 <==> !(name == TwoExits || name == TwoExitsWall2))
  {
  }

  /** In a catalog room whose side exceeds 2 the spawn zone is a non-empty rectangle
      inside the room. */
  lemma CatalogSpawnInside(name: string, l: real)
    requires Known(name) && l > 2.0
    ensures SpawnInside(NewRoom(name, l).value)
  {
  }

  /** `get_wall(n)`: NumPy indexing of the wall table, where a negative index counts
      from the end and an index out of range raises (here `None`). */
  function GetWall(room: Room, n: int): (w: Option<Wall>)
    ensures w.Some? <==> -|room.walls| <= n < |room.walls|
    ensures 0 <= n < |room.walls| ==> w == Some(room.walls[n])
    ensures -|room.walls| <= n < 0 ==> w == Some(room.walls[|room.walls| + n])
  {
    if 0 <= n < |room.walls| then Some(room.walls[n])
    else if -|room.walls| <= n < 0 then Some(room.walls[|room.walls| + n])
    else None
  }

  /** `get_wall` reaches the same wall through the index `j` and through `j - count`. */
  lemma GetWallNegativeIndex(room: Room, j: nat)
    requires j < |room.walls|
    ensures GetWall(room, j - |room.walls|) == GetWall(room, j) != None
  {
  }

  /** In both seven-wall rooms the wall at index 5 is still part of the perimeter (the
      bottom side), so a scan of the walls from index 5 onward includes it. */
  lemma SeventhWallRoomsKeepPerimeterAtFive(name: string, l: real)
    requires NewRoom(name, l).Some? && NewRoom(name, l).value.numberOfWalls == 7
    ensures var room := NewRoom(name, l).value;
      room.walls[5] == Wall(Vec(l, 0.0), Vec(0.0, 0.0))
      && room.walls[6] == InteriorWall(l)
  {
  }
}
