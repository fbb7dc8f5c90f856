/** The shared game state the instance handlers and the player bookkeeping
    work on: the slab map with its rooms and gold hoards, the per-player
    dungeon records and the player records. */
module World {
  import opened Common

  /** Kind of a slab.  The handlers only ever test for gems, so every other
      kind is kept as an opaque code. */
  datatype SlabKind = Gems | OtherKind(code: nat)

  /** The category of a slab kind in the slab attribute table. */
  datatype SlabCategory = RoomInterior | FortifiedGround | OtherCategory

  /** One cell of the slab map. */
  datatype Slab = Slab(health: int, kind: SlabKind, owner: int, roomIndex: int, nextInRoom: int)

  /** One entry of the room table.  `claimResistance` is the counter a
      claiming creature wears down before the room changes hands. */
  datatype Room = Room(owner: int, claimResistance: int, nextOfOwner: int, slabsList: int, storageUsed: int)

  /** The level's map: `tilesX * tilesY` slabs numbered row by row, the gold
      held by the hoard standing at each slab's centre (0 where there is
      none), and the room table. */
  class GameMap {
    const tilesX: nat
    const tilesY: nat
    const slabs: array<Slab>
    const hoardGold: array<int>
    const rooms: array<Room>

    ghost predicate Valid()
      reads this
    {
      slabs.Length == tilesX * tilesY && hoardGold.Length == slabs.Length
    }

    /** room_get followed by room_is_invalid: index 0 and indices past the
        table are the invalid room. */
    predicate RoomValid(i: int)
      reads this
    {
      1 <= i < rooms.Length
    }

    constructor (tilesX: nat, tilesY: nat, slabs: array<Slab>, hoardGold: array<int>, rooms: array<Room>)
      requires slabs.Length == tilesX * tilesY && hoardGold.Length == slabs.Length
      ensures Valid()
      ensures this.tilesX == tilesX && this.tilesY == tilesY
      ensures this.slabs == slabs && this.hoardGold == hoardGold && this.rooms == rooms
    {
      this.tilesX, this.tilesY := tilesX, tilesY;
      this.slabs, this.hoardGold, this.rooms := slabs, hoardGold, rooms;
    }
  }

  /** The per-player dungeon record (only the fields this model touches). */
  class Dungeon {
    // level statistics
    var goldMined: int
    var territoryLost: int
    var territoryDestroyed: int
    var playerScore: int
    var allowSaveScore: int
    var maxGameplayScore: int
    // economy
    var totalMoneyOwned: int
    var offmapMoneyOwned: int
    /** Head of the list of the player's treasury rooms (0 ends the list). */
    var treasuryRooms: int
    // scores
    var totalArea: int
    var roomManageArea: int
    var manageScore: int
    var totalScore: int
    var turnsBetweenEntranceGeneration: int

    constructor ()
    {
    }
  }

  /** A dungeon record may be written through a sequence of records only if
      no record appears twice. */
  ghost predicate Distinct(ds: seq<Dungeon>)
  {
    forall a, b :: 0 <= a < b < |ds| ==> ds[a] != ds[b]
  }

  /** get_dungeon / get_players_num_dungeon: the record of player `p`, or
      None where the source hands out its invalid-dungeon sentinel. */
  function DungeonOf(ds: seq<Dungeon>, p: int): (r: Option<Dungeon>)
    ensures r.Some? <==> 0 <= p < |ds|
    ensures r.Some? ==> r.value == ds[p]
  {
    if 0 <= p < |ds| then Some(ds[p]) else None
  }

  datatype VictoryState = Undecided | WonLevel | LostLevel

  /** The player record (only the fields this model touches). */
  class Player {
    const idNumber: int
    var victoryState: VictoryState
    /** The player slot is in use (player_exists). */
    var inUse: bool
    /** The slot is played as a keeper (field_2C == 1 in the source). */
    var isKeeper: bool
    /** Game turn at which the level-end screen is due (field_4EB). */
    var levelEndTurn: int

    constructor (id: int)
      ensures idNumber == id && victoryState == Undecided
    {
      idNumber := id;
      victoryState := Undecided;
    }
  }
}
