/** The instance handlers implemented in the engine itself: firing a shot,
    casting a spell, digging, destroying or claiming the slab underfoot, the
    first-person imp task and being tortured.  Calls into code outside this
    model (shot and spell creation, map block conversion, room claiming,
    trap removal, ...) are returned as a list of recorded calls instead of
    being performed; sounds, visual effects, events and messages are left
    out. */
module InstanceHandlers {
  import opened Common
  import opened MapGeometry
  import opened World
  import opened CreatureInstances

  /** A call into code outside this model, in the order it is made. */
  datatype ExternalCall =
    | FireShotCall(target: Option<int>, shotKind: int, hitType: int, code: int)
    | CastAtThing(thing: int, spell: int, spellLevel: int)
    | CastAtPosition(spell: int, spellLevel: int, x: int, y: int)
    | RemoveFromTaskList(owner: int, taskIdx: int)
    | MineOutBlock(stlX: nat, stlY: nat, owner: int)
    | DigOutBlock(stlX: nat, stlY: nat, owner: int)
    | CheckMapExplored(stlX: nat, stlY: nat)
    | ClearDigOnRoomSlabs(room: int, owner: int)
    | ClaimRoom(room: int)
    | ClaimEnemyRoom(room: int)
    | DecreaseDungeonArea(owner: int, amount: int)
    | NeutraliseEnemyBlock(stlX: nat, stlY: nat, owner: int)
    | RemoveTrapsAroundSubtile(stlX: nat, stlY: nat)
    | PrettyPathCall

  /** The value a handler returns (0: the effect goes on, 1: completed) and
      the outside calls it made. */
  datatype Outcome = Outcome(ret: int, calls: seq<ExternalCall>)

  /** The creature thing (only the fields this model touches). */
  class Creature {
    var owner: int
    /** The creature is possessed by its keeper (TAlF_IsControlled). */
    var controlled: bool
    var goldCarried: int
    /** Subtile coordinates of the creature's position. */
    var stlX: nat
    var stlY: nat
    const cctrl: CreatureControl

    constructor (owner: int, cctrl: CreatureControl)
      ensures this.owner == owner && this.cctrl == cctrl
    {
      this.owner, this.cctrl := owner, cctrl;
    }
  }

  /** What the thing lookup hands out for a creature's target index: whether
      it is an object, its owner, and whether it is a real thing rather than
      the invalid-thing sentinel. */
  datatype ThingInfo = ThingInfo(isObject: bool, owner: int, valid: bool)

  /** The shot code of instf_creature_fire_shot: 1 for a shot at an object
      or a possessed creature's untargeted shot, 2 for a shot at a creature
      when possessed or at one of the shooter's own creatures, 4 otherwise. */
  function FireShotCode(controlled: bool, shooterOwner: int, targetIdx: int, target: ThingInfo): (code: int)
    ensures code == 1 <==> (targetIdx <= 0 && controlled) || (targetIdx > 0 && target.isObject)
    ensures code == 2 <==> targetIdx > 0 && !target.isObject && (controlled || target.owner == shooterOwner)
    ensures code == 4 <==> (targetIdx <= 0 && !controlled) ||
                           (targetIdx > 0 && !target.isObject && !controlled && target.owner != shooterOwner)
  {
    if targetIdx <= 0 then
      (if !controlled then 4 else 1)
    else if controlled then
      (if target.isObject then 1 else 2)
    else if target.isObject then 1
    else if target.owner == shooterOwner then 2
    else 4
  }

  /** instf_creature_fire_shot: one shot of kind `shotKind`, aimed at the
      current target when there is one; the handler always reports 0. */
  function FireShot(cr: Creature, target: ThingInfo, shotKind: int): (r: Outcome)
    reads cr, cr.cctrl
    ensures r.ret == 0 && |r.calls| == 1 && r.calls[0].FireShotCall?
    ensures r.calls[0].target.None? <==> cr.cctrl.targetIdx <= 0
    ensures r.calls[0].target.Some? ==> r.calls[0].target.value == cr.cctrl.targetIdx
    ensures r.calls[0].shotKind == shotKind && r.calls[0].hitType == 1
    ensures r.calls[0].code == FireShotCode(cr.controlled, cr.owner, cr.cctrl.targetIdx, target)
  {
    var idx := cr.cctrl.targetIdx;
    var code := FireShotCode(cr.controlled, cr.owner, idx, target);
    Outcome(0, [FireShotCall(if idx > 0 then Some(idx) else None, shotKind, 1, code)])
  }

  /** instf_creature_cast_spell: a spell cast at things goes to the current
      target if that is a real thing; otherwise the spell is cast at the
      stored target position.  `castAtThing` is the spell's flag in the
      magic configuration. */
  function CastSpell(cr: Creature, target: ThingInfo, castAtThing: bool, spell: int): (r: Outcome)
    reads cr, cr.cctrl
    ensures r.ret == 0 && |r.calls| == 1
    ensures r.calls[0].CastAtThing? <==> castAtThing && target.valid
    ensures r.calls[0].CastAtThing? ==> r.calls[0] == CastAtThing(cr.cctrl.targetIdx, spell, 1)
    ensures !r.calls[0].CastAtThing? ==>
              r.calls[0] == CastAtPosition(spell, 1, cr.cctrl.targetX, cr.cctrl.targetY)
  {
    if castAtThing && target.valid then Outcome(0, [CastAtThing(cr.cctrl.targetIdx, spell, 1)])
    else Outcome(0, [CastAtPosition(spell, 1, cr.cctrl.targetX, cr.cctrl.targetY)])
  }

  /** The shot kind the first-person imp task falls back to. */
  const IMP_TASK_SHOT_KIND: int := 23

  /** instf_first_person_do_imp_task: beautify the ground underfoot when the
      place qualifies, otherwise fire the imp's default shot; always reports
      completion. */
  function FirstPersonDoImpTask(cr: Creature, target: ThingInfo, placeToPretty: bool): (r: Outcome)
    reads cr, cr.cctrl
    ensures r.ret == 1
    ensures placeToPretty ==> r.calls == [PrettyPathCall]
    ensures !placeToPretty ==> r.calls == FireShot(cr, target, IMP_TASK_SHOT_KIND).calls
  {
    if placeToPretty then Outcome(1, [PrettyPathCall])
    else Outcome(1, FireShot(cr, target, IMP_TASK_SHOT_KIND).calls)
  }

  /** instf_tortured: nothing happens and completion is reported. */
  function Tortured(): (r: Outcome)
    ensures r.ret == 1 && r.calls == []
  {
    Outcome(1, [])
  }

  /** The kind of a digger task. */
  datatype DigTaskKind = MineGold | DigEarth | OtherTask(code: nat)

  /** A task of the dungeon's digging task list: its kind and the coded
      subtile it targets (field_1). */
  datatype MapTask = MapTask(kind: DigTaskKind, target: int)

  /** The slab the creature's dig task points at, if that is on the map. */
  function DigSlab(digTarget: nat, level: GameMap): (r: Option<nat>)
    reads level
    ensures r.Some? <==> SubtileSlab(StlNumDecodeX(digTarget, level.tilesX)) < level.tilesX &&
                         SubtileSlab(StlNumDecodeY(digTarget, level.tilesX)) < level.tilesY
    ensures r.Some? ==> r.value < level.tilesX * level.tilesY
    ensures r.Some? ==> r.value == SlabNumber(SubtileSlab(StlNumDecodeX(digTarget, level.tilesX)),
                                              SubtileSlab(StlNumDecodeY(digTarget, level.tilesX)), level.tilesX)
  {
    SlabAtSubtile(StlNumDecodeX(digTarget, level.tilesX), StlNumDecodeY(digTarget, level.tilesX), level.tilesX, level.tilesY)
  }

  /** Gold statistics of every dungeon record but the one of `owner` are as
      before; that one has risen by `gold`. */
  twostate predicate GoldMinedCredited(dungeons: seq<Dungeon>, owner: int, gold: int)
    reads dungeons
  {
    forall i :: 0 <= i < |dungeons| ==>
      dungeons[i].goldMined == old(dungeons[i].goldMined) + (if i == owner then gold else 0)
  }

  /** instf_dig: one blow of a digger on the slab of its dig task.
      `task` is the entry of the owner's task list at the creature's task
      index; `damageTo` is the damage of one blow on a slab and `goldYield`
      the gold a blow of the given strength mines out of a slab (both game
      formulas outside this model). */
  method Dig(cr: Creature, dungeons: seq<Dungeon>, level: GameMap, task: MapTask,
             damageTo: Slab -> int, goldYield: (int, Slab) -> int) returns (r: Outcome)
    requires level.Valid() && Distinct(dungeons)
    modifies level.slabs, cr`goldCarried, dungeons`goldMined
    // a stale task or a target off the level: nothing happens
    ensures task.target != cr.cctrl.digTarget || DigSlab(cr.cctrl.digTarget, level).None? ==>
              r == Outcome(0, []) && level.slabs[..] == old(level.slabs[..]) &&
              cr.goldCarried == old(cr.goldCarried) && GoldMinedCredited(dungeons, cr.owner, 0)
    ensures task.target == cr.cctrl.digTarget && DigSlab(cr.cctrl.digTarget, level).Some? ==>
              var n := DigSlab(cr.cctrl.digTarget, level).value;
              var s := old(level.slabs[n]);
              var x := StlNumDecodeX(cr.cctrl.digTarget, level.tilesX);
              var y := StlNumDecodeY(cr.cctrl.digTarget, level.tilesX);
              (forall i :: 0 <= i < level.slabs.Length && i != n ==> level.slabs[i] == old(level.slabs[i])) &&
              if s.health > damageTo(s) then
                // the slab survives the blow: it loses the damage unless it is gems
                && r == Outcome(0, [])
                && level.slabs[n] == (if s.kind == Gems then s else s.(health := s.health - damageTo(s)))
                && var gold := if task.kind == MineGold then goldYield(damageTo(s), level.slabs[n]) else 0;
                   cr.goldCarried == old(cr.goldCarried) + gold && GoldMinedCredited(dungeons, cr.owner, gold)
              else
                // the slab is dug out: the task is dropped and the block converted
                && r.ret == 1
                && level.slabs[n] == s
                && r.calls == [RemoveFromTaskList(cr.owner, cr.cctrl.digTaskIdx)] +
                              (if task.kind == MineGold then [MineOutBlock(x, y, cr.owner)]
                               else if task.kind == DigEarth then [DigOutBlock(x, y, cr.owner)]
                               else []) +
                              [CheckMapExplored(x, y)]
                && var gold := if task.kind == MineGold then goldYield(s.health, s) else 0;
                   cr.goldCarried == old(cr.goldCarried) + gold && GoldMinedCredited(dungeons, cr.owner, gold)
  {
    if task.target != cr.cctrl.digTarget {
      return Outcome(0, []);
    }
    var x := StlNumDecodeX(cr.cctrl.digTarget, level.tilesX);
    var y := StlNumDecodeY(cr.cctrl.digTarget, level.tilesX);
    var slabNum := SlabAtSubtile(x, y, level.tilesX, level.tilesY);
    if slabNum.None? {
      return Outcome(0, []);
    }
    var n := slabNum.value;
    var slb := level.slabs[n];
    var digDamage := damageTo(slb);
    var owned := DungeonOf(dungeons, cr.owner);
    if slb.health > digDamage {
      if slb.kind != Gems {
        level.slabs[n] := slb.(health := slb.health - digDamage);
      }
      if task.kind == MineGold {
        var gold := goldYield(digDamage, level.slabs[n]);
        cr.goldCarried := cr.goldCarried + gold;
        if owned.Some? {
          owned.value.goldMined := owned.value.goldMined + gold;
        }
      }
      return Outcome(0, []);
    }
    var calls := [RemoveFromTaskList(cr.owner, cr.cctrl.digTaskIdx)];
    if task.kind == MineGold {
      var gold := goldYield(slb.health, slb);
      cr.goldCarried := cr.goldCarried + gold;
      if owned.Some? {
        owned.value.goldMined := owned.value.goldMined + gold;
      }
      calls := calls + [MineOutBlock(x, y, cr.owner)];
    } else if task.kind == DigEarth {
      calls := calls + [DigOutBlock(x, y, cr.owner)];
    }
    calls := calls + [CheckMapExplored(x, y)];
    return Outcome(1, calls);
  }

  /** The slab the creature stands on. */
  function SlabUnder(cr: Creature, level: GameMap): Option<nat>
    reads cr, level
  {
    SlabAtSubtile(cr.stlX, cr.stlY, level.tilesX, level.tilesY)
  }

  /** Territory statistics of every dungeon record: `lost` is added to the
      territory lost by player `lostBy`, `destroyed` to the territory
      destroyed by player `destroyer`, and nothing else changes. */
  twostate predicate TerritoryCounted(dungeons: seq<Dungeon>, lostBy: int, lost: int, destroyer: int, destroyed: int)
    reads dungeons
  {
    forall i :: 0 <= i < |dungeons| ==>
      && dungeons[i].territoryLost == old(dungeons[i].territoryLost) + (if i == lostBy then lost else 0)
      && dungeons[i].territoryDestroyed == old(dungeons[i].territoryDestroyed) + (if i == destroyer then destroyed else 0)
  }

  /** instf_destroy: one blow of a claiming creature on the slab underfoot.
      On a valid room whose slab is owned by another player the room's claim
      resistance is worn down one step, and at the last step the room is
      claimed.  Anywhere else the slab loses one point of health, and at the
      last point it is neutralised: its previous owner is charged a lost
      territory (unless neutral) and the creature's owner is credited a
      destroyed one. */
  method Destroy(cr: Creature, dungeons: seq<Dungeon>, level: GameMap, neutralPlayer: int) returns (r: Outcome)
    requires level.Valid() && Distinct(dungeons)
    requires SlabUnder(cr, level).Some?
    modifies level.slabs, level.rooms, dungeons`territoryLost, dungeons`territoryDestroyed
    ensures
      var n := SlabUnder(cr, level).value;
      var s := old(level.slabs[n]);
      (forall i :: 0 <= i < level.slabs.Length && i != n ==> level.slabs[i] == old(level.slabs[i])) &&
      if level.RoomValid(s.roomIndex) && s.owner != cr.owner then
        var room := old(level.rooms[s.roomIndex]);
        && level.slabs[n] == s
        && r.ret == 0
        && TerritoryCounted(dungeons, s.owner, 0, cr.owner, 0)
        && (forall i :: 0 <= i < level.rooms.Length && i != s.roomIndex ==> level.rooms[i] == old(level.rooms[i]))
        && if room.claimResistance > 1 then
             // resistance worn down by one, nothing claimed yet
             level.rooms[s.roomIndex] == room.(claimResistance := room.claimResistance - 1) && r.calls == []
           else
             // the room changes hands
             level.rooms[s.roomIndex] == room &&
             r.calls == [ClearDigOnRoomSlabs(s.roomIndex, cr.owner),
                         if room.owner == neutralPlayer then ClaimRoom(s.roomIndex) else ClaimEnemyRoom(s.roomIndex)]
      else
        && level.rooms[..] == old(level.rooms[..])
        && if s.health > 1 then
             // the slab loses one point of health
             level.slabs[n] == s.(health := s.health - 1) && r == Outcome(0, []) &&
             TerritoryCounted(dungeons, s.owner, 0, cr.owner, 0)
           else
             // the slab falls: the territory changes statistics and is neutralised
             && level.slabs[n] == s
             && r.ret == 1
             && TerritoryCounted(dungeons, s.owner, if s.owner != neutralPlayer then 1 else 0, cr.owner, 1)
             && r.calls == [DecreaseDungeonArea(s.owner, 1),
                            NeutraliseEnemyBlock(cr.stlX, cr.stlY, cr.owner),
                            RemoveTrapsAroundSubtile(SlabSubtileCenter(SubtileSlab(cr.stlX)),
                                                     SlabSubtileCenter(SubtileSlab(cr.stlY)))]
  {
    var n := SlabUnder(cr, level).value;
    var slb := level.slabs[n];
    var roomIdx := slb.roomIndex;
    var prevOwner := slb.owner;
    if level.RoomValid(roomIdx) && prevOwner != cr.owner {
      var room := level.rooms[roomIdx];
      if room.claimResistance > 1 {
        level.rooms[roomIdx] := room.(claimResistance := room.claimResistance - 1);
        return Outcome(0, []);
      }
      var claim := if room.owner == neutralPlayer then ClaimRoom(roomIdx) else ClaimEnemyRoom(roomIdx);
      return Outcome(0, [ClearDigOnRoomSlabs(roomIdx, cr.owner), claim]);
    }
    if slb.health > 1 {
      level.slabs[n] := slb.(health := slb.health - 1);
      return Outcome(0, []);
    }
    if prevOwner != neutralPlayer {
      var prevDungeon := DungeonOf(dungeons, prevOwner);
      if prevDungeon.Some? {
        prevDungeon.value.territoryLost := prevDungeon.value.territoryLost + 1;
      }
    }
    var calls := [DecreaseDungeonArea(prevOwner, 1),
                  NeutraliseEnemyBlock(cr.stlX, cr.stlY, cr.owner),
                  RemoveTrapsAroundSubtile(SlabSubtileCenter(SubtileSlab(cr.stlX)),
                                           SlabSubtileCenter(SubtileSlab(cr.stlY)))];
    var owned := DungeonOf(dungeons, cr.owner);
    if owned.Some? {
      owned.value.territoryDestroyed := owned.value.territoryDestroyed + 1;
    }
    return Outcome(1, calls);
  }
}
