# KeeperFX creature instances and player bookkeeping, in Dafny

This project models two pieces of tick-driven game logic of KeeperFX, a
re-implementation of Dungeon Keeper. Both are stated and proved in Dafny.

**Creature instances** (`src/creature_instances.c`). An *instance* is a timed
action a creature performs: a shot, a spell, a dig or a claim.
- The per-creature scheduler advances the running instance's tick counter on
  every game turn.
- It calls the instance's handler at the trigger tick.
- It retires the instance at the completion tick and stamps the instance's
  use turn. A pending extension request delays the retirement by one tick.
- Around the scheduler sit:
  - the bounds-checked descriptor lookup;
  - the handler-name and handler tables;
  - the ranged-weapon classifier;
  - the handlers implemented in the engine itself: fire shot, cast spell,
    dig, destroy/claim, first-person imp task and tortured.

**Player bookkeeping** (`src/player_utils.c`):
- the victory state, which only ever leaves "undecided";
- the final score;
- withdrawing gold: off-map money first, then the gold hoards of the treasury
  rooms, reached through linked lists of rooms and of room slabs, each walk
  bounded by a step counter;
- the per-player area tally over the slab map;
- the entrance generation speeds;
- the wander-point ring buffer and the wrapping cursor that refills it.

Layout: `common.dfy` (C division, an Option type), `map_geometry.dfy` (slab
and subtile coordinates), `world.dfy` (slabs, rooms, the map, dungeon and
player records), `instance_catalog.dfy`, `creature_instances.dfy`,
`instance_handlers.dfy`, `player_fate.dfy`, `dungeon_gold.dfy`,
`dungeon_area.dfy`, `wander_points.dfy`.

Modelling choices:
- Game state that the C code reaches through globals (the slab map, the room
  table, the dungeon and player records) is passed in explicitly.
- An index for which the C code hands out an "invalid" sentinel record is
  `None`. A write through such a sentinel changes nothing.
- Integers are unbounded.
- C's truncating division is written out as `Common.CDiv`.
- Calls into code outside the model are returned, in order, as
  `InstanceHandlers.ExternalCall` values rather than performed. This covers
  shot and spell creation, block conversion, room claiming and trap removal.
- Game formulas outside the model are function parameters: damage per blow,
  gold per blow, a slab kind's category, the outer-border test of a room
  slab, and the wander-position test.
- The scheduler's handler call is returned as an `Option<HandlerCall>`.
- `update_dungeon_generation_speeds` is modelled as written. A variant with the evidently intended maximum sits beside it, with the properties that variant was meant to have (see Findings).
- Each gold hoard is kept as the gold held at a slab's centre, indexed by slab
  number. Removing gold from a hoard hands over at most what is asked and at
  most what the hoard holds.

## Model

| member | source | states |
|---|---|---|
| CreatureInstances.Step | src/creature_instances.c:183-213 | With no instance running nothing changes. Otherwise the extension flag always ends cleared, and the counter rises by exactly one except when an extension is taken at the completion tick, where it stays put and the instance stays active. The handler fires iff the advanced counter equals the trigger tick and the descriptor has a handler, and it receives the descriptor's parameter. The instance retires iff the completion tick is reached without extension. Retirement stamps only the instance's own use-turn slot with the current turn. |
| CreatureInstances.CreatureControl.ProcessInstance | src/creature_instances.c:183-213 | The in-place tick leaves the control record equal to `Step` of the old record and returns `Step`'s handler call. |
| CreatureInstances.RunToCompletion | src/creature_instances.c:189-211 | A running instance with no extension pending retires after exactly `completion - elapsed` ticks. Its counter ends at the completion tick and its use-turn slot holds the last turn. The handler fired exactly once if the trigger tick lay ahead and a handler exists, otherwise never. |
| CreatureInstances.TriggerThreeCompleteFive | src/creature_instances.c:191-210 | Trigger tick 3, completion tick 5, five turns: one handler call, then retirement stamped with the fifth turn. |
| CreatureInstances.ExtensionDelaysRetirement | src/creature_instances.c:200-210 | An extension at the completion tick keeps the instance active, keeps the counter where it was and clears the flag. The next tick retires the instance and stamps that tick's turn. |
| CreatureInstances.ExtensionAtTriggerRefires | src/creature_instances.c:192-205 | When the trigger tick equals the completion tick, an extension taken there makes the handler fire on two consecutive ticks. |
| InstanceCatalog.InfoIndex | src/creature_instances.c:121-129 | An index below 0 or at least 48 yields entry 0; any other index yields its own entry. |
| InstanceCatalog.InfoInvalid | src/creature_instances.c:131-134 | An entry is invalid exactly when it is entry 0. |
| InstanceCatalog.LookupInvalidIff | src/creature_instances.c:121-134 | A looked-up entry is invalid iff the index was not in 1..47. |
| InstanceCatalog.FindName | src/creature_instances.c:76-92 | The table has no lookup of its own; the configuration loader resolves handler names against it with a generic first-match search, which this member models. It finds something iff some entry carries the name, and then returns that entry's number. |
| InstanceCatalog.FindNameRoundTrip | src/creature_instances.c:76-92 | In a table of distinct names, looking up an entry's name returns that entry's number. |
| InstanceCatalog.FuncTablesAgree | src/creature_instances.c:76-111 | The name table numbers its 14 names 1..14. Every number names a slot of the 16-slot handler table, whose slot 0 is empty. Exactly "none" maps to an empty slot, and no handler occupies two slots. |
| InstanceCatalog.ResolveFuncName | src/creature_instances.c:76-92 | Every handler name resolves to its position plus one; any other name resolves to nothing. |
| InstanceCatalog.IsRangedWeapon | src/creature_instances.c:146-163 | True exactly for instances 4, 5, 6, 9, 12, 17, 19, 20 and 27. |
| CreatureInstances.CreatureControl.HasRangedWeapon | src/creature_instances.c:165-181 | True iff some instance numbered from 1 up has a positive learned level and is a ranged weapon. Instance 0 is never looked at. |
| InstanceHandlers.FireShotCode | src/creature_instances.c:222-248 | Code 1 for a possessed creature's untargeted shot or any shot at an object. Code 2 for a shot at a creature when possessed or when the creature is the shooter's own. Code 4 otherwise. Each code comes with both directions of its condition. |
| InstanceHandlers.FireShot | src/creature_instances.c:215-259 | Exactly one shot call with the given shot kind, hit type 1 and the selected code. The target is absent iff the target index is at most 0. Always returns 0. |
| InstanceHandlers.CastSpell | src/creature_instances.c:261-282 | The spell goes to the target thing iff the spell is cast at things and the target is a real thing. Otherwise it goes to the stored target position. Always at level 1; returns 0. |
| InstanceHandlers.FirstPersonDoImpTask | src/creature_instances.c:441-458 | On a place that can be prettified, the pretty-path handler runs. Otherwise the calls are those of a fire shot of kind 23. Always returns 1. |
| InstanceHandlers.Tortured | src/creature_instances.c:472-476 | Returns 1 and does nothing. |
| InstanceHandlers.DigSlab | src/creature_instances.c:302-312 | The dig target's slab exists iff the slab column and row of the decoded target subtile both lie on the map. It is then the slab with that column and row, and its number lies in the slab table. |
| InstanceHandlers.Dig | src/creature_instances.c:284-359 | A stale task or an off-map target changes nothing and returns 0. A blow the slab survives lowers its health by the damage, except on gems, and returns 0; on a gold task the carried gold and the owner's mined gold rise by the same yield. A final blow leaves the slab to the conversion calls, computes gold from the remaining health, removes the task, mines or digs out the block, checks exploration and returns 1. Every other slab is unchanged. |
| InstanceHandlers.Destroy | src/creature_instances.c:361-415 | On a valid room whose slab is owned by another player, the claim resistance drops by one while above 1. Otherwise the room's dig marks are cleared and the room is claimed (a neutral room) or captured (an enemy room); this path returns 0 with no statistics touched. Off such a room, health above 1 drops by one and 0 is returned. Otherwise the previous owner's lost territory rises unless neutral, the creature owner's destroyed territory rises, the area/neutralise/trap calls are made and 1 is returned. |
| PlayerFate.PlayerHasWon | src/player_utils.c:57-64 | True iff the index is a valid player whose state is "won". |
| PlayerFate.PlayerHasLost | src/player_utils.c:66-73 | True iff the index is a valid player whose state is "lost". |
| PlayerFate.WonAndLostExclusive | src/player_utils.c:57-73 | No player has both won and lost. |
| PlayerFate.SetPlayerAsWonLevel | src/player_utils.c:97-113 | A decided fate is left as it is, score included. Otherwise the state becomes "won" and the player's own dungeon record (if the player's number has one) gets the winning final score of its best gameplay score; no other record is written. Saving the score is allowed. Off network, the level end is due 300 turns later. |
| PlayerFate.SetPlayerAsLostLevel | src/player_utils.c:125-164 | A decided fate is left as it is. Otherwise the state becomes "lost" and the player's own dungeon record (if any) gets the losing final score; no other record is written. Off network, the level end is due 300 turns later. |
| PlayerFate.FinalScore | src/player_utils.c:171-183 | In network play or outside the campaign, a won level scores twice the gameplay score and a lost one the gameplay score itself. |
| PlayerFate.LostScoresHalf | src/player_utils.c:171-183 | A lost level scores the won score halved, rounding toward zero. |
| PlayerFate.WonScoreAtLeastGameplay | src/player_utils.c:171-183 | A non-negative gameplay score never scores less when won, for a campaign level index of at least 0. In network play or outside the campaign it scores exactly double. |
| PlayerFate.FinalScoreMonotone | src/player_utils.c:171-183 | A higher gameplay score never gives a lower final score, for a campaign level index of at least 0. |
| DungeonGold.SumUpdate | src/player_utils.c:218-221 | Taking gold from one hoard lowers the hoards' total by exactly that amount. |
| DungeonGold.HoardTake | src/player_utils.c:217-221 | A hoard hands over nothing for a request of at most 0, otherwise between 0 and the request, and never more than it holds. |
| DungeonGold.RemoveGoldFromHoard | src/player_utils.c:218-220 | The hoard at the slab hands over what `HoardTake` allows and loses exactly that amount. No other hoard changes. |
| DungeonGold.RoomSweepConserves | src/player_utils.c:197-233 | One sweep of a room's slab list takes from the hoards exactly what it takes off the request. For a positive request that is between 0 and the request; a request of at most 0 changes nothing. Every hoard only ever loses gold, and never goes below 0 by it. |
| DungeonGold.BorderSweepSparesInterior | src/player_utils.c:200-233 | The border sweep leaves every slab off the room's outer border untouched. |
| DungeonGold.RoomTakeConserves | src/player_utils.c:191-270 | take_money_from_room returns exactly the gold removed from the hoards. For a positive request that is between 0 and the request; a request of at most 0 takes nothing. |
| DungeonGold.BorderFirst | src/player_utils.c:234-235 | When the border hoards cover the request, the hoards inside the border keep their gold. |
| DungeonGold.SweepRoomSlabs | src/player_utils.c:197-268 | The sweep loop leaves the hoards and the remaining request as the `RoomSweep` specification says. |
| DungeonGold.TakeMoneyFromRoom | src/player_utils.c:191-270 | The hoards and the returned amount are those of the `RoomTake` specification: a border sweep, then a full sweep if gold is still wanted. |
| DungeonGold.TreasurySweepConserves | src/player_utils.c:311-349 | Sweeping the treasury rooms removes from the hoards exactly what it takes off a positive request. The remainder stays between 0 and the request, and the request counts as met iff nothing of it remains. |
| DungeonGold.SweepTreasuries | src/player_utils.c:311-349 | The room-list loop leaves the hoards, the remainder and the paid flag as the `TreasurySweep` specification says. |
| DungeonGold.TakeMoneyFromDungeon | src/player_utils.c:272-350 | No dungeon: -1 and nothing changes. A request of at most 0: 0, no change. More than the total with the whole sum demanded or nothing owned: -1, no change. Otherwise the request is clamped to the total. If off-map money covers it, off-map and total money drop by it and it is returned. If not, any positive off-map money is used up first, and the treasury rooms supply the rest. The clamped amount is returned if they do, -1 if they do not. Only the player's own dungeon is written. |
| DungeonGold.PaymentConserves | src/player_utils.c:297-339 | When the withdrawal pays, the off-map part plus the gold removed from hoards is exactly the amount reported. |
| DungeonArea.CalculateAreaScores | src/player_utils.c:404-460 | Afterwards every dungeon's total area counts the slabs it owns that are room interiors or fortified ground, and its room area counts the room-interior slabs it owns; the neutral player owns none. |
| DungeonArea.RoomAreaWithinTotal | src/player_utils.c:431-457 | A player's room area never exceeds its total area. |
| DungeonArea.NeutralHasNoArea | src/player_utils.c:434-438 | The neutral player is credited no area. |
| DungeonArea.AreasDisjoint | src/player_utils.c:420-459 | Two players' total areas together never exceed the number of slabs. |
| DungeonArea.KeeperScoresFromKeepers | src/player_utils.c:358-368 | The scores the loops look at are those of the dungeons of players in use as keepers, at most one per player. |
| DungeonArea.MaxManageScore | src/player_utils.c:357-369 | The first loop, as written, yields `MaxManageAsWritten` of the keepers' scores in player order: a keeper's management score is taken whenever its total score exceeds the value so far. |
| DungeonArea.AsWrittenAtMostMax | src/player_utils.c:357-369 | The value the first loop computes is 0 or some keeper's management score, and never exceeds the highest management score. |
| DungeonArea.AsWrittenAgreesWhenTotalIsManage | src/player_utils.c:366-367 | When every keeper's total score equals its management score, the loop as written does yield the highest management score. |
| DungeonArea.AsWrittenUndercutsSpeed | src/player_utils.c:362-367 | As written, keepers with (manage, total) = (100, 1) and (5, 200) give a maximum of 5, so the first keeper waits 5 turns at speed 100; the highest management score gives 100. |
| DungeonArea.AsWrittenNeverSlower | src/player_utils.c:366-398 | For a speed of at least 0, the waits computed from the loop as written are never longer than those computed from the highest management score. |
| DungeonArea.EntranceTurnsVersusSpeed | src/player_utils.c:394-397 | For a positive speed and a positive management score, the keeper waits at least the speed iff the maximum used is at least the keeper's own score. |
| DungeonArea.AssignEntranceTurns | src/player_utils.c:371-400 | Every dungeon owned by a keeper gets 0 when generation is off (-1). Otherwise it gets the given maximum times the speed divided by its own score (C division) when its score is positive, and the speed itself when it is not. Dungeons of non-keepers keep their value. |
| DungeonArea.UpdateGenerationSpeeds | src/player_utils.c:352-402 | As written: returns 1, and every keeper's dungeon gets the entrance turns for the value the first loop computes (`MaxManageAsWritten`); other dungeons keep their value. |
| DungeonArea.MaxManageIsMax | src/player_utils.c:357-369 | The highest management score, which the loop evidently means to compute, is at least 0 and at least every keeper's management score, and it is 0 or one of those scores. |
| DungeonArea.MaxManageScoreIntended | src/player_utils.c:357-369 | The first loop with the comparison on management scores yields `MaxManage` of the keepers' scores. |
| DungeonArea.UpdateGenerationSpeedsIntended | src/player_utils.c:352-402 | The function with that corrected first loop: returns 1, and every keeper's dungeon gets the entrance turns for the highest management score; other dungeons keep their value. |
| DungeonArea.EntranceTurnsAtLeastSpeed | src/player_utils.c:386-399 | With the highest management score and a speed of at least 0, no keeper waits fewer turns than the speed, and the best-managed keepers wait exactly the speed. |
| WanderPoints.Wander.Add | src/player_utils.c:694-704 | The decoded position is pushed onto the ring. The insertion index advances modulo the ring size, and the count rises by one until the ring is full. The ring's stored contents stay in step with the logical sequence of points. |
| WanderPoints.PushAllWindow | src/player_utils.c:694-704 | However many points are added, the ring holds the most recent ones: the last ring-size points of the whole history. |
| WanderPoints.RingHoldsLatest | src/player_utils.c:694-704 | Starting from an empty ring, the ring holds the latest points added, however often it wrapped. |
| WanderPoints.SampleIndexBounds | src/player_utils.c:724-730 | When there are more points than may be stored, every sample index lies inside the list and each lies past the previous one. |
| WanderPoints.Selected | src/player_utils.c:715-740 | Up to the storage limit, all points are kept, in order. Beyond it, exactly the limit's number of evenly spaced samples are kept, or none for a limit of at most 0. |
| WanderPoints.Wander.StoreUpTo | src/player_utils.c:715-740 | Too many points with a per-sweep maximum of at most 0 adds nothing. Otherwise the selected points are pushed onto the ring in order. Returns true. |
| WanderPoints.ScanProperties | src/player_utils.c:795-821 | A sweep keeps at most 20 points, all of which the position test accepts, and leaves the cursor on the map. Unless it stopped because its list was full, it moves the cursor exactly the number of checks on, modulo the map size. |
| WanderPoints.Wander.Update | src/player_utils.c:787-828 | The cursor ends where the `ScanFrom` sweep specification leaves it. Nothing is stored when the sweep found nothing, or found more than a non-positive maximum. Otherwise the selected points are pushed onto the ring. Returns 1. |
| MapGeometry.SubtileNumberRoundTrip | src/player_utils.c:698-699 | Decoding a subtile number gives back its coordinates. |
| MapGeometry.SlabCentreRoundTrip | src/player_utils.c:801-803 | The centre subtile computed for a slab decodes to that slab's centre and lies inside that slab. |
| MapGeometry.SlabAtSubtile | src/creature_instances.c:370-373 | A subtile's slab exists iff both slab coordinates are on the map. Its number then lies in the slab table and decodes back to the subtile's slab column and row. |
| MapGeometry.SlabNumberRoundTrip | src/player_utils.c:801-802 | Decoding a slab number gives back the column and row it was made from, for every column on the map. |

## Left out

- The handlers that only forward to the original executable are not modelled: attack room slab, damage wall, eat, fart, pretty path, reinforce and tunnel (`src/creature_instances.c:417-482`). The same goes for `fill_in_explored_area`.
- `creature_instance_is_available`, `player_cannot_win`, `wander_point_initialise` (beyond the field values it sets, in the `Wander` constructor), `wp_check_map_pos_valid` (a parameter here), trap and door selling, player initialisation and the remaining functions of `src/player_utils.c` are not part of this model.
- Sounds, visual effects, events, on-screen messages, menus, the "lord of the land" torture flag and the other GUI side effects of winning and losing are left out. They are presentation and do not feed back into the modelled state.
- The losing player's cleanup is left out: hand contents, call to arms, power sight, player mode, revealing the map, switching off the computer player. It is a sequence of calls to code outside this model.
- The map, room, task-list and thing headers are not part of this model. Their constants are taken as:
  - 3 subtiles per slab, with a subtile-number stride of one more than the subtile columns;
  - an instance table of 48 entries;
  - the room table size as `ROOMS_COUNT`;
  - the learned-instance array's length as `CREATURE_INSTANCES_COUNT`;
  - the ring's length as `WANDER_POINTS_COUNT`;
  - one dungeon record per player slot.
- Only the gems slab kind is told apart; other kinds are opaque codes.
- The 16- and 32-bit widths of the C fields and any overflow or wrap-around are not modelled; integers are unbounded.
- DungeonGold.HoardTake: `remove_gold_from_hoarde` is not part of this model. It is taken to hand over the smaller of the request and the hoard's gold and to change nothing else. In the game it also lowers the owner's `total_money_owned`, which this model does not do.
- DungeonGold.TakeMoneyFromDungeon: after a payment that draws on the treasury rooms, the total money owned is lowered only by the off-map part; the gold taken from the rooms' hoards does not lower it here, because `remove_gold_from_hoarde` (which does that in the game) is not part of this model.
- WanderPoints.SampleIndex: the sampler's double-precision index `0.1 + i * count / max` is computed here exactly and rounded down. Floating-point rounding of the C code is not modelled.
- InstanceHandlers.Destroy: the creature is required to stand on the map. The C code reads through an invalid-slab sentinel otherwise.
- InstanceHandlers.Dig: in the game the damage of a blow depends on the digging creature and the gold yield on the owner and experience level as well. Here both are functions passed in, for the creature at hand.
- CreatureInstances.CreatureControl.ProcessInstance: the handler call is returned and the timer is updated at once, whereas the C code calls the handler before testing the completion tick. This is the same only for handlers that neither read nor write the instance timing fields or `instance_use_turn`; the handlers modelled here do not, but handlers bound by name through the function table are not known to this model.
- WanderPoints.Wander.constructor: it starts with an empty ring and a zero count. `wander_point_initialise` resets the insertion index but not `points_count`, so a re-initialised ring in the game keeps its old count; re-initialising an existing ring is not modelled.
- The claim path of `instf_destroy` returns 0 (effect goes on) after claiming the room, as the code does, not "completed".
- `take_money_from_dungeon_f` leaves gold already taken out of the hoards when the treasury rooms cannot cover the whole request, as the code does.
- The dig task's kind is one of gold, earth or another code; the task list itself is not part of this model and the task is passed in.

## Findings

| source | as written | input that shows it | evidently intended | confidence | as-written member | corrected member |
|---|---|---|---|---|---|---|
| src/player_utils.c:366-367 | the running maximum `max_manage_score` takes a keeper's `manage_score` whenever that keeper's `total_score` exceeds it | two keepers with manage/total scores 100/1 and 5/200, generation speed 100: the maximum becomes 5 and the first keeper waits 5 turns | the maximum of the keepers' management scores, so that no keeper waits fewer turns than the generation speed | not executed | DungeonArea.AsWrittenUndercutsSpeed | DungeonArea.EntranceTurnsAtLeastSpeed |
