/** Taking gold from a player: off-map money first, then the gold hoards of
    the player's treasury rooms, which are reached through the owner's
    linked list of rooms and, inside each room, the room's linked list of
    slabs.  Each gold hoard stands on a slab's centre subtile; the model keeps
    its gold in `GameMap.hoardGold`, indexed by slab number (0 where no hoard
    stands). */
module DungeonGold {
  import opened Common
  import opened MapGeometry
  import opened World

  /** Total gold of a sequence of hoards. */
  function Sum(s: seq<int>): int
  {
    if |s| == 0 then 0 else s[0] + Sum(s[1..])
  }

  /** Replacing one hoard changes the total by the difference. */
  lemma {:induction false} SumUpdate(s: seq<int>, i: nat, v: int)
    requires i < |s|
    ensures Sum(s[i := v]) == Sum(s) - s[i] + v
  {
    if i == 0 {
      assert s[i := v][1..] == s[1..];
    } else {
      assert s[i := v][1..] == s[1..][i - 1 := v];
      SumUpdate(s[1..], i - 1, v);
    }
  }

  /** Gold handed over by a hoard holding `gold` when `amount` is asked for
      (remove_gold_from_hoarde, which is not part of this model: it gives at
      most what is asked and at most what the hoard holds). */
  function HoardTake(gold: int, amount: int): (t: int)
    ensures 0 <= t
    ensures amount > 0 ==> t <= amount
    ensures amount <= 0 ==> t == 0
    ensures t == 0 || t <= gold
  {
    if amount <= 0 || gold <= 0 then 0 else Min(gold, amount)
  }

  /** State of one sweep: the hoards and the gold still to be taken. */
  datatype Sweep = Sweep(hoard: seq<int>, remain: int)

  /** Empty the hoard on slab `i` as far as `remain` asks. */
  function TakeAt(hoard: seq<int>, i: nat, remain: int): (r: Sweep)
    requires i < |hoard|
  {
    var t := HoardTake(hoard[i], remain);
    Sweep(hoard[i := hoard[i] - t], remain - t)
  }

  /** One sweep of `take_money_from_room` over a room's slab list, from slab
      `slbNum` after `k` steps: stop at the end of the list (0), at an
      invalid slab number, once nothing remains to be taken, or when the
      step counter passes the number of slabs on the map.  When `borderOnly`
      holds, only slabs on the room's outer border are emptied. */
  function RoomSweep(slabs: seq<Slab>, tilesX: nat, tilesY: nat, isOuterBorder: (nat, nat) -> bool,
                     borderOnly: bool, s: Sweep, slbNum: int, k: nat): (r: Sweep)
    requires |slabs| == tilesX * tilesY && |s.hoard| == |slabs| && k <= |slabs|
    ensures |r.hoard| == |s.hoard|
    decreases |slabs| - k
  {
    if slbNum <= 0 || slbNum >= |slabs| then s
    else
      WidthPositive(slbNum, tilesX, tilesY);
      var s' := if !borderOnly || isOuterBorder(SlbNumDecodeX(slbNum, tilesX), SlbNumDecodeY(slbNum, tilesX))
                then TakeAt(s.hoard, slbNum, s.remain) else s;
      if s'.remain <= 0 || k + 1 > |slabs| then s'
      else RoomSweep(slabs, tilesX, tilesY, isOuterBorder, borderOnly, s', slabs[slbNum].nextInRoom, k + 1)
  }

  /** Whole of `take_money_from_room`: a border sweep, then, if gold is still
      wanted, a sweep over every slab of the room. */
  function RoomTake(slabs: seq<Slab>, tilesX: nat, tilesY: nat, isOuterBorder: (nat, nat) -> bool,
                    hoard: seq<int>, room: Room, amountTake: int): (r: Sweep)
    requires |slabs| == tilesX * tilesY && |hoard| == |slabs|
    ensures |r.hoard| == |hoard|
  {
    var s1 := RoomSweep(slabs, tilesX, tilesY, isOuterBorder, true, Sweep(hoard, amountTake), room.slabsList, 0);
    if s1.remain <= 0 then s1
    else RoomSweep(slabs, tilesX, tilesY, isOuterBorder, false, s1, room.slabsList, 0)
  }

  /** Every hoard either keeps its gold or gives some of it away and stays
      non-negative. */
  ghost predicate OnlyDrained(before: seq<int>, after: seq<int>)
  {
    |after| == |before| &&
    forall i :: 0 <= i < |before| ==> after[i] == before[i] || 0 <= after[i] < before[i]
  }

  /** Gold is neither created nor lost by a sweep: what leaves the hoards is
      exactly what was taken off the request, never more than was asked. */
  lemma {:induction false} RoomSweepConserves(slabs: seq<Slab>, tilesX: nat, tilesY: nat,
      isOuterBorder: (nat, nat) -> bool, borderOnly: bool, s: Sweep, slbNum: int, k: nat)
    requires |slabs| == tilesX * tilesY && |s.hoard| == |slabs| && k <= |slabs|
    ensures var r := RoomSweep(slabs, tilesX, tilesY, isOuterBorder, borderOnly, s, slbNum, k);
            && Sum(s.hoard) - Sum(r.hoard) == s.remain - r.remain
            && (s.remain > 0 ==> 0 <= r.remain <= s.remain)
            && (s.remain <= 0 ==> r == s)
            && OnlyDrained(s.hoard, r.hoard)
    decreases |slabs| - k
  {
    if slbNum <= 0 || slbNum >= |slabs| {
    } else {
      WidthPositive(slbNum, tilesX, tilesY);
      var s' := if !borderOnly || isOuterBorder(SlbNumDecodeX(slbNum, tilesX), SlbNumDecodeY(slbNum, tilesX))
                then TakeAt(s.hoard, slbNum, s.remain) else s;
      SumUpdate(s.hoard, slbNum, s.hoard[slbNum] - HoardTake(s.hoard[slbNum], s.remain));
      assert Sum(s.hoard) - Sum(s'.hoard) == s.remain - s'.remain;
      if s'.remain <= 0 || k + 1 > |slabs| {
      } else {
        RoomSweepConserves(slabs, tilesX, tilesY, isOuterBorder, borderOnly, s', slabs[slbNum].nextInRoom, k + 1);
      }
    }
  }

  /** A border sweep leaves the hoards of every other slab untouched. */
  lemma {:induction false} BorderSweepSparesInterior(slabs: seq<Slab>, tilesX: nat, tilesY: nat,
      isOuterBorder: (nat, nat) -> bool, s: Sweep, slbNum: int, k: nat, i: nat)
    requires |slabs| == tilesX * tilesY && |s.hoard| == |slabs| && k <= |slabs|
    requires i < |slabs| && !isOuterBorder(SlbNumDecodeX(i, tilesX), SlbNumDecodeY(i, tilesX))
    ensures RoomSweep(slabs, tilesX, tilesY, isOuterBorder, true, s, slbNum, k).hoard[i] == s.hoard[i]
    decreases |slabs| - k
  {
    if slbNum <= 0 || slbNum >= |slabs| {
    } else {
      WidthPositive(slbNum, tilesX, tilesY);
      var s' := if isOuterBorder(SlbNumDecodeX(slbNum, tilesX), SlbNumDecodeY(slbNum, tilesX))
                then TakeAt(s.hoard, slbNum, s.remain) else s;
      assert s'.hoard[i] == s.hoard[i];
      if s'.remain <= 0 || k + 1 > |slabs| {
      } else {
        BorderSweepSparesInterior(slabs, tilesX, tilesY, isOuterBorder, s', slabs[slbNum].nextInRoom, k + 1, i);
      }
    }
  }

  /** take_money_from_room gives back what it took from the room's hoards:
      nothing for a request of at most zero, otherwise between zero and the
      request; and when the border hoards cover the request the hoards
      inside the border keep their gold. */
  lemma RoomTakeConserves(slabs: seq<Slab>, tilesX: nat, tilesY: nat, isOuterBorder: (nat, nat) -> bool,
                          hoard: seq<int>, room: Room, amountTake: int)
    requires |slabs| == tilesX * tilesY && |hoard| == |slabs|
    ensures var r := RoomTake(slabs, tilesX, tilesY, isOuterBorder, hoard, room, amountTake);
            && Sum(hoard) - Sum(r.hoard) == amountTake - r.remain
            && (amountTake > 0 ==> 0 <= amountTake - r.remain <= amountTake)
            && (amountTake <= 0 ==> r.hoard == hoard && r.remain == amountTake)
            && OnlyDrained(hoard, r.hoard)
  {
    var s0 := Sweep(hoard, amountTake);
    RoomSweepConserves(slabs, tilesX, tilesY, isOuterBorder, true, s0, room.slabsList, 0);
    var s1 := RoomSweep(slabs, tilesX, tilesY, isOuterBorder, true, s0, room.slabsList, 0);
    if s1.remain > 0 {
      RoomSweepConserves(slabs, tilesX, tilesY, isOuterBorder, false, s1, room.slabsList, 0);
    }
  }

  lemma BorderFirst(slabs: seq<Slab>, tilesX: nat, tilesY: nat, isOuterBorder: (nat, nat) -> bool,
                    hoard: seq<int>, room: Room, amountTake: int, i: nat)
    requires |slabs| == tilesX * tilesY && |hoard| == |slabs|
    requires i < |slabs| && !isOuterBorder(SlbNumDecodeX(i, tilesX), SlbNumDecodeY(i, tilesX))
    requires RoomSweep(slabs, tilesX, tilesY, isOuterBorder, true, Sweep(hoard, amountTake), room.slabsList, 0).remain <= 0
    ensures RoomTake(slabs, tilesX, tilesY, isOuterBorder, hoard, room, amountTake).hoard[i] == hoard[i]
  {
    BorderSweepSparesInterior(slabs, tilesX, tilesY, isOuterBorder, Sweep(hoard, amountTake), room.slabsList, 0, i);
  }

  /** find_gold_hoard_at on a slab's centre followed by
      remove_gold_from_hoarde. */
  method RemoveGoldFromHoard(level: GameMap, slbNum: nat, amount: int) returns (taken: int)
    requires level.Valid() && slbNum < level.hoardGold.Length
    modifies level.hoardGold
    ensures taken == HoardTake(old(level.hoardGold[slbNum]), amount)
    // the hoard loses exactly what it hands over, and no other hoard changes
    ensures level.hoardGold[slbNum] == old(level.hoardGold[slbNum]) - taken
    ensures forall i :: 0 <= i < level.hoardGold.Length && i != slbNum ==> level.hoardGold[i] == old(level.hoardGold[i])
    ensures level.hoardGold[..] == TakeAt(old(level.hoardGold[..]), slbNum, amount).hoard
  {
    taken := HoardTake(level.hoardGold[slbNum], amount);
    level.hoardGold[slbNum] := level.hoardGold[slbNum] - taken;
  }

  /** One sweep of the room's slab list, as the source's loop runs it. */
  method SweepRoomSlabs(level: GameMap, room: Room, amount0: int, borderOnly: bool,
                        isOuterBorder: (nat, nat) -> bool) returns (amount: int)
    requires level.Valid()
    modifies level.hoardGold
    ensures var r := RoomSweep(level.slabs[..], level.tilesX, level.tilesY, isOuterBorder, borderOnly,
                               Sweep(old(level.hoardGold[..]), amount0), room.slabsList, 0);
            level.hoardGold[..] == r.hoard && amount == r.remain
  {
    var n := level.slabs.Length;
    ghost var goal := RoomSweep(level.slabs[..], level.tilesX, level.tilesY, isOuterBorder, borderOnly,
                                Sweep(level.hoardGold[..], amount0), room.slabsList, 0);
    amount := amount0;
    var k: nat := 0;
    var slbNum := room.slabsList;
    while slbNum > 0
      invariant k <= n
      invariant RoomSweep(level.slabs[..], level.tilesX, level.tilesY, isOuterBorder, borderOnly,
                          Sweep(level.hoardGold[..], amount), slbNum, k) == goal
      decreases n - k
    {
      if slbNum >= n {
        break;
      }
      WidthPositive(slbNum, level.tilesX, level.tilesY);
      var slbX, slbY := SlbNumDecodeX(slbNum, level.tilesX), SlbNumDecodeY(slbNum, level.tilesX);
      if !borderOnly || isOuterBorder(slbX, slbY) {
        var t := RemoveGoldFromHoard(level, slbNum, amount);
        amount := amount - t;
      }
      if amount <= 0 {
        break;
      }
      slbNum := level.slabs[slbNum].nextInRoom;
      k := k + 1;
      if k > n {
        break;
      }
    }
  }

  /** take_money_from_room: returns the gold taken from the room's hoards. */
  method TakeMoneyFromRoom(level: GameMap, room: Room, amountTake: int,
                           isOuterBorder: (nat, nat) -> bool) returns (taken: int)
    requires level.Valid()
    modifies level.hoardGold
    ensures var r := RoomTake(level.slabs[..], level.tilesX, level.tilesY, isOuterBorder,
                              old(level.hoardGold[..]), room, amountTake);
            level.hoardGold[..] == r.hoard && taken == amountTake - r.remain
  {
    var amount := SweepRoomSlabs(level, room, amountTake, true, isOuterBorder);
    if amount <= 0 {
      return amountTake - amount;
    }
    amount := SweepRoomSlabs(level, room, amount, false, isOuterBorder);
    return amountTake - amount;
  }

  /** Result of sweeping the owner's treasury rooms: the hoards, the gold
      still wanted, and whether the request was met. */
  datatype Withdrawal = Withdrawal(hoard: seq<int>, remain: int, paid: bool)

  /** The room loop of take_money_from_dungeon_f from room `i` after `k`
      steps: stop at the end of the list (0), at an invalid room, or when the
      step counter passes the size of the room table; rooms with nothing in
      storage are skipped; the request is met as soon as nothing remains. */
  function TreasurySweep(slabs: seq<Slab>, tilesX: nat, tilesY: nat, isOuterBorder: (nat, nat) -> bool,
                         rooms: seq<Room>, hoard: seq<int>, remain: int, i: int, k: nat): (r: Withdrawal)
    requires |slabs| == tilesX * tilesY && |hoard| == |slabs| && k <= |rooms|
    ensures |r.hoard| == |hoard|
    decreases |rooms| - k
  {
    if i == 0 || !(1 <= i < |rooms|) then Withdrawal(hoard, remain, false)
    else
      var room := rooms[i];
      var s := if room.storageUsed > 0 then RoomTake(slabs, tilesX, tilesY, isOuterBorder, hoard, room, remain)
               else Sweep(hoard, remain);
      if room.storageUsed > 0 && s.remain <= 0 then Withdrawal(s.hoard, s.remain, true)
      else if k + 1 > |rooms| then Withdrawal(s.hoard, s.remain, false)
      else TreasurySweep(slabs, tilesX, tilesY, isOuterBorder, rooms, s.hoard, s.remain, room.nextOfOwner, k + 1)
  }

  /** Sweeping the treasuries for a positive amount takes from the hoards
      exactly what it takes off the request; the request is met exactly when
      nothing of it remains. */
  lemma {:induction false} TreasurySweepConserves(slabs: seq<Slab>, tilesX: nat, tilesY: nat,
      isOuterBorder: (nat, nat) -> bool, rooms: seq<Room>, hoard: seq<int>, remain: int, i: int, k: nat)
    requires |slabs| == tilesX * tilesY && |hoard| == |slabs| && k <= |rooms|
    requires remain > 0
    ensures var r := TreasurySweep(slabs, tilesX, tilesY, isOuterBorder, rooms, hoard, remain, i, k);
            && Sum(hoard) - Sum(r.hoard) == remain - r.remain
            && 0 <= r.remain <= remain
            && (r.paid <==> r.remain == 0)
            && OnlyDrained(hoard, r.hoard)
    decreases |rooms| - k
  {
    if i == 0 || !(1 <= i < |rooms|) {
    } else {
      var room := rooms[i];
      if room.storageUsed > 0 {
        RoomTakeConserves(slabs, tilesX, tilesY, isOuterBorder, hoard, room, remain);
      }
      var s := if room.storageUsed > 0 then RoomTake(slabs, tilesX, tilesY, isOuterBorder, hoard, room, remain)
               else Sweep(hoard, remain);
      if room.storageUsed > 0 && s.remain <= 0 {
      } else if k + 1 > |rooms| {
      } else {
        TreasurySweepConserves(slabs, tilesX, tilesY, isOuterBorder, rooms, s.hoard, s.remain, room.nextOfOwner, k + 1);
        OnlyDrainedTrans(hoard, s.hoard,
          TreasurySweep(slabs, tilesX, tilesY, isOuterBorder, rooms, s.hoard, s.remain, room.nextOfOwner, k + 1).hoard);
      }
    }
  }

  lemma OnlyDrainedTrans(a: seq<int>, b: seq<int>, c: seq<int>)
    requires OnlyDrained(a, b) && OnlyDrained(b, c)
    ensures OnlyDrained(a, c)
  {
  }

  /** The owner's treasury loop, as the source runs it. */
  method SweepTreasuries(level: GameMap, dungeon: Dungeon, remain0: int,
                         isOuterBorder: (nat, nat) -> bool) returns (remain: int, paid: bool)
    requires level.Valid()
    modifies level.hoardGold
    ensures var r := TreasurySweep(level.slabs[..], level.tilesX, level.tilesY, isOuterBorder, level.rooms[..],
                                   old(level.hoardGold[..]), remain0, dungeon.treasuryRooms, 0);
            level.hoardGold[..] == r.hoard && remain == r.remain && paid == r.paid
  {
    ghost var goal := TreasurySweep(level.slabs[..], level.tilesX, level.tilesY, isOuterBorder, level.rooms[..],
                                    level.hoardGold[..], remain0, dungeon.treasuryRooms, 0);
    remain := remain0;
    var i := dungeon.treasuryRooms;
    var k: nat := 0;
    while i != 0
      invariant k <= level.rooms.Length
      invariant TreasurySweep(level.slabs[..], level.tilesX, level.tilesY, isOuterBorder, level.rooms[..],
                              level.hoardGold[..], remain, i, k) == goal
      decreases level.rooms.Length - k
    {
      if !level.RoomValid(i) {
        break;
      }
      var room := level.rooms[i];
      i := room.nextOfOwner;
      if room.storageUsed > 0 {
        var t := TakeMoneyFromRoom(level, room, remain, isOuterBorder);
        remain := remain - t;
        if remain <= 0 {
          return remain, true;
        }
      }
      k := k + 1;
      if k > level.rooms.Length {
        break;
      }
    }
    return remain, false;
  }

  /** take_money_from_dungeon_f.  Returns the amount taken, 0 for a request
      of at most zero, and -1 when the player has no dungeon, cannot pay and
      the whole sum is demanded or nothing is owned, or the treasuries run
      out before the request is met. */
  method TakeMoneyFromDungeon(dungeons: seq<Dungeon>, plyrIdx: int, amountTake: int, onlyWholeSum: bool,
                              level: GameMap, isOuterBorder: (nat, nat) -> bool) returns (r: int)
    requires level.Valid()
    modifies dungeons`totalMoneyOwned, dungeons`offmapMoneyOwned, level.hoardGold
    // only the player's own dungeon is written
    ensures forall d :: d in dungeons && Some(d) != DungeonOf(dungeons, plyrIdx) ==> unchanged(d)
    ensures DungeonOf(dungeons, plyrIdx).None? ==> r == -1 && unchanged(level.hoardGold)
    ensures DungeonOf(dungeons, plyrIdx).Some? ==>
      var d := dungeons[plyrIdx];
      var total, offmap := old(d.totalMoneyOwned), old(d.offmapMoneyOwned);
      var want := Min(amountTake, total);
      && (amountTake <= 0 ==> r == 0 && unchanged(d) && unchanged(level.hoardGold))
      && (amountTake > 0 && amountTake > total && (onlyWholeSum || total == 0) ==>
            r == -1 && unchanged(d) && unchanged(level.hoardGold))
      && (amountTake > 0 && !(amountTake > total && (onlyWholeSum || total == 0)) ==>
            // off-map money is drawn first
            && (0 < offmap && want <= offmap ==>
                  r == want && d.offmapMoneyOwned == offmap - want && d.totalMoneyOwned == total - want
                  && unchanged(level.hoardGold))
            && (!(0 < offmap && want <= offmap) ==>
                  var fromOffmap := if offmap > 0 then offmap else 0;
                  var w := TreasurySweep(level.slabs[..], level.tilesX, level.tilesY, isOuterBorder,
                                         level.rooms[..], old(level.hoardGold[..]), want - fromOffmap,
                                         old(d.treasuryRooms), 0);
                  && d.offmapMoneyOwned == offmap - fromOffmap
                  && d.totalMoneyOwned == total - fromOffmap
                  && level.hoardGold[..] == w.hoard
                  && r == (if w.paid then want else -1)))
  {
    var dm := DungeonOf(dungeons, plyrIdx);
    if dm.None? {
      return -1;
    }
    var dungeon := dm.value;
    var takeRemain := amountTake;
    var totalMoney := dungeon.totalMoneyOwned;
    if takeRemain <= 0 {
      return 0;
    }
    var amount := amountTake;
    if takeRemain > totalMoney {
      if onlyWholeSum || totalMoney == 0 {
        return -1;
      }
      takeRemain := dungeon.totalMoneyOwned;
      amount := dungeon.totalMoneyOwned;
    }
    var offmapMoney := dungeon.offmapMoneyOwned;
    if offmapMoney > 0 {
      if takeRemain <= offmapMoney {
        dungeon.offmapMoneyOwned := dungeon.offmapMoneyOwned - takeRemain;
        dungeon.totalMoneyOwned := dungeon.totalMoneyOwned - takeRemain;
        return amount;
      }
      takeRemain := takeRemain - offmapMoney;
      dungeon.totalMoneyOwned := dungeon.totalMoneyOwned - offmapMoney;
      dungeon.offmapMoneyOwned := 0;
    }
    var paid;
    takeRemain, paid := SweepTreasuries(level, dungeon, takeRemain, isOuterBorder);
    if paid {
      return amount;
    }
    return -1;
  }

  /** When take_money_from_dungeon_f pays, the gold taken off the map's
      hoards and off the off-map money together make up exactly the amount
      it reports. */
  lemma PaymentConserves(slabs: seq<Slab>, tilesX: nat, tilesY: nat, isOuterBorder: (nat, nat) -> bool,
                         rooms: seq<Room>, hoard: seq<int>, offmap: int, want: int, head: int)
    requires |slabs| == tilesX * tilesY && |hoard| == |slabs|
    requires want > 0 && !(0 < offmap && want <= offmap)
    ensures var fromOffmap := if offmap > 0 then offmap else 0;
            var w := TreasurySweep(slabs, tilesX, tilesY, isOuterBorder, rooms, hoard, want - fromOffmap, head, 0);
            w.paid ==> fromOffmap + (Sum(hoard) - Sum(w.hoard)) == want
  {
    var fromOffmap := if offmap > 0 then offmap else 0;
    TreasurySweepConserves(slabs, tilesX, tilesY, isOuterBorder, rooms, hoard, want - fromOffmap, head, 0);
  }
}
