/** The per-player territory tally over the slab map and the entrance
    generation speeds that follow from the players' management scores.
    Every player slot has one dungeon record: `dungeons[p]` belongs to
    player `p`. */
module DungeonArea {
  import opened Common
  import opened MapGeometry
  import opened World

  /** Whether slab `s` adds to the area of player `p`: it is owned by a
      non-neutral `p` and is a room interior, or (unless only the room area
      is counted) fortified ground. */
  predicate AddsTo(s: Slab, p: int, neutralPlayer: int, categoryOf: SlabKind -> SlabCategory, roomOnly: bool)
  {
    s.owner == p && p != neutralPlayer &&
    (categoryOf(s.kind) == RoomInterior || (!roomOnly && categoryOf(s.kind) == FortifiedGround))
  }

  /** Number of slabs of `slabs` adding to the area of player `p`. */
  function Area(slabs: seq<Slab>, p: int, neutralPlayer: int, categoryOf: SlabKind -> SlabCategory, roomOnly: bool): nat
  {
    if |slabs| == 0 then 0
    else Area(slabs[..|slabs| - 1], p, neutralPlayer, categoryOf, roomOnly)
         + (if AddsTo(slabs[|slabs| - 1], p, neutralPlayer, categoryOf, roomOnly) then 1 else 0)
  }

  /** The room area of a player never exceeds the player's total area. */
  lemma {:induction false} RoomAreaWithinTotal(slabs: seq<Slab>, p: int, neutralPlayer: int,
                                               categoryOf: SlabKind -> SlabCategory)
    ensures Area(slabs, p, neutralPlayer, categoryOf, true) <= Area(slabs, p, neutralPlayer, categoryOf, false)
  {
    if |slabs| > 0 {
      RoomAreaWithinTotal(slabs[..|slabs| - 1], p, neutralPlayer, categoryOf);
    }
  }

  /** The neutral player owns no area. */
  lemma {:induction false} NeutralHasNoArea(slabs: seq<Slab>, neutralPlayer: int,
                                            categoryOf: SlabKind -> SlabCategory, roomOnly: bool)
    ensures Area(slabs, neutralPlayer, neutralPlayer, categoryOf, roomOnly) == 0
  {
    if |slabs| > 0 {
      NeutralHasNoArea(slabs[..|slabs| - 1], neutralPlayer, categoryOf, roomOnly);
    }
  }

  /** The areas of distinct players count disjoint sets of slabs, so
      together they never exceed the map. */
  lemma {:induction false} AreasDisjoint(slabs: seq<Slab>, p: int, q: int, neutralPlayer: int,
                                         categoryOf: SlabKind -> SlabCategory)
    requires p != q
    ensures Area(slabs, p, neutralPlayer, categoryOf, false) + Area(slabs, q, neutralPlayer, categoryOf, false) <= |slabs|
  {
    if |slabs| > 0 {
      AreasDisjoint(slabs[..|slabs| - 1], p, q, neutralPlayer, categoryOf);
    }
  }

  /** Extending the counted prefix by one slab adds that slab's share. */
  lemma AreaExtend(slabs: seq<Slab>, n: nat, p: int, neutralPlayer: int,
                   categoryOf: SlabKind -> SlabCategory, roomOnly: bool)
    requires n < |slabs|
    ensures Area(slabs[..n + 1], p, neutralPlayer, categoryOf, roomOnly)
         == Area(slabs[..n], p, neutralPlayer, categoryOf, roomOnly)
            + (if AddsTo(slabs[n], p, neutralPlayer, categoryOf, roomOnly) then 1 else 0)
  {
    assert slabs[..n + 1][..n] == slabs[..n];
  }

  lemma RowBounds(y: nat, tilesX: nat, tilesY: nat)
    requires y < tilesY
    ensures y * tilesX + tilesX == (y + 1) * tilesX <= tilesX * tilesY
  {
    MulLe(y + 1, tilesY, tilesX);
  }

  /** The share of one slab, added to the dungeon of its owner. */
  method TallySlab(dungeons: seq<Dungeon>, slb: Slab, neutralPlayer: int, categoryOf: SlabKind -> SlabCategory)
    requires Distinct(dungeons)
    modifies dungeons`totalArea, dungeons`roomManageArea
    ensures forall q :: 0 <= q < |dungeons| ==>
              && dungeons[q].totalArea == old(dungeons[q].totalArea)
                   + (if AddsTo(slb, q, neutralPlayer, categoryOf, false) then 1 else 0)
              && dungeons[q].roomManageArea == old(dungeons[q].roomManageArea)
                   + (if AddsTo(slb, q, neutralPlayer, categoryOf, true) then 1 else 0)
  {
    var category := categoryOf(slb.kind);
    if category == RoomInterior {
      var d := if slb.owner != neutralPlayer then DungeonOf(dungeons, slb.owner) else None;
      if d.Some? {
        d.value.totalArea := d.value.totalArea + 1;
        d.value.roomManageArea := d.value.roomManageArea + 1;
      }
    } else if category == FortifiedGround {
      var d := if slb.owner != neutralPlayer then DungeonOf(dungeons, slb.owner) else None;
      if d.Some? {
        d.value.totalArea := d.value.totalArea + 1;
      }
    }
  }

  /** Every dungeon holds the area counted over `slabs`. */
  ghost predicate Tallied(dungeons: seq<Dungeon>, slabs: seq<Slab>, neutralPlayer: int,
                          categoryOf: SlabKind -> SlabCategory)
    reads dungeons
  {
    forall q :: 0 <= q < |dungeons| ==>
      && dungeons[q].totalArea == Area(slabs, q, neutralPlayer, categoryOf, false)
      && dungeons[q].roomManageArea == Area(slabs, q, neutralPlayer, categoryOf, true)
  }

  /** The inner loop of calculate_dungeon_area_scores: one row of slabs. */
  method TallyRow(dungeons: seq<Dungeon>, slabs: array<Slab>, slbY: nat, tilesX: nat,
                  neutralPlayer: int, categoryOf: SlabKind -> SlabCategory, ghost rowStart: nat)
    requires Distinct(dungeons) && rowStart == slbY * tilesX && rowStart + tilesX <= slabs.Length
    requires Tallied(dungeons, slabs[..rowStart], neutralPlayer, categoryOf)
    modifies dungeons`totalArea, dungeons`roomManageArea
    ensures Tallied(dungeons, slabs[..rowStart + tilesX], neutralPlayer, categoryOf)
  {
    for slbX := 0 to tilesX
      invariant Tallied(dungeons, slabs[..rowStart + slbX], neutralPlayer, categoryOf)
    {
      var slbNum := SlabNumber(slbX, slbY, tilesX);
      TallySlab(dungeons, slabs[slbNum], neutralPlayer, categoryOf);
      forall q | 0 <= q < |dungeons|
        ensures dungeons[q].totalArea == Area(slabs[..slbNum + 1], q, neutralPlayer, categoryOf, false)
        ensures dungeons[q].roomManageArea == Area(slabs[..slbNum + 1], q, neutralPlayer, categoryOf, true)
      {
        AreaExtend(slabs[..], slbNum, q, neutralPlayer, categoryOf, false);
        AreaExtend(slabs[..], slbNum, q, neutralPlayer, categoryOf, true);
      }
    }
  }

  /** calculate_dungeon_area_scores: every dungeon's total and room area is
      recounted from the slab map. */
  method CalculateAreaScores(dungeons: seq<Dungeon>, level: GameMap, neutralPlayer: int,
                             categoryOf: SlabKind -> SlabCategory)
    requires level.Valid() && Distinct(dungeons)
    modifies dungeons`totalArea, dungeons`roomManageArea
    ensures forall p :: 0 <= p < |dungeons| ==>
              && dungeons[p].totalArea == Area(level.slabs[..], p, neutralPlayer, categoryOf, false)
              && dungeons[p].roomManageArea == Area(level.slabs[..], p, neutralPlayer, categoryOf, true)
  {
    // zero dungeon areas
    for p := 0 to |dungeons|
      invariant forall q :: 0 <= q < p ==> dungeons[q].totalArea == 0 && dungeons[q].roomManageArea == 0
    {
      var d := DungeonOf(dungeons, p);
      if d.Some? {
        d.value.totalArea := 0;
        d.value.roomManageArea := 0;
      }
    }
    assert level.slabs[..0] == [];
    // count the owned slabs, row by row
    ghost var rowStart := 0;
    for slbY := 0 to level.tilesY
      invariant rowStart == slbY * level.tilesX <= level.slabs.Length
      invariant Tallied(dungeons, level.slabs[..rowStart], neutralPlayer, categoryOf)
    {
      RowBounds(slbY, level.tilesX, level.tilesY);
      TallyRow(dungeons, level.slabs, slbY, level.tilesX, neutralPlayer, categoryOf, rowStart);
      rowStart := rowStart + level.tilesX;
    }
    assert level.slabs[..rowStart] == level.slabs[..];
  }

  /** The scores of one keeper that the generation speeds depend on. */
  datatype KeeperScore = KeeperScore(manage: int, total: int)

  predicate IsKeeper(pl: Player)
    reads pl
  {
    pl.inUse && pl.isKeeper
  }

  /** Scores of the keepers among `players`, in player order (a keeper
      whose dungeon record does not exist contributes nothing). */
  function KeeperScores(players: seq<Player>, dungeons: seq<Dungeon>): seq<KeeperScore>
    reads players, dungeons
  {
    if |players| == 0 then []
    else
      var pl := players[|players| - 1];
      var d := DungeonOf(dungeons, pl.idNumber);
      KeeperScores(players[..|players| - 1], dungeons)
      + (if IsKeeper(pl) && d.Some? then [KeeperScore(d.value.manageScore, d.value.totalScore)] else [])
  }

  /** `s` holds the management and total score of the dungeon of some
      keeper among `players`. */
  ghost predicate ScoreOfKeeper(players: seq<Player>, dungeons: seq<Dungeon>, s: KeeperScore)
    reads players, dungeons
  {
    exists i :: 0 <= i < |players| && IsKeeper(players[i]) && 0 <= players[i].idNumber < |dungeons| &&
                s == KeeperScore(dungeons[players[i].idNumber].manageScore, dungeons[players[i].idNumber].totalScore)
  }

  /** Every score taken into account is that of some keeper's dungeon, and
      there are no more of them than players. */
  lemma {:induction false} KeeperScoresFromKeepers(players: seq<Player>, dungeons: seq<Dungeon>)
    ensures |KeeperScores(players, dungeons)| <= |players|
    ensures forall j :: 0 <= j < |KeeperScores(players, dungeons)| ==>
              ScoreOfKeeper(players, dungeons, KeeperScores(players, dungeons)[j])
  {
    if |players| > 0 {
      var front := players[..|players| - 1];
      var last := players[|players| - 1];
      KeeperScoresFromKeepers(front, dungeons);
      var ks := KeeperScores(front, dungeons);
      var r := KeeperScores(players, dungeons);
      forall j | 0 <= j < |r|
        ensures ScoreOfKeeper(players, dungeons, r[j])
      {
        if j < |ks| {
          assert r[j] == ks[j];
          assert ScoreOfKeeper(front, dungeons, ks[j]);
          var i :| 0 <= i < |front| && IsKeeper(front[i]) && 0 <= front[i].idNumber < |dungeons| &&
                   ks[j] == KeeperScore(dungeons[front[i].idNumber].manageScore, dungeons[front[i].idNumber].totalScore);
          assert front[i] == players[i];
        } else {
          assert IsKeeper(last) && 0 <= last.idNumber < |dungeons|;
          assert r[j] == KeeperScore(dungeons[last.idNumber].manageScore, dungeons[last.idNumber].totalScore);
        }
      }
    }
  }

  /** The highest management score among the keepers, and 0 if none is
      positive. */
  function MaxManage(scores: seq<KeeperScore>): int
  {
    if |scores| == 0 then 0
    else
      var m := MaxManage(scores[..|scores| - 1]);
      if scores[|scores| - 1].manage > m then scores[|scores| - 1].manage else m
  }

  /** MaxManage bounds every keeper's management score and is 0 or one of
      them. */
  lemma {:induction false} MaxManageIsMax(scores: seq<KeeperScore>)
    ensures MaxManage(scores) >= 0
    ensures forall j :: 0 <= j < |scores| ==> scores[j].manage <= MaxManage(scores)
    ensures MaxManage(scores) == 0 || exists j :: 0 <= j < |scores| && scores[j].manage == MaxManage(scores)
  {
    if |scores| > 0 {
      MaxManageIsMax(scores[..|scores| - 1]);
    }
  }

  /** The maximum that update_dungeon_generation_speeds computes as
      written: a keeper's management score is taken whenever the keeper's
      total score exceeds the maximum found so far. */
  function MaxManageAsWritten(scores: seq<KeeperScore>): int
  {
    if |scores| == 0 then 0
    else
      var m := MaxManageAsWritten(scores[..|scores| - 1]);
      if scores[|scores| - 1].total > m then scores[|scores| - 1].manage else m
  }

  /** As written, the maximum is still 0 or some keeper's management score,
      so it never exceeds the true maximum. */
  lemma {:induction false} AsWrittenAtMostMax(scores: seq<KeeperScore>)
    ensures MaxManageAsWritten(scores) == 0 ||
            exists j :: 0 <= j < |scores| && scores[j].manage == MaxManageAsWritten(scores)
    ensures MaxManageAsWritten(scores) <= MaxManage(scores)
  {
    if |scores| > 0 {
      var front := scores[..|scores| - 1];
      AsWrittenAtMostMax(front);
      MaxManageIsMax(scores);
      if MaxManageAsWritten(scores) == MaxManageAsWritten(front) && MaxManageAsWritten(front) != 0 {
        var j :| 0 <= j < |front| && front[j].manage == MaxManageAsWritten(front);
        assert scores[j] == front[j];
      }
    }
  }

  /** Where every keeper's total score is its management score, the loop as
      written does find the maximum management score. */
  lemma {:induction false} AsWrittenAgreesWhenTotalIsManage(scores: seq<KeeperScore>)
    requires forall j :: 0 <= j < |scores| ==> scores[j].total == scores[j].manage
    ensures MaxManageAsWritten(scores) == MaxManage(scores)
  {
    if |scores| > 0 {
      var front := scores[..|scores| - 1];
      assert forall j :: 0 <= j < |front| ==> front[j] == scores[j];
      AsWrittenAgreesWhenTotalIsManage(front);
    }
  }

  /** Turns between two creatures arriving at a keeper's entrances:
      0 when generation is off (-1), the generation speed scaled by how far
      the keeper's management score falls below the best one when that
      score is positive, the generation speed itself otherwise. */
  function EntranceTurns(maxManage: int, generateSpeed: int, manage: int): int
  {
    if generateSpeed == -1 then 0
    else if manage > 0 then CDiv(maxManage * generateSpeed, manage)
    else generateSpeed
  }

  /** For a positive speed and a positively scored keeper, the keeper waits
      at least the speed exactly when the maximum used is at least the
      keeper's own management score. */
  lemma EntranceTurnsVersusSpeed(maxManage: int, generateSpeed: int, manage: int)
    requires generateSpeed > 0 && manage > 0 && maxManage >= 0
    ensures EntranceTurns(maxManage, generateSpeed, manage) >= generateSpeed <==> maxManage >= manage
  {
    var a := maxManage * generateSpeed;
    MulLe(0, maxManage, generateSpeed);
    if maxManage >= manage {
      MulLe(manage, maxManage, generateSpeed);
      assert generateSpeed * manage == manage * generateSpeed;
      DivAtLeast(a, manage, generateSpeed);
    } else {
      MulLe(maxManage + 1, manage, generateSpeed);
      assert (maxManage + 1) * generateSpeed == a + generateSpeed;
      var q := a / manage;
      assert q * manage <= a;
      MulLe(generateSpeed, q, manage);
      assert generateSpeed * manage == manage * generateSpeed;
    }
  }

  /** With the maximum over the management scores, no keeper waits less than
      the generation speed, and the best-managed keepers wait exactly that. */
  lemma EntranceTurnsAtLeastSpeed(scores: seq<KeeperScore>, generateSpeed: int, j: nat)
    requires generateSpeed >= 0 && j < |scores|
    ensures EntranceTurns(MaxManage(scores), generateSpeed, scores[j].manage) >= generateSpeed
    ensures scores[j].manage == MaxManage(scores) ==>
              EntranceTurns(MaxManage(scores), generateSpeed, scores[j].manage) == generateSpeed
  {
    MaxManageIsMax(scores);
    var m, s := scores[j].manage, MaxManage(scores);
    if m > 0 {
      MulLe(m, s, generateSpeed);
      MulLe(0, s, generateSpeed);
      assert generateSpeed * m == m * generateSpeed <= s * generateSpeed;
      DivAtLeast(s * generateSpeed, m, generateSpeed);
      if m == s {
        assert s * generateSpeed == generateSpeed * m;
        MulDivCancel(generateSpeed, m);
      }
    }
  }

  /** As written, a keeper with a high total score but a low management
      score sets the maximum, and a better-managed keeper then waits less
      than the generation speed. */
  lemma AsWrittenUndercutsSpeed()
    ensures var scores := [KeeperScore(100, 1), KeeperScore(5, 200)];
            && MaxManageAsWritten(scores) == 5
            && EntranceTurns(MaxManageAsWritten(scores), 100, scores[0].manage) == 5
            && EntranceTurns(MaxManage(scores), 100, scores[0].manage) == 100
  {
  }

  /** As written, no keeper ever waits longer than with the true maximum:
      the slip only ever shortens the waits. */
  lemma AsWrittenNeverSlower(scores: seq<KeeperScore>, generateSpeed: int, manage: int)
    requires generateSpeed >= 0
    ensures EntranceTurns(MaxManageAsWritten(scores), generateSpeed, manage)
         <= EntranceTurns(MaxManage(scores), generateSpeed, manage)
  {
    AsWrittenAtMostMax(scores);
    if manage > 0 {
      MulLe(MaxManageAsWritten(scores), MaxManage(scores), generateSpeed);
      CDivMonotone(MaxManageAsWritten(scores) * generateSpeed, MaxManage(scores) * generateSpeed, manage);
    }
  }

  /** Whether some keeper among `players` owns dungeon `q`. */
  ghost predicate KeeperOwns(players: seq<Player>, q: int)
    reads players
  {
    exists i :: 0 <= i < |players| && IsKeeper(players[i]) && players[i].idNumber == q
  }

  /** Taking one more player into account. */
  lemma KeeperOwnsExtend(players: seq<Player>, i: nat, q: int)
    requires i < |players|
    ensures KeeperOwns(players[..i + 1], q) <==>
              KeeperOwns(players[..i], q) || (IsKeeper(players[i]) && players[i].idNumber == q)
  {
    if KeeperOwns(players[..i + 1], q) {
      var j :| 0 <= j < i + 1 && IsKeeper(players[..i + 1][j]) && players[..i + 1][j].idNumber == q;
      if j < i {
        assert players[..i][j] == players[j];
      }
    }
    if KeeperOwns(players[..i], q) {
      var j :| 0 <= j < i && IsKeeper(players[..i][j]) && players[..i][j].idNumber == q;
      assert players[..i + 1][j] == players[j];
    }
    if IsKeeper(players[i]) && players[i].idNumber == q {
      assert players[..i + 1][i] == players[i];
    }
  }

  /** The first loop of update_dungeon_generation_speeds, as written: a
      keeper's management score becomes the maximum whenever the keeper's
      total score exceeds the maximum so far. */
  method MaxManageScore(players: seq<Player>, dungeons: seq<Dungeon>) returns (maxManage: int)
    ensures maxManage == MaxManageAsWritten(KeeperScores(players, dungeons))
  {
    maxManage := 0;
    for i := 0 to |players|
      invariant maxManage == MaxManageAsWritten(KeeperScores(players[..i], dungeons))
    {
      assert players[..i + 1][..i] == players[..i];
      assert players[..i + 1][i] == players[i];
      ghost var before := KeeperScores(players[..i], dungeons);
      var pl := players[i];
      assert before + [] == before;
      if pl.inUse && pl.isKeeper {
        var d := DungeonOf(dungeons, pl.idNumber);
        if d.Some? && d.value.totalScore > maxManage {
          maxManage := d.value.manageScore;
        }
      }
    }
    assert players[..|players|] == players;
  }

  /** The first loop of update_dungeon_generation_speeds as evidently
      intended: the maximum of the keepers' management scores. */
  method MaxManageScoreIntended(players: seq<Player>, dungeons: seq<Dungeon>) returns (maxManage: int)
    ensures maxManage == MaxManage(KeeperScores(players, dungeons))
  {
    maxManage := 0;
    for i := 0 to |players|
      invariant maxManage == MaxManage(KeeperScores(players[..i], dungeons))
    {
      assert players[..i + 1][..i] == players[..i];
      assert players[..i + 1][i] == players[i];
      ghost var before := KeeperScores(players[..i], dungeons);
      var pl := players[i];
      assert before + [] == before;
      if pl.inUse && pl.isKeeper {
        var d := DungeonOf(dungeons, pl.idNumber);
        if d.Some? && d.value.manageScore > maxManage {
          maxManage := d.value.manageScore;
        }
      }
    }
    assert players[..|players|] == players;
  }

  /** The update loops of update_dungeon_generation_speeds: every keeper's
      dungeon gets its entrance turns for the maximum `maxManage`. */
  method AssignEntranceTurns(players: seq<Player>, dungeons: seq<Dungeon>, maxManage: int, generateSpeed: int)
    requires Distinct(dungeons)
    modifies dungeons`turnsBetweenEntranceGeneration
    ensures forall q :: 0 <= q < |dungeons| ==>
              dungeons[q].turnsBetweenEntranceGeneration ==
                (if KeeperOwns(players, q)
                 then EntranceTurns(maxManage, generateSpeed, dungeons[q].manageScore)
                 else old(dungeons[q].turnsBetweenEntranceGeneration))
  {
    for i := 0 to |players|
      invariant forall q :: 0 <= q < |dungeons| ==>
                  dungeons[q].turnsBetweenEntranceGeneration ==
                    (if KeeperOwns(players[..i], q)
                     then EntranceTurns(maxManage, generateSpeed, dungeons[q].manageScore)
                     else old(dungeons[q].turnsBetweenEntranceGeneration))
    {
      var pl := players[i];
      forall q {
        KeeperOwnsExtend(players, i, q);
      }
      if pl.inUse && pl.isKeeper {
        var d := DungeonOf(dungeons, pl.idNumber);
        if d.Some? {
          if generateSpeed == -1 {
            d.value.turnsBetweenEntranceGeneration := 0;
          } else if d.value.manageScore > 0 {
            d.value.turnsBetweenEntranceGeneration := CDiv(maxManage * generateSpeed, d.value.manageScore);
          } else {
            d.value.turnsBetweenEntranceGeneration := generateSpeed;
          }
        }
      }
    }
    assert players[..|players|] == players;
  }

  /** update_dungeon_generation_speeds, as written.  Always returns 1. */
  method UpdateGenerationSpeeds(players: seq<Player>, dungeons: seq<Dungeon>, generateSpeed: int) returns (r: int)
    requires Distinct(dungeons)
    modifies dungeons`turnsBetweenEntranceGeneration
    ensures r == 1
    ensures forall q :: 0 <= q < |dungeons| ==>
              dungeons[q].turnsBetweenEntranceGeneration ==
                (if KeeperOwns(players, q)
                 then EntranceTurns(old(MaxManageAsWritten(KeeperScores(players, dungeons))), generateSpeed,
                                    dungeons[q].manageScore)
                 else old(dungeons[q].turnsBetweenEntranceGeneration))
  {
    var maxManage := MaxManageScore(players, dungeons);
    AssignEntranceTurns(players, dungeons, maxManage, generateSpeed);
    return 1;
  }

  /** update_dungeon_generation_speeds as evidently intended, with the
      maximum taken over the management scores.  Always returns 1. */
  method UpdateGenerationSpeedsIntended(players: seq<Player>, dungeons: seq<Dungeon>, generateSpeed: int)
    returns (r: int)
    requires Distinct(dungeons)
    modifies dungeons`turnsBetweenEntranceGeneration
    ensures r == 1
    ensures forall q :: 0 <= q < |dungeons| ==>
              dungeons[q].turnsBetweenEntranceGeneration ==
                (if KeeperOwns(players, q)
                 then EntranceTurns(old(MaxManage(KeeperScores(players, dungeons))), generateSpeed,
                                    dungeons[q].manageScore)
                 else old(dungeons[q].turnsBetweenEntranceGeneration))
  {
    var maxManage := MaxManageScoreIntended(players, dungeons);
    AssignEntranceTurns(players, dungeons, maxManage, generateSpeed);
    return 1;
  }
}
