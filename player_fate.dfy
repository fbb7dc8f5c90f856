/** Win and loss bookkeeping of a player: the victory-state queries, the
    one-way transitions out of the undecided state, and the final score
    recorded when the player's fate is decided. */
module PlayerFate {
  import opened Common
  import opened World

  /** player_has_won: an index outside the player table never has won. */
  function PlayerHasWon(players: seq<Player>, plyrIdx: int): (r: bool)
    reads players
    ensures r <==> 0 <= plyrIdx < |players| && players[plyrIdx].victoryState == WonLevel
  {
    if !(0 <= plyrIdx < |players|) then false
    else players[plyrIdx].victoryState == WonLevel
  }

  /** player_has_lost: an index outside the player table never has lost. */
  function PlayerHasLost(players: seq<Player>, plyrIdx: int): (r: bool)
    reads players
    ensures r <==> 0 <= plyrIdx < |players| && players[plyrIdx].victoryState == LostLevel
  {
    if !(0 <= plyrIdx < |players|) then false
    else players[plyrIdx].victoryState == LostLevel
  }

  /** No player has both won and lost. */
  lemma WonAndLostExclusive(players: seq<Player>, plyrIdx: int)
    ensures !(PlayerHasWon(players, plyrIdx) && PlayerHasLost(players, plyrIdx))
  {
  }

  /** compute_player_final_score.  `spLevelIndex` is the index of the
      loaded level among the single-player levels, None when it is not a
      single-player level.  Network or non-campaign play doubles the
      gameplay score; a campaign level adds 10% of it per level index; a
      player who lost gets half, rounded toward zero. */
  function FinalScore(gameplayScore: int, networkActive: bool, spLevelIndex: Option<int>, lost: bool): (r: int)
    // outside the campaign a won level scores double and a lost one the gameplay score itself
    ensures networkActive || spLevelIndex.None? ==> r == (if lost then gameplayScore else 2 * gameplayScore)
  {
    var i := if networkActive || spLevelIndex.None? then 2 * gameplayScore
             else gameplayScore + CDiv(10 * gameplayScore * spLevelIndex.value, 100);
    if lost then CDiv(i, 2) else i
  }

  /** A lost level scores half of what the same level would score if won. */
  lemma LostScoresHalf(score: int, networkActive: bool, spLevelIndex: Option<int>)
    ensures FinalScore(score, networkActive, spLevelIndex, true)
         == CDiv(FinalScore(score, networkActive, spLevelIndex, false), 2)
  {
  }

  /** A won level never scores below its gameplay score when that score is
      not negative; outside the campaign it scores exactly twice that. */
  lemma WonScoreAtLeastGameplay(score: int, networkActive: bool, spLevelIndex: Option<int>)
    requires score >= 0
    requires spLevelIndex.Some? ==> spLevelIndex.value >= 0
    ensures FinalScore(score, networkActive, spLevelIndex, false) >= score
    ensures networkActive || spLevelIndex.None? ==> FinalScore(score, networkActive, spLevelIndex, false) == 2 * score
  {
    if !networkActive && spLevelIndex.Some? {
      MulLe(0, score, spLevelIndex.value);
      assert 10 * score * spLevelIndex.value >= 0 by {
        assert 10 * score * spLevelIndex.value == 10 * (score * spLevelIndex.value);
      }
      DivNonNegative(10 * score * spLevelIndex.value, 100);
    }
  }

  /** A higher gameplay score never gives a lower final score (for a
      campaign level with a non-negative index). */
  lemma FinalScoreMonotone(a: int, b: int, networkActive: bool, spLevelIndex: Option<int>, lost: bool)
    requires a <= b
    requires spLevelIndex.Some? ==> spLevelIndex.value >= 0
    ensures FinalScore(a, networkActive, spLevelIndex, lost) <= FinalScore(b, networkActive, spLevelIndex, lost)
  {
    var ia, ib := 2 * a, 2 * b;
    if !networkActive && spLevelIndex.Some? {
      var k := spLevelIndex.value;
      MulLe(a, b, 10 * k);
      assert 10 * a * k == a * (10 * k) && 10 * b * k == b * (10 * k);
      CDivMonotone(10 * a * k, 10 * b * k, 100);
      ia, ib := a + CDiv(10 * a * k, 100), b + CDiv(10 * b * k, 100);
    }
    if lost {
      CDivMonotone(ia, ib, 2);
    }
  }

  /** set_player_as_won_level: the player state touched when the level is
      won.  The score goes to the player's own dungeon record, and nowhere
      when the player's number has no record. */
  method SetPlayerAsWonLevel(player: Player, dungeons: seq<Dungeon>, networkActive: bool,
                             spLevelIndex: Option<int>, playGameturn: int)
    modifies player`victoryState, player`levelEndTurn, dungeons`playerScore, dungeons`allowSaveScore
    // a decided fate is never changed
    ensures old(player.victoryState) != Undecided ==>
              player.victoryState == old(player.victoryState) && player.levelEndTurn == old(player.levelEndTurn)
    ensures old(player.victoryState) == Undecided ==>
              && player.victoryState == WonLevel
              && player.levelEndTurn == (if networkActive then old(player.levelEndTurn) else playGameturn + 300)
    ensures old(player.victoryState) == Undecided && 0 <= player.idNumber < |dungeons| ==>
              var d := dungeons[player.idNumber];
              d.playerScore == FinalScore(d.maxGameplayScore, networkActive, spLevelIndex, false) &&
              d.allowSaveScore == 1
    // no other dungeon record is written
    ensures forall i :: 0 <= i < |dungeons| &&
                        !(old(player.victoryState) == Undecided && 0 <= player.idNumber < |dungeons| &&
                          dungeons[i] == dungeons[player.idNumber]) ==>
              dungeons[i].playerScore == old(dungeons[i].playerScore) &&
              dungeons[i].allowSaveScore == old(dungeons[i].allowSaveScore)
  {
    if player.victoryState != Undecided {
      return;
    }
    player.victoryState := WonLevel;
    var dungeon := DungeonOf(dungeons, player.idNumber);
    if dungeon.Some? {
      var d := dungeon.value;
      d.playerScore := FinalScore(d.maxGameplayScore, networkActive, spLevelIndex,
                                  player.victoryState == LostLevel);
      d.allowSaveScore := 1;
    }
    if !networkActive {
      player.levelEndTurn := playGameturn + 300;
    }
  }

  /** set_player_as_lost_level, for the state this model keeps: the
      losing score goes to the player's own dungeon record. */
  method SetPlayerAsLostLevel(player: Player, dungeons: seq<Dungeon>, networkActive: bool,
                              spLevelIndex: Option<int>, playGameturn: int)
    modifies player`victoryState, player`levelEndTurn, dungeons`playerScore
    // a decided fate is never changed
    ensures old(player.victoryState) != Undecided ==>
              player.victoryState == old(player.victoryState) && player.levelEndTurn == old(player.levelEndTurn)
    ensures old(player.victoryState) == Undecided ==>
              && player.victoryState == LostLevel
              && player.levelEndTurn == (if networkActive then old(player.levelEndTurn) else playGameturn + 300)
    ensures old(player.victoryState) == Undecided && 0 <= player.idNumber < |dungeons| ==>
              var d := dungeons[player.idNumber];
              d.playerScore == FinalScore(d.maxGameplayScore, networkActive, spLevelIndex, true)
    // no other dungeon record is written
    ensures forall i :: 0 <= i < |dungeons| &&
                        !(old(player.victoryState) == Undecided && 0 <= player.idNumber < |dungeons| &&
                          dungeons[i] == dungeons[player.idNumber]) ==>
              dungeons[i].playerScore == old(dungeons[i].playerScore)
  {
    if player.victoryState != Undecided {
      return;
    }
    player.victoryState := LostLevel;
    var dungeon := DungeonOf(dungeons, player.idNumber);
    if dungeon.Some? {
      var d := dungeon.value;
      d.playerScore := FinalScore(d.maxGameplayScore, networkActive, spLevelIndex,
                                  player.victoryState == LostLevel);
    }
    if !networkActive {
      player.levelEndTurn := playGameturn + 300;
    }
  }
}
