/** How the balancer and the rating rules fit together: a match whose teams
    come from a successful generation over distinct players is one finalize
    can score, and scoring it keeps the players' total rating. */
module GeneratedMatch {
  import opened Wrappers
  import opened Database
  import opened Splits
  import opened TeamGenerator
  import opened Rating

  /** From distinct existing players, the generated teams have both sides,
      roster only existing players, and give winners and losers of equal
      number and with no one on both; finalizing such a match, whichever side
      wins, moves each player by the point change and keeps the total. */
  lemma GeneratedTeamsScoreFairly(players: seq<Player>, items: seq<Champion>, choicesNumber: int,
                                  poolIndex: nat, draws: seq<nat>, swap: bool,
                                  m: Match, result: TeamSide, pc: int, P: Players)
    requires OraclesFit(players, items, choicesNumber, poolIndex, draws)
    requires Distinct(Ids(players)) && AllIn(Ids(players), P)
    requires Generate(players, items, choicesNumber, poolIndex, draws, swap).0.Ok?
    requires m.teams == Generate(players, items, choicesNumber, poolIndex, draws, swap).0.value
    ensures HasBothSides(m.teams) && RostersIn(m.teams, P)
    ensures |WinIds(m, result)| == |players| / 2 && |LoseIds(m, result)| == |players| / 2
    ensures Distinct(WinIds(m, result) + LoseIds(m, result))
    ensures var ids := WinIds(m, result) + LoseIds(m, result);
      AllIn(ids, P) && SumPoints(FinalizeEffect(P, m, result, pc).0, ids) == SumPoints(P, ids)
  {
    var teams := m.teams;
    GenerateDrafts(players, items, choicesNumber, poolIndex, draws, swap);
    GenerateSplitsPlayers(players, items, choicesNumber, poolIndex, draws, swap);
    assert TeamOn(teams, Blue) == Some(teams[0]);
    assert TeamOn(teams, Red) == Some(teams[1]);
    forall t, p | t in teams && p in t.players ensures p.id in P {
      assert p.id in IdSet(teams[0].players) + IdSet(teams[1].players);
      var i :| 0 <= i < |players| && players[i].id == p.id;
      assert Ids(players)[i] == p.id;
    }
    if result == Red {
      IdsSwap(teams[0].players, teams[1].players);
    }
    FinalizeKeepsTotal(P, m, result, pc);
  }
}
