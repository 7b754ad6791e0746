/** The two ways a result reaches the match service, and the revert command:
    the result buttons refuse a decided match, record the result and
    finalize; the finalize command refuses a decided match and finalizes
    without recording the result; the revert command refuses an undecided
    match and reverts.  The permission checks and messages are left out. */
module MatchCommands {
  import opened Wrappers
  import opened Database
  import opened Rating
  import opened Store
  import MatchService

  /** The tables the commands touch. */
  datatype Tables = Tables(players: Players, matches: map<int, Match>, ledger: seq<EloEntry>)

  /** Every stored match is keyed by its id, has a mode of 1 to 5 and a
      team on each side, and its rosters name existing players. */
  predicate Playable(t: Tables)
  {
    forall mid :: mid in t.matches ==>
      && t.matches[mid].id == mid && ValidMode(t.matches[mid].mode)
      && HasBothSides(t.matches[mid].teams) && RostersIn(t.matches[mid].teams, t.players)
  }

  lemma RostersStayIn(teams: seq<Team>, P: Players, Q: Players)
    requires RostersIn(teams, P) && P.Keys == Q.Keys
    ensures RostersIn(teams, Q)
  {
    forall t, p | t in teams && p in t.players ensures p.id in Q {
      assert p.id in P;
    }
  }

  /** The point change finalize applies to match `m`. */
  function ChangeFor(m: Match, lossChance: real): int
    requires 0.0 <= lossChance <= 1.0
  {
    PointChange(KFactor(m.mode), lossChance)
  }

  /** Finalizing the stored match `m` as given, written back as given. */
  function Finalized(t: Tables, m: Match, result: TeamSide, lossChance: real): (r: Tables)
    requires Playable(t) && m.id in t.matches && m.teams == t.matches[m.id].teams && m.mode == t.matches[m.id].mode
    requires 0.0 <= lossChance <= 1.0
    ensures Playable(r) && r.players.Keys == t.players.Keys && r.matches == t.matches[m.id := m]
  {
    var f := FinalizeEffect(t.players, m, result, ChangeFor(m, lossChance));
    var r := Tables(f.0, t.matches[m.id := m], t.ledger + f.1);
    forall mid | mid in r.matches
      ensures && r.matches[mid].id == mid && ValidMode(r.matches[mid].mode)
              && HasBothSides(r.matches[mid].teams) && RostersIn(r.matches[mid].teams, r.players)
    {
      RostersStayIn(t.matches[mid].teams, t.players, r.players);
    }
    r
  }

  /** The finalize command as written: a missing or decided match is
      refused; otherwise the match is finalized and its result stays
      unset. */
  function CommandFinalize(t: Tables, mid: int, result: TeamSide, lossChance: real): (r: Tables)
    requires Playable(t) && 0.0 <= lossChance <= 1.0
    ensures Playable(r) && r.matches == t.matches
  {
    if mid !in t.matches || t.matches[mid].result.Some? then t
    else Finalized(t, t.matches[mid], result, lossChance)
  }

  /** The result buttons, and the finalize command as intended: a missing or
      decided match is refused; otherwise the result is recorded and the
      match finalized. */
  function RecordedFinalize(t: Tables, mid: int, result: TeamSide, lossChance: real): (r: Tables)
    requires Playable(t) && 0.0 <= lossChance <= 1.0
    ensures Playable(r) && r.matches.Keys == t.matches.Keys
    ensures mid in t.matches ==> r.matches[mid].result.Some?
  {
    if mid !in t.matches || t.matches[mid].result.Some? then t
    else Finalized(t, t.matches[mid].(result := Some(result)), result, lossChance)
  }

  /** The revert command: a missing or undecided match is refused; otherwise
      the match is reverted and its result cleared. */
  function CommandRevert(t: Tables, mid: int): (r: Tables)
    requires mid in t.matches && t.matches[mid].result.Some? ==> Revertible(t.players, t.ledger, mid)
    ensures r.players.Keys == t.players.Keys && r.matches.Keys == t.matches.Keys
  {
    if mid !in t.matches || t.matches[mid].result.None? then t
    else
      var back := RevertAll(t.players, t.ledger, mid);
      Tables(back.0, t.matches[mid := t.matches[mid].(result := None)], back.1)
  }

  /** Recording the result makes the result buttons one-shot: a second
      press, with any result and any losing chance, changes nothing. */
  lemma RecordedFinalizeOnce(t: Tables, mid: int, r1: TeamSide, q1: real, r2: TeamSide, q2: real)
    requires Playable(t) && 0.0 <= q1 <= 1.0 && 0.0 <= q2 <= 1.0
    ensures var once := RecordedFinalize(t, mid, r1, q1); RecordedFinalize(once, mid, r2, q2) == once
  {
  }

  /** Two players at 1500, one on each side of match 7, a mode 5 match with
      no result yet. */
  function TwoPlayerTables(): (t: Tables)
    ensures Playable(t)
  {
    var a, b := Player(1, None, "a", None, 1500), Player(2, None, "b", None, 1500);
    var teams := [Team(Blue, [], [a], 1500.0), Team(Red, [], [b], 1500.0)];
    var m := NewMatch(7, 5, None, teams);
    assert TeamOn(teams, Blue).Some? && TeamOn(teams, Red).Some?;
    assert forall t, p :: t in teams && p in t.players ==> p == a || p == b;
    Tables(map[1 := a, 2 := b], map[7 := m], [])
  }

  /** The finalize command leaves the result unset, so it finalizes the same
      match again on every call: two calls on an even two-player match of
      mode 5 move each player by 20 points instead of 10 and write four
      ledger rows. */
  lemma CommandFinalizeRepeats()
    ensures var twice := CommandFinalize(CommandFinalize(TwoPlayerTables(), 7, Blue, 0.5), 7, Blue, 0.5);
      twice.players[1].points == 1520 && twice.players[2].points == 1480 && |twice.ledger| == 4
  {
    var t := TwoPlayerTables();
    var m := t.matches[7];
    PointChangeEvenMatchMode5();
    assert ChangeFor(m, 0.5) == 10;
    assert WinIds(m, Blue) == [1] && LoseIds(m, Blue) == [2];
    var once := CommandFinalize(t, 7, Blue, 0.5);
    FinalizeMovesPoints(t.players, m, Blue, 10);
    assert once.players[1].points == 1510 && once.players[2].points == 1490;
    FinalizeMovesPoints(once.players, m, Blue, 10);
  }

  /** The same two presses of a result button score the match once: 10
      points each way and two ledger rows. */
  lemma RecordedFinalizeScoresOnce()
    ensures var twice := RecordedFinalize(RecordedFinalize(TwoPlayerTables(), 7, Blue, 0.5), 7, Blue, 0.5);
      twice.players[1].points == 1510 && twice.players[2].points == 1490 && |twice.ledger| == 2
  {
    var t := TwoPlayerTables();
    var m2 := t.matches[7].(result := Some(Blue));
    PointChangeEvenMatchMode5();
    assert ChangeFor(m2, 0.5) == 10;
    assert WinIds(m2, Blue) == [1] && LoseIds(m2, Blue) == [2];
    FinalizeMovesPoints(t.players, m2, Blue, 10);
  }

  /** A match finalized by the command keeps an unset result, so the revert
      command refuses it afterwards. */
  lemma CommandFinalizeBlocksRevert(t: Tables, mid: int, result: TeamSide, lossChance: real)
    requires Playable(t) && 0.0 <= lossChance <= 1.0
    requires mid in t.matches && t.matches[mid].result.None?
    ensures var f := CommandFinalize(t, mid, result, lossChance);
      f.matches[mid].result.None? && CommandRevert(f, mid) == f
  {
  }

  /** Pressing a result button and then reverting, with no open ledger rows
      of the match before, gives every player back the rating they had and
      leaves the match undecided again. */
  lemma RecordedFinalizeThenRevert(t: Tables, mid: int, result: TeamSide, lossChance: real)
    requires Playable(t) && 0.0 <= lossChance <= 1.0
    requires mid in t.matches && t.matches[mid].result.None?
    requires forall i :: 0 <= i < |t.ledger| ==> !Open(t.ledger[i], mid)
    ensures var f := RecordedFinalize(t, mid, result, lossChance);
      && Revertible(f.players, f.ledger, mid)
      && CommandRevert(f, mid).players == t.players
      && CommandRevert(f, mid).matches == t.matches
  {
    var m2 := t.matches[mid].(result := Some(result));
    var pc := ChangeFor(m2, lossChance);
    var e := FinalizeEffect(t.players, m2, result, pc);
    var f := RecordedFinalize(t, mid, result, lossChance);
    assert f == Tables(e.0, t.matches[mid := m2], t.ledger + e.1);
    FinalizeLeavesRevertible(t.players, t.ledger, m2, result, pc);
    FinalizeThenRevertRestores(t.players, t.ledger, m2, result, pc);
    assert t.matches[mid := m2][mid := m2.(result := None)] == t.matches;
  }

  /** The result buttons: the match is loaded, refused when missing or
      decided, given the result, and finalized. */
  method ResultButton(s: Session, mid: int, result: TeamSide, lossChance: real)
    requires Playable(Tables(s.players, s.matches, s.ledger)) && 0.0 <= lossChance <= 1.0
    modifies s`players, s`ledger, s`matches
    ensures Tables(s.players, s.matches, s.ledger) ==
      RecordedFinalize(Tables(old(s.players), old(s.matches), old(s.ledger)), mid, result, lossChance)
  {
    if mid !in s.matches || s.matches[mid].result.Some? {
      return;
    }
    var m := s.matches[mid].(result := Some(result));
    MatchService.FinalizeMatch(s, m, result, lossChance);
  }

  /** The finalize command as written: the match is loaded, refused when
      missing or decided, and finalized; its result is never set. */
  method FinalizeCommand(s: Session, mid: int, result: TeamSide, lossChance: real)
    requires Playable(Tables(s.players, s.matches, s.ledger)) && 0.0 <= lossChance <= 1.0
    modifies s`players, s`ledger, s`matches
    ensures Tables(s.players, s.matches, s.ledger) ==
      CommandFinalize(Tables(old(s.players), old(s.matches), old(s.ledger)), mid, result, lossChance)
  {
    if mid !in s.matches || s.matches[mid].result.Some? {
      return;
    }
    var m := s.matches[mid];
    MatchService.FinalizeMatch(s, m, result, lossChance);
  }

  /** The revert command: the match is loaded, refused when missing or
      undecided, and reverted. */
  method RevertCommand(s: Session, mid: int)
    requires Playable(Tables(s.players, s.matches, s.ledger))
    requires mid in s.matches && s.matches[mid].result.Some? ==> Revertible(s.players, s.ledger, mid)
    modifies s`players, s`ledger, s`matches
    ensures Tables(s.players, s.matches, s.ledger) ==
      CommandRevert(Tables(old(s.players), old(s.matches), old(s.ledger)), mid)
  {
    if mid !in s.matches || s.matches[mid].result.None? {
      return;
    }
    var m := s.matches[mid];
    MatchService.RevertMatch(s, m);
  }
}
