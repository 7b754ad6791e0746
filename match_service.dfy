/** The match service: finalizing a match (the two roster loops that move
    ratings and write the ledger), reverting it (the loop over the match's
    ledger rows), and binding the champions each rostered player picked. */
module MatchService {
  import opened Wrappers
  import opened Database
  import opened Rating
  import opened Store

  /** One roster loop of finalize: each listed player's rating moves by
      `delta`, and one ledger row per player records it. */
  method CreditRoster(s: Session, ids: seq<int>, mid: int, delta: int)
    requires AllIn(ids, s.players)
    modifies s`players, s`ledger
    ensures s.players == Credit(old(s.players), ids, mid, delta).0
    ensures s.ledger == old(s.ledger) + Credit(old(s.players), ids, mid, delta).1
  {
    ghost var P0, L0 := s.players, s.ledger;
    var i := 0;
    while i < |ids|
      invariant 0 <= i <= |ids|
      invariant s.players == Credit(P0, ids[..i], mid, delta).0
      invariant s.ledger == L0 + Credit(P0, ids[..i], mid, delta).1
    {
      assert ids[..i + 1][..i] == ids[..i];
      var x := ids[i];
      var before := s.players[x].points;
      s.players := s.players[x := s.players[x].(points := before + delta)];
      s.ledger := s.ledger + [NewEloEntry(x, Some(mid), before, before + delta, Some(delta))];
      i := i + 1;
    }
    assert ids[..|ids|] == ids;
  }

  /** Finalize: the K-factor of the mode and the losing chance give the point
      change; every winner gains it, then every loser loses it, each with a
      ledger row; the match is written back as given.  The match's result is
      neither read nor set here. */
  method FinalizeMatch(s: Session, m: Match, result: TeamSide, lossChance: real)
    requires HasBothSides(m.teams) && RostersIn(m.teams, s.players)
    requires 0.0 <= lossChance <= 1.0
    modifies s`players, s`ledger, s`matches
    ensures var f := FinalizeEffect(old(s.players), m, result, PointChange(KFactor(m.mode), lossChance));
      s.players == f.0 && s.ledger == old(s.ledger) + f.1
    ensures s.matches == old(s.matches)[m.id := m]
  {
    var pc := PointChange(KFactor(m.mode), lossChance);
    var win, lose := Winner(m.teams, result), Loser(m.teams, result);
    RosterIdsIn(m.teams, win, s.players);
    RosterIdsIn(m.teams, lose, s.players);
    CreditBothRosters(s, Ids(win.players), Ids(lose.players), m.id, pc);
    s.matches := s.matches[m.id := m];
  }

  /** Both roster loops of finalize: the players of `a` gain `d`, then those
      of `b` lose it. */
  method CreditBothRosters(s: Session, a: seq<int>, b: seq<int>, mid: int, d: int)
    requires AllIn(a, s.players) && AllIn(b, s.players)
    modifies s`players, s`ledger
    ensures s.players == CreditBoth(old(s.players), a, b, mid, d).0
    ensures s.ledger == old(s.ledger) + CreditBoth(old(s.players), a, b, mid, d).1
  {
    CreditRoster(s, a, mid, d);
    CreditRoster(s, b, mid, -d);
  }

  /** Revert: every ledger row of the match that is not yet reverted and
      whose player exists has its change subtracted from the player's
      current rating and is marked reverted; the result is then cleared,
      whatever it was. */
  method RevertMatch(s: Session, m: Match)
    requires Revertible(s.players, s.ledger, m.id)
    modifies s`players, s`ledger, s`matches
    ensures (s.players, s.ledger) == RevertAll(old(s.players), old(s.ledger), m.id)
    ensures s.matches == old(s.matches)[m.id := m.(result := None)]
  {
    ghost var P0, L0 := s.players, s.ledger;
    var i := 0;
    while i < |s.ledger|
      invariant 0 <= i <= |s.ledger| == |L0|
      invariant (s.players, s.ledger[..i]) == RevertAll(P0, L0[..i], m.id)
      invariant s.ledger[i..] == L0[i..]
      invariant s.matches == old(s.matches)
    {
      RevertStep(P0, L0, m.id, i);
      ghost var before := s.ledger;
      assert before[i] == L0[i];
      RevertRow(s, i, m.id);
      LedgerStep(before, s.ledger, i);
      i := i + 1;
    }
    assert L0[..i] == L0;
    assert s.ledger[..i] == s.ledger;
    s.matches := s.matches[m.id := m.(result := None)];
  }

  /** One row of the revert loop: an open row of the match whose player
      exists has its change taken back from the player and is marked
      reverted; any other row is left alone. */
  method RevertRow(s: Session, i: int, mid: int)
    requires 0 <= i < |s.ledger|
    requires Open(s.ledger[i], mid) && s.ledger[i].playerId in s.players ==> s.ledger[i].change.Some?
    modifies s`players, s`ledger
    ensures var e := old(s.ledger)[i];
      if Open(e, mid) && e.playerId in old(s.players) then
        && s.players == old(s.players)[e.playerId := old(s.players)[e.playerId].(points := old(s.players)[e.playerId].points - ChangeOf(e))]
        && s.ledger == old(s.ledger)[i := e.(isReverted := true)]
      else
        s.players == old(s.players) && s.ledger == old(s.ledger)
  {
    var e := s.ledger[i];
    if Open(e, mid) && e.playerId in s.players {
      var p := s.players[e.playerId];
      s.players := s.players[e.playerId := p.(points := p.points - e.change.value)];
      s.ledger := s.ledger[i := e.(isReverted := true)];
    }
  }

  /** The revert of one more row of the ledger. */
  lemma RevertStep(P: Players, E: seq<EloEntry>, mid: int, i: int)
    requires 0 <= i < |E|
    ensures var prev, e := RevertAll(P, E[..i], mid), E[i];
      RevertAll(P, E[..i + 1], mid) ==
        if Open(e, mid) && e.playerId in prev.0 then
          (prev.0[e.playerId := prev.0[e.playerId].(points := prev.0[e.playerId].points - ChangeOf(e))],
           prev.1 + [e.(isReverted := true)])
        else
          (prev.0, prev.1 + [e])
  {
    assert E[..i + 1][..i] == E[..i];
  }

  /** A ledger that changed at most at position `i` splits there. */
  lemma LedgerStep(before: seq<EloEntry>, after: seq<EloEntry>, i: int)
    requires 0 <= i < |before| && |after| == |before|
    requires forall j :: 0 <= j < |before| && j != i ==> after[j] == before[j]
    ensures after[..i + 1] == before[..i] + [after[i]] && after[i + 1..] == before[i + 1..]
  {
  }

  /** A participant of the running game, as the game server reports it. */
  datatype Participant = Participant(puuid: string, championId: string)

  /** The champion of the participant with this puuid; when several share
      it, the last one wins, as in a dictionary built in order. */
  function ChampionOf(participants: seq<Participant>, puuid: string): Option<string>
    decreases |participants|
  {
    if participants == [] then None
    else
      var last := participants[|participants| - 1];
      if last.puuid == puuid then Some(last.championId)
      else ChampionOf(participants[..|participants| - 1], puuid)
  }

  /** ChampionOf finds a champion exactly when some participant has the
      puuid. */
  lemma {:induction false} ChampionOfFinds(participants: seq<Participant>, puuid: string)
    ensures ChampionOf(participants, puuid).Some? <==>
      exists i :: 0 <= i < |participants| && participants[i].puuid == puuid
    decreases |participants|
  {
    if participants != [] {
      var n := |participants| - 1;
      var init := participants[..n];
      ChampionOfFinds(init, puuid);
      assert forall i :: 0 <= i < n ==> init[i] == participants[i];
    }
  }

  /** The champion found is that of the last participant with the puuid. */
  lemma {:induction false} ChampionOfIsLast(participants: seq<Participant>, puuid: string, c: string)
    requires ChampionOf(participants, puuid) == Some(c)
    ensures exists i :: (0 <= i < |participants| && participants[i] == Participant(puuid, c)
                         && forall j :: i < j < |participants| ==> participants[j].puuid != puuid)
    decreases |participants|
  {
    var n := |participants| - 1;
    if participants[n].puuid != puuid {
      var init := participants[..n];
      ChampionOfIsLast(init, puuid, c);
      var i :| 0 <= i < n && init[i] == Participant(puuid, c) && forall j :: i < j < n ==> init[j].puuid != puuid;
      assert participants[i] == init[i];
      assert forall j :: i < j < n ==> participants[j] == init[j];
    } else {
      assert participants[n] == Participant(puuid, c);
    }
  }

  /** The pick row of one rostered player: one when the player has a puuid
      that some participant carries, none otherwise. */
  function PickOf(p: Player, participants: seq<Participant>, mid: int): seq<PlayerMatchChampion>
  {
    if p.puuid.Some? && ChampionOf(participants, p.puuid.value).Some? then
      [PlayerMatchChampion(p.id, mid, ChampionOf(participants, p.puuid.value).value)]
    else []
  }

  /** Pick rows of one roster, in roster order. */
  function RosterPicks(players: seq<Player>, participants: seq<Participant>, mid: int): seq<PlayerMatchChampion>
    decreases |players|
  {
    if players == [] then []
    else RosterPicks(players[..|players| - 1], participants, mid) + PickOf(players[|players| - 1], participants, mid)
  }

  /** Pick rows of all teams, team by team. */
  function MatchPicks(teams: seq<Team>, participants: seq<Participant>, mid: int): seq<PlayerMatchChampion>
    decreases |teams|
  {
    if teams == [] then []
    else MatchPicks(teams[..|teams| - 1], participants, mid) + RosterPicks(teams[|teams| - 1].players, participants, mid)
  }

  /** A rostered player's pick row: it names the match and the champion of
      the last participant with the player's puuid. */
  predicate PickFor(r: PlayerMatchChampion, p: Player, participants: seq<Participant>, mid: int)
  {
    r.matchId == mid && r.playerId == p.id && p.puuid.Some?
    && ChampionOf(participants, p.puuid.value) == Some(r.championId)
  }

  lemma {:induction false} RosterPicksSound(players: seq<Player>, participants: seq<Participant>, mid: int)
    ensures forall r :: r in RosterPicks(players, participants, mid) ==>
      exists p :: p in players && PickFor(r, p, participants, mid)
    decreases |players|
  {
    if players != [] {
      var init := players[..|players| - 1];
      var last := players[|players| - 1];
      RosterPicksSound(init, participants, mid);
      assert RosterPicks(players, participants, mid) == RosterPicks(init, participants, mid) + PickOf(last, participants, mid);
      forall r | r in RosterPicks(players, participants, mid)
        ensures exists p :: p in players && PickFor(r, p, participants, mid)
      {
        if r in RosterPicks(init, participants, mid) {
          var p :| p in init && PickFor(r, p, participants, mid);
          assert p in players;
        } else {
          assert r in PickOf(last, participants, mid);
          assert PickFor(r, last, participants, mid);
        }
      }
    }
  }

  lemma {:induction false} RosterPicksComplete(players: seq<Player>, participants: seq<Participant>, mid: int)
    ensures forall p :: p in players && p.puuid.Some? && ChampionOf(participants, p.puuid.value).Some? ==>
      PlayerMatchChampion(p.id, mid, ChampionOf(participants, p.puuid.value).value) in RosterPicks(players, participants, mid)
    decreases |players|
  {
    if players != [] {
      var init := players[..|players| - 1];
      RosterPicksComplete(init, participants, mid);
      assert forall p :: p in players ==> p in init || p == players[|players| - 1];
    }
  }

  /** Every pick row belongs to the match and to some rostered player whose
      puuid a participant carries, with that participant's champion; so a
      player without such a participant gets no row. */
  lemma {:induction false} MatchPicksSound(teams: seq<Team>, participants: seq<Participant>, mid: int)
    ensures forall r :: r in MatchPicks(teams, participants, mid) ==>
      exists t, p :: t in teams && p in t.players && PickFor(r, p, participants, mid)
    decreases |teams|
  {
    if teams != [] {
      var init := teams[..|teams| - 1];
      var last := teams[|teams| - 1];
      MatchPicksSound(init, participants, mid);
      RosterPicksSound(last.players, participants, mid);
      assert forall t :: t in init ==> t in teams;
    }
  }

  /** Every rostered player whose puuid a participant carries gets the row
      with that participant's champion. */
  lemma {:induction false} MatchPicksComplete(teams: seq<Team>, participants: seq<Participant>, mid: int)
    ensures forall t, p :: t in teams && p in t.players && p.puuid.Some? && ChampionOf(participants, p.puuid.value).Some? ==>
      PlayerMatchChampion(p.id, mid, ChampionOf(participants, p.puuid.value).value) in MatchPicks(teams, participants, mid)
    decreases |teams|
  {
    if teams != [] {
      var init := teams[..|teams| - 1];
      var last := teams[|teams| - 1];
      MatchPicksComplete(init, participants, mid);
      RosterPicksComplete(last.players, participants, mid);
      assert forall t :: t in teams ==> t in init || t == last;
    }
  }

  /** The match record and the pick table after registering the champions of
      a match: nothing when they were already registered; otherwise the pick
      rows appended and the flag set. */
  function Registered(m: Match, mid: int, picks: seq<PlayerMatchChampion>, participants: seq<Participant>)
    : (r: (Match, seq<PlayerMatchChampion>))
    ensures r.0.championsRegistered
    ensures r.0 == m.(championsRegistered := true)
    ensures |picks| <= |r.1| && r.1[..|picks|] == picks
  {
    if m.championsRegistered then (m, picks)
    else (m.(championsRegistered := true), picks + MatchPicks(m.teams, participants, mid))
  }

  /** Registering the same match again, whatever the participants, changes
      nothing. */
  lemma RegisterIsIdempotent(m: Match, mid: int, picks: seq<PlayerMatchChampion>,
                             first: seq<Participant>, second: seq<Participant>)
    ensures var r := Registered(m, mid, picks, first); Registered(r.0, mid, r.1, second) == r
  {
  }

  /** The pick rows added by a registration are exactly the picks of the
      rostered players found among the participants. */
  lemma RegisterAddsMatchedPicks(m: Match, mid: int, picks: seq<PlayerMatchChampion>, participants: seq<Participant>)
    requires !m.championsRegistered
    ensures var added := Registered(m, mid, picks, participants).1[|picks|..];
      && (forall r :: r in added ==> exists t, p :: t in m.teams && p in t.players && PickFor(r, p, participants, mid))
      && (forall t, p :: t in m.teams && p in t.players && p.puuid.Some? && ChampionOf(participants, p.puuid.value).Some? ==>
            PlayerMatchChampion(p.id, mid, ChampionOf(participants, p.puuid.value).value) in added)
  {
    var added := Registered(m, mid, picks, participants).1[|picks|..];
    assert added == MatchPicks(m.teams, participants, mid);
    MatchPicksSound(m.teams, participants, mid);
    MatchPicksComplete(m.teams, participants, mid);
  }

  /** Pick rows of one roster, appended player by player. */
  method AddRosterPicks(s: Session, players: seq<Player>, participants: seq<Participant>, mid: int)
    modifies s`picks
    ensures s.picks == old(s.picks) + RosterPicks(players, participants, mid)
  {
    ghost var K0 := s.picks;
    var i := 0;
    while i < |players|
      invariant 0 <= i <= |players|
      invariant s.picks == K0 + RosterPicks(players[..i], participants, mid)
    {
      assert players[..i + 1][..i] == players[..i];
      var p := players[i];
      if p.puuid.Some? {
        var champion := ChampionOf(participants, p.puuid.value);
        if champion.Some? {
          s.picks := s.picks + [PlayerMatchChampion(p.id, mid, champion.value)];
        }
      }
      i := i + 1;
    }
    assert players[..|players|] == players;
  }

  /** Register champions: a match whose champions are registered is left
      alone; otherwise each rostered player found among the participants gets
      a pick row, team by team, and the match is flagged. */
  method RegisterMatchChampions(s: Session, matchId: int, participants: seq<Participant>)
    requires matchId in s.matches
    modifies s`picks, s`matches
    ensures var r := Registered(old(s.matches)[matchId], matchId, old(s.picks), participants);
      s.matches == old(s.matches)[matchId := r.0] && s.picks == r.1
  {
    var m := s.matches[matchId];
    if m.championsRegistered {
      return;
    }
    ghost var K0 := s.picks;
    var t := 0;
    while t < |m.teams|
      invariant 0 <= t <= |m.teams|
      invariant s.picks == K0 + MatchPicks(m.teams[..t], participants, matchId)
      invariant s.matches == old(s.matches)
    {
      assert m.teams[..t + 1][..t] == m.teams[..t];
      AddRosterPicks(s, m.teams[t].players, participants, matchId);
      t := t + 1;
    }
    assert m.teams[..|m.teams|] == m.teams;
    s.matches := s.matches[matchId := m.(championsRegistered := true)];
  }
}
