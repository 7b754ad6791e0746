/** The season reset of the configuration service: every ranked player is put
    back to the default rating, with a ledger row and a season-final rating
    each, and then a new season is opened. */
module ConfigService {
  import opened Wrappers
  import opened Database
  import opened Rating
  import opened Store

  /** The id of the current season, the one created last; none without seasons. */
  function CurrentSeasonId(seasons: seq<Season>): Option<int>
  {
    if seasons == [] then None else Some(seasons[|seasons| - 1].id)
  }

  /** Player `x` is on a roster of match `m`, which has a result and belongs
      to the season `sid`. */
  predicate PlayedFinished(m: Match, x: int, sid: Option<int>)
  {
    sid.Some? && m.seasonId == sid && m.result.Some? && x in RosterIds(m.teams)
  }

  /** What the ranked query returns, up to its order: every existing player
      who played a finished match of the current season, each once. */
  ghost predicate RankedQuery(P: Players, M: map<int, Match>, seasons: seq<Season>, ranked: seq<int>)
  {
    && Distinct(ranked)
    && (forall x :: x in ranked <==>
          x in P && exists mid :: mid in M && PlayedFinished(M[mid], x, CurrentSeasonId(seasons)))
  }

  /** With no season the ranked query finds no one (its season subquery is
      empty), so the reset never needs a season id. */
  lemma RankedNeedsSeason(P: Players, M: map<int, Match>, seasons: seq<Season>, ranked: seq<int>)
    requires RankedQuery(P, M, seasons, ranked)
    ensures AllIn(ranked, P)
    ensures ranked != [] ==> CurrentSeasonId(seasons).Some?
  {
    if ranked != [] {
      assert ranked[0] in ranked;
    }
  }

  /** The reset loop over the ranked players, in order: each is set to the
      default rating, with a ledger row outside any match and a final rating
      for season `sid`, both recording the rating before. */
  function ResetAll(P: Players, ranked: seq<int>, sid: Option<int>)
    : (r: (Players, seq<EloEntry>, seq<PlayerSeasonFinalElo>))
    requires AllIn(ranked, P) && (ranked != [] ==> sid.Some?)
    ensures r.0.Keys == P.Keys && |r.1| == |ranked| && |r.2| == |ranked|
    decreases |ranked|
  {
    if ranked == [] then (P, [], [])
    else
      var prev := ResetAll(P, ranked[..|ranked| - 1], sid);
      var x := ranked[|ranked| - 1];
      var before := prev.0[x].points;
      (prev.0[x := prev.0[x].(points := DefaultPoints)],
       prev.1 + [NewEloEntry(x, None, before, DefaultPoints, Some(DefaultPoints - before))],
       prev.2 + [PlayerSeasonFinalElo(x, sid.value, before)])
  }

  /** After the reset every ranked player is at the default rating, with
      nothing else about them changed, and every other player is untouched. */
  lemma {:induction false} ResetPointsAt(P: Players, ranked: seq<int>, sid: Option<int>, x: int)
    requires AllIn(ranked, P) && (ranked != [] ==> sid.Some?) && x in P
    ensures ResetAll(P, ranked, sid).0[x] == if x in ranked then P[x].(points := DefaultPoints) else P[x]
    decreases |ranked|
  {
    if ranked != [] {
      var init := ranked[..|ranked| - 1];
      ResetPointsAt(P, init, sid, x);
      assert ranked == init + [ranked[|ranked| - 1]];
    }
  }

  /** With each ranked player once, the k-th ledger row and the k-th final
      rating are those of the k-th ranked player: outside any match, not
      reverted, from the old rating to the default one with the difference as
      change, and the old rating kept as the final one of season `sid`. */
  lemma {:induction false} ResetRowsAt(P: Players, ranked: seq<int>, sid: Option<int>, k: int)
    requires AllIn(ranked, P) && (ranked != [] ==> sid.Some?) && Distinct(ranked) && 0 <= k < |ranked|
    ensures var r, x := ResetAll(P, ranked, sid), ranked[k];
      && r.1[k] == EloEntry(x, None, false, P[x].points, DefaultPoints, Some(DefaultPoints - P[x].points))
      && r.2[k] == PlayerSeasonFinalElo(x, sid.value, P[x].points)
    decreases |ranked|
  {
    var n := |ranked| - 1;
    var init := ranked[..n];
    assert Distinct(init) by {
      forall i, j | 0 <= i < j < |init| ensures init[i] != init[j] {
        assert init[i] == ranked[i] && init[j] == ranked[j];
      }
    }
    if k < n {
      ResetRowsAt(P, init, sid, k);
    } else {
      assert ranked[n] !in init;
      ResetPointsAt(P, init, sid, ranked[n]);
    }
  }

  /** The reset's ledger rows belong to no match, so no later revert of a
      match picks them up. */
  lemma ResetRowsOutsideMatches(P: Players, L: seq<EloEntry>, ranked: seq<int>, sid: Option<int>, mid: int, x: int)
    requires AllIn(ranked, P) && (ranked != [] ==> sid.Some?)
    ensures OpenChange(L + ResetAll(P, ranked, sid).1, mid, x) == OpenChange(L, mid, x)
  {
    var E := ResetAll(P, ranked, sid).1;
    ResetRowsHaveNoMatch(P, ranked, sid);
    forall i | 0 <= i < |E| ensures !Open(E[i], mid) {
      assert E[i] in E;
    }
    OpenChangeAppend(L, E, mid, x);
    OpenChangeNone(E, mid, x);
  }

  lemma {:induction false} ResetRowsHaveNoMatch(P: Players, ranked: seq<int>, sid: Option<int>)
    requires AllIn(ranked, P) && (ranked != [] ==> sid.Some?)
    ensures forall e :: e in ResetAll(P, ranked, sid).1 ==> e.matchId == None
    decreases |ranked|
  {
    if ranked != [] {
      var init := ranked[..|ranked| - 1];
      ResetRowsHaveNoMatch(P, init, sid);
      var E, E0 := ResetAll(P, ranked, sid).1, ResetAll(P, init, sid).1;
      assert E == E0 + [E[|E| - 1]];
    }
  }

  /** The season table after a new season is created: the current season, if
      any, is ended, and the new one is appended, open. */
  function NextSeasons(seasons: seq<Season>, newId: int): (r: seq<Season>)
    ensures |r| == |seasons| + 1 && r[|seasons|] == Season(newId, false)
  {
    if seasons == [] then [Season(newId, false)]
    else seasons[..|seasons| - 1] + [seasons[|seasons| - 1].(ended := true)] + [Season(newId, false)]
  }

  /** Exactly one season is added and it becomes the current one; the old
      current season is the only other one that changes, and only by being
      ended; with a fresh id the new season is the only one with that id. */
  lemma NextSeasonsOpensOne(seasons: seq<Season>, newId: int)
    requires forall i :: 0 <= i < |seasons| ==> seasons[i].id != newId
    ensures var r := NextSeasons(seasons, newId);
      && CurrentSeasonId(r) == Some(newId) && !r[|seasons|].ended
      && (forall i :: 0 <= i < |seasons| - 1 ==> r[i] == seasons[i])
      && (seasons != [] ==> r[|seasons| - 1] == seasons[|seasons| - 1].(ended := true))
      && (forall i :: 0 <= i < |r| && r[i].id == newId ==> i == |seasons|)
  {
    var r := NextSeasons(seasons, newId);
    forall i | 0 <= i < |seasons| ensures r[i].id == seasons[i].id {
    }
  }

  /** Creating a season: the current one, if any, gets an end, and the new
      one is added. */
  method CreateSeason(s: Session, newId: int)
    modifies s`seasons
    ensures s.seasons == NextSeasons(old(s.seasons), newId)
  {
    if s.seasons != [] {
      var n := |s.seasons| - 1;
      s.seasons := s.seasons[n := s.seasons[n].(ended := true)];
    }
    s.seasons := s.seasons + [Season(newId, false)];
  }

  /** The season reset: every ranked player, in the query's order, is put at
      the default rating, with a ledger row and a final rating of the current
      season; then a new season is created, with an id no season has yet (the
      database assigns it), which becomes the current one. */
  method ResetElo(s: Session, ranked: seq<int>, newSeasonId: int)
    requires RankedQuery(s.players, s.matches, s.seasons, ranked)
    requires forall i :: 0 <= i < |s.seasons| ==> s.seasons[i].id != newSeasonId
    modifies s`players, s`ledger, s`finalElos, s`seasons
    ensures AllIn(ranked, old(s.players)) && (ranked != [] ==> CurrentSeasonId(old(s.seasons)).Some?)
    ensures var r := ResetAll(old(s.players), ranked, CurrentSeasonId(old(s.seasons)));
      s.players == r.0 && s.ledger == old(s.ledger) + r.1 && s.finalElos == old(s.finalElos) + r.2
    ensures s.seasons == NextSeasons(old(s.seasons), newSeasonId)
    ensures CurrentSeasonId(s.seasons) == Some(newSeasonId)
    ensures forall i :: 0 <= i < |s.seasons| && s.seasons[i].id == newSeasonId ==> i == |old(s.seasons)|
  {
    RankedNeedsSeason(s.players, s.matches, s.seasons, ranked);
    NextSeasonsOpensOne(s.seasons, newSeasonId);
    ResetRanked(s, ranked, CurrentSeasonId(s.seasons));
    CreateSeason(s, newSeasonId);
  }

  /** The reset loop: each ranked player in turn gets the default rating, a
      ledger row and a final rating of season `season`. */
  method ResetRanked(s: Session, ranked: seq<int>, season: Option<int>)
    requires AllIn(ranked, s.players) && (ranked != [] ==> season.Some?)
    modifies s`players, s`ledger, s`finalElos
    ensures var r := ResetAll(old(s.players), ranked, season);
      s.players == r.0 && s.ledger == old(s.ledger) + r.1 && s.finalElos == old(s.finalElos) + r.2
  {
    ghost var P0, L0, F0 := s.players, s.ledger, s.finalElos;
    var i := 0;
    while i < |ranked|
      invariant 0 <= i <= |ranked|
      invariant AllIn(ranked[..i], P0)
      invariant s.players == ResetAll(P0, ranked[..i], season).0
      invariant s.ledger == L0 + ResetAll(P0, ranked[..i], season).1
      invariant s.finalElos == F0 + ResetAll(P0, ranked[..i], season).2
    {
      ResetStep(P0, ranked, season, i);
      ResetOne(s, ranked[i], season.value);
      i := i + 1;
    }
    assert ranked[..|ranked|] == ranked;
  }

  /** One ranked player's reset: the default rating, a ledger row outside any
      match and the old rating kept as the final one of season `sid`. */
  method ResetOne(s: Session, x: int, sid: int)
    requires x in s.players
    modifies s`players, s`ledger, s`finalElos
    ensures var before := old(s.players)[x].points;
      && s.players == old(s.players)[x := old(s.players)[x].(points := DefaultPoints)]
      && s.ledger == old(s.ledger) + [NewEloEntry(x, None, before, DefaultPoints, Some(DefaultPoints - before))]
      && s.finalElos == old(s.finalElos) + [PlayerSeasonFinalElo(x, sid, before)]
  {
    var before := s.players[x].points;
    s.players := s.players[x := s.players[x].(points := DefaultPoints)];
    s.ledger := s.ledger + [NewEloEntry(x, None, before, DefaultPoints, Some(DefaultPoints - before))];
    s.finalElos := s.finalElos + [PlayerSeasonFinalElo(x, sid, before)];
  }

  /** One more ranked player: the reset of the longer prefix is the reset of
      the shorter one followed by that player's reset. */
  lemma ResetStep(P: Players, ranked: seq<int>, sid: Option<int>, i: int)
    requires AllIn(ranked, P) && (ranked != [] ==> sid.Some?) && 0 <= i < |ranked|
    ensures AllIn(ranked[..i], P) && AllIn(ranked[..i + 1], P)
    ensures var prev, x := ResetAll(P, ranked[..i], sid), ranked[i];
      var before := prev.0[x].points;
      ResetAll(P, ranked[..i + 1], sid) ==
        (prev.0[x := prev.0[x].(points := DefaultPoints)],
         prev.1 + [NewEloEntry(x, None, before, DefaultPoints, Some(DefaultPoints - before))],
         prev.2 + [PlayerSeasonFinalElo(x, sid.value, before)])
  {
    assert ranked[..i + 1][..i] == ranked[..i];
  }
}
