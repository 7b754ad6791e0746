/** The active-player pool: the set of players the next team draw uses. */
module ConfigRepo {
  import opened Wrappers
  import opened Database
  import opened Store

  /** The pool as the join of the player and active-player tables. */
  function GetPoolPlayers(s: Session): (r: set<Player>)
    reads s
    ensures s.Valid() ==> forall p :: p in r <==> p.id in s.pool && s.players[p.id] == p
    ensures s.Valid() ==> forall id :: id in s.pool <==> exists p :: p in r && p.id == id
    ensures s.Valid() ==> forall a, b :: a in r && b in r && a.id == b.id ==> a == b
  {
    set id | id in s.pool && id in s.players :: s.players[id]
  }

  /** The active-player rows `add_to_pool` builds: one per given player that is
      not equal (by id) to a member of the current pool, in the given order. */
  function NewPoolIds(players: seq<Player>, current: set<Player>): (r: seq<int>)
    ensures forall x :: x in r <==>
      (exists p :: p in players && p.id == x) && forall q :: q in current ==> q.id != x
  {
    if players == [] then []
    else
      (if exists q :: q in current && SamePlayer(q, players[0]) then [] else [players[0].id])
      + NewPoolIds(players[1..], current)
  }

  /** The pool after `add_to_pool`: the new rows are inserted in one commit,
      which the primary key rejects when a player id occurs twice among them. */
  function AddedPool(pool: set<int>, newIds: seq<int>): (r: Option<set<int>>)
    ensures r.Some? <==> Distinct(newIds)
    ensures r.Some? ==> r.value == pool + set x | x in newIds
  {
    if Distinct(newIds) then Some(pool + set x | x in newIds) else None
  }

  method AddToPool(s: Session, players: seq<Player>) returns (ok: bool)
    requires s.Valid()
    requires forall p :: p in players ==> p.id in s.players
    modifies s`pool
    ensures s.Valid()
    ensures var added := AddedPool(old(s.pool), NewPoolIds(players, old(GetPoolPlayers(s))));
            ok == added.Some? && s.pool == (if ok then added.value else old(s.pool))
  {
    var actual := GetPoolPlayers(s);
    var newIds := NewPoolIds(players, actual);
    var added := AddedPool(s.pool, newIds);
    ok := added.Some?;
    if ok {
      s.pool := added.value;
    }
  }

  /** Membership by id in the current pool is membership of the id in the pool table. */
  lemma {:induction false} NewPoolIdsAreOutsidePool(s: Session, players: seq<Player>)
    requires s.Valid()
    requires forall p :: p in players ==> p.id in s.players
    ensures forall x :: x in NewPoolIds(players, GetPoolPlayers(s)) <==>
      x !in s.pool && exists p :: p in players && p.id == x
  {
    var cur := GetPoolPlayers(s);
    forall x
      ensures x in NewPoolIds(players, cur) <==> x !in s.pool && exists p :: p in players && p.id == x
    {
      if x in s.pool {
        var q := s.players[x];
        assert q in cur;
      }
    }
  }

  /** Whether a given player is already in the pool is decided by id, so a
      copy of the players with other ratings (a stale roster, say) adds the
      same rows. */
  lemma {:induction false} NewPoolIdsIgnoreRating(ps: seq<Player>, qs: seq<Player>, current: set<Player>)
    requires RatingsOnlyDiffer(ps, qs)
    ensures NewPoolIds(ps, current) == NewPoolIds(qs, current)
    decreases |ps|
  {
    if ps != [] {
      assert RatingsOnlyDiffer(ps[1..], qs[1..]) by {
        forall i | 0 <= i < |ps| - 1 ensures qs[1..][i] == ps[1..][i].(points := qs[1..][i].points) {
          assert qs[1..][i] == qs[i + 1] && ps[1..][i] == ps[i + 1];
        }
      }
      NewPoolIdsIgnoreRating(ps[1..], qs[1..], current);
      assert ps[0].id == qs[0].id;
    }
  }

  /** After a successful add every given player is in the pool and every
      previous member is still there; adding players already present changes nothing. */
  lemma AddToPoolKeepsAndAdds(s: Session, players: seq<Player>)
    requires s.Valid()
    requires forall p :: p in players ==> p.id in s.players
    ensures var added := AddedPool(s.pool, NewPoolIds(players, GetPoolPlayers(s)));
            added.Some? ==> s.pool <= added.value && forall p :: p in players ==> p.id in added.value
    ensures (forall p :: p in players ==> p.id in s.pool) ==>
            AddedPool(s.pool, NewPoolIds(players, GetPoolPlayers(s))) == Some(s.pool)
  {
    NewPoolIdsAreOutsidePool(s, players);
    var ids := NewPoolIds(players, GetPoolPlayers(s));
    if forall p :: p in players ==> p.id in s.pool {
      assert s.pool + (set x | x in ids) == s.pool;
    }
  }

  /** `remove_from_pool`: deletes the row of that id when there is one. */
  method RemoveFromPool(s: Session, playerId: int)
    requires s.Valid()
    modifies s`pool
    ensures s.Valid()
    ensures s.pool == old(s.pool) - {playerId}
  {
    if playerId in s.pool {
      s.pool := s.pool - {playerId};
    }
  }

  /** `clear_player_pool`: deletes every row. */
  method ClearPlayerPool(s: Session)
    requires s.Valid()
    modifies s`pool
    ensures s.Valid()
    ensures s.pool == {}
  {
    s.pool := {};
  }
}
