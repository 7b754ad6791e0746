/** The persistent records of the bot (players, teams, matches, the rating
    ledger, champion picks, the active-player pool and seasons).  Creation
    timestamps are clock readings and are not modelled. */
module Database {
  import opened Wrappers

  /** The two sides of a match; the bot calls them blue and red. */
  datatype TeamSide = Blue | Red

  /** Starting rating of every player, and the value a season reset restores. */
  const DefaultPoints: int := 1500

  /** A registered player.  `puuid` links the player to the live-game service. */
  datatype Player = Player(id: int, puuid: Option<string>, username: string,
                           discordId: Option<string>, points: int)

  /** A player as the bot creates one: rated at the default. */
  function NewPlayer(id: int, puuid: Option<string>, username: string, discordId: Option<string>): (p: Player)
    ensures p.id == id && p.puuid == puuid && p.username == username && p.discordId == discordId
    ensures p.points == DefaultPoints
  {
    Player(id, puuid, username, discordId, DefaultPoints)
  }

  /** Player equality as the program defines it: by id only, not by the other fields. */
  predicate SamePlayer(a: Player, b: Player)
  {
    a.id == b.id
  }

  /** The modulus of the host language's integer hash. */
  const HashModulus: int := 0x1FFF_FFFF_FFFF_FFFF

  /** The host language's hash of an integer: the value reduced modulo 2^61 - 1
      keeping its sign, where the value -1 is reserved and becomes -2. */
  function IntHash(n: int): (h: int)
    ensures -HashModulus < h < HashModulus
    ensures 0 <= n < HashModulus ==> h == n
    ensures h != -1
  {
    var m := if n >= 0 then n % HashModulus else -((-n) % HashModulus);
    if m == -1 then -2 else m
  }

  /** A player hashes as its id does. */
  function PlayerHash(p: Player): int
  {
    IntHash(p.id)
  }

  /** Two rosters that list the same players, place by place, with possibly
      different ratings: what a stale copy of a roster looks like after a
      rating change, since player equality ignores the rating. */
  predicate RatingsOnlyDiffer(ps: seq<Player>, qs: seq<Player>)
  {
    |ps| == |qs| && forall i :: 0 <= i < |ps| ==> qs[i] == ps[i].(points := qs[i].points)
  }

  /** Rosters that differ only in ratings are equal player by player, hash
      alike, and have the same ids. */
  lemma RatingsOnlyDifferSameIds(ps: seq<Player>, qs: seq<Player>)
    requires RatingsOnlyDiffer(ps, qs)
    ensures forall i :: 0 <= i < |ps| ==> SamePlayer(ps[i], qs[i]) && PlayerHash(ps[i]) == PlayerHash(qs[i])
    ensures Ids(ps) == Ids(qs)
  {
    forall i | 0 <= i < |ps| ensures Ids(ps)[i] == Ids(qs)[i] {
      assert qs[i].id == ps[i].id;
    }
  }

  /** A team of a match: its side, the drafted champion ids, the roster and the
      mean rating of the roster when the team was formed. */
  datatype Team = Team(side: TeamSide, champions: seq<string>, players: seq<Player>, rating: real)

  /** A match.  `mode` is the team size (the schema constrains it to 1..5);
      `result` is unset until a winner is recorded. */
  datatype Match = Match(id: int, mode: int, seasonId: Option<int>, championsRegistered: bool,
                         result: Option<TeamSide>, teams: seq<Team>)

  /** The mode range the schema declares for a match. */
  predicate ValidMode(mode: int)
  {
    1 <= mode <= 5
  }

  /** A match as the bot creates one: no result and no registered champions. */
  function NewMatch(id: int, mode: int, seasonId: Option<int>, teams: seq<Team>): (m: Match)
    requires ValidMode(mode)
    ensures ValidMode(m.mode)
    ensures m.id == id && m.mode == mode && m.seasonId == seasonId && m.teams == teams
    ensures m.result == None && !m.championsRegistered
  {
    Match(id, mode, seasonId, false, None, teams)
  }

  /** One rating-ledger row.  `matchId` is unset for season resets; `change`
      is nullable in the schema. */
  datatype EloEntry = EloEntry(playerId: int, matchId: Option<int>, isReverted: bool,
                               pointsBefore: int, pointsAfter: int, change: Option<int>)

  /** A ledger row as the bot creates one: not reverted. */
  function NewEloEntry(playerId: int, matchId: Option<int>, before: int, after: int, change: Option<int>): (e: EloEntry)
    ensures e.playerId == playerId && e.matchId == matchId && e.change == change
    ensures e.pointsBefore == before && e.pointsAfter == after
    ensures !e.isReverted
  {
    EloEntry(playerId, matchId, false, before, after, change)
  }

  /** The champion a player played in a match, keyed by (player, match). */
  datatype PlayerMatchChampion = PlayerMatchChampion(playerId: int, matchId: int, championId: string)

  /** A row of the active-player pool, keyed by the player id. */
  datatype ActivePlayer = ActivePlayer(playerId: int)

  /** A season; `ended` records that its end date has been set. */
  datatype Season = Season(id: int, ended: bool)

  /** A player's rating at the close of a season. */
  datatype PlayerSeasonFinalElo = PlayerSeasonFinalElo(playerId: int, seasonId: int, points: int)

  /** The primary key of the pick table: no two rows for one player in one match. */
  predicate PickKeysUnique(picks: seq<PlayerMatchChampion>)
  {
    forall i, j :: 0 <= i < j < |picks| ==>
      picks[i].playerId != picks[j].playerId || picks[i].matchId != picks[j].matchId
  }

  /** The ids of a roster, in roster order. */
  function Ids(ps: seq<Player>): (r: seq<int>)
    ensures |r| == |ps|
    ensures forall i :: 0 <= i < |ps| ==> r[i] == ps[i].id
  {
    seq(|ps|, i requires 0 <= i < |ps| => ps[i].id)
  }

  /** No id occurs twice in the sequence. */
  predicate Distinct(xs: seq<int>)
  {
    forall i, j :: 0 <= i < j < |xs| ==> xs[i] != xs[j]
  }

  /** The rosters of all teams of a match, in order. */
  function RosterIds(teams: seq<Team>): (r: seq<int>)
    ensures forall t, p :: t in teams && p in t.players ==> p.id in r
    ensures forall x :: x in r ==> exists t, p :: t in teams && p in t.players && p.id == x
  {
    if teams == [] then [] else Ids(teams[0].players) + RosterIds(teams[1..])
  }

  /** The first team on the given side, as the match service looks it up. */
  function TeamOn(teams: seq<Team>, side: TeamSide): (r: Option<Team>)
    ensures r.Some? <==> exists i :: 0 <= i < |teams| && teams[i].side == side
    ensures r.Some? ==> r.value in teams && r.value.side == side
    ensures r.Some? ==> exists i :: 0 <= i < |teams| && teams[i] == r.value &&
                          forall j :: 0 <= j < i ==> teams[j].side != side
  {
    if teams == [] then None
    else if teams[0].side == side then Some(teams[0])
    else TeamOn(teams[1..], side)
  }
}
