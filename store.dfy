/** The database as the services see it through one session: one field per
    table.  Primary keys become map keys or set elements. */
module Store {
  import opened Wrappers
  import opened Database

  class Session {
    /** The player table, keyed by id. */
    var players: map<int, Player>
    /** The match table, keyed by id. */
    var matches: map<int, Match>
    /** The rating ledger in insertion order; a row's index is its identity. */
    var ledger: seq<EloEntry>
    /** The champion-pick table in insertion order. */
    var picks: seq<PlayerMatchChampion>
    /** The season-final-rating table in insertion order. */
    var finalElos: seq<PlayerSeasonFinalElo>
    /** The season table, oldest first; the last one is the current season. */
    var seasons: seq<Season>
    /** The active-player table: the ids of the players in the pool. */
    var pool: set<int>

    /** The constraints the schema enforces: rows keyed by their own id, the
        pool refers to existing players, matches have a mode of 1 to 5, picks keyed by (player, match). */
    ghost predicate Valid()
      reads this
    {
      && (forall id :: id in players ==> players[id].id == id)
      && (forall id :: id in matches ==> matches[id].id == id)
      && (forall id :: id in matches ==> ValidMode(matches[id].mode))
      && pool <= players.Keys
      && PickKeysUnique(picks)
    }

    constructor ()
      ensures Valid()
      ensures players == map[] && matches == map[] && ledger == [] && picks == []
      ensures finalElos == [] && seasons == [] && pool == {}
    {
      players, matches, ledger, picks := map[], map[], [], [];
      finalElos, seasons, pool := [], [], {};
    }
  }
}
