/** Values shared by the game picker, the cursor and the player statistics:
    players, games and schedule entries, and the roster predicates about them. */
module Common {

  datatype Option<T> = None | Some(value: T)

  datatype Result<T, E> = Success(value: T) | Failure(error: E)

  /** A roster entry; the name is for display only. */
  datatype Player = Player(id: int, name: string)

  /** Two teams of (normally) two players each, as the JavaScript arrays `team1`, `team2`. */
  datatype Game = Game(team1: seq<Player>, team2: seq<Player>)

  /** One schedule entry: `{team1, team2, completed, completedAt}`; `None` stands for `null`. */
  datatype Assignment = Assignment(game: Game, completed: bool, completedAt: Option<string>)

  /** Ids of the roster, in roster order. */
  function Ids(players: seq<Player>): (ids: seq<int>)
    ensures |ids| == |players|
    ensures forall k | 0 <= k < |players| :: ids[k] == players[k].id
  {
    seq(|players|, k requires 0 <= k < |players| => players[k].id)
  }

  predicate DistinctInts(s: seq<int>)
  {
    forall i, j | 0 <= i < j < |s| :: s[i] != s[j]
  }

  /** No two roster entries share an id (what the roster form guarantees: ids 1..n). */
  predicate DistinctIds(players: seq<Player>)
  {
    forall i, j | 0 <= i < j < |players| :: players[i].id != players[j].id
  }

  /** `team.some(p => p.id === id)` */
  predicate InTeam(team: seq<Player>, id: int)
  {
    exists k | 0 <= k < |team| :: team[k].id == id
  }

  /** The game has the player with this id on either team. */
  predicate Involves(g: Game, id: int)
  {
    InTeam(g.team1, id) || InTeam(g.team2, id)
  }

  /** The four ids of a two-against-two game. */
  function GameIds(g: Game): seq<int>
    requires |g.team1| == 2 && |g.team2| == 2
  {
    [g.team1[0].id, g.team1[1].id, g.team2[0].id, g.team2[1].id]
  }

  /** Two teams of two, four pairwise distinct ids, all of them on `ids`. */
  predicate FourDistinct(g: Game, ids: seq<int>)
  {
    && |g.team1| == 2 && |g.team2| == 2
    && DistinctInts(GameIds(g))
    && (forall k | 0 <= k < 4 :: GameIds(g)[k] in ids)
  }
}
