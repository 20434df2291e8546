/** The statistics table of the application: for every player, how many of the games
    before the current one they played in and how many they sat out. */
module PlayerStats {
  import opened Common

  /** One row of the table: `{id, name, gamesPlayed, gamesRested}`. */
  datatype PlayerStat = PlayerStat(id: int, name: string, gamesPlayed: nat, gamesRested: int)

  /** `schedule.filter((game, index) => index < currentGameIndex && (game involves id)).length`,
      counted entry by entry from the end of the schedule. */
  function GamesPlayed(schedule: seq<Assignment>, cursor: nat, id: int): (k: nat)
    ensures k <= |schedule| && k <= cursor
    decreases |schedule|
  {
    if schedule == [] then 0
    else
      var last := |schedule| - 1;
      GamesPlayed(schedule[..last], cursor, id) + (if last < cursor && Involves(schedule[last].game, id) then 1 else 0)
  }

  /** The entries the filter keeps: the indices before the cursor whose game has the player. */
  ghost function PlayedIndices(schedule: seq<Assignment>, cursor: nat, id: int): set<int>
  {
    set i | 0 <= i < |schedule| && i < cursor && Involves(schedule[i].game, id)
  }

  /** The count is the number of distinct schedule positions kept, so a game counts at
      most once even when the player appears twice in it. */
  lemma {:induction false} GamesPlayedCounts(schedule: seq<Assignment>, cursor: nat, id: int)
    ensures GamesPlayed(schedule, cursor, id) == |PlayedIndices(schedule, cursor, id)|
    decreases |schedule|
  {
    if schedule != [] {
      var last := |schedule| - 1;
      var front := schedule[..last];
      GamesPlayedCounts(front, cursor, id);
      var before := PlayedIndices(front, cursor, id);
      assert forall i | 0 <= i < last :: front[i] == schedule[i];
      if last < cursor && Involves(schedule[last].game, id) {
        assert PlayedIndices(schedule, cursor, id) == before + {last};
      } else {
        assert PlayedIndices(schedule, cursor, id) == before;
      }
    }
  }

  /** `playerStats`: one row per player, in roster order. */
  function Stats(players: seq<Player>, schedule: seq<Assignment>, cursor: nat): (r: seq<PlayerStat>)
    ensures |r| == |players|
    ensures forall k | 0 <= k < |players| ::
      && r[k].id == players[k].id && r[k].name == players[k].name
      && r[k].gamesPlayed == |PlayedIndices(schedule, cursor, players[k].id)|
      && r[k].gamesPlayed <= |schedule|
      && r[k].gamesPlayed + r[k].gamesRested == cursor
      && r[k].gamesRested >= 0
  {
    assert forall k | 0 <= k < |players| ::
      GamesPlayed(schedule, cursor, players[k].id) == |PlayedIndices(schedule, cursor, players[k].id)| by {
      forall k | 0 <= k < |players| {
        GamesPlayedCounts(schedule, cursor, players[k].id);
      }
    }
    seq(|players|, k requires 0 <= k < |players| =>
      var played := GamesPlayed(schedule, cursor, players[k].id);
      PlayerStat(players[k].id, players[k].name, played, cursor - played))
  }

  /** Moving the cursor past entry `c` adds that entry to the count exactly when its
      game has the player. */
  lemma {:induction false} PlayedStep(schedule: seq<Assignment>, c: nat, id: int)
    ensures GamesPlayed(schedule, c + 1, id)
         == GamesPlayed(schedule, c, id) + (if c < |schedule| && Involves(schedule[c].game, id) then 1 else 0)
    decreases |schedule|
  {
    if schedule != [] {
      var last := |schedule| - 1;
      PlayedStep(schedule[..last], c, id);
      if c < last {
        assert schedule[..last][c] == schedule[c];
      }
    }
  }

  /** The button press seen from the table: a player of the finished game gains a game
      played, everybody else a game rested. */
  lemma StatsStep(players: seq<Player>, schedule: seq<Assignment>, c: nat, k: int)
    requires 0 <= k < |players|
    ensures var before := Stats(players, schedule, c)[k];
      var after := Stats(players, schedule, c + 1)[k];
      if c < |schedule| && Involves(schedule[c].game, players[k].id) then
        after.gamesPlayed == before.gamesPlayed + 1 && after.gamesRested == before.gamesRested
      else
        after.gamesPlayed == before.gamesPlayed && after.gamesRested == before.gamesRested + 1
  {
    PlayedStep(schedule, c, players[k].id);
    GamesPlayedCounts(schedule, c, players[k].id);
    GamesPlayedCounts(schedule, c + 1, players[k].id);
  }

  /** The sum of the `gamesPlayed` column. */
  function TotalPlayed(stats: seq<PlayerStat>): (t: nat)
    ensures stats == [] ==> t == 0
  {
    if stats == [] then 0 else TotalPlayed(stats[..|stats| - 1]) + stats[|stats| - 1].gamesPlayed
  }

  /** The number of games before the cursor, summed over the players. */
  function Played(players: seq<Player>, schedule: seq<Assignment>, cursor: nat): (t: nat)
  {
    if players == [] then 0
    else Played(players[..|players| - 1], schedule, cursor) + GamesPlayed(schedule, cursor, players[|players| - 1].id)
  }

  lemma {:induction false} TotalIsPlayed(players: seq<Player>, schedule: seq<Assignment>, cursor: nat)
    ensures TotalPlayed(Stats(players, schedule, cursor)) == Played(players, schedule, cursor)
  {
    if players != [] {
      var front := players[..|players| - 1];
      TotalIsPlayed(front, schedule, cursor);
      var st := Stats(players, schedule, cursor);
      assert st[..|st| - 1] == Stats(front, schedule, cursor);
      GamesPlayedCounts(schedule, cursor, players[|players| - 1].id);
    }
  }

  /** How many of the players the game has. */
  function Hits(players: seq<Player>, g: Game): (h: nat)
    ensures h <= |players|
  {
    if players == [] then 0
    else Hits(players[..|players| - 1], g) + (if Involves(g, players[|players| - 1].id) then 1 else 0)
  }

  lemma {:induction false} PlayedZero(players: seq<Player>, schedule: seq<Assignment>)
    ensures Played(players, schedule, 0) == 0
  {
    if players != [] {
      PlayedZero(players[..|players| - 1], schedule);
    }
  }

  /** Moving the cursor past entry `c` adds one game per player the game has. */
  lemma {:induction false} PlayedAllStep(players: seq<Player>, schedule: seq<Assignment>, c: nat)
    requires c < |schedule|
    ensures Played(players, schedule, c + 1) == Played(players, schedule, c) + Hits(players, schedule[c].game)
  {
    if players != [] {
      PlayedAllStep(players[..|players| - 1], schedule, c);
      PlayedStep(schedule, c, players[|players| - 1].id);
    }
  }

  /** The ids of the roster as a set. */
  ghost function IdSet(players: seq<Player>): set<int>
  {
    set k | 0 <= k < |players| :: players[k].id
  }

  /** On a roster without repeated ids, counting the players the game has is counting
      the roster ids that are among the game's ids `q`. */
  lemma {:induction false} HitsCard(players: seq<Player>, g: Game, q: set<int>)
    requires DistinctIds(players) && forall id :: Involves(g, id) <==> id in q
    ensures Hits(players, g) == |IdSet(players) * q|
  {
    if players != [] {
      var front := players[..|players| - 1];
      var x := players[|players| - 1].id;
      IdSetLast(players);
      HitsCard(front, g, q);
      if x in q {
        assert IdSet(players) * q == (IdSet(front) * q) + {x};
      } else {
        assert IdSet(players) * q == IdSet(front) * q;
      }
    }
  }

  /** Dropping the last player of a roster without repeated ids drops exactly their id. */
  lemma IdSetLast(players: seq<Player>)
    requires DistinctIds(players) && players != []
    ensures DistinctIds(players[..|players| - 1])
    ensures IdSet(players) == IdSet(players[..|players| - 1]) + {players[|players| - 1].id}
    ensures players[|players| - 1].id !in IdSet(players[..|players| - 1])
  {
    var front := players[..|players| - 1];
    var x := players[|players| - 1].id;
    assert forall k | 0 <= k < |front| :: front[k] == players[k];
    forall y | y in IdSet(players) ensures y in IdSet(front) + {x} {
      var k :| 0 <= k < |players| && players[k].id == y;
      if k < |players| - 1 {
        assert front[k] == players[k];
      }
    }
    forall y | y in IdSet(front) ensures y in IdSet(players) {
      var k :| 0 <= k < |front| && front[k].id == y;
      assert players[k] == front[k];
    }
  }

  /** For a two-against-two game, having the player means having their id among the four. */
  lemma InvolvesIds(g: Game, id: int)
    requires |g.team1| == 2 && |g.team2| == 2
    ensures Involves(g, id) <==> id in set k | 0 <= k < 4 :: GameIds(g)[k]
  {
    if Involves(g, id) {
      if InTeam(g.team1, id) {
        var k :| 0 <= k < 2 && g.team1[k].id == id;
        assert GameIds(g)[k] == id;
      } else {
        var k :| 0 <= k < 2 && g.team2[k].id == id;
        assert GameIds(g)[k + 2] == id;
      }
    }
    if id in set k | 0 <= k < 4 :: GameIds(g)[k] {
      var k :| 0 <= k < 4 && GameIds(g)[k] == id;
      if k < 2 {
        assert g.team1[k].id == id;
      } else {
        assert g.team2[k - 2].id == id;
      }
    }
  }

  /** Four distinct ids make a set of four. */
  lemma GameIdsCard(g: Game)
    requires |g.team1| == 2 && |g.team2| == 2 && DistinctInts(GameIds(g))
    ensures |set k | 0 <= k < 4 :: GameIds(g)[k]| == 4
  {
    var ids := GameIds(g);
    assert (set k | 0 <= k < 4 :: ids[k]) == {ids[0], ids[1], ids[2], ids[3]};
  }

  /** The ids of a game on the roster are roster ids. */
  lemma GameIdsOnRoster(players: seq<Player>, g: Game)
    requires FourDistinct(g, Ids(players))
    ensures (set k | 0 <= k < 4 :: GameIds(g)[k]) <= IdSet(players)
  {
    forall y | y in set k | 0 <= k < 4 :: GameIds(g)[k] ensures y in IdSet(players) {
      var k :| 0 <= k < 4 && GameIds(g)[k] == y;
      assert y in Ids(players);
      var j :| 0 <= j < |players| && Ids(players)[j] == y;
      assert players[j].id == y;
    }
  }

  /** A game of four distinct roster ids has exactly four of the players. */
  lemma HitsFour(players: seq<Player>, g: Game)
    requires DistinctIds(players) && FourDistinct(g, Ids(players))
    ensures Hits(players, g) == 4
  {
    var q := set k | 0 <= k < 4 :: GameIds(g)[k];
    forall id ensures Involves(g, id) <==> id in q {
      InvolvesIds(g, id);
    }
    HitsCard(players, g, q);
    GameIdsCard(g);
    GameIdsOnRoster(players, g);
    assert IdSet(players) * q == q;
  }

  /** Summed over the roster, the `gamesPlayed` column is four per game before the
      cursor, when every such game is four distinct roster players. */
  lemma {:induction false} TotalPlayedFour(players: seq<Player>, schedule: seq<Assignment>, cursor: nat)
    requires DistinctIds(players) && cursor <= |schedule|
    requires forall i | 0 <= i < cursor :: FourDistinct(schedule[i].game, Ids(players))
    ensures TotalPlayed(Stats(players, schedule, cursor)) == 4 * cursor
    decreases cursor
  {
    TotalIsPlayed(players, schedule, cursor);
    if cursor == 0 {
      PlayedZero(players, schedule);
    } else {
      TotalPlayedFour(players, schedule, cursor - 1);
      TotalIsPlayed(players, schedule, cursor - 1);
      PlayedAllStep(players, schedule, cursor - 1);
      HitsFour(players, schedule[cursor - 1].game);
    }
  }

  /** With exactly four players every game before the cursor has all of them: each has
      played every one of those games and rested in none. */
  lemma FourPlayersPlayAll(players: seq<Player>, schedule: seq<Assignment>, cursor: nat)
    requires |players| == 4 && DistinctIds(players) && cursor <= |schedule|
    requires forall i | 0 <= i < cursor :: FourDistinct(schedule[i].game, Ids(players))
    ensures forall k | 0 <= k < 4 ::
      Stats(players, schedule, cursor)[k].gamesPlayed == cursor && Stats(players, schedule, cursor)[k].gamesRested == 0
  {
    TotalPlayedFour(players, schedule, cursor);
    TotalOfFour(Stats(players, schedule, cursor));
  }

  lemma TotalOfFour(st: seq<PlayerStat>)
    requires |st| == 4
    ensures TotalPlayed(st) == st[0].gamesPlayed + st[1].gamesPlayed + st[2].gamesPlayed + st[3].gamesPlayed
  {
    assert st[..3][..2] == st[..2] && st[..2][..1] == st[..1] && st[..1][..0] == [];
    assert TotalPlayed(st[..1]) == st[0].gamesPlayed;
    assert TotalPlayed(st[..2]) == TotalPlayed(st[..1]) + st[1].gamesPlayed;
    assert TotalPlayed(st[..3]) == TotalPlayed(st[..2]) + st[2].gamesPlayed;
  }
}
