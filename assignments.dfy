/** `generateGameAssignments`: twenty rounds, each keeping the lowest-scoring of
    one hundred random orderings of the roster. The random orderings are an
    oracle: `orders[round][attempt]` is the index permutation that the sort with
    a random comparator produced. */
module Assignments {
  import opened Common
  import opened GameHistory

  const ROUNDS := 20
  const ATTEMPTS := 100
  const NEED_FOUR := "Need at least 4 players for doubles"

  /** `p` lists each of the indices `0 .. n-1` once. */
  predicate IsPermutation(p: seq<int>, n: nat)
  {
    && |p| == n
    && (forall k | 0 <= k < n :: 0 <= p[k] < n)
    && (forall i, j | 0 <= i < j < n :: p[i] != p[j])
  }

  predicate Perms(atts: seq<seq<int>>, n: nat)
  {
    forall a | 0 <= a < |atts| :: IsPermutation(atts[a], n)
  }

  /** One ordering per attempt of every round. */
  predicate ValidOrders(orders: seq<seq<seq<int>>>, n: nat)
  {
    && |orders| == ROUNDS
    && (forall r | 0 <= r < ROUNDS :: |orders[r]| == ATTEMPTS && Perms(orders[r], n))
  }

  /** `[...players].sort(() => Math.random() - 0.5)`, with the outcome given by `p`. */
  function Shuffle(players: seq<Player>, p: seq<int>): (r: seq<Player>)
    requires IsPermutation(p, |players|)
    ensures |r| == |players|
    ensures forall k | 0 <= k < |r| :: r[k] == players[p[k]]
  {
    seq(|players|, k requires 0 <= k < |players| => players[p[k]])
  }

  /** `shuffledPlayers.slice(0, 4)` split into `team1` and `team2`. */
  function Candidate(players: seq<Player>, p: seq<int>): (g: Game)
    requires |players| >= 4 && IsPermutation(p, |players|)
    ensures g.team1 == [players[p[0]], players[p[1]]] && g.team2 == [players[p[2]], players[p[3]]]
  {
    var gamePlayers := Shuffle(players, p)[..4];
    Game([gamePlayers[0], gamePlayers[1]], [gamePlayers[2], gamePlayers[3]])
  }

  /** With distinct roster ids a candidate is four distinct roster players. */
  lemma CandidateOnRoster(players: seq<Player>, p: seq<int>)
    requires DistinctIds(players) && |players| >= 4 && IsPermutation(p, |players|)
    ensures FourDistinct(Candidate(players, p), Ids(players))
  {
    var g := Candidate(players, p);
    var ids := Ids(players);
    forall x | 0 <= x < 4 ensures GameIds(g)[x] == ids[p[x]] {
    }
    forall x, y | 0 <= x < y < 4 ensures GameIds(g)[x] != GameIds(g)[y] {
      assert p[x] != p[y];
    }
  }

  /** Tables that a candidate of this roster can be scored against. */
  predicate Ready(tb: Tables, players: seq<Player>)
  {
    && |players| >= 4 && DistinctIds(players)
    && tb.partner.Keys == PairKeys(Ids(players)) && tb.opponent.Keys == PairKeys(Ids(players))
  }

  lemma CandidateFits(tb: Tables, players: seq<Player>, p: seq<int>)
    requires Ready(tb, players) && IsPermutation(p, |players|)
    ensures FourDistinct(Candidate(players, p), Ids(players))
    ensures Fits(tb, Candidate(players, p))
  {
    CandidateOnRoster(players, p);
    FitsOnRoster(tb, Candidate(players, p), Ids(players));
  }

  /** `scoreGame(team1, team2)` of the candidate that ordering `p` yields. */
  function AttemptScore(tb: Tables, players: seq<Player>, p: seq<int>): int
    requires Ready(tb, players) && IsPermutation(p, |players|)
  {
    CandidateFits(tb, players, p);
    GameScore(tb, Candidate(players, p))
  }

  /** The score of every attempt, in attempt order. */
  function Scores(tb: Tables, players: seq<Player>, atts: seq<seq<int>>): (s: seq<int>)
    requires Ready(tb, players) && Perms(atts, |players|)
    ensures |s| == |atts|
    ensures forall j | 0 <= j < |atts| :: s[j] == AttemptScore(tb, players, atts[j])
  {
    seq(|atts|, j requires 0 <= j < |atts| => AttemptScore(tb, players, atts[j]))
  }

  /** The attempt whose game `bestGame` holds once the attempts with these
      scores have run: a later attempt replaces it only with a strictly lower
      score. `None` is the initial `null` (with `bestScore` still `Infinity`). */
  function Kept(scores: seq<int>): (r: Option<nat>)
    ensures r.None? <==> scores == []
    ensures r.Some? ==> r.value < |scores|
  {
    if scores == [] then None
    else
      var prev := Kept(scores[..|scores| - 1]);
      if prev.None? || scores[|scores| - 1] < scores[prev.value] then Some(|scores| - 1)
      else prev
  }

  /** One more attempt, as the loop body sees it. */
  lemma KeptStep(scores: seq<int>, n: nat)
    requires n < |scores|
    ensures var prev := Kept(scores[..n]);
      Kept(scores[..n + 1]) == if prev.None? || scores[n] < scores[prev.value] then Some(n) else prev
  {
    assert scores[..n + 1][..n] == scores[..n];
  }

  /** `k` is the first position of a minimum of `s`. */
  predicate IsFirstMin(s: seq<int>, k: int)
  {
    && 0 <= k < |s|
    && (forall j | 0 <= j < |s| :: s[k] <= s[j])
    && (forall j | 0 <= j < k :: s[k] < s[j])
  }

  /** The kept attempt is the first one of minimum score: ties keep the earliest. */
  lemma {:induction false} KeptFirstMin(scores: seq<int>)
    requires scores != []
    ensures Kept(scores).Some? && IsFirstMin(scores, Kept(scores).value)
  {
    var n := |scores| - 1;
    var init := scores[..n];
    if n == 0 {
      assert init == [];
    } else {
      KeptFirstMin(init);
      var k0 := Kept(init).value;
      assert forall j | 0 <= j < n :: init[j] == scores[j];
    }
  }

  /** The game a round keeps from its attempts `atts`. */
  function Pick(tb: Tables, players: seq<Player>, atts: seq<seq<int>>): (g: Game)
    requires Ready(tb, players) && Perms(atts, |players|) && atts != []
    ensures FourDistinct(g, Ids(players))
  {
    var k := Kept(Scores(tb, players, atts)).value;
    CandidateOnRoster(players, atts[k]);
    Candidate(players, atts[k])
  }

  /** The kept game is the candidate of the first attempt of minimum score. */
  lemma PickFirstMinimum(tb: Tables, players: seq<Player>, atts: seq<seq<int>>)
    requires Ready(tb, players) && Perms(atts, |players|) && atts != []
    ensures exists k | IsFirstMin(Scores(tb, players, atts), k) :: Pick(tb, players, atts) == Candidate(players, atts[k])
  {
    KeptFirstMin(Scores(tb, players, atts));
  }

  /** A schedule entry as `schedule.push` writes it. */
  function Entry(g: Game): (e: Assignment)
    ensures e.game == g && !e.completed && e.completedAt == None
  {
    Assignment(g, false, None)
  }

  lemma InitialReady(players: seq<Player>)
    requires |players| >= 4 && DistinctIds(players)
    ensures Ready(Initial(Ids(players)), players)
  {
  }

  /** The schedule so far and the two tables, as they stand between rounds. */
  datatype Progress = Progress(schedule: seq<Assignment>, tables: Tables)

  /** The first `r` rounds: each keeps `Pick` of its attempts against the
      tables so far, appends it and writes it into the tables. */
  function Run(players: seq<Player>, orders: seq<seq<seq<int>>>, r: nat): (p: Progress)
    requires |players| >= 4 && DistinctIds(players) && ValidOrders(orders, |players|) && r <= ROUNDS
    ensures |p.schedule| == r && Ready(p.tables, players)
  {
    if r == 0 then
      InitialReady(players);
      Progress([], Initial(Ids(players)))
    else
      var prev := Run(players, orders, r - 1);
      var g := Pick(prev.tables, players, orders[r - 1]);
      FitsOnRoster(prev.tables, g, Ids(players));
      Progress(prev.schedule + [Entry(g)], Applied(prev.tables, g))
  }

  /** Every entry is four distinct roster players and is not completed yet. */
  predicate Pending(s: seq<Assignment>, ids: seq<int>)
  {
    && OnRoster(s, ids)
    && (forall i | 0 <= i < |s| :: !s[i].completed && s[i].completedAt == None)
  }

  /** Every entry of the first `r` rounds is four distinct roster players, not completed. */
  lemma {:induction false} RunOnRoster(players: seq<Player>, orders: seq<seq<seq<int>>>, r: nat)
    requires |players| >= 4 && DistinctIds(players) && ValidOrders(orders, |players|) && r <= ROUNDS
    ensures Pending(Run(players, orders, r).schedule, Ids(players))
  {
    if r > 0 {
      RunOnRoster(players, orders, r - 1);
      PendingStep(players, orders, r);
    }
  }

  lemma PendingStep(players: seq<Player>, orders: seq<seq<seq<int>>>, r: nat)
    requires |players| >= 4 && DistinctIds(players) && ValidOrders(orders, |players|) && 0 < r <= ROUNDS
    requires Pending(Run(players, orders, r - 1).schedule, Ids(players))
    ensures Pending(Run(players, orders, r).schedule, Ids(players))
  {
    var g := RunLast(players, orders, r);
    PendingSnoc(Run(players, orders, r - 1).schedule, Entry(g), Ids(players));
  }

  lemma PendingSnoc(s: seq<Assignment>, e: Assignment, ids: seq<int>)
    requires Pending(s, ids) && FourDistinct(e.game, ids) && !e.completed && e.completedAt == None
    ensures Pending(s + [e], ids)
  {
    forall i | 0 <= i < |s| + 1
      ensures FourDistinct((s + [e])[i].game, ids)
    {
      if i < |s| {
        assert (s + [e])[i] == s[i];
      }
    }
  }

  /** Round `m` appends the game it picks; the ghost result names that game. */
  lemma RunLast(players: seq<Player>, orders: seq<seq<seq<int>>>, m: nat) returns (g: Game)
    requires |players| >= 4 && DistinctIds(players) && ValidOrders(orders, |players|) && 0 < m <= ROUNDS
    ensures FourDistinct(g, Ids(players)) && !Entry(g).completed && Entry(g).completedAt == None
    ensures Run(players, orders, m).schedule == Run(players, orders, m - 1).schedule + [Entry(g)]
  {
    g := Pick(Run(players, orders, m - 1).tables, players, orders[m - 1]);
  }

  /** Round `m` keeps `Pick` against the tables so far and writes it into them. */
  lemma RunStep(players: seq<Player>, orders: seq<seq<seq<int>>>, m: nat)
    requires |players| >= 4 && DistinctIds(players) && ValidOrders(orders, |players|) && m < ROUNDS
    ensures var prev := Run(players, orders, m);
      var g := Pick(prev.tables, players, orders[m]);
      && Fits(prev.tables, g)
      && Run(players, orders, m + 1) == Progress(prev.schedule + [Entry(g)], Applied(prev.tables, g))
  {
    var prev := Run(players, orders, m);
    FitsOnRoster(prev.tables, Pick(prev.tables, players, orders[m]), Ids(players));
  }

  /** The schedule `generateGameAssignments` returns for a roster of at least four. */
  function Generated(players: seq<Player>, orders: seq<seq<seq<int>>>): (s: seq<Assignment>)
    requires |players| >= 4 && DistinctIds(players) && ValidOrders(orders, |players|)
    ensures |s| == ROUNDS
  {
    Run(players, orders, ROUNDS).schedule
  }

  /** The tables after `r` rounds are the increments of the schedule's games. */
  lemma {:induction false} RunReplays(players: seq<Player>, orders: seq<seq<seq<int>>>, r: nat)
    requires |players| >= 4 && DistinctIds(players) && ValidOrders(orders, |players|) && r <= ROUNDS
    ensures forall i | 0 <= i < r :: Fits(Initial(Ids(players)), Run(players, orders, r).schedule[i].game)
    ensures Run(players, orders, r).tables == Replay(Initial(Ids(players)), Run(players, orders, r).schedule)
  {
    var p := Run(players, orders, r);
    RunOnRoster(players, orders, r);
    InitialFits(p.schedule, Ids(players));
    if r > 0 {
      var prev := Run(players, orders, r - 1);
      RunReplays(players, orders, r - 1);
      assert p.schedule[..r - 1] == prev.schedule;
    }
  }

  /** One more round appends one entry and leaves the earlier ones alone. */
  lemma RunGrows(players: seq<Player>, orders: seq<seq<seq<int>>>, m: nat)
    requires |players| >= 4 && DistinctIds(players) && ValidOrders(orders, |players|) && 0 < m <= ROUNDS
    ensures Run(players, orders, m).schedule[..m - 1] == Run(players, orders, m - 1).schedule
  {
    var g := RunLast(players, orders, m);
    var prev := Run(players, orders, m - 1).schedule;
    assert (prev + [Entry(g)])[..m - 1] == prev;
  }

  /** Later rounds only append: the first `r` rounds are a prefix of the first `m`. */
  lemma {:induction false} RunPrefix(players: seq<Player>, orders: seq<seq<seq<int>>>, r: nat, m: nat)
    requires |players| >= 4 && DistinctIds(players) && ValidOrders(orders, |players|) && r <= m <= ROUNDS
    ensures Run(players, orders, m).schedule[..r] == Run(players, orders, r).schedule
  {
    if m == r {
      var big := Run(players, orders, m).schedule;
      assert big[..r] == big;
    } else {
      RunPrefix(players, orders, r, m - 1);
      RunGrows(players, orders, m);
      PrefixOfPrefix(Run(players, orders, m).schedule, Run(players, orders, m - 1).schedule, r);
    }
  }

  lemma PrefixOfPrefix<T>(big: seq<T>, mid: seq<T>, r: nat)
    requires |mid| <= |big| && big[..|mid|] == mid && r <= |mid|
    ensures big[..r] == mid[..r]
  {
    assert forall k | 0 <= k < r :: big[..r][k] == big[..|mid|][k];
  }

  /** Exactly twenty entries, none completed, each four distinct roster players,
      and each the first minimum-score attempt of its round, scored against the
      tables the earlier entries have written. */
  lemma GeneratedEntries(players: seq<Player>, orders: seq<seq<seq<int>>>, r: nat)
    requires |players| >= 4 && DistinctIds(players) && ValidOrders(orders, |players|) && r < ROUNDS
    ensures var s := Generated(players, orders);
      && |s| == ROUNDS
      && s[..r] == Run(players, orders, r).schedule
      && !s[r].completed && s[r].completedAt == None
      && FourDistinct(s[r].game, Ids(players))
    ensures exists k | IsFirstMin(Scores(Run(players, orders, r).tables, players, orders[r]), k) ::
      Generated(players, orders)[r].game == Candidate(players, orders[r][k])
  {
    GeneratedAt(players, orders, r);
    PickFirstMinimum(Run(players, orders, r).tables, players, orders[r]);
  }

  /** Entry `r` of the result is the pick of round `r`, after the first `r` rounds. */
  lemma GeneratedAt(players: seq<Player>, orders: seq<seq<seq<int>>>, r: nat)
    requires |players| >= 4 && DistinctIds(players) && ValidOrders(orders, |players|) && r < ROUNDS
    ensures Generated(players, orders)[..r] == Run(players, orders, r).schedule
    ensures Generated(players, orders)[r] == Entry(Pick(Run(players, orders, r).tables, players, orders[r]))
  {
    var s := Generated(players, orders);
    RunPrefix(players, orders, r, ROUNDS);
    RunPrefix(players, orders, r + 1, ROUNDS);
    var g := RunLast(players, orders, r + 1);
    assert s[r] == s[..r + 1][r];
  }

  /** After `r` rounds both tables are symmetric and non-negative, the partner
      table totals `4 * r` and the opponent table `8 * r` (80 and 160 at the end). */
  lemma RunTables(players: seq<Player>, orders: seq<seq<seq<int>>>, r: nat)
    requires |players| >= 4 && DistinctIds(players) && ValidOrders(orders, |players|) && r <= ROUNDS
    ensures var tb := Run(players, orders, r).tables;
      && Symmetric(tb.partner) && Symmetric(tb.opponent)
      && NonNegative(tb.partner) && NonNegative(tb.opponent)
      && Covers(tb.partner, Ids(players), Ids(players)) && Covers(tb.opponent, Ids(players), Ids(players))
      && Total(tb.partner, Ids(players)) == 4 * r && Total(tb.opponent, Ids(players)) == 8 * r
  {
    var s := Run(players, orders, r).schedule;
    assert DistinctInts(Ids(players));
    RunOnRoster(players, orders, r);
    RunReplays(players, orders, r);
    ReplayInvariant(Ids(players), s);
    ReplayTotals(Ids(players), s);
  }

  /** One attempt (src/App.jsx:73-88): shuffle, take the first four, split, score. */
  method Attempt(h: HistoryTables, players: seq<Player>, p: seq<int>)
    returns (team1: seq<Player>, team2: seq<Player>, score: int)
    requires Ready(h.Current(), players) && IsPermutation(p, |players|)
    ensures Game(team1, team2) == Candidate(players, p)
    ensures score == AttemptScore(h.Current(), players, p)
  {
    var shuffledPlayers := Shuffle(players, p);
    var gamePlayers := shuffledPlayers[..4];
    team1 := [gamePlayers[0], gamePlayers[1]];
    team2 := [gamePlayers[2], gamePlayers[3]];
    CandidateFits(h.Current(), players, p);
    score := h.ScoreGame(team1, team2);
  }

  /** One round of `generateGameAssignments`: the hundred attempts of src/App.jsx
      68-95, keeping `bestGame`/`bestScore`. It only reads the tables. */
  method BestOfRound(h: HistoryTables, players: seq<Player>, atts: seq<seq<int>>) returns (best: Game)
    requires Ready(h.Current(), players) && Perms(atts, |players|) && |atts| == ATTEMPTS
    ensures best == Pick(h.Current(), players, atts)
  {
    ghost var scores := Scores(h.Current(), players, atts);
    var bestGame: Option<Game> := None;
    var bestScore: Option<int> := None;
    assert scores[..0] == [];
    for attempt := 0 to ATTEMPTS
      invariant bestGame.Some? == bestScore.Some? == Kept(scores[..attempt]).Some?
      invariant bestGame.Some? ==> bestGame.value == Candidate(players, atts[Kept(scores[..attempt]).value])
      invariant bestScore.Some? ==> bestScore.value == scores[Kept(scores[..attempt]).value]
    {
      var team1, team2, score := Attempt(h, players, atts[attempt]);
      KeptStep(scores, attempt);
      if bestScore.None? || score < bestScore.value {
        bestScore := Some(score);
        bestGame := Some(Game(team1, team2));
      }
    }
    assert scores[..ATTEMPTS] == scores;
    best := bestGame.value;
  }

  /** One pass of the rounds loop: the best of the round's attempts is chosen and
      `updateHistory` is applied to it. */
  method PlayRound(h: HistoryTables, players: seq<Player>, orders: seq<seq<seq<int>>>, i: nat)
    returns (best: Game)
    requires |players| >= 4 && DistinctIds(players) && ValidOrders(orders, |players|) && i < ROUNDS
    requires h.Current() == Run(players, orders, i).tables
    modifies h
    ensures Run(players, orders, i + 1).schedule == Run(players, orders, i).schedule + [Entry(best)]
    ensures h.Current() == Run(players, orders, i + 1).tables
  {
    best := BestOfRound(h, players, orders[i]);
    RunStep(players, orders, i);
    h.UpdateHistory(best.team1, best.team2);
  }

  /** `generateGameAssignments(players)`. */
  method GenerateGameAssignments(players: seq<Player>, orders: seq<seq<seq<int>>>)
    returns (result: Result<seq<Assignment>, string>)
    requires DistinctIds(players) && ValidOrders(orders, |players|)
    ensures result.Failure? <==> |players| < 4
    ensures result.Failure? ==> result.error == NEED_FOUR
    ensures result.Success? ==> |players| >= 4 && result.value == Generated(players, orders)
  {
    if |players| < 4 {
      return Failure(NEED_FOUR);
    }
    var h := new HistoryTables(players);
    var schedule: seq<Assignment> := [];
    for i := 0 to ROUNDS
      invariant fresh(h)
      invariant schedule == Run(players, orders, i).schedule
      invariant h.Current() == Run(players, orders, i).tables
    {
      var bestGame := PlayRound(h, players, orders, i);
      schedule := schedule + [Assignment(bestGame, false, None)];
    }
    return Success(schedule);
  }
}
