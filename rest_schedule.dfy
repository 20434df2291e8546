/** The rest-count scheduler of `utils.js`: players `1..n` are shuffled in place,
    the first four form a match, and the match is kept only while the rest counts
    stay within one of each other. The random swap indices are an oracle:
    `choices[pass][i]` is the `j` that pass `pass` of `shuffleArray` draws at `i`. */
module RestSchedule {
  import opened Common

  /** A match of `generateSchedule`: ids, not player records. */
  datatype Match = Match(team1: seq<int>, team2: seq<int>)

  /** `Math.floor(Math.random() * (i + 1))` lies in `0 .. i` for every `i`. */
  predicate ValidChoices(c: seq<int>, n: nat)
  {
    |c| == n && forall i | 0 <= i < n :: 0 <= c[i] <= i
  }

  /** `[arr[i], arr[j]] = [arr[j], arr[i]]` */
  function Swap(s: seq<int>, i: nat, j: nat): (r: seq<int>)
    requires i < |s| && j < |s|
    ensures |r| == |s| && multiset(r) == multiset(s)
  {
    var r := seq(|s|, k requires 0 <= k < |s| => if k == i then s[j] else if k == j then s[i] else s[k]);
    assert r == s[i := s[j]][j := s[i]];
    r
  }

  /** The two cells trade places and no other cell changes. */
  lemma SwapAt(s: seq<int>, i: nat, j: nat)
    requires i < |s| && j < |s|
    ensures Swap(s, i, j)[i] == s[j] && Swap(s, i, j)[j] == s[i]
    ensures forall k | 0 <= k < |s| && k != i && k != j :: Swap(s, i, j)[k] == s[k]
  {
  }

  lemma SwapDistinct(s: seq<int>, i: nat, j: nat)
    requires i < |s| && j < |s|
    ensures DistinctInts(s) ==> DistinctInts(Swap(s, i, j))
  {
    var r := Swap(s, i, j);
    SwapAt(s, i, j);
    forall a, b | DistinctInts(s) && 0 <= a < b < |r| ensures r[a] != r[b] {
      var a' := if a == i then j else if a == j then i else a;
      var b' := if b == i then j else if b == j then i else b;
      assert r[a] == s[a'] && r[b] == s[b'] && a' != b';
    }
  }

  /** The array when the loop variable of `shuffleArray` has come down to `i`:
      the passes `|s| - 1, .., i + 1` are done. */
  function Partial(s: seq<int>, c: seq<int>, i: int): (r: seq<int>)
    requires ValidChoices(c, |s|) && -1 <= i < |s|
    ensures |r| == |s|
    decreases |s| - i
  {
    if i == |s| - 1 then s else Swap(Partial(s, c, i + 1), i + 1, c[i + 1])
  }

  /** Every pass is a swap, so the passes only rearrange the entries. */
  lemma {:induction false} PartialPermutes(s: seq<int>, c: seq<int>, i: int)
    requires ValidChoices(c, |s|) && -1 <= i < |s|
    ensures multiset(Partial(s, c, i)) == multiset(s)
    ensures DistinctInts(s) ==> DistinctInts(Partial(s, c, i))
    decreases |s| - i
  {
    if i < |s| - 1 {
      PartialPermutes(s, c, i + 1);
      SwapDistinct(Partial(s, c, i + 1), i + 1, c[i + 1]);
    }
  }

  /** The loop stops at `i == 0`, or at once when the array is empty. */
  function LastPass(n: nat): int
  {
    if n == 0 then -1 else 0
  }

  /** `shuffleArray(arr)` as a function of the array's contents and the oracle. */
  function Shuffled(s: seq<int>, c: seq<int>): (r: seq<int>)
    requires ValidChoices(c, |s|)
    ensures |r| == |s| && multiset(r) == multiset(s)
    ensures DistinctInts(s) ==> DistinctInts(r)
  {
    PartialPermutes(s, c, LastPass(|s|));
    Partial(s, c, LastPass(|s|))
  }

  /** One pass of the shuffle loop: the swap at `i` leaves the array at `i - 1`. */
  lemma PartialStep(s: seq<int>, c: seq<int>, i: int, after: seq<int>)
    requires ValidChoices(c, |s|) && 0 < i < |s|
    requires var p := Partial(s, c, i);
      && |after| == |s| && after[i] == p[c[i]] && after[c[i]] == p[i]
      && (forall k | 0 <= k < |s| && k != i && k != c[i] :: after[k] == p[k])
    ensures after == Partial(s, c, i - 1)
  {
    SwapAt(Partial(s, c, i), i, c[i]);
  }

  /** `shuffleArray`: Fisher-Yates from the last cell down to cell 1. */
  method ShuffleArray(arr: array<int>, c: seq<int>)
    requires ValidChoices(c, arr.Length)
    modifies arr
    ensures arr[..] == Shuffled(old(arr[..]), c)
  {
    ghost var start := arr[..];
    var i := arr.Length - 1;
    while i > 0
      invariant LastPass(arr.Length) <= i < arr.Length
      invariant arr[..] == Partial(start, c, i)
      decreases i
    {
      var j := c[i];
      var tmp := arr[i];
      arr[i] := arr[j];
      arr[j] := tmp;
      PartialStep(start, c, i, arr[..]);
      i := i - 1;
    }
  }

  /** `Math.max(...s)` of a non-empty array. */
  function MaxOf(s: seq<int>): (m: int)
    requires s != []
    ensures forall k | 0 <= k < |s| :: s[k] <= m
    ensures exists k | 0 <= k < |s| :: s[k] == m
  {
    if |s| == 1 then s[0]
    else
      var m' := MaxOf(s[..|s| - 1]);
      assert forall k | 0 <= k < |s| - 1 :: s[..|s| - 1][k] == s[k];
      if s[|s| - 1] > m' then s[|s| - 1] else m'
  }

  /** `Math.min(...s)` of a non-empty array. */
  function MinOf(s: seq<int>): (m: int)
    requires s != []
    ensures forall k | 0 <= k < |s| :: m <= s[k]
    ensures exists k | 0 <= k < |s| :: s[k] == m
  {
    if |s| == 1 then s[0]
    else
      var m' := MinOf(s[..|s| - 1]);
      assert forall k | 0 <= k < |s| - 1 :: s[..|s| - 1][k] == s[k];
      if s[|s| - 1] < m' then s[|s| - 1] else m'
  }

  /** `hasFairRest(team1, team2, restCounts)`: the teams are not looked at. On an
      empty array `Math.max()` is minus infinity and `Math.min()` plus infinity, so
      the difference is below 1 and the answer is `true`. */
  function HasFairRest(team1: seq<int>, team2: seq<int>, restCounts: seq<int>): (fair: bool)
  {
    restCounts == [] || MaxOf(restCounts) - MinOf(restCounts) <= 1
  }

  /** The check passes exactly when no two rest counts are more than 1 apart. */
  lemma FairRestSpec(team1: seq<int>, team2: seq<int>, restCounts: seq<int>)
    ensures HasFairRest(team1, team2, restCounts)
        <==> forall i, j | 0 <= i < |restCounts| && 0 <= j < |restCounts| :: restCounts[i] - restCounts[j] <= 1
  {
  }

  /** The ids of a match are indices `id - 1` of the rest counts. */
  predicate InRange(ps: seq<int>, n: nat)
  {
    forall k | 0 <= k < |ps| :: 1 <= ps[k] <= n
  }

  /** The first loop of `updateRestCounts`: `restCounts[player - 1] = 0` in turn. */
  function Reset(rc: seq<int>, ps: seq<int>): (r: seq<int>)
    requires InRange(ps, |rc|)
    ensures |r| == |rc|
    ensures forall i | 0 <= i < |rc| :: r[i] == if (i + 1) in ps then 0 else rc[i]
  {
    if ps == [] then rc
    else
      var init := ps[..|ps| - 1];
      assert forall x :: x in ps <==> x in init || x == ps[|ps| - 1];
      Reset(rc, init)[ps[|ps| - 1] - 1 := 0]
  }

  /** `updateRestCounts`: the reset of the four match players, then one more round
      of rest for everybody not in the match. */
  function Rested(team1: seq<int>, team2: seq<int>, rc: seq<int>): (r: seq<int>)
    requires InRange(team1 + team2, |rc|)
    ensures |r| == |rc|
    ensures forall i | 0 <= i < |rc| :: r[i] == if (i + 1) in team1 || (i + 1) in team2 then 0 else rc[i] + 1
  {
    var z := Reset(rc, team1 + team2);
    seq(|rc|, i requires 0 <= i < |rc| => if (i + 1) in team1 || (i + 1) in team2 then z[i] else z[i] + 1)
  }

  /** `updateRestCounts(team1, team2, restCounts)` on the array in place. */
  method UpdateRestCounts(team1: seq<int>, team2: seq<int>, restCounts: array<int>)
    requires InRange(team1 + team2, restCounts.Length)
    modifies restCounts
    ensures restCounts[..] == Rested(team1, team2, old(restCounts[..]))
  {
    ghost var start := restCounts[..];
    var players := team1 + team2;
    for k := 0 to |players|
      invariant restCounts[..] == Reset(start, players[..k])
    {
      assert players[..k + 1][..k] == players[..k];
      restCounts[players[k] - 1] := 0;
    }
    assert players[..|players|] == players;
    ghost var reset := restCounts[..];
    for i := 0 to restCounts.Length
      invariant forall k | 0 <= k < i :: restCounts[k] == Rested(team1, team2, start)[k]
      invariant forall k | i <= k < restCounts.Length :: restCounts[k] == reset[k]
    {
      if !((i + 1) in team1) && !((i + 1) in team2) {
        restCounts[i] := restCounts[i] + 1;
      }
    }
  }

  /** The state of `generateSchedule` between passes of its `while` loop. */
  datatype Gen = Gen(players: seq<int>, schedule: seq<Match>, restCounts: seq<int>)

  /** The loop's end: the state, and whether `schedule.length < numPlayers` became false
      before the oracle ran out. */
  datatype Outcome = Outcome(final: Gen, exited: bool)

  /** `Array.from({ length: n }, (_, i) => i + 1)` */
  function Range(n: nat): (r: seq<int>)
    ensures |r| == n && forall i | 0 <= i < n :: r[i] == i + 1
  {
    seq(n, i requires 0 <= i < n => i + 1)
  }

  function Zeros(n: nat): (r: seq<int>)
    ensures |r| == n && forall i | 0 <= i < n :: r[i] == 0
  {
    seq(n, i requires 0 <= i < n => 0)
  }

  function Start(n: nat): Gen
  {
    Gen(Range(n), [], Zeros(n))
  }

  /** Four distinct ids of `1..n`, two against two. */
  predicate MatchOk(m: Match, n: nat)
  {
    && |m.team1| == 2 && |m.team2| == 2
    && DistinctInts(m.team1 + m.team2) && InRange(m.team1 + m.team2, n)
  }

  /** `team1 = [players[0], players[1]]`, `team2 = [players[2], players[3]]` */
  function FirstFour(p: seq<int>): (m: Match)
    requires |p| >= 4
    ensures m.team1 == [p[0], p[1]] && m.team2 == [p[2], p[3]]
    ensures m.team1 + m.team2 == p[..4]
  {
    Match([p[0], p[1]], [p[2], p[3]])
  }

  /** What every pass keeps: `players` is an arrangement of `1..n`, one rest count
      per player, and every match so far is four distinct players. */
  predicate Good(n: nat, g: Gen)
  {
    && |g.players| == n && multiset(g.players) == multiset(Range(n))
    && DistinctInts(g.players) && InRange(g.players, n)
    && |g.restCounts| == n
    && (forall k | 0 <= k < |g.schedule| :: MatchOk(g.schedule[k], n))
  }

  lemma StartGood(n: nat)
    ensures Good(n, Start(n))
  {
  }

  /** The entries of an arrangement of `1..n` lie in `1..n`. */
  lemma ArrangementInRange(n: nat, p: seq<int>)
    requires multiset(p) == multiset(Range(n))
    ensures InRange(p, n)
  {
    forall k | 0 <= k < |p| ensures 1 <= p[k] <= n {
      assert p[k] in multiset(p);
      assert p[k] in multiset(Range(n));
      var i :| 0 <= i < n && Range(n)[i] == p[k];
    }
  }

  /** A shuffle pass keeps the players an arrangement of `1..n`. */
  lemma ShuffledGood(n: nat, g: Gen, c: seq<int>)
    requires Good(n, g) && ValidChoices(c, n)
    ensures Good(n, g.(players := Shuffled(g.players, c)))
  {
    ArrangementInRange(n, Shuffled(g.players, c));
  }

  /** The first four entries of an arrangement of `1..n` make a valid match. */
  lemma FirstFourOk(n: nat, p: seq<int>)
    requires n >= 4 && |p| == n && DistinctInts(p) && InRange(p, n)
    ensures MatchOk(FirstFour(p), n)
  {
  }

  /** One pass of the `while` loop: shuffle, take the first four, and keep the match
      only when the rest counts before it are fair. */
  function Step(n: nat, g: Gen, c: seq<int>): (r: Gen)
    requires n >= 4 && Good(n, g) && ValidChoices(c, n)
    ensures Good(n, r)
    ensures r.players == Shuffled(g.players, c)
    ensures var m := FirstFour(r.players);
      if HasFairRest(m.team1, m.team2, g.restCounts) then
        r.schedule == g.schedule + [m] && r.restCounts == Rested(m.team1, m.team2, g.restCounts)
      else
        r.schedule == g.schedule && r.restCounts == g.restCounts
  {
    var p := Shuffled(g.players, c);
    ShuffledGood(n, g, c);
    var m := FirstFour(p);
    FirstFourOk(n, p);
    if HasFairRest(m.team1, m.team2, g.restCounts) then
      var s := g.schedule + [m];
      assert forall k | 0 <= k < |g.schedule| :: s[k] == g.schedule[k];
      Gen(p, s, Rested(m.team1, m.team2, g.restCounts))
    else
      Gen(p, g.schedule, g.restCounts)
  }

  predicate AllValid(cs: seq<seq<int>>, n: nat)
  {
    forall k | 0 <= k < |cs| :: ValidChoices(cs[k], n)
  }

  /** The `while (schedule.length < numPlayers)` loop, one pass per oracle entry;
      when the oracle runs out first, the loop has not exited. */
  function Loop(n: nat, g: Gen, cs: seq<seq<int>>): (o: Outcome)
    requires (n == 0 || n >= 4) && Good(n, g) && |g.schedule| <= n && AllValid(cs, n)
    ensures Good(n, o.final) && |o.final.schedule| <= n
    ensures g.schedule <= o.final.schedule
    ensures o.exited <==> |o.final.schedule| == n
    decreases |cs|
  {
    if |g.schedule| >= n then Outcome(g, true)
    else if cs == [] then Outcome(g, false)
    else
      var g' := Step(n, g, cs[0]);
      var o := Loop(n, g', cs[1..]);
      assert g.schedule <= g'.schedule;
      o
  }

  /** The body of the `while` loop of `generateSchedule` on the two arrays. */
  method Pass(n: nat, players: array<int>, restCounts: array<int>, schedule: seq<Match>, c: seq<int>)
    returns (schedule': seq<Match>)
    requires players != restCounts && n >= 4 && ValidChoices(c, n)
    requires Good(n, Gen(players[..], schedule, restCounts[..]))
    modifies players, restCounts
    ensures Gen(players[..], schedule', restCounts[..]) == Step(n, old(Gen(players[..], schedule, restCounts[..])), c)
  {
    ghost var g := Gen(players[..], schedule, restCounts[..]);
    ShuffleArray(players, c);
    ShuffledGood(n, g, c);
    var team1 := [players[0], players[1]];
    var team2 := [players[2], players[3]];
    assert Match(team1, team2) == FirstFour(players[..]);
    schedule' := schedule;
    if HasFairRest(team1, team2, restCounts[..]) {
      schedule' := schedule' + [Match(team1, team2)];
      UpdateRestCounts(team1, team2, restCounts);
    }
  }

  /** `generateSchedule(numPlayers)`, the two arrays updated in place by the helpers. */
  method GenerateSchedule(numPlayers: nat, choices: seq<seq<int>>) returns (schedule: seq<Match>, exited: bool)
    requires numPlayers == 0 || numPlayers >= 4
    requires AllValid(choices, numPlayers)
    ensures schedule == Loop(numPlayers, Start(numPlayers), choices).final.schedule
    ensures exited == Loop(numPlayers, Start(numPlayers), choices).exited
  {
    var players := new int[numPlayers](i => i + 1);
    schedule := [];
    var restCounts := new int[numPlayers](_ => 0);
    assert players[..] == Range(numPlayers);
    assert restCounts[..] == Zeros(numPlayers);
    var pass := 0;
    while pass < |choices| && |schedule| < numPlayers
      invariant 0 <= pass <= |choices|
      invariant Good(numPlayers, Gen(players[..], schedule, restCounts[..])) && |schedule| <= numPlayers
      invariant Loop(numPlayers, Gen(players[..], schedule, restCounts[..]), choices[pass..])
             == Loop(numPlayers, Start(numPlayers), choices)
      decreases |choices| - pass
    {
      assert choices[pass..][1..] == choices[pass + 1..];
      schedule := Pass(numPlayers, players, restCounts, schedule, choices[pass]);
      pass := pass + 1;
    }
    exited := |schedule| >= numPlayers;
  }

  /** Once the counts are unfair, no pass changes the schedule or the counts again:
      the JavaScript loop then never ends. */
  lemma {:induction false} StuckForever(n: nat, g: Gen, cs: seq<seq<int>>)
    requires (n == 0 || n >= 4) && Good(n, g) && |g.schedule| < n && AllValid(cs, n)
    requires !HasFairRest([], [], g.restCounts)
    decreases |cs|
    ensures Loop(n, g, cs).final.schedule == g.schedule
    ensures Loop(n, g, cs).final.restCounts == g.restCounts
    ensures !Loop(n, g, cs).exited
  {
    if cs != [] {
      StuckForever(n, Step(n, g, cs[0]), cs[1..]);
    }
  }

  /** Counts within `lo .. lo + 1` are fair. */
  lemma FairWithin(rc: seq<int>, lo: int)
    requires forall i | 0 <= i < |rc| :: lo <= rc[i] <= lo + 1
    ensures HasFairRest([], [], rc)
  {
    FairRestSpec([], [], rc);
  }

  /** With four players (`n == 4`) the first four are everybody, so nobody rests. */
  lemma AllPlay(n: nat, p: seq<int>)
    requires n == 4 && |p| == n && multiset(p) == multiset(Range(n)) && InRange(p, n)
    ensures InRange(FirstFour(p).team1 + FirstFour(p).team2, n)
    ensures Rested(FirstFour(p).team1, FirstFour(p).team2, Zeros(n)) == Zeros(n)
  {
    var m := FirstFour(p);
    assert p[..4] == p;
    var r := Rested(m.team1, m.team2, Zeros(n));
    forall i | 0 <= i < n ensures r[i] == 0 {
      assert Range(n)[i] in multiset(Range(n));
      assert i + 1 in multiset(p);
      assert i + 1 in m.team1 + m.team2;
    }
  }

  /** With four players (`n == 4`) every pass plays everybody: the counts stay all zero. */
  lemma FourPlayersStep(n: nat, g: Gen, c: seq<int>)
    requires n == 4 && Good(n, g) && ValidChoices(c, n) && g.restCounts == Zeros(n)
    ensures Step(n, g, c).schedule == g.schedule + [FirstFour(Step(n, g, c).players)]
    ensures Step(n, g, c).restCounts == Zeros(n)
  {
    ShuffledGood(n, g, c);
    FairWithin(g.restCounts, 0);
    AllPlay(n, Shuffled(g.players, c));
  }

  /** With four players (`n == 4`) the loop exits after exactly four passes. */
  lemma {:induction false} FourPlayersExit(n: nat, g: Gen, cs: seq<seq<int>>)
    requires n == 4 && Good(n, g) && g.restCounts == Zeros(n) && |g.schedule| <= n && AllValid(cs, n)
    requires |cs| >= n - |g.schedule|
    ensures Loop(n, g, cs).exited && |Loop(n, g, cs).final.schedule| == n
    decreases |cs|
  {
    if |g.schedule| < n {
      FourPlayersStep(n, g, cs[0]);
      FourPlayersExit(n, Step(n, g, cs[0]), cs[1..]);
    }
  }

  /** The choices that leave every cell where it is (`j == i` in every pass). */
  function Identity(n: nat): (c: seq<int>)
    ensures ValidChoices(c, n)
  {
    seq(n, i requires 0 <= i < n => i)
  }

  lemma {:induction false} PartialIdentity(s: seq<int>, i: int)
    requires -1 <= i < |s|
    ensures Partial(s, Identity(|s|), i) == s
    decreases |s| - i
  {
    if i < |s| - 1 {
      PartialIdentity(s, i + 1);
      SwapAt(s, i + 1, i + 1);
      assert Swap(s, i + 1, i + 1) == s;
    }
  }

  /** A pass with the identity shuffle leaves the players where they are. */
  lemma IdentityKeeps(n: nat, g: Gen)
    requires n >= 4 && Good(n, g)
    ensures Step(n, g, Identity(n)).players == g.players
  {
    PartialIdentity(g.players, LastPass(n));
  }

  /** Players 1 to 4 play, player 5 sits out once more. */
  lemma FifthRests(m: Match, k: int)
    requires m == Match([1, 2], [3, 4])
    ensures Rested(m.team1, m.team2, [0, 0, 0, 0, k]) == [0, 0, 0, 0, k + 1]
  {
    assert 1 in m.team1 && 2 in m.team1 && 3 in m.team2 && 4 in m.team2;
    assert !(5 in m.team1) && !(5 in m.team2);
  }

  /** Five players (`n == 5`) in roster order, counts `[0, 0, 0, 0, k]` with `k <= 1`,
      identity shuffle: the match 1,2 against 3,4 is kept and player 5 rests once more. */
  lemma FivePlayersPass(n: nat, g: Gen, k: int)
    requires n == 5 && Good(n, g) && g.players == Range(n)
    requires 0 <= k <= 1 && g.restCounts == [0, 0, 0, 0, k]
    ensures Step(n, g, Identity(n))
         == g.(schedule := g.schedule + [Match([1, 2], [3, 4])], restCounts := [0, 0, 0, 0, k + 1])
  {
    IdentityKeeps(n, g);
    var m := FirstFour(g.players);
    FairWithin(g.restCounts, 0);
    FifthRests(m, k);
  }

  /** One pass of the five-player run inside the loop: the match 1,2 against 3,4 is
      appended (`sched'`) and player 5's count goes up (`rc'`). */
  lemma FiveLoopStep(n: nat, g: Gen, k: int, cs: seq<seq<int>>, sched': seq<Match>, rc': seq<int>)
    requires n == 5 && Good(n, g) && g.players == Range(n) && |g.schedule| < n
    requires 0 <= k <= 1 && g.restCounts == [0, 0, 0, 0, k]
    requires AllValid(cs, n) && cs != [] && cs[0] == Identity(n)
    requires sched' == g.schedule + [Match([1, 2], [3, 4])] && rc' == [0, 0, 0, 0, k + 1]
    ensures Good(n, Gen(Range(n), sched', rc'))
    ensures Loop(n, g, cs) == Loop(n, Gen(Range(n), sched', rc'), cs[1..])
  {
    FivePlayersPass(n, g, k);
  }

  /** The first two passes of the five-player run. */
  lemma FiveTwoPasses(n: nat, cs: seq<seq<int>>)
    requires n == 5 && AllValid(cs, n) && |cs| >= 2
    requires cs[0] == Identity(n) && cs[1] == Identity(n)
    ensures Good(n, Gen(Range(n), [Match([1, 2], [3, 4]), Match([1, 2], [3, 4])], [0, 0, 0, 0, 2]))
    ensures Loop(n, Start(n), cs)
         == Loop(n, Gen(Range(n), [Match([1, 2], [3, 4]), Match([1, 2], [3, 4])], [0, 0, 0, 0, 2]), cs[2..])
  {
    var m := Match([1, 2], [3, 4]);
    StartGood(n);
    var g0 := Gen(Range(n), [], [0, 0, 0, 0, 0]);
    assert Start(n) == g0;
    FiveLoopStep(n, g0, 0, cs, [m], [0, 0, 0, 0, 1]);
    assert cs[1..][0] == cs[1];
    FiveLoopStep(n, Gen(Range(n), [m], [0, 0, 0, 0, 1]), 1, cs[1..], [m, m], [0, 0, 0, 0, 2]);
    assert cs[1..][1..] == cs[2..];
  }

  /** An oracle of identity shuffles is valid, and so is every suffix of it. */
  lemma AllIdentity(n: nat, cs: seq<seq<int>>, d: nat)
    requires d <= |cs| && forall k | 0 <= k < |cs| :: cs[k] == Identity(n)
    ensures AllValid(cs[d..], n)
    ensures forall k | 0 <= k < |cs| - d :: cs[d..][k] == Identity(n)
  {
    forall k | 0 <= k < |cs| - d ensures ValidChoices(cs[d..][k], n) {
      assert cs[d..][k] == cs[d + k];
    }
  }

  /** Five players (`n == 5`) and a shuffle that never moves anybody: player 5 rests
      twice, the counts spread to 2 after two matches, and the loop never appends again. */
  lemma FivePlayersStuck(n: nat, cs: seq<seq<int>>)
    requires n == 5 && |cs| >= 2 && forall k | 0 <= k < |cs| :: cs[k] == Identity(n)
    ensures AllValid(cs, n)
    ensures Loop(n, Start(n), cs).final.schedule == [Match([1, 2], [3, 4]), Match([1, 2], [3, 4])]
    ensures !Loop(n, Start(n), cs).exited
  {
    AllIdentity(n, cs, 0);
    assert cs[0..] == cs;
    AllIdentity(n, cs, 2);
    FiveTwoPasses(n, cs);
    var rc := [0, 0, 0, 0, 2];
    assert rc[4] - rc[0] > 1;
    FairRestSpec([], [], rc);
    StuckForever(n, Gen(Range(n), [Match([1, 2], [3, 4]), Match([1, 2], [3, 4])], rc), cs[2..]);
  }
}
