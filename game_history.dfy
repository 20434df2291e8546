/** The partner and opponent tables of the history-based game picker:
    how they start, how a candidate game is scored against them and how a
    chosen game is written into them. */
module GameHistory {
  import opened Common

  /** A history table: `t[(a, b)]` is the JavaScript `history[a][b]`. */
  type Table = map<(int, int), int>

  /** `partnerHistory` and `opponentHistory` together. */
  datatype Tables = Tables(partner: Table, opponent: Table)

  /** Every ordered pair of two distinct ids of the roster. */
  function PairKeys(ids: seq<int>): set<(int, int)>
  {
    set a, b | a in ids && b in ids && a != b :: (a, b)
  }

  lemma PairKeysMember(ids: seq<int>, k: (int, int))
    ensures k in PairKeys(ids) <==> k.0 in ids && k.1 in ids && k.0 != k.1
  {
    if k.0 in ids && k.1 in ids && k.0 != k.1 {
      assert k == (k.0, k.1);
    }
  }

  /** A table with a zero for every pair of distinct roster ids and nothing else. */
  function Zero(ids: seq<int>): Table
  {
    map k | k in PairKeys(ids) :: 0
  }

  /** The tables as the nested loops of the initialisation leave them. */
  function Initial(ids: seq<int>): Tables
  {
    Tables(Zero(ids), Zero(ids))
  }

  /** `t[a][b]++`. Every use is on an entry that exists (see `Fits`); a missing
      entry, which JavaScript would turn into `NaN`, is left alone. */
  function Inc(t: Table, a: int, b: int): (r: Table)
    ensures r.Keys == t.Keys
  {
    if (a, b) in t then t[(a, b) := t[(a, b)] + 1] else t
  }

  /** `t[k]++` for every key of `keys`, in order. */
  function IncAll(t: Table, keys: seq<(int, int)>): (r: Table)
    ensures r.Keys == t.Keys
  {
    if keys == [] then t
    else
      var k := keys[|keys| - 1];
      Inc(IncAll(t, keys[..|keys| - 1]), k.0, k.1)
  }

  lemma IncAllSnoc(t: Table, keys: seq<(int, int)>, k: (int, int))
    ensures IncAll(t, keys + [k]) == Inc(IncAll(t, keys), k.0, k.1)
  {
    assert (keys + [k])[..|keys|] == keys;
  }

  lemma {:induction false} IncAllAppend(t: Table, xs: seq<(int, int)>, ys: seq<(int, int)>)
    ensures IncAll(t, xs + ys) == IncAll(IncAll(t, xs), ys)
  {
    if ys == [] {
      assert xs + ys == xs;
    } else {
      var init, k := ys[..|ys| - 1], ys[|ys| - 1];
      assert xs + ys == (xs + init) + [k];
      IncAllSnoc(t, xs + init, k);
      IncAllAppend(t, xs, init);
    }
  }

  /** After the increments, an entry has grown by the number of times its key occurs. */
  lemma {:induction false} IncAllAt(t: Table, keys: seq<(int, int)>, k: (int, int))
    requires k in t && forall x | x in keys :: x in t
    ensures IncAll(t, keys)[k] == t[k] + multiset(keys)[k]
  {
    if keys != [] {
      var init := keys[..|keys| - 1];
      assert forall x | x in init :: x in t;
      IncAllAt(t, init, k);
      assert keys == init + [keys[|keys| - 1]];
    }
  }

  predicate Symmetric(t: Table)
  {
    forall k | k in t :: (k.1, k.0) in t && t[k] == t[(k.1, k.0)]
  }

  predicate NonNegative(t: Table)
  {
    forall k | k in t :: t[k] >= 0
  }

  // ---------------------------------------------------------------------
  // Which entries a game reads and writes

  /** Both directions of both team pairs are in the partner table. */
  predicate PartnerFits(t: Table, t1: seq<Player>, t2: seq<Player>)
  {
    && |t1| == 2 && |t2| == 2
    && (t1[0].id, t1[1].id) in t && (t1[1].id, t1[0].id) in t
    && (t2[0].id, t2[1].id) in t && (t2[1].id, t2[0].id) in t
  }

  /** Both directions of every cross pair are in the opponent table. */
  predicate CrossFits(t: Table, t1: seq<Player>, t2: seq<Player>)
  {
    forall i, j | 0 <= i < |t1| && 0 <= j < |t2| ::
      (t1[i].id, t2[j].id) in t && (t2[j].id, t1[i].id) in t
  }

  predicate Fits(tb: Tables, g: Game)
  {
    PartnerFits(tb.partner, g.team1, g.team2) && CrossFits(tb.opponent, g.team1, g.team2)
  }

  /** A game of four distinct roster players finds all its entries in tables
      whose keys are the pairs of distinct roster ids. */
  lemma FitsOnRoster(tb: Tables, g: Game, ids: seq<int>)
    requires tb.partner.Keys == PairKeys(ids) && tb.opponent.Keys == PairKeys(ids)
    requires FourDistinct(g, ids)
    ensures Fits(tb, g)
  {
    var gi := GameIds(g);
    forall x, y | 0 <= x < 4 && 0 <= y < 4 && x != y
      ensures (gi[x], gi[y]) in PairKeys(ids)
    {
      PairKeysMember(ids, (gi[x], gi[y]));
    }
    assert (gi[0], gi[1]) in PairKeys(ids) && (gi[1], gi[0]) in PairKeys(ids);
    assert (gi[2], gi[3]) in PairKeys(ids) && (gi[3], gi[2]) in PairKeys(ids);
    forall i, j | 0 <= i < 2 && 0 <= j < 2
      ensures (g.team1[i].id, g.team2[j].id) in tb.opponent
      ensures (g.team2[j].id, g.team1[i].id) in tb.opponent
    {
      assert g.team1[i].id == gi[i] && g.team2[j].id == gi[2 + j];
      assert (gi[i], gi[2 + j]) in PairKeys(ids) && (gi[2 + j], gi[i]) in PairKeys(ids);
    }
  }

  // ---------------------------------------------------------------------
  // scoreGame

  /** The two partner entries `scoreGame` adds first. */
  function PartnerScore(t: Table, t1: seq<Player>, t2: seq<Player>): int
    requires PartnerFits(t, t1, t2)
  {
    t[(t1[0].id, t1[1].id)] + t[(t2[0].id, t2[1].id)]
  }

  /** `opponentHistory[p.id][q.id]` summed over the players `q` of `t2`. */
  function RowScore(t: Table, p: Player, t2: seq<Player>): int
    requires forall j | 0 <= j < |t2| :: (p.id, t2[j].id) in t
  {
    if t2 == [] then 0 else RowScore(t, p, t2[..|t2| - 1]) + t[(p.id, t2[|t2| - 1].id)]
  }

  /** `opponentHistory[p1.id][p2.id]` summed over every `p1` of `t1` and `p2` of `t2`. */
  function CrossScore(t: Table, t1: seq<Player>, t2: seq<Player>): int
    requires CrossFits(t, t1, t2)
  {
    if t1 == [] then 0 else CrossScore(t, t1[..|t1| - 1], t2) + RowScore(t, t1[|t1| - 1], t2)
  }

  /** What `scoreGame(team1, team2)` returns against the tables `tb`. */
  function GameScore(tb: Tables, g: Game): int
    requires Fits(tb, g)
  {
    PartnerScore(tb.partner, g.team1, g.team2) + CrossScore(tb.opponent, g.team1, g.team2)
  }

  lemma RowScoreTwo(t: Table, p: Player, t2: seq<Player>)
    requires |t2| == 2
    requires forall j | 0 <= j < |t2| :: (p.id, t2[j].id) in t
    ensures RowScore(t, p, t2) == t[(p.id, t2[0].id)] + t[(p.id, t2[1].id)]
  {
    assert t2[..1][..0] == [] && t2[..1][0] == t2[0];
    assert RowScore(t, p, t2[..1]) == t[(p.id, t2[0].id)];
  }

  /** The score of a game is its two partner counts plus its four cross opponent counts. */
  lemma ScoreFormula(tb: Tables, g: Game)
    requires Fits(tb, g)
    ensures var a, b, c, d := g.team1[0].id, g.team1[1].id, g.team2[0].id, g.team2[1].id;
      GameScore(tb, g) ==
        tb.partner[(a, b)] + tb.partner[(c, d)]
        + tb.opponent[(a, c)] + tb.opponent[(a, d)] + tb.opponent[(b, c)] + tb.opponent[(b, d)]
  {
    var t1, t2 := g.team1, g.team2;
    assert t1[..1][..0] == [] && t1[..1][0] == t1[0];
    RowScoreTwo(tb.opponent, t1[0], t2);
    RowScoreTwo(tb.opponent, t1[1], t2);
    assert CrossScore(tb.opponent, t1[..1], t2) == RowScore(tb.opponent, t1[0], t2);
  }

  /** Scoring against tables of counts never yields a negative score. */
  lemma ScoreNonNegative(tb: Tables, g: Game)
    requires Fits(tb, g)
    requires NonNegative(tb.partner) && NonNegative(tb.opponent)
    ensures GameScore(tb, g) >= 0
  {
    ScoreFormula(tb, g);
    var a, b, c, d := g.team1[0].id, g.team1[1].id, g.team2[0].id, g.team2[1].id;
    assert tb.partner[(a, b)] >= 0 && tb.partner[(c, d)] >= 0;
    assert tb.opponent[(a, c)] >= 0 && tb.opponent[(a, d)] >= 0;
    assert tb.opponent[(b, c)] >= 0 && tb.opponent[(b, d)] >= 0;
  }

  // ---------------------------------------------------------------------
  // updateHistory

  /** The four partner increments of `updateHistory`, in source order. */
  function PartnerKeys(g: Game): seq<(int, int)>
    requires |g.team1| == 2 && |g.team2| == 2
  {
    var a, b, c, d := g.team1[0].id, g.team1[1].id, g.team2[0].id, g.team2[1].id;
    [(a, b), (b, a), (c, d), (d, c)]
  }

  /** The increments of the inner `team2.forEach` for one player `p` of `team1`. */
  function RowKeys(p: Player, t2: seq<Player>): seq<(int, int)>
  {
    if t2 == [] then []
    else
      var q := t2[|t2| - 1];
      RowKeys(p, t2[..|t2| - 1]) + [(p.id, q.id), (q.id, p.id)]
  }

  /** The increments of the nested `forEach` loops of the opponent update, in loop order. */
  function CrossKeys(t1: seq<Player>, t2: seq<Player>): seq<(int, int)>
  {
    if t1 == [] then [] else CrossKeys(t1[..|t1| - 1], t2) + RowKeys(t1[|t1| - 1], t2)
  }

  /** The tables after `updateHistory(g.team1, g.team2)`. */
  function Applied(tb: Tables, g: Game): (r: Tables)
    requires Fits(tb, g)
    ensures r.partner.Keys == tb.partner.Keys && r.opponent.Keys == tb.opponent.Keys
  {
    Tables(IncAll(tb.partner, PartnerKeys(g)), IncAll(tb.opponent, CrossKeys(g.team1, g.team2)))
  }

  /** For two teams of two the opponent loops make eight increments, each cross pair both ways. */
  lemma CrossKeysTwo(t1: seq<Player>, t2: seq<Player>)
    requires |t1| == 2 && |t2| == 2
    ensures var a, b, c, d := t1[0].id, t1[1].id, t2[0].id, t2[1].id;
      CrossKeys(t1, t2) == [(a, c), (c, a), (a, d), (d, a), (b, c), (c, b), (b, d), (d, b)]
  {
    var a, b, c, d := t1[0].id, t1[1].id, t2[0].id, t2[1].id;
    assert t2[..1][..0] == [] && t2[..1][0] == t2[0];
    assert RowKeys(t1[0], t2[..1]) == [(a, c), (c, a)];
    assert RowKeys(t1[0], t2) == [(a, c), (c, a), (a, d), (d, a)];
    assert RowKeys(t1[1], t2[..1]) == [(b, c), (c, b)];
    assert RowKeys(t1[1], t2) == [(b, c), (c, b), (b, d), (d, b)];
    assert t1[..1][..0] == [] && t1[..1][0] == t1[0];
    assert CrossKeys(t1[..1], t2) == RowKeys(t1[0], t2);
  }

  lemma {:induction false} RowKeysIn(t: Table, p: Player, t2: seq<Player>)
    requires forall j | 0 <= j < |t2| :: (p.id, t2[j].id) in t && (t2[j].id, p.id) in t
    ensures forall x | x in RowKeys(p, t2) :: x in t
  {
    if t2 != [] {
      RowKeysIn(t, p, t2[..|t2| - 1]);
    }
  }

  lemma {:induction false} CrossKeysIn(t: Table, t1: seq<Player>, t2: seq<Player>)
    requires CrossFits(t, t1, t2)
    ensures forall x | x in CrossKeys(t1, t2) :: x in t
  {
    if t1 != [] {
      CrossKeysIn(t, t1[..|t1| - 1], t2);
      RowKeysIn(t, t1[|t1| - 1], t2);
    }
  }

  /** A list of increments in which each `(p, q)` comes with its `(q, p)`. */
  ghost predicate Balanced(keys: seq<(int, int)>)
  {
    forall k: (int, int) :: multiset(keys)[k] == multiset(keys)[(k.1, k.0)]
  }

  lemma {:induction false} RowKeysBalanced(p: Player, t2: seq<Player>)
    ensures Balanced(RowKeys(p, t2))
  {
    if t2 != [] {
      RowKeysBalanced(p, t2[..|t2| - 1]);
    }
  }

  lemma {:induction false} CrossKeysBalanced(t1: seq<Player>, t2: seq<Player>)
    ensures Balanced(CrossKeys(t1, t2))
  {
    if t1 != [] {
      CrossKeysBalanced(t1[..|t1| - 1], t2);
      RowKeysBalanced(t1[|t1| - 1], t2);
    }
  }

  /** `updateHistory` raises each entry by the number of its increments and leaves the rest alone. */
  lemma AppliedEffect(tb: Tables, g: Game)
    requires Fits(tb, g)
    ensures forall k | k in tb.partner ::
      Applied(tb, g).partner[k] == tb.partner[k] + multiset(PartnerKeys(g))[k]
    ensures forall k | k in tb.opponent ::
      Applied(tb, g).opponent[k] == tb.opponent[k] + multiset(CrossKeys(g.team1, g.team2))[k]
  {
    var pk, ck := PartnerKeys(g), CrossKeys(g.team1, g.team2);
    CrossKeysIn(tb.opponent, g.team1, g.team2);
    forall k | k in tb.partner ensures Applied(tb, g).partner[k] == tb.partner[k] + multiset(pk)[k] {
      IncAllAt(tb.partner, pk, k);
    }
    forall k | k in tb.opponent ensures Applied(tb, g).opponent[k] == tb.opponent[k] + multiset(ck)[k] {
      IncAllAt(tb.opponent, ck, k);
    }
  }

  /** The partner entries a game touches: both directions of both team pairs. */
  function PartnerTouched(g: Game): set<(int, int)>
    requires |g.team1| == 2 && |g.team2| == 2
  {
    var a, b, c, d := g.team1[0].id, g.team1[1].id, g.team2[0].id, g.team2[1].id;
    {(a, b), (b, a), (c, d), (d, c)}
  }

  /** The opponent entries a game touches: both directions of the four cross pairs. */
  function CrossTouched(g: Game): set<(int, int)>
    requires |g.team1| == 2 && |g.team2| == 2
  {
    var a, b, c, d := g.team1[0].id, g.team1[1].id, g.team2[0].id, g.team2[1].id;
    {(a, c), (c, a), (a, d), (d, a), (b, c), (c, b), (b, d), (d, b)}
  }

  predicate DistinctKeys(keys: seq<(int, int)>)
  {
    forall i, j | 0 <= i < j < |keys| :: keys[i] != keys[j]
  }

  /** In a list without repeats, every key occurs once or not at all. */
  lemma {:induction false} DistinctKeysCount(keys: seq<(int, int)>, k: (int, int))
    requires DistinctKeys(keys)
    ensures multiset(keys)[k] == if k in keys then 1 else 0
  {
    if keys != [] {
      var init, last := keys[..|keys| - 1], keys[|keys| - 1];
      assert keys == init + [last];
      assert DistinctKeys(init);
      DistinctKeysCount(init, k);
      assert last !in init;
    }
  }

  lemma PartnerKeysOnce(g: Game, k: (int, int))
    requires |g.team1| == 2 && |g.team2| == 2 && DistinctInts(GameIds(g))
    ensures multiset(PartnerKeys(g))[k] == if k in PartnerTouched(g) then 1 else 0
  {
    var gi := GameIds(g);
    assert gi[0] != gi[1] && gi[0] != gi[2] && gi[0] != gi[3];
    assert gi[1] != gi[2] && gi[1] != gi[3] && gi[2] != gi[3];
    DistinctKeysCount(PartnerKeys(g), k);
  }

  lemma CrossKeysOnce(g: Game, k: (int, int))
    requires |g.team1| == 2 && |g.team2| == 2 && DistinctInts(GameIds(g))
    ensures multiset(CrossKeys(g.team1, g.team2))[k] == if k in CrossTouched(g) then 1 else 0
  {
    var gi := GameIds(g);
    assert gi[0] != gi[1] && gi[0] != gi[2] && gi[0] != gi[3];
    assert gi[1] != gi[2] && gi[1] != gi[3] && gi[2] != gi[3];
    CrossKeysTwo(g.team1, g.team2);
    var a, b, c, d := gi[0], gi[1], gi[2], gi[3];
    var ck := [(a, c), (c, a), (a, d), (d, a), (b, c), (c, b), (b, d), (d, b)];
    assert DistinctKeys(ck);
    DistinctKeysCount(ck, k);
  }

  /** With four distinct players, `updateHistory` adds exactly one to each of the two
      team pairs and the four cross pairs (both directions) and changes no other entry. */
  lemma AppliedTouches(tb: Tables, g: Game)
    requires Fits(tb, g) && DistinctInts(GameIds(g))
    ensures forall k | k in tb.partner ::
      Applied(tb, g).partner[k] == tb.partner[k] + (if k in PartnerTouched(g) then 1 else 0)
    ensures forall k | k in tb.opponent ::
      Applied(tb, g).opponent[k] == tb.opponent[k] + (if k in CrossTouched(g) then 1 else 0)
  {
    AppliedEffect(tb, g);
    forall k | k in tb.partner
      ensures Applied(tb, g).partner[k] == tb.partner[k] + (if k in PartnerTouched(g) then 1 else 0)
    {
      PartnerKeysOnce(g, k);
    }
    forall k | k in tb.opponent
      ensures Applied(tb, g).opponent[k] == tb.opponent[k] + (if k in CrossTouched(g) then 1 else 0)
    {
      CrossKeysOnce(g, k);
    }
  }

  lemma BalancedAppend(xs: seq<(int, int)>, ys: seq<(int, int)>)
    requires Balanced(xs) && Balanced(ys)
    ensures Balanced(xs + ys)
  {
    forall k: (int, int) ensures multiset(xs + ys)[k] == multiset(xs + ys)[(k.1, k.0)] {
      assert multiset(xs + ys) == multiset(xs) + multiset(ys);
      assert multiset(xs)[k] == multiset(xs)[(k.1, k.0)];
      assert multiset(ys)[k] == multiset(ys)[(k.1, k.0)];
    }
  }

  lemma PartnerKeysBalanced(g: Game)
    requires |g.team1| == 2 && |g.team2| == 2
    ensures Balanced(PartnerKeys(g))
  {
    var a, b, c, d := g.team1[0].id, g.team1[1].id, g.team2[0].id, g.team2[1].id;
    assert Balanced([(a, b), (b, a)]);
    assert Balanced([(c, d), (d, c)]);
    BalancedAppend([(a, b), (b, a)], [(c, d), (d, c)]);
    assert PartnerKeys(g) == [(a, b), (b, a)] + [(c, d), (d, c)];
  }

  lemma BalancedKeepsSymmetric(t: Table, keys: seq<(int, int)>, r: Table)
    requires Symmetric(t) && Balanced(keys) && r.Keys == t.Keys
    requires forall k | k in t :: r[k] == t[k] + multiset(keys)[k]
    ensures Symmetric(r)
  {
    forall k | k in r ensures (k.1, k.0) in r && r[k] == r[(k.1, k.0)] {
      assert k in t && (k.1, k.0) in t;
      assert multiset(keys)[k] == multiset(keys)[(k.1, k.0)];
    }
  }

  /** Every `[a][b]++` is paired with `[b][a]++`, so symmetric tables stay symmetric. */
  lemma AppliedKeepsSymmetric(tb: Tables, g: Game)
    requires Fits(tb, g)
    requires Symmetric(tb.partner) && Symmetric(tb.opponent)
    ensures Symmetric(Applied(tb, g).partner) && Symmetric(Applied(tb, g).opponent)
  {
    AppliedEffect(tb, g);
    CrossKeysBalanced(g.team1, g.team2);
    PartnerKeysBalanced(g);
    var r := Applied(tb, g);
    BalancedKeepsSymmetric(tb.partner, PartnerKeys(g), r.partner);
    BalancedKeepsSymmetric(tb.opponent, CrossKeys(g.team1, g.team2), r.opponent);
  }

  /** Counts only grow, so non-negative tables stay non-negative. */
  lemma AppliedKeepsNonNegative(tb: Tables, g: Game)
    requires Fits(tb, g)
    requires NonNegative(tb.partner) && NonNegative(tb.opponent)
    ensures NonNegative(Applied(tb, g).partner) && NonNegative(Applied(tb, g).opponent)
  {
    AppliedEffect(tb, g);
  }
  // ---------------------------------------------------------------------
  // Table totals

  /** `t[(a, b)]` summed over the ids `b` of `cols` other than `a`. */
  function RowTotal(t: Table, a: int, cols: seq<int>): int
    requires forall j | 0 <= j < |cols| && cols[j] != a :: (a, cols[j]) in t
  {
    if cols == [] then 0
    else
      var b := cols[|cols| - 1];
      RowTotal(t, a, cols[..|cols| - 1]) + (if b != a then t[(a, b)] else 0)
  }

  predicate Covers(t: Table, rows: seq<int>, cols: seq<int>)
  {
    forall i, j | 0 <= i < |rows| && 0 <= j < |cols| && rows[i] != cols[j] :: (rows[i], cols[j]) in t
  }

  function RowsTotal(t: Table, rows: seq<int>, cols: seq<int>): int
    requires Covers(t, rows, cols)
  {
    if rows == [] then 0
    else RowsTotal(t, rows[..|rows| - 1], cols) + RowTotal(t, rows[|rows| - 1], cols)
  }

  /** The sum of all entries of a table over the roster ids. */
  function Total(t: Table, ids: seq<int>): int
    requires Covers(t, ids, ids)
  {
    RowsTotal(t, ids, ids)
  }

  lemma {:induction false} IncRowTotal(t: Table, x: int, y: int, a: int, cols: seq<int>)
    requires (x, y) in t && DistinctInts(cols)
    requires forall j | 0 <= j < |cols| && cols[j] != a :: (a, cols[j]) in t
    ensures RowTotal(Inc(t, x, y), a, cols) ==
      RowTotal(t, a, cols) + (if a == x && x != y && y in cols then 1 else 0)
  {
    if cols != [] {
      var init := cols[..|cols| - 1];
      assert forall j | 0 <= j < |init| && init[j] != a :: (a, init[j]) in t;
      IncRowTotal(t, x, y, a, init);
      assert y in cols <==> y in init || y == cols[|cols| - 1];
      assert y == cols[|cols| - 1] ==> y !in init;
    }
  }

  lemma {:induction false} IncRowsTotal(t: Table, x: int, y: int, rows: seq<int>, cols: seq<int>)
    requires (x, y) in t && DistinctInts(rows) && DistinctInts(cols)
    requires Covers(t, rows, cols)
    ensures RowsTotal(Inc(t, x, y), rows, cols) ==
      RowsTotal(t, rows, cols) + (if x in rows && x != y && y in cols then 1 else 0)
  {
    if rows != [] {
      var init, a := rows[..|rows| - 1], rows[|rows| - 1];
      assert Covers(t, init, cols);
      IncRowsTotal(t, x, y, init, cols);
      IncRowTotal(t, x, y, a, cols);
      assert x in rows <==> x in init || x == a;
      assert x == a ==> x !in init;
    }
  }

  /** One increment of an entry for two distinct roster ids raises the total by one. */
  lemma IncTotal(t: Table, x: int, y: int, ids: seq<int>)
    requires (x, y) in t && x in ids && y in ids && x != y
    requires DistinctInts(ids) && Covers(t, ids, ids)
    ensures Total(Inc(t, x, y), ids) == Total(t, ids) + 1
  {
    IncRowsTotal(t, x, y, ids, ids);
  }

  /** A zero table totals zero. */
  lemma {:induction false} ZeroRowsTotal(t: Table, rows: seq<int>, cols: seq<int>)
    requires Covers(t, rows, cols) && forall k | k in t :: t[k] == 0
    ensures RowsTotal(t, rows, cols) == 0
  {
    if rows != [] {
      assert Covers(t, rows[..|rows| - 1], cols);
      ZeroRowsTotal(t, rows[..|rows| - 1], cols);
      ZeroRowTotal(t, rows[|rows| - 1], cols);
    }
  }

  lemma {:induction false} ZeroRowTotal(t: Table, a: int, cols: seq<int>)
    requires forall j | 0 <= j < |cols| && cols[j] != a :: (a, cols[j]) in t
    requires forall k | k in t :: t[k] == 0
    ensures RowTotal(t, a, cols) == 0
  {
    if cols != [] {
      var init := cols[..|cols| - 1];
      assert forall j | 0 <= j < |init| && init[j] != a :: (a, init[j]) in t;
      ZeroRowTotal(t, a, init);
    }
  }

  lemma KeysCover(t: Table, ids: seq<int>)
    requires t.Keys == PairKeys(ids)
    ensures Covers(t, ids, ids)
  {
    forall i, j | 0 <= i < |ids| && 0 <= j < |ids| && ids[i] != ids[j]
      ensures (ids[i], ids[j]) in t
    {
      PairKeysMember(ids, (ids[i], ids[j]));
    }
  }

  /** Increments of entries for distinct roster ids raise the total by their number. */
  lemma {:induction false} IncAllTotal(t: Table, keys: seq<(int, int)>, ids: seq<int>)
    requires DistinctInts(ids) && Covers(t, ids, ids)
    requires forall x | x in keys :: x.0 in ids && x.1 in ids && x.0 != x.1
    ensures Covers(IncAll(t, keys), ids, ids)
    ensures Total(IncAll(t, keys), ids) == Total(t, ids) + |keys|
  {
    if keys != [] {
      var init, k := keys[..|keys| - 1], keys[|keys| - 1];
      assert forall x | x in init :: x in keys;
      IncAllTotal(t, init, ids);
      var before := IncAll(t, init);
      assert (k.0, k.1) in before by {
        var i :| 0 <= i < |ids| && ids[i] == k.0;
        var j :| 0 <= j < |ids| && ids[j] == k.1;
      }
      IncTotal(before, k.0, k.1, ids);
    }
  }

  /** Every increment of a game of four distinct roster players is on a pair of distinct roster ids. */
  lemma GameKeysOnRoster(g: Game, ids: seq<int>)
    requires FourDistinct(g, ids)
    ensures forall x | x in PartnerKeys(g) :: x.0 in ids && x.1 in ids && x.0 != x.1
    ensures forall x | x in CrossKeys(g.team1, g.team2) :: x.0 in ids && x.1 in ids && x.0 != x.1
  {
    var gi := GameIds(g);
    assert gi[0] in ids && gi[1] in ids && gi[2] in ids && gi[3] in ids;
    assert gi[0] != gi[1] && gi[0] != gi[2] && gi[0] != gi[3];
    assert gi[1] != gi[2] && gi[1] != gi[3] && gi[2] != gi[3];
    CrossKeysTwo(g.team1, g.team2);
  }

  /** `updateHistory` raises the partner total by 4 and the opponent total by 8. */
  lemma AppliedTotals(tb: Tables, g: Game, ids: seq<int>)
    requires DistinctInts(ids) && FourDistinct(g, ids)
    requires tb.partner.Keys == PairKeys(ids) && tb.opponent.Keys == PairKeys(ids)
    ensures Fits(tb, g) && Covers(tb.partner, ids, ids) && Covers(tb.opponent, ids, ids)
    ensures Total(Applied(tb, g).partner, ids) == Total(tb.partner, ids) + 4
    ensures Total(Applied(tb, g).opponent, ids) == Total(tb.opponent, ids) + 8
  {
    FitsOnRoster(tb, g, ids);
    KeysCover(tb.partner, ids);
    KeysCover(tb.opponent, ids);
    GameKeysOnRoster(g, ids);
    CrossKeysTwo(g.team1, g.team2);
    IncAllTotal(tb.partner, PartnerKeys(g), ids);
    IncAllTotal(tb.opponent, CrossKeys(g.team1, g.team2), ids);
  }

  // ---------------------------------------------------------------------
  // A whole generation run, as a function of the schedule so far

  /** The tables after `updateHistory` has been applied to every game of `s`, in order. */
  function Replay(tb: Tables, s: seq<Assignment>): (r: Tables)
    requires forall i | 0 <= i < |s| :: Fits(tb, s[i].game)
    ensures r.partner.Keys == tb.partner.Keys && r.opponent.Keys == tb.opponent.Keys
  {
    if s == [] then tb
    else
      var before := Replay(tb, s[..|s| - 1]);
      assert Fits(before, s[|s| - 1].game) by {
        assert Fits(tb, s[|s| - 1].game);
      }
      Applied(before, s[|s| - 1].game)
  }

  predicate OnRoster(s: seq<Assignment>, ids: seq<int>)
  {
    forall i | 0 <= i < |s| :: FourDistinct(s[i].game, ids)
  }

  lemma InitialFits(s: seq<Assignment>, ids: seq<int>)
    requires OnRoster(s, ids)
    ensures forall i | 0 <= i < |s| :: Fits(Initial(ids), s[i].game)
  {
    forall i | 0 <= i < |s| ensures Fits(Initial(ids), s[i].game) {
      FitsOnRoster(Initial(ids), s[i].game, ids);
    }
  }

  /** The initial tables have a zero for every pair of distinct roster ids and no self entry. */
  lemma InitialEntries(ids: seq<int>)
    ensures forall a, b :: (a, b) in Initial(ids).partner <==> a in ids && b in ids && a != b
    ensures forall a, b :: (a, b) in Initial(ids).opponent <==> a in ids && b in ids && a != b
    ensures forall k | k in Initial(ids).partner :: Initial(ids).partner[k] == 0
    ensures forall k | k in Initial(ids).opponent :: Initial(ids).opponent[k] == 0
  {
    forall a, b ensures (a, b) in PairKeys(ids) <==> a in ids && b in ids && a != b {
      PairKeysMember(ids, (a, b));
    }
  }

  /** At every point of a generation run both tables are symmetric and non-negative. */
  lemma {:induction false} ReplayInvariant(ids: seq<int>, s: seq<Assignment>)
    requires OnRoster(s, ids)
    ensures forall i | 0 <= i < |s| :: Fits(Initial(ids), s[i].game)
    ensures Symmetric(Replay(Initial(ids), s).partner) && Symmetric(Replay(Initial(ids), s).opponent)
    ensures NonNegative(Replay(Initial(ids), s).partner) && NonNegative(Replay(Initial(ids), s).opponent)
  {
    InitialFits(s, ids);
    if s == [] {
      InitialEntries(ids);
    } else {
      var init := s[..|s| - 1];
      assert OnRoster(init, ids);
      ReplayInvariant(ids, init);
      var before := Replay(Initial(ids), init);
      FitsOnRoster(before, s[|s| - 1].game, ids);
      AppliedKeepsSymmetric(before, s[|s| - 1].game);
      AppliedKeepsNonNegative(before, s[|s| - 1].game);
    }
  }

  /** Conservation: after k games the partner table totals 4k and the opponent table 8k. */
  lemma {:induction false} ReplayTotals(ids: seq<int>, s: seq<Assignment>)
    requires DistinctInts(ids) && OnRoster(s, ids)
    ensures forall i | 0 <= i < |s| :: Fits(Initial(ids), s[i].game)
    ensures Covers(Replay(Initial(ids), s).partner, ids, ids)
    ensures Covers(Replay(Initial(ids), s).opponent, ids, ids)
    ensures Total(Replay(Initial(ids), s).partner, ids) == 4 * |s|
    ensures Total(Replay(Initial(ids), s).opponent, ids) == 8 * |s|
  {
    InitialFits(s, ids);
    KeysCover(Zero(ids), ids);
    if s == [] {
      ZeroRowsTotal(Zero(ids), ids, ids);
    } else {
      var init := s[..|s| - 1];
      assert OnRoster(init, ids);
      ReplayTotals(ids, init);
      var before := Replay(Initial(ids), init);
      AppliedTotals(before, s[|s| - 1].game, ids);
      KeysCover(Replay(Initial(ids), s).partner, ids);
      KeysCover(Replay(Initial(ids), s).opponent, ids);
    }
  }

  // ---------------------------------------------------------------------
  // The two dictionaries of one generation run

  class HistoryTables {
    var partnerHistory: Table
    var opponentHistory: Table

    function Current(): Tables
      reads this
    {
      Tables(partnerHistory, opponentHistory)
    }

    /** The nested `players.forEach` loops: a zero for every ordered pair of different ids. */
    constructor (players: seq<Player>)
      ensures Current() == Initial(Ids(players))
    {
      ghost var ids := Ids(players);
      var partner: Table := map[];
      var opponent: Table := map[];
      for i := 0 to |players|
        invariant forall k :: k in partner <==> k.0 in ids[..i] && k.1 in ids && k.0 != k.1
        invariant forall k | k in partner :: partner[k] == 0
        invariant opponent == partner
      {
        for j := 0 to |players|
          invariant forall k :: k in partner <==>
            (k.0 in ids[..i] && k.1 in ids && k.0 != k.1) || (k.0 == ids[i] && k.1 in ids[..j] && k.0 != k.1)
          invariant forall k | k in partner :: partner[k] == 0
          invariant opponent == partner
        {
          if players[i].id != players[j].id {
            partner := partner[(players[i].id, players[j].id) := 0];
            opponent := opponent[(players[i].id, players[j].id) := 0];
          }
          assert ids[..j + 1] == ids[..j] + [ids[j]];
        }
        assert ids[..i + 1] == ids[..i] + [ids[i]];
        assert ids[..|players|] == ids;
      }
      assert ids[..|players|] == ids;
      forall k ensures k in partner <==> k in PairKeys(ids) {
        PairKeysMember(ids, k);
      }
      partnerHistory := partner;
      opponentHistory := opponent;
      InitialEntries(ids);
    }

    /** `scoreGame(team1, team2)`: reads the tables, changes nothing. */
    method ScoreGame(team1: seq<Player>, team2: seq<Player>) returns (score: int)
      requires Fits(Current(), Game(team1, team2))
      ensures score == GameScore(Current(), Game(team1, team2))
    {
      score := 0;
      score := score + partnerHistory[(team1[0].id, team1[1].id)];
      score := score + partnerHistory[(team2[0].id, team2[1].id)];
      for i := 0 to |team1|
        invariant score == PartnerScore(partnerHistory, team1, team2) + CrossScore(opponentHistory, team1[..i], team2)
      {
        for j := 0 to |team2|
          invariant score == PartnerScore(partnerHistory, team1, team2)
            + CrossScore(opponentHistory, team1[..i], team2) + RowScore(opponentHistory, team1[i], team2[..j])
        {
          score := score + opponentHistory[(team1[i].id, team2[j].id)];
          assert team2[..j + 1][..j] == team2[..j];
        }
        assert team2[..|team2|] == team2;
        assert team1[..i + 1][..i] == team1[..i];
      }
      assert team1[..|team1|] == team1;
    }

    /** `updateHistory(team1, team2)`. */
    method UpdateHistory(team1: seq<Player>, team2: seq<Player>)
      requires Fits(Current(), Game(team1, team2))
      modifies this
      ensures Current() == Applied(old(Current()), Game(team1, team2))
    {
      var a, b, c, d := team1[0].id, team1[1].id, team2[0].id, team2[1].id;
      ghost var p0 := partnerHistory;
      PartnerSteps(p0, team1, team2);
      partnerHistory := Bump(partnerHistory, (a, b));
      partnerHistory := Bump(partnerHistory, (b, a));
      partnerHistory := Bump(partnerHistory, (c, d));
      partnerHistory := Bump(partnerHistory, (d, c));
      ghost var start := opponentHistory;
      assert CrossFits(start, team1, team2);
      for i := 0 to |team1|
        invariant partnerHistory == IncAll(p0, PartnerKeys(Game(team1, team2)))
        invariant opponentHistory == IncAll(start, CrossKeys(team1[..i], team2))
      {
        assert RowKeys(team1[i], team2[..0]) == [];
        assert CrossKeys(team1[..i], team2) + [] == CrossKeys(team1[..i], team2);
        for j := 0 to |team2|
          invariant partnerHistory == IncAll(p0, PartnerKeys(Game(team1, team2)))
          invariant opponentHistory == IncAll(start, CrossKeys(team1[..i], team2) + RowKeys(team1[i], team2[..j]))
        {
          var p1, p2 := team1[i].id, team2[j].id;
          CrossStep(start, team1, team2, i, j);
          opponentHistory := Bump(opponentHistory, (p1, p2));
          opponentHistory := Bump(opponentHistory, (p2, p1));
        }
        RowDone(team1, team2, i);
      }
      assert team1[..|team1|] == team1;
    }
  }

  /** Bumping one present entry by one, as a JavaScript `++` on a nested dictionary does. */
  function Bump(t: Table, k: (int, int)): (r: Table)
    requires k in t
    ensures r.Keys == t.Keys && r[k] == t[k] + 1
    ensures forall k' | k' in t && k' != k :: r[k'] == t[k']
  {
    t[k := t[k] + 1]
  }

  /** On a present key, `Bump` is the increment `Inc` of the specification. */
  lemma BumpIsInc(t: Table, k: (int, int))
    requires k in t
    ensures Bump(t, k) == Inc(t, k.0, k.1)
  {
  }

  /** Two statements `t[k]++; t[k']++` on top of the increments `done`. */
  lemma BumpTwice(t: Table, done: seq<(int, int)>, k: (int, int), k': (int, int))
    requires k in t && k' in t
    ensures k in IncAll(t, done) && k' in Bump(IncAll(t, done), k)
    ensures Bump(Bump(IncAll(t, done), k), k') == IncAll(t, done + [k, k'])
  {
    BumpIsInc(IncAll(t, done), k);
    IncAllSnoc(t, done, k);
    BumpIsInc(IncAll(t, done + [k]), k');
    IncAllSnoc(t, done + [k], k');
    assert done + [k] + [k'] == done + [k, k'];
  }

  /** The four partner statements of `updateHistory` are the increments `PartnerKeys`. */
  lemma PartnerSteps(t: Table, t1: seq<Player>, t2: seq<Player>)
    requires PartnerFits(t, t1, t2)
    ensures var a, b, c, d := t1[0].id, t1[1].id, t2[0].id, t2[1].id;
      && (a, b) in t
      && (b, a) in Bump(t, (a, b))
      && (c, d) in Bump(Bump(t, (a, b)), (b, a))
      && (d, c) in Bump(Bump(Bump(t, (a, b)), (b, a)), (c, d))
      && Bump(Bump(Bump(Bump(t, (a, b)), (b, a)), (c, d)), (d, c)) == IncAll(t, PartnerKeys(Game(t1, t2)))
  {
    var a, b, c, d := t1[0].id, t1[1].id, t2[0].id, t2[1].id;
    assert IncAll(t, []) == t;
    BumpTwice(t, [], (a, b), (b, a));
    assert [] + [(a, b), (b, a)] == [(a, b), (b, a)];
    BumpTwice(t, [(a, b), (b, a)], (c, d), (d, c));
    assert [(a, b), (b, a)] + [(c, d), (d, c)] == PartnerKeys(Game(t1, t2));
  }

  /** One pass of the inner opponent loop performs the next two increments of `CrossKeys`. */
  lemma CrossStep(t: Table, t1: seq<Player>, t2: seq<Player>, i: nat, j: nat)
    requires CrossFits(t, t1, t2) && i < |t1| && j < |t2|
    ensures var p1, p2 := t1[i].id, t2[j].id;
      var r := IncAll(t, CrossKeys(t1[..i], t2) + RowKeys(t1[i], t2[..j]));
      && (p1, p2) in r
      && (p2, p1) in Bump(r, (p1, p2))
      && Bump(Bump(r, (p1, p2)), (p2, p1)) == IncAll(t, CrossKeys(t1[..i], t2) + RowKeys(t1[i], t2[..j + 1]))
  {
    var p1, p2 := t1[i].id, t2[j].id;
    var done := CrossKeys(t1[..i], t2) + RowKeys(t1[i], t2[..j]);
    assert t2[..j + 1][..j] == t2[..j];
    assert CrossKeys(t1[..i], t2) + RowKeys(t1[i], t2[..j + 1]) == done + [(p1, p2), (p2, p1)];
    BumpTwice(t, done, (p1, p2), (p2, p1));
  }

  /** The inner loop of `updateHistory` ends with one more row of `CrossKeys` done. */
  lemma RowDone(t1: seq<Player>, t2: seq<Player>, i: nat)
    requires i < |t1|
    ensures CrossKeys(t1[..i], t2) + RowKeys(t1[i], t2[..|t2|]) == CrossKeys(t1[..i + 1], t2)
  {
    assert t2[..|t2|] == t2;
    assert t1[..i + 1][..i] == t1[..i];
  }
}
