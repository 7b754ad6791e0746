/** The rating rules of the match service, as functions on the player table
    and the ledger: the K-factor table, the point change, what finalizing a
    match does to the ratings and the ledger, and what reverting it does. */
module Rating {
  import opened Wrappers
  import opened Database

  /** The player table, keyed by id. */
  type Players = map<int, Player>

  /** K-factor by match mode: 1, 1, 5, 10, 20 for modes 1 to 5, else 10. */
  function KFactor(mode: int): (k: int)
    ensures 1 <= k <= 20
  {
    if mode == 1 then 1
    else if mode == 2 then 1
    else if mode == 3 then 5
    else if mode == 4 then 10
    else if mode == 5 then 20
    else 10
  }

  /** Larger teams never have a smaller K-factor. */
  lemma KFactorGrowsWithMode(m1: int, m2: int)
    requires ValidMode(m1) && ValidMode(m2) && m1 <= m2
    ensures KFactor(m1) <= KFactor(m2)
  {
  }

  /** Rounding to the nearest integer, ties to the even neighbour. */
  function RoundHalfEven(x: real): (r: int)
    ensures (r as real) - 0.5 <= x <= (r as real) + 0.5
    ensures (x == (r as real) - 0.5 || x == (r as real) + 0.5) ==> r % 2 == 0
  {
    var f := x.Floor;
    var d := x - f as real;
    if d < 0.5 then f
    else if d > 0.5 then f + 1
    else if f % 2 == 0 then f else f + 1
  }

  /** The two properties of RoundHalfEven determine it. */
  lemma RoundHalfEvenUnique(x: real, n: int)
    requires (n as real) - 0.5 <= x <= (n as real) + 0.5
    requires (x == (n as real) - 0.5 || x == (n as real) + 0.5) ==> n % 2 == 0
    ensures n == RoundHalfEven(x)
  {
  }

  /** Points every player of a match gains or loses, for a K-factor `k` and the
      losing chance `lossChance` (one minus the winners' expected win
      probability): the rounded product, at least 1. */
  function PointChange(k: int, lossChance: real): (pc: int)
    requires 1 <= k && 0.0 <= lossChance <= 1.0
    ensures 1 <= pc <= k
  {
    var x := (k as real) * lossChance;
    ScaledAtMost(k as real, lossChance);
    var r := RoundHalfEven(x);
    assert (r as real) < (k + 1) as real;
    if r < 1 then 1 else r
  }

  lemma ScaledAtMost(a: real, q: real)
    requires 0.0 <= a && 0.0 <= q <= 1.0
    ensures a * q <= a
  {
    assert a * (1.0 - q) >= 0.0;
  }

  /** Modes 1 and 2 always move exactly one point; no mode moves more than 20. */
  lemma PointChangeByMode(mode: int, lossChance: real)
    requires 0.0 <= lossChance <= 1.0
    ensures (mode == 1 || mode == 2) ==> PointChange(KFactor(mode), lossChance) == 1
    ensures PointChange(KFactor(mode), lossChance) <= 20
  {
  }

  /** Equal team ratings in mode 5: half of K = 20. */
  lemma PointChangeEvenMatchMode5()
    ensures PointChange(KFactor(5), 0.5) == 10
  {
  }

  /** Equal team ratings in mode 3: 2.5 rounds to the even 2. */
  lemma PointChangeEvenMatchMode3()
    ensures PointChange(KFactor(3), 0.5) == 2
  {
    assert (5.0 * 0.5).Floor == 2;
  }

  /** Every id is a key of the table. */
  predicate AllIn(ids: seq<int>, P: Players)
  {
    forall i :: 0 <= i < |ids| ==> ids[i] in P
  }

  /** `d` added up `c` times. */
  function Times(c: nat, d: int): int
  {
    if c == 0 then 0 else d + Times(c - 1, d)
  }

  lemma {:induction false} TimesNeg(c: nat, d: int)
    ensures Times(c, -d) == -Times(c, d)
  {
    if c > 0 {
      TimesNeg(c - 1, d);
    }
  }

  /** `delta` added, in order, to each player of `ids`, with one ledger row per
      player for match `mid`: what one roster loop of finalize does. */
  function Credit(P: Players, ids: seq<int>, mid: int, delta: int): (r: (Players, seq<EloEntry>))
    requires AllIn(ids, P)
    ensures r.0.Keys == P.Keys && |r.1| == |ids|
    decreases |ids|
  {
    if ids == [] then (P, [])
    else
      var prev := Credit(P, ids[..|ids| - 1], mid, delta);
      var x := ids[|ids| - 1];
      var before := prev.0[x].points;
      (prev.0[x := prev.0[x].(points := before + delta)],
       prev.1 + [NewEloEntry(x, Some(mid), before, before + delta, Some(delta))])
  }

  /** Each player's rating moves by `delta` once per occurrence in `ids`;
      nothing else about the player changes. */
  lemma {:induction false} CreditPointsAt(P: Players, ids: seq<int>, mid: int, delta: int, x: int)
    requires AllIn(ids, P) && x in P
    ensures Credit(P, ids, mid, delta).0[x] == P[x].(points := P[x].points + Times(multiset(ids)[x], delta))
    decreases |ids|
  {
    if ids != [] {
      var init := ids[..|ids| - 1];
      var y := ids[|ids| - 1];
      assert ids == init + [y];
      CreditPointsAt(P, init, mid, delta, x);
      var c := multiset(init)[x];
      assert multiset(ids)[x] == c + (if x == y then 1 else 0);
      if x == y {
        assert Times(c + 1, delta) == delta + Times(c, delta);
      }
    }
  }

  /** The k-th row of a roster loop is for the k-th player, not reverted, for
      match `mid`, carries `delta`, and records the rating the player had
      after the earlier occurrences of that player. */
  lemma {:induction false} CreditEntryAt(P: Players, ids: seq<int>, mid: int, delta: int, k: int)
    requires AllIn(ids, P) && 0 <= k < |ids|
    ensures var before := P[ids[k]].points + Times(multiset(ids[..k])[ids[k]], delta);
      Credit(P, ids, mid, delta).1[k] == EloEntry(ids[k], Some(mid), false, before, before + delta, Some(delta))
    decreases |ids|
  {
    var init := ids[..|ids| - 1];
    var prev := Credit(P, init, mid, delta);
    assert Credit(P, ids, mid, delta).1 == prev.1 + [Credit(P, ids, mid, delta).1[|ids| - 1]];
    if k < |ids| - 1 {
      assert ids[..k] == init[..k];
      CreditEntryAt(P, init, mid, delta, k);
    } else {
      assert ids[..k] == init;
      CreditPointsAt(P, init, mid, delta, ids[k]);
    }
  }

  /** In a sequence without repeats an id occurs once or not at all. */
  lemma {:induction false} DistinctCount(xs: seq<int>, x: int)
    requires Distinct(xs)
    ensures multiset(xs)[x] == if x in xs then 1 else 0
  {
    if xs != [] {
      var t := xs[1..];
      assert xs == [xs[0]] + t;
      assert Distinct(t);
      DistinctCount(t, x);
      assert xs[0] !in t;
    }
  }

  /** A ledger row that a revert of match `mid` still has to undo. */
  predicate Open(e: EloEntry, mid: int)
  {
    e.matchId == Some(mid) && !e.isReverted
  }

  /** The stored change of a row, 0 when the column is null. */
  function ChangeOf(e: EloEntry): int
  {
    if e.change.Some? then e.change.value else 0
  }

  /** What revert demands of the ledger: every open row of the match whose
      player exists has a change to subtract (subtracting null fails). */
  predicate Revertible(P: Players, E: seq<EloEntry>, mid: int)
  {
    forall i :: 0 <= i < |E| && Open(E[i], mid) && E[i].playerId in P ==> E[i].change.Some?
  }

  /** Every open row of match `mid`, in ledger order, whose player exists:
      its change subtracted from the player's current rating and the row
      marked reverted.  Rows of other matches, reverted rows and rows whose
      player is missing stay as they are. */
  function RevertAll(P: Players, E: seq<EloEntry>, mid: int): (r: (Players, seq<EloEntry>))
    ensures r.0.Keys == P.Keys && |r.1| == |E|
    decreases |E|
  {
    if E == [] then (P, [])
    else
      var prev := RevertAll(P, E[..|E| - 1], mid);
      var e := E[|E| - 1];
      if Open(e, mid) && e.playerId in prev.0 then
        (prev.0[e.playerId := prev.0[e.playerId].(points := prev.0[e.playerId].points - ChangeOf(e))],
         prev.1 + [e.(isReverted := true)])
      else
        (prev.0, prev.1 + [e])
  }

  /** The sum of the changes of the open rows of match `mid` for player `x`. */
  function OpenChange(E: seq<EloEntry>, mid: int, x: int): int
    decreases |E|
  {
    if E == [] then 0
    else
      var e := E[|E| - 1];
      OpenChange(E[..|E| - 1], mid, x) + (if Open(e, mid) && e.playerId == x then ChangeOf(e) else 0)
  }

  lemma {:induction false} OpenChangeAppend(A: seq<EloEntry>, B: seq<EloEntry>, mid: int, x: int)
    ensures OpenChange(A + B, mid, x) == OpenChange(A, mid, x) + OpenChange(B, mid, x)
    decreases |B|
  {
    if B == [] {
      assert A + B == A;
    } else {
      var b0 := B[..|B| - 1];
      assert (A + B)[..|A + B| - 1] == A + b0;
      OpenChangeAppend(A, b0, mid, x);
    }
  }

  /** A player without open rows for the match has nothing to undo. */
  lemma {:induction false} OpenChangeNone(E: seq<EloEntry>, mid: int, x: int)
    requires forall i :: 0 <= i < |E| && Open(E[i], mid) ==> E[i].playerId != x
    ensures OpenChange(E, mid, x) == 0
    decreases |E|
  {
    if E != [] {
      OpenChangeNone(E[..|E| - 1], mid, x);
    }
  }

  /** The rows a roster loop writes undo exactly the points it moved. */
  lemma {:induction false} OpenChangeOfCredit(P: Players, ids: seq<int>, mid: int, delta: int, x: int)
    requires AllIn(ids, P)
    ensures OpenChange(Credit(P, ids, mid, delta).1, mid, x) == Times(multiset(ids)[x], delta)
    decreases |ids|
  {
    if ids != [] {
      var init := ids[..|ids| - 1];
      var y := ids[|ids| - 1];
      assert ids == init + [y];
      var E := Credit(P, ids, mid, delta).1;
      assert E[..|E| - 1] == Credit(P, init, mid, delta).1;
      OpenChangeOfCredit(P, init, mid, delta, x);
      assert multiset(ids)[x] == multiset(init)[x] + (if x == y then 1 else 0);
      if x == y {
        assert Times(multiset(ids)[x], delta) == Times(multiset(init)[x], delta) + delta;
      }
    }
  }

  /** Reverting subtracts, from each player's rating, the changes of the
      player's open rows of the match. */
  lemma {:induction false} RevertPointsAt(P: Players, E: seq<EloEntry>, mid: int, x: int)
    requires x in P
    ensures RevertAll(P, E, mid).0[x] == P[x].(points := P[x].points - OpenChange(E, mid, x))
    decreases |E|
  {
    if E != [] {
      RevertPointsAt(P, E[..|E| - 1], mid, x);
    }
  }

  /** Reverting marks exactly the open rows of the match whose player exists. */
  lemma {:induction false} RevertLedgerAt(P: Players, E: seq<EloEntry>, mid: int, i: int)
    requires 0 <= i < |E|
    ensures RevertAll(P, E, mid).1[i] == if Open(E[i], mid) && E[i].playerId in P then E[i].(isReverted := true) else E[i]
    decreases |E|
  {
    var prev := RevertAll(P, E[..|E| - 1], mid);
    if i < |E| - 1 {
      RevertLedgerAt(P, E[..|E| - 1], mid, i);
    }
  }

  /** After a revert no row of the match whose player exists is still open. */
  lemma RevertClosesAll(P: Players, E: seq<EloEntry>, mid: int, i: int)
    requires 0 <= i < |E|
    ensures var r := RevertAll(P, E, mid); !(Open(r.1[i], mid) && r.1[i].playerId in P)
  {
    RevertLedgerAt(P, E, mid, i);
  }

  /** A second revert changes neither a rating nor a row. */
  lemma RevertIdempotent(P: Players, E: seq<EloEntry>, mid: int)
    ensures var r := RevertAll(P, E, mid); RevertAll(r.0, r.1, mid) == r
  {
    var r := RevertAll(P, E, mid);
    var r2 := RevertAll(r.0, r.1, mid);
    forall x | x in r.0 ensures r2.0[x] == r.0[x] {
      forall i | 0 <= i < |r.1| && Open(r.1[i], mid) ensures r.1[i].playerId != x {
        RevertClosesAll(P, E, mid, i);
      }
      OpenChangeNone(r.1, mid, x);
      RevertPointsAt(r.0, r.1, mid, x);
    }
    assert r2.0 == r.0;
    forall i | 0 <= i < |r.1| ensures r2.1[i] == r.1[i] {
      RevertClosesAll(P, E, mid, i);
      RevertLedgerAt(r.0, r.1, mid, i);
    }
    assert r2.1 == r.1;
  }

  /** Both sides are present; finalize looks each up by side. */
  predicate HasBothSides(teams: seq<Team>)
  {
    TeamOn(teams, Blue).Some? && TeamOn(teams, Red).Some?
  }

  /** Every rostered player exists in the table. */
  predicate RostersIn(teams: seq<Team>, P: Players)
  {
    forall t, p :: t in teams && p in t.players ==> p.id in P
  }

  /** The winning team: blue on a blue result, red otherwise. */
  function Winner(teams: seq<Team>, result: TeamSide): (w: Team)
    requires HasBothSides(teams)
    ensures w in teams && w.side == result
  {
    if result == Blue then TeamOn(teams, Blue).value else TeamOn(teams, Red).value
  }

  /** The losing team: the first team of the other side. */
  function Loser(teams: seq<Team>, result: TeamSide): (l: Team)
    requires HasBothSides(teams)
    ensures l in teams && l.side != result
  {
    if result == Blue then TeamOn(teams, Red).value else TeamOn(teams, Blue).value
  }

  lemma RosterIdsIn(teams: seq<Team>, t: Team, P: Players)
    requires RostersIn(teams, P) && t in teams
    ensures AllIn(Ids(t.players), P)
  {
    forall i | 0 <= i < |t.players| ensures Ids(t.players)[i] in P {
      assert t.players[i] in t.players;
    }
  }

  /** Winners' ids and losers' ids, in roster order. */
  function WinIds(m: Match, result: TeamSide): seq<int>
    requires HasBothSides(m.teams)
  {
    Ids(Winner(m.teams, result).players)
  }

  function LoseIds(m: Match, result: TeamSide): seq<int>
    requires HasBothSides(m.teams)
  {
    Ids(Loser(m.teams, result).players)
  }

  /** Both roster loops of finalize: `a` gains `d`, then `b` loses it, each
      player with one ledger row, the winners' rows first. */
  function CreditBoth(P: Players, a: seq<int>, b: seq<int>, mid: int, d: int): (r: (Players, seq<EloEntry>))
    requires AllIn(a, P) && AllIn(b, P)
    ensures r.0.Keys == P.Keys && |r.1| == |a| + |b|
  {
    var win := Credit(P, a, mid, d);
    var lose := Credit(win.0, b, mid, -d);
    (lose.0, win.1 + lose.1)
  }

  /** What finalize does to the ratings and which rows it appends: winners
      gain `pc`, then losers lose it, each with one row. */
  function FinalizeEffect(P: Players, m: Match, result: TeamSide, pc: int): (r: (Players, seq<EloEntry>))
    requires HasBothSides(m.teams) && RostersIn(m.teams, P)
    ensures r.0.Keys == P.Keys && |r.1| == |WinIds(m, result)| + |LoseIds(m, result)|
  {
    RosterIdsIn(m.teams, Winner(m.teams, result), P);
    RosterIdsIn(m.teams, Loser(m.teams, result), P);
    CreditBoth(P, WinIds(m, result), LoseIds(m, result), m.id, pc)
  }

  /** Splits a repeat-free concatenation into its repeat-free disjoint halves. */
  lemma DistinctSplit(a: seq<int>, b: seq<int>)
    requires Distinct(a + b)
    ensures Distinct(a) && Distinct(b)
    ensures forall i, j :: 0 <= i < |a| && 0 <= j < |b| ==> a[i] != b[j]
    ensures forall x :: x in a ==> x !in b
    ensures forall k :: 0 <= k < |a| ==> a[k] !in a[..k]
    ensures forall k :: 0 <= k < |b| ==> b[k] !in b[..k]
  {
    forall i, j | 0 <= i < j < |a| ensures a[i] != a[j] {
      assert (a + b)[i] == a[i] && (a + b)[j] == a[j];
    }
    forall i, j | 0 <= i < j < |b| ensures b[i] != b[j] {
      assert (a + b)[|a| + i] == b[i] && (a + b)[|a| + j] == b[j];
    }
    forall i, j | 0 <= i < |a| && 0 <= j < |b| ensures a[i] != b[j] {
      assert (a + b)[i] == a[i] && (a + b)[|a| + j] == b[j];
    }
    forall k, i | 0 <= i < k < |a| ensures a[..k][i] != a[k] {
      assert (a + b)[i] == a[i] && (a + b)[k] == a[k];
    }
    forall k, i | 0 <= i < k < |b| ensures b[..k][i] != b[k] {
      assert (a + b)[|a| + i] == b[i] && (a + b)[|a| + k] == b[k];
    }
  }

  /** Both loops move a player's rating by `d` per place in `a` and by `-d`
      per place in `b`; nothing else about the player changes. */
  lemma CreditBothPointsAt(P: Players, a: seq<int>, b: seq<int>, mid: int, d: int, x: int)
    requires AllIn(a, P) && AllIn(b, P) && x in P
    ensures CreditBoth(P, a, b, mid, d).0[x] ==
      P[x].(points := P[x].points + Times(multiset(a)[x], d) - Times(multiset(b)[x], d))
  {
    var win := Credit(P, a, mid, d);
    CreditPointsAt(P, a, mid, d, x);
    CreditPointsAt(win.0, b, mid, -d, x);
    TimesNeg(multiset(b)[x], d);
  }

  /** With no repeats, every player of `a` gains `d`, every player of `b`
      loses it, and everyone else is untouched. */
  lemma CreditBothDistinctAt(P: Players, a: seq<int>, b: seq<int>, mid: int, d: int, x: int)
    requires AllIn(a, P) && AllIn(b, P) && x in P && Distinct(a + b)
    ensures CreditBoth(P, a, b, mid, d).0[x] ==
      P[x].(points := P[x].points + (if x in a then d else 0) - (if x in b then d else 0))
  {
    DistinctSplit(a, b);
    CreditBothPointsAt(P, a, b, mid, d, x);
    DistinctCount(a, x);
    DistinctCount(b, x);
  }

  /** The k-th row of both loops: the k-th player of `a` with `+d`, or after
      them the matching player of `b` with `-d`, recording the rating before
      and after. */
  lemma CreditBothEntryAt(P: Players, a: seq<int>, b: seq<int>, mid: int, d: int, k: int)
    requires AllIn(a, P) && AllIn(b, P) && 0 <= k < |a| + |b|
    ensures var E := CreditBoth(P, a, b, mid, d).1;
      && E[k].matchId == Some(mid) && !E[k].isReverted
      && (k < |a| ==> E[k].playerId == a[k] && E[k].change == Some(d)
                      && E[k].pointsBefore == P[a[k]].points + Times(multiset(a[..k])[a[k]], d))
      && (k >= |a| ==> E[k].playerId == b[k - |a|] && E[k].change == Some(-d)
                         && E[k].pointsBefore == P[b[k - |a|]].points + Times(multiset(a)[b[k - |a|]], d)
                                                 - Times(multiset(b[..k - |a|])[b[k - |a|]], d))
      && E[k].pointsAfter == E[k].pointsBefore + E[k].change.value
  {
    var win := Credit(P, a, mid, d);
    var lose := Credit(win.0, b, mid, -d);
    var E := CreditBoth(P, a, b, mid, d).1;
    assert E == win.1 + lose.1;
    if k < |a| {
      assert E[k] == win.1[k];
      CreditEntryAt(P, a, mid, d, k);
    } else {
      var j := k - |a|;
      assert E[k] == lose.1[j];
      CreditEntryAt(win.0, b, mid, -d, j);
      CreditPointsAt(P, a, mid, d, b[j]);
      TimesNeg(multiset(b[..j])[b[j]], d);
    }
  }

  /** With no repeats, each row records the rating the player had before
      both loops. */
  lemma CreditBothDistinctBefore(P: Players, a: seq<int>, b: seq<int>, mid: int, d: int, k: int)
    requires AllIn(a, P) && AllIn(b, P) && 0 <= k < |a| + |b| && Distinct(a + b)
    ensures var E := CreditBoth(P, a, b, mid, d).1;
      E[k].playerId in P && E[k].pointsBefore == P[E[k].playerId].points
  {
    CreditBothEntryAt(P, a, b, mid, d, k);
    DistinctSplit(a, b);
    if k < |a| {
      assert multiset(a[..k])[a[k]] == 0;
    } else {
      var j := k - |a|;
      DistinctCount(a, b[j]);
      assert multiset(b[..j])[b[j]] == 0;
    }
  }

  /** The sum of the ratings of the listed players. */
  function SumPoints(P: Players, ids: seq<int>): int
    requires AllIn(ids, P)
  {
    if ids == [] then 0 else P[ids[0]].points + SumPoints(P, ids[1..])
  }

  lemma {:induction false} SumShifted(P: Players, Q: Players, ids: seq<int>, d: int)
    requires AllIn(ids, P) && AllIn(ids, Q)
    requires forall i :: 0 <= i < |ids| ==> Q[ids[i]].points == P[ids[i]].points + d
    ensures SumPoints(Q, ids) == SumPoints(P, ids) + |ids| * d
  {
    if ids != [] {
      assert AllIn(ids[1..], P) && AllIn(ids[1..], Q);
      SumShifted(P, Q, ids[1..], d);
      assert SumPoints(Q, ids) == Q[ids[0]].points + SumPoints(Q, ids[1..]);
      assert SumPoints(P, ids) == P[ids[0]].points + SumPoints(P, ids[1..]);
      var n := |ids[1..]|;
      assert n == |ids| - 1;
      assert n * d + d == |ids| * d;
    } else {
      assert |ids| * d == 0;
    }
  }

  lemma {:induction false} SumAppend(P: Players, a: seq<int>, b: seq<int>)
    requires AllIn(a, P) && AllIn(b, P)
    ensures AllIn(a + b, P) && SumPoints(P, a + b) == SumPoints(P, a) + SumPoints(P, b)
  {
    if a != [] {
      assert (a + b)[1..] == a[1..] + b;
      assert (a + b)[0] == a[0];
      SumAppend(P, a[1..], b);
    } else {
      assert a + b == b;
    }
  }

  /** With equally long lists and no repeats, both loops keep the sum of the
      ratings of the players involved. */
  lemma CreditBothKeepsTotal(P: Players, a: seq<int>, b: seq<int>, mid: int, d: int)
    requires AllIn(a, P) && AllIn(b, P) && Distinct(a + b) && |a| == |b|
    ensures var Q := CreditBoth(P, a, b, mid, d).0;
      AllIn(a + b, P) && AllIn(a + b, Q) && SumPoints(Q, a + b) == SumPoints(P, a + b)
  {
    var Q := CreditBoth(P, a, b, mid, d).0;
    CreditBothShifts(P, a, b, mid, d);
    SumShifted(P, Q, a, d);
    SumShifted(P, Q, b, -d);
    SumAppend(P, a, b);
    SumAppend(Q, a, b);
    assert |b| * -d == -(|a| * d);
  }

  /** Without repeats every winner gains `d` and every loser loses it. */
  lemma CreditBothShifts(P: Players, a: seq<int>, b: seq<int>, mid: int, d: int)
    requires AllIn(a, P) && AllIn(b, P) && Distinct(a + b)
    ensures var Q := CreditBoth(P, a, b, mid, d).0;
      && AllIn(a, Q) && AllIn(b, Q)
      && (forall i :: 0 <= i < |a| ==> Q[a[i]].points == P[a[i]].points + d)
      && (forall i :: 0 <= i < |b| ==> Q[b[i]].points == P[b[i]].points + -d)
  {
    var Q := CreditBoth(P, a, b, mid, d).0;
    DistinctSplit(a, b);
    forall i | 0 <= i < |a| ensures Q[a[i]].points == P[a[i]].points + d {
      CreditBothDistinctAt(P, a, b, mid, d, a[i]);
    }
    forall i | 0 <= i < |b| ensures Q[b[i]].points == P[b[i]].points + -d {
      CreditBothDistinctAt(P, a, b, mid, d, b[i]);
    }
  }

  /** The rows of the second loop undo what it took from each player. */
  lemma CreditSecondOpenChange(P: Players, a: seq<int>, b: seq<int>, mid: int, d: int, x: int)
    requires AllIn(a, P) && AllIn(b, P)
    ensures var win := Credit(P, a, mid, d);
      AllIn(b, win.0) && OpenChange(Credit(win.0, b, mid, -d).1, mid, x) == -Times(multiset(b)[x], d)
  {
    var Q := Credit(P, a, mid, d).0;
    OpenChangeOfCredit(Q, b, mid, -d, x);
    TimesNeg(multiset(b)[x], d);
  }

  /** The open rows of the match after both loops, with none before, undo
      for each player exactly what the loops moved. */
  lemma CreditBothOpenChange(P: Players, L: seq<EloEntry>, a: seq<int>, b: seq<int>, mid: int, d: int, x: int)
    requires AllIn(a, P) && AllIn(b, P)
    requires forall i :: 0 <= i < |L| ==> !Open(L[i], mid)
    ensures OpenChange(L + CreditBoth(P, a, b, mid, d).1, mid, x) == Times(multiset(a)[x], d) - Times(multiset(b)[x], d)
  {
    var win := Credit(P, a, mid, d);
    var lose := Credit(win.0, b, mid, -d);
    var E := CreditBoth(P, a, b, mid, d).1;
    assert E == win.1 + lose.1;
    OpenChangeAppend(L, E, mid, x);
    OpenChangeNone(L, mid, x);
    OpenChangeAppend(win.1, lose.1, mid, x);
    OpenChangeOfCredit(P, a, mid, d, x);
    CreditSecondOpenChange(P, a, b, mid, d, x);
  }

  /** Reverting right after both loops, with no open rows of the match
      before, gives one player back the rating they had. */
  lemma CreditBothRevertAt(P: Players, L: seq<EloEntry>, a: seq<int>, b: seq<int>, mid: int, d: int, x: int)
    requires AllIn(a, P) && AllIn(b, P) && x in P
    requires forall i :: 0 <= i < |L| ==> !Open(L[i], mid)
    ensures var f := CreditBoth(P, a, b, mid, d); RevertAll(f.0, L + f.1, mid).0[x] == P[x]
  {
    var f := CreditBoth(P, a, b, mid, d);
    CreditBothPointsAt(P, a, b, mid, d, x);
    CreditBothOpenChange(P, L, a, b, mid, d, x);
    RevertPointsAt(f.0, L + f.1, mid, x);
  }

  /** The rows of both loops, all of them: for match `mid`, none reverted,
      the players of `a` with `+d`, then those of `b` with `-d`; with no
      repeats each records the player's rating before the loops. */
  lemma CreditBothEntries(P: Players, a: seq<int>, b: seq<int>, mid: int, d: int)
    requires AllIn(a, P) && AllIn(b, P)
    ensures var E := CreditBoth(P, a, b, mid, d).1;
      && (forall k :: 0 <= k < |E| ==>
            E[k].matchId == Some(mid) && !E[k].isReverted && E[k].change.Some?
            && E[k].pointsAfter == E[k].pointsBefore + E[k].change.value)
      && (forall k :: 0 <= k < |a| ==> E[k].playerId == a[k] && E[k].change == Some(d))
      && (forall k :: |a| <= k < |E| ==> E[k].playerId == b[k - |a|] && E[k].change == Some(-d))
      && (Distinct(a + b) ==> forall k :: 0 <= k < |E| ==> E[k].playerId in P && E[k].pointsBefore == P[E[k].playerId].points)
  {
    var E := CreditBoth(P, a, b, mid, d).1;
    forall k | 0 <= k < |E|
      ensures E[k].matchId == Some(mid) && !E[k].isReverted && E[k].change.Some?
      ensures E[k].pointsAfter == E[k].pointsBefore + E[k].change.value
      ensures k < |a| ==> E[k].playerId == a[k] && E[k].change == Some(d)
      ensures k >= |a| ==> E[k].playerId == b[k - |a|] && E[k].change == Some(-d)
    {
      CreditBothEntryAt(P, a, b, mid, d, k);
    }
    if Distinct(a + b) {
      forall k | 0 <= k < |E| ensures E[k].playerId in P && E[k].pointsBefore == P[E[k].playerId].points {
        CreditBothDistinctBefore(P, a, b, mid, d, k);
      }
    }
  }

  /** With a roster of distinct players, every winner gains `pc`, every loser
      loses it, and no one else's record changes. */
  lemma FinalizeMovesPoints(P: Players, m: Match, result: TeamSide, pc: int)
    requires HasBothSides(m.teams) && RostersIn(m.teams, P)
    requires Distinct(WinIds(m, result) + LoseIds(m, result))
    ensures var wi, li, P2 := WinIds(m, result), LoseIds(m, result), FinalizeEffect(P, m, result, pc).0;
      && (forall x :: x in wi ==> x in P && P2[x] == P[x].(points := P[x].points + pc))
      && (forall x :: x in li ==> x in P && P2[x] == P[x].(points := P[x].points - pc))
      && (forall x :: x in P && x !in wi && x !in li ==> P2[x] == P[x])
  {
    var wi, li := WinIds(m, result), LoseIds(m, result);
    RosterIdsIn(m.teams, Winner(m.teams, result), P);
    RosterIdsIn(m.teams, Loser(m.teams, result), P);
    DistinctSplit(wi, li);
    forall x | x in P
      ensures CreditBoth(P, wi, li, m.id, pc).0[x] ==
        P[x].(points := P[x].points + (if x in wi then pc else 0) - (if x in li then pc else 0))
    {
      CreditBothDistinctAt(P, wi, li, m.id, pc, x);
    }
  }

  /** The rows finalize appends, one per player of the match, are all for
      this match, none reverted, each recording the rating before and after
      and the change between them. */
  lemma FinalizeEntries(P: Players, m: Match, result: TeamSide, pc: int)
    requires HasBothSides(m.teams) && RostersIn(m.teams, P)
    ensures var E := FinalizeEffect(P, m, result, pc).1;
      && |E| == |WinIds(m, result)| + |LoseIds(m, result)|
      && (forall k :: 0 <= k < |E| ==>
            E[k].matchId == Some(m.id) && !E[k].isReverted && E[k].change.Some?
            && E[k].pointsAfter == E[k].pointsBefore + E[k].change.value)
  {
    var wi, li := WinIds(m, result), LoseIds(m, result);
    RosterIdsIn(m.teams, Winner(m.teams, result), P);
    RosterIdsIn(m.teams, Loser(m.teams, result), P);
    CreditBothEntries(P, wi, li, m.id, pc);
  }

  /** The rows finalize appends come one per winner carrying +pc, then one
      per loser carrying -pc. */
  lemma FinalizeEntriesOrder(P: Players, m: Match, result: TeamSide, pc: int)
    requires HasBothSides(m.teams) && RostersIn(m.teams, P)
    ensures var wi, li, E := WinIds(m, result), LoseIds(m, result), FinalizeEffect(P, m, result, pc).1;
      && (forall k :: 0 <= k < |wi| ==> E[k].playerId == wi[k] && E[k].change == Some(pc))
      && (forall k :: |wi| <= k < |E| ==> E[k].playerId == li[k - |wi|] && E[k].change == Some(-pc))
  {
    var wi, li := WinIds(m, result), LoseIds(m, result);
    RosterIdsIn(m.teams, Winner(m.teams, result), P);
    RosterIdsIn(m.teams, Loser(m.teams, result), P);
    CreditBothEntries(P, wi, li, m.id, pc);
  }

  /** With distinct players, each row finalize appends records the rating
      the player had before the match. */
  lemma FinalizeEntriesRecordBefore(P: Players, m: Match, result: TeamSide, pc: int)
    requires HasBothSides(m.teams) && RostersIn(m.teams, P)
    requires Distinct(WinIds(m, result) + LoseIds(m, result))
    ensures var E := FinalizeEffect(P, m, result, pc).1;
      forall k :: 0 <= k < |E| ==> E[k].playerId in P && E[k].pointsBefore == P[E[k].playerId].points
  {
    RosterIdsIn(m.teams, Winner(m.teams, result), P);
    RosterIdsIn(m.teams, Loser(m.teams, result), P);
    CreditBothEntries(P, WinIds(m, result), LoseIds(m, result), m.id, pc);
  }

  /** With equally large rosters of distinct players, finalize keeps the sum
      of the ratings of everyone in the match. */
  lemma FinalizeKeepsTotal(P: Players, m: Match, result: TeamSide, pc: int)
    requires HasBothSides(m.teams) && RostersIn(m.teams, P)
    requires Distinct(WinIds(m, result) + LoseIds(m, result))
    requires |WinIds(m, result)| == |LoseIds(m, result)|
    ensures var ids, P2 := WinIds(m, result) + LoseIds(m, result), FinalizeEffect(P, m, result, pc).0;
      AllIn(ids, P) && AllIn(ids, P2) && SumPoints(P2, ids) == SumPoints(P, ids)
  {
    RosterIdsIn(m.teams, Winner(m.teams, result), P);
    RosterIdsIn(m.teams, Loser(m.teams, result), P);
    CreditBothKeepsTotal(P, WinIds(m, result), LoseIds(m, result), m.id, pc);
  }

  /** Reverting right after both loops, with no open rows of the match
      before, gives every player back the rating they had. */
  lemma CreditBothThenRevert(P: Players, L: seq<EloEntry>, a: seq<int>, b: seq<int>, mid: int, d: int)
    requires AllIn(a, P) && AllIn(b, P)
    requires forall i :: 0 <= i < |L| ==> !Open(L[i], mid)
    ensures var f := CreditBoth(P, a, b, mid, d); RevertAll(f.0, L + f.1, mid).0 == P
  {
    var f := CreditBoth(P, a, b, mid, d);
    var back := RevertAll(f.0, L + f.1, mid).0;
    forall x | x in P ensures back[x] == P[x] {
      CreditBothRevertAt(P, L, a, b, mid, d, x);
    }
  }

  /** Every row both loops write carries a change. */
  lemma CreditBothChanges(P: Players, a: seq<int>, b: seq<int>, mid: int, d: int)
    requires AllIn(a, P) && AllIn(b, P)
    ensures var E := CreditBoth(P, a, b, mid, d).1; forall k :: 0 <= k < |E| ==> E[k].change.Some?
  {
    var E := CreditBoth(P, a, b, mid, d).1;
    forall k | 0 <= k < |E| ensures E[k].change.Some? {
      CreditBothEntryAt(P, a, b, mid, d, k);
    }
  }

  /** After finalize, with no open rows of the match before, the match can be
      reverted: every open row of it carries a change. */
  lemma FinalizeLeavesRevertible(P: Players, L: seq<EloEntry>, m: Match, result: TeamSide, pc: int)
    requires HasBothSides(m.teams) && RostersIn(m.teams, P)
    requires forall i :: 0 <= i < |L| ==> !Open(L[i], m.id)
    ensures var f := FinalizeEffect(P, m, result, pc); Revertible(f.0, L + f.1, m.id)
  {
    RosterIdsIn(m.teams, Winner(m.teams, result), P);
    RosterIdsIn(m.teams, Loser(m.teams, result), P);
    var E := FinalizeEffect(P, m, result, pc).1;
    CreditBothChanges(P, WinIds(m, result), LoseIds(m, result), m.id, pc);
    forall i | 0 <= i < |L + E| && Open((L + E)[i], m.id) ensures (L + E)[i].change.Some? {
      assert i >= |L|;
      assert (L + E)[i] == E[i - |L|];
    }
  }

  /** Finalize and then revert, with nothing in between and no open rows of
      the match before, gives every player back the rating they had. */
  lemma FinalizeThenRevertRestores(P: Players, L: seq<EloEntry>, m: Match, result: TeamSide, pc: int)
    requires HasBothSides(m.teams) && RostersIn(m.teams, P)
    requires forall i :: 0 <= i < |L| ==> !Open(L[i], m.id)
    ensures var f := FinalizeEffect(P, m, result, pc); RevertAll(f.0, L + f.1, m.id).0 == P
  {
    RosterIdsIn(m.teams, Winner(m.teams, result), P);
    RosterIdsIn(m.teams, Loser(m.teams, result), P);
    CreditBothThenRevert(P, L, WinIds(m, result), LoseIds(m, result), m.id, pc);
  }
}
