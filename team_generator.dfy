/** The team balancer.  From an even list of players it lists the ways to
    split them into two teams of equal size (each split once), orders them by
    the gap between the two mean ratings, picks one of the closest, drafts
    champions for both teams from the caller's catalog, and seats the teams
    on the blue and red sides in random order.  Every random choice is a
    parameter: `poolIndex` picks the matchup, `draws` are the successive
    catalog positions drawn, `swap` is the outcome of the shuffle. */
module TeamGenerator {
  import opened Wrappers
  import opened Database
  import opened Splits

  /** Why generation fails: an odd number of players, no players at all (the
      first team rating divides by a team size of zero), or a catalog that
      runs dry during the draft. */
  datatype GenError = OddPlayerCount | EmptyPlayerList | CatalogExhausted

  /** A catalog entry; the generator reads only its id. */
  datatype Champion = Champion(id: string)

  /** The caller's champion list, which the draft shrinks in place. */
  class ChampionList {
    var items: seq<Champion>

    constructor (items: seq<Champion>)
      ensures this.items == items
    {
      this.items := items;
    }
  }

  function Min(a: int, b: int): int
  {
    if a <= b then a else b
  }

  function Abs(x: real): real
  {
    if x < 0.0 then -x else x
  }

  /** The sum of the ratings of a roster. */
  function Total(ps: seq<Player>): int
  {
    if ps == [] then 0 else ps[0].points + Total(ps[1..])
  }

  /** One candidate split: a team, the other players, both mean ratings and
      the gap between them. */
  datatype Matchup = Matchup(teamA: seq<Player>, teamB: seq<Player>,
                             ratingA: real, ratingB: real, eloDifference: real)

  /** The matchup a selection makes: the other team is every player (one per
      id) not in the selection, and both ratings divide by the team size. */
  function MatchupOf(players: seq<Player>, teamA: seq<Player>): Matchup
    requires |players| / 2 > 0
  {
    var size := (|players| / 2) as real;
    var teamB := Without(DedupById(players), IdSet(teamA));
    var ratingA := Total(teamA) as real / size;
    var ratingB := Total(teamB) as real / size;
    Matchup(teamA, teamB, ratingA, ratingB, Abs(ratingA - ratingB))
  }

  /** The candidate matchups: the first half, rounded up, of the selections
      of half the players. */
  function Candidates(players: seq<Player>): seq<Matchup>
    requires |players| / 2 > 0
  {
    var combos := Combinations(players, |players| / 2);
    seq((|combos| + 1) / 2, i requires 0 <= i < (|combos| + 1) / 2 => MatchupOf(players, combos[i]))
  }

  /** The number of candidate matchups for `n` players. */
  function MatchupCount(n: nat): nat
  {
    (Binom(n, n / 2) + 1) / 2
  }

  // ---------------------------------------------------------------------
  // Ordering the candidates

  /** `x` placed into `s` after every element whose gap is not larger: one
      step of a stable insertion sort. */
  function Insert(x: Matchup, s: seq<Matchup>): seq<Matchup>
    decreases |s|
  {
    if s == [] || s[|s| - 1].eloDifference <= x.eloDifference then s + [x]
    else Insert(x, s[..|s| - 1]) + [s[|s| - 1]]
  }

  /** The matchups in ascending order of gap, equal gaps in their original
      order (the host language's sort is stable). */
  function SortedByDifference(s: seq<Matchup>): seq<Matchup>
    decreases |s|
  {
    if s == [] then [] else Insert(s[|s| - 1], SortedByDifference(s[..|s| - 1]))
  }

  predicate Ascending(s: seq<Matchup>)
  {
    forall i, j :: 0 <= i < j < |s| ==> s[i].eloDifference <= s[j].eloDifference
  }

  lemma {:induction false} InsertAscending(x: Matchup, s: seq<Matchup>)
    requires Ascending(s)
    ensures Ascending(Insert(x, s))
    ensures multiset(Insert(x, s)) == multiset(s) + multiset{x}
    decreases |s|
  {
    if s != [] && s[|s| - 1].eloDifference > x.eloDifference {
      var init, last := s[..|s| - 1], s[|s| - 1];
      assert s == init + [last];
      InsertAscending(x, init);
      LastBoundsInit(s);
      InsertStaysBelow(x, init, last.eloDifference);
      AppendAscending(Insert(x, init), last);
    }
  }

  /** In an ascending list the last element bounds all others. */
  lemma LastBoundsInit(s: seq<Matchup>)
    requires Ascending(s) && s != []
    ensures forall y :: y in s[..|s| - 1] ==> y.eloDifference <= s[|s| - 1].eloDifference
  {
    forall y | y in s[..|s| - 1] ensures y.eloDifference <= s[|s| - 1].eloDifference {
      var i :| 0 <= i < |s| - 1 && s[..|s| - 1][i] == y;
      assert s[i] == y;
    }
  }

  /** Inserting below a bound keeps every element below it. */
  lemma InsertStaysBelow(x: Matchup, s: seq<Matchup>, bound: real)
    requires multiset(Insert(x, s)) == multiset(s) + multiset{x}
    requires x.eloDifference <= bound && forall y :: y in s ==> y.eloDifference <= bound
    ensures forall y :: y in Insert(x, s) ==> y.eloDifference <= bound
  {
    forall y | y in Insert(x, s) ensures y.eloDifference <= bound {
      assert y in multiset(Insert(x, s));
      if y != x {
        assert y in multiset(s);
      }
    }
  }

  /** An element no smaller than all before it extends an ascending list. */
  lemma AppendAscending(r: seq<Matchup>, last: Matchup)
    requires Ascending(r) && forall y :: y in r ==> y.eloDifference <= last.eloDifference
    ensures Ascending(r + [last])
  {
    var q := r + [last];
    forall i, j | 0 <= i < j < |q| ensures q[i].eloDifference <= q[j].eloDifference {
      if j == |r| {
        assert q[i] in r;
      } else {
        assert q[i] == r[i] && q[j] == r[j];
      }
    }
  }

  /** The sort puts the matchups in ascending order of gap and loses or adds
      none. */
  lemma {:induction false} SortedByDifferenceSorts(s: seq<Matchup>)
    ensures Ascending(SortedByDifference(s))
    ensures multiset(SortedByDifference(s)) == multiset(s)
    ensures |SortedByDifference(s)| == |s|
    decreases |s|
  {
    if s != [] {
      var init := s[..|s| - 1];
      assert s == init + [s[|s| - 1]];
      SortedByDifferenceSorts(init);
      InsertAscending(s[|s| - 1], SortedByDifference(init));
    }
    assert |multiset(SortedByDifference(s))| == |multiset(s)|;
  }

  /** Moving `x` left past a larger gap. */
  lemma InsertPasses(x: Matchup, s: seq<Matchup>, j: int)
    requires 0 < j <= |s| && s[j - 1].eloDifference > x.eloDifference
    ensures Insert(x, s[..j]) + s[j..] == Insert(x, s[..j - 1]) + s[j - 1..]
  {
    assert s[..j][..j - 1] == s[..j - 1];
    assert s[j - 1..] == [s[j - 1]] + s[j..];
  }

  /** `x` stops after a gap that is not larger, or at the front. */
  lemma InsertStops(x: Matchup, s: seq<Matchup>, j: int)
    requires 0 <= j <= |s| && (j == 0 || s[j - 1].eloDifference <= x.eloDifference)
    ensures Insert(x, s[..j]) + s[j..] == s[..j] + [x] + s[j..]
  {
  }

  /** One pass of the insertion sort: `a[i]` moved left past every larger
      gap of the sorted prefix `a[..i]`. */
  method InsertAt(a: array<Matchup>, i: int)
    requires 0 <= i < a.Length
    modifies a
    ensures a[..i + 1] == Insert(old(a[i]), old(a[..i]))
    ensures a[i + 1..] == old(a[i + 1..])
  {
    var x := a[i];
    ghost var sorted := a[..i];
    var j := InsertionPoint(a, i, x);
    InsertStops(x, sorted, j);
    ShiftRight(a, j, i);
    a[j] := x;
    Placed(a[..], sorted, x, i, j);
  }

  /** Where the pass puts `x`: after the last gap of `a[..i]` that is not
      larger, scanning from the right. */
  method InsertionPoint(a: array<Matchup>, i: int, x: Matchup) returns (j: int)
    requires 0 <= i < a.Length
    ensures 0 <= j <= i && (j == 0 || a[j - 1].eloDifference <= x.eloDifference)
    ensures Insert(x, a[..i]) == Insert(x, a[..i][..j]) + a[..i][j..]
  {
    ghost var sorted := a[..i];
    j := i;
    assert sorted[..i] == sorted;
    while j > 0 && a[j - 1].eloDifference > x.eloDifference
      invariant 0 <= j <= i
      invariant Insert(x, sorted) == Insert(x, sorted[..j]) + sorted[j..]
    {
      assert a[j - 1] == sorted[j - 1];
      InsertPasses(x, sorted, j);
      j := j - 1;
    }
  }

  /** The matchups at `j..i - 1` move one place right. */
  method ShiftRight(a: array<Matchup>, j: int, i: int)
    requires 0 <= j <= i < a.Length
    modifies a
    ensures forall k :: 0 <= k < j ==> a[k] == old(a[k])
    ensures forall k :: j < k <= i ==> a[k] == old(a[k - 1])
    ensures forall k :: i < k < a.Length ==> a[k] == old(a[k])
  {
    var k := i;
    while k > j
      invariant j <= k <= i
      invariant forall n :: 0 <= n <= k ==> a[n] == old(a[n])
      invariant forall n :: k < n <= i ==> a[n] == old(a[n - 1])
      invariant forall n :: i < n < a.Length ==> a[n] == old(a[n])
    {
      a[k] := a[k - 1];
      k := k - 1;
    }
  }

  /** The array after the pass, read back as a sequence. */
  lemma Placed(s: seq<Matchup>, sorted: seq<Matchup>, x: Matchup, i: int, j: int)
    requires 0 <= j <= i < |s| && |sorted| == i && s[j] == x
    requires forall k :: 0 <= k < j ==> s[k] == sorted[k]
    requires forall k :: j < k <= i ==> s[k] == sorted[k - 1]
    ensures s[..i + 1] == sorted[..j] + [x] + sorted[j..]
  {
    forall k | 0 <= k <= i ensures s[k] == (sorted[..j] + [x] + sorted[j..])[k] {
      if k > j {
        assert s[k] == sorted[k - 1];
      }
    }
  }

  /** Stable insertion sort of the matchups in place, ascending by gap. */
  method SortByDifference(a: array<Matchup>)
    modifies a
    ensures a[..] == SortedByDifference(old(a[..]))
  {
    ghost var input := a[..];
    var i := 0;
    while i < a.Length
      invariant 0 <= i <= a.Length
      invariant a[..i] == SortedByDifference(input[..i])
      invariant a[i..] == input[i..]
    {
      SortStep(input, i);
      SuffixStep(a[..], input, i);
      InsertAt(a, i);
      i := i + 1;
    }
    assert input[..a.Length] == input;
  }

  /** Sorting one more matchup inserts it into the sorted prefix. */
  lemma SortStep(s: seq<Matchup>, i: int)
    requires 0 <= i < |s|
    ensures SortedByDifference(s[..i + 1]) == Insert(s[i], SortedByDifference(s[..i]))
  {
    assert s[..i + 1][..i] == s[..i];
  }

  /** Equal suffixes from `i` agree at `i` and from `i + 1`. */
  lemma SuffixStep(a: seq<Matchup>, b: seq<Matchup>, i: int)
    requires 0 <= i < |a| == |b| && a[i..] == b[i..]
    ensures a[i] == b[i] && a[i + 1..] == b[i + 1..]
  {
    assert a[i] == a[i..][0];
    assert a[i + 1..] == a[i..][1..];
    assert b[i + 1..] == b[i..][1..];
  }

  // ---------------------------------------------------------------------
  // Choosing among the closest

  /** How many of the closest matchups the choice is made from: up to ten,
      at most half of them, but at least one when there is any. */
  function PoolSize(n: nat): (size: nat)
    ensures n > 0 ==> 1 <= size <= n && size <= 10
    ensures n >= 2 ==> size == Min(10, n / 2)
    ensures n == 0 ==> size == 0
  {
    var size := Min(10, n / 2);
    if size == 0 && n > 0 then n else size
  }

  /** The chosen matchup is at least as close as every matchup left out of
      the pool. */
  lemma PoolHoldsTheClosest(ranked: seq<Matchup>, poolIndex: nat, j: int)
    requires Ascending(ranked) && poolIndex < PoolSize(|ranked|) <= j < |ranked|
    ensures ranked[poolIndex].eloDifference <= ranked[j].eloDifference
  {
  }

  // ---------------------------------------------------------------------
  // The champion draft

  /** How many rounds the draft has: the requested number, two per player
      of a team when none is requested (zero), none when negative. */
  function Rounds(choicesNumber: int, teamSize: nat): nat
  {
    if choicesNumber == 0 then 2 * teamSize else if choicesNumber < 0 then 0 else choicesNumber
  }

  /** Every one of the first `n` draws is a position of the list as it is at
      that draw. */
  predicate DrawsFit(draws: seq<nat>, size: nat, n: nat)
  {
    n <= |draws| && forall j :: 0 <= j < n ==> draws[j] + j < size
  }

  /** The first `n` draws without replacement: the champions drawn, in
      order, and what is left of the list. */
  function Drawn(items: seq<Champion>, draws: seq<nat>, n: nat): (r: (seq<Champion>, seq<Champion>))
    requires n <= |items| && DrawsFit(draws, |items|, n)
    ensures |r.0| == n && |r.1| == |items| - n
  {
    if n == 0 then ([], items)
    else
      var prev := Drawn(items, draws, n - 1);
      var k := draws[n - 1];
      (prev.0 + [prev.1[k]], prev.1[..k] + prev.1[k + 1..])
  }

  /** The draws of the first team: the first, third, fifth, ... */
  function Evens(s: seq<Champion>): (r: seq<Champion>)
    ensures |r| == (|s| + 1) / 2
    ensures forall i :: 0 <= i < |r| ==> r[i] == s[2 * i]
  {
    seq((|s| + 1) / 2, i requires 0 <= i < (|s| + 1) / 2 => s[2 * i])
  }

  /** The draws of the second team: the second, fourth, ... */
  function Odds(s: seq<Champion>): (r: seq<Champion>)
    ensures |r| == |s| / 2
    ensures forall i :: 0 <= i < |r| ==> r[i] == s[2 * i + 1]
  {
    seq(|s| / 2, i requires 0 <= i < |s| / 2 => s[2 * i + 1])
  }

  function ChampionIds(cs: seq<Champion>): (r: seq<string>)
    ensures |r| == |cs|
    ensures forall i :: 0 <= i < |cs| ==> r[i] == cs[i].id
  {
    seq(|cs|, i requires 0 <= i < |cs| => cs[i].id)
  }

  predicate DistinctNames(xs: seq<string>)
  {
    forall i, j :: 0 <= i < j < |xs| ==> xs[i] != xs[j]
  }

  /** What the draft yields: both teams' champion ids and the rest of the
      catalog, or failure with the catalog drawn empty. */
  function DraftOutcome(items: seq<Champion>, draws: seq<nat>, rounds: nat)
    : (Result<(seq<string>, seq<string>), GenError>, seq<Champion>)
    requires DrawsFit(draws, |items|, Min(2 * rounds, |items|))
  {
    if |items| < 2 * rounds then (Err(CatalogExhausted), [])
    else
      var d := Drawn(items, draws, 2 * rounds);
      (Ok((ChampionIds(Evens(d.0)), ChampionIds(Odds(d.0)))), d.1)
  }

  lemma EvensOddsAppend(s: seq<Champion>, x: Champion)
    ensures |s| % 2 == 0 ==> Evens(s + [x]) == Evens(s) + [x] && Odds(s + [x]) == Odds(s)
    ensures |s| % 2 == 1 ==> Evens(s + [x]) == Evens(s) && Odds(s + [x]) == Odds(s) + [x]
  {
    var t := s + [x];
    if |s| % 2 == 0 {
      assert Evens(t) == Evens(s) + [x] by {
        forall i | 0 <= i < |Evens(t)| ensures Evens(t)[i] == (Evens(s) + [x])[i] {
          assert t[2 * i] == if 2 * i < |s| then s[2 * i] else x;
        }
      }
      assert Odds(t) == Odds(s) by {
        forall i | 0 <= i < |Odds(t)| ensures Odds(t)[i] == Odds(s)[i] {
          assert t[2 * i + 1] == s[2 * i + 1];
        }
      }
    } else {
      assert Evens(t) == Evens(s) by {
        forall i | 0 <= i < |Evens(t)| ensures Evens(t)[i] == Evens(s)[i] {
          assert t[2 * i] == s[2 * i];
        }
      }
      assert Odds(t) == Odds(s) + [x] by {
        forall i | 0 <= i < |Odds(t)| ensures Odds(t)[i] == (Odds(s) + [x])[i] {
          assert t[2 * i + 1] == if 2 * i + 1 < |s| then s[2 * i + 1] else x;
        }
      }
    }
  }

  lemma ChampionIdsAppend(s: seq<Champion>, x: Champion)
    ensures ChampionIds(s + [x]) == ChampionIds(s) + [x.id]
  {
    assert forall i :: 0 <= i < |s| ==> (s + [x])[i] == s[i];
  }

  /** The draft, deleting each drawn champion from the caller's list; it
      fails as soon as a draw finds the list empty. */
  method Draft(catalog: ChampionList, draws: seq<nat>, rounds: nat)
    returns (r: Result<(seq<string>, seq<string>), GenError>)
    requires DrawsFit(draws, |catalog.items|, Min(2 * rounds, |catalog.items|))
    modifies catalog
    ensures (r, catalog.items) == DraftOutcome(old(catalog.items), draws, rounds)
  {
    ghost var items := catalog.items;
    ghost var fit := Min(2 * rounds, |items|);
    var namesA: seq<string> := [];
    var namesB: seq<string> := [];
    var n := 0;
    while n < 2 * rounds
      invariant 0 <= n <= 2 * rounds && n % 2 == 0 && n <= |items|
      invariant catalog.items == Drawn(items, draws, n).1
      invariant namesA == ChampionIds(Evens(Drawn(items, draws, n).0))
      invariant namesB == ChampionIds(Odds(Drawn(items, draws, n).0))
    {
      var ok, a, b := DrawRound(catalog, items, draws, n, fit);
      if !ok {
        return Err(CatalogExhausted);
      }
      DraftRound(items, draws, n);
      namesA := namesA + [a];
      namesB := namesB + [b];
      n := n + 2;
    }
    return Ok((namesA, namesB));
  }

  /** One round of the draft: a draw for each team, failing when the list
      is empty at either draw, which leaves it empty. */
  method DrawRound(catalog: ChampionList, ghost items: seq<Champion>, draws: seq<nat>, n: nat, ghost fit: nat)
    returns (ok: bool, a: string, b: string)
    requires n <= |items| && n < fit + 2 && DrawsFit(draws, |items|, fit)
    requires fit == |items| || n + 2 <= fit
    requires catalog.items == Drawn(items, draws, n).1
    modifies catalog
    ensures ok <==> n + 2 <= |items|
    ensures !ok ==> catalog.items == []
    ensures ok ==> && catalog.items == Drawn(items, draws, n + 2).1
                   && a == Drawn(items, draws, n + 1).0[n].id
                   && b == Drawn(items, draws, n + 2).0[n + 1].id
  {
    if |catalog.items| == 0 {
      return false, "", "";
    }
    DrawsFitPrefix(draws, |items|, fit, n + 1);
    a := DrawOne(catalog, items, draws, n);
    if |catalog.items| == 0 {
      return false, "", "";
    }
    DrawsFitPrefix(draws, |items|, fit, n + 2);
    b := DrawOne(catalog, items, draws, n + 1);
    ok := true;
  }

  lemma DrawsFitPrefix(draws: seq<nat>, size: nat, n: nat, m: nat)
    requires DrawsFit(draws, size, n) && m <= n
    ensures DrawsFit(draws, size, m)
  {
  }

  /** One draw: the champion at the drawn position is taken out of the list. */
  method DrawOne(catalog: ChampionList, ghost items: seq<Champion>, draws: seq<nat>, n: nat)
    returns (id: string)
    requires n < |items| && DrawsFit(draws, |items|, n + 1)
    requires catalog.items == Drawn(items, draws, n).1
    modifies catalog
    ensures catalog.items == Drawn(items, draws, n + 1).1
    ensures id == Drawn(items, draws, n + 1).0[n].id
  {
    var choice := draws[n];
    id := catalog.items[choice].id;
    catalog.items := catalog.items[..choice] + catalog.items[choice + 1..];
  }

  /** A round of two draws gives the first team the first champion drawn and
      the second team the second. */
  lemma DraftRound(items: seq<Champion>, draws: seq<nat>, n: nat)
    requires n % 2 == 0 && n + 2 <= |items| && DrawsFit(draws, |items|, n + 2)
    ensures ChampionIds(Evens(Drawn(items, draws, n + 2).0))
      == ChampionIds(Evens(Drawn(items, draws, n).0)) + [Drawn(items, draws, n + 1).0[n].id]
    ensures ChampionIds(Odds(Drawn(items, draws, n + 2).0))
      == ChampionIds(Odds(Drawn(items, draws, n).0)) + [Drawn(items, draws, n + 2).0[n + 1].id]
  {
    var d0, d1, d2 := Drawn(items, draws, n).0, Drawn(items, draws, n + 1).0, Drawn(items, draws, n + 2).0;
    var x, y := d1[n], d2[n + 1];
    assert d1 == d0 + [x];
    assert d2 == d1 + [y];
    EvensOddsAppend(d0, x);
    EvensOddsAppend(d1, y);
    ChampionIdsAppend(Evens(d0), x);
    ChampionIdsAppend(Odds(d1), y);
  }

  /** Drawing without replacement only moves champions from the list to the
      drawn ones. */
  lemma {:induction false} DrawnPermutes(items: seq<Champion>, draws: seq<nat>, n: nat)
    requires n <= |items| && DrawsFit(draws, |items|, n)
    ensures multiset(Drawn(items, draws, n).0) + multiset(Drawn(items, draws, n).1) == multiset(items)
  {
    if n > 0 {
      DrawnPermutes(items, draws, n - 1);
      var prev := Drawn(items, draws, n - 1);
      var k := draws[n - 1];
      assert prev.1 == prev.1[..k] + [prev.1[k]] + prev.1[k + 1..];
    }
  }

  lemma ChampionIdsConcat(a: seq<Champion>, b: seq<Champion>)
    ensures ChampionIds(a + b) == ChampionIds(a) + ChampionIds(b)
  {
    var l, r := ChampionIds(a + b), ChampionIds(a) + ChampionIds(b);
    forall i | 0 <= i < |l| ensures l[i] == r[i] {
      if i < |a| {
        assert (a + b)[i] == a[i];
      } else {
        assert (a + b)[i] == b[i - |a|];
      }
    }
  }

  /** Counted by id, the champions drawn and those left make up the catalog. */
  lemma {:induction false} DrawnIds(items: seq<Champion>, draws: seq<nat>, n: nat)
    requires n <= |items| && DrawsFit(draws, |items|, n)
    ensures multiset(ChampionIds(Drawn(items, draws, n).0)) + multiset(ChampionIds(Drawn(items, draws, n).1))
      == multiset(ChampionIds(items))
  {
    if n > 0 {
      DrawnIds(items, draws, n - 1);
      var prev := Drawn(items, draws, n - 1);
      DrawStepIds(prev.0, prev.1, draws[n - 1]);
    }
  }

  /** Moving one entry from the list to the drawn ones keeps the ids. */
  lemma DrawStepIds(p: seq<Champion>, rest: seq<Champion>, k: nat)
    requires k < |rest|
    ensures multiset(ChampionIds(p + [rest[k]])) + multiset(ChampionIds(rest[..k] + rest[k + 1..]))
      == multiset(ChampionIds(p)) + multiset(ChampionIds(rest))
  {
    assert rest == rest[..k] + [rest[k]] + rest[k + 1..];
    ChampionIdsAppend(p, rest[k]);
    ChampionIdsConcat(rest[..k], rest[k + 1..]);
    ChampionIdsConcat(rest[..k] + [rest[k]], rest[k + 1..]);
    ChampionIdsAppend(rest[..k], rest[k]);
  }

  /** Counted by id, what the draws leave plus both teams' draws is the
      catalog. */
  lemma DraftIds(items: seq<Champion>, draws: seq<nat>, n: nat)
    requires n <= |items| && DrawsFit(draws, |items|, n)
    ensures var d := Drawn(items, draws, n);
      multiset(ChampionIds(d.1)) + multiset(ChampionIds(Evens(d.0)) + ChampionIds(Odds(d.0)))
        == multiset(ChampionIds(items))
  {
    var d := Drawn(items, draws, n);
    DrawnIds(items, draws, n);
    EvensOddsIds(d.0);
    var a, b := ChampionIds(Evens(d.0)), ChampionIds(Odds(d.0));
    assert multiset(a + b) == multiset(a) + multiset(b);
  }

  /** Counted by id, the two teams' draws make up all the draws. */
  lemma {:induction false} EvensOddsIds(s: seq<Champion>)
    ensures multiset(ChampionIds(Evens(s))) + multiset(ChampionIds(Odds(s))) == multiset(ChampionIds(s))
    decreases |s|
  {
    if s != [] {
      var init, x := s[..|s| - 1], s[|s| - 1];
      assert s == init + [x];
      EvensOddsIds(init);
      EvensOddsAppend(init, x);
      ChampionIdsAppend(init, x);
      ChampionIdsAppend(Evens(init), x);
      ChampionIdsAppend(Odds(init), x);
    }
  }

  /** No two champions with one id leave the list apart: moving one entry
      keeps the ids of the drawn ones and the rest apart. */
  lemma DrawStepKeepsIdsApart(p: seq<Champion>, rest: seq<Champion>, k: nat)
    requires k < |rest| && DistinctNames(ChampionIds(p + rest))
    ensures DistinctNames(ChampionIds((p + [rest[k]]) + (rest[..k] + rest[k + 1..])))
  {
    var s := p + rest;
    var q := (p + [rest[k]]) + (rest[..k] + rest[k + 1..]);
    var n := |p|;
    // position in `s` of each entry of `q`
    var f := (i: int) => if i < n then i else if i == n then n + k else if i <= n + k then i - 1 else i;
    forall i | 0 <= i < |q| ensures 0 <= f(i) < |s| && q[i] == s[f(i)] {
      if i < n {
        assert q[i] == p[i];
      } else if i == n {
        assert q[i] == rest[k];
      } else if i <= n + k {
        assert q[i] == rest[i - n - 1];
      } else {
        assert q[i] == rest[i - n];
      }
    }
    forall i, j | 0 <= i < j < |q| ensures ChampionIds(q)[i] != ChampionIds(q)[j] {
      var a, b := f(i), f(j);
      assert a != b;
      if a < b {
        assert ChampionIds(s)[a] != ChampionIds(s)[b];
      } else {
        assert ChampionIds(s)[b] != ChampionIds(s)[a];
      }
    }
  }

  /** From a catalog without repeated ids, no id is drawn twice, and none
      drawn is still in the list. */
  lemma {:induction false} DrawnKeepsIdsApart(items: seq<Champion>, draws: seq<nat>, n: nat)
    requires n <= |items| && DrawsFit(draws, |items|, n)
    requires DistinctNames(ChampionIds(items))
    ensures DistinctNames(ChampionIds(Drawn(items, draws, n).0 + Drawn(items, draws, n).1))
  {
    if n == 0 {
      assert Drawn(items, draws, n).0 + Drawn(items, draws, n).1 == items;
    } else {
      DrawnKeepsIdsApart(items, draws, n - 1);
      var prev := Drawn(items, draws, n - 1);
      DrawStepKeepsIdsApart(prev.0, prev.1, draws[n - 1]);
    }
  }

  /** Splitting repeat-free draws between the two teams keeps every id once. */
  lemma EvensOddsApart(s: seq<Champion>, rest: seq<Champion>)
    requires DistinctNames(ChampionIds(s + rest))
    ensures DistinctNames(ChampionIds(Evens(s)) + ChampionIds(Odds(s)))
  {
    var a, b := ChampionIds(Evens(s)), ChampionIds(Odds(s));
    var all := ChampionIds(s + rest);
    var q := a + b;
    var f := (i: int) => if i < |a| then 2 * i else 2 * (i - |a|) + 1;
    forall i | 0 <= i < |q| ensures 0 <= f(i) < |s| && q[i] == all[f(i)] {
      if i < |a| {
        assert q[i] == a[i];
      } else {
        assert q[i] == b[i - |a|];
      }
    }
    forall i, j | 0 <= i < j < |q| ensures q[i] != q[j] {
      var x, y := f(i), f(j);
      assert x != y;
      if x < y {
        assert all[x] != all[y];
      } else {
        assert all[y] != all[x];
      }
    }
  }

  /** The draft either fails, exactly when the catalog holds fewer than two
      champions per round, and then leaves it empty; or gives each team one
      champion per round, removes exactly those from the catalog, takes each
      from the catalog, and (from a catalog without repeated ids) never
      gives the same id twice. */
  lemma DraftOutcomeSpec(items: seq<Champion>, draws: seq<nat>, rounds: nat)
    requires DrawsFit(draws, |items|, Min(2 * rounds, |items|))
    ensures var (r, rest) := DraftOutcome(items, draws, rounds);
      && (r.Err? <==> |items| < 2 * rounds)
      && (r.Err? ==> r.error == CatalogExhausted && rest == [])
      && (r.Ok? ==> |r.value.0| == rounds && |r.value.1| == rounds && |rest| == |items| - 2 * rounds)
      && (r.Ok? ==> forall c :: c in rest ==> c in items)
      && (r.Ok? ==> multiset(ChampionIds(rest)) + multiset(r.value.0 + r.value.1) == multiset(ChampionIds(items)))
      && (r.Ok? ==> forall x :: x in r.value.0 + r.value.1 ==> x in ChampionIds(items))
      && (r.Ok? && DistinctNames(ChampionIds(items)) ==> DistinctNames(r.value.0 + r.value.1))
  {
    if |items| >= 2 * rounds {
      var d := Drawn(items, draws, 2 * rounds);
      DrawnPermutes(items, draws, 2 * rounds);
      var a, b := ChampionIds(Evens(d.0)), ChampionIds(Odds(d.0));
      forall c | c in d.1 ensures c in items {
        assert multiset(items)[c] >= multiset(d.1)[c] > 0;
      }
      forall x | x in a + b ensures x in ChampionIds(items) {
        var i :| 0 <= i < |a + b| && (a + b)[i] == x;
        var c := if i < |a| then Evens(d.0)[i] else Odds(d.0)[i - |a|];
        assert c.id == x;
        assert c in d.0;
        assert multiset(items)[c] >= multiset(d.0)[c] > 0;
        var m :| 0 <= m < |items| && items[m] == c;
        assert ChampionIds(items)[m] == x;
      }
      DraftIds(items, draws, 2 * rounds);
      if DistinctNames(ChampionIds(items)) {
        DrawnKeepsIdsApart(items, draws, 2 * rounds);
        EvensOddsApart(d.0, d.1);
      }
    }
  }

  // ---------------------------------------------------------------------
  // Putting it together

  /** A team before it is given a side. */
  datatype Lineup = Lineup(champions: seq<string>, players: seq<Player>, rating: real)

  function Seat(l: Lineup, side: TeamSide): Team
  {
    Team(side, l.champions, l.players, l.rating)
  }

  /** The two teams in shuffled order, the first seated blue, the second red. */
  function Seated(first: Lineup, second: Lineup, swap: bool): (teams: seq<Team>)
    ensures |teams| == 2 && teams[0].side == Blue && teams[1].side == Red
    ensures !swap ==> teams[0] == Seat(first, Blue) && teams[1] == Seat(second, Red)
    ensures swap ==> teams[0] == Seat(second, Blue) && teams[1] == Seat(first, Red)
  {
    var order := if swap then [second, first] else [first, second];
    [Seat(order[0], Blue), Seat(order[1], Red)]
  }

  /** What the random choices must satisfy: the matchup index lies in the
      pool and every draw is a position of the list at that draw. */
  predicate OraclesFit(players: seq<Player>, items: seq<Champion>, choicesNumber: int,
                       poolIndex: nat, draws: seq<nat>)
  {
    var teamSize := |players| / 2;
    && (|players| % 2 == 0 && teamSize > 0 ==> poolIndex < PoolSize(MatchupCount(|players|)))
    && DrawsFit(draws, |items|, Min(2 * Rounds(choicesNumber, teamSize), |items|))
  }

  lemma CandidatesCount(players: seq<Player>)
    requires |players| / 2 > 0
    ensures |Candidates(players)| == MatchupCount(|players|)
  {
    CombinationsCount(players, |players| / 2);
  }

  /** The ranked candidates and the one the pool index picks. */
  function Chosen(players: seq<Player>, poolIndex: nat): (m: Matchup)
    requires |players| / 2 > 0 && poolIndex < PoolSize(MatchupCount(|players|))
  {
    CandidatesCount(players);
    SortedByDifferenceSorts(Candidates(players));
    SortedByDifference(Candidates(players))[poolIndex]
  }

  /** What generation returns and what it leaves of the caller's catalog. */
  function Generate(players: seq<Player>, items: seq<Champion>, choicesNumber: int,
                    poolIndex: nat, draws: seq<nat>, swap: bool)
    : (Result<seq<Team>, GenError>, seq<Champion>)
    requires OraclesFit(players, items, choicesNumber, poolIndex, draws)
  {
    var teamSize := |players| / 2;
    if |players| % 2 != 0 then (Err(OddPlayerCount), items)
    else if teamSize == 0 then (Err(EmptyPlayerList), items)
    else
      var chosen := Chosen(players, poolIndex);
      var draft := DraftOutcome(items, draws, Rounds(choicesNumber, teamSize));
      if draft.0.Err? then (Err(CatalogExhausted), draft.1)
      else
        var first := Lineup(draft.0.value.0, chosen.teamA, chosen.ratingA);
        var second := Lineup(draft.0.value.1, chosen.teamB, chosen.ratingB);
        (Ok(Seated(first, second, swap)), draft.1)
  }

  /** An odd number of players is refused before anything else happens;
      the catalog is left as it was. */
  lemma GenerateRejectsOddCount(players: seq<Player>, items: seq<Champion>, choicesNumber: int,
                                poolIndex: nat, draws: seq<nat>, swap: bool)
    requires OraclesFit(players, items, choicesNumber, poolIndex, draws)
    requires |players| % 2 == 1
    ensures Generate(players, items, choicesNumber, poolIndex, draws, swap) == (Err(OddPlayerCount), items)
  {
  }

  /** An empty player list passes the parity test and then fails on the
      division by a team size of zero; the catalog is left as it was. */
  lemma GenerateRejectsNoPlayers(items: seq<Champion>, choicesNumber: int,
                                 poolIndex: nat, draws: seq<nat>, swap: bool)
    requires OraclesFit([], items, choicesNumber, poolIndex, draws)
    ensures Generate([], items, choicesNumber, poolIndex, draws, swap) == (Err(EmptyPlayerList), items)
  {
  }

  /** With an even, non-empty player list the outcome is decided by the
      draft: it fails exactly when the catalog holds fewer than two champions
      per round, and then leaves it empty; otherwise there are two teams, the
      first blue and the second red, each with one champion per round, the
      catalog has lost exactly the champions drawn, every champion id comes
      from the catalog, and a catalog without repeated ids yields no id
      twice. */
  lemma GenerateDrafts(players: seq<Player>, items: seq<Champion>, choicesNumber: int,
                       poolIndex: nat, draws: seq<nat>, swap: bool)
    requires OraclesFit(players, items, choicesNumber, poolIndex, draws)
    requires |players| % 2 == 0 && |players| > 0
    ensures var (r, rest) := Generate(players, items, choicesNumber, poolIndex, draws, swap);
      var rounds := Rounds(choicesNumber, |players| / 2);
      && (r.Err? <==> |items| < 2 * rounds)
      && (r.Err? ==> r.error == CatalogExhausted && rest == [])
      && (r.Ok? ==> |r.value| == 2 && r.value[0].side == Blue && r.value[1].side == Red)
      && (r.Ok? ==> |r.value[0].champions| == rounds && |r.value[1].champions| == rounds)
      && (r.Ok? ==> |rest| == |items| - 2 * rounds && forall c :: c in rest ==> c in items)
      && (r.Ok? ==> multiset(ChampionIds(rest)) + multiset(r.value[0].champions + r.value[1].champions)
                      == multiset(ChampionIds(items)))
      && (r.Ok? ==> forall x :: x in r.value[0].champions + r.value[1].champions ==> x in ChampionIds(items))
      && (r.Ok? && DistinctNames(ChampionIds(items)) ==> DistinctNames(r.value[0].champions + r.value[1].champions))
  {
    var rounds := Rounds(choicesNumber, |players| / 2);
    DraftOutcomeSpec(items, draws, rounds);
    var d := DraftOutcome(items, draws, rounds);
    if d.0.Ok? {
      var (a, b) := d.0.value;
      if DistinctNames(ChampionIds(items)) {
        NamesSwap(a, b);
      }
      assert forall x :: x in b + a ==> x in a + b;
      assert multiset(b + a) == multiset(a + b);
    }
  }

  lemma NamesSwap(a: seq<string>, b: seq<string>)
    requires DistinctNames(a + b)
    ensures DistinctNames(b + a)
  {
    var p, q := a + b, b + a;
    forall i, j | 0 <= i < j < |q| ensures q[i] != q[j] {
      var f := (k: int) => if k < |b| then k + |a| else k - |b|;
      assert q[i] == p[f(i)] && q[j] == p[f(j)];
      if f(i) < f(j) {
        assert p[f(i)] != p[f(j)];
      } else {
        assert p[f(j)] != p[f(i)];
      }
    }
  }

  lemma IdsSwap(a: seq<Player>, b: seq<Player>)
    requires Distinct(Ids(a) + Ids(b))
    ensures Distinct(Ids(b) + Ids(a))
  {
    var p, q := Ids(a) + Ids(b), Ids(b) + Ids(a);
    forall i, j | 0 <= i < j < |q| ensures q[i] != q[j] {
      var f := (k: int) => if k < |b| then k + |a| else k - |b|;
      assert q[i] == p[f(i)] && q[j] == p[f(j)];
      if f(i) < f(j) {
        assert p[f(i)] != p[f(j)];
      } else {
        assert p[f(j)] != p[f(i)];
      }
    }
  }

  /** The chosen matchup is one of the candidates, and at least as close as
      every candidate ranked after the pool. */
  lemma ChosenIsAmongTheClosest(players: seq<Player>, poolIndex: nat)
    requires |players| / 2 > 0 && poolIndex < PoolSize(MatchupCount(|players|))
    ensures Chosen(players, poolIndex) in Candidates(players)
    ensures var ranked := SortedByDifference(Candidates(players));
      && |ranked| == MatchupCount(|players|)
      && ranked[poolIndex] == Chosen(players, poolIndex)
      && forall j :: PoolSize(|ranked|) <= j < |ranked| ==>
           Chosen(players, poolIndex).eloDifference <= ranked[j].eloDifference
  {
    var ranked := SortedByDifference(Candidates(players));
    CandidatesCount(players);
    SortedByDifferenceSorts(Candidates(players));
    assert ranked[poolIndex] in multiset(ranked);
  }

  /** The candidates of `2k` distinct players are the `Binom(2k - 1, k - 1)`
      selections of `k` that take the first player, none listed twice, so
      no split appears also with its two teams exchanged. */
  lemma CandidatesAreHalfTheSplits(players: seq<Player>)
    requires |players| % 2 == 0 && |players| > 0 && Distinct(Ids(players))
    ensures var cs, k := Candidates(players), |players| / 2;
      && |cs| == Binom(2 * k - 1, k - 1)
      && (forall i :: 0 <= i < |cs| ==> |cs[i].teamA| == k && cs[i].teamA[0] == players[0])
      && (forall i, j :: 0 <= i < j < |cs| ==> cs[i].teamA != cs[j].teamA)
  {
    var k := |players| / 2;
    var cs := Candidates(players);
    FirstHalfTakesFirstPlayer(players, k);
    forall i, j | 0 <= i < j < |cs| ensures cs[i].teamA != cs[j].teamA {
      CombinationsDistinct(players, k, i, j);
    }
  }

  /** From distinct players the chosen matchup splits them into two teams of
      half the players each, with no player on both and none left out; each
      rating is the mean rating of its roster. */
  lemma ChosenSplitsPlayers(players: seq<Player>, poolIndex: nat)
    requires |players| % 2 == 0 && |players| > 0 && Distinct(Ids(players))
    requires poolIndex < PoolSize(MatchupCount(|players|))
    ensures var m, k := Chosen(players, poolIndex), |players| / 2;
      && |m.teamA| == k && |m.teamB| == k
      && Distinct(Ids(m.teamA) + Ids(m.teamB))
      && IdSet(m.teamA) + IdSet(m.teamB) == IdSet(players)
      && m.ratingA == Total(m.teamA) as real / |m.teamA| as real
      && m.ratingB == Total(m.teamB) as real / |m.teamB| as real
      && m.eloDifference == Abs(m.ratingA - m.ratingB)
  {
    var k := |players| / 2;
    var j := ChosenSelection(players, poolIndex);
    SelectionSplits(players, k, j);
    MatchupOfSplits(players, Combinations(players, k)[j]);
  }

  /** The chosen matchup is the one some selection of half the players makes. */
  lemma ChosenSelection(players: seq<Player>, poolIndex: nat) returns (j: int)
    requires |players| / 2 > 0 && poolIndex < PoolSize(MatchupCount(|players|))
    ensures 0 <= j < |Combinations(players, |players| / 2)|
    ensures Chosen(players, poolIndex) == MatchupOf(players, Combinations(players, |players| / 2)[j])
  {
    ChosenIsAmongTheClosest(players, poolIndex);
    var cs := Candidates(players);
    j :| 0 <= j < |cs| && cs[j] == Chosen(players, poolIndex);
  }

  /** A selection of half of distinct players that splits them well makes a
      matchup of two halves, with no player on both and none left out, each
      rated at its mean. */
  lemma MatchupOfSplits(players: seq<Player>, c: seq<Player>)
    requires |players| % 2 == 0 && |players| > 0 && Distinct(Ids(players))
    requires |c| == |players| / 2 && SplitsWell(players, c)
    ensures var m, k := MatchupOf(players, c), |players| / 2;
      && |m.teamA| == k && |m.teamB| == k
      && Distinct(Ids(m.teamA) + Ids(m.teamB))
      && IdSet(m.teamA) + IdSet(m.teamB) == IdSet(players)
      && m.ratingA == Total(m.teamA) as real / |m.teamA| as real
      && m.ratingB == Total(m.teamB) as real / |m.teamB| as real
      && m.eloDifference == Abs(m.ratingA - m.ratingB)
  {
    DedupDistinct(players);
  }

  /** From distinct players a successful generation seats two teams of half
      the players each, blue first, with no player on both and none left
      out, each rated at the mean of its roster. */
  lemma GenerateSplitsPlayers(players: seq<Player>, items: seq<Champion>, choicesNumber: int,
                              poolIndex: nat, draws: seq<nat>, swap: bool)
    requires OraclesFit(players, items, choicesNumber, poolIndex, draws)
    requires Distinct(Ids(players))
    ensures var r := Generate(players, items, choicesNumber, poolIndex, draws, swap).0;
      r.Ok? ==>
        var (blue, red) := (r.value[0], r.value[1]);
        && |blue.players| == |players| / 2 && |red.players| == |players| / 2
        && Distinct(Ids(blue.players) + Ids(red.players))
        && IdSet(blue.players) + IdSet(red.players) == IdSet(players)
        && blue.rating == Total(blue.players) as real / |blue.players| as real
        && red.rating == Total(red.players) as real / |red.players| as real
  {
    var r := Generate(players, items, choicesNumber, poolIndex, draws, swap).0;
    if r.Ok? {
      var m := Chosen(players, poolIndex);
      ChosenSplitsPlayers(players, poolIndex);
      if swap {
        IdsSwap(m.teamA, m.teamB);
      }
    }
  }

  /** The loop that builds one matchup for each of the first half, rounded
      up, of the selections. */
  method BuildMatchups(players: seq<Player>, combos: seq<seq<Player>>) returns (matchups: seq<Matchup>)
    requires |players| / 2 > 0
    ensures |matchups| == (|combos| + 1) / 2
    ensures forall j :: 0 <= j < |matchups| ==> matchups[j] == MatchupOf(players, combos[j])
  {
    var count := (|combos| + 1) / 2;
    matchups := [];
    var i := 0;
    while i < count
      invariant 0 <= i <= count
      invariant matchups == MatchupsUpTo(players, combos, i)
    {
      matchups := matchups + [MatchupOf(players, combos[i])];
      i := i + 1;
    }
    forall j | 0 <= j < count ensures matchups[j] == MatchupOf(players, combos[j]) {
      MatchupsUpToAt(players, combos, count, j);
    }
  }

  /** The matchups of the first `n` selections, in order. */
  function MatchupsUpTo(players: seq<Player>, combos: seq<seq<Player>>, n: nat): (r: seq<Matchup>)
    requires |players| / 2 > 0 && n <= |combos|
    ensures |r| == n
  {
    if n == 0 then [] else MatchupsUpTo(players, combos, n - 1) + [MatchupOf(players, combos[n - 1])]
  }

  lemma {:induction false} MatchupsUpToAt(players: seq<Player>, combos: seq<seq<Player>>, n: nat, j: int)
    requires |players| / 2 > 0 && n <= |combos| && 0 <= j < n
    ensures MatchupsUpTo(players, combos, n)[j] == MatchupOf(players, combos[j])
  {
    if j < n - 1 {
      MatchupsUpToAt(players, combos, n - 1, j);
    }
  }

  /** Sorts the matchups in place and takes the one at the pool index. */
  method ChooseMatchup(players: seq<Player>, matchups: seq<Matchup>, poolIndex: nat) returns (chosen: Matchup)
    requires |players| / 2 > 0 && poolIndex < PoolSize(MatchupCount(|players|))
    requires matchups == Candidates(players)
    ensures chosen == Chosen(players, poolIndex)
  {
    var ranked := new Matchup[|matchups|](j requires 0 <= j < |matchups| => matchups[j]);
    assert ranked[..] == matchups;
    SortByDifference(ranked);
    CandidatesCount(players);
    SortedByDifferenceSorts(matchups);
    chosen := ranked[poolIndex];
  }

  /** Generates two teams from `players`, drafting from the caller's
      `catalog`, which loses every champion drawn. */
  method GenerateTeams(players: seq<Player>, catalog: ChampionList, choicesNumber: int,
                       poolIndex: nat, draws: seq<nat>, swap: bool)
    returns (r: Result<seq<Team>, GenError>)
    requires OraclesFit(players, catalog.items, choicesNumber, poolIndex, draws)
    modifies catalog
    ensures (r, catalog.items) == Generate(players, old(catalog.items), choicesNumber, poolIndex, draws, swap)
  {
    var teamSize := |players| / 2;
    if |players| % 2 != 0 {
      return Err(OddPlayerCount);
    }
    var combos := Combinations(players, teamSize);
    if teamSize == 0 {
      // the rating of the first, empty, matchup divides by zero
      return Err(EmptyPlayerList);
    }
    var matchups := BuildMatchups(players, combos);
    assert matchups == Candidates(players);
    var chosen := ChooseMatchup(players, matchups, poolIndex);
    var drafted := Draft(catalog, draws, Rounds(choicesNumber, teamSize));
    if drafted.Err? {
      return Err(CatalogExhausted);
    }
    var teams := [Lineup(drafted.value.0, chosen.teamA, chosen.ratingA),
                  Lineup(drafted.value.1, chosen.teamB, chosen.ratingB)];
    if swap {
      teams := [teams[1], teams[0]];
    }
    return Ok([Seat(teams[0], Blue), Seat(teams[1], Red)]);
  }
}
