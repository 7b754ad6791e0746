/** How the team balancer enumerates the ways to split a player list in two:
    the k-element selections in the order of the host library's
    `combinations`, and the other team as the players left over. */
module Splits {
  import opened Database

  /** The binomial coefficient, by Pascal's rule. */
  function Binom(n: nat, k: nat): nat
  {
    if k == 0 then 1 else if n == 0 then 0 else Binom(n - 1, k - 1) + Binom(n - 1, k)
  }

  /** Every selection of `cs` with `x` put in front. */
  function Prefixed(x: Player, cs: seq<seq<Player>>): (r: seq<seq<Player>>)
    ensures |r| == |cs|
    ensures forall i {:trigger r[i]} :: 0 <= i < |cs| ==> r[i] == [x] + cs[i]
  {
    if cs == [] then [] else [[x] + cs[0]] + Prefixed(x, cs[1..])
  }

  /** The k-element selections of `s`, keeping the order of `s` inside each
      and ordered lexicographically by position: first those that take
      `s[0]`, then those that skip it.  With `k == 0` there is one, empty,
      selection; with `k > |s|` there is none. */
  function Combinations(s: seq<Player>, k: nat): seq<seq<Player>>
    decreases |s|
  {
    if k == 0 then [[]]
    else if s == [] then []
    else Prefixed(s[0], Combinations(s[1..], k - 1)) + Combinations(s[1..], k)
  }

  /** There are `Binom(|s|, k)` selections. */
  lemma {:induction false} CombinationsCount(s: seq<Player>, k: nat)
    ensures |Combinations(s, k)| == Binom(|s|, k)
    decreases |s|
  {
    if k != 0 && s != [] {
      CombinationsCount(s[1..], k - 1);
      CombinationsCount(s[1..], k);
    }
  }

  /** Each selection has `k` players, each taken from `s`. */
  lemma {:induction false} CombinationShape(s: seq<Player>, k: nat, i: int)
    requires 0 <= i < |Combinations(s, k)|
    ensures |Combinations(s, k)[i]| == k
    ensures forall q :: q in Combinations(s, k)[i] ==> q in s
    decreases |s|, 1
  {
    if k != 0 {
      if i < |Combinations(s[1..], k - 1)| {
        TakeShape(s, k, i);
      } else {
        SkipShape(s, k, i);
      }
    }
  }

  /** The selections listed first take the first player. */
  lemma TakesAt(s: seq<Player>, k: nat, i: int)
    requires k != 0 && s != [] && 0 <= i < |Combinations(s[1..], k - 1)|
    ensures Combinations(s, k)[i] == [s[0]] + Combinations(s[1..], k - 1)[i]
  {
  }

  /** Players of the tail are players of the list. */
  lemma TailInside(s: seq<Player>, c: seq<Player>)
    requires s != [] && forall q :: q in c ==> q in s[1..]
    ensures forall q :: q in c ==> q in s
  {
    forall q | q in c ensures q in s {
      var m :| 0 <= m < |s| - 1 && s[1..][m] == q;
      assert s[m + 1] == q;
    }
  }

  /** The first player put before players of the tail gives players of the
      list. */
  lemma PrefixedInside(s: seq<Player>, c: seq<Player>)
    requires s != [] && forall q :: q in c ==> q in s[1..]
    ensures forall q :: q in [s[0]] + c ==> q in s
  {
    TailInside(s, c);
  }

  lemma {:induction false} TakeShape(s: seq<Player>, k: nat, i: int)
    requires k != 0 && s != [] && 0 <= i < |Combinations(s[1..], k - 1)|
    ensures |Combinations(s, k)[i]| == k
    ensures forall q :: q in Combinations(s, k)[i] ==> q in s
    decreases |s|, 0
  {
    var t := s[1..];
    var first := Combinations(t, k - 1);
    var c := Combinations(s, k)[i];
    TakesAt(s, k, i);
    CombinationShape(t, k - 1, i);
    PrefixedInside(s, first[i]);
  }

  lemma {:induction false} SkipShape(s: seq<Player>, k: nat, i: int)
    requires k != 0 && s != [] && |Combinations(s[1..], k - 1)| <= i < |Combinations(s, k)|
    ensures |Combinations(s, k)[i]| == k
    ensures forall q :: q in Combinations(s, k)[i] ==> q in s
    decreases |s|, 0
  {
    var t := s[1..];
    var c := Combinations(s, k)[i];
    assert c == Combinations(t, k)[i - |Combinations(t, k - 1)|];
    CombinationShape(t, k, i - |Combinations(t, k - 1)|);
    TailInside(s, c);
  }

  lemma {:induction false} BinomAbove(n: nat, k: nat)
    requires k > n
    ensures Binom(n, k) == 0
  {
    if n > 0 {
      BinomAbove(n - 1, k - 1);
      BinomAbove(n - 1, k);
    }
  }

  lemma {:induction false} BinomAll(n: nat)
    ensures Binom(n, n) == 1
  {
    if n > 0 {
      BinomAll(n - 1);
      BinomAbove(n - 1, n);
    }
  }

  /** Choosing `k` is choosing the `n - k` left out. */
  lemma {:induction false} BinomSymmetric(n: nat, k: nat)
    requires k <= n
    ensures Binom(n, k) == Binom(n, n - k)
  {
    if k == 0 {
      BinomAll(n);
    } else if k == n {
      BinomAll(n);
    } else {
      BinomSymmetric(n - 1, k - 1);
      BinomSymmetric(n - 1, k);
      assert n - 1 - (k - 1) == n - k;
      assert Binom(n, n - k) == Binom(n - 1, n - k - 1) + Binom(n - 1, n - k);
    }
  }

  /** For an even list of `2k` players, the first half of the selections of
      `k` are exactly those that take the first player: there are
      `Binom(2k - 1, k - 1)` of them, which is `ceil(Binom(2k, k) / 2)`. */
  lemma FirstHalfTakesFirstPlayer(s: seq<Player>, k: nat)
    requires k > 0 && |s| == 2 * k
    ensures (|Combinations(s, k)| + 1) / 2 == Binom(2 * k - 1, k - 1)
    ensures forall i :: 0 <= i < (|Combinations(s, k)| + 1) / 2 ==>
      |Combinations(s, k)[i]| == k && Combinations(s, k)[i][0] == s[0]
  {
    var t := s[1..];
    var first := Combinations(t, k - 1);
    FirstHalfCount(s, k);
    forall i | 0 <= i < |first|
      ensures |Combinations(s, k)[i]| == k && Combinations(s, k)[i][0] == s[0]
    {
      assert Combinations(s, k)[i] == [s[0]] + first[i];
      CombinationShape(t, k - 1, i);
    }
  }

  /** The selections that take the first player of `2k` are the first half. */
  lemma FirstHalfCount(s: seq<Player>, k: nat)
    requires k > 0 && |s| == 2 * k
    ensures (|Combinations(s, k)| + 1) / 2 == Binom(2 * k - 1, k - 1) == |Combinations(s[1..], k - 1)|
  {
    var t := s[1..];
    CombinationsCount(s, k);
    CombinationsCount(t, k - 1);
    CombinationsCount(t, k);
    BinomSymmetric(2 * k - 1, k);
    assert 2 * k - 1 - k == k - 1;
    assert Binom(2 * k, k) == Binom(2 * k - 1, k - 1) + Binom(2 * k - 1, k);
  }

  /** The ids of a list of players, as a set. */
  function IdSet(ps: seq<Player>): set<int>
  {
    set p | p in ps :: p.id
  }

  lemma IdSetAppend(a: seq<Player>, b: seq<Player>)
    ensures IdSet(a + b) == IdSet(a) + IdSet(b)
  {
    assert forall p :: p in a + b <==> p in a || p in b;
  }

  lemma IdsAppend(a: seq<Player>, b: seq<Player>)
    ensures Ids(a + b) == Ids(a) + Ids(b)
  {
    var l, r := Ids(a + b), Ids(a) + Ids(b);
    forall i | 0 <= i < |l| ensures l[i] == r[i] {
      if i < |a| {
        assert (a + b)[i] == a[i];
      } else {
        assert (a + b)[i] == b[i - |a|];
      }
    }
  }

  /** The players of `ps` whose id is not in `ids`, in order. */
  function Without(ps: seq<Player>, ids: set<int>): (r: seq<Player>)
    ensures |r| <= |ps|
    ensures forall p :: p in r <==> p in ps && p.id !in ids
  {
    if ps == [] then [] else (if ps[0].id in ids then [] else [ps[0]]) + Without(ps[1..], ids)
  }

  /** The first player of each id, in order: the members of a set of players
      built from `ps`, since such a set keeps the first of two equal members. */
  function DedupById(ps: seq<Player>): (r: seq<Player>)
    ensures IdSet(r) == IdSet(ps)
    ensures forall p :: p in r ==> p in ps
    decreases |ps|
  {
    if ps == [] then []
    else
      var d := DedupById(ps[..|ps| - 1]);
      var p := ps[|ps| - 1];
      assert ps == ps[..|ps| - 1] + [p];
      IdSetAppend(ps[..|ps| - 1], [p]);
      IdSetAppend(d, [p]);
      assert IdSet([p]) == {p.id};
      if p.id in IdSet(d) then d else d + [p]
  }

  lemma DistinctIdsAt(ps: seq<Player>, i: int, j: int)
    requires Distinct(Ids(ps)) && 0 <= i < j < |ps|
    ensures ps[i].id != ps[j].id
  {
    assert Ids(ps)[i] == ps[i].id && Ids(ps)[j] == ps[j].id;
  }

  /** The id of the last player of a repeat-free list is not among the others. */
  lemma LastIdIsNew(ps: seq<Player>)
    requires ps != [] && Distinct(Ids(ps))
    ensures ps[|ps| - 1].id !in IdSet(ps[..|ps| - 1])
  {
    var n := |ps| - 1;
    forall q | q in ps[..n] ensures q.id != ps[n].id {
      var i :| 0 <= i < n && ps[..n][i] == q;
      DistinctIdsAt(ps, i, n);
    }
  }

  /** Rosters that differ only in ratings have the same id set. */
  lemma RatingsOnlyDifferIdSet(ps: seq<Player>, qs: seq<Player>)
    requires RatingsOnlyDiffer(ps, qs)
    ensures IdSet(ps) == IdSet(qs)
  {
    forall x | x in IdSet(ps) ensures x in IdSet(qs) {
      var i :| 0 <= i < |ps| && ps[i].id == x;
      assert qs[i] in qs;
    }
    forall x | x in IdSet(qs) ensures x in IdSet(ps) {
      var i :| 0 <= i < |qs| && qs[i].id == x;
      assert ps[i] in ps;
    }
  }

  /** The host language's set of players compares them by id, so building it
      from a roster whose ratings have changed keeps the same players in the
      same places: only the ratings differ. */
  lemma {:induction false} DedupIgnoresRating(ps: seq<Player>, qs: seq<Player>)
    requires RatingsOnlyDiffer(ps, qs)
    ensures RatingsOnlyDiffer(DedupById(ps), DedupById(qs))
    ensures Ids(DedupById(ps)) == Ids(DedupById(qs))
    decreases |ps|
  {
    if ps != [] {
      var n := |ps| - 1;
      var ip, iq := ps[..n], qs[..n];
      assert RatingsOnlyDiffer(ip, iq) by {
        forall i | 0 <= i < n ensures iq[i] == ip[i].(points := iq[i].points) {
          assert ip[i] == ps[i] && iq[i] == qs[i];
        }
      }
      DedupIgnoresRating(ip, iq);
      RatingsOnlyDifferIdSet(ip, iq);
      var dp, dq := DedupById(ip), DedupById(iq);
      assert ps[n].id == qs[n].id;
      if ps[n].id !in IdSet(dp) {
        assert RatingsOnlyDiffer(dp + [ps[n]], dq + [qs[n]]) by {
          forall i | 0 <= i < |dp| + 1 ensures (dq + [qs[n]])[i] == (dp + [ps[n]])[i].(points := (dq + [qs[n]])[i].points) {
            if i < |dp| {
              assert (dq + [qs[n]])[i] == dq[i] && (dp + [ps[n]])[i] == dp[i];
            }
          }
        }
      }
    }
    RatingsOnlyDifferSameIds(DedupById(ps), DedupById(qs));
  }

  /** With distinct ids nothing is dropped. */
  lemma {:induction false} DedupDistinct(ps: seq<Player>)
    requires Distinct(Ids(ps))
    ensures DedupById(ps) == ps
    decreases |ps|
  {
    if ps != [] {
      var n := |ps| - 1;
      var init := ps[..n];
      InitDistinct(ps);
      DedupDistinct(init);
      LastIdIsNew(ps);
      assert ps == init + [ps[n]];
    }
  }

  /** Dropping the last player keeps the ids apart. */
  lemma InitDistinct(ps: seq<Player>)
    requires ps != [] && Distinct(Ids(ps))
    ensures Distinct(Ids(ps[..|ps| - 1]))
  {
    var init := ps[..|ps| - 1];
    forall i, j | 0 <= i < j < |init| ensures Ids(init)[i] != Ids(init)[j] {
      assert Ids(ps)[i] == Ids(init)[i] && Ids(ps)[j] == Ids(init)[j];
    }
  }

  /** Without a player's own id, the ids of its neighbours filter alike. */
  lemma {:induction false} WithoutIgnores(ps: seq<Player>, ids: set<int>, v: int)
    requires v !in IdSet(ps)
    ensures Without(ps, ids + {v}) == Without(ps, ids)
  {
    if ps != [] {
      assert ps[0] in ps;
      assert IdSet(ps[1..]) <= IdSet(ps) by {
        forall x | x in IdSet(ps[1..]) ensures x in IdSet(ps) {
          var q :| q in ps[1..] && q.id == x;
          assert q in ps;
        }
      }
      WithoutIgnores(ps[1..], ids, v);
    }
  }

  /** The id of the first player of a repeat-free list is not among the rest. */
  lemma FirstIdIsNew(s: seq<Player>)
    requires s != [] && Distinct(Ids(s))
    ensures s[0].id !in IdSet(s[1..])
  {
    forall q | q in s[1..] ensures q.id != s[0].id {
      var i :| 0 <= i < |s| - 1 && s[1..][i] == q;
      assert Ids(s)[i + 1] == q.id && Ids(s)[0] == s[0].id;
    }
  }

  lemma TailDistinct(s: seq<Player>)
    requires s != [] && Distinct(Ids(s))
    ensures Distinct(Ids(s[1..]))
  {
    var t := s[1..];
    forall i, j | 0 <= i < j < |t| ensures Ids(t)[i] != Ids(t)[j] {
      assert Ids(s)[i + 1] == Ids(t)[i] && Ids(s)[j + 1] == Ids(t)[j];
    }
  }

  /** `c` and the players of `s` it leaves out: the rest has `|s| - |c|`
      players, no id occurs twice in the two together, and between them they
      hold every id of `s`. */
  predicate SplitsWell(s: seq<Player>, c: seq<Player>)
  {
    var rest := Without(s, IdSet(c));
    |rest| == |s| - |c| && Distinct(Ids(c) + Ids(rest)) && IdSet(c) + IdSet(rest) == IdSet(s)
  }

  /** A selection that takes the first player splits well if its tail does. */
  lemma TakeSplitsWell(s: seq<Player>, c': seq<Player>)
    requires s != [] && Distinct(Ids(s)) && SplitsWell(s[1..], c')
    ensures SplitsWell(s, [s[0]] + c')
  {
    var t := s[1..];
    var c := [s[0]] + c';
    var v := s[0].id;
    var rest := Without(t, IdSet(c'));
    TakeLeavesRest(s, c');
    FirstIdIsNew(s);
    IdsOutside(v, c');
    IdsOutside(v, rest);
    JoinDistinct(s[0], Ids(c'), Ids(rest));
    IdsAppend([s[0]], c');
    assert Ids([s[0]]) == [v];
    assert IdSet(c) + IdSet(rest) == IdSet(s);
  }

  lemma IdsOutside(v: int, c: seq<Player>)
    requires v !in IdSet(c)
    ensures v !in Ids(c)
  {
    forall m | 0 <= m < |c| ensures Ids(c)[m] != v {
      assert c[m] in c;
    }
  }

  /** Taking the first player leaves the same players as the tail's selection
      does, and adds the first id to both id sets. */
  lemma TakeLeavesRest(s: seq<Player>, c': seq<Player>)
    requires s != [] && Distinct(Ids(s))
    ensures Without(s, IdSet([s[0]] + c')) == Without(s[1..], IdSet(c'))
    ensures IdSet([s[0]] + c') == IdSet(c') + {s[0].id} && IdSet(s) == IdSet(s[1..]) + {s[0].id}
  {
    var t := s[1..];
    var v := s[0].id;
    FirstIdIsNew(s);
    assert s == [s[0]] + t;
    IdSetAppend([s[0]], t);
    IdSetAppend([s[0]], c');
    assert IdSet([s[0]]) == {v};
    var I := IdSet([s[0]] + c');
    assert Without(s, I) == Without(t, I);
    WithoutIgnores(t, IdSet(c'), v);
  }

  /** A selection that skips the first player splits well if it does so on
      the tail. */
  lemma SkipSplitsWell(s: seq<Player>, c: seq<Player>)
    requires s != [] && Distinct(Ids(s)) && SplitsWell(s[1..], c)
    requires forall q :: q in c ==> q in s[1..]
    ensures SplitsWell(s, c)
  {
    var t := s[1..];
    var v := s[0].id;
    var rest := Without(t, IdSet(c));
    FirstIdOutside(s, c);
    FirstIdOutside(s, rest);
    SkipLeavesFirst(s, c);
    IdsAppend([s[0]], rest);
    assert Ids([s[0]]) == [v];
    InsertDistinct(Ids(c), v, Ids(rest));
  }

  /** Skipping the first player leaves it in front of what the tail's
      selection leaves. */
  lemma SkipLeavesFirst(s: seq<Player>, c: seq<Player>)
    requires s != [] && s[0].id !in IdSet(c)
    ensures Without(s, IdSet(c)) == [s[0]] + Without(s[1..], IdSet(c))
    ensures IdSet(s) == {s[0].id} + IdSet(s[1..])
    ensures IdSet([s[0]] + Without(s[1..], IdSet(c))) == {s[0].id} + IdSet(Without(s[1..], IdSet(c)))
  {
    assert s == [s[0]] + s[1..];
    IdSetAppend([s[0]], s[1..]);
    IdSetAppend([s[0]], Without(s[1..], IdSet(c)));
    assert IdSet([s[0]]) == {s[0].id};
  }

  /** Players taken from the tail of a repeat-free list do not carry the
      first player's id. */
  lemma FirstIdOutside(s: seq<Player>, c: seq<Player>)
    requires s != [] && Distinct(Ids(s))
    requires forall q :: q in c ==> q in s[1..]
    ensures s[0].id !in IdSet(c) && s[0].id !in Ids(c)
  {
    FirstIdIsNew(s);
    forall m | 0 <= m < |c| ensures Ids(c)[m] != s[0].id {
      assert c[m] in c;
    }
  }

  /** A selection of `k` from a repeat-free list splits it well: the
      selection has `k` players and the rest `|s| - k`. */
  lemma {:induction false} SelectionSplits(s: seq<Player>, k: nat, i: int)
    requires Distinct(Ids(s)) && 0 <= i < |Combinations(s, k)|
    ensures |Combinations(s, k)[i]| == k && SplitsWell(s, Combinations(s, k)[i])
    decreases |s|
  {
    var c := Combinations(s, k)[i];
    CombinationShape(s, k, i);
    if k == 0 {
      assert c == [];
      assert IdSet(c) == {};
      WithoutAll(s);
    } else {
      var t := s[1..];
      TailDistinct(s);
      var first := Combinations(t, k - 1);
      if i < |first| {
        assert c == [s[0]] + first[i];
        SelectionSplits(t, k - 1, i);
        TakeSplitsWell(s, first[i]);
      } else {
        var j := i - |first|;
        assert c == Combinations(t, k)[j];
        SelectionSplits(t, k, j);
        CombinationShape(t, k, j);
        SkipSplitsWell(s, c);
      }
    }
  }

  /** Nothing is filtered out by the empty set. */
  lemma {:induction false} WithoutAll(s: seq<Player>)
    ensures Without(s, {}) == s
  {
    if s != [] {
      WithoutAll(s[1..]);
    }
  }

  /** Putting a new id in front of a repeat-free pair keeps it repeat-free. */
  lemma JoinDistinct(x: Player, a: seq<int>, b: seq<int>)
    requires Distinct(a + b) && x.id !in a && x.id !in b
    ensures Distinct([x.id] + a + b)
  {
    var r := [x.id] + a + b;
    forall i, j | 0 <= i < j < |r| ensures r[i] != r[j] {
      assert r[j] == (a + b)[j - 1];
      if i > 0 {
        assert r[i] == (a + b)[i - 1];
      } else {
        assert (a + b)[j - 1] in a + b;
      }
    }
  }

  /** Putting a new id between the two halves of a repeat-free pair keeps it
      repeat-free. */
  lemma InsertDistinct(a: seq<int>, x: int, b: seq<int>)
    requires Distinct(a + b) && x !in a && x !in b
    ensures Distinct(a + ([x] + b))
  {
    var r := a + ([x] + b);
    forall i, j | 0 <= i < j < |r| ensures r[i] != r[j] {
      if i < |a| && j < |a| {
        assert r[i] == (a + b)[i] && r[j] == (a + b)[j];
      } else if i < |a| && j == |a| {
        assert r[i] == a[i];
      } else if i < |a| {
        assert r[i] == (a + b)[i] && r[j] == (a + b)[j - 1];
      } else if i == |a| {
        assert r[j] == b[j - |a| - 1];
      } else {
        assert r[i] == (a + b)[i - 1] && r[j] == (a + b)[j - 1];
      }
    }
  }

  /** From a repeat-free list no selection is listed twice. */
  lemma {:induction false} CombinationsDistinct(s: seq<Player>, k: nat, i: int, j: int)
    requires Distinct(Ids(s)) && 0 <= i < j < |Combinations(s, k)|
    ensures Combinations(s, k)[i] != Combinations(s, k)[j]
    decreases |s|, 1
  {
    if k != 0 {
      var n := |Combinations(s[1..], k - 1)|;
      if j < n {
        TakesDiffer(s, k, i, j);
      } else if i >= n {
        SkipsDiffer(s, k, i, j);
      } else {
        TakeDiffersFromSkip(s, k, i, j);
      }
    }
  }

  /** Two selections that take the first player differ where their tails do. */
  lemma {:induction false} TakesDiffer(s: seq<Player>, k: nat, i: int, j: int)
    requires Distinct(Ids(s)) && k != 0 && s != [] && 0 <= i < j < |Combinations(s[1..], k - 1)|
    ensures Combinations(s, k)[i] != Combinations(s, k)[j]
    decreases |s|, 0
  {
    var C, first := Combinations(s, k), Combinations(s[1..], k - 1);
    TailDistinct(s);
    CombinationsDistinct(s[1..], k - 1, i, j);
    assert C[i] == [s[0]] + first[i] && C[j] == [s[0]] + first[j];
    assert C[i][1..] == first[i] && C[j][1..] == first[j];
  }

  /** Two selections that skip the first player differ where they do in the
      tail. */
  lemma {:induction false} SkipsDiffer(s: seq<Player>, k: nat, i: int, j: int)
    requires Distinct(Ids(s)) && k != 0 && s != []
    requires |Combinations(s[1..], k - 1)| <= i < j < |Combinations(s, k)|
    ensures Combinations(s, k)[i] != Combinations(s, k)[j]
    decreases |s|, 0
  {
    var n := |Combinations(s[1..], k - 1)|;
    TailDistinct(s);
    CombinationsDistinct(s[1..], k, i - n, j - n);
  }

  /** A selection that takes the first player differs from one that skips it. */
  lemma TakeDiffersFromSkip(s: seq<Player>, k: nat, i: int, j: int)
    requires Distinct(Ids(s)) && k != 0 && s != []
    requires 0 <= i < |Combinations(s[1..], k - 1)| <= j < |Combinations(s, k)|
    ensures Combinations(s, k)[i] != Combinations(s, k)[j]
  {
    var t := s[1..];
    var first := Combinations(t, k - 1);
    var C := Combinations(s, k);
    assert C[i] == [s[0]] + first[i];
    assert C[j] == Combinations(t, k)[j - |first|];
    CombinationShape(t, k, j - |first|);
    FirstIdIsNew(s);
    forall q | q in C[j] ensures q != s[0] {
      assert q in t;
    }
    assert s[0] in C[i];
  }
}
