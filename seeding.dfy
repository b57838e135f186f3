/** Balanced seeding of the first round: the naive pairs {i: N-i+1} are
    merged first-with-last, round after round, until one insertion-ordered
    dictionary of pairings remains. */
module Seeding {
  import opened Entities

  /** An insertion-ordered dictionary from seed to seed, as a list of
      entries. */
  type Dict = seq<(int, int)>

  /** A value, or the exception that ended the computation. */
  datatype Result<T> = Ok(value: T) | Err(error: Exception)

  /** `d[k] = v`: an existing key keeps its position and takes the new
      value, a new key is appended. */
  function Put(d: Dict, k: int, v: int): Dict
  {
    if d == [] then [(k, v)]
    else if d[0].0 == k then [(k, v)] + d[1..]
    else [d[0]] + Put(d[1..], k, v)
  }

  /** `d.update(b)`: the entries of `b` put into `d`, in order. */
  function Update(d: Dict, b: Dict): Dict
    decreases |b|
  {
    if b == [] then d else Update(Put(d, b[0].0, b[0].1), b[1..])
  }

  /** The dictionary union `a | b`: a copy of `a` updated with `b`. */
  function Union(a: Dict, b: Dict): Dict
  {
    Update(a, b)
  }

  function KeySeq(d: Dict): seq<int>
  {
    seq(|d|, i requires 0 <= i < |d| => d[i].0)
  }

  /** How often each key occurs among the entries. */
  function KeyCounts(d: Dict): multiset<int>
  {
    multiset(KeySeq(d))
  }

  ghost predicate KeysDistinct(d: Dict)
  {
    forall k :: KeyCounts(d)[k] <= 1
  }

  lemma KeySeqAppend(a: Dict, b: Dict)
    ensures KeySeq(a + b) == KeySeq(a) + KeySeq(b)
    ensures KeyCounts(a + b) == KeyCounts(a) + KeyCounts(b)
  {
    assert KeySeq(a + b) == KeySeq(a) + KeySeq(b);
  }

  /** Putting a key the dictionary does not hold appends the entry. */
  lemma {:induction false} PutFresh(d: Dict, k: int, v: int)
    requires k !in KeySeq(d)
    ensures Put(d, k, v) == d + [(k, v)]
  {
    if d != [] {
      assert d[0].0 == KeySeq(d)[0];
      assert KeySeq(d[1..]) == KeySeq(d)[1..];
      PutFresh(d[1..], k, v);
    }
  }

  /** Updating with entries whose keys are all new appends them in order. */
  lemma {:induction false} UpdateFresh(d: Dict, b: Dict)
    requires KeysDistinct(d + b)
    ensures Update(d, b) == d + b
    decreases |b|
  {
    if b != [] {
      var e := b[0];
      KeySeqAppend(d, b);
      assert KeySeq(b)[0] == e.0;
      assert KeyCounts(b)[e.0] >= 1;
      assert KeyCounts(d + b)[e.0] <= 1;
      assert KeyCounts(d)[e.0] == 0;
      PutFresh(d, e.0, e.1);
      assert (d + [e]) + b[1..] == d + b;
      UpdateFresh(d + [e], b[1..]);
    }
  }

  /** With disjoint keys the union is the concatenation: no entry is lost or
      overwritten. */
  lemma UnionDisjoint(a: Dict, b: Dict)
    requires KeysDistinct(a + b)
    ensures Union(a, b) == a + b
  {
    UpdateFresh(a, b);
  }

  /** All entries of a list of dictionaries, in order. */
  function Flatten(ps: seq<Dict>): Dict
  {
    if ps == [] then [] else ps[0] + Flatten(ps[1..])
  }

  lemma {:induction false} FlattenAppend(ps: seq<Dict>, qs: seq<Dict>)
    ensures Flatten(ps + qs) == Flatten(ps) + Flatten(qs)
  {
    if ps != [] {
      assert (ps + qs)[0] == ps[0];
      assert (ps + qs)[1..] == ps[1..] + qs;
      FlattenAppend(ps[1..], qs);
    } else {
      assert ps + qs == qs;
    }
  }

  /** One pass of the merge loop: pop the first, pop the last, keep their
      union, until the list is empty. With one dictionary left the second
      pop finds the list empty. */
  function MergeRound(ps: seq<Dict>): (r: Result<seq<Dict>>)
    ensures r.Ok? <==> |ps| % 2 == 0
    ensures r.Err? ==> r.error == IndexError
    ensures r.Ok? ==> |r.value| == |ps| / 2
    decreases |ps|
  {
    if |ps| == 0 then Ok([])
    else if |ps| == 1 then Err(IndexError)
    else
      match MergeRound(ps[1..|ps| - 1])
      case Ok(rest) => Ok([Union(ps[0], ps[|ps| - 1])] + rest)
      case Err(e) => Err(e)
  }

  /** The merge repeated until one dictionary remains. Called with no
      dictionaries it recurses on the empty list without end, which the
      interpreter stops with its recursion limit. */
  function Balance(ps: seq<Dict>): Result<seq<Dict>>
    decreases |ps|
  {
    if ps == [] then Err(RecursionError)
    else
      match MergeRound(ps)
      case Err(e) => Err(e)
      case Ok(qs) => if |qs| == 1 then Ok(qs) else Balance(qs)
  }

  predicate IsPow2(n: nat)
  {
    n == 1 || (n >= 2 && n % 2 == 0 && IsPow2(n / 2))
  }

  /** The balancing succeeds exactly for a power-of-two number of at least
      two dictionaries, and then leaves exactly one. */
  lemma {:induction false} BalanceSucceedsIff(ps: seq<Dict>)
    ensures Balance(ps).Ok? <==> |ps| >= 2 && IsPow2(|ps|)
    ensures Balance(ps).Ok? ==> |Balance(ps).value| == 1
    decreases |ps|
  {
    if ps != [] && |ps| % 2 == 0 {
      var qs := MergeRound(ps).value;
      if |qs| != 1 {
        BalanceSucceedsIff(qs);
      }
    }
  }

  /** The entries of a list of at least two dictionaries: the first, the
      middle ones, the last. */
  lemma FlattenEnds(ps: seq<Dict>)
    requires |ps| >= 2
    ensures Flatten(ps) == ps[0] + Flatten(ps[1..|ps| - 1]) + ps[|ps| - 1]
    ensures KeyCounts(Flatten(ps)) ==
      KeyCounts(ps[0] + ps[|ps| - 1]) + KeyCounts(Flatten(ps[1..|ps| - 1]))
  {
    var a, z := ps[0], ps[|ps| - 1];
    var mid := ps[1..|ps| - 1];
    var m := Flatten(mid);
    calc {
      Flatten(ps);
      { SplitEnds(ps); }
      Flatten([a] + mid + [z]);
      { FlattenOuter(a, mid, z); }
      a + m + z;
    }
    KeyCountsOuter(a, m, z);
  }

  /** A list of at least two elements is its first, its middle and its
      last. */
  lemma SplitEnds<T>(s: seq<T>)
    requires |s| >= 2
    ensures s == [s[0]] + s[1..|s| - 1] + [s[|s| - 1]]
  {
  }

  lemma FlattenOuter(a: Dict, mid: seq<Dict>, z: Dict)
    ensures Flatten([a] + mid + [z]) == a + Flatten(mid) + z
  {
    FlattenAppend([a] + mid, [z]);
    FlattenAppend([a], mid);
    assert Flatten([z]) == z;
    assert Flatten([a]) == a;
  }

  lemma KeyCountsOuter(a: Dict, m: Dict, z: Dict)
    ensures KeyCounts(a + m + z) == KeyCounts(a + z) + KeyCounts(m)
  {
    KeySeqAppend(a + m, z);
    KeySeqAppend(a, m);
    KeySeqAppend(a, z);
  }

  /** Distinct keys over all entries stay distinct in the outer pair and in
      the middle dictionaries, so the outer union is a concatenation. */
  lemma SplitDistinct(ps: seq<Dict>)
    requires |ps| >= 2 && KeysDistinct(Flatten(ps))
    ensures KeysDistinct(Flatten(ps[1..|ps| - 1]))
    ensures Union(ps[0], ps[|ps| - 1]) == ps[0] + ps[|ps| - 1]
  {
    var mid := ps[1..|ps| - 1];
    FlattenEnds(ps);
    assert KeysDistinct(Flatten(mid)) by {
      forall k ensures KeyCounts(Flatten(mid))[k] <= 1 {
        assert KeyCounts(Flatten(ps))[k] <= 1;
      }
    }
    var outer := ps[0] + ps[|ps| - 1];
    assert KeysDistinct(outer) by {
      forall k ensures KeyCounts(outer)[k] <= 1 {
        assert KeyCounts(Flatten(ps))[k] <= 1;
      }
    }
    UnionDisjoint(ps[0], ps[|ps| - 1]);
  }

  /** One merge pass over dictionaries with distinct keys loses nothing: the
      entries are the same multiset, and the keys stay distinct. */
  lemma {:induction false} MergeRoundPreserves(ps: seq<Dict>)
    requires KeysDistinct(Flatten(ps)) && MergeRound(ps).Ok?
    ensures multiset(Flatten(MergeRound(ps).value)) == multiset(Flatten(ps))
    ensures KeyCounts(Flatten(MergeRound(ps).value)) == KeyCounts(Flatten(ps))
    ensures KeysDistinct(Flatten(MergeRound(ps).value))
    decreases |ps|
  {
    if |ps| >= 2 {
      var a, z := ps[0], ps[|ps| - 1];
      var mid := ps[1..|ps| - 1];
      FlattenEnds(ps);
      SplitDistinct(ps);
      MergeRoundPreserves(mid);
      var rest := MergeRound(mid).value;
      var qs := MergeRound(ps).value;
      assert qs == [a + z] + rest;
      assert Flatten(qs) == (a + z) + Flatten(rest);
      KeySeqAppend(a + z, Flatten(rest));
      assert multiset(Flatten(ps)) == multiset(a + z) + multiset(Flatten(mid));
    }
  }

  /** A successful balancing of dictionaries with distinct keys yields one
      dictionary holding exactly the original entries, keys still
      distinct. */
  lemma {:induction false} BalancePreserves(ps: seq<Dict>)
    requires KeysDistinct(Flatten(ps)) && Balance(ps).Ok?
    ensures |Balance(ps).value| == 1
    ensures multiset(Balance(ps).value[0]) == multiset(Flatten(ps))
    ensures KeysDistinct(Balance(ps).value[0])
    decreases |ps|
  {
    BalanceSucceedsIff(ps);
    var qs := MergeRound(ps).value;
    MergeRoundPreserves(ps);
    if |qs| == 1 {
      assert qs[1..] == [];
      assert Flatten(qs) == qs[0];
    } else {
      BalancePreserves(qs);
    }
  }

  /** Seed `i` paired with its mirror seed among `n`. */
  function Mirror(n: int, i: int): (int, int)
  {
    (i, n + 1 - i)
  }

  /** The naive first-round pairs {i: N-i+1}, i = 1 .. N//2. */
  function InitialPairs(n: nat): seq<Dict>
  {
    seq(n / 2, i requires 0 <= i < n / 2 => [(i + 1, n - i)])
  }

  /** The same pairs as one list of entries. */
  function NaivePairs(n: nat): Dict
  {
    seq(n / 2, i requires 0 <= i < n / 2 => (i + 1, n - i))
  }

  lemma {:induction false} FlattenSingletons(ps: seq<Dict>)
    requires forall i :: 0 <= i < |ps| ==> |ps[i]| == 1
    ensures Flatten(ps) == seq(|ps|, i requires 0 <= i < |ps| => ps[i][0])
  {
    if ps != [] {
      FlattenSingletons(ps[1..]);
    }
  }

  lemma FlattenInitialPairs(n: nat)
    ensures Flatten(InitialPairs(n)) == NaivePairs(n)
  {
    FlattenSingletons(InitialPairs(n));
  }

  /** Pairwise distinct elements occur at most once each. */
  lemma {:induction false} DistinctCountsAtMostOne(s: seq<int>)
    requires forall i, j :: 0 <= i < j < |s| ==> s[i] != s[j]
    ensures forall k :: multiset(s)[k] <= 1
  {
    if s != [] {
      var init := s[..|s| - 1];
      DistinctCountsAtMostOne(init);
      assert s == init + [s[|s| - 1]];
      assert s[|s| - 1] !in init by {
        forall i | 0 <= i < |init| ensures init[i] != s[|s| - 1] { }
      }
    }
  }

  /** Elements occurring at most once each are pairwise distinct. */
  lemma CountsAtMostOneDistinct(s: seq<int>)
    requires forall k :: multiset(s)[k] <= 1
    ensures forall i, j :: 0 <= i < j < |s| ==> s[i] != s[j]
  {
    forall i, j | 0 <= i < j < |s| ensures s[i] != s[j] {
      assert s == s[..j] + s[j..];
      assert s[i] == s[..j][i] && s[j] == s[j..][0];
      assert multiset(s)[s[j]] == multiset(s[..j])[s[j]] + multiset(s[j..])[s[j]];
    }
  }

  lemma NaivePairsDistinct(n: nat)
    ensures KeysDistinct(NaivePairs(n))
  {
    DistinctCountsAtMostOne(KeySeq(NaivePairs(n)));
  }

  /** Keys occurring at most once each sit at pairwise distinct positions. */
  lemma DistinctKeysIndexwise(d: Dict)
    requires KeysDistinct(d)
    ensures forall a, b :: 0 <= a < b < |d| ==> d[a].0 != d[b].0
  {
    assert forall k :: multiset(KeySeq(d))[k] <= 1 by {
      forall k ensures multiset(KeySeq(d))[k] <= 1 {
        assert KeyCounts(d)[k] <= 1;
      }
    }
    CountsAtMostOneDistinct(KeySeq(d));
    forall a, b | 0 <= a < b < |d| ensures d[a].0 != d[b].0 {
      assert KeySeq(d)[a] == d[a].0 && KeySeq(d)[b] == d[b].0;
    }
  }

  /** A reordering of the naive pairs holds every seed with its mirror and
      nothing else. */
  lemma NaivePairsReordered(n: nat, d: Dict)
    requires multiset(d) == multiset(NaivePairs(n))
    ensures |d| == n / 2
    ensures forall e :: e in d ==> 1 <= e.0 <= n / 2 && e.1 == n + 1 - e.0
    ensures forall i :: 1 <= i <= n / 2 ==> Mirror(n, i) in d
  {
    var naive := NaivePairs(n);
    assert |d| == |multiset(d)| == |multiset(naive)| == n / 2;
    forall e | e in d ensures 1 <= e.0 <= n / 2 && e.1 == n + 1 - e.0 {
      assert e in multiset(naive);
    }
    forall i | 1 <= i <= n / 2 ensures Mirror(n, i) in d {
      assert naive[i - 1] == Mirror(n, i);
      assert Mirror(n, i) in multiset(naive);
    }
  }

  /** For N = 2^k teams, k >= 2, balancing the naive pairs gives one
      dictionary that is a reordering of the pairs {i: N-i+1}: every seed
      from 1 to N occurs exactly once, keys 1..N/2 each paired with its
      mirror seed. */
  lemma SeedingCorrect(n: nat)
    requires n >= 4 && IsPow2(n)
    ensures Balance(InitialPairs(n)).Ok?
    ensures var r := Balance(InitialPairs(n)).value; |r| == 1
    ensures var d := Balance(InitialPairs(n)).value[0];
      && |d| == n / 2
      && multiset(d) == multiset(NaivePairs(n))
      && (forall a, b :: 0 <= a < b < |d| ==> d[a].0 != d[b].0)
      && (forall e :: e in d ==> 1 <= e.0 <= n / 2 && e.1 == n + 1 - e.0)
      && (forall i :: 1 <= i <= n / 2 ==> Mirror(n, i) in d)
  {
    var ps := InitialPairs(n);
    BalanceSucceedsIff(ps);
    FlattenInitialPairs(n);
    NaivePairsDistinct(n);
    BalancePreserves(ps);
    var d := Balance(ps).value[0];
    DistinctKeysIndexwise(d);
    NaivePairsReordered(n, d);
  }

  /** Which team counts the balancing accepts: N//2 must be a power of two
      of at least 2. Two or three teams pop from an empty list; zero or one
      team recurse without end. */
  lemma SeedingDomain(n: nat)
    ensures Balance(InitialPairs(n)).Ok? <==> n / 2 >= 2 && IsPow2(n / 2)
    ensures n <= 1 ==> Balance(InitialPairs(n)) == Err(RecursionError)
    ensures 2 <= n <= 3 ==> Balance(InitialPairs(n)) == Err(IndexError)
  {
    BalanceSucceedsIff(InitialPairs(n));
  }

  /** One merge pass over equal-sized dictionaries with distinct keys
      doubles their size and keeps the first entries of the first two
      dictionaries at the head of the first two results. */
  lemma MergeLeaders(ps: seq<Dict>, s: nat)
    requires |ps| >= 4 && |ps| % 2 == 0 && KeysDistinct(Flatten(ps))
    requires s >= 1 && forall i :: 0 <= i < |ps| ==> |ps[i]| == s
    ensures MergeRound(ps).Ok? && |MergeRound(ps).value| == |ps| / 2
    ensures KeysDistinct(Flatten(MergeRound(ps).value))
    ensures forall i :: 0 <= i < |ps| / 2 ==> |MergeRound(ps).value[i]| == 2 * s
    ensures MergeRound(ps).value[0][0] == ps[0][0] && MergeRound(ps).value[1][0] == ps[1][0]
  {
    MergeRoundConcat(ps);
    MergeRoundPreserves(ps);
  }

  /** Each merge pass keeps the dictionary holding seed 1 first and the one
      holding seed 2 second, so after the last pass seed 1 leads the first
      half of the pairing and seed 2 leads the second half. */
  lemma {:induction false} BalanceLeaders(ps: seq<Dict>, s: nat)
    requires |ps| >= 2 && IsPow2(|ps|) && KeysDistinct(Flatten(ps))
    requires s >= 1 && forall i :: 0 <= i < |ps| ==> |ps[i]| == s
    requires ps[0][0].0 == 1 && ps[1][0].0 == 2
    ensures Balance(ps).Ok? && |Balance(ps).value| == 1
    ensures var d := Balance(ps).value[0];
      |d| == s * |ps| && d[0].0 == 1 && d[s * |ps| / 2].0 == 2
    decreases |ps|
  {
    if |ps| == 2 {
      MergeRoundConcat(ps);
      var d := ps[0] + ps[1];
      assert MergeRound(ps).value == [d];
      assert Balance(ps) == Ok([d]);
      assert s * |ps| / 2 == s;
    } else {
      MergeLeaders(ps, s);
      var qs := MergeRound(ps).value;
      assert Balance(ps) == Balance(qs);
      BalanceLeaders(qs, 2 * s);
      assert 2 * s * |qs| == s * |ps|;
    }
  }

  /** For N = 2^k teams, k >= 2, the two strongest seeds are kept apart:
      the pairing 1 against N leads the balanced order and 2 against N - 1
      sits at position N/4, the first pairing of the second half. Their
      halves of the bracket meet only in the final. */
  lemma TopSeedsApart(n: nat)
    requires n >= 4 && IsPow2(n)
    ensures Balance(InitialPairs(n)).Ok? && |Balance(InitialPairs(n)).value| == 1
    ensures var d := Balance(InitialPairs(n)).value[0];
      && |d| == n / 2 && 0 < n / 4 < n / 2
      && d[0] == (1, n) && d[n / 4] == (2, n - 1)
  {
    var ps := InitialPairs(n);
    FlattenInitialPairs(n);
    NaivePairsDistinct(n);
    InitialPairsLeaders(n);
    BalanceLeaders(ps, 1);
    BalancePreserves(ps);
    var d := Balance(ps).value[0];
    NaivePairsReordered(n, d);
    assert d[0] in d && d[n / 4] in d;
  }

  /** The naive pairs of 2^k teams, k >= 2: a power of two of singleton
      dictionaries, seed 1 in the first and seed 2 in the second. */
  lemma InitialPairsLeaders(n: nat)
    requires n >= 4 && IsPow2(n)
    ensures var ps := InitialPairs(n);
      && |ps| == n / 2 && |ps| >= 2 && IsPow2(|ps|) && 1 * |ps| / 2 == n / 4
      && (forall i :: 0 <= i < |ps| ==> |ps[i]| == 1)
      && ps[0][0].0 == 1 && ps[1][0].0 == 2
  {
  }

  /** The order of the balanced pairing for sixteen teams: 1-16, 8-9, 4-13,
      5-12, 2-15, 7-10, 3-14, 6-11. */
  lemma SixteenTeams()
    ensures Balance(InitialPairs(16)) ==
      Ok([[(1, 16), (8, 9), (4, 13), (5, 12), (2, 15), (7, 10), (3, 14), (6, 11)]])
  {
    SixteenRounds(InitialPairs(16),
      [[(1, 16), (8, 9)], [(2, 15), (7, 10)], [(3, 14), (6, 11)], [(4, 13), (5, 12)]],
      [[(1, 16), (8, 9), (4, 13), (5, 12)], [(2, 15), (7, 10), (3, 14), (6, 11)]],
      [[(1, 16), (8, 9), (4, 13), (5, 12), (2, 15), (7, 10), (3, 14), (6, 11)]]);
  }

  /** The three merge passes for sixteen teams. */
  lemma SixteenRounds(ps: seq<Dict>, r1: seq<Dict>, r2: seq<Dict>, r3: seq<Dict>)
    requires ps == InitialPairs(16)
    requires r1 == [[(1, 16), (8, 9)], [(2, 15), (7, 10)], [(3, 14), (6, 11)], [(4, 13), (5, 12)]]
    requires r2 == [[(1, 16), (8, 9), (4, 13), (5, 12)], [(2, 15), (7, 10), (3, 14), (6, 11)]]
    requires r3 == [[(1, 16), (8, 9), (4, 13), (5, 12), (2, 15), (7, 10), (3, 14), (6, 11)]]
    ensures Balance(ps) == Ok(r3)
  {
    SixteenFirstRound(ps, r1);
    SixteenLaterRound(r1, r2);
    SixteenLaterRound(r2, r3);
    assert |r3| == 1 && |r2| == 2 && |r1| == 4;
    assert Balance(r2) == Ok(r3);
    assert Balance(r1) == Ok(r3);
  }

  lemma SixteenFirstRound(ps: seq<Dict>, r1: seq<Dict>)
    requires ps == InitialPairs(16)
    requires r1 == [[(1, 16), (8, 9)], [(2, 15), (7, 10)], [(3, 14), (6, 11)], [(4, 13), (5, 12)]]
    ensures MergeRound(ps) == Ok(r1) && KeysDistinct(Flatten(r1))
  {
    FlattenInitialPairs(16);
    NaivePairsDistinct(16);
    assert ps[0] == [(1, 16)] && ps[1] == [(2, 15)] && ps[2] == [(3, 14)] && ps[3] == [(4, 13)];
    assert ps[4] == [(5, 12)] && ps[5] == [(6, 11)] && ps[6] == [(7, 10)] && ps[7] == [(8, 9)];
    MergeRoundLiteral(ps, r1);
  }

  lemma SixteenLaterRound(ps: seq<Dict>, qs: seq<Dict>)
    requires KeysDistinct(Flatten(ps))
    requires (ps == [[(1, 16), (8, 9)], [(2, 15), (7, 10)], [(3, 14), (6, 11)], [(4, 13), (5, 12)]] && qs == [[(1, 16), (8, 9), (4, 13), (5, 12)], [(2, 15), (7, 10), (3, 14), (6, 11)]]) || (ps == [[(1, 16), (8, 9), (4, 13), (5, 12)], [(2, 15), (7, 10), (3, 14), (6, 11)]] && qs == [[(1, 16), (8, 9), (4, 13), (5, 12), (2, 15), (7, 10), (3, 14), (6, 11)]])
    ensures MergeRound(ps) == Ok(qs) && KeysDistinct(Flatten(qs))
  {
    MergeRoundLiteral(ps, qs);
  }

  /** A merge pass over dictionaries with distinct keys, stated for a given
      outcome: the pass yields `qs` when `qs` lists the first-with-last
      concatenations, and the keys of `qs` stay distinct. */
  lemma MergeRoundLiteral(ps: seq<Dict>, qs: seq<Dict>)
    requires |ps| % 2 == 0 && KeysDistinct(Flatten(ps)) && |qs| == |ps| / 2
    requires forall j {:trigger qs[j]} :: 0 <= j < |qs| ==> qs[j] == ps[j] + ps[|ps| - 1 - j]
    ensures MergeRound(ps) == Ok(qs) && KeysDistinct(Flatten(qs))
  {
    MergeRoundConcat(ps);
    var v := MergeRound(ps).value;
    assert |v| == |qs|;
    forall j | 0 <= j < |qs| ensures v[j] == qs[j] {
    }
    assert v == qs;
    MergeRoundPreserves(ps);
  }

  /** A merge pass over dictionaries with pairwise distinct keys is the list
      of first-with-last concatenations. */
  lemma {:induction false} MergeRoundConcat(ps: seq<Dict>)
    requires |ps| % 2 == 0 && KeysDistinct(Flatten(ps))
    ensures MergeRound(ps).Ok?
    ensures forall j {:trigger MergeRound(ps).value[j]} :: 0 <= j < |ps| / 2 ==>
      MergeRound(ps).value[j] == ps[j] + ps[|ps| - 1 - j]
    decreases |ps|
  {
    if ps != [] {
      var mid := ps[1..|ps| - 1];
      SplitDistinct(ps);
      MergeRoundConcat(mid);
      var qs := MergeRound(ps).value;
      forall j | 1 <= j < |ps| / 2 ensures qs[j] == ps[j] + ps[|ps| - 1 - j] {
        assert qs[j] == MergeRound(mid).value[j - 1];
        assert mid[j - 1] == ps[j] && mid[|mid| - 1 - (j - 1)] == ps[|ps| - 1 - j];
      }
    }
  }

  /** `out` placed in front of a successful result. */
  function Prepend(out: seq<Dict>, r: Result<seq<Dict>>): Result<seq<Dict>>
  {
    match r
    case Ok(v) => Ok(out + v)
    case Err(e) => Err(e)
  }

  /** One step of the merge loop: the outermost pair of the remaining list
      moves to the merged list. */
  lemma MergeStep(ps: seq<Dict>, out: seq<Dict>)
    requires |ps| >= 2
    ensures Prepend(out, MergeRound(ps))
         == Prepend(out + [Union(ps[0], ps[|ps| - 1])], MergeRound(ps[1..|ps| - 1]))
  {
    match MergeRound(ps[1..|ps| - 1])
    case Ok(v) => assert out + ([Union(ps[0], ps[|ps| - 1])] + v) == out + [Union(ps[0], ps[|ps| - 1])] + v;
    case Err(e) =>
  }

  /** The balancing as the engine runs it: a loop that pops the first and
      the last dictionary and keeps their union, then a recursive call on
      the merged list until it holds one dictionary. */
  method BalancePairs(pairs: seq<Dict>) returns (r: Result<seq<Dict>>)
    ensures r == Balance(pairs)
    decreases |pairs|
  {
    var rest := pairs;
    var merged: seq<Dict> := [];
    assert Prepend(merged, MergeRound(rest)) == MergeRound(rest) by {
      match MergeRound(rest)
      case Ok(v) => assert merged + v == v;
      case Err(e) =>
    }
    while rest != []
      invariant |rest| <= |pairs|
      invariant MergeRound(pairs) == Prepend(merged, MergeRound(rest))
      decreases |rest|
    {
      ghost var before := rest;
      var first := rest[0];
      rest := rest[1..];
      if rest == [] {
        return Err(IndexError);
      }
      var last := rest[|rest| - 1];
      rest := rest[..|rest| - 1];
      assert rest == before[1..|before| - 1];
      MergeStep(before, merged);
      merged := merged + [Union(first, last)];
    }
    assert MergeRound(rest) == Ok([]);
    assert merged + [] == merged;
    assert MergeRound(pairs) == Ok(merged);
    if |merged| == 1 {
      return Ok(merged);
    }
    if pairs == [] {
      // the recursion on an empty list never makes progress
      return Err(RecursionError);
    }
    r := BalancePairs(merged);
  }
}
