/** The single-elimination bracket: building it from the balanced seeding,
    recording telemetry batches and entering results by hand. Matches live in
    one list; a match's successor is its index in that list. */
module BracketEngine {
  import opened Entities
  import opened MatchEngine
  import Seeding

  /** Every successor index points into the bracket. */
  predicate WellLinked(ms: seq<Match>)
  {
    forall j :: 0 <= j < |ms| && ms[j].nextMatch.Some? ==> ms[j].nextMatch.value < |ms|
  }

  /** The bracket invariant: links point into the bracket and no match has
      recorded the same game twice. */
  predicate ValidBracket(ms: seq<Match>)
  {
    WellLinked(ms) && forall j :: 0 <= j < |ms| ==> NoDuplicateIds(ms[j].games)
  }

  /** Two brackets with the same links, numbers and length. */
  predicate SameStructure(ms: seq<Match>, ns: seq<Match>)
  {
    |ms| == |ns| && forall i :: 0 <= i < |ms| ==> ms[i].nextMatch == ns[i].nextMatch && ms[i].number == ns[i].number
  }

  // ---------------------------------------------------------------------
  // Building the bracket
  // ---------------------------------------------------------------------

  /** The balanced seeding of `n` teams. */
  function Seeded(n: nat): Seeding.Result<seq<Seeding.Dict>>
  {
    Seeding.Balance(Seeding.InitialPairs(n))
  }

  /** The pairs name seeds of a roster of `n` teams. */
  predicate SeedsInRange(d: Seeding.Dict, n: nat)
  {
    forall k :: 0 <= k < |d| ==> 1 <= d[k].0 <= n && 1 <= d[k].1 <= n
  }

  /** A successful seeding is one dictionary of n/2 pairs naming seeds
      1..n, each key once. */
  lemma SeededFacts(n: nat)
    requires Seeded(n).Ok?
    ensures |Seeded(n).value| == 1
    ensures |Seeded(n).value[0]| == n / 2
    ensures SeedsInRange(Seeded(n).value[0], n)
    ensures multiset(Seeded(n).value[0]) == multiset(Seeding.NaivePairs(n))
    ensures forall i :: 1 <= i <= n / 2 ==> Seeding.Mirror(n, i) in Seeded(n).value[0]
  {
    var ps := Seeding.InitialPairs(n);
    Seeding.FlattenInitialPairs(n);
    Seeding.NaivePairsDistinct(n);
    Seeding.BalancePreserves(ps);
    var d := Seeded(n).value[0];
    Seeding.NaivePairsReordered(n, d);
    forall k | 0 <= k < |d| ensures 1 <= d[k].0 <= n && 1 <= d[k].1 <= n {
      assert d[k] in d;
    }
  }

  /** How many matches the second loop builds: the length of
      range(0, n - 2, 2). */
  function LaterCount(n: nat): nat
  {
    if n <= 2 then 0 else (n - 1) / 2
  }

  /** The successor wiring: the later match built at step t is the successor
      of the matches at indices 2t and 2t + 1. */
  function Successor(f: nat, later: nat, j: nat): Option<nat>
  {
    if j < 2 * later then Some(f + j / 2) else None
  }

  /** The stage of the match at index `j` among `f` first-round matches:
      n/2 in the first round, and half the stage of the match at index 2t
      for the later match built at step t. */
  function StageAt(n: nat, f: nat, j: nat): int
    requires j < 2 * f
    decreases j
  {
    if j < f then n / 2 else StageAt(n, f, 2 * (j - f)) / 2
  }

  /** The match at index `j` of the bracket built from `teams` and the
      balanced pairs `d`. */
  function Expected(teams: seq<Team>, d: Seeding.Dict, j: nat): Match
    requires |d| == |teams| / 2 && SeedsInRange(d, |teams|)
    requires j < |d| + LaterCount(|teams|)
  {
    var n, f := |teams|, |d|;
    var m :=
      if j < f then CreateMatch(n / 2, j + 1, Pending, Some(teams[d[j].0 - 1]), Some(teams[d[j].1 - 1]))
      else CreateMatch(StageAt(n, f, j), j + 1, Scheduled, None, None);
    m.(nextMatch := Successor(f, LaterCount(n), j))
  }

  /** The whole bracket built from `teams` and the balanced pairs `d`. */
  function Bracket(teams: seq<Team>, d: Seeding.Dict): seq<Match>
    requires |d| == |teams| / 2 && SeedsInRange(d, |teams|)
  {
    seq(|d| + LaterCount(|teams|), j requires 0 <= j < |d| + LaterCount(|teams|) => Expected(teams, d, j))
  }

  /** The bracket for `teams`, or the error the seeding raises. */
  function BuildBracket(teams: seq<Team>): Seeding.Result<seq<Match>>
  {
    match Seeded(|teams|)
    case Err(e) => Seeding.Err(e)
    case Ok(ds) =>
      SeededFacts(|teams|);
      Seeding.Ok(Bracket(teams, ds[0]))
  }

  /** Building succeeds exactly when n/2 is a power of two of at least 2;
      zero or one team recurse without end, two or three pop an empty
      list. Every bracket built is well linked. */
  lemma BuildBracketDomain(teams: seq<Team>)
    ensures BuildBracket(teams).Ok? <==> |teams| / 2 >= 2 && Seeding.IsPow2(|teams| / 2)
    ensures |teams| <= 1 ==> BuildBracket(teams) == Seeding.Err(RecursionError)
    ensures 2 <= |teams| <= 3 ==> BuildBracket(teams) == Seeding.Err(IndexError)
    ensures BuildBracket(teams).Ok? ==> ValidBracket(BuildBracket(teams).value)
  {
    Seeding.SeedingDomain(|teams|);
  }

  /** Numbering, rounds and links of any bracket built from `f` = n/2
      pairs: f + L matches, L the number of later matches; match j is
      numbered j + 1; the first f are pending with both teams at stage n/2;
      the rest are scheduled without teams; the matches at 2t and 2t + 1
      lead to the later match f + t, and a match has no successor exactly
      when its index is at least 2L. */
  lemma BracketLayout(teams: seq<Team>, d: Seeding.Dict)
    requires |d| == |teams| / 2 && SeedsInRange(d, |teams|)
    ensures var ms := Bracket(teams, d); var f, later := |d|, LaterCount(|teams|);
      && |ms| == f + later
      && (forall j :: 0 <= j < |ms| ==> ms[j].number == j + 1)
      && (forall j :: 0 <= j < f ==>
            ms[j].status == Pending && ms[j].team1.Some? && ms[j].team2.Some? && ms[j].stage == |teams| / 2)
      && (forall j :: f <= j < |ms| ==> ms[j].status == Scheduled && ms[j].team1.None? && ms[j].team2.None?)
      && (forall j :: 0 <= j < |ms| ==> (ms[j].nextMatch.None? <==> j >= 2 * later))
  {
  }

  lemma BracketPairsShareSuccessor(teams: seq<Team>, d: Seeding.Dict)
    requires |d| == |teams| / 2 && SeedsInRange(d, |teams|)
    ensures var ms := Bracket(teams, d);
      forall t :: 0 <= t < LaterCount(|teams|) ==>
        ms[2 * t].nextMatch == ms[2 * t + 1].nextMatch == Some(|d| + t)
  {
    var ms := Bracket(teams, d);
    forall t | 0 <= t < LaterCount(|teams|)
      ensures ms[2 * t].nextMatch == ms[2 * t + 1].nextMatch == Some(|d| + t)
    {
      assert (2 * t + 1) / 2 == t;
    }
  }

  /** With an even number of teams every successor lies further down the
      list, so following successors always ends. */
  lemma EvenBracketForward(teams: seq<Team>, d: Seeding.Dict)
    requires |d| == |teams| / 2 && SeedsInRange(d, |teams|) && |teams| % 2 == 0
    ensures var ms := Bracket(teams, d);
      forall j :: 0 <= j < |ms| && ms[j].nextMatch.Some? ==> j < ms[j].nextMatch.value
  {
  }

  /** The bracket for N = 2^k teams, k >= 2: N - 1 matches numbered 1..N-1
      in list order; the first N/2 are pending with both teams at stage
      N/2; the rest are scheduled without teams; the matches at 2j and
      2j + 1 share the successor N/2 + j; only the last match has no
      successor, and every successor lies further down the list. */
  lemma BracketShape(teams: seq<Team>)
    requires |teams| >= 4 && Seeding.IsPow2(|teams|)
    ensures BuildBracket(teams).Ok?
    ensures SingleEliminationShape(|teams|, BuildBracket(teams).value)
  {
    var n := |teams|;
    Seeding.SeedingDomain(n);
    SeededFacts(n);
    var d := Seeded(n).value[0];
    assert BuildBracket(teams) == Seeding.Ok(Bracket(teams, d));
    EvenBracketShape(teams, d);
  }

  /** The shape of a single-elimination bracket of an even number `n` of
      teams, spelled out. */
  predicate SingleEliminationShape(n: nat, ms: seq<Match>)
  {
    && |ms| == n - 1
    && (forall j :: 0 <= j < |ms| ==> ms[j].number == j + 1)
    && (forall j :: 0 <= j < n / 2 && j < |ms| ==>
          ms[j].status == Pending && ms[j].team1.Some? && ms[j].team2.Some? && ms[j].stage == n / 2)
    && (forall j :: n / 2 <= j < |ms| ==> ms[j].status == Scheduled && ms[j].team1.None? && ms[j].team2.None?)
    && (forall j :: 0 <= j < n / 2 - 1 && 2 * j + 1 < |ms| ==>
          ms[2 * j].nextMatch == ms[2 * j + 1].nextMatch == Some(n / 2 + j))
    && (forall j :: 0 <= j < |ms| ==> (ms[j].nextMatch.None? <==> j == |ms| - 1))
    && (forall j :: 0 <= j < |ms| && ms[j].nextMatch.Some? ==> j < ms[j].nextMatch.value)
  }

  lemma EvenBracketShape(teams: seq<Team>, d: Seeding.Dict)
    requires |teams| >= 4 && |teams| % 2 == 0
    requires |d| == |teams| / 2 && SeedsInRange(d, |teams|)
    ensures SingleEliminationShape(|teams|, Bracket(teams, d))
  {
    BracketLayout(teams, d);
    BracketPairsShareSuccessor(teams, d);
    EvenBracketForward(teams, d);
    ShapeFromLayout(|teams|, |d|, LaterCount(|teams|), Bracket(teams, d));
  }

  /** The layout facts of a bracket of an even number `n` of teams, stated
      for any list of matches, give the single-elimination shape. */
  lemma ShapeFromLayout(n: nat, f: nat, later: nat, ms: seq<Match>)
    requires n >= 4 && n % 2 == 0 && f == n / 2 && later == LaterCount(n)
    requires |ms| == f + later
    requires forall j :: 0 <= j < |ms| ==> ms[j].number == j + 1
    requires forall j :: 0 <= j < f ==>
      ms[j].status == Pending && ms[j].team1.Some? && ms[j].team2.Some? && ms[j].stage == n / 2
    requires forall j :: f <= j < |ms| ==> ms[j].status == Scheduled && ms[j].team1.None? && ms[j].team2.None?
    requires forall j :: 0 <= j < |ms| ==> (ms[j].nextMatch.None? <==> j >= 2 * later)
    requires forall t :: 0 <= t < later ==> ms[2 * t].nextMatch == ms[2 * t + 1].nextMatch == Some(f + t)
    requires forall j :: 0 <= j < |ms| && ms[j].nextMatch.Some? ==> j < ms[j].nextMatch.value
    ensures SingleEliminationShape(n, ms)
  {
    assert later == n / 2 - 1 && |ms| == n - 1;
  }

  /** The first-round pair of seed `i` among `|teams|`: seed i against
      seed N + 1 - i. */
  function SeedPair(teams: seq<Team>, i: int): (Option<Team>, Option<Team>)
    requires 1 <= i <= |teams|
  {
    (Some(teams[i - 1]), Some(teams[|teams| - i]))
  }

  /** For N = 2^k teams, k >= 2, the first round pairs seed i with seed
      N + 1 - i, for every i = 1..N/2. */
  lemma BracketSeedsEveryTeam(teams: seq<Team>)
    requires |teams| >= 4 && Seeding.IsPow2(|teams|)
    ensures BuildBracket(teams).Ok?
    ensures FirstRoundPairsSeeds(teams, BuildBracket(teams).value)
  {
    var n := |teams|;
    Seeding.SeedingDomain(n);
    SeededFacts(n);
    var d := Seeded(n).value[0];
    assert BuildBracket(teams) == Seeding.Ok(Bracket(teams, d));
    MirroredSeeds(teams, d);
  }

  /** Every seed i = 1..N/2 meets seed N + 1 - i in the first round. */
  predicate FirstRoundPairsSeeds(teams: seq<Team>, ms: seq<Match>)
  {
    forall i :: 1 <= i <= |teams| / 2 ==> SeedMeetsMirror(teams, ms, i)
  }

  /** Some first-round match opposes seed i and seed N + 1 - i. */
  predicate SeedMeetsMirror(teams: seq<Team>, ms: seq<Match>, i: int)
    requires 1 <= i <= |teams|
  {
    exists j :: 0 <= j < |teams| / 2 && j < |ms| && (ms[j].team1, ms[j].team2) == SeedPair(teams, i)
  }

  lemma MirroredSeeds(teams: seq<Team>, d: Seeding.Dict)
    requires |d| == |teams| / 2 && SeedsInRange(d, |teams|)
    requires forall i :: 1 <= i <= |teams| / 2 ==> Seeding.Mirror(|teams|, i) in d
    ensures FirstRoundPairsSeeds(teams, Bracket(teams, d))
  {
    var n := |teams|;
    var ms := Bracket(teams, d);
    forall i | 1 <= i <= |teams| / 2 ensures SeedMeetsMirror(teams, ms, i) {
      assert Seeding.Mirror(n, i) in d;
      var j :| 0 <= j < |d| && d[j] == Seeding.Mirror(n, i);
      assert ms[j] == Expected(teams, d, j);
      assert (ms[j].team1, ms[j].team2) == SeedPair(teams, i);
    }
    assert FirstRoundPairsSeeds(teams, ms);
  }

  /** With an odd number of teams the last match built is its own
      successor. */
  lemma OddBracketSelfLoop(teams: seq<Team>)
    requires |teams| % 2 == 1 && BuildBracket(teams).Ok?
    ensures var ms := BuildBracket(teams).value;
      |ms| > 0 && ms[|ms| - 1].nextMatch == Some(|ms| - 1)
  {
    SeededFacts(|teams|);
  }

  /** With an odd number of teams the middle seed (n + 1) / 2 is in no
      first-round pair: the keys run up to n / 2 and the mirrors start
      above it. */
  lemma OddMiddleSeedLeftOut(n: nat)
    requires n % 2 == 1 && Seeded(n).Ok?
    ensures forall d: Seeding.Dict :: d in Seeded(n).value ==>
      forall k :: 0 <= k < |d| ==> d[k].0 != (n + 1) / 2 && d[k].1 != (n + 1) / 2
  {
    SeededFacts(n);
    var naive := Seeding.NaivePairs(n);
    forall d: Seeding.Dict, k | d in Seeded(n).value && 0 <= k < |d| ensures d[k].0 != (n + 1) / 2 && d[k].1 != (n + 1) / 2 {
      assert d == Seeded(n).value[0];
      assert d[k] in multiset(naive);
      var i :| 0 <= i < |naive| && naive[i] == d[k];
      assert d[k] == (i + 1, n - i);
    }
  }

  // ---------------------------------------------------------------------
  // Finding, filling and propagating
  // ---------------------------------------------------------------------

  /** The index of the first match numbered `n`, as a scan that stops at
      the first hit finds it. */
  function FirstWithNumber(ms: seq<Match>, n: int): (r: Option<nat>)
    ensures r.Some? ==> r.value < |ms| && ms[r.value].number == n
    ensures r.Some? ==> forall i :: 0 <= i < r.value ==> ms[i].number != n
    ensures r.None? ==> forall i :: 0 <= i < |ms| ==> ms[i].number != n
  {
    if ms == [] then None
    else if ms[0].number == n then Some(0)
    else
      match FirstWithNumber(ms[1..], n)
      case None => None
      case Some(i) => Some(i + 1)
  }

  /** The index of the first match bound to live id `id`; a match without
      a live id never equals an integer id. */
  function FirstWithId(ms: seq<Match>, id: int): (r: Option<nat>)
    ensures r.Some? ==> r.value < |ms| && ms[r.value].matchId == Some(id)
    ensures r.Some? ==> forall i :: 0 <= i < r.value ==> ms[i].matchId != Some(id)
    ensures r.None? ==> forall i :: 0 <= i < |ms| ==> ms[i].matchId != Some(id)
  {
    if ms == [] then None
    else if ms[0].matchId == Some(id) then Some(0)
    else
      match FirstWithId(ms[1..], id)
      case None => None
      case Some(i) => Some(i + 1)
  }

  /** Parity rule: an odd match number fills its successor's first slot,
      an even one the second. */
  function Fill(m: Match, number: int, w: Option<Team>): Match
  {
    if number % 2 != 0 then m.(team1 := w) else m.(team2 := w)
  }

  /** The winner `w` of the match at `j` moved into its successor, which
      becomes pending. */
  function Propagate(ms: seq<Match>, j: nat, w: Option<Team>): seq<Match>
    requires j < |ms| && (ms[j].nextMatch.Some? ==> ms[j].nextMatch.value < |ms|)
  {
    match ms[j].nextMatch
    case None => ms
    case Some(k) => ms[k := Fill(ms[k], ms[j].number, w).(status := Pending)]
  }

  /** The result entered by hand for the match at index `j`: team 1 wins
      when `w` is 1 and team 2 otherwise, the winner goes into the
      successor slot chosen by parity, the successor becomes pending, and
      the match is completed with score `s`. */
  function SettleAt(ms: seq<Match>, j: nat, w: int, s: string): (r: seq<Match>)
    requires j < |ms| && WellLinked(ms)
    ensures SameStructure(ms, r) && WellLinked(r)
  {
    var win := if w == 1 then ms[j].team1 else ms[j].team2;
    var ms1 := ms[j := ms[j].(winner := win)];
    var ms2 := Propagate(ms1, j, win);
    ms2[j := ms2[j].(status := Completed, score := s)]
  }

  /** A manual entry applies to the first match numbered `n`, if any. */
  function EnterResult(ms: seq<Match>, n: int, w: int, s: string): (r: seq<Match>)
    requires WellLinked(ms)
    ensures SameStructure(ms, r) && WellLinked(r)
  {
    match FirstWithNumber(ms, n)
    case None => ms
    case Some(j) => SettleAt(ms, j, w, s)
  }

  /** What a manual entry does: nothing when no match is numbered `n`;
      otherwise the first match numbered `n` gets team 1 as winner when `w`
      is 1 and team 2 otherwise, is completed with score `s`, its successor
      gets the winner in the slot its parity selects and becomes pending,
      and every other match is unchanged. */
  lemma EnterResultEffect(ms: seq<Match>, n: int, w: int, s: string)
    requires WellLinked(ms)
    ensures var r := EnterResult(ms, n, w, s);
      && (FirstWithNumber(ms, n).None? ==> r == ms)
      && (FirstWithNumber(ms, n).Some? ==>
        var j := FirstWithNumber(ms, n).value;
        var win := if w == 1 then ms[j].team1 else ms[j].team2;
        && r[j].winner == win && r[j].status == Completed && r[j].score == s
        && (ms[j].nextMatch != Some(j) ==> r[j] == ms[j].(winner := win, status := Completed, score := s))
        && (ms[j].nextMatch == Some(j) ==>
              r[j] == Fill(ms[j], ms[j].number, win).(winner := win, status := Completed, score := s))
        && (forall k :: ms[j].nextMatch == Some(k) && k != j ==>
              r[k] == Fill(ms[k], ms[j].number, win).(status := Pending))
        && (forall i :: 0 <= i < |ms| && i != j && ms[j].nextMatch != Some(i) ==> r[i] == ms[i]))
  {
  }

  /** One telemetry record applied to the match at index `j`: the match
      engine updates it, it is completed if it has a winner, and its
      winner, present or not, goes into the successor slot chosen by parity
      while the successor becomes pending. A type error inside the match
      engine keeps the games recorded so far and reports failure. */
  function RecordAt(ms: seq<Match>, j: nat, info: MatchInfo): (r: (seq<Match>, bool))
    requires j < |ms| && WellLinked(ms)
    ensures SameStructure(ms, r.0) && WellLinked(r.0)
  {
    var u := UpdatedMatch(ms[j], info);
    if !u.1 then (ms[j := u.0], false)
    else
      var done := if u.0.winner.Some? then u.0.(status := Completed) else u.0;
      (Propagate(ms[j := done], j, done.winner), true)
  }

  /** A telemetry record applies to the first match bound to its live id,
      if any. */
  function ApplyInfo(ms: seq<Match>, info: MatchInfo): (r: (seq<Match>, bool))
    requires WellLinked(ms)
    ensures SameStructure(ms, r.0) && WellLinked(r.0)
  {
    match FirstWithId(ms, info.matchId)
    case None => (ms, true)
    case Some(j) => RecordAt(ms, j, info)
  }

  /** A manual entry never touches a live id: every match keeps the id it
      had, bound or not. */
  lemma EnterResultKeepsLiveIds(ms: seq<Match>, n: int, w: int, s: string)
    requires WellLinked(ms)
    ensures forall j :: 0 <= j < |ms| ==> EnterResult(ms, n, w, s)[j].matchId == ms[j].matchId
  {
  }

  /** What a telemetry record does: nothing when no match carries its id;
      otherwise the first such match is updated by the match engine and
      completed only if it has a winner; its successor gets that winner,
      even an absent one, in the slot its parity selects and becomes
      pending; every other match is unchanged. After a type error only the
      games recorded so far are kept. */
  lemma ApplyInfoEffect(ms: seq<Match>, info: MatchInfo)
    requires WellLinked(ms)
    ensures var r := ApplyInfo(ms, info);
      && (FirstWithId(ms, info.matchId).None? ==> r == (ms, true))
      && (FirstWithId(ms, info.matchId).Some? ==>
        var j := FirstWithId(ms, info.matchId).value;
        var u := UpdatedMatch(ms[j], info);
        var done := if u.0.winner.Some? then u.0.(status := Completed) else u.0;
        && r.1 == u.1
        && (!u.1 ==> r.0 == ms[j := u.0])
        && (u.1 && ms[j].nextMatch != Some(j) ==> r.0[j] == done)
        && (u.1 && ms[j].nextMatch == Some(j) ==> r.0[j] == Fill(done, ms[j].number, done.winner).(status := Pending))
        && (forall k :: u.1 && ms[j].nextMatch == Some(k) && k != j ==>
              r.0[k] == Fill(ms[k], ms[j].number, done.winner).(status := Pending))
        && (forall i :: 0 <= i < |ms| && i != j && ms[j].nextMatch != Some(i) ==> r.0[i] == ms[i]))
  {
    if FirstWithId(ms, info.matchId).Some? {
      RecordAtEffect(ms, FirstWithId(ms, info.matchId).value, info);
    }
  }

  /** The effect of one record on the match at index `j`, as described
      above. */
  lemma RecordAtEffect(ms: seq<Match>, j: nat, info: MatchInfo)
    requires j < |ms| && WellLinked(ms)
    ensures var r := RecordAt(ms, j, info);
      var u := UpdatedMatch(ms[j], info);
      var done := if u.0.winner.Some? then u.0.(status := Completed) else u.0;
      && r.1 == u.1
      && (!u.1 ==> r.0 == ms[j := u.0])
      && (u.1 && ms[j].nextMatch != Some(j) ==> r.0[j] == done)
      && (u.1 && ms[j].nextMatch == Some(j) ==> r.0[j] == Fill(done, ms[j].number, done.winner).(status := Pending))
      && (forall k :: u.1 && ms[j].nextMatch == Some(k) && k != j ==>
            r.0[k] == Fill(ms[k], ms[j].number, done.winner).(status := Pending))
      && (forall i :: 0 <= i < |ms| && i != j && ms[j].nextMatch != Some(i) ==> r.0[i] == ms[i])
  {
  }

  /** A list of telemetry records applied in order; a failure stops the
      batch with the state as it stands. */
  function ApplyInfos(ms: seq<Match>, infos: seq<MatchInfo>): (r: (seq<Match>, bool))
    requires WellLinked(ms)
    ensures SameStructure(ms, r.0) && WellLinked(r.0)
    decreases |infos|
  {
    if infos == [] then (ms, true)
    else
      var step := ApplyInfo(ms, infos[0]);
      if !step.1 then step else ApplyInfos(step.0, infos[1..])
  }

  /** Records whose ids no match carries change nothing. */
  lemma {:induction false} UnknownIdsChangeNothing(ms: seq<Match>, infos: seq<MatchInfo>)
    requires WellLinked(ms)
    requires forall i, k :: 0 <= i < |infos| && 0 <= k < |ms| ==> ms[k].matchId != Some(infos[i].matchId)
    ensures ApplyInfos(ms, infos) == (ms, true)
    decreases |infos|
  {
    if infos != [] {
      assert forall k :: 0 <= k < |ms| ==> ms[k].matchId != Some(infos[0].matchId);
      assert FirstWithId(ms, infos[0].matchId).None?;
      UnknownIdsChangeNothing(ms, infos[1..]);
    }
  }

  /** Telemetry keeps the bracket valid: links stay in place and no match
      ever holds two games with the same id. */
  lemma {:induction false} ApplyInfosValid(ms: seq<Match>, infos: seq<MatchInfo>)
    requires ValidBracket(ms)
    ensures ValidBracket(ApplyInfos(ms, infos).0)
    decreases |infos|
  {
    if infos != [] {
      ApplyInfoValid(ms, infos[0]);
      var step := ApplyInfo(ms, infos[0]);
      if step.1 {
        ApplyInfosValid(step.0, infos[1..]);
      }
    }
  }

  lemma ApplyInfoValid(ms: seq<Match>, info: MatchInfo)
    requires ValidBracket(ms)
    ensures ValidBracket(ApplyInfo(ms, info).0)
  {
    var f := FirstWithId(ms, info.matchId);
    if f.Some? {
      RecordAtValid(ms, f.value, info);
    }
  }

  /** A record changes only the games of the match it is applied to; the
      successor slot and statuses it also touches hold no games. */
  lemma RecordAtGames(ms: seq<Match>, j: nat, info: MatchInfo)
    requires j < |ms| && WellLinked(ms)
    ensures var r := RecordAt(ms, j, info).0;
      forall i :: 0 <= i < |r| ==>
        r[i].games == (if i == j then UpdatedMatch(ms[j], info).0.games else ms[i].games)
  {
  }

  /** A record applied at index `j` keeps the bracket valid. */
  lemma RecordAtValid(ms: seq<Match>, j: nat, info: MatchInfo)
    requires j < |ms| && ValidBracket(ms)
    ensures ValidBracket(RecordAt(ms, j, info).0)
  {
    UpdatedMatchFacts(ms[j], info);
    RecordAtGames(ms, j, info);
  }


  /** A manual entry keeps the bracket valid. */
  lemma EnterResultValid(ms: seq<Match>, n: int, w: int, s: string)
    requires ValidBracket(ms)
    ensures ValidBracket(EnterResult(ms, n, w, s))
  {
  }

  /** The naive pairs {i: N-i+1}, i = 1..N//2, built one by one. */
  method NaivePairsLoop(n: nat) returns (pairs: seq<Seeding.Dict>)
    ensures |pairs| == n / 2
    ensures forall i :: 0 <= i < n / 2 ==> pairs[i] == [Seeding.Mirror(n, i + 1)]
    ensures pairs == Seeding.InitialPairs(n)
  {
    pairs := [];
    var matchNumber := 1;
    while matchNumber < n / 2 + 1
      invariant 1 <= matchNumber <= n / 2 + 1
      invariant pairs == Seeding.InitialPairs(n)[..matchNumber - 1]
    {
      pairs := pairs + [[(matchNumber, n - matchNumber + 1)]];
      matchNumber := matchNumber + 1;
    }
    assert pairs == Seeding.InitialPairs(n);
  }

  /** The first-round matches: one pending match per balanced pair, in the
      pairs' order, opposing the two seeded teams, at stage N//2. */
  method FirstRound(teams: seq<Team>, d: Seeding.Dict) returns (ms: seq<Match>)
    requires |d| == |teams| / 2 && SeedsInRange(d, |teams|)
    ensures |ms| == |d|
    ensures forall j :: 0 <= j < |d| ==> ms[j] == Expected(teams, d, j).(nextMatch := None)
  {
    var n := |teams|;
    ms := [];
    var matchNumber := 1;
    var k := 0;
    while k < |d|
      invariant 0 <= k <= |d| && matchNumber == k + 1 && |ms| == k
      invariant forall j :: 0 <= j < k ==> ms[j] == Expected(teams, d, j).(nextMatch := None)
    {
      var (teamNumber1, teamNumber2) := d[k];
      var m := CreateMatch(n / 2, matchNumber, Pending, Some(teams[teamNumber1 - 1]), Some(teams[teamNumber2 - 1]));
      ms := ms + [m];
      matchNumber := matchNumber + 1;
      k := k + 1;
    }
  }

  /** The remaining matches: for i in range(0, N - 2, 2) a scheduled match
      at half the stage of match i is appended and becomes the successor
      of the matches at i and i + 1. The result is the whole bracket. */
  method LaterRounds(teams: seq<Team>, d: Seeding.Dict, first: seq<Match>) returns (ms: seq<Match>)
    requires |d| == |teams| / 2 && SeedsInRange(d, |teams|)
    requires |first| == |d| && Wired(first, Bracket(teams, d), 0, |d|)
    ensures ms == Bracket(teams, d)
  {
    var n := |teams|;
    ghost var later := LaterCount(n);
    ghost var e := Bracket(teams, d);
    LaterBound(n, 0);
    ms := first;
    var matchNumber := |first| + 1;
    var i := 0;
    ghost var t := 0;
    while i < n - 2
      invariant i == 2 * t && t <= later && (i < n - 2 <==> t < later)
      invariant matchNumber == |ms| + 1 && |ms| == |d| + t && Wired(ms, e, i, |d|)
    {
      LaterStep(teams, d, ms, t);
      var m := CreateMatch(ms[i].stage / 2, matchNumber, Scheduled, None, None);
      ms := ms + [m];
      ghost var grown := ms;
      var next := |ms| - 1;
      ms := ms[i := ms[i].(nextMatch := Some(next))];
      ms := ms[i + 1 := ms[i + 1].(nextMatch := Some(next))];
      Rewire(grown, ms, e, t, |d|);
      matchNumber := matchNumber + 1;
      i := i + 2;
      t := t + 1;
      LaterBound(n, t);
    }
    WiredAtEnd(teams, d, ms, t);
  }

  /** The second loop runs while its index 2t stays below n - 2, that is
      for the LaterCount(n) steps. */
  lemma LaterBound(n: nat, t: nat)
    ensures 2 * t < n - 2 <==> t < LaterCount(n)
  {
  }

  /** The first round alone is wired for no index. */
  lemma WiredAtStart(teams: seq<Team>, d: Seeding.Dict, first: seq<Match>)
    requires |d| == |teams| / 2 && SeedsInRange(d, |teams|)
    requires |first| == |d|
    requires forall j :: 0 <= j < |d| ==> first[j] == Expected(teams, d, j).(nextMatch := None)
    ensures Wired(first, Bracket(teams, d), 0, |d|)
  {
  }

  /** Once the loop has passed every pair of indices the matches are the
      complete bracket. */
  lemma WiredAtEnd(teams: seq<Team>, d: Seeding.Dict, ms: seq<Match>, t: nat)
    requires |d| == |teams| / 2 && SeedsInRange(d, |teams|)
    requires t == LaterCount(|teams|)
    requires |ms| == |d| + t && Wired(ms, Bracket(teams, d), 2 * t, |d|)
    ensures ms == Bracket(teams, d)
  {
    var e := Bracket(teams, d);
    BracketWired(teams, d);
    forall j | 0 <= j < |ms| ensures ms[j] == e[j] {
      assert ms[j] == e[j].(nextMatch := e[j].nextMatch);
    }
  }

  /** The matches `ms` agree with the target bracket `e` except for their
      successor, which is set for the indices below `i` only, to the later
      match built at step j / 2. */
  ghost predicate Wired(ms: seq<Match>, e: seq<Match>, i: nat, f: nat)
  {
    && |ms| <= |e|
    && forall j :: 0 <= j < |ms| ==> ms[j] == e[j].(nextMatch := if j < i then Some(f + j / 2) else None)
  }

  /** The complete bracket is wired exactly as its successor function says. */
  lemma BracketWired(teams: seq<Team>, d: Seeding.Dict)
    requires |d| == |teams| / 2 && SeedsInRange(d, |teams|)
    ensures var e := Bracket(teams, d);
      forall j :: 0 <= j < |e| ==>
        e[j].nextMatch == (if j < 2 * LaterCount(|teams|) then Some(|d| + j / 2) else None)
  {
  }

  /** Setting the successor of matches 2t and 2t + 1 to the last match
      wires two more indices. */
  lemma Rewire(ms: seq<Match>, ms3: seq<Match>, e: seq<Match>, t: nat, f: nat)
    requires 2 * t + 1 < |ms| && f + t == |ms| - 1
    requires Wired(ms, e, 2 * t, f)
    requires ms3 == ms[2 * t := ms[2 * t].(nextMatch := Some(|ms| - 1))]
                      [2 * t + 1 := ms[2 * t + 1].(nextMatch := Some(|ms| - 1))]
    ensures Wired(ms3, e, 2 * t + 2, f)
  {
    var i := 2 * t;
    forall j | 0 <= j < |ms3|
      ensures ms3[j] == e[j].(nextMatch := if j < i + 2 then Some(f + j / 2) else None)
    {
      if j == i || j == i + 1 {
        assert j / 2 == t;
      }
    }
  }

  /** One step of the second loop: the match appended at half the stage of
      match 2t is the next match of the target bracket, not yet wired. */
  lemma LaterStep(teams: seq<Team>, d: Seeding.Dict, ms: seq<Match>, t: nat)
    requires |d| == |teams| / 2 && SeedsInRange(d, |teams|)
    requires t < LaterCount(|teams|)
    requires |ms| == |d| + t && Wired(ms, Bracket(teams, d), 2 * t, |d|)
    ensures 2 * t < |ms|
    ensures var ms1 := ms + [CreateMatch(ms[2 * t].stage / 2, |ms| + 1, Scheduled, None, None)];
      2 * t + 1 < |ms1| && Wired(ms1, Bracket(teams, d), 2 * t, |d|)
  {
    var n, f, i := |teams|, |d|, 2 * t;
    var e := Bracket(teams, d);
    var next := |ms|;
    assert f <= next < 2 * f && 2 * (next - f) == i;
    var ms1 := ms + [CreateMatch(ms[i].stage / 2, |ms| + 1, Scheduled, None, None)];
    StageIsStageAt(teams, d, i);
    assert ms[i].stage == e[i].stage == StageAt(n, f, i);
    assert StageAt(n, f, next) == StageAt(n, f, i) / 2;
    assert ms1[next] == e[next].(nextMatch := None);
    assert forall j :: 0 <= j < |ms| ==> ms1[j] == ms[j];
  }

  /** The match at index `i` of the first 2f indices carries the stage
      StageAt gives it. */
  lemma StageIsStageAt(teams: seq<Team>, d: Seeding.Dict, i: nat)
    requires |d| == |teams| / 2 && SeedsInRange(d, |teams|)
    requires i < 2 * |d| && i < |d| + LaterCount(|teams|)
    ensures Expected(teams, d, i).stage == StageAt(|teams|, |d|, i)
  {
  }

  // ---------------------------------------------------------------------
  // The bracket manager
  // ---------------------------------------------------------------------

  /** The single-elimination bracket manager. `hasBracket` records whether a
      bracket has been created; `matches` is its list of matches. */
  class SEBracketManager {
    var hasBracket: bool
    var matches: seq<Match>

    ghost predicate Valid()
      reads this
    {
      ValidBracket(matches)
    }

    constructor()
      ensures !hasBracket && matches == [] && Valid()
    {
      hasBracket := false;
      matches := [];
    }

    method GetMatches() returns (ms: seq<Match>)
      requires hasBracket
      ensures ms == matches
    {
      ms := matches;
    }

    /** Replaces the bracket with a fresh one for `teams`: the balanced
        first-round matches in seeding order, then one later match per
        pair of earlier matches, wired as their successor. When the seeding
        raises, the error is returned and the fresh bracket stays empty. */
    method GenerateBracket(teams: seq<Team>) returns (err: Option<Exception>)
      modifies this
      ensures hasBracket && Valid()
      ensures BuildBracket(teams).Err? ==> err == Some(BuildBracket(teams).error) && matches == []
      ensures BuildBracket(teams).Ok? ==> err == None && matches == BuildBracket(teams).value
    {
      hasBracket := true;
      matches := [];
      var pairs := NaivePairsLoop(|teams|);
      var balanced := Seeding.BalancePairs(pairs);
      if balanced.Err? {
        return Some(balanced.error);
      }
      SeededFacts(|teams|);
      var d := balanced.value[0];
      matches := FirstRound(teams, d);
      WiredAtStart(teams, d, matches);
      matches := LaterRounds(teams, d, matches);
      BuildBracketDomain(teams);
      err := None;
    }

    /** Applies telemetry records in order, each to the first match bound to
        its live id; stops at the first type error. */
    method UpdateMatches(infos: seq<MatchInfo>) returns (ok: bool)
      requires hasBracket && Valid()
      modifies this
      ensures hasBracket && Valid()
      ensures (matches, ok) == ApplyInfos(old(matches), infos)
    {
      var i := 0;
      while i < |infos|
        invariant 0 <= i <= |infos| && hasBracket
        invariant ValidBracket(matches)
        invariant ApplyInfos(old(matches), infos) == ApplyInfos(matches, infos[i..])
      {
        var info := infos[i];
        ghost var before := matches;
        assert infos[i..][0] == info && infos[i..][1..] == infos[i + 1..];
        ApplyInfoValid(before, info);
        var found := FindById(info.matchId);
        if found.Some? {
          var updated := RecordMatch(found.value, info);
          if !updated {
            return false;
          }
        }
        assert (matches, true) == ApplyInfo(before, info);
        i := i + 1;
      }
      ok := true;
    }

    /** The scan of the telemetry loop for the first match carrying live id
        `id`. */
    method FindById(id: int) returns (r: Option<nat>)
      ensures r == FirstWithId(matches, id)
    {
      var j := 0;
      while j < |matches|
        invariant 0 <= j <= |matches|
        invariant forall q :: 0 <= q < j ==> matches[q].matchId != Some(id)
      {
        if matches[j].matchId == Some(id) {
          return Some(j);
        }
        j := j + 1;
      }
      return None;
    }

    /** The body of the telemetry loop once the match at `j` carries the
        record's id: the match engine updates the match, a winner completes
        it, and the successor slot chosen by parity receives its winner, even
        an absent one, and becomes pending. */
    method RecordMatch(j: nat, info: MatchInfo) returns (ok: bool)
      requires j < |matches| && Valid()
      modifies this
      ensures Valid() && hasBracket == old(hasBracket)
      ensures (matches, ok) == RecordAt(old(matches), j, info)
    {
      ghost var before := matches;
      RecordAtValid(before, j, info);
      var m, updated := UpdateMatch(matches[j], info);
      if !updated {
        matches := matches[j := m];
        return false;
      }
      if m.winner.Some? {
        m := m.(status := Completed);
      }
      matches := matches[j := m];
      ghost var target := Propagate(matches, j, m.winner);
      assert RecordAt(before, j, info) == (target, true);
      if m.nextMatch.Some? {
        var next := m.nextMatch.value;
        ghost var placed := matches;
        if m.number % 2 != 0 {
          matches := matches[next := matches[next].(team1 := m.winner)];
        } else {
          matches := matches[next := matches[next].(team2 := m.winner)];
        }
        matches := matches[next := matches[next].(status := Pending)];
        assert matches == placed[next := Fill(placed[next], m.number, m.winner).(status := Pending)];
      }
      assert matches == target;
      ok := true;
    }

    /** Enters a result by hand for the first match numbered `matchNumber`. */
    method EnterMatchResults(matchNumber: int, winnerNumber: int, score: string)
      requires hasBracket && Valid()
      modifies this
      ensures hasBracket && Valid()
      ensures matches == EnterResult(old(matches), matchNumber, winnerNumber, score)
    {
      EnterResultValid(matches, matchNumber, winnerNumber, score);
      var found := FindByNumber(matchNumber);
      if found.Some? {
        SettleMatch(found.value, winnerNumber, score);
      }
    }

    /** The scan of the manual-entry loop for the first match numbered `n`. */
    method FindByNumber(n: int) returns (r: Option<nat>)
      ensures r == FirstWithNumber(matches, n)
    {
      var j := 0;
      while j < |matches|
        invariant 0 <= j <= |matches|
        invariant forall q :: 0 <= q < j ==> matches[q].number != n
      {
        if matches[j].number == n {
          return Some(j);
        }
        j := j + 1;
      }
      return None;
    }

    /** The body of the manual-entry loop once match `j` is found: the
        winner chosen by `w`, its move into the successor slot selected by
        parity with the successor made pending, and the completed status
        with score `s`. */
    method SettleMatch(j: nat, w: int, s: string)
      requires j < |matches| && WellLinked(matches)
      modifies this
      ensures hasBracket == old(hasBracket)
      ensures matches == SettleAt(old(matches), j, w, s)
    {
      if w == 1 {
        matches := matches[j := matches[j].(winner := matches[j].team1)];
      } else {
        matches := matches[j := matches[j].(winner := matches[j].team2)];
      }
      var m := matches[j];
      if m.nextMatch.Some? {
        var next := m.nextMatch.value;
        if m.number % 2 != 0 {
          matches := matches[next := matches[next].(team1 := m.winner)];
        } else {
          matches := matches[next := matches[next].(team2 := m.winner)];
        }
        matches := matches[next := matches[next].(status := Pending)];
      }
      matches := matches[j := matches[j].(status := Completed, score := s)];
    }
  }
}
