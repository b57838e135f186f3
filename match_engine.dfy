/** The match engine: folding a batch of telemetry events into one match
    (recording games, tallying game wins into the "a:b" score and deciding
    the winner at the majority threshold). */
module MatchEngine {
  import opened Entities

  /** One player's contribution to a game, as reported by the game API. */
  datatype ScoreEntry = ScoreEntry(userId: Id, score: int)

  /** The game record of an event: the list of player scores. */
  datatype GameData = GameData(scores: seq<ScoreEntry>)

  /** A telemetry event; only some events carry a game record. */
  datatype Event = Event(id: int, game: Option<GameData>)

  /** The telemetry of one live match: its external id and its events. */
  datatype MatchInfo = MatchInfo(matchId: int, events: seq<Event>)

  /** Where a player's score goes. `Undefined` is the membership test on an
      empty team slot, which raises a type error in the engine. */
  datatype Side = Team1Side | Team2Side | NoSide | Undefined

  /** Team 1 is asked first; team 2 only when the player is not in team 1. */
  function SideOf(team1: Option<Team>, team2: Option<Team>, u: Id): Side
  {
    if team1.None? then Undefined
    else if Contains(team1.value, u) then Team1Side
    else if team2.None? then Undefined
    else if Contains(team2.value, u) then Team2Side
    else NoSide
  }

  /** A player listed in both teams scores for team 1; a player in neither
      team scores for nobody. */
  lemma SideOfMembership(t1: Team, t2: Team, u: Id)
    ensures (exists m :: m in t1.members && MemberHasId(m, u)) ==> SideOf(Some(t1), Some(t2), u) == Team1Side
    ensures SideOf(Some(t1), Some(t2), u) == NoSide <==>
              !(exists m :: m in t1.members && MemberHasId(m, u)) && !(exists m :: m in t2.members && MemberHasId(m, u))
    ensures SideOf(Some(t1), Some(t2), u) != Undefined
  {
  }

  /** The per-team sums of a score list, first to last; `None` when some
      entry hits an empty team slot. */
  function Totals(team1: Option<Team>, team2: Option<Team>, scores: seq<ScoreEntry>): Option<(int, int)>
  {
    if scores == [] then Some((0, 0))
    else
      var e := scores[|scores| - 1];
      match Totals(team1, team2, scores[..|scores| - 1])
      case None => None
      case Some(p) =>
        match SideOf(team1, team2, e.userId)
        case Team1Side => Some((p.0 + e.score, p.1))
        case Team2Side => Some((p.0, p.1 + e.score))
        case NoSide => Some(p)
        case Undefined => None
  }

  /** Totals fails exactly when some entry's side is undefined. */
  lemma {:induction false} TotalsDefined(team1: Option<Team>, team2: Option<Team>, scores: seq<ScoreEntry>)
    ensures Totals(team1, team2, scores).Some? <==>
              forall k :: 0 <= k < |scores| ==> SideOf(team1, team2, scores[k].userId) != Undefined
  {
    if scores != [] {
      var init := scores[..|scores| - 1];
      TotalsDefined(team1, team2, init);
      assert forall k :: 0 <= k < |init| ==> init[k] == scores[k];
    }
  }

  /** An event can be scored when it has a game record with at least one
      score. */
  predicate Scorable(e: Event)
  {
    e.game.Some? && e.game.value.scores != []
  }

  /** How recording ended: all events seen, the append that reached the
      best-of count, or a type error. */
  datatype Stop = Exhausted | Capped | Crashed

  datatype Recorded = Recorded(games: seq<Game>, stop: Stop)

  /** Recording of games from the events, in order: unscorable events and
      games whose id is already recorded are skipped, and recording stops
      right after an append that makes the list exactly `amount` long. */
  function Record(games: seq<Game>, amount: int, team1: Option<Team>, team2: Option<Team>, events: seq<Event>): Recorded
    decreases |events|
  {
    if events == [] then Recorded(games, Exhausted)
    else
      var e := events[0];
      if !Scorable(e) then Record(games, amount, team1, team2, events[1..])
      else
        match Totals(team1, team2, e.game.value.scores)
        case None => Recorded(games, Crashed)
        case Some(p) =>
          if HasGame(games, e.id) then Record(games, amount, team1, team2, events[1..])
          else
            var g := games + [Game(p.0, p.1, e.id)];
            if amount == |g| then Recorded(g, Capped)
            else Record(g, amount, team1, team2, events[1..])
  }

  /** Recording only appends: the games already there stay, in order. */
  lemma {:induction false} RecordExtends(games: seq<Game>, amount: int, t1: Option<Team>, t2: Option<Team>, events: seq<Event>)
    ensures var r := Record(games, amount, t1, t2, events).games;
      |games| <= |r| && r[..|games|] == games
    decreases |events|
  {
    if events != [] {
      var e := events[0];
      if !Scorable(e) {
        RecordExtends(games, amount, t1, t2, events[1..]);
      } else if Totals(t1, t2, e.game.value.scores).Some? {
        var p := Totals(t1, t2, e.game.value.scores).value;
        if HasGame(games, e.id) {
          RecordExtends(games, amount, t1, t2, events[1..]);
        } else {
          var g := games + [Game(p.0, p.1, e.id)];
          if amount != |g| {
            RecordExtends(g, amount, t1, t2, events[1..]);
            var r := Record(g, amount, t1, t2, events[1..]).games;
            assert r[..|games|] == r[..|g|][..|games|];
          }
        }
      }
    }
  }

  /** The ids of the scorable events of a batch. */
  function ScorableIds(events: seq<Event>): set<int>
  {
    set e | e in events && Scorable(e) :: e.id
  }

  /** Every game recorded by the call carries the id of a scorable event of
      the batch, and no id is recorded twice. */
  lemma {:induction false} RecordNoDuplicates(games: seq<Game>, amount: int, t1: Option<Team>, t2: Option<Team>, events: seq<Event>)
    requires NoDuplicateIds(games)
    ensures var r := Record(games, amount, t1, t2, events).games;
      && NoDuplicateIds(r)
      && forall k :: |games| <= k < |r| ==> r[k].gameId in ScorableIds(events)
    decreases |events|
  {
    RecordExtends(games, amount, t1, t2, events);
    if events != [] {
      var e := events[0];
      var rest := events[1..];
      assert ScorableIds(rest) <= ScorableIds(events) by {
        forall x | x in rest ensures x in events { }
      }
      var r := Record(games, amount, t1, t2, events).games;
      if !Scorable(e) || HasGame(games, e.id) {
        if !Scorable(e) || Totals(t1, t2, e.game.value.scores).Some? {
          assert r == Record(games, amount, t1, t2, rest).games;
          RecordNoDuplicates(games, amount, t1, t2, rest);
        }
      } else if Totals(t1, t2, e.game.value.scores).Some? {
        var p := Totals(t1, t2, e.game.value.scores).value;
        var g := games + [Game(p.0, p.1, e.id)];
        assert NoDuplicateIds(g) by {
          forall i, j | 0 <= i < j < |g| ensures g[i].gameId != g[j].gameId {
            if j == |games| {
              assert !(games[i].gameId == e.id);
            }
          }
        }
        assert e.id in ScorableIds(events);
        if amount != |g| {
          assert r == Record(g, amount, t1, t2, rest).games;
          RecordNoDuplicates(g, amount, t1, t2, rest);
          RecordExtends(g, amount, t1, t2, rest);
          assert r[|games|] == g[|games|];
        }
      }
    }
  }

  /** A call that starts below the best-of count never records more games
      than that count. */
  lemma {:induction false} RecordCap(games: seq<Game>, amount: int, t1: Option<Team>, t2: Option<Team>, events: seq<Event>)
    requires |games| < amount
    ensures |Record(games, amount, t1, t2, events).games| <= amount
    decreases |events|
  {
    if events != [] {
      var e := events[0];
      if !Scorable(e) {
        RecordCap(games, amount, t1, t2, events[1..]);
      } else if Totals(t1, t2, e.game.value.scores).Some? {
        var p := Totals(t1, t2, e.game.value.scores).value;
        if HasGame(games, e.id) {
          RecordCap(games, amount, t1, t2, events[1..]);
        } else {
          var g := games + [Game(p.0, p.1, e.id)];
          if amount != |g| {
            RecordCap(g, amount, t1, t2, events[1..]);
          }
        }
      }
    }
  }

  /** A batch with no scorable event records nothing. */
  lemma {:induction false} RecordIgnoresUnscorable(games: seq<Game>, amount: int, t1: Option<Team>, t2: Option<Team>, events: seq<Event>)
    requires forall e :: e in events ==> !Scorable(e)
    ensures Record(games, amount, t1, t2, events) == Recorded(games, Exhausted)
    decreases |events|
  {
    if events != [] {
      assert events[0] in events;
      assert forall x :: x in events[1..] ==> x in events;
      RecordIgnoresUnscorable(games, amount, t1, t2, events[1..]);
    }
  }

  /** Every scorable event of `events` can be scored without a type error
      and its id is already among `games`. */
  ghost predicate Covered(games: seq<Game>, t1: Option<Team>, t2: Option<Team>, events: seq<Event>)
  {
    forall c :: 0 <= c < |events| && Scorable(events[c]) ==>
      Totals(t1, t2, events[c].game.value.scores).Some? && HasGame(games, events[c].id)
  }

  /** Covering survives adding games. */
  lemma CoveredMonotone(games: seq<Game>, more: seq<Game>, t1: Option<Team>, t2: Option<Team>, events: seq<Event>)
    requires Covered(games, t1, t2, events)
    requires |games| <= |more| && more[..|games|] == games
    ensures Covered(more, t1, t2, events)
  {
    forall c | 0 <= c < |events| && Scorable(events[c])
      ensures HasGame(more, events[c].id)
    {
      var k :| 0 <= k < |games| && games[k].gameId == events[c].id;
      assert more[k] == games[k];
    }
  }

  /** Covering the first event and the rest covers the whole list. */
  lemma CoveredCons(games: seq<Game>, t1: Option<Team>, t2: Option<Team>, events: seq<Event>)
    requires events != []
    requires Scorable(events[0]) ==> Totals(t1, t2, events[0].game.value.scores).Some? && HasGame(games, events[0].id)
    requires Covered(games, t1, t2, events[1..])
    ensures Covered(games, t1, t2, events)
  {
    forall c | 0 < c < |events| && Scorable(events[c])
      ensures Totals(t1, t2, events[c].game.value.scores).Some? && HasGame(games, events[c].id)
    {
      assert events[c] == events[1..][c - 1];
    }
  }

  /** A recording that ran through all events leaves every one of them
      covered. */
  lemma {:induction false} RecordCovers(games: seq<Game>, amount: int, t1: Option<Team>, t2: Option<Team>, events: seq<Event>)
    requires Record(games, amount, t1, t2, events).stop == Exhausted
    ensures Covered(Record(games, amount, t1, t2, events).games, t1, t2, events)
    decreases |events|
  {
    if events != [] {
      var e := events[0];
      var rest := events[1..];
      var r := Record(games, amount, t1, t2, events).games;
      if !Scorable(e) {
        RecordCovers(games, amount, t1, t2, rest);
        CoveredCons(r, t1, t2, events);
      } else {
        var p := Totals(t1, t2, e.game.value.scores).value;
        var g := if HasGame(games, e.id) then games else games + [Game(p.0, p.1, e.id)];
        assert HasGame(g, e.id) by {
          if !HasGame(games, e.id) { assert g[|games|].gameId == e.id; }
        }
        RecordCovers(g, amount, t1, t2, rest);
        RecordExtends(g, amount, t1, t2, rest);
        assert HasGame(r, e.id) by {
          var k :| 0 <= k < |g| && g[k].gameId == e.id;
          assert r[..|g|][k] == g[k];
        }
        CoveredCons(r, t1, t2, events);
      }
    }
  }

  /** A recording that crashed did so at an event whose predecessors are
      all covered by the games it left. */
  lemma {:induction false} RecordCrashPoint(games: seq<Game>, amount: int, t1: Option<Team>, t2: Option<Team>, events: seq<Event>)
    requires Record(games, amount, t1, t2, events).stop == Crashed
    ensures exists c :: 0 <= c < |events| && Covered(Record(games, amount, t1, t2, events).games, t1, t2, events[..c])
                      && Scorable(events[c]) && Totals(t1, t2, events[c].game.value.scores).None?
    decreases |events|
  {
    var e := events[0];
    var rest := events[1..];
    var r := Record(games, amount, t1, t2, events).games;
    if Scorable(e) && Totals(t1, t2, e.game.value.scores).None? {
      assert Covered(r, t1, t2, events[..0]);
    } else {
      var g := games;
      if Scorable(e) && !HasGame(games, e.id) {
        var p := Totals(t1, t2, e.game.value.scores).value;
        g := games + [Game(p.0, p.1, e.id)];
        assert g[|games|].gameId == e.id;
      }
      assert Record(games, amount, t1, t2, events) == Record(g, amount, t1, t2, rest);
      RecordCrashPoint(g, amount, t1, t2, rest);
      RecordExtends(g, amount, t1, t2, rest);
      var c :| 0 <= c < |rest| && Covered(r, t1, t2, rest[..c])
              && Scorable(rest[c]) && Totals(t1, t2, rest[c].game.value.scores).None?;
      assert HasGame(g, e.id) ==> HasGame(r, e.id) by {
        if HasGame(g, e.id) {
          var k :| 0 <= k < |g| && g[k].gameId == e.id;
          assert r[..|g|][k] == g[k];
        }
      }
      assert events[..c + 1][1..] == rest[..c];
      CoveredCons(r, t1, t2, events[..c + 1]);
      assert events[c + 1] == rest[c];
    }
  }

  /** Recording over events that are all covered records nothing. */
  lemma {:induction false} RecordCoveredIsNoop(games: seq<Game>, amount: int, t1: Option<Team>, t2: Option<Team>, events: seq<Event>)
    requires Covered(games, t1, t2, events)
    ensures Record(games, amount, t1, t2, events) == Recorded(games, Exhausted)
    decreases |events|
  {
    if events != [] {
      assert Covered(games, t1, t2, events[1..]) by {
        forall c | 0 <= c < |events[1..]| && Scorable(events[1..][c])
          ensures Totals(t1, t2, events[1..][c].game.value.scores).Some? && HasGame(games, events[1..][c].id)
        {
          assert events[1..][c] == events[c + 1];
        }
      }
      RecordCoveredIsNoop(games, amount, t1, t2, events[1..]);
    }
  }

  /** Re-recording after a crash crashes again at the same place. */
  lemma {:induction false} RecordAgainAfterCrash(games: seq<Game>, amount: int, t1: Option<Team>, t2: Option<Team>, events: seq<Event>, c: nat)
    requires c < |events| && Covered(games, t1, t2, events[..c])
    requires Scorable(events[c]) && Totals(t1, t2, events[c].game.value.scores).None?
    ensures Record(games, amount, t1, t2, events) == Recorded(games, Crashed)
    decreases c
  {
    if c > 0 {
      assert events[0] == events[..c][0];
      var tail := events[1..][..c - 1];
      assert Covered(games, t1, t2, tail) by {
        forall k | 0 <= k < |tail| && Scorable(tail[k])
          ensures Totals(t1, t2, tail[k].game.value.scores).Some? && HasGame(games, tail[k].id)
        {
          assert tail[k] == events[..c][k + 1];
        }
      }
      RecordAgainAfterCrash(games, amount, t1, t2, events[1..], c - 1);
    }
  }

  /** Games won by team 1: those where team 1 scored strictly more. */
  function Wins1(games: seq<Game>): nat
  {
    if games == [] then 0
    else Wins1(games[..|games| - 1]) + (if games[|games| - 1].team1Score > games[|games| - 1].team2Score then 1 else 0)
  }

  /** Games counted for team 2: every other game, ties included. */
  function Wins2(games: seq<Game>): nat
  {
    if games == [] then 0
    else Wins2(games[..|games| - 1]) + (if games[|games| - 1].team1Score > games[|games| - 1].team2Score then 0 else 1)
  }

  /** Every recorded game is counted for exactly one team. */
  lemma {:induction false} TallyTotal(games: seq<Game>)
    ensures Wins1(games) + Wins2(games) == |games|
  {
    if games != [] {
      TallyTotal(games[..|games| - 1]);
    }
  }

  /** A drawn game is counted as a win for team 2. */
  lemma TiedGameCountsForTeam2(s: int, id: int)
    ensures Wins1([Game(s, s, id)]) == 0 && Wins2([Game(s, s, id)]) == 1
  {
    assert [Game(s, s, id)][..0] == [];
  }

  /** The majority threshold `amount // 2 + 1` (floor division; Dafny's
      division by the positive 2 rounds down like the engine's). */
  function Threshold(amount: int): int
  {
    amount / 2 + 1
  }

  function Digit(d: nat): char
    requires d < 10
  {
    ['0', '1', '2', '3', '4', '5', '6', '7', '8', '9'][d]
  }

  /** Decimal rendering of a natural number, without leading zeros. */
  function NatToString(n: nat): (s: string)
    ensures 1 <= |s| && forall k :: 0 <= k < |s| ==> '0' <= s[k] <= '9'
    ensures |s| == 1 <==> n < 10
    ensures n >= 10 ==> s[0] != '0'
  {
    if n < 10 then [Digit(n)] else NatToString(n / 10) + [Digit(n % 10)]
  }

  /** Value of a string of decimal digits. */
  function DigitsValue(s: string): nat
    requires forall k :: 0 <= k < |s| ==> '0' <= s[k] <= '9'
  {
    if s == [] then 0 else DigitsValue(s[..|s| - 1]) * 10 + (s[|s| - 1] as int - '0' as int)
  }

  /** Rendering a number and reading it back gives the number. */
  lemma {:induction false} NatToStringRoundTrip(n: nat)
    ensures DigitsValue(NatToString(n)) == n
  {
    if n < 10 {
      DigitRoundTrip(n);
      assert NatToString(n)[..0] == [];
    } else {
      NatToStringRoundTrip(n / 10);
      var s, p := NatToString(n), NatToString(n / 10);
      assert s == p + [Digit(n % 10)];
      assert s[..|s| - 1] == p && s[|s| - 1] == Digit(n % 10);
      DigitRoundTrip(n % 10);
      assert DigitsValue(s) == DigitsValue(p) * 10 + n % 10;
    }
  }

  /** A digit character reads back as its value. */
  lemma DigitRoundTrip(d: nat)
    requires d < 10
    ensures '0' <= Digit(d) <= '9' && Digit(d) as int - '0' as int == d
  {
  }

  /** The "a:b" score string. */
  function FormatScore(a: nat, b: nat): string
  {
    NatToString(a) + ":" + NatToString(b)
  }

  /** With single-digit tallies the score string has exactly three
      characters, the format the manual-entry path insists on. */
  lemma ScoreLength(a: nat, b: nat)
    requires a < 10 && b < 10
    ensures |FormatScore(a, b)| == 3
  {
  }

  /** The two halves of a score string read back as the two tallies. */
  lemma ScoreRoundTrip(a: nat, b: nat)
    ensures var s := FormatScore(a, b); var i := |NatToString(a)|;
      && (forall k :: 0 <= k < i ==> '0' <= s[k] <= '9')
      && (forall k :: i < k < |s| ==> '0' <= s[k] <= '9')
      && DigitsValue(s[..i]) == a && DigitsValue(s[i + 1..]) == b
  {
    var s := FormatScore(a, b);
    var i := |NatToString(a)|;
    assert s[..i] == NatToString(a);
    assert s[i + 1..] == NatToString(b);
    NatToStringRoundTrip(a);
    NatToStringRoundTrip(b);
  }

  /** The match's winner after a tally: team 1 at the threshold, else team 2
      at the threshold, else whatever it was. */
  function Decide(m: Match, w1: nat, w2: nat): Option<Team>
  {
    if w1 >= Threshold(m.gamesAmount) then m.team1
    else if w2 >= Threshold(m.gamesAmount) then m.team2
    else m.winner
  }

  /** The match after one telemetry batch, and whether the batch was
      processed without a type error. After a type error the games recorded
      so far stay and nothing else is touched. */
  function UpdatedMatch(m: Match, info: MatchInfo): (Match, bool)
  {
    var rec := Record(m.games, m.gamesAmount, m.team1, m.team2, info.events);
    if rec.stop == Crashed then (m.(games := rec.games), false)
    else
      var w1 := Wins1(rec.games);
      var w2 := Wins2(rec.games);
      (m.(games := rec.games, score := FormatScore(w1, w2), winner := Decide(m, w1, w2)), true)
  }

  /** Feeding the same batch a second time changes nothing, provided the
      first pass did not stop at the best-of cap. */
  lemma UpdateIdempotent(m: Match, info: MatchInfo)
    requires Record(m.games, m.gamesAmount, m.team1, m.team2, info.events).stop != Capped
    ensures UpdatedMatch(UpdatedMatch(m, info).0, info) == UpdatedMatch(m, info)
  {
    var rec := Record(m.games, m.gamesAmount, m.team1, m.team2, info.events);
    if rec.stop == Exhausted {
      RecordCovers(m.games, m.gamesAmount, m.team1, m.team2, info.events);
      RecordCoveredIsNoop(rec.games, m.gamesAmount, m.team1, m.team2, info.events);
    } else {
      RecordCrashPoint(m.games, m.gamesAmount, m.team1, m.team2, info.events);
      var c :| 0 <= c < |info.events| && Covered(rec.games, m.team1, m.team2, info.events[..c])
              && Scorable(info.events[c]) && Totals(m.team1, m.team2, info.events[c].game.value.scores).None?;
      RecordAgainAfterCrash(rec.games, m.gamesAmount, m.team1, m.team2, info.events, c);
    }
  }

  /** The cap is checked with equality right after an append, so a match
      that already holds `gamesAmount` games records one more. */
  lemma CapOnlyStopsFromBelow()
    ensures var t1 := Team([TeamMember("a", 1, "da", "", "")], None, None, None);
      var t2 := Team([TeamMember("b", 2, "db", "", "")], None, None, None);
      var full := [Game(1, 0, 10), Game(1, 0, 11), Game(1, 0, 12)];
      var m := CreateMatch(2, 1, InProgress, Some(t1), Some(t2)).(games := full);
      var info := MatchInfo(7, [Event(13, Some(GameData([ScoreEntry(IntId(1), 5)])))]);
      |UpdatedMatch(m, info).0.games| == 4
  {
    var t1 := Team([TeamMember("a", 1, "da", "", "")], None, None, None);
    var t2 := Team([TeamMember("b", 2, "db", "", "")], None, None, None);
    var full := [Game(1, 0, 10), Game(1, 0, 11), Game(1, 0, 12)];
    var scores := [ScoreEntry(IntId(1), 5)];
    assert Contains(t1, IntId(1)) by { assert t1.members[0] in t1.members; }
    assert scores[..0] == [];
    assert Totals(Some(t1), Some(t2), scores) == Some((5, 0));
    assert !HasGame(full, 13);
  }

  /** The per-player sums of one game, as the engine runs them: each score
      goes to team 1 when the player is in team 1, otherwise to team 2 when
      the player is in team 2. `None` is the type error raised by the
      membership test on an empty team slot. */
  method SumScores(team1: Option<Team>, team2: Option<Team>, scores: seq<ScoreEntry>) returns (t: Option<(int, int)>)
    ensures t == Totals(team1, team2, scores)
    ensures t.None? <==> exists k :: 0 <= k < |scores| && SideOf(team1, team2, scores[k].userId) == Undefined
  {
    var team1Score, team2Score := 0, 0;
    var j := 0;
    while j < |scores|
      invariant 0 <= j <= |scores|
      invariant Totals(team1, team2, scores[..j]) == Some((team1Score, team2Score))
    {
      var side := SideOf(team1, team2, scores[j].userId);
      TotalsStep(team1, team2, scores, j, team1Score, team2Score);
      if side == Undefined {
        TotalsPrefixFails(team1, team2, scores, j + 1);
        TotalsDefined(team1, team2, scores);
        return None;
      } else if side == Team1Side {
        team1Score := team1Score + scores[j].score;
      } else if side == Team2Side {
        team2Score := team2Score + scores[j].score;
      }
      j := j + 1;
    }
    assert scores[..j] == scores;
    TotalsDefined(team1, team2, scores);
    t := Some((team1Score, team2Score));
  }

  /** The tally loop: one win per game, for team 1 exactly when it scored
      strictly more, otherwise for team 2. */
  method TallyGames(games: seq<Game>) returns (w1: nat, w2: nat)
    ensures w1 == Wins1(games) && w2 == Wins2(games)
    ensures w1 + w2 == |games|
  {
    w1, w2 := 0, 0;
    var k := 0;
    while k < |games|
      invariant 0 <= k <= |games|
      invariant w1 == Wins1(games[..k]) && w2 == Wins2(games[..k])
    {
      assert games[..k + 1][..k] == games[..k];
      if games[k].team1Score > games[k].team2Score {
        w1 := w1 + 1;
      } else {
        w2 := w2 + 1;
      }
      k := k + 1;
    }
    assert games[..k] == games;
    TallyTotal(games);
  }

  /** The event loop: unscorable events are skipped, a game whose id is
      already recorded is skipped, and the loop stops right after an append
      that makes the list exactly `amount` long. */
  method RecordGames(games0: seq<Game>, amount: int, team1: Option<Team>, team2: Option<Team>, events: seq<Event>)
    returns (games: seq<Game>, ok: bool)
    ensures Record(games0, amount, team1, team2, events).games == games
    ensures ok <==> Record(games0, amount, team1, team2, events).stop != Crashed
  {
    games := games0;
    var i := 0;
    while i < |events|
      invariant 0 <= i <= |events|
      invariant Record(games0, amount, team1, team2, events) == Record(games, amount, team1, team2, events[i..])
    {
      var e := events[i];
      assert events[i..][1..] == events[i + 1..];
      if e.game.None? || e.game.value.scores == [] {
        i := i + 1;
        continue;
      }
      var totals := SumScores(team1, team2, e.game.value.scores);
      if totals.None? {
        return games, false;
      }
      var game := Game(totals.value.0, totals.value.1, e.id);
      if HasGame(games, game.gameId) {
        i := i + 1;
        continue;
      }
      games := games + [game];
      if amount == |games| {
        return games, true;
      }
      i := i + 1;
    }
    ok := true;
  }

  /** One telemetry batch applied to a match: the games are recorded, then
      the game wins are tallied into the score string and the winner is set
      once a side reaches the majority threshold. A type error while scoring
      leaves the games recorded so far and nothing else. */
  method UpdateMatch(m: Match, info: MatchInfo) returns (r: Match, ok: bool)
    ensures (r, ok) == UpdatedMatch(m, info)
    ensures |m.games| <= |r.games| && r.games[..|m.games|] == m.games
    ensures NoDuplicateIds(m.games) ==> NoDuplicateIds(r.games)
    ensures |m.games| < m.gamesAmount ==> |r.games| <= m.gamesAmount
    ensures r.(games := m.games, score := m.score, winner := m.winner) == m
    ensures ok ==> Wins1(r.games) + Wins2(r.games) == |r.games|
    ensures ok ==> r.score == FormatScore(Wins1(r.games), Wins2(r.games))
    ensures ok ==> r.winner == if Wins1(r.games) >= Threshold(m.gamesAmount) then m.team1
                              else if Wins2(r.games) >= Threshold(m.gamesAmount) then m.team2
                              else m.winner
    ensures !ok ==> r.score == m.score && r.winner == m.winner
  {
    UpdatedMatchFacts(m, info);
    var games;
    games, ok := RecordGames(m.games, m.gamesAmount, m.team1, m.team2, info.events);
    if !ok {
      r := m.(games := games);
      return;
    }
    var team1MatchScore, team2MatchScore := TallyGames(games);
    var score := m.score;
    var matchScore := FormatScore(team1MatchScore, team2MatchScore);
    if score != matchScore {
      score := matchScore;
    }
    var winner := m.winner;
    if team1MatchScore >= m.gamesAmount / 2 + 1 {
      winner := m.team1;
    } else if team2MatchScore >= m.gamesAmount / 2 + 1 {
      winner := m.team2;
    }
    r := m.(games := games, score := score, winner := winner);
  }

  /** One more score added to running sums that are defined. */
  lemma TotalsStep(team1: Option<Team>, team2: Option<Team>, scores: seq<ScoreEntry>, j: nat, a: int, b: int)
    requires j < |scores| && Totals(team1, team2, scores[..j]) == Some((a, b))
    ensures var e := scores[j];
      Totals(team1, team2, scores[..j + 1]) ==
        match SideOf(team1, team2, e.userId)
        case Team1Side => Some((a + e.score, b))
        case Team2Side => Some((a, b + e.score))
        case NoSide => Some((a, b))
        case Undefined => None
  {
    assert scores[..j + 1][..j] == scores[..j];
  }

  /** A score list whose prefix of length `j` fails to total fails too. */
  lemma TotalsPrefixFails(team1: Option<Team>, team2: Option<Team>, scores: seq<ScoreEntry>, j: nat)
    requires j <= |scores| && Totals(team1, team2, scores[..j]).None?
    ensures Totals(team1, team2, scores).None?
  {
    TotalsDefined(team1, team2, scores[..j]);
    TotalsDefined(team1, team2, scores);
    var k :| 0 <= k < j && SideOf(team1, team2, scores[..j][k].userId) == Undefined;
    assert scores[..j][k] == scores[k];
  }

  /** What UpdatedMatch guarantees: appends only, no duplicate ids, the cap
      when entered below it, and the tally. */
  lemma UpdatedMatchFacts(m: Match, info: MatchInfo)
    ensures var r := UpdatedMatch(m, info).0;
      && |m.games| <= |r.games| && r.games[..|m.games|] == m.games
      && (NoDuplicateIds(m.games) ==> NoDuplicateIds(r.games))
      && (|m.games| < m.gamesAmount ==> |r.games| <= m.gamesAmount)
      && Wins1(r.games) + Wins2(r.games) == |r.games|
  {
    var rec := Record(m.games, m.gamesAmount, m.team1, m.team2, info.events);
    RecordExtends(m.games, m.gamesAmount, m.team1, m.team2, info.events);
    if NoDuplicateIds(m.games) {
      RecordNoDuplicates(m.games, m.gamesAmount, m.team1, m.team2, info.events);
    }
    if |m.games| < m.gamesAmount {
      RecordCap(m.games, m.gamesAmount, m.team1, m.team2, info.events);
    }
    TallyTotal(rec.games);
  }
}
