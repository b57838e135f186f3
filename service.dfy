/** The service between the tournament data and its users: binding a live
    match id to the matches of a player, and checking the arguments of a
    result entered by hand before passing it on. */
module Service {
  import opened Entities
  import opened BracketEngine
  import opened TournamentEngine
  import Seeding

  /** The three ValueError messages of the result guard, in the order they
      are checked. */
  datatype GuardError = WrongMatchNumber | WrongWinnerNumber | WrongScoreFormat

  /** Whether a live id given by the player `discordId` is bound to match
      `m`: both teams are known, no live id is bound yet, and the player is
      in one of the teams. The match status is not consulted. */
  predicate Binds(m: Match, discordId: string)
  {
    && m.team1.Some? && m.team2.Some?
    && m.matchId.None?
    && (Contains(m.team1.value, StrId(discordId)) || Contains(m.team2.value, StrId(discordId)))
  }

  /** Match `m` after the binding step: bound to `matchId` and in progress,
      or as it was. */
  function Bind(m: Match, matchId: int, discordId: string): Match
  {
    if Binds(m, discordId) then m.(matchId := Some(matchId), status := InProgress) else m
  }

  /** The bracket after a player reports a live id: the scan does not stop
      at the first hit, so every match the id binds to is bound. */
  function Connected(ms: seq<Match>, matchId: int, discordId: string): (r: seq<Match>)
    ensures |r| == |ms|
  {
    seq(|ms|, j requires 0 <= j < |ms| => Bind(ms[j], matchId, discordId))
  }

  /** After the binding step, every match that both teams have reached and
      that includes the player carries a live id, and a match already
      bound keeps its id; every match the id does not bind to is unchanged.
      The status is not consulted, so a completed match that never had a
      live id is bound too and goes back in progress. */
  lemma ConnectedEffect(ms: seq<Match>, matchId: int, discordId: string, j: nat)
    requires j < |ms|
    ensures var r := Connected(ms, matchId, discordId);
      && (ms[j].matchId.Some? ==> r[j] == ms[j])
      && (ms[j].team1.None? || ms[j].team2.None? ==> r[j] == ms[j])
      && (ms[j].team1.Some? && ms[j].team2.Some?
          && (Contains(ms[j].team1.value, StrId(discordId)) || Contains(ms[j].team2.value, StrId(discordId)))
          ==> r[j].matchId.Some?)
      && (!Binds(ms[j], discordId) ==> r[j] == ms[j])
      && (Binds(ms[j], discordId) ==>
            r[j].matchId == Some(matchId) && r[j].status == InProgress
            && r[j].(matchId := ms[j].matchId, status := ms[j].status) == ms[j])
  {
  }

  /** A result entered by hand followed by a report of a live id: a match
      that was bound before the entry keeps its id and stays completed; a
      match that never had a live id is bound by the report if it includes
      the player, and goes back in progress. */
  lemma ManualResultThenConnect(ms: seq<Match>, n: int, w: int, s: string, matchId: int, discordId: string)
    requires WellLinked(ms) && FirstWithNumber(ms, n).Some?
    ensures var j := FirstWithNumber(ms, n).value;
      var r := EnterResult(ms, n, w, s);
      var c := Connected(r, matchId, discordId);
      && r[j].status == Completed
      && (ms[j].matchId.Some? ==> c[j] == r[j] && c[j].matchId == ms[j].matchId)
      && (ms[j].matchId.None? && Binds(r[j], discordId) ==> c[j].matchId == Some(matchId) && c[j].status == InProgress)
  {
    EnterResultEffect(ms, n, w, s);
    EnterResultKeepsLiveIds(ms, n, w, s);
  }

  /** The binding step keeps the bracket's links, numbers, games and
      teams. */
  lemma ConnectedKeepsBracket(ms: seq<Match>, matchId: int, discordId: string)
    requires ValidBracket(ms)
    ensures var r := Connected(ms, matchId, discordId);
      SameStructure(ms, r) && ValidBracket(r)
      && forall j :: 0 <= j < |ms| ==> r[j].team1 == ms[j].team1 && r[j].team2 == ms[j].team2 && r[j].games == ms[j].games
  {
  }

  /** A player reporting again changes nothing: every match the first
      report could bind is bound by then, whatever id the second report
      carries. */
  lemma ConnectedOnce(ms: seq<Match>, first: int, second: int, discordId: string)
    ensures Connected(Connected(ms, first, discordId), second, discordId) == Connected(ms, first, discordId)
  {
    var r := Connected(ms, first, discordId);
    forall j | 0 <= j < |ms| ensures !Binds(r[j], discordId) {
      if Binds(ms[j], discordId) {
        assert r[j].matchId.Some?;
      } else {
        assert r[j] == ms[j];
      }
    }
  }

  /** Bound matches are never rebound: a later report by anyone leaves
      every match that already has a live id as it is. */
  lemma BoundMatchesStay(ms: seq<Match>, matchId: int, discordId: string, j: nat)
    requires j < |ms| && ms[j].matchId.Some?
    ensures Connected(ms, matchId, discordId)[j] == ms[j]
  {
  }

  /** The checks on a result entered by hand, in order: the match number
      must lie between 0 and the number of matches (both included), the
      winner must be 1 or 2, and the score must be three characters long. */
  function CheckArgs(matchNumber: int, winnerNumber: int, score: string, count: nat): (r: Option<GuardError>)
    ensures r.None? <==> 0 <= matchNumber <= count && winnerNumber in {1, 2} && |score| == 3
    ensures r == Some(WrongMatchNumber) <==> matchNumber < 0 || matchNumber > count
    ensures r == Some(WrongWinnerNumber) ==> 0 <= matchNumber <= count && winnerNumber !in {1, 2}
    ensures r == Some(WrongScoreFormat) ==> 0 <= matchNumber <= count && winnerNumber in {1, 2} && |score| != 3
  {
    if matchNumber < 0 || matchNumber > count then Some(WrongMatchNumber)
    else if winnerNumber !in [1, 2] then Some(WrongWinnerNumber)
    else if |score| != 3 then Some(WrongScoreFormat)
    else None
  }

  /** Match number 0 passes the guard but names no match of a bracket
      numbered from 1, so the entry changes nothing. */
  lemma ZeroMatchNumberIgnored(ms: seq<Match>, winnerNumber: int, score: string)
    requires WellLinked(ms)
    requires forall j :: 0 <= j < |ms| ==> ms[j].number >= 1
    requires winnerNumber in {1, 2} && |score| == 3
    ensures CheckArgs(0, winnerNumber, score, |ms|).None?
    ensures EnterResult(ms, 0, winnerNumber, score) == ms
  {
  }

  /** A generated bracket is numbered 1 to its length, so the guard
      accepts exactly the numbers of its matches and 0. */
  lemma GuardOnGeneratedBracket(teams: seq<Team>, matchNumber: int)
    requires |teams| >= 4 && Seeding.IsPow2(|teams|)
    ensures BuildBracket(teams).Ok?
    ensures var ms := BuildBracket(teams).value;
      CheckArgs(matchNumber, 1, "2:0", |ms|).None? <==>
        matchNumber == 0 || exists j :: 0 <= j < |ms| && ms[j].number == matchNumber
  {
    BracketShape(teams);
    var ms := BuildBracket(teams).value;
    if 1 <= matchNumber <= |ms| {
      assert ms[matchNumber - 1].number == matchNumber;
    }
  }

  class TournamentService {
    const manager: OsuTournamentManager

    constructor(manager: OsuTournamentManager)
      ensures this.manager == manager
    {
      this.manager := manager;
    }

    /** Binds live id `matchId` to every match the player `discordId`
        plays in that has both teams and no live id yet, and puts those
        matches in progress. */
    method ConnectMatchId(matchId: int, discordId: string)
      requires manager.bracketManager != null && manager.bracketManager.hasBracket && manager.bracketManager.Valid()
      modifies manager.bracketManager
      ensures manager.bracketManager.hasBracket && manager.bracketManager.Valid()
      ensures manager.bracketManager.matches == Connected(old(manager.bracketManager.matches), matchId, discordId)
    {
      var bm := manager.bracketManager;
      ConnectedKeepsBracket(bm.matches, matchId, discordId);
      ghost var start := bm.matches;
      var j := 0;
      while j < |bm.matches|
        invariant bm.hasBracket && |bm.matches| == |start| && 0 <= j <= |start|
        invariant forall k :: 0 <= k < j ==> bm.matches[k] == Bind(start[k], matchId, discordId)
        invariant forall k :: j <= k < |start| ==> bm.matches[k] == start[k]
      {
        var m := bm.matches[j];
        if m.team1.None? || m.team2.None? {
          j := j + 1;
          continue;
        }
        if m.matchId.Some? {
          j := j + 1;
          continue;
        }
        if Contains(m.team1.value, StrId(discordId)) || Contains(m.team2.value, StrId(discordId)) {
          bm.matches := bm.matches[j := m.(matchId := Some(matchId), status := InProgress)];
        }
        j := j + 1;
      }
    }

    /** Rejects malformed arguments with the first failing check, leaving
        the bracket as it is, and otherwise enters the result. */
    method EnterMatchResults(matchNumber: int, winnerNumber: int, score: string) returns (err: Option<GuardError>)
      requires manager.bracketManager != null && manager.bracketManager.hasBracket && manager.bracketManager.Valid()
      modifies manager.bracketManager
      ensures manager.bracketManager.hasBracket && manager.bracketManager.Valid()
      ensures err == CheckArgs(matchNumber, winnerNumber, score, |old(manager.bracketManager.matches)|)
      ensures err.Some? ==> manager.bracketManager.matches == old(manager.bracketManager.matches)
      ensures err.None? ==>
        manager.bracketManager.matches == EnterResult(old(manager.bracketManager.matches), matchNumber, winnerNumber, score)
    {
      var matches := manager.bracketManager.GetMatches();
      if matchNumber < 0 || matchNumber > |matches| {
        return Some(WrongMatchNumber);
      }
      if winnerNumber !in [1, 2] {
        return Some(WrongWinnerNumber);
      }
      if |score| != 3 {
        return Some(WrongScoreFormat);
      }
      manager.EnterMatchResults(matchNumber, winnerNumber, score);
      return None;
    }
  }
}
