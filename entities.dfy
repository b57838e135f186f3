/** The value types of the tournament engine: members, teams, games and
    bracket matches, together with the two equality notions the engine
    relies on (membership of an id in a team, and equality of games by
    their external id). */
module Entities {

  datatype Option<T> = None | Some(value: T)

  /** The Python exceptions the engine can raise: popping from an empty
      list or reading past a short row, an unconvertible code point, a name
      read before it was bound, a membership test on an empty team slot,
      and the recursion limit that ends a recursion making no progress. */
  datatype Exception = IndexError | ValueError | UnboundLocalError | TypeError | RecursionError

  /** An identity as the engine compares it. User ids from the game API are
      integers and Discord ids are strings; an integer never equals a
      string, so the two kinds of id are kept apart. */
  datatype Id = IntId(n: int) | StrId(s: string)

  datatype TeamMember = TeamMember(
    username: string,
    userId: int,
    discordId: string,
    avatarUrl: string,
    countryEmoji: string)

  /** A team: its members and display fields copied from one member. */
  datatype Team = Team(
    members: seq<TeamMember>,
    name: Option<string>,
    avatarUrl: Option<string>,
    countryEmoji: Option<string>)

  /** One recorded game of a match, identified by the telemetry event id. */
  datatype Game = Game(team1Score: int, team2Score: int, gameId: int)

  datatype Status = Pending | Scheduled | InProgress | Completed

  /** A bracket node. `nextMatch` is the index of the successor in the
      bracket's match list. */
  datatype Match = Match(
    stage: int,
    number: int,
    status: Status,
    team1: Option<Team>,
    team2: Option<Team>,
    winner: Option<Team>,
    score: string,
    matchId: Option<int>,
    nextMatch: Option<nat>,
    games: seq<Game>,
    gamesAmount: int)

  /** `x` is one of the two ids of member `m`. */
  predicate MemberHasId(m: TeamMember, x: Id)
  {
    x == IntId(m.userId) || x == StrId(m.discordId)
  }

  /** Scan of the member list, first to last, for a member carrying `x`. */
  function MembersContain(ms: seq<TeamMember>, x: Id): (b: bool)
    ensures b <==> exists k :: 0 <= k < |ms| && MemberHasId(ms[k], x)
  {
    if ms == [] then false
    else if MemberHasId(ms[0], x) then true
    else
      var rest := MembersContain(ms[1..], x);
      assert forall k :: 1 <= k < |ms| ==> ms[k] == ms[1..][k - 1];
      rest
  }

  /** The `in` test on a team. */
  function Contains(t: Team, x: Id): (b: bool)
    ensures b <==> exists m :: m in t.members && MemberHasId(m, x)
  {
    MembersContain(t.members, x)
  }

  /** Values that can meet in the roster's `in` test: a member being built
      and the teams already registered. */
  datatype Value = MemberValue(member: TeamMember) | TeamValue(team: Team)

  /** Equality as the record types define it: members compare by their two
      ids only, teams by all their fields, and values of two different
      record types are never equal (both sides decline the comparison and
      the fallback is object identity, which differs). */
  predicate ValueEq(a: Value, b: Value)
  {
    match (a, b)
    case (MemberValue(m), MemberValue(n)) => m.userId == n.userId && m.discordId == n.discordId
    case (TeamValue(s), TeamValue(t)) =>
      && |s.members| == |t.members|
      && (forall k :: 0 <= k < |s.members| ==>
            s.members[k].userId == t.members[k].userId && s.members[k].discordId == t.members[k].discordId)
      && s.name == t.name && s.avatarUrl == t.avatarUrl && s.countryEmoji == t.countryEmoji
    case _ => false
  }

  /** The roster test `member in teams`: some team of the roster equals the
      member. */
  predicate MemberInRoster(m: TeamMember, teams: seq<Team>)
  {
    exists k :: 0 <= k < |teams| && ValueEq(MemberValue(m), TeamValue(teams[k]))
  }

  /** A member is never equal to a team, so the roster test is false for
      every member and every roster. */
  lemma MemberNeverInRoster(m: TeamMember, teams: seq<Team>)
    ensures !MemberInRoster(m, teams)
  {
  }

  /** `games` holds some game with external id `id` (games compare by id). */
  predicate HasGame(games: seq<Game>, id: int)
  {
    exists k :: 0 <= k < |games| && games[k].gameId == id
  }

  /** No two recorded games share an external id. */
  predicate NoDuplicateIds(games: seq<Game>)
  {
    forall i, j :: 0 <= i < j < |games| ==> games[i].gameId != games[j].gameId
  }

  /** A fresh match: no winner, score "0:0", no live id, no successor, no
      games and best of three. */
  function CreateMatch(stage: int, number: int, status: Status, team1: Option<Team>, team2: Option<Team>): (m: Match)
    ensures m.stage == stage && m.number == number && m.status == status
    ensures m.team1 == team1 && m.team2 == team2
    ensures m.winner == None && m.score == "0:0" && m.matchId == None && m.nextMatch == None
    ensures m.games == [] && m.gamesAmount == 3
  {
    Match(stage, number, status, team1, team2, None, "0:0", None, None, [], 3)
  }
}
