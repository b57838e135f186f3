/** The osu! tournament manager: registration of teams from signup rows,
    the country flag of a member, and the hand-off to the bracket. The
    profile lookup and the match telemetry fetch are outside the model and
    arrive as functions. */
module TournamentEngine {
  import opened Entities
  import opened MatchEngine
  import opened BracketEngine
  import Seeding

  /** How a call ends: it returns a value or raises. */
  datatype Outcome<T> = Returned(value: T) | Raised(exception: Exception)

  /** A spreadsheet cell of a signup row: the integer it parses to and its
      text. */
  datatype Cell = Cell(parsed: int, text: string)

  /** What the game API reports about a user. */
  datatype Profile = Profile(username: string, avatarUrl: string, countryCode: string)

  // ---------------------------------------------------------------------
  // Country flags
  // ---------------------------------------------------------------------

  /** The distance from a letter to its regional indicator symbol:
      U+1F1E6 - 'A'. */
  const FlagOffset: int := 127397

  /** The largest code point a character may have. */
  const MaxCodePoint: int := 0x10FFFF

  /** Each character shifted by the flag offset; a character whose shifted
      code point lies beyond the last code point makes the conversion
      raise. */
  function CountryEmoji(code: string): (r: Option<string>)
    ensures r.Some? <==> forall k :: 0 <= k < |code| ==> code[k] as int + FlagOffset <= MaxCodePoint
    ensures r.Some? ==> |r.value| == |code|
    ensures r.Some? ==> forall k :: 0 <= k < |code| ==> r.value[k] as int == code[k] as int + FlagOffset
  {
    if code == [] then Some("")
    else if code[0] as int + FlagOffset > MaxCodePoint then None
    else
      match CountryEmoji(code[1..])
      case None => None
      case Some(rest) =>
        var flag := (code[0] as int + FlagOffset) as char;
        Some([flag] + rest)
  }

  /** The inverse shift: back from flag symbols to the characters they
      came from. A character that cannot have come from the shift is kept. */
  function CountryCode(e: string): string
  {
    seq(|e|, k requires 0 <= k < |e| =>
      var x := e[k] as int - FlagOffset;
      if 0 <= x < 0xD800 || 0xE000 <= x <= MaxCodePoint then x as char else e[k])
  }

  /** Shifting back recovers the country code. */
  lemma CountryEmojiRoundTrip(code: string)
    requires CountryEmoji(code).Some?
    ensures CountryCode(CountryEmoji(code).value) == code
  {
    var e := CountryEmoji(code).value;
    forall k | 0 <= k < |code| ensures CountryCode(e)[k] == code[k] {
      assert e[k] as int - FlagOffset == code[k] as int;
    }
  }

  /** Two upper-case letters become two regional indicator symbols
      U+1F1E6..U+1F1FF, a flag emoji sequence. */
  lemma LettersBecomeRegionalIndicators(code: string)
    requires forall k :: 0 <= k < |code| ==> 'A' <= code[k] <= 'Z'
    ensures CountryEmoji(code).Some?
    ensures forall k :: 0 <= k < |code| ==> 0x1F1E6 <= CountryEmoji(code).value[k] as int <= 0x1F1FF
  {
  }

  /** Characters past U+F0E5A cannot be shifted: the conversion raises. */
  lemma HighCharacterRaises()
    ensures CountryEmoji([0xF0E5B as char]).None?
    ensures CountryEmoji([0xF0E5A as char]).Some?
  {
  }

  // ---------------------------------------------------------------------
  // Roster update
  // ---------------------------------------------------------------------

  /** The member described by cells 2k + 1 (the osu! id) and 2k + 2 (the
      Discord id) of a signup row: a short row raises IndexError, and a
      country code that cannot be converted raises ValueError. */
  function MemberAt(row: seq<Cell>, k: nat, profile: int -> Profile): (r: Outcome<TeamMember>)
    ensures r.Raised? ==> r.exception in {IndexError, ValueError}
    ensures r == Raised(IndexError) <==> 2 * k + 2 >= |row|
    ensures r == Raised(ValueError) <==>
      2 * k + 2 < |row| && CountryEmoji(profile(row[2 * k + 1].parsed).countryCode).None?
    ensures r.Returned? ==>
      && r.value.userId == row[2 * k + 1].parsed && r.value.discordId == row[2 * k + 2].text
      && r.value.username == profile(row[2 * k + 1].parsed).username
      && r.value.avatarUrl == profile(row[2 * k + 1].parsed).avatarUrl
      && Some(r.value.countryEmoji) == CountryEmoji(profile(row[2 * k + 1].parsed).countryCode)
  {
    var i := 2 * k + 1;
    if i + 1 >= |row| then Raised(IndexError)
    else
      var p := profile(row[i].parsed);
      match CountryEmoji(p.countryCode)
      case None => Raised(ValueError)
      case Some(flag) => Returned(TeamMember(p.username, row[i].parsed, row[i + 1].text, p.avatarUrl, flag))
  }

  /** The members of one signup row from the k-th on, stopping early if a
      member equals a registered team. */
  function RowMembers(row: seq<Cell>, teamLength: int, teams: seq<Team>, profile: int -> Profile, k: nat)
    : Outcome<seq<TeamMember>>
    decreases if teamLength > k then teamLength - k else 0
  {
    if k >= teamLength then Returned([])
    else
      match MemberAt(row, k, profile)
      case Raised(e) => Raised(e)
      case Returned(m) =>
        if MemberInRoster(m, teams) then Returned([])
        else
          match RowMembers(row, teamLength, teams, profile, k + 1)
          case Raised(e) => Raised(e)
          case Returned(rest) => Returned([m] + rest)
  }

  /** A row's members are the members its cells describe, one per pair of
      cells, in order, as many as the team length; the roster never stops
      the scan early. */
  lemma {:induction false} RowMembersComplete(row: seq<Cell>, teamLength: int, teams: seq<Team>,
                                               profile: int -> Profile, k: nat)
    requires RowMembers(row, teamLength, teams, profile, k).Returned?
    ensures var ms := RowMembers(row, teamLength, teams, profile, k).value;
      && |ms| == (if teamLength > k then teamLength - k else 0)
      && forall q :: 0 <= q < |ms| ==> Returned(ms[q]) == MemberAt(row, k + q, profile)
    decreases if teamLength > k then teamLength - k else 0
  {
    if k < teamLength {
      var m := MemberAt(row, k, profile).value;
      MemberNeverInRoster(m, teams);
      RowMembersComplete(row, teamLength, teams, profile, k + 1);
    }
  }

  /** The registered team of a full row: its members, and the name, avatar
      and flag of the last member built. */
  function RowTeam(ms: seq<TeamMember>): Team
    requires |ms| > 0
  {
    var last := ms[|ms| - 1];
    Team(ms, Some(last.username), Some(last.avatarUrl), Some(last.countryEmoji))
  }

  /** The signup rows from the first on added to the roster: a row with
      fewer members than the team length is skipped, a full row becomes a
      team, and an exception stops the update with the roster as it
      stands. With team length 0 the name of the last member is read
      before any member was built, which raises UnboundLocalError. */
  function AddRows(teams: seq<Team>, teamLength: int, rows: seq<seq<Cell>>, profile: int -> Profile, updated: bool)
    : (seq<Team>, Outcome<bool>)
    decreases |rows|
  {
    if rows == [] then (teams, Returned(updated))
    else
      match RowMembers(rows[0], teamLength, teams, profile, 0)
      case Raised(e) => (teams, Raised(e))
      case Returned(ms) =>
        if |ms| != teamLength then AddRows(teams, teamLength, rows[1..], profile, updated)
        else if ms == [] then (teams, Raised(UnboundLocalError))
        else AddRows(teams + [RowTeam(ms)], teamLength, rows[1..], profile, true)
  }

  /** A registered team of a full row: exactly `teamLength` members, and
      the name, avatar and flag of its last member. */
  predicate FullTeam(t: Team, teamLength: int)
  {
    && |t.members| == teamLength && t.members != []
    && t.name == Some(t.members[|t.members| - 1].username)
    && t.avatarUrl == Some(t.members[|t.members| - 1].avatarUrl)
    && t.countryEmoji == Some(t.members[|t.members| - 1].countryEmoji)
  }

  /** The roster grows only at its end, and every team added has exactly
      the team length in members, with the name, avatar and flag of its
      last member. */
  lemma {:induction false} AddRowsAppends(teams: seq<Team>, teamLength: int, rows: seq<seq<Cell>>,
                                          profile: int -> Profile, updated: bool)
    ensures var r := AddRows(teams, teamLength, rows, profile, updated).0;
      && |teams| <= |r| && r[..|teams|] == teams
      && forall q :: |teams| <= q < |r| ==> FullTeam(r[q], teamLength)
    decreases |rows|
  {
    if rows != [] {
      match RowMembers(rows[0], teamLength, teams, profile, 0)
      case Raised(e) =>
      case Returned(ms) =>
        if |ms| != teamLength {
          AddRowsAppends(teams, teamLength, rows[1..], profile, updated);
        } else if ms != [] {
          var t := teams + [RowTeam(ms)];
          assert FullTeam(RowTeam(ms), teamLength);
          AddRowsAppends(t, teamLength, rows[1..], profile, true);
          var r := AddRows(t, teamLength, rows[1..], profile, true).0;
          assert AddRows(teams, teamLength, rows, profile, updated).0 == r;
          assert r[..|teams|] == r[..|t|][..|teams|];
          assert r[|teams|] == r[..|t|][|teams|] == RowTeam(ms);
        }
    }
  }

  /** The roster never influences what is added: registering the same rows
      on top of any roster adds the same teams with the same outcome. In
      particular a signup submitted again is registered again. */
  lemma {:induction false} AddRowsIgnoresRoster(teams: seq<Team>, teamLength: int, rows: seq<seq<Cell>>,
                                                profile: int -> Profile, updated: bool)
    ensures AddRows(teams, teamLength, rows, profile, updated).0 ==
              teams + AddRows([], teamLength, rows, profile, updated).0
    ensures AddRows(teams, teamLength, rows, profile, updated).1 == AddRows([], teamLength, rows, profile, updated).1
    decreases |rows|
  {
    if rows != [] {
      RowMembersRosterFree(rows[0], teamLength, teams, [], profile, 0);
      match RowMembers(rows[0], teamLength, teams, profile, 0)
      case Raised(e) =>
      case Returned(ms) =>
        if |ms| != teamLength {
          AddRowsIgnoresRoster(teams, teamLength, rows[1..], profile, updated);
        } else if ms != [] {
          var t := [RowTeam(ms)];
          AddRowsIgnoresRoster(teams + t, teamLength, rows[1..], profile, true);
          AddRowsIgnoresRoster(t, teamLength, rows[1..], profile, true);
          assert teams + t + AddRows([], teamLength, rows[1..], profile, true).0
              == teams + (t + AddRows([], teamLength, rows[1..], profile, true).0);
          assert [] + t == t;
        }
    }
  }

  lemma {:induction false} RowMembersRosterFree(row: seq<Cell>, teamLength: int, teams: seq<Team>,
                                                others: seq<Team>, profile: int -> Profile, k: nat)
    ensures RowMembers(row, teamLength, teams, profile, k) == RowMembers(row, teamLength, others, profile, k)
    decreases if teamLength > k then teamLength - k else 0
  {
    if k < teamLength && MemberAt(row, k, profile).Returned? {
      MemberNeverInRoster(MemberAt(row, k, profile).value, teams);
      MemberNeverInRoster(MemberAt(row, k, profile).value, others);
      RowMembersRosterFree(row, teamLength, teams, others, profile, k + 1);
    }
  }

  /** With a negative team length every row is skipped; with team length 0
      any signup raises UnboundLocalError. */
  lemma NonPositiveTeamLength(teams: seq<Team>, teamLength: int, rows: seq<seq<Cell>>, profile: int -> Profile)
    requires teamLength <= 0 && rows != []
    ensures teamLength < 0 ==> AddRows(teams, teamLength, rows, profile, false) == (teams, Returned(false))
    ensures teamLength == 0 ==> AddRows(teams, teamLength, rows, profile, false) == (teams, Raised(UnboundLocalError))
  {
    if teamLength < 0 {
      NegativeTeamLengthSkips(teams, teamLength, rows, profile);
    }
  }

  lemma {:induction false} NegativeTeamLengthSkips(teams: seq<Team>, teamLength: int, rows: seq<seq<Cell>>,
                                                   profile: int -> Profile)
    requires teamLength < 0
    ensures AddRows(teams, teamLength, rows, profile, false) == (teams, Returned(false))
    decreases |rows|
  {
    if rows != [] {
      NegativeTeamLengthSkips(teams, teamLength, rows[1..], profile);
    }
  }

  /** The update reports a change exactly when a change was already
      reported or it added a team. */
  lemma {:induction false} AddRowsOutcome(teams: seq<Team>, teamLength: int, rows: seq<seq<Cell>>,
                                          profile: int -> Profile, updated: bool)
    ensures var (r, o) := AddRows(teams, teamLength, rows, profile, updated);
      o.Returned? ==> (o.value <==> updated || |r| > |teams|)
    decreases |rows|
  {
    if rows != [] {
      match RowMembers(rows[0], teamLength, teams, profile, 0)
      case Raised(e) =>
      case Returned(ms) =>
        if |ms| != teamLength {
          AddRowsOutcome(teams, teamLength, rows[1..], profile, updated);
        } else if ms != [] {
          var t := teams + [RowTeam(ms)];
          AddRowsAppends(t, teamLength, rows[1..], profile, true);
          AddRowsOutcome(t, teamLength, rows[1..], profile, true);
        }
    }
  }

  /** A signup row read without an exception: two cells for each of the
      first `teamLength` members after the leading cell, and a country code
      that converts for each of them. */
  predicate ReadableRow(row: seq<Cell>, teamLength: int, profile: int -> Profile)
  {
    && |row| >= 2 * teamLength + 1
    && forall k :: 0 <= k < teamLength ==> CountryEmoji(profile(row[2 * k + 1].parsed).countryCode).Some?
  }

  /** The members a readable row describes: member k is built from cells
      2k + 1 and 2k + 2, for k = 0 .. teamLength - 1. */
  function RowList(row: seq<Cell>, teamLength: int, profile: int -> Profile): seq<TeamMember>
    requires teamLength >= 1 && ReadableRow(row, teamLength, profile)
  {
    seq(teamLength, q requires 0 <= q < teamLength => MemberAt(row, q, profile).value)
  }

  /** The teams readable rows register: one per row, in row order. */
  function RegisteredTeams(rows: seq<seq<Cell>>, teamLength: int, profile: int -> Profile): seq<Team>
    requires teamLength >= 1 && forall i :: 0 <= i < |rows| ==> ReadableRow(rows[i], teamLength, profile)
  {
    seq(|rows|, i requires 0 <= i < |rows| => RowTeam(RowList(rows[i], teamLength, profile)))
  }

  lemma {:induction false} ReadableRowMembers(row: seq<Cell>, teamLength: int, teams: seq<Team>,
                                              profile: int -> Profile, k: nat)
    requires ReadableRow(row, teamLength, profile) && k <= teamLength
    ensures RowMembers(row, teamLength, teams, profile, k).Returned?
    decreases teamLength - k
  {
    if k < teamLength {
      assert CountryEmoji(profile(row[2 * k + 1].parsed).countryCode).Some?;
      var m := MemberAt(row, k, profile);
      MemberNeverInRoster(m.value, teams);
      ReadableRowMembers(row, teamLength, teams, profile, k + 1);
    }
  }

  /** A readable row yields exactly the members its cells describe,
      whatever the roster. */
  lemma ReadableRowTeam(row: seq<Cell>, teamLength: int, teams: seq<Team>, profile: int -> Profile)
    requires teamLength >= 1 && ReadableRow(row, teamLength, profile)
    ensures RowMembers(row, teamLength, teams, profile, 0) == Returned(RowList(row, teamLength, profile))
  {
    ReadableRowMembers(row, teamLength, teams, profile, 0);
    RowMembersComplete(row, teamLength, teams, profile, 0);
    var ms := RowMembers(row, teamLength, teams, profile, 0).value;
    assert ms == RowList(row, teamLength, profile);
  }

  lemma RegisteredTeamsCons(rows: seq<seq<Cell>>, teamLength: int, profile: int -> Profile)
    requires rows != []
    requires teamLength >= 1 && forall i :: 0 <= i < |rows| ==> ReadableRow(rows[i], teamLength, profile)
    ensures RegisteredTeams(rows, teamLength, profile) ==
      [RowTeam(RowList(rows[0], teamLength, profile))] + RegisteredTeams(rows[1..], teamLength, profile)
  {
    var a := RegisteredTeams(rows, teamLength, profile);
    var b := RegisteredTeams(rows[1..], teamLength, profile);
    forall i | 1 <= i < |rows| ensures a[i] == b[i - 1] {
      assert rows[1..][i - 1] == rows[i];
    }
  }

  /** Signup rows that are all readable are all registered: the roster
      gains one team per row, in row order, each with the members its row
      describes, and the update reports a change exactly when there was a
      row or one was already reported. */
  lemma {:induction false} AddRowsRegistersAll(teams: seq<Team>, teamLength: int, rows: seq<seq<Cell>>,
                                               profile: int -> Profile, updated: bool)
    requires teamLength >= 1
    requires forall i :: 0 <= i < |rows| ==> ReadableRow(rows[i], teamLength, profile)
    ensures AddRows(teams, teamLength, rows, profile, updated) ==
      (teams + RegisteredTeams(rows, teamLength, profile), Returned(updated || rows != []))
    decreases |rows|
  {
    if rows != [] {
      ReadableRowTeam(rows[0], teamLength, teams, profile);
      var t := teams + [RowTeam(RowList(rows[0], teamLength, profile))];
      AddRowsRegistersAll(t, teamLength, rows[1..], profile, true);
      RegisteredTeamsCons(rows, teamLength, profile);
      assert t + RegisteredTeams(rows[1..], teamLength, profile) == teams + RegisteredTeams(rows, teamLength, profile);
    } else {
      assert teams + RegisteredTeams(rows, teamLength, profile) == teams;
    }
  }

  // ---------------------------------------------------------------------
  // Bracket updates
  // ---------------------------------------------------------------------

  /** The matches whose live record is fetched: anything but a completed
      or scheduled match, and a pending match only once it has a live id
      (`A or (B and C)` as the condition is written). */
  predicate Eligible(m: Match)
  {
    !(m.status in {Completed, Scheduled} || (m.status == Pending && m.matchId.None?))
  }

  /** Exactly the matches in progress and the pending matches with a live id
      are fetched. */
  lemma EligibleCases(m: Match)
    ensures Eligible(m) <==> m.status == InProgress || (m.status == Pending && m.matchId.Some?)
  {
  }

  /** The fetched records, in bracket order. */
  function Collect(ms: seq<Match>, fetch: Option<int> -> MatchInfo): (r: seq<MatchInfo>)
    ensures |r| <= |ms|
    ensures (exists j :: 0 <= j < |ms| && Eligible(ms[j])) <==> r != []
    decreases |ms|
  {
    if ms == [] then []
    else
      var rest := Collect(ms[1..], fetch);
      assert forall j :: 1 <= j < |ms| ==> ms[j] == ms[1..][j - 1];
      if Eligible(ms[0]) then [fetch(ms[0].matchId)] + rest else rest
  }

  // ---------------------------------------------------------------------
  // The tournament and its manager
  // ---------------------------------------------------------------------

  /** A tournament: its team size and its registered teams. */
  class Tournament {
    const teamLength: int
    var teams: seq<Team>

    constructor(teamLength: int)
      ensures this.teamLength == teamLength && teams == []
    {
      this.teamLength := teamLength;
      teams := [];
    }
  }

  class OsuTournamentManager {
    var tournament: Tournament?
    var bracketManager: SEBracketManager?

    constructor()
      ensures tournament == null && bracketManager == null
    {
      tournament := null;
      bracketManager := null;
    }

    /** Starts registration with a fresh, empty tournament, replacing any
        earlier one. */
    method CreateTournament(teamLength: int)
      modifies this
      ensures fresh(tournament) && tournament.teamLength == teamLength && tournament.teams == []
      ensures bracketManager == old(bracketManager)
    {
      tournament := new Tournament(teamLength);
    }

    /** Registers a team for every full signup row, in row order, and says
        whether any team was registered; an exception leaves the teams
        registered so far. */
    method UpdateTeams(signups: seq<seq<Cell>>, profile: int -> Profile) returns (outcome: Outcome<bool>)
      requires tournament != null
      modifies tournament
      ensures (tournament.teams, outcome) == AddRows(old(tournament.teams), tournament.teamLength, signups, profile, false)
    {
      var updated := false;
      var teamMember: Option<TeamMember> := None;
      var s := 0;
      while s < |signups|
        invariant 0 <= s <= |signups|
        invariant tournament.teamLength <= 0 ==> teamMember.None?
        invariant AddRows(old(tournament.teams), tournament.teamLength, signups, profile, false)
               == AddRows(tournament.teams, tournament.teamLength, signups[s..], profile, updated)
      {
        var signup := signups[s];
        assert signups[s..][0] == signup && signups[s..][1..] == signups[s + 1..];
        var members, raised, lastMember := BuildRow(signup, profile);
        if raised.Some? {
          return Raised(raised.value);
        }
        if lastMember.Some? {
          teamMember := lastMember;
        }
        if |members| != tournament.teamLength {
          s := s + 1;
          continue;
        }
        updated := true;
        if teamMember.None? {
          return Raised(UnboundLocalError);
        }
        var t := teamMember.value;
        tournament.teams := tournament.teams + [Team(members, Some(t.username), Some(t.avatarUrl), Some(t.countryEmoji))];
        s := s + 1;
      }
      outcome := Returned(updated);
    }

    /** The inner loop of the roster update for one row: the members its
        cells describe, the exception raised if any, and the last member
        built. */
    method BuildRow(signup: seq<Cell>, profile: int -> Profile)
        returns (members: seq<TeamMember>, raised: Option<Exception>, lastMember: Option<TeamMember>)
      requires tournament != null
      ensures raised.Some? <==> RowMembers(signup, tournament.teamLength, tournament.teams, profile, 0).Raised?
      ensures raised.Some? ==> raised.value == RowMembers(signup, tournament.teamLength, tournament.teams, profile, 0).exception
      ensures raised.None? ==> members == RowMembers(signup, tournament.teamLength, tournament.teams, profile, 0).value
      ensures raised.None? && members != [] ==> lastMember == Some(members[|members| - 1])
      ensures raised.None? && members == [] ==> lastMember.None?
    {
      members := [];
      raised := None;
      lastMember := None;
      var tl := tournament.teamLength;
      var i := 1;
      ghost var k := 0;
      PrefixedNothing(RowMembers(signup, tl, tournament.teams, profile, 0));
      while i < tl * 2
        invariant i == 2 * k + 1 && (k <= tl || k == 0)
        invariant |members| == k
        invariant members != [] ==> lastMember == Some(members[|members| - 1])
        invariant members == [] ==> lastMember.None?
        invariant RowMembers(signup, tl, tournament.teams, profile, 0)
               == Prefixed(members, RowMembers(signup, tl, tournament.teams, profile, k))
      {
        if i + 1 >= |signup| {
          RowMembersRaise(signup, tl, tournament.teams, profile, k, members);
          return [], Some(IndexError), None;
        }
        var osuId := signup[i].parsed;
        var discordId := signup[i + 1].text;
        var userData := profile(osuId);
        var countryEmoji := CountryEmoji(userData.countryCode);
        if countryEmoji.None? {
          assert MemberAt(signup, k, profile) == Raised(ValueError);
          RowMembersRaise(signup, tl, tournament.teams, profile, k, members);
          return [], Some(ValueError), None;
        }
        var m := TeamMember(userData.username, osuId, discordId, userData.avatarUrl, countryEmoji.value);
        lastMember := Some(m);
        MemberNeverInRoster(m, tournament.teams);
        if MemberInRoster(m, tournament.teams) {
          break;
        }
        assert MemberAt(signup, k, profile) == Returned(m);
        RowMembersStep(signup, tl, tournament.teams, profile, k, members, m);
        members := members + [m];
        i := i + 2;
        k := k + 1;
      }
      PrefixedNothing(Returned(members));
    }

    /** Hands the bracket manager over and builds the bracket from the
        registered teams. */
    method GenerateBracket(bm: SEBracketManager) returns (err: Option<Exception>)
      requires tournament != null
      modifies this, bm
      ensures bracketManager == bm && tournament == old(tournament)
      ensures bm.hasBracket && bm.Valid()
      ensures BuildBracket(tournament.teams).Err? ==> err == Some(BuildBracket(tournament.teams).error) && bm.matches == []
      ensures BuildBracket(tournament.teams).Ok? ==> err == None && bm.matches == BuildBracket(tournament.teams).value
    {
      bracketManager := bm;
      err := bm.GenerateBracket(tournament.teams);
    }

    /** Fetches the live record of every eligible match and applies them;
        says whether there was anything to apply. A type error in the match
        engine raises. */
    method UpdateBracket(fetch: Option<int> -> MatchInfo) returns (outcome: Outcome<bool>)
      requires bracketManager != null && bracketManager.hasBracket && bracketManager.Valid()
      modifies bracketManager
      ensures bracketManager.hasBracket && bracketManager.Valid()
      ensures var infos := Collect(old(bracketManager.matches), fetch);
        && (infos == [] ==> outcome == Returned(false) && bracketManager.matches == old(bracketManager.matches))
        && (infos != [] ==>
              var r := ApplyInfos(old(bracketManager.matches), infos);
              bracketManager.matches == r.0 && outcome == if r.1 then Returned(true) else Raised(TypeError))
    {
      var matches := bracketManager.GetMatches();
      var matchesInfo := CollectLoop(matches, fetch);
      if matchesInfo != [] {
        var ok := bracketManager.UpdateMatches(matchesInfo);
        if !ok {
          return Raised(TypeError);
        }
        return Returned(true);
      }
      return Returned(false);
    }

    /** Enters a result by hand. */
    method EnterMatchResults(matchNumber: int, winnerNumber: int, score: string)
      requires bracketManager != null && bracketManager.hasBracket && bracketManager.Valid()
      modifies bracketManager
      ensures bracketManager.hasBracket && bracketManager.Valid()
      ensures bracketManager.matches == EnterResult(old(bracketManager.matches), matchNumber, winnerNumber, score)
    {
      bracketManager.EnterMatchResults(matchNumber, winnerNumber, score);
    }
  }

  /** `out` placed in front of a returned list. */
  function Prefixed(out: seq<TeamMember>, r: Outcome<seq<TeamMember>>): Outcome<seq<TeamMember>>
  {
    match r
    case Returned(v) => Returned(out + v)
    case Raised(e) => Raised(e)
  }

  /** One member taken from the row moves from the rest of the row to the
      members collected so far. */
  lemma RowMembersStep(row: seq<Cell>, teamLength: int, teams: seq<Team>, profile: int -> Profile,
                       k: nat, out: seq<TeamMember>, m: TeamMember)
    requires k < teamLength && MemberAt(row, k, profile) == Returned(m) && !MemberInRoster(m, teams)
    ensures Prefixed(out, RowMembers(row, teamLength, teams, profile, k))
         == Prefixed(out + [m], RowMembers(row, teamLength, teams, profile, k + 1))
  {
    match RowMembers(row, teamLength, teams, profile, k + 1)
    case Raised(e) =>
    case Returned(v) => assert out + ([m] + v) == out + [m] + v;
  }

  /** A member that cannot be read raises its exception, whatever was
      collected before it. */
  lemma RowMembersRaise(row: seq<Cell>, teamLength: int, teams: seq<Team>, profile: int -> Profile,
                        k: nat, out: seq<TeamMember>)
    requires k < teamLength && MemberAt(row, k, profile).Raised?
    ensures Prefixed(out, RowMembers(row, teamLength, teams, profile, k)) == Raised(MemberAt(row, k, profile).exception)
  {
  }

  /** Nothing placed in front of a result leaves it as it is. */
  lemma PrefixedNothing(r: Outcome<seq<TeamMember>>)
    ensures Prefixed([], r) == r
    ensures r.Returned? ==> Prefixed(r.value, Returned([])) == r
  {
    match r
    case Raised(e) =>
    case Returned(v) => assert [] + v == v && v + [] == v;
  }

  /** The fetch loop of the bracket update: one record per eligible match,
      in bracket order. */
  method CollectLoop(matches: seq<Match>, fetch: Option<int> -> MatchInfo) returns (infos: seq<MatchInfo>)
    ensures infos == Collect(matches, fetch)
  {
    infos := [];
    var j := 0;
    while j < |matches|
      invariant 0 <= j <= |matches|
      invariant Collect(matches, fetch) == infos + Collect(matches[j..], fetch)
    {
      assert matches[j..][0] == matches[j] && matches[j..][1..] == matches[j + 1..];
      var m := matches[j];
      if Eligible(m) {
        infos := infos + [fetch(m.matchId)];
      }
      j := j + 1;
    }
    assert matches[j..] == [];
  }
}
