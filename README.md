# Single-elimination tournament engine, modelled in Dafny

This project models the state engine of a Discord bot that runs osu!
tournaments. The engine lives in `tournament.py`. It covers:

- registering teams from signup rows;
- seeding a single-elimination bracket;
- folding live match telemetry into match state;
- entering results by hand;
- binding live match ids to bracket matches.

There is one module per part of the engine:

| module | file | what it holds |
|---|---|---|
| `Entities` | `entities.dfy` | members, teams, games, matches; the `in` test on a team and the roster's equality test |
| `MatchEngine` | `match_engine.dfy` | `update_match`: recording games, tallying the `"a:b"` score, deciding the winner |
| `Seeding` | `seeding.dfy` | the naive seed pairs and `_balance_pairs`, with Python dictionaries as ordered association lists |
| `BracketEngine` | `bracket.dfy` | `SEBracketManager`: building the bracket, telemetry updates, manual results |
| `TournamentEngine` | `tournament_manager.dfy` | `OsuTournamentManager`: roster update, country flags, bracket update |
| `Service` | `service.dfy` | `TournamentService`: `connect_match_id` and the guard of `enter_match_results` |

## How the model is built

The bracket's matches are a `seq<Match>` field of `SEBracketManager`. A
match's `next_match` object reference becomes the index of its successor
in that list. Updates through `match.next_match` become sequential updates
of the list, so the odd-team-count case is reproduced exactly: there the
last match built is its own successor.

Each imperative operation is a method with loops, proved equal to a
specification function:

- `UpdateMatch` is proved against `UpdatedMatch`.
- `BalancePairs` is proved against `Balance`.
- `GenerateBracket` is proved against `BuildBracket`.
- `UpdateMatches` is proved against `ApplyInfos`.
- `EnterMatchResults` is proved against `EnterResult`.
- `UpdateTeams` is proved against `AddRows`.
- `ConnectMatchId` is proved against `Connected`.

The lemmas then state what those functions guarantee.

Python exceptions become error outcomes, and the state is left as it
stands at the raise:

- a type error from `x in None` on an empty team slot;
- `IndexError` from a pop of an empty list or a short signup row;
- `ValueError` from `chr`;
- `UnboundLocalError` when the team length is 0;
- the recursion error of `_balance_pairs` on an empty pair list.

Two external calls become function parameters:

- the profile lookup, `get_user_info`, becomes `profile: int -> Profile`;
- the telemetry fetch, `get_match_info`, becomes `fetch: Option<int> -> MatchInfo`.

### Where the code and its description differ

The model follows the code:

- **Tied games.** A tied game counts as a win for team 2, because the
  comparison is a strict `>` (`MatchEngine.TiedGameCountsForTeam2`). It
  does not count for neither team.
- **Winner.** The winner is decided again on every update, with team 1
  checked first. It is not frozen once set.
- **The best-of cap.** The cap is an `==` test right after an append. It
  stops only a call that starts below the cap
  (`MatchEngine.CapOnlyStopsFromBelow`). Feeding the same batch twice
  changes nothing unless the first pass stopped at the cap
  (`MatchEngine.UpdateIdempotent`).
- **Existing bracket or tournament.** `generate_bracket` and
  `create_tournament` replace any existing bracket or tournament. They
  raise nothing for that reason.
- **Which team counts seed.** Seeding succeeds exactly when N // 2 is a
  power of two of at least 2, not for every even N. With 2 or 3 teams a
  pop hits an empty list. With 0 or 1 team it recurses without end. An odd
  count such as 9 passes, and the last match of its bracket then links to
  itself (`BracketEngine.OddBracketSelfLoop`). With an odd count N only
  N // 2 pairs are built, so seed (N + 1) / 2 plays no first-round match
  and is silently left out; with 9 teams that is seed 5
  (`BracketEngine.OddMiddleSeedLeftOut`).
- **Duplicate signups.** The roster's duplicate test compares a member
  with teams, which is never true. A signup submitted twice is therefore
  registered twice (`TournamentEngine.AddRowsIgnoresRoster`).
- **Team display fields.** A team's name, avatar and flag come from its
  last member, not its first.
- **Binding live ids.** `connect_match_id` binds the id to every unbound
  match the player plays in, not to one match, and does not look at the
  status. A manual entry never touches live ids
  (`BracketEngine.EnterResultKeepsLiveIds`). So a match that was completed
  by hand without ever having been bound has no live id; a later report by
  one of its players binds it and puts it back to "In Progress"
  (`Service.ManualResultThenConnect`). A match bound before its manual
  entry keeps its id and is never rebound.
- **The result guard.** It accepts match number 0, which names no match,
  and changes nothing (`Service.ZeroMatchNumberIgnored`).

## Model

| member | source | states |
|---|---|---|
| Entities.MembersContain | tournament.py:28-32 | the scan over the members is true exactly when some member carries the queried id as user id or Discord id |
| Entities.Contains | tournament.py:28-32 | `x in team` holds exactly when some member of the team has `x` as user id or Discord id; an integer never matches a Discord id string |
| Entities.MemberNeverInRoster | tournament.py:9-26 | a member never equals a team under the dataclass equalities, so the roster test `member in teams` is false for every roster |
| Entities.CreateMatch | tournament.py:51-58 | a new match has no winner, score "0:0", no live id, no successor, no games and a best-of of 3 |
| MatchEngine.SideOfMembership | tournament.py:105-109 | a player in team 1 scores for team 1 even if also in team 2; a player in neither team scores for nobody; with both teams present there is no type error |
| MatchEngine.TotalsDefined | tournament.py:105-109 | summing a game's scores fails with a type error exactly when some player meets an empty team slot |
| MatchEngine.SumScores | tournament.py:101-109 | the per-team score sums of one game, or the type error, as the specification function gives them; the error happens iff some player's side is undefined |
| MatchEngine.RecordExtends | tournament.py:97-119 | recording only appends: the games already recorded stay, in order |
| MatchEngine.RecordNoDuplicates | tournament.py:111-116 | recording never creates two games with one id, and every new game carries the id of a scorable event of the batch |
| MatchEngine.RecordCap | tournament.py:116-119 | when the call starts below the best-of count, it ends with at most that many games |
| MatchEngine.RecordIgnoresUnscorable | tournament.py:97-99 | a batch whose events have no game record, or an empty score list, records nothing |
| MatchEngine.RecordCovers | tournament.py:97-116 | after a full pass every scorable event's game is recorded |
| MatchEngine.RecordCrashPoint | tournament.py:97-116 | a pass that raised did so at a scorable event whose predecessors are all recorded |
| MatchEngine.RecordCoveredIsNoop | tournament.py:97-116 | a batch whose games are all recorded records nothing more |
| MatchEngine.RecordAgainAfterCrash | tournament.py:97-116 | a batch that raised raises again, at the same place, without recording anything |
| MatchEngine.RecordGames | tournament.py:97-119 | the recording loop produces the games of the specification function and reports the type error exactly when it raises |
| MatchEngine.TallyTotal | tournament.py:121-128 | team 1's game wins plus team 2's game wins equal the number of games |
| MatchEngine.TiedGameCountsForTeam2 | tournament.py:124-128 | a tied game counts as a win for team 2 |
| MatchEngine.TallyGames | tournament.py:121-128 | the tally loop counts a game for team 1 exactly when team 1 scored more; the two counts add up to the number of games |
| MatchEngine.NatToString | tournament.py:130 | decimal digits of a count: nonempty, all digits, one digit exactly below 10, no leading zero |
| MatchEngine.NatToStringRoundTrip | tournament.py:130 | reading the decimal digits back gives the count |
| MatchEngine.ScoreLength | tournament.py:130 | a score of two one-digit tallies is three characters long |
| MatchEngine.ScoreRoundTrip | tournament.py:130-132 | the two sides of the `"a:b"` score read back as the two tallies |
| MatchEngine.UpdateMatch | tournament.py:94-137 | the new match: games only appended and never duplicated, cap kept when entered below it, score is the formatted tally, winner team 1 at the majority `games_amount // 2 + 1`, else team 2 at it, else unchanged; after a type error only the games recorded so far change |
| MatchEngine.UpdatedMatchFacts | tournament.py:94-137 | an update only appends games, keeps ids unique, keeps the cap when entered below it, and tallies every game once |
| MatchEngine.UpdateIdempotent | tournament.py:97-137 | feeding the same batch again changes nothing, unless the first pass stopped at the best-of cap |
| MatchEngine.CapOnlyStopsFromBelow | tournament.py:116-119 | a match that already holds `games_amount` games records one more |
| Seeding.MergeRound | tournament.py:286-289 | one merging pass succeeds iff the list has even length; it then halves the list; otherwise the pop of the last entry raises IndexError |
| Seeding.BalanceSucceedsIff | tournament.py:267-293 | balancing ends in one dictionary exactly when the number of pair maps is a power of two of at least 2 |
| Seeding.MergeRoundPreserves | tournament.py:286-289 | a pass keeps the same entries, and distinct keys stay distinct, so the dictionary union loses nothing |
| Seeding.BalancePreserves | tournament.py:267-293 | the final dictionary holds exactly the entries of the input pairs, with distinct keys |
| Seeding.FlattenInitialPairs | tournament.py:193-199 | the initial pair maps hold, in order, the pairs {i: N-i+1} |
| Seeding.NaivePairsDistinct | tournament.py:193-199 | the keys of the initial pairs are distinct |
| Seeding.NaivePairsReordered | tournament.py:193-199 | any reordering of the initial pairs has N/2 entries, each key i in 1..N/2 paired with N+1-i, and every such pair present |
| Seeding.SeedingCorrect | tournament.py:193-201 | for N = 2^k teams, k >= 2, seeding gives one dictionary that is a reordering of {i: N-i+1}, i = 1..N/2, so every seed 1..N occurs exactly once |
| Seeding.SeedingDomain | tournament.py:193-201 | seeding succeeds exactly when N // 2 is a power of two of at least 2; 0 or 1 team recurse without end; 2 or 3 teams raise IndexError |
| Seeding.BalanceLeaders | tournament.py:286-293 | over equal-sized dictionaries with distinct keys, where seed 1 leads the first and seed 2 the second, balancing succeeds and puts seed 1 first and seed 2 at the start of the second half |
| Seeding.TopSeedsApart | tournament.py:267-293 | for N = 2^k teams, k >= 2, the balanced order starts with 1 against N and has 2 against N-1 at position N/4, the first pairing of the second half, so seeds 1 and 2 can meet only in the final |
| Seeding.SixteenTeams | tournament.py:272-283 | for 16 teams the balanced order is 1-16, 8-9, 4-13, 5-12, 2-15, 7-10, 3-14, 6-11 |
| Seeding.BalancePairs | tournament.py:267-293 | the destructive pop loop and its recursion compute the balancing function, errors included |
| BracketEngine.SeededFacts | tournament.py:193-201 | the seeding used by the bracket has N/2 pairs in range, a reordering of the mirror pairs |
| BracketEngine.BuildBracketDomain | tournament.py:177-224 | building succeeds exactly when N // 2 is a power of two of at least 2, raises the seeding's errors otherwise, and a built bracket is well linked and without duplicate games |
| BracketEngine.BracketLayout | tournament.py:204-224 | numbering 1.. in list order; the first N/2 matches pending with both teams at stage N/2, the rest scheduled without teams; no successor exactly past the linked prefix |
| BracketEngine.BracketPairsShareSuccessor | tournament.py:215-222 | the matches at indices 2t and 2t+1 lead to the later match N/2 + t |
| BracketEngine.EvenBracketForward | tournament.py:215-222 | with an even number of teams every successor lies further down the list |
| BracketEngine.BracketShape | tournament.py:177-224 | for N = 2^k teams: N-1 matches numbered 1..N-1, the first round pending with both teams at stage N/2, later rounds scheduled without teams, 2j and 2j+1 feeding N/2+j, only the last match without successor |
| BracketEngine.EvenBracketShape | tournament.py:204-224 | any even team count with an in-range seeding yields the single-elimination shape |
| BracketEngine.BracketSeedsEveryTeam | tournament.py:193-213 | for N = 2^k teams the first round pairs seed i with seed N+1-i for every i |
| BracketEngine.MirroredSeeds | tournament.py:204-213 | a first round built from all mirror pairs opposes every seed i and its mirror N+1-i |
| BracketEngine.OddBracketSelfLoop | tournament.py:215-222 | with an odd number of teams the last match built is its own successor |
| BracketEngine.OddMiddleSeedLeftOut | tournament.py:193-199 | with an odd number N of teams, seed (N+1)/2 is in no first-round pair |
| BracketEngine.NaivePairsLoop | tournament.py:193-199 | the pair-building loop yields the pairs {i: N-i+1}, i = 1..N/2, in order |
| BracketEngine.FirstRound | tournament.py:203-212 | the first-round loop creates one pending match per seeded pair, numbered in seeding order |
| BracketEngine.LaterRounds | tournament.py:214-224 | the later-round loop appends the scheduled matches and wires each pair of matches to them, giving the specified bracket |
| BracketEngine.FirstWithNumber | tournament.py:249-250 | the search for a match number finds the first match with that number, or none exists |
| BracketEngine.FirstWithId | tournament.py:230-232 | the search for a live id finds the first match bound to it, or none exists |
| BracketEngine.SettleAt | tournament.py:250-265 | settling a match keeps the bracket's links and numbers |
| BracketEngine.EnterResult | tournament.py:246-265 | a manual entry keeps the bracket's links and numbers |
| BracketEngine.EnterResultEffect | tournament.py:246-265 | an unknown number changes nothing; otherwise the first match numbered n gets team 1 as winner if w is 1 and team 2 otherwise, is completed with score s, its successor gets the winner in the slot its parity selects and becomes pending, and nothing else changes |
| BracketEngine.EnterResultKeepsLiveIds | tournament.py:246-265 | a manual entry leaves every match's live id as it was |
| BracketEngine.EnterResultValid | tournament.py:246-265 | a manual entry keeps the bracket valid |
| BracketEngine.RecordAt | tournament.py:233-243 | recording telemetry at a match keeps the bracket's links and numbers |
| BracketEngine.ApplyInfo | tournament.py:229-244 | one telemetry record keeps the bracket's links and numbers |
| BracketEngine.ApplyInfoEffect | tournament.py:229-244 | a record with an unknown id changes nothing; otherwise the first match with that id is updated, completed only if it has a winner, its successor gets that winner, even an absent one, in the parity slot and becomes pending, and nothing else changes |
| BracketEngine.RecordAtEffect | tournament.py:233-243 | a record applied at one index updates that match through the match engine, completes it only if it has a winner, moves that winner into its successor's parity slot and makes the successor pending, and changes nothing else |
| BracketEngine.ApplyInfoValid | tournament.py:229-244 | one telemetry record keeps the bracket valid: links in range and no duplicate game ids |
| BracketEngine.ApplyInfos | tournament.py:226-244 | a batch of records keeps the bracket's links and numbers |
| BracketEngine.ApplyInfosValid | tournament.py:226-244 | a batch of records keeps the bracket valid |
| BracketEngine.UnknownIdsChangeNothing | tournament.py:229-232 | records whose ids no match carries change nothing |
| BracketEngine.SEBracketManager.constructor | tournament.py:151-153 | a new manager has no bracket |
| BracketEngine.SEBracketManager.GetMatches | tournament.py:167-169 | the getter returns the bracket's matches |
| BracketEngine.SEBracketManager.GenerateBracket | tournament.py:177-224 | the bracket is replaced by the specified bracket of the teams, or left empty with the seeding's error |
| BracketEngine.SEBracketManager.UpdateMatches | tournament.py:226-244 | the matches become those of applying the records in order, stopping at a type error; the bracket stays valid |
| BracketEngine.SEBracketManager.RecordMatch | tournament.py:233-243 | the match at the index and its successor change as recording the record there specifies |
| BracketEngine.SEBracketManager.EnterMatchResults | tournament.py:246-265 | the matches become those of the manual entry; the bracket stays valid |
| BracketEngine.SEBracketManager.FindById | tournament.py:230-232 | the telemetry scan stops at the first match carrying the record's live id, and finds none when no match carries it |
| BracketEngine.SEBracketManager.FindByNumber | tournament.py:249-250 | the manual-entry scan stops at the first match with the given number, and finds none when no match has it |
| BracketEngine.SEBracketManager.SettleMatch | tournament.py:251-265 | the found match gets the chosen winner, its successor gets that winner in the parity slot and becomes pending, and the match is completed with the score |
| TournamentEngine.CountryEmoji | tournament.py:436-437 | every character is shifted by 127397 code points, keeping the length; the conversion raises exactly when a shifted code point passes U+10FFFF |
| TournamentEngine.CountryEmojiRoundTrip | tournament.py:436-437 | shifting back recovers the country code |
| TournamentEngine.LettersBecomeRegionalIndicators | tournament.py:436-437 | upper-case letters become regional indicator symbols U+1F1E6..U+1F1FF |
| TournamentEngine.HighCharacterRaises | tournament.py:436-437 | U+F0E5B cannot be converted, U+F0E5A can |
| TournamentEngine.MemberAt | tournament.py:362-376 | a member is built from cells 2k+1 and 2k+2 and the profile of that id; IndexError is raised exactly when the row is too short, ValueError exactly when the row is long enough and the country code cannot be converted, and a member is returned otherwise |
| TournamentEngine.RowMembersComplete | tournament.py:360-384 | a row that does not raise yields one member per cell pair, in order, exactly team-length many |
| TournamentEngine.AddRowsAppends | tournament.py:358-402 | the roster only grows at its end, and every team added has team-length members and the name, avatar and flag of its last member |
| TournamentEngine.AddRowsIgnoresRoster | tournament.py:380-381 | the existing roster never changes what is added, so a signup submitted again is registered again |
| TournamentEngine.RowMembersRosterFree | tournament.py:380-381 | the members built from a row do not depend on the roster |
| TournamentEngine.AddRowsOutcome | tournament.py:358-402 | when the update returns, it reports a change exactly when a team was added (or a change was already reported) |
| TournamentEngine.ReadableRowTeam | tournament.py:360-384 | a row long enough for every member, with convertible country codes, yields exactly the members its cell pairs describe, whatever the roster |
| TournamentEngine.AddRowsRegistersAll | tournament.py:358-402 | for team length at least 1, rows that are all readable add one team per row, in row order, each made of the members its cells describe with the last member's name, avatar and flag, and the update reports a change exactly when there was a row |
| TournamentEngine.NonPositiveTeamLength | tournament.py:360-399 | with a negative team length every row is skipped; with team length 0 any signup raises UnboundLocalError |
| TournamentEngine.EligibleCases | tournament.py:414-416 | a match is fetched exactly when it is in progress, or pending with a live id |
| TournamentEngine.Collect | tournament.py:411-422 | there is a record to apply exactly when some match is eligible |
| TournamentEngine.CollectLoop | tournament.py:411-422 | the fetch loop collects one record per eligible match, in bracket order |
| TournamentEngine.Tournament.constructor | tournament.py:295-301 | a new tournament has the given team length and no teams |
| TournamentEngine.OsuTournamentManager.constructor | tournament.py:309-312 | a new manager has no tournament and no bracket manager |
| TournamentEngine.OsuTournamentManager.CreateTournament | tournament.py:345-353 | a fresh empty tournament replaces any earlier one |
| TournamentEngine.OsuTournamentManager.UpdateTeams | tournament.py:355-402 | the roster and the result are those of adding the rows in order; an exception leaves the teams added so far |
| TournamentEngine.OsuTournamentManager.BuildRow | tournament.py:360-384 | the inner loop yields a row's members or its exception, and the last member built |
| TournamentEngine.OsuTournamentManager.GenerateBracket | tournament.py:404-407 | the given bracket manager is kept and builds the bracket of the registered teams |
| TournamentEngine.OsuTournamentManager.UpdateBracket | tournament.py:409-426 | with no eligible match nothing changes and the result is false; otherwise the fetched records are applied and the result is true, or the type error is raised |
| TournamentEngine.OsuTournamentManager.EnterMatchResults | tournament.py:428-430 | a manual result is passed on unchanged |
| Service.Connected | tournament.py:478-491 | binding keeps the number of matches |
| Service.ConnectedEffect | tournament.py:478-491 | matches with a live id or a missing team are unchanged, and so is every match the id does not bind to; every match with both teams and the player gets a live id; a match that binds gets this id and is in progress, and nothing else in it changes |
| Service.ManualResultThenConnect | tournament.py:478-491 | after a manual entry the match is completed; if it was bound before, a report leaves it as it is; if it never had a live id and includes the player, the report binds it and puts it back in progress |
| Service.ConnectedKeepsBracket | tournament.py:478-491 | binding keeps links, numbers, teams and games, and the bracket valid |
| Service.ConnectedOnce | tournament.py:478-491 | a second report by the same player changes nothing, whatever id it carries |
| Service.BoundMatchesStay | tournament.py:484-485 | a match that has a live id is never rebound |
| Service.CheckArgs | tournament.py:495-502 | the guard passes exactly when 0 <= n <= number of matches, the winner is 1 or 2 and the score has three characters; the match number is checked first, then the winner, then the score |
| Service.ZeroMatchNumberIgnored | tournament.py:495-504 | match number 0 passes the guard and changes nothing in a bracket numbered from 1 |
| Service.GuardOnGeneratedBracket | tournament.py:495-496 | on a generated bracket the guard accepts exactly 0 and the match numbers in use |
| Service.TournamentService.constructor | tournament.py:446-452 | the service keeps its tournament manager |
| Service.TournamentService.ConnectMatchId | tournament.py:478-491 | the matches become the bound matches and the bracket stays valid |
| Service.TournamentService.EnterMatchResults | tournament.py:493-504 | a failed check is reported and nothing changes; otherwise the manual entry is applied |

## Left out

- sheets_manager.py, game_api_client.py and main.py are not part of this model. They hold spreadsheet I/O, HTTP calls and the Discord command layer. The profile lookup and the telemetry fetch become function parameters.
- `_convert_matches_for_updating` and `_convert_teams_for_updating` (tournament.py:506-543): they only format rows for the spreadsheet.
- `TournamentService.create_tournament`, `update_teams`, `generate_bracket` and `update_bracket` (tournament.py:454-476): they delegate to the manager operations modelled here and otherwise do spreadsheet I/O.
- `TournamentManager.get_teams` (tournament.py:314-316): a plain getter of the roster.
- The `int(signup[i])` parsing: a signup cell carries the integer it parses to, so the ValueError of a malformed id is not modelled.
- The abstract base classes `MatchManager`, `BracketManager` and `TournamentManager`: only the concrete osu! single-elimination classes are modelled.
- `Bracket.loosers`: it is never written or read.
- Match objects become values in one list. Object identity is not modelled, for example that a winner is the same object as its team. Neither is any outside reference to a match list; `connect_match_id` writes the manager's list directly.
- Seeding.Balance: Python's recursion error on an empty pair list is modelled as an immediate error, not after the interpreter's frame limit.
- TournamentEngine.OsuTournamentManager.UpdateTeams: requires a tournament; the AttributeError of a call before `create_tournament` is not modelled.
- TournamentEngine.OsuTournamentManager.GenerateBracket: requires a tournament, for the same reason.
- TournamentEngine.OsuTournamentManager.UpdateBracket: requires a generated bracket; the AttributeError of a call before `generate_bracket` is not modelled.
- TournamentEngine.OsuTournamentManager.EnterMatchResults: requires a generated bracket, as above.
- Service.TournamentService.ConnectMatchId: requires a generated bracket, as above.
- Service.TournamentService.EnterMatchResults: requires a generated bracket, as above.
- BracketEngine.SEBracketManager.GetMatches: requires a generated bracket, as above.
