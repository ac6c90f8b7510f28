# RS-run points ledger

This project models the points ledger of the `rs_event_bot` Discord bot.
Players log Red Star (RS) runs. Each run has a level from 2 to 12, a type (RS or DRS), a number
of points and one to four players.

- **Logging a run** (`/log-rs-run`) splits the run's points among its players, rounded to one decimal.
- **Removing a run** (`/remove-rs-run`) takes the unrounded points-per-player back.
- **Clearing the history** (`/remove-rs-run-history`) empties all three tables.
- **The leaderboard** (`/show-leaderboard`) ranks every player by balance. The text is cut into
  message-sized parts.

The ledger is the `RunLedger.Ledger` class. Its three fields stand for the three tables:

- `players`: user id to balance, the `discorduser` table;
- `runs`: run id to level, DRS flag and points, the `rsrun` table;
- `assoc`: (user id, run id) pairs, the `discorduser_rsrun` table.

Each SQL statement becomes an update of one of these fields. The per-player loops of the source stay
loops, in `RegisterPlayers`, `CreditPlayers`, `LinkPlayers` and `DebitPlayers`. The ledger's
invariant `Consistent` holds between commands:

- every association links a stored player to a stored run;
- every stored run has id at least 1, level 2 to 12, positive points and one to four players.

Modules:

- `Shares` (`shares.dfy`) covers the per-player share and the removal amount. The share is kept as
  an integer number of tenths and is proved equal to round-half-away-from-zero of the exact
  quotient. It also covers the drift between what logging credits and what removal debits.
- `Tables` (`tables.dfy`) holds the relations and the functions that say how each command changes
  them: `Registered`, `Adjusted`, `Links` and `Unlinked`. It also holds the total of all balances.
- `Ranking` (`ranking.dfy`) covers the statistics rows in points order, the fallback mention
  `<@id>` and the 25-character name column.
- `Pagination` (`pagination.dfy`) covers the split of the leaderboard text into parts of at most
  4000 characters.
- `RunLedger` (`ledger.dfy`) holds the class, run id allocation, the duplicate check and the
  invariant.

Consequences of the code that the model keeps:

- **Run ids can be reused.** The next run id is the highest stored id plus one
  (`IsNextRunId`).
  - While the highest run is still stored, the next id is above every stored id and above any id
    freed below it (`FreedIdBelowTopIsNotReused`).
  - Removing the run with the highest id makes that id the next one again when the id just below
    it is stored, or when it was run 1 and no other run is left (`RemovedTopIdIsReused`). For
    example, log runs 1 and 2, remove run 2, and the next run gets id 2 again.
  - Once the highest runs are removed, a freed id below them can come back too: with runs 1, 2
    and 3, removing 2 and then 3 makes 2 the next id.
- **Balances can go negative.** Removal debits the exact quotient, but logging credited a rounded
  share. Logging 10 points for three players and then removing the run changes each of their
  balances by -1/30 (`DocumentedDrift`, `LogThenRemoveLeavesDrift`). A player who started at 0 is
  left at -1/30. Nothing floors a balance at zero.

## Model

| member | source | states |
|---|---|---|
| Shares.RoundTenthsAwayFromZero | rs_event_bot/rs_event_bot/SlashCommands/SlashCommandhandlers.cs:121 | the number of tenths nearest to x; a half goes away from zero (reference for Math.Round(x, 1, AwayFromZero)) |
| Shares.ShareTenths | rs_event_bot/rs_event_bot/SlashCommands/SlashCommandhandlers.cs:121 | the integer share t satisfies 2nt - n <= 20p < 2nt + n, i.e. t/10 is within half a tenth of p/n |
| Shares.RemovalAmount | rs_event_bot/rs_event_bot/SlashCommands/SlashCommandhandlers.cs:354 | the amount debited per player, times the number of players, is exactly the run's points |
| Shares.ShareIsRoundedQuotient | rs_event_bot/rs_event_bot/SlashCommands/SlashCommandhandlers.cs:121 | the integer share formula equals round-half-away-from-zero of points / players to one decimal |
| Shares.ShareWithinHalfTenth | rs_event_bot/rs_event_bot/SlashCommands/SlashCommandhandlers.cs:121 | n times the credited share differs from the points by at most 0.05 n |
| Shares.CreditedWithinHalfTenth | rs_event_bot/rs_event_bot/SlashCommands/SlashCommandhandlers.cs:120-135 | the shares credited to all n players add up to the points, give or take 0.05 n |
| Shares.DebitedAddsUpToPoints | rs_event_bot/rs_event_bot/SlashCommands/SlashCommandhandlers.cs:353-368 | the amounts debited from all players of a removed run add up to exactly its points |
| Shares.ShareExactIff | rs_event_bot/rs_event_bot/SlashCommands/SlashCommandhandlers.cs:121 | the rounded shares add up exactly to the points if and only if n divides 10 * points |
| Shares.DriftZeroIff | rs_event_bot/rs_event_bot/SlashCommands/SlashCommandhandlers.cs:353-368 | logging then removing a run restores a player's balance if and only if n divides 10 * points |
| Shares.DocumentedDrift | rs_event_bot/rs_event_bot/SlashCommands/SlashCommandhandlers.cs:354 | 10 points for 3 players: 3.3 credited, 10/3 debited, net -1/30 per player |
| Shares.MidpointsRoundAway | rs_event_bot/rs_event_bot/SlashCommands/SlashCommandhandlers.cs:121 | exact midpoints round away from zero: 0.25 is credited as 0.3, 1.25 as 1.3 |
| Tables.Participants | rs_event_bot/rs_event_bot/SlashCommands/SlashCommandhandlers.cs:337-351 | a player is listed for a run if and only if an association links them |
| Tables.RunsOf | rs_event_bot/rs_event_bot/SlashCommands/SlashCommandhandlers.cs:236-239 | a run is counted for a player if and only if an association links them |
| Tables.Links | rs_event_bot/rs_event_bot/SlashCommands/SlashCommandhandlers.cs:160-176 | the new associations are exactly one (player, run id) pair per player of the run |
| Tables.Unlinked | rs_event_bot/rs_event_bot/SlashCommands/SlashCommandhandlers.cs:370-376 | exactly the associations of other runs remain |
| Tables.Registered | rs_event_bot/rs_event_bot/SlashCommands/SlashCommandhandlers.cs:92-118 | every listed player is now stored; stored balances are kept; new players start at 0 |
| Tables.Adjusted | rs_event_bot/rs_event_bot/SlashCommands/SlashCommandhandlers.cs:122-135 | the same players are stored; the given players change by delta, every other balance is unchanged |
| Tables.AssociationsOf | rs_event_bot/rs_event_bot/SlashCommands/SlashCommandhandlers.cs:236-239 | a row is counted for a player if and only if it is an association of that player |
| Tables.RowCountIsRunCount | rs_event_bot/rs_event_bot/SlashCommands/SlashCommandhandlers.cs:236-239 | the number of a player's association rows equals the number of runs they are associated with |
| Tables.DistinctCardinality | rs_event_bot/rs_event_bot/SlashCommands/SlashCommandhandlers.cs:53-62 | a player list without repeats has as many distinct players as entries |
| Tables.SumOfAdjusted | rs_event_bot/rs_event_bot/SlashCommands/SlashCommandhandlers.cs:122-135 | adjusting some balances moves a sum by delta for each adjusted player in it |
| Tables.RegisteredKeepsTotal | rs_event_bot/rs_event_bot/SlashCommands/SlashCommandhandlers.cs:92-118 | registering new players at 0 leaves the total of all balances unchanged |
| Tables.AdjustedTotal | rs_event_bot/rs_event_bot/SlashCommands/SlashCommandhandlers.cs:122-135 | adjusting k stored balances by delta moves the total by exactly k times delta |
| Pagination.ChunksConcat | rs_event_bot/rs_event_bot/SlashCommands/SlashCommandhandlers.cs:278-283 | the parts glued together give back the leaderboard text |
| Pagination.ChunkSizes | rs_event_bot/rs_event_bot/SlashCommands/SlashCommandhandlers.cs:278-283 | each part is non-empty and at most the limit; all but the last are exactly the limit |
| Pagination.ChunkCount | rs_event_bot/rs_event_bot/SlashCommands/SlashCommandhandlers.cs:278-283 | there are ceil(length / limit) parts |
| Pagination.OneOverLimitGivesTwoParts | rs_event_bot/rs_event_bot/SlashCommands/SlashCommandhandlers.cs:278-283 | a 4001-character text gives exactly two parts, split at character 4000 |
| Pagination.Paginate | rs_event_bot/rs_event_bot/SlashCommands/SlashCommandhandlers.cs:278-283 | the loop taking slices at 0, 4000, 8000, ... produces exactly the parts above |
| Ranking.InsertionPoint | rs_event_bot/rs_event_bot/SlashCommands/SlashCommandhandlers.cs:240 | the position after every row worth at least as much and, in a sorted list, before every row worth less |
| Ranking.InsertAt | rs_event_bot/rs_event_bot/SlashCommands/SlashCommandhandlers.cs:240 | putting a row in at a position keeps every old row, with its multiplicity, and adds the new one |
| Ranking.Inserted | rs_event_bot/rs_event_bot/SlashCommands/SlashCommandhandlers.cs:240 | the result holds exactly the old rows, with their multiplicities, plus the new one |
| Ranking.InsertKeepsRanking | rs_event_bot/rs_event_bot/SlashCommands/SlashCommandhandlers.cs:236-240 | inserting a new player's row keeps the list sorted by points (descending) with no player twice |
| Ranking.DigitsRoundTrip | rs_event_bot/rs_event_bot/SlashCommands/SlashCommandhandlers.cs:259 | the decimal digits of an id read back as the id |
| Ranking.MentionRoundTrip | rs_event_bot/rs_event_bot/SlashCommands/SlashCommandhandlers.cs:259 | the fallback name is `<@`, the id's digits and `>`, and the id can be read back from it |
| Ranking.UnknownPlayersGetDistinctNames | rs_event_bot/rs_event_bot/SlashCommands/SlashCommandhandlers.cs:250-260 | two different players the guild does not know are shown under different names |
| Ranking.Truncated | rs_event_bot/rs_event_bot/SlashCommands/SlashCommandhandlers.cs:262-264 | a name over 25 characters becomes its first 22 plus "..." (exactly 25); shorter names are unchanged |
| RunLedger.NextRunIdIsUnique | rs_event_bot/rs_event_bot/SlashCommands/SlashCommandhandlers.cs:139-143 | the next run id is determined by the stored ids |
| RunLedger.FreedIdBelowTopIsNotReused | rs_event_bot/rs_event_bot/SlashCommands/SlashCommandhandlers.cs:139-143 | after removing a run below a run that is still stored, the next id is above that run and the freed id |
| RunLedger.RemovedTopIdIsReused | rs_event_bot/rs_event_bot/SlashCommands/SlashCommandhandlers.cs:139-143 | after removing the run with the highest id, that id is the next one again, provided the id just below it is stored or it was run 1 and the only run |
| RunLedger.MaxRunId | rs_event_bot/rs_event_bot/SlashCommands/SlashCommandhandlers.cs:139-141 | the result is 0 for no runs, else a stored id at least as large as every stored id |
| RunLedger.HasDuplicatePlayers | rs_event_bot/rs_event_bot/SlashCommands/SlashCommandhandlers.cs:52-62 | the flag is raised if and only if some player occurs twice in the list |
| RunLedger.LogKeepsTotalUpToRounding | rs_event_bot/rs_event_bot/SlashCommands/SlashCommandhandlers.cs:92-135 | logging a run raises the total of all balances by its points, give or take 0.05 per player |
| RunLedger.RemoveTakesExactPoints | rs_event_bot/rs_event_bot/SlashCommands/SlashCommandhandlers.cs:353-368 | removing a run lowers the total of all balances by exactly its points |
| RunLedger.LogThenRemoveLeavesDrift | rs_event_bot/rs_event_bot/SlashCommands/SlashCommandhandlers.cs:353-368 | logging then removing a run leaves each of its players at their registered balance plus the drift, and others untouched |
| RunLedger.LogKeepsConsistent | rs_event_bot/rs_event_bot/SlashCommands/SlashCommandhandlers.cs:137-176 | logging a valid run under the next id keeps every association pointing at stored rows and every run at 1-4 players |
| RunLedger.RemoveKeepsConsistent | rs_event_bot/rs_event_bot/SlashCommands/SlashCommandhandlers.cs:370-383 | deleting a run's associations and the run keeps the tables consistent |
| RunLedger.NumberRows | rs_event_bot/rs_event_bot/SlashCommands/SlashCommandhandlers.cs:244-273 | line i + 1 of the leaderboard shows the i-th statistics row with the player's shown name |
| RunLedger.Ledger.StatOf | rs_event_bot/rs_event_bot/SlashCommands/SlashCommandhandlers.cs:236-239 | a player's statistics row counts their association rows, and that count is the number of distinct runs they took part in |
| RunLedger.Ledger.RegisterPlayers | rs_event_bot/rs_event_bot/SlashCommands/SlashCommandhandlers.cs:92-118 | the player table becomes `Registered`; runs and associations are untouched |
| RunLedger.Ledger.CreditPlayers | rs_event_bot/rs_event_bot/SlashCommands/SlashCommandhandlers.cs:120-135 | every listed player gains the share; no other balance or table changes |
| RunLedger.Ledger.LinkPlayers | rs_event_bot/rs_event_bot/SlashCommands/SlashCommandhandlers.cs:160-176 | one association per listed player is added; nothing else changes |
| RunLedger.Ledger.DebitPlayers | rs_event_bot/rs_event_bot/SlashCommands/SlashCommandhandlers.cs:353-368 | every given player loses the amount; no other balance or table changes |
| RunLedger.Ledger.LogRun | rs_event_bot/rs_event_bot/SlashCommands/SlashCommandhandlers.cs:36-199 | repeated players are rejected first, then points <= 0, both without change. Otherwise players are registered and credited the rounded share, and the run is stored under max + 1 with one association per player. The invariant is kept |
| RunLedger.Ledger.RemoveRun | rs_event_bot/rs_event_bot/SlashCommands/SlashCommandhandlers.cs:302-405 | an unknown id changes nothing. Otherwise exactly the run's players lose points / players unrounded, and the run and its associations are deleted. The invariant is kept |
| RunLedger.Ledger.ClearHistory | rs_event_bot/rs_event_bot/SlashCommands/SlashCommandhandlers.cs:412-461 | all three tables are empty afterwards |
| RunLedger.Ledger.PlayerStats | rs_event_bot/rs_event_bot/SlashCommands/SlashCommandhandlers.cs:234-240 | one row per stored player with their balance and run count, sorted by points descending, no player twice |
| RunLedger.Ledger.Leaderboard | rs_event_bot/rs_event_bot/SlashCommands/SlashCommandhandlers.cs:208-273 | no guild gives the error. Otherwise the rows are a permutation of the stored players in descending points, with places 1..n, run counts from the associations and names cut to 25 |

## Left out

- Discord I/O is not modelled. This covers deferring, follow-up messages, embeds and reading
  command options. The success and error messages become result values (`LogResult`,
  `RemoveResult`, `BoardResult`).
- The SQL text and the database connection are not modelled. Each statement is an update or a query
  on the three fields, and statements run in the source's order.
- Concurrency is not modelled. Handlers share one connection without locking; the model runs each
  command atomically, one after the other.
- `float` arithmetic is not modelled. Balances are exact reals and the logged share is an exact
  number of tenths. Single-precision rounding of `(float)points / count` and of stored balances is
  not captured.
- Guild and name lookup are inputs. The guild is a `GuildLookup` value, and a member's nickname or
  user name is the string in its `members` map.
- RunLedger.Ledger.Leaderboard: returns the rows, not the formatted text. The column padding of
  `string.Format`, the `:F1` points format and the header line are .NET formatting and are not
  modelled. `Paginate` is therefore proved for any text rather than applied to the formatted board.
- RunLedger.Ledger.PlayerStats: the order of players with equal points is left open, as it is in
  the SQL `ORDER BY`. The model takes the players in an arbitrary order and inserts each stably.
- RunLedger.Ledger.ClearHistory: the storage failure path is not modelled, because no storage
  failure exists in the model. The command is also registered but not dispatched by
  `SlashCommandSwitch.cs`, which is not part of this model.
- A run with no associated players is excluded by the invariant, so its removal is not modelled
  separately. In the source the float division by zero gives infinity, which appears in the
  removal summary, and the debit loop does nothing.
- Integer width is not modelled. Points and run ids are unbounded integers here, while the source
  reads them with `Convert.ToInt32`. That call throws before any change when the points option does
  not fit in 32 bits, and `maxRunId + 1` is 32-bit arithmetic. The points option itself sets no
  bound (`CommandInitialization.cs:78`).
- RunLedger.Ledger.Leaderboard, Ranking.Truncated, Pagination.Paginate: lengths are counted in
  Unicode code points, one per `char`, while .NET `Length` and `Substring` count UTF-16 code units.
  A name with characters outside the Basic Multilingual Plane (an emoji, say) is therefore shorter
  here than in the source and may be cut later or not at all. A cut that splits a surrogate pair in
  the source, at the name column or at a 4000-unit page boundary, cannot happen in the model.
- Player ids: Discord's 64-bit unsigned ids are unbounded naturals here.
- Command registration, bootstrap and dispatch (`CommandInitialization.cs`, `Program.cs`,
  `SlashCommandSwitch.cs`) are not modelled. The limits they impose on commands are preconditions:
  1 to 4 players (`CommandInitialization.cs:79-83`) and level 2 to 12
  (`CommandInitialization.cs:60-70`).
