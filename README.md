# TezBet demonstration bot: reconciliation pass, in Dafny

The bot keeps a Tezos betting contract in step with the football-data.org
feed. Each run reads the stored games from the contract (game id to outcome,
where -1 means the outcome is not known yet). It then fetches the matches of
a window of one day either side of "now", and adds contract calls to one
batch:

- a `new_game` call for every match whose id is not stored;
- a `set_outcome` call for every finished match whose game is unstored or
  still undetermined and whose winner is `HOME_TEAM`, `AWAY_TEAM` or `DRAW`
  (choices 0, 1, 2).

A `transactions` counter tracks the calls, and the batch is sent only when
that counter is positive.

This project models that decision pass and the `timeRange` helper that
computes the query window. It proves what the pass promises about the calls
it emits.

Files and modules:

- `options.dfy` (`Options`): the optional value used for a missing winner and
  for an Invalid Date.
- `decimal.dfy` (`Decimal`): JavaScript's decimal rendering of an integer
  id. This rendering is the property key in `game.id in storageGames` and the
  `game_id` argument of both calls. It is proved injective.
- `calendar.dfy` (`Calendar`): the proleptic Gregorian calendar as days since
  1970-01-01. Next-day and previous-day steps are proved one day apart
  across month ends, year ends and leap days.
- `time_window.dfy` (`TimeWindow`): `timeRange` over epoch milliseconds,
  including the clipping that `Date.prototype.setTime` applies.
- `reconciliation.dfy` (`Reconciliation`): feed matches, contract calls, the
  per-match decision `MatchOps` and the whole pass `Reconcile`.
- `reconciliation_properties.dfy` (`ReconciliationProperties`): lemmas about
  the pass. They cover creation and outcome selection, immutability of
  decided outcomes, feed order, skipped winners, and at most one call of each
  kind per game when feed ids are distinct.
- `ledger.dfy` (`LedgerEffect`): the effect of the calls on the stored games.
  With it, a second pass over the same feed after the batch is applied emits
  nothing.
- `load_games.dfy` (`LoadGames`): the loop itself. It is a method that adds
  calls to a `Batch` object in place and counts them in `transactions`. It is
  proved to emit exactly `Reconcile`'s calls and to send only a non-empty
  batch.

Two points about the code as written:

- The creation timestamp is `Math.round(ms / 1000)` (server.js:82).
  `RoundSeconds` is `(ms + 500) div 1000`.
- The snapshot is read once and never updated inside the loop, so a feed that
  repeats an id repeats its calls (`RepeatedIdCreatedTwice`). The per-game
  uniqueness and idempotence lemmas require distinct feed ids.

## Model

| member | source | states |
|---|---|---|
| Decimal.NatToString | server.js:79 | the rendering is a non-empty digit string with a leading zero only for 0, one digit exactly below 10 |
| Decimal.IntToString | server.js:79 | the rendering of an id (the property key at server.js:74, the `game_id` at server.js:79 and 109) is non-empty and starts with a minus sign exactly for a negative id; `IntToStringValue` states that the rest spells the magnitude |
| Decimal.NatToStringValue | server.js:79 | the digits of the rendering spell the number back |
| Decimal.IntToStringValue | server.js:109 | the rendering is a minus sign exactly for a negative id, then digits that spell the id's magnitude |
| Decimal.IntToStringInjective | server.js:74-79 | two ids with the same rendering are equal, so the property key identifies the match |
| Calendar.NextDay | test.js:10 | the calendar day after a valid date is a valid date |
| Calendar.PrevDay | test.js:9 | the day before a valid date is valid and its next day is the date itself |
| Calendar.MarchYearLength | test.js:6-10 | a March-to-February year has 366 days exactly when its February is a Gregorian leap February |
| Calendar.NextDayIsOneDayLater | test.js:10 | the next calendar day is exactly one day count later, across month ends, year ends and leap days |
| Calendar.PrevDayIsOneDayEarlier | test.js:9 | the previous calendar day is exactly one day count earlier |
| Calendar.EpochIsDayZero | server.js:15-16 | 1 January 1970 is day 0 of the time value |
| TimeWindow.TimeRange | server.js:12-19 | the forward end lies `secondsForward` seconds after the instant and the backward end `secondsBackward` seconds before it; each is an Invalid Date exactly when it falls beyond 8.64e15 ms from the epoch |
| TimeWindow.TimeRangeBrackets | server.js:12-19 | with non-negative offsets and both ends representable, the window runs from `secondsBackward` seconds before the instant to `secondsForward` seconds after it, so it contains the instant and is the two offsets long |
| TimeWindow.TimeRangeOneDayEitherSide | server.js:12-19 | ±86400 s around a date and clock time gives the same clock time on the previous and the next calendar day |
| TimeWindow.TimeRangeAcrossYearEnd | test.js:4-10 | 31 Dec 2021 18:04:36 gives 30 Dec 2021 and 1 Jan 2022 at 18:04:36 |
| Reconciliation.WinnerChoice | server.js:89-100 | a choice exists exactly for HOME_TEAM, AWAY_TEAM, DRAW; it is 0, 1 or 2 and names back the winner it came from |
| Reconciliation.RoundSeconds | server.js:82 | the result is the whole second nearest to the milliseconds, halves rounded up |
| Reconciliation.MatchOps | server.js:74-113 | one loop iteration adds at most two calls, all for the match's own game id; `MatchOpsShape` states which |
| Reconciliation.MatchOpsShape | server.js:74-113 | one match yields at most two calls, all for its id; a creation exactly when unstored, carrying its fields, and first; an outcome with choice c exactly when eligible and the winner maps to c |
| Reconciliation.Reconcile | server.js:71-115 | the pass emits at most two calls per feed match |
| ReconciliationProperties.ReconcileAppend | server.js:71 | the calls follow feed order: a feed split in two yields the first part's calls, then the second's |
| ReconciliationProperties.ReconcileOrigin | server.js:71-115 | a call is emitted exactly when some feed match contributes it |
| ReconciliationProperties.CreateGameIff | server.js:74-86 | a game is created exactly when some feed match has its id and the id is not stored |
| ReconciliationProperties.CreateGameFields | server.js:78-83 | every creation carries a feed match's decimal id, normalized home and away names and rounded time, and that id is not stored |
| ReconciliationProperties.SetOutcomeIff | server.js:88-111 | an outcome c is set for a game exactly when a finished match with that id is unstored or stored as -1 and its winner maps to c |
| ReconciliationProperties.ResolvedNeverUpdated | server.js:88 | a game stored with an outcome other than -1 never gets an outcome call |
| ReconciliationProperties.ChoicesInRange | server.js:108-111 | every outcome call carries choice 0, 1 or 2 |
| ReconciliationProperties.InvalidWinnerSkipped | server.js:102-103 | a missing or unknown winner drops only that match's outcome call; the matches before and after yield their calls unchanged |
| ReconciliationProperties.CreateAndSettleInOnePass | server.js:74-111 | an unstored finished match with a valid winner yields its creation followed by its outcome |
| ReconciliationProperties.ReconcileEmptyIff | server.js:71-115 | the pass emits nothing exactly when no feed match contributes a call |
| ReconciliationProperties.NothingToDoWhenAllResolved | server.js:74-88 | when every feed id is stored with an outcome other than -1, no call is emitted |
| ReconciliationProperties.DistinctIdsDistinctKeys | server.js:74 | distinct numeric feed ids give distinct property keys |
| ReconciliationProperties.TargetsFeedIds | server.js:79 | every call targets the id of some feed match |
| ReconciliationProperties.AtMostOneCallOfEachKind | server.js:71-115 | with distinct feed ids, two calls for one game are a creation followed by an outcome, never two of a kind |
| ReconciliationProperties.RepeatedIdCreatedTwice | server.js:74-86 | the snapshot is not updated during the pass, so a repeated unstored id is created twice |
| LedgerEffect.ApplyMatchOps | server.js:74-111 | applying one match's calls leaves its game stored with the outcome the match settles |
| LedgerEffect.AppliedAt | server.js:71-115 | after the whole batch, each game of a feed with distinct ids holds its settled outcome |
| LedgerEffect.ReconcileIdempotent | server.js:71-115 | with distinct feed ids, a second pass after the batch is applied emits nothing |
| LoadGames.Batch.constructor | server.js:67 | a new batch holds no calls |
| LoadGames.Batch.WithContractCall | server.js:78-83 | a call is appended at the end of the batch |
| LoadGames.WinnerSwitch | server.js:89-100 | the switch leaves -1 exactly when no choice exists and otherwise leaves the choice |
| LoadGames.AddMatchCalls | server.js:72-113 | one loop iteration appends exactly the match's calls and counts each one |
| LoadGames.LoadGamesFromFeed | server.js:66-125 | the loop emits exactly the pass's calls, `transactions` equals their number, and the batch is sent exactly when it is non-empty |

## Left out

- The feed request through axios is not modelled: base URL, token header,
  30 s timeout, `limit`/`dateFrom`/`dateTo` parameters and rate-limit logging
  (server.js:48-64). These are network I/O. The matches are a parameter.
- The Taquito toolkit, the signer, `contract.at`, `batch.send()` and the
  confirmation (server.js:6, 21-26, 67-68, 119-122) are foreign ledger calls.
  The model records only whether the batch is sent. A failed send is caught
  and logged in the source and has no effect on the model.
- `loadContractStorage` (server.js:28-41) walks a Taquito MichelsonMap. The
  snapshot is taken as a given `map<string, int>`.
- `normalize` (server.js:8-10) depends on Unicode NFD tables and the
  `Diacritic` property. It is a parameter of type `string -> string`, and
  nothing is assumed about it.
- `Date.parse(utcDate)`, `toISOString().split('T')` and `new Date()` are left
  out (server.js:44-46, 82). Match times are given as integer epoch
  milliseconds and the instant of `timeRange` is a parameter. A
  `Date.parse` result of NaN, which would give the timestamp "NaN", is not
  modelled.
- The creation's `match_timestamp` is kept as an integer. Its `.toString()`
  rendering is not modelled.
- Decimal.IntToString: feed ids are JavaScript Numbers; the model takes them
  as safe integers (magnitude at most 2^53 - 1, `Number.MAX_SAFE_INTEGER`)
  and renders their own decimal digits. Beyond 2^53 a Number's `toString()`
  is the shortest digit string that reads back to the same Number, padded
  with zeros (2^60 renders as "1152921504606847000"), not the integer's own
  digits. Such ids, non-integral ids and ids of 1e21 or more (which render
  with an exponent) are out of scope.
- Feed records are assumed well formed. In the source a malformed record
  throws a TypeError inside the `.then` callback in these cases:
  a missing home or away team always throws (`game.homeTeam.name`,
  server.js:72); a missing `score` throws for a finished match whose id is
  unstored or stored as -1 (`game.score.winner`, server.js:88-90); a
  non-string team name throws when the game is created (`input.normalize`,
  server.js:9, 74, 80-81). The throw aborts the loop, so server.js:117-122
  never runs and the whole batch, including calls already added, is lost.
  The model cannot represent such a record. Elsewhere the source processes
  it normally, and a scoreless record is the model's `winner == None`.
- `TimeWindow.TimeRange` takes a valid Date's time value and offsets in whole
  seconds. A fractional offset (whose millisecond sum `setTime` truncates
  toward zero), an Invalid Date argument and floating-point rounding of sums
  beyond 2^53 ms are not modelled.
- test.js builds its dates in the machine's local time, while the model
  works in UTC. The two agree whenever the local offset is the same on the
  three days involved.
- JavaScript's `in` also finds inherited properties. A decimal key never
  names one, so plain map membership is used.
- `LedgerEffect` assumes what the contract does: `new_game` stores outcome
  -1 and `set_outcome` stores the choice. The contract's code is not part of
  this model. These definitions are used only by the idempotence lemmas.
- Console logging, the promise chain, `main`, dotenv configuration and
  `module.exports` (server.js:1, 61-64, 129-141) are left out.
