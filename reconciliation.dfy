/** The decision pass of `loadGamesFromSoccerApi` in server.js, without the
    feed request and the ledger calls around it.  Given the snapshot of stored
    games (game id to outcome, -1 meaning undetermined) and the matches of one
    feed answer, it lists, in feed order, the `new_game` and `set_outcome`
    calls the bot adds to its batch. */
module Reconciliation {
  import opened Options
  import Decimal

  /** The stored outcome of a game whose result is not yet known. */
  const Undetermined := -1
  const Finished := "FINISHED"

  /** One entry of the feed's `matches` array.  `utcMillis` is the time value
      `Date.parse(utcDate)` gives; `winner` is `score.winner`, possibly absent. */
  datatype Match = Match(id: int, homeTeam: string, awayTeam: string, utcMillis: int,
                         status: string, winner: Option<string>)

  /** A contract call added to the batch. */
  datatype Op =
    | CreateGame(gameId: string, teamA: string, teamB: string, matchTimestamp: int)
    | SetOutcome(gameId: string, choice: int)

  /** Stored games: game id to outcome, as read from the contract storage. */
  type Store = map<string, int>

  /** The diacritic-stripping `normalize`; it depends on Unicode tables, so
      the model takes it as a parameter and assumes nothing about it. */
  type Normalizer = string -> string

  /** The property key and ledger id of a match: its id in decimal. */
  function GameKey(m: Match): string {
    Decimal.IntToString(m.id)
  }

  /** The feed's name for each ledger choice. */
  function ChoiceName(choice: int): string
    requires 0 <= choice <= 2
  {
    if choice == 0 then "HOME_TEAM" else if choice == 1 then "AWAY_TEAM" else "DRAW"
  }

  /** The `switch` on `score.winner`: a ledger choice for the three known
      names and nothing for any other value or a missing one. */
  function WinnerChoice(winner: Option<string>): (choice: Option<int>)
    ensures choice.Some? <==> winner.Some? && winner.value in {"HOME_TEAM", "AWAY_TEAM", "DRAW"}
    ensures choice.Some? ==> 0 <= choice.value <= 2 && winner == Some(ChoiceName(choice.value))
  {
    if winner == Some("HOME_TEAM") then Some(0)
    else if winner == Some("AWAY_TEAM") then Some(1)
    else if winner == Some("DRAW") then Some(2)
    else None
  }

  /** `Math.round(ms / 1000)`: the nearest whole second, halves rounded up. */
  function RoundSeconds(ms: int): (s: int)
    ensures s * 1000 - 500 <= ms < s * 1000 + 500
  {
    (ms + 500) / 1000
  }

  /** The guard on the outcome update: the match is finished and its stored
      outcome, if any, is still undetermined. */
  predicate OutcomeEligible(store: Store, m: Match) {
    m.status == Finished && (GameKey(m) !in store || store[GameKey(m)] == Undetermined)
  }

  /** Some call in `ops` creates game `gameId`. */
  predicate CreatesGame(ops: seq<Op>, gameId: string) {
    exists op :: op in ops && op.CreateGame? && op.gameId == gameId
  }

  /** The `new_game` call for a match. */
  function NewGame(normalize: Normalizer, m: Match): Op {
    CreateGame(GameKey(m), normalize(m.homeTeam), normalize(m.awayTeam), RoundSeconds(m.utcMillis))
  }

  /** The calls one loop iteration adds for match `m`: a creation when its id
      is not stored, then an outcome when it is eligible and its winner is
      recognised; at most two calls, both for the match's own game. */
  function MatchOps(store: Store, normalize: Normalizer, m: Match): (ops: seq<Op>)
    ensures |ops| <= 2
    ensures forall k :: 0 <= k < |ops| ==> ops[k].gameId == GameKey(m)
  {
    var create := if GameKey(m) !in store then [NewGame(normalize, m)] else [];
    var outcome := WinnerChoice(m.winner);
    var update := if OutcomeEligible(store, m) && outcome.Some?
                  then [SetOutcome(GameKey(m), outcome.value)] else [];
    create + update
  }

  /** A match contributes at most two calls, all for its own game: the
      creation exactly when its id is not stored, carrying its id, normalized
      team names and rounded time, and first; an outcome update with choice
      `c` exactly when the match is eligible and its winner names `c`. */
  lemma MatchOpsShape(store: Store, normalize: Normalizer, m: Match)
    ensures var ops := MatchOps(store, normalize, m);
            && |ops| <= 2
            && (forall op :: op in ops ==> op.gameId == GameKey(m))
            && (CreatesGame(ops, GameKey(m)) <==> GameKey(m) !in store)
            && (GameKey(m) !in store ==> ops[0] == NewGame(normalize, m))
            && (forall c :: SetOutcome(GameKey(m), c) in ops
                            <==> OutcomeEligible(store, m) && WinnerChoice(m.winner) == Some(c))
            && (forall k :: 0 < k < |ops| ==> ops[k].SetOutcome?)
            && (|ops| == 2 ==> ops[0].CreateGame?)
  {
  }

  /** The calls for a whole feed answer, match after match. */
  function Reconcile(store: Store, normalize: Normalizer, feed: seq<Match>): (ops: seq<Op>)
    ensures |ops| <= 2 * |feed|
    decreases |feed|
  {
    if feed == [] then []
    else Reconcile(store, normalize, feed[..|feed| - 1]) + MatchOps(store, normalize, feed[|feed| - 1])
  }
}
