/** The loop of `loadGamesFromSoccerApi`: one pass over the feed's matches
    that adds contract calls to a batch in place, counts them in
    `transactions`, and sends the batch only when that count is positive. */
module LoadGames {
  import opened Options
  import opened Reconciliation
  import opened ReconciliationProperties
  import Decimal

  /** The ledger client's batch: calls accumulate in order until it is sent. */
  class Batch {
    var calls: seq<Op>

    constructor ()
      ensures calls == []
    {
      calls := [];
    }

    method WithContractCall(op: Op)
      modifies this
      ensures calls == old(calls) + [op]
    {
      calls := calls + [op];
    }
  }

  /** The `switch` on `score.winner`: `winner` starts at -1 and is
      overwritten for the three names the feed uses for a result. */
  method WinnerSwitch(scoreWinner: Option<string>) returns (winner: int)
    ensures WinnerChoice(scoreWinner) == if winner == -1 then None else Some(winner)
  {
    winner := -1;
    if scoreWinner == Some("HOME_TEAM") {
      winner := 0;
    } else if scoreWinner == Some("AWAY_TEAM") {
      winner := 1;
    } else if scoreWinner == Some("DRAW") {
      winner := 2;
    }
  }

  /** The body of the loop for one match: the calls it adds to the batch, and
      how many times it increments `transactions`. */
  method AddMatchCalls(batch: Batch, storageGames: Store, normalize: Normalizer, game: Match)
    returns (added: int)
    modifies batch
    ensures batch.calls == old(batch.calls) + MatchOps(storageGames, normalize, game)
    ensures added == |MatchOps(storageGames, normalize, game)|
  {
    added := 0;
    var id := Decimal.IntToString(game.id);
    if id !in storageGames {
      added := added + 1;
      batch.WithContractCall(CreateGame(id, normalize(game.homeTeam), normalize(game.awayTeam),
                                        RoundSeconds(game.utcMillis)));
    }
    if game.status == Finished && (id !in storageGames || storageGames[id] == Undetermined) {
      var winner := WinnerSwitch(game.winner);
      if winner == -1 {
        // the source logs an invalid winner and goes on with the next match
      } else {
        added := added + 1;
        batch.WithContractCall(SetOutcome(id, winner));
      }
    }
  }

  /** Runs the decision loop over `matches` against the snapshot
      `storageGames`; `sent` tells whether `batch.send()` is invoked. */
  method LoadGamesFromFeed(storageGames: Store, normalize: Normalizer, matches: seq<Match>)
    returns (calls: seq<Op>, transactions: int, sent: bool)
    ensures calls == Reconcile(storageGames, normalize, matches)
    ensures transactions == |calls|
    ensures sent <==> calls != []
  {
    transactions := 0;
    var batch := new Batch();
    for i := 0 to |matches|
      invariant batch.calls == Reconcile(storageGames, normalize, matches[..i])
      invariant transactions == |batch.calls|
    {
      var added := AddMatchCalls(batch, storageGames, normalize, matches[i]);
      transactions := transactions + added;
      ReconcilePrefixStep(storageGames, normalize, matches, i);
    }
    assert matches[..|matches|] == matches;
    calls := batch.calls;
    sent := transactions > 0;
  }
}
