/** What the submitted calls do to the stored games, as far as the
    reconciliation relies on it: `new_game` stores a game with an
    undetermined outcome and `set_outcome` stores the chosen outcome.  With
    that reading, a second pass over the same feed after the first pass's
    batch is applied has nothing left to do. */
module LedgerEffect {
  import opened Reconciliation
  import opened ReconciliationProperties

  function ApplyOp(store: Store, op: Op): (r: Store)
    ensures r.Keys == store.Keys + {op.gameId}
  {
    match op
    case CreateGame(gameId, _, _, _) => store[gameId := Undetermined]
    case SetOutcome(gameId, choice) => store[gameId := choice]
  }

  /** The stored games after the calls of a batch, in order. */
  function Apply(store: Store, ops: seq<Op>): Store
    decreases |ops|
  {
    if ops == [] then store else ApplyOp(Apply(store, ops[..|ops| - 1]), ops[|ops| - 1])
  }

  lemma {:induction false} ApplyAppend(store: Store, a: seq<Op>, b: seq<Op>)
    ensures Apply(store, a + b) == Apply(Apply(store, a), b)
    decreases |b|
  {
    if b == [] {
      assert a + b == a;
    } else {
      assert (a + b)[..|a + b| - 1] == a + b[..|b| - 1];
      ApplyAppend(store, a, b[..|b| - 1]);
    }
  }

  /** Calls for other games leave a game's entry as it was. */
  lemma {:induction false} ApplyFrame(store: Store, ops: seq<Op>, gameId: string)
    requires forall op :: op in ops ==> op.gameId != gameId
    ensures gameId in Apply(store, ops) <==> gameId in store
    ensures gameId in store ==> Apply(store, ops)[gameId] == store[gameId]
    decreases |ops|
  {
    if ops != [] {
      ApplyFrame(store, ops[..|ops| - 1], gameId);
    }
  }

  /** The outcome a match's game holds once that match's calls are applied. */
  function Settled(store: Store, m: Match): int {
    var choice := WinnerChoice(m.winner);
    if OutcomeEligible(store, m) && choice.Some? then choice.value
    else if GameKey(m) !in store then Undetermined
    else store[GameKey(m)]
  }

  /** Applying one match's calls to a store that agrees with the snapshot on
      that match's game leaves the game stored with its settled outcome. */
  lemma ApplyMatchOps(current: Store, store: Store, normalize: Normalizer, m: Match)
    requires GameKey(m) in current <==> GameKey(m) in store
    requires GameKey(m) in store ==> current[GameKey(m)] == store[GameKey(m)]
    ensures var after := Apply(current, MatchOps(store, normalize, m));
            GameKey(m) in after && after[GameKey(m)] == Settled(store, m)
  {
    var ops := MatchOps(store, normalize, m);
    if |ops| == 1 {
      assert ops[..0] == [];
    } else if |ops| == 2 {
      assert ops[..1][..0] == [];
    }
  }

  /** After the first pass's batch, each feed game (ids distinct) holds its settled outcome. */
  lemma {:induction false} AppliedAt(store: Store, normalize: Normalizer, feed: seq<Match>, j: int)
    requires DistinctKeys(feed) && 0 <= j < |feed|
    ensures var after := Apply(store, Reconcile(store, normalize, feed));
            GameKey(feed[j]) in after && after[GameKey(feed[j])] == Settled(store, feed[j])
    decreases |feed|
  {
    var init := feed[..|feed| - 1];
    var last := feed[|feed| - 1];
    var head := Reconcile(store, normalize, init);
    var tail := MatchOps(store, normalize, last);
    ApplyAppend(store, head, tail);
    var mid := Apply(store, head);
    if j == |feed| - 1 {
      forall op | op in head ensures op.gameId != GameKey(last) {
        TargetsFeedIds(store, normalize, init, op);
      }
      ApplyFrame(store, head, GameKey(last));
      ApplyMatchOps(mid, store, normalize, last);
    } else {
      assert init[j] == feed[j];
      AppliedAt(store, normalize, init, j);
      assert GameKey(feed[j]) != GameKey(last);
      ApplyFrame(mid, tail, GameKey(feed[j]));
    }
  }

  /** Re-running the pass on the same feed (ids distinct) once its batch is
      applied lists no call: no second creation and no second outcome. */
  lemma ReconcileIdempotent(store: Store, normalize: Normalizer, feed: seq<Match>)
    requires DistinctIds(feed)
    ensures Reconcile(Apply(store, Reconcile(store, normalize, feed)), normalize, feed) == []
  {
    DistinctIdsDistinctKeys(feed);
    var after := Apply(store, Reconcile(store, normalize, feed));
    forall j | 0 <= j < |feed| ensures MatchOps(after, normalize, feed[j]) == [] {
      AppliedAt(store, normalize, feed, j);
    }
    ReconcileEmptyIff(after, normalize, feed);
  }
}
