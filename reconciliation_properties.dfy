/** What the reconciliation pass promises about the calls it lists: which
    matches yield a game creation, which yield an outcome update and with
    which choice, that the calls follow the feed order, and what happens to
    matches the pass skips. */
module ReconciliationProperties {
  import opened Options
  import opened Reconciliation
  import Decimal

  lemma AppendAssociative(x: seq<Op>, y: seq<Op>, z: seq<Op>)
    ensures (x + y) + z == x + (y + z)
  {
  }

  /** A match appended to the feed adds its own calls after the others. */
  lemma ReconcileSnoc(store: Store, normalize: Normalizer, feed: seq<Match>, m: Match)
    ensures Reconcile(store, normalize, feed + [m])
            == Reconcile(store, normalize, feed) + MatchOps(store, normalize, m)
  {
    assert (feed + [m])[..|feed|] == feed;
  }

  /** The calls for two feed segments are those of the first, then those of the second. */
  lemma {:induction false} ReconcileAppend(store: Store, normalize: Normalizer, a: seq<Match>, b: seq<Match>)
    ensures Reconcile(store, normalize, a + b) == Reconcile(store, normalize, a) + Reconcile(store, normalize, b)
    decreases |b|
  {
    if b == [] {
      assert a + b == a;
    } else {
      var init := b[..|b| - 1];
      var last := b[|b| - 1];
      var head := Reconcile(store, normalize, a);
      var mid := Reconcile(store, normalize, init);
      var tail := MatchOps(store, normalize, last);
      calc {
        Reconcile(store, normalize, a + b);
        { assert a + b == (a + init) + [last]; }
        Reconcile(store, normalize, (a + init) + [last]);
        { ReconcileSnoc(store, normalize, a + init, last); }
        Reconcile(store, normalize, a + init) + tail;
        { ReconcileAppend(store, normalize, a, init); }
        (head + mid) + tail;
        { AppendAssociative(head, mid, tail); }
        head + (mid + tail);
        { ReconcileSnoc(store, normalize, init, last); assert init + [last] == b; }
        head + Reconcile(store, normalize, b);
      }
    }
  }

  /** One more match of the feed adds its own calls after those already listed. */
  lemma ReconcilePrefixStep(store: Store, normalize: Normalizer, feed: seq<Match>, i: int)
    requires 0 <= i < |feed|
    ensures Reconcile(store, normalize, feed[..i + 1])
            == Reconcile(store, normalize, feed[..i]) + MatchOps(store, normalize, feed[i])
  {
    assert feed[..i + 1] == feed[..i] + [feed[i]];
    ReconcileSnoc(store, normalize, feed[..i], feed[i]);
  }

  /** Every call comes from one match of the feed, and every call a match contributes is listed. */
  lemma {:induction false} ReconcileOrigin(store: Store, normalize: Normalizer, feed: seq<Match>, op: Op)
    ensures op in Reconcile(store, normalize, feed)
            <==> exists j :: 0 <= j < |feed| && op in MatchOps(store, normalize, feed[j])
    decreases |feed|
  {
    if feed != [] {
      var init := feed[..|feed| - 1];
      var last := feed[|feed| - 1];
      ReconcileOrigin(store, normalize, init, op);
      assert Reconcile(store, normalize, feed)
          == Reconcile(store, normalize, init) + MatchOps(store, normalize, last);
      if op in Reconcile(store, normalize, init) {
        var j :| 0 <= j < |init| && op in MatchOps(store, normalize, init[j]);
        assert feed[j] == init[j];
      }
      if exists j :: 0 <= j < |feed| && op in MatchOps(store, normalize, feed[j]) {
        var j :| 0 <= j < |feed| && op in MatchOps(store, normalize, feed[j]);
        if j < |init| {
          assert feed[j] == init[j];
        }
      }
    }
  }

  /** A game is created exactly when some feed match has its id and the id is not stored. */
  lemma CreateGameIff(store: Store, normalize: Normalizer, feed: seq<Match>, gameId: string)
    ensures CreatesGame(Reconcile(store, normalize, feed), gameId)
            <==> gameId !in store && exists j :: 0 <= j < |feed| && GameKey(feed[j]) == gameId
  {
    var ops := Reconcile(store, normalize, feed);
    if CreatesGame(ops, gameId) {
      var op :| op in ops && op.CreateGame? && op.gameId == gameId;
      ReconcileOrigin(store, normalize, feed, op);
      var j :| 0 <= j < |feed| && op in MatchOps(store, normalize, feed[j]);
      assert CreatesGame(MatchOps(store, normalize, feed[j]), gameId);
    }
    if gameId !in store && exists j :: 0 <= j < |feed| && GameKey(feed[j]) == gameId {
      var j :| 0 <= j < |feed| && GameKey(feed[j]) == gameId;
      var op := NewGame(normalize, feed[j]);
      assert op == MatchOps(store, normalize, feed[j])[0];
      ReconcileOrigin(store, normalize, feed, op);
      assert op in ops;
    }
  }

  /** Every creation carries the decimal id, the normalized team names and
      the rounded match time of a feed match whose id is not stored. */
  lemma CreateGameFields(store: Store, normalize: Normalizer, feed: seq<Match>, op: Op)
    requires op in Reconcile(store, normalize, feed) && op.CreateGame?
    ensures exists j :: 0 <= j < |feed| && GameKey(feed[j]) !in store
              && op == CreateGame(Decimal.IntToString(feed[j].id), normalize(feed[j].homeTeam),
                                  normalize(feed[j].awayTeam), RoundSeconds(feed[j].utcMillis))
  {
    ReconcileOrigin(store, normalize, feed, op);
    var j :| 0 <= j < |feed| && op in MatchOps(store, normalize, feed[j]);
    assert CreatesGame(MatchOps(store, normalize, feed[j]), GameKey(feed[j]));
  }

  /** An outcome update with choice `c` is listed for a game exactly when a
      finished feed match with that id is unstored or undetermined and its
      winner names choice `c`. */
  lemma SetOutcomeIff(store: Store, normalize: Normalizer, feed: seq<Match>, gameId: string, c: int)
    ensures SetOutcome(gameId, c) in Reconcile(store, normalize, feed)
            <==> exists j :: 0 <= j < |feed| && GameKey(feed[j]) == gameId
                   && OutcomeEligible(store, feed[j]) && WinnerChoice(feed[j].winner) == Some(c)
  {
    var op := SetOutcome(gameId, c);
    ReconcileOrigin(store, normalize, feed, op);
    if op in Reconcile(store, normalize, feed) {
      var j :| 0 <= j < |feed| && op in MatchOps(store, normalize, feed[j]);
      assert GameKey(feed[j]) == gameId;
    }
  }

  /** A game whose stored outcome is already decided is never updated again. */
  lemma ResolvedNeverUpdated(store: Store, normalize: Normalizer, feed: seq<Match>, gameId: string, c: int)
    requires gameId in store && store[gameId] != Undetermined
    ensures SetOutcome(gameId, c) !in Reconcile(store, normalize, feed)
  {
    SetOutcomeIff(store, normalize, feed, gameId, c);
  }

  /** Every listed outcome update carries one of the ledger's three choices. */
  lemma ChoicesInRange(store: Store, normalize: Normalizer, feed: seq<Match>, op: Op)
    requires op in Reconcile(store, normalize, feed) && op.SetOutcome?
    ensures 0 <= op.choice <= 2
  {
    SetOutcomeIff(store, normalize, feed, op.gameId, op.choice);
  }

  /** A match whose winner is missing or unrecognised gets no outcome update
      (at most its creation), and the matches after it are processed as if it
      had been valid. */
  lemma InvalidWinnerSkipped(store: Store, normalize: Normalizer, before: seq<Match>, m: Match, after: seq<Match>)
    requires WinnerChoice(m.winner) == None
    ensures Reconcile(store, normalize, before + [m] + after)
            == Reconcile(store, normalize, before)
               + (if GameKey(m) !in store then [NewGame(normalize, m)] else [])
               + Reconcile(store, normalize, after)
  {
    ReconcileAppend(store, normalize, before + [m], after);
    ReconcileSnoc(store, normalize, before, m);
  }

  /** An unknown match that is already finished with a valid winner is
      created and settled in the same pass, creation first. */
  lemma CreateAndSettleInOnePass(store: Store, normalize: Normalizer, m: Match, c: int)
    requires GameKey(m) !in store && m.status == Finished && WinnerChoice(m.winner) == Some(c)
    ensures Reconcile(store, normalize, [m]) == [NewGame(normalize, m), SetOutcome(GameKey(m), c)]
  {
    ReconcileSnoc(store, normalize, [], m);
    assert [] + [m] == [m];
  }

  /** The pass lists nothing exactly when no match contributes a call. */
  lemma {:induction false} ReconcileEmptyIff(store: Store, normalize: Normalizer, feed: seq<Match>)
    ensures Reconcile(store, normalize, feed) == []
            <==> forall j :: 0 <= j < |feed| ==> MatchOps(store, normalize, feed[j]) == []
    decreases |feed|
  {
    if feed != [] {
      var init := feed[..|feed| - 1];
      ReconcileEmptyIff(store, normalize, init);
      assert forall j :: 0 <= j < |init| ==> feed[j] == init[j];
    }
  }

  /** When every feed match is stored with a decided outcome there is nothing to do. */
  lemma NothingToDoWhenAllResolved(store: Store, normalize: Normalizer, feed: seq<Match>)
    requires forall j :: 0 <= j < |feed| ==> GameKey(feed[j]) in store && store[GameKey(feed[j])] != Undetermined
    ensures Reconcile(store, normalize, feed) == []
  {
    ReconcileEmptyIff(store, normalize, feed);
  }

  predicate DistinctIds(feed: seq<Match>) {
    forall i, k :: 0 <= i < k < |feed| ==> feed[i].id != feed[k].id
  }

  predicate DistinctKeys(feed: seq<Match>) {
    forall i, k :: 0 <= i < k < |feed| ==> GameKey(feed[i]) != GameKey(feed[k])
  }

  /** Distinct numeric ids give distinct property keys. */
  lemma DistinctIdsDistinctKeys(feed: seq<Match>)
    requires DistinctIds(feed)
    ensures DistinctKeys(feed)
  {
    forall i, k | 0 <= i < k < |feed| ensures GameKey(feed[i]) != GameKey(feed[k]) {
      if GameKey(feed[i]) == GameKey(feed[k]) {
        Decimal.IntToStringInjective(feed[i].id, feed[k].id);
      }
    }
  }

  /** Every listed call targets the id of some feed match. */
  lemma TargetsFeedIds(store: Store, normalize: Normalizer, feed: seq<Match>, op: Op)
    requires op in Reconcile(store, normalize, feed)
    ensures exists j :: 0 <= j < |feed| && GameKey(feed[j]) == op.gameId
  {
    ReconcileOrigin(store, normalize, feed, op);
  }

  /** With distinct feed ids a game gets at most one creation and at most one
      outcome update, the creation first. */
  lemma {:induction false} AtMostOneCallOfEachKind(store: Store, normalize: Normalizer, feed: seq<Match>)
    requires DistinctIds(feed)
    ensures var ops := Reconcile(store, normalize, feed);
            forall i, k :: 0 <= i < k < |ops| && ops[i].gameId == ops[k].gameId
                           ==> ops[i].CreateGame? && ops[k].SetOutcome?
    decreases |feed|
  {
    if feed != [] {
      var init := feed[..|feed| - 1];
      var m := feed[|feed| - 1];
      assert DistinctIds(init);
      AtMostOneCallOfEachKind(store, normalize, init);
      assert var ops := Reconcile(store, normalize, init);
            forall i, k :: 0 <= i < k < |ops| && ops[i].gameId == ops[k].gameId
                           ==> ops[i].CreateGame? && ops[k].SetOutcome?;
      DistinctIdsDistinctKeys(feed);
      var head := Reconcile(store, normalize, init);
      var tail := MatchOps(store, normalize, m);
      var ops := head + tail;
      MatchOpsShape(store, normalize, m);
      forall i, k | 0 <= i < k < |ops|
        ensures ops[i].gameId == ops[k].gameId ==> ops[i].CreateGame? && ops[k].SetOutcome?
      {
        if i < |head| <= k {
          assert ops[i] == head[i] && ops[i] in head;
          TargetsFeedIds(store, normalize, init, ops[i]);
          var j :| 0 <= j < |init| && GameKey(init[j]) == ops[i].gameId;
          assert init[j] == feed[j];
          assert ops[k] == tail[k - |head|] && ops[k] in tail;
          assert ops[k].gameId == GameKey(m) != GameKey(feed[j]);
        } else if |head| <= i {
          assert ops[i] == tail[i - |head|] && ops[k] == tail[k - |head|];
          assert |tail| == 2 && i - |head| == 0 && k - |head| == 1;
          assert tail[0].CreateGame? && tail[1].SetOutcome?;
        } else {
          assert ops[i] == head[i] && ops[k] == head[k];
        }
      }
    }
  }

  /** The snapshot is not updated during the pass, so a feed that repeats an
      unstored id yields the creation twice. */
  lemma RepeatedIdCreatedTwice(store: Store, normalize: Normalizer, m: Match)
    requires GameKey(m) !in store
    ensures var ops := Reconcile(store, normalize, [m, m]);
            0 < |ops| / 2 && ops[0] == NewGame(normalize, m) && ops[|ops| / 2] == NewGame(normalize, m)
  {
    var once := MatchOps(store, normalize, m);
    ReconcileSnoc(store, normalize, [], m);
    assert [] + [m] == [m];
    ReconcileSnoc(store, normalize, [m], m);
    assert [m] + [m] == [m, m];
    var ops := Reconcile(store, normalize, [m, m]);
    assert ops == once + once;
    assert once[0] == NewGame(normalize, m);
    assert 0 < |once| < |ops|;
    assert ops[0] == NewGame(normalize, m) && ops[|once|] == NewGame(normalize, m);
  }
}
