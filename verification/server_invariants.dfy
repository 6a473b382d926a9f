/** Guarantees of the scavenger-hunt engine that span reducer calls: the
    keys the store keeps unique, the single game row, idempotent claims, and
    the ordered-claim invariant (every claim of order k comes with claims of
    all orders 1..k-1). */
module ServerInvariants {
  import opened Common
  import opened Server

  /** What every reachable state satisfies: one game row at most, and unique
      game ids, tag ids and (game, player, tag) claims. */
  ghost predicate Wf(db: Db)
  {
    && |db.games| <= 1
    && GameIdsUnique(db.games)
    && TagIdsUnique(db.tags)
    && ProgressKeysUnique(db.progress)
  }

  /** Per (game, player), the claimed order indices have no gaps below any
      claim. */
  ghost predicate PrefixClosed(progress: seq<Progress>)
  {
    forall p, i :: p in progress && 1 <= i < p.orderIndex ==> HasClaimedOrder(progress, p.gameId, p.playerId, i)
  }

  /** One call of a reducer, with its arguments. */
  datatype Call =
    | CreateGameCall(gameId: string)
    | StartGameCall(gameId: string)
    | EndGameCall(gameId: string)
    | CreateTagCall(gameId: string, tagId: string, orderIndex: int, clue: Option<string>)
    | ActivateTagCall(gameId: string, tagId: string, orderIndex: int, clue: Option<string>)
    | ActivateTagWithLocationCall(
        gameId: string, tagId: string, lat: F64, lon: F64, accuracyM: int,
        activatedBy: string, orderIndex: int, clue: Option<string>)
    | ClaimTagCall(gameId: string, playerId: string, tagId: string)
    | DeleteTagCall(tagId: string)
    | UpsertPlayerCall(playerId: string, name: string, role: Option<string>)

  function Dispatch(db: Db, c: Call): Outcome
  {
    match c
    case CreateGameCall(g) => CreateGame(db, g)
    case StartGameCall(g) => StartGame(db, g)
    case EndGameCall(g) => EndGame(db, g)
    case CreateTagCall(g, t, k, clue) => CreateTag(db, g, t, k, clue)
    case ActivateTagCall(g, t, k, clue) => ActivateTag(db, g, t, k, clue)
    case ActivateTagWithLocationCall(g, t, lat, lon, acc, who, k, clue) =>
      ActivateTagWithLocation(db, g, t, lat, lon, acc, who, k, clue)
    case ClaimTagCall(g, p, t) => ClaimTag(db, g, p, t)
    case DeleteTagCall(t) => DeleteTag(db, t)
    case UpsertPlayerCall(p, name, role) => UpsertPlayer(db, p, name, role)
  }

  /** The state after one call; a refused call leaves it as it was. */
  function Step(db: Db, c: Call): Db
  {
    Commit(db, Dispatch(db, c))
  }

  /** The state after a sequence of calls, first call first. */
  function Replay(db: Db, calls: seq<Call>): Db
    decreases |calls|
  {
    if |calls| == 0 then db else Replay(Step(db, calls[0]), calls[1..])
  }

  // ---------------------------------------------------------------------
  // Well-formedness

  lemma ClaimKeepsProgressKeysUnique(db: Db, gameId: string, playerId: string, tagId: string)
    requires ProgressKeysUnique(db.progress)
    ensures ProgressKeysUnique(Commit(db, ClaimTag(db, gameId, playerId, tagId)).progress)
  {
    var r := ClaimTag(db, gameId, playerId, tagId);
    if r.Ok? && r.value != db {
      var row := r.value.progress[|r.value.progress| - 1];
      assert r.value.progress == db.progress + [row];
      forall y | y in db.progress
        ensures ProgressKey(y) != ProgressKey(row)
      {
        if ProgressKey(y) == ProgressKey(row) {
          assert Claimed(db.progress, gameId, playerId, tagId);
        }
      }
      AppendKeepsUniqueBy(db.progress, row, ProgressKey);
    }
  }

  lemma RestatusKeepsOneGame(db: Db, gameId: string, status: string)
    requires |db.games| <= 1
    ensures |Commit(db, Restatus(db, gameId, status)).games| <= 1
  {
    match FindGame(db.games, gameId)
    case None =>
    case Some(g) =>
      assert db.games == [g];
      assert Remove(db.games, g) == [];
  }

  lemma StepKeepsWf(db: Db, c: Call)
    requires Wf(db)
    ensures Wf(Step(db, c))
  {
    match c
    case CreateGameCall(g) =>
      assert Step(db, c).games == [Game(g, Setup)];
    case StartGameCall(g) =>
      RestatusKeepsOneGame(db, g, Active);
    case EndGameCall(g) =>
      RestatusKeepsOneGame(db, g, Ended);
    case CreateTagCall(g, t, k, clue) =>
    case ActivateTagCall(g, t, k, clue) =>
    case ActivateTagWithLocationCall(g, t, lat, lon, acc, who, k, clue) =>
    case ClaimTagCall(g, p, t) =>
      ClaimKeepsProgressKeysUnique(db, g, p, t);
    case DeleteTagCall(t) =>
    case UpsertPlayerCall(p, name, role) =>
  }

  lemma {:induction false} ReplayKeepsWf(db: Db, calls: seq<Call>)
    requires Wf(db)
    ensures Wf(Replay(db, calls))
    decreases |calls|
  {
    if |calls| > 0 {
      StepKeepsWf(db, calls[0]);
      ReplayKeepsWf(Step(db, calls[0]), calls[1..]);
    }
  }

  /** Every state reachable from the empty store is well formed. */
  lemma ReachableStatesAreWf(calls: seq<Call>)
    ensures Wf(Replay(Empty, calls))
  {
    ReplayKeepsWf(Empty, calls);
  }

  // ---------------------------------------------------------------------
  // Ordered claims

  /** A successful claim appends a row only once all earlier orders are
      claimed, so claims stay gap-free. */
  lemma ClaimKeepsPrefixClosed(db: Db, gameId: string, playerId: string, tagId: string)
    requires PrefixClosed(db.progress)
    ensures PrefixClosed(Commit(db, ClaimTag(db, gameId, playerId, tagId)).progress)
  {
    var r := ClaimTag(db, gameId, playerId, tagId);
    if r.Ok? && r.value != db {
      var after := r.value.progress;
      var row := after[|after| - 1];
      assert after == db.progress + [row];
      forall p, i | p in after && 1 <= i < p.orderIndex
        ensures HasClaimedOrder(after, p.gameId, p.playerId, i)
      {
        if p == row {
          assert HasClaimedOrder(db.progress, gameId, playerId, i);
          var q :| q in db.progress && q.gameId == gameId && q.playerId == playerId && q.orderIndex == i;
          assert q in after;
        } else {
          assert p in db.progress;
          assert HasClaimedOrder(db.progress, p.gameId, p.playerId, i);
          var q :| q in db.progress && q.gameId == p.gameId && q.playerId == p.playerId && q.orderIndex == i;
          assert q in after;
        }
      }
    }
  }

  /** Every reducer except tag deletion keeps claims gap-free. */
  lemma StepKeepsPrefixClosed(db: Db, c: Call)
    requires PrefixClosed(db.progress)
    requires !c.DeleteTagCall?
    ensures PrefixClosed(Step(db, c).progress)
  {
    if c.CreateGameCall? {
      assert Step(db, c).progress == [];
    } else if c.ClaimTagCall? {
      ClaimKeepsPrefixClosed(db, c.gameId, c.playerId, c.tagId);
    } else {
      assert Step(db, c).progress == db.progress;
    }
  }

  lemma {:induction false} ReplayKeepsPrefixClosed(db: Db, calls: seq<Call>)
    requires PrefixClosed(db.progress)
    requires forall i :: 0 <= i < |calls| ==> !calls[i].DeleteTagCall?
    ensures PrefixClosed(Replay(db, calls).progress)
    decreases |calls|
  {
    if |calls| > 0 {
      StepKeepsPrefixClosed(db, calls[0]);
      ReplayKeepsPrefixClosed(Step(db, calls[0]), calls[1..]);
    }
  }

  /** Deleting a tag drops its claims but not the later claims that relied
      on it, so the ordered-claim invariant does not survive it. */
  lemma DeleteTagCanBreakPrefixClosure()
    ensures exists db: Db, tagId: string ::
              Wf(db) && PrefixClosed(db.progress) && !PrefixClosed(Commit(db, DeleteTag(db, tagId)).progress)
  {
    var t1 := Tag("t1", "g", true, 1, None, None, None, None, None, None);
    var t2 := Tag("t2", "g", true, 2, None, None, None, None, None, None);
    var c1 := Progress("g", "p", "t1", 1, 0);
    var c2 := Progress("g", "p", "t2", 2, 0);
    var db := Db([Game("g", Active)], [t1, t2], [], [c1, c2]);
    assert HasClaimedOrder(db.progress, "g", "p", 1);
    assert PrefixClosed(db.progress);
    assert TagKey(t1) != TagKey(t2);
    assert ProgressKey(c1) != ProgressKey(c2);
    var r := DeleteTag(db, "t1");
    assert r.Ok?;
    var after := r.value.progress;
    assert c2 in after;
    assert !HasClaimedOrder(after, "g", "p", 1);
    assert Wf(db);
  }

  /** Claiming again what was just claimed succeeds without another row. */
  lemma ClaimIsIdempotent(db: Db, gameId: string, playerId: string, tagId: string)
    ensures var r := ClaimTag(db, gameId, playerId, tagId);
            r.Ok? ==> ClaimTag(r.value, gameId, playerId, tagId) == Ok(r.value)
  {
    var r := ClaimTag(db, gameId, playerId, tagId);
    if r.Ok? && r.value != db {
      var row := r.value.progress[|r.value.progress| - 1];
      assert row in r.value.progress;
      assert Claimed(r.value.progress, gameId, playerId, tagId);
    }
  }

  /** A tag at order 1 (or below) has no prerequisite: on a running game and
      an active tag, a first claim always succeeds. */
  lemma FirstOrderNeedsNoPrerequisite(db: Db, gameId: string, playerId: string, tagId: string)
    requires Claimable(db, gameId, tagId)
    requires FindTagInGame(db.tags, tagId, gameId).value.orderIndex <= 1
    ensures ClaimTag(db, gameId, playerId, tagId).Ok?
  {
  }

  /** Registering the same player twice leaves the store as registering once;
      the role plays no part. */
  lemma UpsertPlayerIsIdempotent(db: Db, playerId: string, name: string, role: Option<string>, role': Option<string>)
    ensures var once := Commit(db, UpsertPlayer(db, playerId, name, role));
            UpsertPlayer(once, playerId, name, role') == Ok(once)
  {
  }

  /** A claim never removes rows and adds at most one. */
  lemma ClaimGrowsProgressByAtMostOne(db: Db, gameId: string, playerId: string, tagId: string)
    ensures var after := Commit(db, ClaimTag(db, gameId, playerId, tagId)).progress;
            |db.progress| <= |after| <= |db.progress| + 1 && after[..|db.progress|] == db.progress
  {
  }
}
