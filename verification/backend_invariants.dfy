/** Guarantees of the numeric-id engine across reducer calls: ids are row
    numbers (so each new id is fresh and every insert goes through), join
    codes are distinct, checkpoints are unique per game by NFC uid and by
    order, each player's counters move in lockstep, and the checkpoints a
    player scanned in a game are exactly orders 1, 2, ..., in that order. */
module BackendInvariants {
  import opened Common
  import Format
  import opened Backend

  function GameIdOf(g: Game): nat { g.gameId }
  function PlayerIdOf(p: Player): nat { p.playerId }
  function PlayerGameIdOf(pg: PlayerGame): nat { pg.playerGameId }
  function CheckpointIdOf(c: Checkpoint): nat { c.checkpointId }
  function ScanIdOf(e: ScanEvent): nat { e.scanId }

  /** Row i carries id i + 1. */
  ghost predicate RowNumbered<T>(s: seq<T>, id: T -> nat)
  {
    forall i :: 0 <= i < |s| ==> id(s[i]) == i + 1
  }

  ghost predicate IdsAreRowNumbers(db: Db)
  {
    && RowNumbered(db.games, GameIdOf)
    && RowNumbered(db.players, PlayerIdOf)
    && RowNumbered(db.playerGames, PlayerGameIdOf)
    && RowNumbered(db.checkpoints, CheckpointIdOf)
    && RowNumbered(db.scanEvents, ScanIdOf)
  }

  /** Game i got its code when i games existed. */
  ghost predicate CodesByRow(games: seq<Game>)
  {
    forall i :: 0 <= i < |games| ==> games[i].code == GameCode(i)
  }

  /** Within a game, orders are at least 1, and no two checkpoints share an
      NFC uid or an order. */
  ghost predicate CheckpointsWellFormed(checkpoints: seq<Checkpoint>)
  {
    && (forall i :: 0 <= i < |checkpoints| ==> checkpoints[i].orderIndex >= 1)
    && (forall i, j :: 0 <= i < j < |checkpoints| && checkpoints[i].gameId == checkpoints[j].gameId ==>
          checkpoints[i].nfcUid != checkpoints[j].nfcUid && checkpoints[i].orderIndex != checkpoints[j].orderIndex)
  }

  ghost predicate CountersInLockstep(playerGames: seq<PlayerGame>)
  {
    forall i :: 0 <= i < |playerGames| ==> playerGames[i].nextRequired == playerGames[i].checkpointsScanned + 1
  }

  /** Progress rows name existing players, one row per player. */
  ghost predicate OneProgressRowPerPlayer(db: Db)
  {
    && (forall i :: 0 <= i < |db.playerGames| ==> 1 <= db.playerGames[i].playerId <= |db.players|)
    && (forall i, j :: 0 <= i < j < |db.playerGames| ==> db.playerGames[i].playerId != db.playerGames[j].playerId)
  }

  ghost predicate ScansReferenceRows(db: Db)
  {
    forall i :: 0 <= i < |db.scanEvents| ==>
      1 <= db.scanEvents[i].playerId <= |db.players| && 1 <= db.scanEvents[i].checkpointId <= |db.checkpoints|
  }

  /** The order index of the checkpoint with this id (0 when none has it). */
  function CheckpointOrder(checkpoints: seq<Checkpoint>, checkpointId: nat): nat
  {
    match Find(checkpoints, (c: Checkpoint) => c.checkpointId == checkpointId)
    case Some(c) => c.orderIndex
    case None => 0
  }

  /** Orders of the checkpoints the player scanned in the game, in scan order. */
  function ScannedOrders(scanEvents: seq<ScanEvent>, checkpoints: seq<Checkpoint>, playerId: nat, gameId: nat): seq<nat>
    decreases |scanEvents|
  {
    if |scanEvents| == 0 then []
    else
      var e := scanEvents[|scanEvents| - 1];
      ScannedOrders(scanEvents[..|scanEvents| - 1], checkpoints, playerId, gameId)
        + (if e.playerId == playerId && e.gameId == gameId then [CheckpointOrder(checkpoints, e.checkpointId)] else [])
  }

  /** 1, 2, ..., n. */
  function Iota(n: nat): (s: seq<nat>)
    ensures |s| == n && forall i :: 0 <= i < n ==> s[i] == i + 1
  {
    seq(n, i => i + 1)
  }

  /** Each player's scans in a game hit orders 1, 2, ..., checkpointsScanned. */
  ghost predicate ScansInSequence(db: Db)
  {
    forall i :: 0 <= i < |db.playerGames| ==>
      ScannedOrders(db.scanEvents, db.checkpoints, db.playerGames[i].playerId, db.playerGames[i].gameId)
        == Iota(db.playerGames[i].checkpointsScanned)
  }

  ghost predicate Wf(db: Db)
  {
    && IdsAreRowNumbers(db)
    && CodesByRow(db.games)
    && CheckpointsWellFormed(db.checkpoints)
    && CountersInLockstep(db.playerGames)
    && OneProgressRowPerPlayer(db)
    && ScansReferenceRows(db)
    && ScansInSequence(db)
  }

  // ---------------------------------------------------------------------
  // Ids and codes

  /** With row-numbered ids, no row has the next id. */
  lemma NextIdIsFresh<T>(s: seq<T>, id: T -> nat)
    requires RowNumbered(s, id)
    ensures forall x :: x in s ==> id(x) < NextId(s)
  {
    forall x | x in s
      ensures id(x) < NextId(s)
    {
      var i :| 0 <= i < |s| && s[i] == x;
    }
  }

  lemma AppendKeepsRowNumbered<T>(s: seq<T>, x: T, id: T -> nat)
    requires RowNumbered(s, id) && id(x) == NextId(s)
    ensures RowNumbered(s + [x], id)
  {
    forall i | 0 <= i < |s + [x]|
      ensures id((s + [x])[i]) == i + 1
    {
      if i < |s| {
        assert (s + [x])[i] == s[i];
      }
    }
  }

  /** Different game counts give different join codes. */
  lemma GameCodeInjective(a: nat, b: nat)
    requires GameCode(a) == GameCode(b)
    ensures a == b
  {
    GameCodeShape(a);
    GameCodeShape(b);
    assert GameCode(a)[4..] == GameCode(b)[4..];
  }

  lemma NewGameIsFresh(db: Db)
    requires RowNumbered(db.games, GameIdOf) && CodesByRow(db.games)
    ensures forall g :: g in db.games ==> g.gameId != |db.games| + 1 && g.code != GameCode(|db.games|)
  {
    forall g | g in db.games
      ensures g.gameId != |db.games| + 1 && g.code != GameCode(|db.games|)
    {
      var i :| 0 <= i < |db.games| && db.games[i] == g;
      assert GameIdOf(db.games[i]) == i + 1;
      assert g.code == GameCode(i);
      if g.code == GameCode(|db.games|) {
        GameCodeInjective(i, |db.games|);
      }
    }
  }

  /** Join codes of well-formed games are pairwise distinct, so a code finds
      one game. */
  lemma CodesAreDistinct(games: seq<Game>, i: nat, j: nat)
    requires CodesByRow(games)
    requires i < j < |games|
    ensures games[i].code != games[j].code
  {
    if games[i].code == games[j].code {
      GameCodeInjective(i, j);
    }
  }

  // ---------------------------------------------------------------------
  // Scanned orders

  lemma ScannedOrdersAppend(ses: seq<ScanEvent>, e: ScanEvent, cps: seq<Checkpoint>, playerId: nat, gameId: nat)
    ensures ScannedOrders(ses + [e], cps, playerId, gameId)
         == ScannedOrders(ses, cps, playerId, gameId)
              + (if e.playerId == playerId && e.gameId == gameId then [CheckpointOrder(cps, e.checkpointId)] else [])
  {
    assert (ses + [e])[..|ses|] == ses;
  }

  lemma {:induction false} ScannedOrdersOfStranger(ses: seq<ScanEvent>, cps: seq<Checkpoint>, playerId: nat, gameId: nat)
    requires forall i :: 0 <= i < |ses| ==> ses[i].playerId != playerId
    ensures ScannedOrders(ses, cps, playerId, gameId) == []
    decreases |ses|
  {
    if |ses| > 0 {
      ScannedOrdersOfStranger(ses[..|ses| - 1], cps, playerId, gameId);
    }
  }

  /** With row-numbered checkpoints, the checkpoint with id k is row k - 1. */
  lemma CheckpointOrderByRow(cps: seq<Checkpoint>, checkpointId: nat)
    requires RowNumbered(cps, CheckpointIdOf)
    requires 1 <= checkpointId <= |cps|
    ensures CheckpointOrder(cps, checkpointId) == cps[checkpointId - 1].orderIndex
  {
    var p := (c: Checkpoint) => c.checkpointId == checkpointId;
    assert CheckpointIdOf(cps[checkpointId - 1]) == checkpointId;
    var r := FindIndex(cps, p);
    assert r.Some?;
    assert CheckpointIdOf(cps[r.value]) == r.value + 1;
  }

  lemma {:induction false} ScannedOrdersIgnoreNewCheckpoint(
    ses: seq<ScanEvent>, cps: seq<Checkpoint>, c: Checkpoint, playerId: nat, gameId: nat)
    requires RowNumbered(cps, CheckpointIdOf) && RowNumbered(cps + [c], CheckpointIdOf)
    requires forall i :: 0 <= i < |ses| ==> 1 <= ses[i].checkpointId <= |cps|
    ensures ScannedOrders(ses, cps + [c], playerId, gameId) == ScannedOrders(ses, cps, playerId, gameId)
    decreases |ses|
  {
    if |ses| > 0 {
      var e := ses[|ses| - 1];
      ScannedOrdersIgnoreNewCheckpoint(ses[..|ses| - 1], cps, c, playerId, gameId);
      CheckpointOrderByRow(cps, e.checkpointId);
      CheckpointOrderByRow(cps + [c], e.checkpointId);
      assert (cps + [c])[e.checkpointId - 1] == cps[e.checkpointId - 1];
    }
  }

  // ---------------------------------------------------------------------
  // Each reducer keeps the invariant, and on a well-formed state its inserts
  // never clash.

  lemma AddGameKeepsCodesByRow(games: seq<Game>, g: Game)
    requires CodesByRow(games) && g.code == GameCode(|games|)
    ensures CodesByRow(games + [g])
  {
    var r := games + [g];
    forall i | 0 <= i < |r|
      ensures r[i].code == GameCode(i)
    {
      if i < |games| {
        assert r[i] == games[i];
      }
    }
  }

  /** Appending the game numbered and coded for the next row keeps the
      invariant. */
  lemma AddGameKeepsWf(db: Db, g: Game)
    requires Wf(db)
    requires g.gameId == |db.games| + 1 && g.code == GameCode(|db.games|)
    ensures Wf(db.(games := db.games + [g]))
  {
    AppendKeepsRowNumbered(db.games, g, GameIdOf);
    AddGameKeepsCodesByRow(db.games, g);
  }

  /** With ids and codes by row, create_game always appends its game. */
  lemma CreateGameAppends(db: Db, name: string, now: Timestamp)
    requires RowNumbered(db.games, GameIdOf) && CodesByRow(db.games)
    ensures CreateGame(db, name, now)
         == db.(games := db.games + [Game(|db.games| + 1, GameCode(|db.games|), name, now, true)])
  {
    NewGameIsFresh(db);
  }

  /** On a well-formed state a new game is always added. */
  lemma CreateGameKeepsWf(db: Db, name: string, now: Timestamp)
    requires Wf(db)
    ensures CreateGame(db, name, now).games == db.games + [Game(|db.games| + 1, GameCode(|db.games|), name, now, true)]
    ensures Wf(CreateGame(db, name, now))
  {
    CreateGameAppends(db, name, now);
    AddGameKeepsWf(db, Game(|db.games| + 1, GameCode(|db.games|), name, now, true));
  }

  lemma AddCheckpointKeepsWellFormed(cps: seq<Checkpoint>, c: Checkpoint)
    requires CheckpointsWellFormed(cps)
    requires c.orderIndex >= 1 && !CheckpointClash(cps, c.gameId, c.nfcUid, c.orderIndex)
    ensures CheckpointsWellFormed(cps + [c])
  {
    var r := cps + [c];
    forall i, j | 0 <= i < j < |r| && r[i].gameId == r[j].gameId
      ensures r[i].nfcUid != r[j].nfcUid && r[i].orderIndex != r[j].orderIndex
    {
      assert r[i] == cps[i];
      if j < |cps| {
        assert r[j] == cps[j];
      } else {
        assert r[i] in cps;
      }
    }
    forall i | 0 <= i < |r|
      ensures r[i].orderIndex >= 1
    {
      if i < |cps| {
        assert r[i] == cps[i];
      }
    }
  }

  lemma AddCheckpointKeepsScansInSequence(db: Db, c: Checkpoint)
    requires RowNumbered(db.checkpoints, CheckpointIdOf) && c.checkpointId == |db.checkpoints| + 1
    requires ScansReferenceRows(db) && ScansInSequence(db)
    ensures ScansInSequence(db.(checkpoints := db.checkpoints + [c]))
  {
    AppendKeepsRowNumbered(db.checkpoints, c, CheckpointIdOf);
    var r := db.(checkpoints := db.checkpoints + [c]);
    forall i | 0 <= i < |r.playerGames|
      ensures ScannedOrders(r.scanEvents, r.checkpoints, r.playerGames[i].playerId, r.playerGames[i].gameId)
           == Iota(r.playerGames[i].checkpointsScanned)
    {
      ScannedOrdersIgnoreNewCheckpoint(db.scanEvents, db.checkpoints, c,
        db.playerGames[i].playerId, db.playerGames[i].gameId);
    }
  }

  lemma AddCheckpointKeepsWf(db: Db, c: Checkpoint)
    requires Wf(db)
    requires c.checkpointId == |db.checkpoints| + 1
    requires c.orderIndex >= 1 && !CheckpointClash(db.checkpoints, c.gameId, c.nfcUid, c.orderIndex)
    ensures Wf(db.(checkpoints := db.checkpoints + [c]))
  {
    AppendKeepsRowNumbered(db.checkpoints, c, CheckpointIdOf);
    AddCheckpointKeepsWellFormed(db.checkpoints, c);
    AddCheckpointKeepsScansInSequence(db, c);
  }

  /** With row-numbered checkpoints, a checkpoint with a positive order, a
      known game code and no clash in its game is always appended. */
  lemma RegisterCheckpointAppends(
    db: Db, gameCode: string, nfcUid: string, locationName: string, orderIndex: nat, now: Timestamp)
    requires RowNumbered(db.checkpoints, CheckpointIdOf)
    requires orderIndex != 0 && FindGameByCode(db.games, gameCode).Some?
    requires !CheckpointClash(db.checkpoints, FindGameByCode(db.games, gameCode).value.gameId, nfcUid, orderIndex)
    ensures RegisterCheckpoint(db, gameCode, nfcUid, locationName, orderIndex, now)
         == db.(checkpoints := db.checkpoints + [Checkpoint(|db.checkpoints| + 1,
              FindGameByCode(db.games, gameCode).value.gameId, nfcUid, locationName, orderIndex, now)])
  {
    NextIdIsFresh(db.checkpoints, CheckpointIdOf);
    assert forall c :: c in db.checkpoints ==> c.checkpointId != |db.checkpoints| + 1;
  }

  /** On a well-formed state a checkpoint with a positive order, a known game
      code and no clash in its game is always added. */
  lemma RegisterCheckpointKeepsWf(
    db: Db, gameCode: string, nfcUid: string, locationName: string, orderIndex: nat, now: Timestamp)
    requires Wf(db)
    ensures (orderIndex != 0 && FindGameByCode(db.games, gameCode).Some?
              && !CheckpointClash(db.checkpoints, FindGameByCode(db.games, gameCode).value.gameId, nfcUid, orderIndex))
            ==> RegisterCheckpoint(db, gameCode, nfcUid, locationName, orderIndex, now) != db
    ensures Wf(RegisterCheckpoint(db, gameCode, nfcUid, locationName, orderIndex, now))
  {
    var game := FindGameByCode(db.games, gameCode);
    if orderIndex != 0 && game.Some? && !CheckpointClash(db.checkpoints, game.value.gameId, nfcUid, orderIndex) {
      var c := Checkpoint(|db.checkpoints| + 1, game.value.gameId, nfcUid, locationName, orderIndex, now);
      RegisterCheckpointAppends(db, gameCode, nfcUid, locationName, orderIndex, now);
      AddCheckpointKeepsWf(db, c);
      assert |db.checkpoints + [c]| != |db.checkpoints|;
    }
  }

  /** The state after a new player `p` and their progress row `pg` are added. */
  function WithNewPlayer(db: Db, p: Player, pg: PlayerGame): Db
  {
    db.(players := db.players + [p], playerGames := db.playerGames + [pg])
  }

  lemma NewPlayerKeepsOneRowPerPlayer(db: Db, p: Player, pg: PlayerGame)
    requires OneProgressRowPerPlayer(db)
    requires pg.playerId == p.playerId == |db.players| + 1
    ensures OneProgressRowPerPlayer(WithNewPlayer(db, p, pg))
  {
    var pgs := db.playerGames + [pg];
    forall i, j | 0 <= i < j < |pgs|
      ensures pgs[i].playerId != pgs[j].playerId
    {
      assert pgs[i] == db.playerGames[i];
      if j < |db.playerGames| {
        assert pgs[j] == db.playerGames[j];
      }
    }
    forall i | 0 <= i < |pgs|
      ensures 1 <= pgs[i].playerId <= |db.players| + 1
    {
      if i < |db.playerGames| {
        assert pgs[i] == db.playerGames[i];
      }
    }
  }

  lemma NewPlayerKeepsScansInSequence(db: Db, p: Player, pg: PlayerGame)
    requires ScansReferenceRows(db) && ScansInSequence(db)
    requires pg.playerId == |db.players| + 1 && pg.checkpointsScanned == 0
    ensures ScansInSequence(WithNewPlayer(db, p, pg))
  {
    var r := WithNewPlayer(db, p, pg);
    forall i | 0 <= i < |r.playerGames|
      ensures ScannedOrders(r.scanEvents, r.checkpoints, r.playerGames[i].playerId, r.playerGames[i].gameId)
           == Iota(r.playerGames[i].checkpointsScanned)
    {
      if i < |db.playerGames| {
        assert r.playerGames[i] == db.playerGames[i];
      } else {
        ScannedOrdersOfStranger(db.scanEvents, db.checkpoints, pg.playerId, pg.gameId);
      }
    }
  }

  lemma NewPlayerKeepsWf(db: Db, p: Player, pg: PlayerGame)
    requires Wf(db)
    requires p.playerId == |db.players| + 1
    requires pg.playerGameId == |db.playerGames| + 1 && pg.playerId == p.playerId
    requires pg.checkpointsScanned == 0 && pg.nextRequired == 1
    ensures Wf(WithNewPlayer(db, p, pg))
  {
    var r := WithNewPlayer(db, p, pg);
    AppendKeepsRowNumbered(db.players, p, PlayerIdOf);
    AppendKeepsRowNumbered(db.playerGames, pg, PlayerGameIdOf);
    NewPlayerKeepsOneRowPerPlayer(db, p, pg);
    NewPlayerKeepsScansInSequence(db, p, pg);
    assert CountersInLockstep(r.playerGames) by {
      forall i | 0 <= i < |r.playerGames|
        ensures r.playerGames[i].nextRequired == r.playerGames[i].checkpointsScanned + 1
      {
        if i < |db.playerGames| {
          assert r.playerGames[i] == db.playerGames[i];
        }
      }
    }
  }

  /** With row-numbered players and progress rows, joining an active game
      adds exactly the new player and their progress row. */
  lemma JoinGameAddsPlayer(db: Db, gameCode: string, displayName: string, now: Timestamp)
    requires RowNumbered(db.players, PlayerIdOf) && RowNumbered(db.playerGames, PlayerGameIdOf)
    requires FindGameByCode(db.games, gameCode).Some? && FindGameByCode(db.games, gameCode).value.isActive
    ensures JoinGame(db, gameCode, displayName, now)
         == WithNewPlayer(db, Player(|db.players| + 1, displayName, now),
              PlayerGame(|db.playerGames| + 1, |db.players| + 1, FindGameByCode(db.games, gameCode).value.gameId, now, 0, None, 1))
  {
    NextIdIsFresh(db.players, PlayerIdOf);
    NextIdIsFresh(db.playerGames, PlayerGameIdOf);
  }

  /** On a well-formed state, joining an active game always adds the player
      and their progress row at no scans, checkpoint 1 next. */
  lemma JoinGameKeepsWf(db: Db, gameCode: string, displayName: string, now: Timestamp)
    requires Wf(db)
    ensures (FindGameByCode(db.games, gameCode).Some? && FindGameByCode(db.games, gameCode).value.isActive) ==>
              JoinGame(db, gameCode, displayName, now).playerGames == db.playerGames +
                [PlayerGame(|db.playerGames| + 1, |db.players| + 1, FindGameByCode(db.games, gameCode).value.gameId, now, 0, None, 1)]
    ensures Wf(JoinGame(db, gameCode, displayName, now))
  {
    var game := FindGameByCode(db.games, gameCode);
    if game.Some? && game.value.isActive {
      var p := Player(|db.players| + 1, displayName, now);
      var pg := PlayerGame(|db.playerGames| + 1, p.playerId, game.value.gameId, now, 0, None, 1);
      JoinGameAddsPlayer(db, gameCode, displayName, now);
      NewPlayerKeepsWf(db, p, pg);
    }
  }

  /** A scan event of the player in the game contributes its checkpoint's
      order to the scanned orders. */
  lemma {:induction false} ScannedOrdersContain(
    ses: seq<ScanEvent>, cps: seq<Checkpoint>, playerId: nat, gameId: nat, n: nat)
    requires n < |ses| && ses[n].playerId == playerId && ses[n].gameId == gameId
    ensures CheckpointOrder(cps, ses[n].checkpointId) in ScannedOrders(ses, cps, playerId, gameId)
    decreases |ses|
  {
    if n < |ses| - 1 {
      var prefix := ses[..|ses| - 1];
      assert prefix[n] == ses[n];
      ScannedOrdersContain(prefix, cps, playerId, gameId, n);
    }
  }

  /** Under the invariant the already-scanned check never fires: the
      checkpoint a player needs next is one they have not scanned. */
  lemma AlreadyScannedNeverFires(db: Db, k: nat, c: nat)
    requires Wf(db)
    requires k < |db.playerGames| && c < |db.checkpoints|
    requires db.checkpoints[c].orderIndex == db.playerGames[k].nextRequired
    ensures !AlreadyScanned(db.scanEvents, db.playerGames[k].gameId, db.playerGames[k].playerId, c + 1)
  {
    var pg := db.playerGames[k];
    if AlreadyScanned(db.scanEvents, pg.gameId, pg.playerId, c + 1) {
      var e :| e in db.scanEvents && e.gameId == pg.gameId && e.playerId == pg.playerId && e.checkpointId == c + 1;
      var n :| 0 <= n < |db.scanEvents| && db.scanEvents[n] == e;
      ScannedOrdersContain(db.scanEvents, db.checkpoints, pg.playerId, pg.gameId, n);
      CheckpointOrderByRow(db.checkpoints, c + 1);
    }
  }

  /** The state after player row `k` scanned checkpoint row `c`. */
  function WithScan(db: Db, k: nat, c: nat, token: string, now: Timestamp): Db
    requires k < |db.playerGames| && c < |db.checkpoints|
  {
    var pg := db.playerGames[k];
    var e := ScanEvent(|db.scanEvents| + 1, pg.gameId, pg.playerId, c + 1, now, token);
    db.(scanEvents := db.scanEvents + [e], playerGames := db.playerGames[k := Advance(pg, now)])
  }

  lemma ScanKeepsScansInSequence(db: Db, k: nat, c: nat, token: string, now: Timestamp)
    requires RowNumbered(db.checkpoints, CheckpointIdOf) && CountersInLockstep(db.playerGames)
    requires OneProgressRowPerPlayer(db) && ScansInSequence(db)
    requires k < |db.playerGames| && c < |db.checkpoints|
    requires db.checkpoints[c].orderIndex == db.playerGames[k].nextRequired
    ensures ScansInSequence(WithScan(db, k, c, token, now))
  {
    var r := WithScan(db, k, c, token, now);
    var pg := db.playerGames[k];
    var e := ScanEvent(|db.scanEvents| + 1, pg.gameId, pg.playerId, c + 1, now, token);
    assert r.scanEvents == db.scanEvents + [e];
    var pgs := r.playerGames;
    forall i | 0 <= i < |pgs|
      ensures ScannedOrders(r.scanEvents, r.checkpoints, pgs[i].playerId, pgs[i].gameId)
           == Iota(pgs[i].checkpointsScanned)
    {
      ScannedOrdersAppend(db.scanEvents, e, db.checkpoints, pgs[i].playerId, pgs[i].gameId);
      if i == k {
        CheckpointOrderByRow(db.checkpoints, c + 1);
        assert Iota(pg.checkpointsScanned) + [pg.checkpointsScanned + 1] == Iota(pg.checkpointsScanned + 1);
      } else {
        assert pgs[i] == db.playerGames[i];
        assert pgs[i].playerId != pg.playerId by {
          if i < k {
            assert db.playerGames[i].playerId != db.playerGames[k].playerId;
          } else {
            assert db.playerGames[k].playerId != db.playerGames[i].playerId;
          }
        }
      }
    }
  }

  lemma ScanKeepsWf(db: Db, k: nat, c: nat, token: string, now: Timestamp)
    requires Wf(db)
    requires k < |db.playerGames| && c < |db.checkpoints|
    requires db.checkpoints[c].orderIndex == db.playerGames[k].nextRequired
    ensures Wf(WithScan(db, k, c, token, now))
  {
    var r := WithScan(db, k, c, token, now);
    var pg := db.playerGames[k];
    var e := ScanEvent(|db.scanEvents| + 1, pg.gameId, pg.playerId, c + 1, now, token);
    var pgs := r.playerGames;
    AppendKeepsRowNumbered(db.scanEvents, e, ScanIdOf);
    ScanKeepsScansInSequence(db, k, c, token, now);
    assert RowNumbered(pgs, PlayerGameIdOf) by {
      forall i | 0 <= i < |pgs|
        ensures PlayerGameIdOf(pgs[i]) == i + 1
      {
        assert PlayerGameIdOf(db.playerGames[i]) == i + 1;
      }
    }
    assert OneProgressRowPerPlayer(r) by {
      forall i, j | 0 <= i < j < |pgs|
        ensures pgs[i].playerId != pgs[j].playerId
      {
        assert pgs[i].playerId == db.playerGames[i].playerId;
        assert pgs[j].playerId == db.playerGames[j].playerId;
      }
      forall i | 0 <= i < |pgs|
        ensures 1 <= pgs[i].playerId <= |r.players|
      {
        assert pgs[i].playerId == db.playerGames[i].playerId;
      }
    }
    assert CountersInLockstep(pgs) by {
      forall i | 0 <= i < |pgs|
        ensures pgs[i].nextRequired == pgs[i].checkpointsScanned + 1
      {
        if i != k {
          assert pgs[i] == db.playerGames[i];
        }
      }
    }
    assert ScansReferenceRows(r) by {
      assert 1 <= pg.playerId <= |db.players|;
      forall i | 0 <= i < |r.scanEvents|
        ensures 1 <= r.scanEvents[i].playerId <= |r.players| && 1 <= r.scanEvents[i].checkpointId <= |r.checkpoints|
      {
        if i < |db.scanEvents| {
          assert r.scanEvents[i] == db.scanEvents[i];
        }
      }
    }
  }

  /** With row-numbered checkpoints and scan events, a scan of checkpoint
      row `c`, the one player row `k` needs next and has not scanned, is
      recorded as exactly one event and one advanced progress row. */
  lemma ScanCheckpointRecordsScan(
    db: Db, playerId: nat, gameCode: string, nfcUid: string, clientToken: string, now: Timestamp, k: nat, c: nat)
    requires RowNumbered(db.checkpoints, CheckpointIdOf) && RowNumbered(db.scanEvents, ScanIdOf)
    requires FindGameByCode(db.games, gameCode).Some? && FindGameByCode(db.games, gameCode).value.isActive
    requires c < |db.checkpoints|
    requires FindCheckpoint(db.checkpoints, FindGameByCode(db.games, gameCode).value.gameId, nfcUid) == Some(db.checkpoints[c])
    requires FindPlayerGame(db.playerGames, playerId, FindGameByCode(db.games, gameCode).value.gameId) == Some(k)
    requires db.checkpoints[c].orderIndex == db.playerGames[k].nextRequired
    requires !AlreadyScanned(db.scanEvents, db.playerGames[k].gameId, db.playerGames[k].playerId, c + 1)
    ensures ScanCheckpoint(db, playerId, gameCode, nfcUid, clientToken, now) == WithScan(db, k, c, clientToken, now)
  {
    NextIdIsFresh(db.scanEvents, ScanIdOf);
    assert CheckpointIdOf(db.checkpoints[c]) == c + 1;
  }

  /** On a well-formed state a scan of the checkpoint the player needs next
      is always recorded, and the invariant, counters included, survives. */
  lemma ScanCheckpointKeepsWf(
    db: Db, playerId: nat, gameCode: string, nfcUid: string, clientToken: string, now: Timestamp)
    requires Wf(db)
    ensures var game := FindGameByCode(db.games, gameCode);
            game.Some? && game.value.isActive ==>
              var cp := FindCheckpoint(db.checkpoints, game.value.gameId, nfcUid);
              var k := FindPlayerGame(db.playerGames, playerId, game.value.gameId);
              cp.Some? && k.Some? && cp.value.orderIndex == db.playerGames[k.value].nextRequired ==>
                ScanCheckpoint(db, playerId, gameCode, nfcUid, clientToken, now) != db
    ensures Wf(ScanCheckpoint(db, playerId, gameCode, nfcUid, clientToken, now))
  {
    var r := ScanCheckpoint(db, playerId, gameCode, nfcUid, clientToken, now);
    var game := FindGameByCode(db.games, gameCode);
    if game.Some? && game.value.isActive {
      var cp := FindCheckpoint(db.checkpoints, game.value.gameId, nfcUid);
      var k := FindPlayerGame(db.playerGames, playerId, game.value.gameId);
      if cp.Some? && k.Some? && cp.value.orderIndex == db.playerGames[k.value].nextRequired {
        var c :| 0 <= c < |db.checkpoints| && db.checkpoints[c] == cp.value;
        AlreadyScannedNeverFires(db, k.value, c);
        ScanCheckpointRecordsScan(db, playerId, gameCode, nfcUid, clientToken, now, k.value, c);
        ScanKeepsWf(db, k.value, c, clientToken, now);
        assert r.scanEvents != db.scanEvents by {
          assert |r.scanEvents| == |db.scanEvents| + 1;
        }
      }
    }
  }

  // ---------------------------------------------------------------------
  // Sequences of calls

  /** One call of a reducer, with its arguments. */
  datatype Call =
    | CreateGameCall(name: string, now: Timestamp)
    | RegisterCheckpointCall(gameCode: string, nfcUid: string, locationName: string, orderIndex: nat, now: Timestamp)
    | JoinGameCall(gameCode: string, displayName: string, now: Timestamp)
    | ScanCheckpointCall(playerId: nat, gameCode: string, nfcUid: string, clientToken: string, now: Timestamp)

  function Step(db: Db, c: Call): Db
  {
    match c
    case CreateGameCall(name, now) => CreateGame(db, name, now)
    case RegisterCheckpointCall(code, uid, loc, k, now) => RegisterCheckpoint(db, code, uid, loc, k, now)
    case JoinGameCall(code, name, now) => JoinGame(db, code, name, now)
    case ScanCheckpointCall(p, code, uid, token, now) => ScanCheckpoint(db, p, code, uid, token, now)
  }

  function Replay(db: Db, calls: seq<Call>): Db
    decreases |calls|
  {
    if |calls| == 0 then db else Replay(Step(db, calls[0]), calls[1..])
  }

  lemma CreateGameStepKeepsWf(db: Db, c: Call)
    requires Wf(db) && c.CreateGameCall?
    ensures Wf(Step(db, c))
  {
    CreateGameKeepsWf(db, c.name, c.now);
  }

  lemma RegisterCheckpointStepKeepsWf(db: Db, c: Call)
    requires Wf(db) && c.RegisterCheckpointCall?
    ensures Wf(Step(db, c))
  {
    RegisterCheckpointKeepsWf(db, c.gameCode, c.nfcUid, c.locationName, c.orderIndex, c.now);
  }

  lemma JoinGameStepKeepsWf(db: Db, c: Call)
    requires Wf(db) && c.JoinGameCall?
    ensures Wf(Step(db, c))
  {
    JoinGameKeepsWf(db, c.gameCode, c.displayName, c.now);
  }

  lemma ScanCheckpointStepKeepsWf(db: Db, c: Call)
    requires Wf(db) && c.ScanCheckpointCall?
    ensures Wf(Step(db, c))
  {
    ScanCheckpointKeepsWf(db, c.playerId, c.gameCode, c.nfcUid, c.clientToken, c.now);
  }

  lemma StepKeepsWf(db: Db, c: Call)
    requires Wf(db)
    ensures Wf(Step(db, c))
  {
    if c.CreateGameCall? {
      CreateGameStepKeepsWf(db, c);
    } else if c.RegisterCheckpointCall? {
      RegisterCheckpointStepKeepsWf(db, c);
    } else if c.JoinGameCall? {
      JoinGameStepKeepsWf(db, c);
    } else {
      ScanCheckpointStepKeepsWf(db, c);
    }
  }

  lemma {:induction false} ReplayKeepsWf(db: Db, calls: seq<Call>)
    requires Wf(db)
    ensures Wf(Replay(db, calls))
    decreases |calls|
  {
    if |calls| > 0 {
      StepKeepsWf(db, calls[0]);
      ReplayKeepsWf(Step(db, calls[0]), calls[1..]);
    }
  }

  /** Every state reachable from the empty store is well formed. */
  lemma ReachableStatesAreWf(calls: seq<Call>)
    ensures Wf(Replay(Empty, calls))
  {
    ReplayKeepsWf(Empty, calls);
  }
}
