/** The numeric-id hunt engine: games reachable by a join code, players,
    per-player progress through a game, checkpoints and scan events.

    Ids are the table's row count plus one, and reducers refuse silently: a
    call that fails a check returns the state unchanged. An insert that
    would clash with a key already present is dropped, as `try_insert(..).ok()`
    drops its error. */
module Backend {
  import opened Common
  import Format

  /** An instant supplied by the calling context; only stored. */
  datatype Timestamp = Timestamp(micros: int)

  datatype Game = Game(gameId: nat, code: string, name: string, createdAt: Timestamp, isActive: bool)

  datatype Player = Player(playerId: nat, displayName: string, createdAt: Timestamp)

  /** A player's progress through one game. */
  datatype PlayerGame = PlayerGame(
    playerGameId: nat,
    playerId: nat,
    gameId: nat,
    joinedAt: Timestamp,
    checkpointsScanned: nat,
    lastScanAt: Option<Timestamp>,
    nextRequired: nat)

  datatype Checkpoint = Checkpoint(
    checkpointId: nat,
    gameId: nat,
    nfcUid: string,
    locationName: string,
    orderIndex: nat,
    createdAt: Timestamp)

  datatype ScanEvent = ScanEvent(
    scanId: nat,
    gameId: nat,
    playerId: nat,
    checkpointId: nat,
    scannedAt: Timestamp,
    clientToken: string)

  datatype Db = Db(
    games: seq<Game>,
    players: seq<Player>,
    playerGames: seq<PlayerGame>,
    checkpoints: seq<Checkpoint>,
    scanEvents: seq<ScanEvent>)

  const Empty := Db([], [], [], [], [])

  // ---------------------------------------------------------------------
  // Ids and codes

  /** The id the next row of a table gets: its row count plus one. */
  function NextId<T>(table: seq<T>): (id: nat)
    ensures id > |table|
  {
    |table| + 1
  }

  /** The join code of the game created when `count` games exist:
      "GAME" and `count + 1` zero-padded to at least four digits. */
  function GameCode(count: nat): string
  {
    "GAME" + Format.ZeroPad(Format.Decimal(count + 1), 4)
  }

  /** The shape of a join code: "GAME", then digits denoting `count + 1`,
      padded to four digits and never longer than needed. */
  lemma GameCodeShape(count: nat)
    ensures var code := GameCode(count);
            && |code| >= 8 && code[..4] == "GAME"
            && Format.AllDigits(code[4..])
            && Format.ParseDecimal(code[4..]) == count + 1
            && (count + 1 < 10000 ==> |code| == 8)
            && |code| == 4 + (if |Format.Decimal(count + 1)| >= 4 then |Format.Decimal(count + 1)| else 4)
  {
    var digits := Format.ZeroPad(Format.Decimal(count + 1), 4);
    Format.ZeroPadKeepsValue(count + 1, 4);
    DecimalFitsFour(count + 1);
    assert ("GAME" + digits)[4..] == digits;
  }

  lemma {:induction false} DecimalFitsFour(n: nat)
    ensures n < 10000 ==> |Format.Decimal(n)| <= 4
  {
    if 10 <= n < 10000 {
      DecimalFitsFour(n / 10);
    }
  }

  // ---------------------------------------------------------------------
  // Lookups

  function FindGameByCode(games: seq<Game>, code: string): (r: Option<Game>)
    ensures r.Some? ==> r.value in games && r.value.code == code
    ensures r.None? <==> forall g :: g in games ==> g.code != code
  {
    Find(games, (g: Game) => g.code == code)
  }

  function FindCheckpoint(checkpoints: seq<Checkpoint>, gameId: nat, nfcUid: string): (r: Option<Checkpoint>)
    ensures r.Some? ==> r.value in checkpoints && r.value.gameId == gameId && r.value.nfcUid == nfcUid
    ensures r.None? <==> forall c :: c in checkpoints ==> c.gameId != gameId || c.nfcUid != nfcUid
  {
    Find(checkpoints, (c: Checkpoint) => c.gameId == gameId && c.nfcUid == nfcUid)
  }

  /** Position of the player's progress row for the game. */
  function FindPlayerGame(playerGames: seq<PlayerGame>, playerId: nat, gameId: nat): (r: Option<nat>)
    ensures r.Some? ==> r.value < |playerGames|
    ensures r.Some? ==> playerGames[r.value].playerId == playerId && playerGames[r.value].gameId == gameId
    ensures r.None? <==> forall i :: 0 <= i < |playerGames| ==>
              playerGames[i].playerId != playerId || playerGames[i].gameId != gameId
  {
    FindIndex(playerGames, (pg: PlayerGame) => pg.playerId == playerId && pg.gameId == gameId)
  }

  /** A checkpoint of the game already has this NFC uid or this order. */
  predicate CheckpointClash(checkpoints: seq<Checkpoint>, gameId: nat, nfcUid: string, orderIndex: nat)
  {
    exists c :: c in checkpoints && c.gameId == gameId && (c.nfcUid == nfcUid || c.orderIndex == orderIndex)
  }

  predicate AlreadyScanned(scanEvents: seq<ScanEvent>, gameId: nat, playerId: nat, checkpointId: nat)
  {
    exists e :: e in scanEvents && e.gameId == gameId && e.playerId == playerId && e.checkpointId == checkpointId
  }

  // ---------------------------------------------------------------------
  // Reducers

  /** Adds an active game with the next id and code, unless either is taken. */
  function CreateGame(db: Db, name: string, now: Timestamp): (r: Db)
    ensures r.players == db.players && r.playerGames == db.playerGames
    ensures r.checkpoints == db.checkpoints && r.scanEvents == db.scanEvents
    ensures r != db <==> forall g :: g in db.games ==> g.gameId != |db.games| + 1 && g.code != GameCode(|db.games|)
    ensures r != db ==> r.games == db.games + [Game(|db.games| + 1, GameCode(|db.games|), name, now, true)]
  {
    var game := Game(NextId(db.games), GameCode(|db.games|), name, now, true);
    if exists g :: g in db.games && (g.gameId == game.gameId || g.code == game.code) then db
    else db.(games := db.games + [game])
  }

  /** Adds a checkpoint to the game with this code, unless the order is 0,
      the code is unknown, or the game already has this NFC uid or order. */
  function RegisterCheckpoint(
    db: Db, gameCode: string, nfcUid: string, locationName: string, orderIndex: nat, now: Timestamp): (r: Db)
    ensures r.games == db.games && r.players == db.players
    ensures r.playerGames == db.playerGames && r.scanEvents == db.scanEvents
    ensures orderIndex == 0 ==> r == db
    ensures (forall g :: g in db.games ==> g.code != gameCode) ==> r == db
    ensures r != db <==>
              && orderIndex != 0
              && FindGameByCode(db.games, gameCode).Some?
              && !CheckpointClash(db.checkpoints, FindGameByCode(db.games, gameCode).value.gameId, nfcUid, orderIndex)
              && forall c :: c in db.checkpoints ==> c.checkpointId != |db.checkpoints| + 1
    ensures r != db ==>
              r.checkpoints == db.checkpoints + [Checkpoint(|db.checkpoints| + 1,
                FindGameByCode(db.games, gameCode).value.gameId, nfcUid, locationName, orderIndex, now)]
  {
    if orderIndex == 0 then db
    else
      match FindGameByCode(db.games, gameCode)
      case None => db
      case Some(game) =>
        if CheckpointClash(db.checkpoints, game.gameId, nfcUid, orderIndex) then db
        else
          var cp := Checkpoint(NextId(db.checkpoints), game.gameId, nfcUid, locationName, orderIndex, now);
          if exists c :: c in db.checkpoints && c.checkpointId == cp.checkpointId then db
          else db.(checkpoints := db.checkpoints + [cp])
  }

  /** Registers a new player in the active game with this code, starting at
      no scans and checkpoint 1. */
  function JoinGame(db: Db, gameCode: string, displayName: string, now: Timestamp): (r: Db)
    ensures r.games == db.games && r.checkpoints == db.checkpoints && r.scanEvents == db.scanEvents
    ensures (forall g :: g in db.games ==> g.code != gameCode) ==> r == db
    ensures FindGameByCode(db.games, gameCode).Some? && !FindGameByCode(db.games, gameCode).value.isActive ==> r == db
    ensures r != db <==>
              (&& FindGameByCode(db.games, gameCode).Some?
               && FindGameByCode(db.games, gameCode).value.isActive
               && forall p :: p in db.players ==> p.playerId != |db.players| + 1)
    ensures r != db ==>
              && FindGameByCode(db.games, gameCode).Some?
              && FindGameByCode(db.games, gameCode).value.isActive
              && r.players == db.players + [Player(|db.players| + 1, displayName, now)]
    ensures r != db ==>
              (r.playerGames != db.playerGames <==>
                 forall x :: x in db.playerGames ==> x.playerGameId != |db.playerGames| + 1)
    ensures r != db && r.playerGames != db.playerGames ==>
              r.playerGames == db.playerGames + [PlayerGame(|db.playerGames| + 1, |db.players| + 1,
                FindGameByCode(db.games, gameCode).value.gameId, now, 0, None, 1)]
  {
    match FindGameByCode(db.games, gameCode)
    case None => db
    case Some(game) =>
      if !game.isActive then db
      else
        var playerId := NextId(db.players);
        if exists p :: p in db.players && p.playerId == playerId then db
        else
          var db1 := db.(players := db.players + [Player(playerId, displayName, now)]);
          var pg := PlayerGame(NextId(db1.playerGames), playerId, game.gameId, now, 0, None, 1);
          if exists x :: x in db1.playerGames && x.playerGameId == pg.playerGameId then db1
          else db1.(playerGames := db1.playerGames + [pg])
  }

  /** The progress row after one more checkpoint: both counters advance. */
  function Advance(pg: PlayerGame, now: Timestamp): (r: PlayerGame)
    ensures r.checkpointsScanned == pg.checkpointsScanned + 1
    ensures r.nextRequired == pg.nextRequired + 1
    ensures r.nextRequired - r.checkpointsScanned == pg.nextRequired - pg.checkpointsScanned
    ensures r.playerGameId == pg.playerGameId && r.playerId == pg.playerId && r.gameId == pg.gameId
    ensures r.joinedAt == pg.joinedAt && r.lastScanAt == Some(now)
  {
    pg.(checkpointsScanned := pg.checkpointsScanned + 1, lastScanAt := Some(now), nextRequired := pg.nextRequired + 1)
  }

  /** Records a scan when the game is active, the checkpoint is in it, the
      player has joined it, the checkpoint is the one the player needs next
      and was not scanned before. The client token is stored, not checked. */
  function ScanCheckpoint(
    db: Db, playerId: nat, gameCode: string, nfcUid: string, clientToken: string, now: Timestamp): (r: Db)
    ensures r.games == db.games && r.players == db.players && r.checkpoints == db.checkpoints
    ensures |r.playerGames| == |db.playerGames|
    ensures r != db <==>
              var game := FindGameByCode(db.games, gameCode);
              && game.Some? && game.value.isActive
              && var cp := FindCheckpoint(db.checkpoints, game.value.gameId, nfcUid);
              && var k := FindPlayerGame(db.playerGames, playerId, game.value.gameId);
              && cp.Some? && k.Some?
              && cp.value.orderIndex == db.playerGames[k.value].nextRequired
              && !AlreadyScanned(db.scanEvents, game.value.gameId, playerId, cp.value.checkpointId)
              && forall x :: x in db.scanEvents ==> x.scanId != |db.scanEvents| + 1
    ensures r != db ==>
              var game := FindGameByCode(db.games, gameCode);
              && game.Some? && game.value.isActive
              && var cp := FindCheckpoint(db.checkpoints, game.value.gameId, nfcUid);
              && var k := FindPlayerGame(db.playerGames, playerId, game.value.gameId);
              && cp.Some? && k.Some?
              && cp.value.orderIndex == db.playerGames[k.value].nextRequired
              && !AlreadyScanned(db.scanEvents, game.value.gameId, playerId, cp.value.checkpointId)
              && r.scanEvents == db.scanEvents +
                   [ScanEvent(|db.scanEvents| + 1, game.value.gameId, playerId, cp.value.checkpointId, now, clientToken)]
              && r.playerGames == db.playerGames[k.value := Advance(db.playerGames[k.value], now)]
  {
    match FindGameByCode(db.games, gameCode)
    case None => db
    case Some(game) =>
      if !game.isActive then db
      else
        match FindCheckpoint(db.checkpoints, game.gameId, nfcUid)
        case None => db
        case Some(cp) =>
          match FindPlayerGame(db.playerGames, playerId, game.gameId)
          case None => db
          case Some(k) =>
            var pg := db.playerGames[k];
            if cp.orderIndex != pg.nextRequired then db
            else if AlreadyScanned(db.scanEvents, game.gameId, playerId, cp.checkpointId) then db
            else
              var e := ScanEvent(NextId(db.scanEvents), game.gameId, playerId, cp.checkpointId, now, clientToken);
              if exists x :: x in db.scanEvents && x.scanId == e.scanId then db
              else db.(scanEvents := db.scanEvents + [e], playerGames := db.playerGames[k := Advance(pg, now)])
  }
}
