/** The string-keyed scavenger-hunt engine: games, tags (checkpoints),
    players and claim progress, and the reducers organisers and players call.

    Every reducer either refuses with an error before touching any table, or
    returns the new state; `Commit` applies an outcome to the state it was
    computed from. */
module Server {
  import opened Common
  import Format

  const Setup := "setup"
  const Active := "active"
  const Ended := "ended"

  /** A 64-bit float kept as its bit pattern: coordinates are only stored. */
  datatype F64 = F64(bits: bv64)

  datatype Game = Game(gameId: string, status: string)

  /** A checkpoint. `tagId` is the table's primary key, across all games. */
  datatype Tag = Tag(
    tagId: string,
    gameId: string,
    isActive: bool,
    orderIndex: int,
    clue: Option<string>,
    lat: Option<F64>,
    lon: Option<F64>,
    accuracyM: Option<int>,
    activatedBy: Option<string>,
    activatedAt: Option<int>)

  datatype Player = Player(playerId: string, name: string)

  /** One claim. The claimed tag's order index is copied into the row. */
  datatype Progress = Progress(
    gameId: string,
    playerId: string,
    tagId: string,
    orderIndex: int,
    timestamp: int)

  datatype Db = Db(
    games: seq<Game>,
    tags: seq<Tag>,
    players: seq<Player>,
    progress: seq<Progress>)

  const Empty := Db([], [], [], [])

  datatype ServerError =
    | GameNotFound
    | GameNotActive
    | TagNotFound
    | TagNotActive
    | ClaimOrderFirst(order: int)
    | TagExists(tagId: string)
    | TagMissing(tagId: string)

  type Outcome = Result<Db, ServerError>

  /** The text a reducer returns for each error. */
  function Message(e: ServerError): string
  {
    match e
    case GameNotFound => "Game not found"
    case GameNotActive => "Game is not active"
    case TagNotFound => "Tag not found"
    case TagNotActive => "Tag is not active"
    case ClaimOrderFirst(order) => "You must claim tag with order " + Format.SignedDecimal(order) + " first"
    case TagExists(tagId) => "Tag " + tagId + " already exists globally"
    case TagMissing(tagId) => "Tag " + tagId + " not found"
  }

  /** The state after a reducer call: its new state, or the old one on error. */
  function Commit(db: Db, r: Outcome): Db
  {
    if r.Ok? then r.value else db
  }

  // ---------------------------------------------------------------------
  // Keys and lookups

  function GameKey(g: Game): string { g.gameId }
  function TagKey(t: Tag): string { t.tagId }
  function ProgressKey(p: Progress): (string, string, string) { (p.gameId, p.playerId, p.tagId) }

  ghost predicate GameIdsUnique(games: seq<Game>) { UniqueBy(games, GameKey) }
  ghost predicate TagIdsUnique(tags: seq<Tag>) { UniqueBy(tags, TagKey) }
  ghost predicate ProgressKeysUnique(progress: seq<Progress>) { UniqueBy(progress, ProgressKey) }

  function FindGame(games: seq<Game>, gameId: string): (r: Option<Game>)
    ensures r.Some? ==> r.value in games && r.value.gameId == gameId
    ensures r.None? <==> forall g :: g in games ==> g.gameId != gameId
  {
    Find(games, (g: Game) => g.gameId == gameId)
  }

  /** The first row with this id decides whether the game is running. */
  predicate GameIsActive(games: seq<Game>, gameId: string)
  {
    var g := FindGame(games, gameId);
    g.Some? && g.value.status == Active
  }

  function FindTag(tags: seq<Tag>, tagId: string): (r: Option<Tag>)
    ensures r.Some? ==> r.value in tags && r.value.tagId == tagId
    ensures r.None? <==> forall t :: t in tags ==> t.tagId != tagId
  {
    Find(tags, (t: Tag) => t.tagId == tagId)
  }

  function FindTagInGame(tags: seq<Tag>, tagId: string, gameId: string): (r: Option<Tag>)
    ensures r.Some? ==> r.value in tags && r.value.tagId == tagId && r.value.gameId == gameId
    ensures r.None? <==> forall t :: t in tags ==> t.tagId != tagId || t.gameId != gameId
  {
    Find(tags, (t: Tag) => t.tagId == tagId && t.gameId == gameId)
  }

  /** The player already holds a claim of this tag in this game. */
  predicate Claimed(progress: seq<Progress>, gameId: string, playerId: string, tagId: string)
  {
    exists p :: p in progress && p.gameId == gameId && p.playerId == playerId && p.tagId == tagId
  }

  /** The player holds, in this game, a claim recorded with this order index. */
  predicate HasClaimedOrder(progress: seq<Progress>, gameId: string, playerId: string, order: int)
  {
    exists p :: p in progress && p.gameId == gameId && p.playerId == playerId && p.orderIndex == order
  }

  /** The smallest order in `lo..hi-1` the player has not claimed, if any:
      the prerequisite scan of a claim. */
  function FirstUnclaimedOrder(progress: seq<Progress>, gameId: string, playerId: string, lo: int, hi: int): (r: Option<int>)
    ensures r.None? <==> forall i :: lo <= i < hi ==> HasClaimedOrder(progress, gameId, playerId, i)
    ensures r.Some? ==> lo <= r.value < hi && !HasClaimedOrder(progress, gameId, playerId, r.value)
    ensures r.Some? ==> forall i :: lo <= i < r.value ==> HasClaimedOrder(progress, gameId, playerId, i)
    decreases hi - lo
  {
    if lo >= hi then None
    else if !HasClaimedOrder(progress, gameId, playerId, lo) then Some(lo)
    else FirstUnclaimedOrder(progress, gameId, playerId, lo + 1, hi)
  }

  // ---------------------------------------------------------------------
  // Lifecycle

  /** Wipes every table and starts over with one game in setup. */
  function CreateGame(db: Db, gameId: string): (r: Outcome)
    ensures r.Ok?
    ensures r.value.games == [Game(gameId, Setup)]
    ensures r.value.tags == [] && r.value.players == [] && r.value.progress == []
  {
    Ok(Db([Game(gameId, Setup)], [], [], []))
  }

  /** The games table after the row of `gameId` was rewritten with `status`,
      leaving every other table and every other game alone. */
  ghost predicate StatusRewritten(db: Db, db': Db, gameId: string, status: string)
  {
    && Game(gameId, status) in db'.games
    && (forall g :: g in db.games && g.gameId != gameId ==> g in db'.games)
    && (forall g :: g in db'.games && g.gameId != gameId ==> g in db.games)
    && (GameIdsUnique(db.games) ==> GameIdsUnique(db'.games))
    && (GameIdsUnique(db.games) ==> forall g :: g in db'.games && g.gameId == gameId ==> g.status == status)
    && db'.tags == db.tags && db'.players == db.players && db'.progress == db.progress
  }

  /** Replaces the first row of the game by one carrying `status`. */
  function Restatus(db: Db, gameId: string, status: string): (r: Outcome)
    ensures r.Err? <==> forall g :: g in db.games ==> g.gameId != gameId
    ensures r.Err? ==> r.error == GameNotFound
    ensures r.Ok? ==> StatusRewritten(db, r.value, gameId, status)
  {
    match FindGame(db.games, gameId)
    case None => Err(GameNotFound)
    case Some(g) =>
      var kept := Remove(db.games, g);
      var games := Insert(kept, Game(gameId, status));
      var db' := db.(games := games);
      RestatusKeepsUnique(db.games, g, gameId, status);
      Ok(db')
  }

  lemma RestatusKeepsUnique(games: seq<Game>, g: Game, gameId: string, status: string)
    requires g in games && g.gameId == gameId
    ensures GameIdsUnique(games) ==> GameIdsUnique(Insert(Remove(games, g), Game(gameId, status)))
    ensures GameIdsUnique(games) ==> forall x :: x in Insert(Remove(games, g), Game(gameId, status)) && x.gameId == gameId ==> x.status == status
  {
    if GameIdsUnique(games) {
      var kept := Remove(games, g);
      RemoveKeepsUniqueBy(games, g, GameKey);
      forall y | y in kept
        ensures GameKey(y) != gameId
      {
        if y.gameId == gameId {
          UniqueByIdentifies(games, GameKey, y, g);
        }
      }
      assert Game(gameId, status) !in kept;
      AppendKeepsUniqueBy(kept, Game(gameId, status), GameKey);
    }
  }

  /** Sets the game active, whatever its previous status. */
  function StartGame(db: Db, gameId: string): (r: Outcome)
    ensures r.Err? <==> forall g :: g in db.games ==> g.gameId != gameId
    ensures r.Err? ==> r.error == GameNotFound
    ensures r.Ok? ==> StatusRewritten(db, r.value, gameId, Active)
  {
    Restatus(db, gameId, Active)
  }

  /** Sets the game ended, whatever its previous status. */
  function EndGame(db: Db, gameId: string): (r: Outcome)
    ensures r.Err? <==> forall g :: g in db.games ==> g.gameId != gameId
    ensures r.Err? ==> r.error == GameNotFound
    ensures r.Ok? ==> StatusRewritten(db, r.value, gameId, Ended)
  {
    Restatus(db, gameId, Ended)
  }

  // ---------------------------------------------------------------------
  // Checkpoint registry

  /** Creates an inactive tag without location. Tag ids are global. */
  function CreateTag(db: Db, gameId: string, tagId: string, orderIndex: int, clue: Option<string>): (r: Outcome)
    ensures (forall g :: g in db.games ==> g.gameId != gameId) ==> r == Err(GameNotFound)
    ensures ((exists g :: g in db.games && g.gameId == gameId) && (exists t :: t in db.tags && t.tagId == tagId))
              ==> r == Err(TagExists(tagId))
    ensures r.Ok? <==> (exists g :: g in db.games && g.gameId == gameId) && forall t :: t in db.tags ==> t.tagId != tagId
    ensures r.Ok? ==> r.value.tags == db.tags + [Tag(tagId, gameId, false, orderIndex, clue, None, None, None, None, None)]
    ensures r.Ok? ==> r.value.games == db.games && r.value.players == db.players && r.value.progress == db.progress
    ensures r.Ok? ==> (TagIdsUnique(db.tags) ==> TagIdsUnique(r.value.tags))
  {
    match FindGame(db.games, gameId)
    case None => Err(GameNotFound)
    case Some(_) =>
      match FindTag(db.tags, tagId)
      case Some(_) => Err(TagExists(tagId))
      case None =>
        var t := Tag(tagId, gameId, false, orderIndex, clue, None, None, None, None, None);
        AppendKeepsUniqueBy(db.tags, t, TagKey);
        Ok(db.(tags := db.tags + [t]))
  }

  /** The tags table after `t` replaced whatever row carried its id, in any
      game, leaving every other table alone. */
  ghost predicate TagReplaced(db: Db, db': Db, t: Tag)
  {
    && t in db'.tags
    && (forall x :: x in db.tags && x.tagId != t.tagId ==> x in db'.tags)
    && (forall x :: x in db'.tags ==> x == t || x in db.tags)
    && (TagIdsUnique(db.tags) ==> TagIdsUnique(db'.tags))
    && (TagIdsUnique(db.tags) ==> forall x :: x in db'.tags && x.tagId == t.tagId ==> x == t)
    && db'.games == db.games && db'.players == db.players && db'.progress == db.progress
  }

  /** Deletes the row with `t`'s id, if any, and inserts `t`. */
  function ReplaceTag(db: Db, t: Tag): (r: Outcome)
    ensures r.Err? <==> forall g :: g in db.games ==> g.gameId != t.gameId
    ensures r.Err? ==> r.error == GameNotFound
    ensures r.Ok? ==> TagReplaced(db, r.value, t)
  {
    match FindGame(db.games, t.gameId)
    case None => Err(GameNotFound)
    case Some(_) =>
      var kept := match FindTag(db.tags, t.tagId)
        case None => db.tags
        case Some(prior) => Remove(db.tags, prior);
      ReplaceTagKeepsUnique(db.tags, t);
      Ok(db.(tags := kept + [t]))
  }

  lemma ReplaceTagKeepsUnique(tags: seq<Tag>, t: Tag)
    ensures var kept := match FindTag(tags, t.tagId)
              case None => tags
              case Some(prior) => Remove(tags, prior);
            TagIdsUnique(tags) ==>
              TagIdsUnique(kept + [t]) && forall x :: x in kept ==> x.tagId != t.tagId
  {
    if TagIdsUnique(tags) {
      match FindTag(tags, t.tagId)
      case None =>
        AppendKeepsUniqueBy(tags, t, TagKey);
      case Some(prior) =>
        var kept := Remove(tags, prior);
        RemoveKeepsUniqueBy(tags, prior, TagKey);
        forall y | y in kept
          ensures TagKey(y) != t.tagId
        {
          if y.tagId == t.tagId {
            UniqueByIdentifies(tags, TagKey, y, prior);
          }
        }
        AppendKeepsUniqueBy(kept, t, TagKey);
    }
  }

  /** Activates a tag: an upsert by replacement with the given order and
      clue and no location. */
  function ActivateTag(db: Db, gameId: string, tagId: string, orderIndex: int, clue: Option<string>): (r: Outcome)
    ensures r.Err? <==> forall g :: g in db.games ==> g.gameId != gameId
    ensures r.Err? ==> r.error == GameNotFound
    ensures r.Ok? ==> TagReplaced(db, r.value, Tag(tagId, gameId, true, orderIndex, clue, None, None, None, None, None))
  {
    ReplaceTag(db, Tag(tagId, gameId, true, orderIndex, clue, None, None, None, None, None))
  }

  /** Activates a tag as `ActivateTag` does, recording where and by whom. */
  function ActivateTagWithLocation(
    db: Db, gameId: string, tagId: string, lat: F64, lon: F64, accuracyM: int,
    activatedBy: string, orderIndex: int, clue: Option<string>): (r: Outcome)
    ensures r.Err? <==> forall g :: g in db.games ==> g.gameId != gameId
    ensures r.Err? ==> r.error == GameNotFound
    ensures r.Ok? ==> TagReplaced(db, r.value,
      Tag(tagId, gameId, true, orderIndex, clue, Some(lat), Some(lon), Some(accuracyM), Some(activatedBy), None))
  {
    ReplaceTag(db, Tag(tagId, gameId, true, orderIndex, clue, Some(lat), Some(lon), Some(accuracyM), Some(activatedBy), None))
  }

  /** Deletes a tag and every claim of it, in every game. */
  function DeleteTag(db: Db, tagId: string): (r: Outcome)
    ensures r.Err? <==> forall t :: t in db.tags ==> t.tagId != tagId
    ensures r.Err? ==> r.error == TagMissing(tagId)
    ensures r.Ok? ==> r.value.games == db.games && r.value.players == db.players
    ensures r.Ok? ==> forall p :: p in r.value.progress <==> p in db.progress && p.tagId != tagId
    ensures r.Ok? ==> forall t :: t in r.value.tags ==> t in db.tags
    ensures r.Ok? ==> forall t :: t in db.tags && t.tagId != tagId ==> t in r.value.tags
    ensures r.Ok? && TagIdsUnique(db.tags) ==> forall t :: t in r.value.tags ==> t.tagId != tagId
    ensures r.Ok? ==> (TagIdsUnique(db.tags) ==> TagIdsUnique(r.value.tags))
    ensures r.Ok? ==> (ProgressKeysUnique(db.progress) ==> ProgressKeysUnique(r.value.progress))
  {
    match FindTag(db.tags, tagId)
    case None => Err(TagMissing(tagId))
    case Some(tag) =>
      var keep := (p: Progress) => p.tagId != tagId;
      var progress := Filter(db.progress, keep);
      var tags := Remove(db.tags, tag);
      FilterKeepsUniqueBy(db.progress, keep, ProgressKey);
      RemoveKeepsUniqueBy(db.tags, tag, TagKey);
      DeleteTagRemovesId(db.tags, tag);
      Ok(db.(tags := tags, progress := progress))
  }

  lemma DeleteTagRemovesId(tags: seq<Tag>, tag: Tag)
    requires tag in tags
    ensures TagIdsUnique(tags) ==> forall t :: t in Remove(tags, tag) ==> t.tagId != tag.tagId
  {
    if TagIdsUnique(tags) {
      forall t | t in Remove(tags, tag)
        ensures t.tagId != tag.tagId
      {
        if t.tagId == tag.tagId {
          UniqueByIdentifies(tags, TagKey, t, tag);
        }
      }
    }
  }

  // ---------------------------------------------------------------------
  // Players

  /** Records a player row; the role is accepted and dropped. The table has
      no key, so a new name for a known id adds a second row. */
  function UpsertPlayer(db: Db, playerId: string, name: string, role: Option<string>): (r: Outcome)
    ensures r.Ok?
    ensures Player(playerId, name) in r.value.players
    ensures forall p :: p in db.players ==> p in r.value.players
    ensures forall p :: p in r.value.players ==> p in db.players || p == Player(playerId, name)
    ensures r.value.games == db.games && r.value.tags == db.tags && r.value.progress == db.progress
  {
    Ok(db.(players := Insert(db.players, Player(playerId, name))))
  }

  // ---------------------------------------------------------------------
  // Claim engine

  /** The game is running and its tag row for `tagId` is active. */
  predicate Claimable(db: Db, gameId: string, tagId: string)
  {
    var t := FindTagInGame(db.tags, tagId, gameId);
    GameIsActive(db.games, gameId) && t.Some? && t.value.isActive
  }

  /** Claims a tag for a player. Errors, in order of precedence: unknown
      game, game not running, no such tag in the game, tag inactive, an
      earlier order not yet claimed. A repeated claim succeeds and changes
      nothing. */
  function ClaimTag(db: Db, gameId: string, playerId: string, tagId: string): (r: Outcome)
    ensures FindGame(db.games, gameId).None? ==> r == Err(GameNotFound)
    ensures FindGame(db.games, gameId).Some? && !GameIsActive(db.games, gameId) ==> r == Err(GameNotActive)
    ensures GameIsActive(db.games, gameId) && FindTagInGame(db.tags, tagId, gameId).None? ==> r == Err(TagNotFound)
    ensures (GameIsActive(db.games, gameId) && FindTagInGame(db.tags, tagId, gameId).Some?
              && !FindTagInGame(db.tags, tagId, gameId).value.isActive) ==> r == Err(TagNotActive)
    ensures Claimable(db, gameId, tagId) && Claimed(db.progress, gameId, playerId, tagId) ==> r == Ok(db)
    ensures Claimable(db, gameId, tagId) && !Claimed(db.progress, gameId, playerId, tagId) ==>
              var k := FindTagInGame(db.tags, tagId, gameId).value.orderIndex;
              (r.Ok? <==> forall i :: 1 <= i < k ==> HasClaimedOrder(db.progress, gameId, playerId, i))
    ensures Claimable(db, gameId, tagId) && !Claimed(db.progress, gameId, playerId, tagId) && r.Err? ==>
              r.error.ClaimOrderFirst?
    ensures r.Err? && r.error.ClaimOrderFirst? ==>
              && Claimable(db, gameId, tagId)
              && 1 <= r.error.order < FindTagInGame(db.tags, tagId, gameId).value.orderIndex
              && !HasClaimedOrder(db.progress, gameId, playerId, r.error.order)
              && forall i :: 1 <= i < r.error.order ==> HasClaimedOrder(db.progress, gameId, playerId, i)
    ensures Claimable(db, gameId, tagId) && !Claimed(db.progress, gameId, playerId, tagId) && r.Ok? ==>
              r.value == db.(progress := db.progress +
                [Progress(gameId, playerId, tagId, FindTagInGame(db.tags, tagId, gameId).value.orderIndex, 0)])
    ensures r.Ok? && r.value != db ==>
              && Claimable(db, gameId, tagId)
              && !Claimed(db.progress, gameId, playerId, tagId)
              && r.value == db.(progress := db.progress +
                   [Progress(gameId, playerId, tagId, FindTagInGame(db.tags, tagId, gameId).value.orderIndex, 0)])
  {
    match FindGame(db.games, gameId)
    case None => Err(GameNotFound)
    case Some(game) =>
      if game.status != Active then Err(GameNotActive)
      else
        match FindTagInGame(db.tags, tagId, gameId)
        case None => Err(TagNotFound)
        case Some(tag) =>
          if !tag.isActive then Err(TagNotActive)
          else if Claimed(db.progress, gameId, playerId, tagId) then Ok(db)
          else
            match FirstUnclaimedOrder(db.progress, gameId, playerId, 1, tag.orderIndex)
            case Some(i) => Err(ClaimOrderFirst(i))
            case None =>
              var row := Progress(gameId, playerId, tagId, tag.orderIndex, 0);
              assert row !in db.progress;
              Ok(db.(progress := Insert(db.progress, row)))
  }
}
