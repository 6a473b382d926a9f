# Scavenger-hunt game-state engines in Dafny

This project models the two game-state engines of a location-based scavenger
hunt. Both are written as SpacetimeDB reducers over in-memory tables. The two
engines are independent, and the model keeps them apart.

- **`Server`** (`server.dfy`, invariants in `server_invariants.dfy`) models the
  string-keyed engine in `server/src/lib.rs`. It has games with a
  setup/active/ended status, tags (checkpoints) with an order index and an
  optional location, players, and a progress ledger of claims. Each reducer is
  a function `Db -> Result<Db, ServerError>`. Every error in the source is
  returned before any table is touched, so an `Err` carries no state, and
  `Commit` applies an outcome to the state it was computed from.
  `ServerError` is structured, and `Message` maps each error to a text. `Message` and
  `Format.SignedDecimal` are helpers whose contracts are only their definitions.
- **`Backend`** (`backend.dfy`, invariants in `backend_invariants.dfy`) models
  the numeric-id engine in `backend/src/lib.rs`. It has games reachable by a
  join code, players, per-player progress rows, checkpoints and scan events.
  Each reducer is a function `Db -> Db`, and a failed check returns the state
  unchanged.
- **`Common`** (`common.dfy`) holds the table helpers both engines share:
  find-first lookup, filter, set-style insert and remove, and key uniqueness.
- **`Format`** (`format.dfy`) holds decimal rendering, zero padding, and a
  parser that reads the text back.

Each table is a `seq` of rows, and lookups return the first matching row, as
`iter().find` does. A SpacetimeDB table is a set of rows. So inserting a row
that is already present adds nothing (`Common.Insert`), and deleting a row
value deletes every copy of it (`Common.Remove`). For a table with a key,
`try_insert(..).ok()` is modelled as "append unless a row with the same
primary key, or the same unique code, already exists".

Beyond what each reducer's contract states, the invariant modules prove:

- **Server:**
  - Every state reachable from the empty store has at most one game row, and
    unique game ids, tag ids and (game, player, tag) claims.
  - Claims are gap-free and stay so: a claim at order k comes with claims at
    every order 1..k-1.
  - Claims are idempotent.
  - Deleting a tag can break the gap-free property. A concrete state shows
    this.
- **Backend:**
  - Every reachable state has ids equal to row numbers, so every generated id
    is fresh and every insert goes through.
  - Join codes are distinct.
  - Within a game, checkpoints have orders of at least 1, and distinct NFC
    uids and orders.
  - Each player has one progress row, whose counters move in lockstep
    (`next_required == checkpoints_scanned + 1`).
  - The checkpoints a player scanned in a game are exactly orders
    1, 2, …, `checkpoints_scanned`, in that order.

### Behaviour of the code worth knowing

- `start_game` and `end_game` check only that the game exists. They rewrite
  the status from any status, so `ended` can become `active` again.
- Tag ids are global across games:
  - `create_tag` refuses an id that any game already uses;
  - `activate_tag` and `activate_tag_with_location` replace the row with that
    id, in whatever game it was, and create it if it is missing.
- `delete_tag` takes only a tag id. It removes that id's claims in every game.
- `claim_tag` has these gaps:
  - it never checks that the player exists;
  - its prerequisite check is over the integers 1..k-1, not over the orders
    of the game's active tags;
  - an already-claimed tag returns `Ok` without a change.
- `upsert_player` is a plain insert into a table without a key. A new name
  for a known id adds a second row, and `role` is ignored.

## Model

| member | source | states |
|---|---|---|
| Server.FirstUnclaimedOrder | server/src/lib.rs:247-253 | the prerequisite loop over `lo..hi-1` finds no missing order exactly when every order in the range is claimed; otherwise it returns the smallest unclaimed order, and every order below it is claimed |
| Server.CreateGame | server/src/lib.rs:46-77 | always succeeds; afterwards the games table is exactly `[(id, "setup")]`, and tags, players and progress are empty |
| Server.Restatus | server/src/lib.rs:82-90 | shared body of start_game and end_game: Err(GameNotFound) exactly when no game has the id; otherwise a row (id, status) is present, other games and tables are untouched, and under unique game ids the game's only row carries the new status |
| Server.StartGame | server/src/lib.rs:80-94 | Err("Game not found") exactly when no game has the id; otherwise the game becomes "active" whatever its previous status, and nothing else changes |
| Server.EndGame | server/src/lib.rs:97-111 | Err("Game not found") exactly when no game has the id; otherwise the game becomes "ended" whatever its previous status, and nothing else changes |
| Server.CreateTag | server/src/lib.rs:114-143 | error precedence: a missing game first, then a tag id used in any game; succeeds exactly when the game exists and the id is globally new; appends exactly one inactive tag with the given order and clue and no location; keeps tag ids unique |
| Server.ReplaceTag | server/src/lib.rs:149-172 | shared body of both activations: Err(GameNotFound) exactly when the game is missing; otherwise the new row is present, every row with another id survives, no other row appears, tag ids stay unique, the id's only row is the new one, and games, players and progress are unchanged |
| Server.ActivateTag | server/src/lib.rs:146-176 | Err("Game not found") exactly when the game is missing; otherwise any tag with that id, in any game, is replaced by an active row with the given game, order and clue and no location; progress is untouched |
| Server.ActivateTagWithLocation | server/src/lib.rs:179-210 | as ActivateTag, and the new row records lat, lon, accuracy and who activated it, with no activation time |
| Server.DeleteTag | server/src/lib.rs:269-291 | Err("Tag … not found") exactly when no tag has the id; otherwise the progress rows kept are exactly those of other tags, in every game; no tag row is added; tags of other ids survive; under unique ids no row with the id is left; games and players are unchanged; key uniqueness is kept |
| ServerInvariants.UpsertPlayerIsIdempotent | server/src/lib.rs:294-303 | registering the same id and name again, with any role, returns Ok and changes nothing |
| Server.UpsertPlayer | server/src/lib.rs:294-303 | always succeeds; the row (id, name) is present afterwards; no row is lost and no other row appears; the role is dropped; other tables are unchanged |
| Server.ClaimTag | server/src/lib.rs:213-266 | error precedence: game missing, game not active, no such tag in the game, tag inactive; an existing claim returns Ok with the state unchanged; a new claim succeeds exactly when orders 1..k-1 are all claimed, and otherwise fails with the order error naming the smallest missing order; a success appends exactly one row carrying the tag's order and timestamp 0 |
| ServerInvariants.ClaimKeepsProgressKeysUnique | server/src/lib.rs:233-262 | a claim never duplicates a (game, player, tag) claim |
| ServerInvariants.RestatusKeepsOneGame | server/src/lib.rs:82-90 | a status rewrite keeps the games table at one row at most |
| ServerInvariants.StepKeepsWf | server/src/lib.rs:46-303 | every reducer keeps at most one game row, and unique game ids, tag ids and claims |
| ServerInvariants.ReplayKeepsWf | server/src/lib.rs:46-303 | any sequence of reducer calls keeps those properties |
| ServerInvariants.ReachableStatesAreWf | server/src/lib.rs:46-303 | every state reachable from the empty store has those properties |
| ServerInvariants.ClaimKeepsPrefixClosed | server/src/lib.rs:241-262 | if every player's claims in a game are gap-free over order indices, they stay gap-free after a claim |
| ServerInvariants.StepKeepsPrefixClosed | server/src/lib.rs:46-303 | every reducer except delete_tag keeps claims gap-free |
| ServerInvariants.ReplayKeepsPrefixClosed | server/src/lib.rs:46-303 | any sequence of calls without delete_tag keeps claims gap-free |
| ServerInvariants.DeleteTagCanBreakPrefixClosure | server/src/lib.rs:272-283 | some well-formed, gap-free state has a tag whose deletion leaves a gap: the later claim of another tag survives |
| ServerInvariants.ClaimIsIdempotent | server/src/lib.rs:233-239 | claiming again after a successful claim returns Ok with the state unchanged |
| ServerInvariants.FirstOrderNeedsNoPrerequisite | server/src/lib.rs:246-253 | on an active game and an active tag with order at most 1, a claim always succeeds |
| ServerInvariants.ClaimGrowsProgressByAtMostOne | server/src/lib.rs:255-262 | a claim keeps the existing progress rows as a prefix and adds at most one |
| Format.Decimal | backend/src/lib.rs:85-85 | the decimal text of a number is non-empty, all digits, with no leading zero, and one digit exactly for numbers below 10 |
| Format.ParseDecimalInvertsDecimal | backend/src/lib.rs:85-85 | reading the decimal text back gives the number |
| Format.ZeroPad | backend/src/lib.rs:85-85 | `{:04}` padding: the length is the larger of the text and the width, the text is a suffix, and every character before it is '0' |
| Format.ZeroPadKeepsValue | backend/src/lib.rs:85-85 | zero padding does not change the value the text denotes |
| Backend.NextId | backend/src/lib.rs:61-80 | the next id is larger than the table's row count, so no row numbered 1..count has it |
| BackendInvariants.NextIdIsFresh | backend/src/lib.rs:61-80 | with ids equal to row numbers, no row already has the next id |
| Backend.GameCodeShape | backend/src/lib.rs:82-86 | the code is "GAME" followed by digits that denote count+1; the digit part is four characters while count+1 < 10000, and otherwise exactly the unpadded decimal text of count+1 |
| BackendInvariants.GameCodeInjective | backend/src/lib.rs:82-86 | distinct game counts give distinct codes |
| BackendInvariants.CodesAreDistinct | backend/src/lib.rs:82-86 | in a well-formed games table, no two games share a join code |
| Backend.CreateGame | backend/src/lib.rs:88-102 | changes only the games table; adds a row exactly when neither the next id nor the next code is taken; the row is active with id count+1 and code GameCode(count) |
| BackendInvariants.CreateGameAppends | backend/src/lib.rs:88-102 | with ids and codes by row, create_game appends exactly the active game with id count+1 and code GameCode(count) |
| BackendInvariants.CreateGameKeepsWf | backend/src/lib.rs:88-102 | on a well-formed state the new game is always added, and the state stays well formed |
| Backend.RegisterCheckpoint | backend/src/lib.rs:104-139 | a no-op for order 0, an unknown code, a clash of NFC uid or order within the game, or a taken id; otherwise appends exactly the checkpoint with the next id in the code's game |
| BackendInvariants.AddCheckpointKeepsWellFormed | backend/src/lib.rs:121-138 | appending a clash-free checkpoint with order at least 1 keeps orders at least 1, and NFC uids and orders unique per game |
| BackendInvariants.RegisterCheckpointAppends | backend/src/lib.rs:104-139 | with row-numbered checkpoints, a positive order, a known code and no clash in the game, register_checkpoint appends exactly the checkpoint with the next id in the code's game |
| BackendInvariants.RegisterCheckpointKeepsWf | backend/src/lib.rs:104-139 | on a well-formed state a checkpoint with positive order, a known code and no clash is always added, and the state stays well formed |
| Backend.JoinGame | backend/src/lib.rs:141-178 | a no-op for an unknown or inactive game; changes the state exactly when the game is active and the next player id is free; then adds the player with the next id, and adds their progress row with no scans and checkpoint 1 next exactly when the next progress-row id is free |
| BackendInvariants.JoinGameAddsPlayer | backend/src/lib.rs:156-177 | with ids equal to row numbers, joining an active game adds exactly the new player and their progress row |
| BackendInvariants.JoinGameKeepsWf | backend/src/lib.rs:141-178 | on a well-formed state, joining an active game always adds the progress row with no scans and checkpoint 1 next, and the state stays well formed |
| Backend.Advance | backend/src/lib.rs:239-247 | a scan increments checkpoints_scanned and next_required by one each, so their difference is kept; last_scan_at becomes the scan time; the row's ids and joined_at are unchanged |
| Backend.ScanCheckpoint | backend/src/lib.rs:180-251 | changes only scan events and progress rows; changes the state exactly when the game is active, the checkpoint is in it, the player has joined, the checkpoint is the one needed next, it was not scanned before and the next scan id is free; then it appends exactly one scan event and advances the player's progress row |
| BackendInvariants.AlreadyScannedNeverFires | backend/src/lib.rs:214-222 | in a well-formed state the checkpoint a player needs next was never scanned by them, so the already-scanned check never refuses a scan |
| BackendInvariants.ScanCheckpointRecordsScan | backend/src/lib.rs:224-250 | with ids equal to row numbers, a scan that passes every check records one event and advances the progress row |
| BackendInvariants.ScanKeepsScansInSequence | backend/src/lib.rs:209-250 | after a scan of the checkpoint needed next, every player's scanned orders in each game are still exactly 1..checkpoints_scanned |
| BackendInvariants.ScanCheckpointKeepsWf | backend/src/lib.rs:180-251 | on a well-formed state a scan of the checkpoint needed next always goes through, and the state stays well formed, counters in lockstep included |
| BackendInvariants.StepKeepsWf | backend/src/lib.rs:88-251 | every reducer keeps the backend invariant |
| BackendInvariants.ReplayKeepsWf | backend/src/lib.rs:88-251 | any sequence of reducer calls keeps the backend invariant |
| BackendInvariants.ReachableStatesAreWf | backend/src/lib.rs:61-251 | every state reachable from the empty store is well formed: ids are row numbers, codes are distinct, checkpoints are unique per game, counters are in lockstep, there is one progress row per player, and scans are in sequence |
| Common.FindIndex | server/src/lib.rs:82-84 | find-first lookup: the result is the first index whose row matches, and it is absent exactly when no row matches |
| Common.Remove | server/src/lib.rs:86-86 | deleting a row value removes every copy of it and keeps every other row |
| Common.Insert | server/src/lib.rs:296-299 | inserting a row into a set-valued table keeps every row; a row already present leaves the table unchanged, and an absent one is appended |

## Left out

- The SpacetimeDB runtime is not modelled: the table and reducer macros, `ctx.db` iteration order, `try_insert` internals and transaction rollback. Every server error precedes any mutation, so rollback is not needed. The backend calls `try_insert` and drops its error. The model checks each append for a primary-key or unique-code clash, the cases `try_insert` refuses, and leaves the table unchanged on a clash.
- Concurrency and isolation are left out. The framework runs reducers serially. The model replays one call at a time.
- Logging (`log::info!`) is left out, because it is side output only.
- Fixed-width integers are not modelled. Backend ids, counters and orders are `nat` (u64/u32 in the source). Server orders are `int` (i32 in the source). Overflow is ignored: the backend's `count as u64 + 1`, and its u32 `checkpoints_scanned + 1` and `next_required + 1` (backend/src/lib.rs:244-246), never wrap in the model.
- `ctx.timestamp` is an opaque `Timestamp` parameter that is only stored.
- The f64 coordinates are opaque `F64` bit patterns that are only stored. No arithmetic is done on them, and the `{:.5}` log formatting is part of logging.
- The backend `scan_checkpoint` deletes the progress row and re-inserts the updated row. The model updates the row in place, because table order is not observable.
- The backend's `client_token` is stored but never checked (backend/src/lib.rs:231). No token idempotence is modelled, because the code has none.
- These features are absent from the code and so are not modelled: a leaderboard, a game cascade delete, progress deletion, a claim-classification result, a change feed of row events, and player-existence checks.
- The delete_tag cascade can leave later claims whose prerequisite claim was deleted. The model proves this gap exists (`ServerInvariants.DeleteTagCanBreakPrefixClosure`) and claims gap-freedom only for call sequences without deletion.
- The setup→active→ended state machine is not modelled, because the code rewrites the status from any status.
