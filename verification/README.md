# Chinese chess: verified models

Dafny models of the logic behind an online Chinese chess service, with machine-checked proofs. Run
`dafny verify dfyconfig.toml` here to check all of it.

## What is modelled

**The chess engine** (`cchess_engine/`). `Board.dfy` is the mutable board: piece objects, two
players, the 256-cell array, the running Zobrist triple and material values, and the step history.
Every operation is stated on an abstract position (cells, king squares, side to move, history) and
on a snapshot of cells and piece flags; the caches are an invariant over them. The layers below it
are values: `Geometry.dfy` (square arithmetic and the constant tables as the functions they
tabulate), `Pieces.dfy` (hash and material as sums over a placement), `Rules.dfy` (the attack test
and the move generator, and that they agree), `Rays.dfy` (what the loops along a line find),
`Play.dfy` (what moves do and keep, and how many there are), `Snapshots.dfy` (make and undo on cells
and flags), `Repetition.dfy`, `Mirror.dfy` and `Rotation.dfy` (nothing changes left and right, or
seen from the other end with the colours exchanged), `Book.dfy`, `Fen.dfy`, `StartPosition.dfy`, and
`History.dfy` (the growing step table).
`Quiescence.dfy` defines the value of quiet search without cut-offs and the fail-soft bookkeeping of
one node, `Picker.dfy` the bookkeeping of the staged move picker, `Search.dfy` holds the search
engine itself, which makes and unmakes moves in place, and `Engine.dfy` puts board, search and book together.

A *legal* position is well placed (each king in its own fort, advisors in the fort, bishops on their
squares in their own half, every man on the board, armies of at most 1/2/2/2/2/2/5) with the side
that just moved not in check; the start position is legal, and play and null moves keep it.

**The session protocol of the center server** (`center_server.cc`). `Session.dfy` is the state of
hall, rooms and timers as a value, its invariant, and the steps; `Center.dfy` holds the server's
maps and handlers, each proved to make one step. `Follows` says which step each event makes, and a run
of the server is proved to be a trace of such steps. Each score is tied to a log of changes, which sums
to zero, and so are the numbers of games, wins and losses. An event is allowed when: a login arrives on a connection not yet in the hall, or is one the
server ignores or refuses; other messages come from connections in the hall; a player already
disconnected in a game does not disconnect again; answers to draws and take-backs come from a
playing sender (elsewhere the server follows a null game info), an agreed take-back from the side to
move; a pairing names two different users. For a second disconnection, a take-back agreed by the
wrong side, and a login or return on a connection that another entry holds, the invariant is shown
to break, so these guards are exact, and the first two are reached from the empty hall. That a
take-back needs a step to take back turned out not to matter.

**Wire formats**. Over `Bytes.dfy`: `Websocket.dfy` (sections 5.2 and 5.3 of RFC 6455), `Codec.dfy` (the framing
between the servers), `Base64.dfy` (section 4 of RFC 4648). For both stream decoders independence
from chunking is proved for every byte stream, not only for well-formed ones.

**Adler-32** with deferred modulo (`assets/js/adler32.js`), in `Adler.dfy`, against section 2.2 of
RFC 1950.

Numbers are unbounded integers; 32-bit wrap-around, masks and shifts are written out where they
matter, and masks on squares, bytes and sums become the division or remainder they compute.

## What turned out different from the comments

- The comments on the generator and the name of `generateAllMovesNoncheck` are crossed: `generateMoves`
  does not look for checks (`cchess_engine/board.cc:261-262`), `generateAllMovesNoncheck` does
  (`cchess_engine/board.cc:468-489`). The model follows the code.
- All new slots of a grown step table share one record (`cchess_engine/board.cc:676-678`): the 2050th
  record overwrites the 2049th. `History.PushExact` says exactly when a push is safe.
- `setBestMove` writes the killer slots only when slot 0 already holds the move
  (`cchess_engine/search_engine.h:171-180`), so after a reset they stay empty throughout a search, as `Search`
  states. The picker is proved for arbitrary contents.
- The websocket server's message callback calls `decode` once per arrival (`websocket/WebsocketServer.cc:79-129`),
  so a second frame that arrives with the first waits for the next arrival. `TakeOne` says exactly when nothing
  is left behind, `Collect` models draining with `decode` and `reset`.
- The killer table has 64 rows and is written at index depth, but `search` goes to depth 64
  (`cchess_engine/search_engine.cc:500`), whose last step then accesses row 64. `Search` and `SearchRoot`
  say so: a search leaves the table exactly if it reaches depth 64; every search below stays inside. All
  other claims about the search hold at depth 64 too, if nothing else is disturbed by that access.
- `mvBest_` is never initialised (`cchess_engine/search_engine.h:134-142`):
  in a position without a safe move `search` returns whatever it held. In the model that is any move word.
- A piece tested against its own square walks up the array with step 1 and does not stop on its target
  (`cchess_engine/board.cc:553-594`). This happens when a king is captured by a king, rook or cannon: the check
  test that follows stays in the array exactly if a man stands on a higher index, two for the cannon.
  `Determined` is that condition, `KingCaptureOverruns` a move that violates it.

- `transpositionTableGrab` rewrites a mate score in the table each time it reads it
  (`cchess_engine/search_engine.cc:163-179`): a second reading gives another answer unless the distance is 0.
  `Search.ReadAgainExact` is the exact condition.
- A pawn's direction comes from where its own king stands (`cchess_engine/player_piece.h:132-136`), not from its
  colour: on a loaded board with Red's king in the upper half Red's pawns go down. `Rotation.PawnMoves` states the
  moves for every well-placed board, `Rotation.PawnsAdvance` the directions in games from the start position.

## Model

| member | source | states |
|---|---|---|
| Search.SearchEngine.SearchQuiescence | cchess_engine/search_engine.cc:231-310 | for every legal position, distance and window the result is a fail-soft answer for the value of the recursion without cut-offs, lies between mate now and mate by the next move, and board, side, hash, material, history and distance are as on entry |
| Search.SearchEngine.QuietMoves | cchess_engine/search_engine.cc:282-309 | the loop over the moves, in whatever order they come: each cut-off is a lower bound, and the best value kept is exact above alpha |
| Search.SearchEngine.QuietExpand | cchess_engine/search_engine.cc:251-283 | standing pat, allowed unless in check, opens or cuts the window without changing the answer |
| Search.SearchEngine.OrderedMoves | cchess_engine/search_engine.cc:263-283 | in check all generated moves, best history first; otherwise the captures, best exchange first; each exactly once |
| Search.SortMoves | cchess_engine/search_engine.cc:24-46 | the sorted list is a permutation in descending order of the key, and keeps distinct moves distinct |
| Quiescence.QuietBound | cchess_engine/search_engine.h:155-160 | the value without cut-offs stays in [distance - 10000, 9999 - distance], which is what makes the cut on the mate value sound |
| Quiescence.EvaluationBound | cchess_engine/board.h:93-96 | with armies of at most 1/2/2/2/2/2/5 the evaluation stays in [-1208, 1214] |
| Quiescence.RepetitionBound | cchess_engine/search_engine.h:216-221 | every repetition score respects the same mate bounds |
| Quiescence.PerpetualScore | cchess_engine/search_engine.h:216-221 | in every run of play that comes back to an earlier placement and side: whoever alone checked all along is worth 9900 less its distance from the root below zero, its opponent as much above, and anything else is a draw score of 20 against the side at the root |
| Quiescence.MatedScore | cchess_engine/search_engine.cc:304-309 | in check without a repetition and without a move a side is worth its distance less 10000 |
| Quiescence.BestAbove | cchess_engine/search_engine.cc:288-302 | the recursion bounds the worth of every searched move from above |
| Quiescence.BestBelow | cchess_engine/search_engine.cc:288-302 | and it is the least such bound |
| Quiescence.SeenStep | cchess_engine/search_engine.cc:294-306 | one more searched move: if the child answer is fail-soft, the updates of best and alpha keep what is known, and a value at beta is a lower bound |
| Quiescence.SeenAll | cchess_engine/search_engine.cc:301-310 | after all moves the best value, or the mate value if there was none, is fail-soft for the whole window |
| Quiescence.CutIsBelow | cchess_engine/search_engine.cc:296-300 | a move that reaches beta bounds the value of the node from below |
| Quiescence.ChildAnswers | cchess_engine/search_engine.cc:371-397 | the search of the position after a move, one ply less deep unless it gives check, in the window turned round, answers for the move once its sign is changed |
| Quiescence.NullWindow | cchess_engine/search_engine.cc:383-393 | a null window that does not fail high inside the window decides for the whole of it |
| Quiescence.ScoredStep | cchess_engine/search_engine.cc:399-417 | one more move searched to a depth: the updates of best and alpha keep what is known of the direct moves, whose answer is no matter of the table |
| Quiescence.CandidateLegal | cchess_engine/search_engine.h:196-207 | a searched move leads from a legal position to a legal one |
| Search.SearchEngine.SearchFull | cchess_engine/search_engine.cc:312-432 | for every depth up to 64: terminates under (64 - distance, depth) with check extension, null move and verification search, never passes the depth limit, restores everything on every return path, keeps its score within the mate bounds of its distance; mate cut, repetition and horizon give exactly their values; only depth 64 can leave the killer table |
| Search.SearchEngine.VisitNode | cchess_engine/search_engine.cc:317-332 | above the horizon the mate cut comes first, then a repetition, then the value of the node |
| Search.SearchEngine.FullNode | cchess_engine/search_engine.cc:334-432 | the value of a node is the answer of the table if it has one, else the evaluation at the depth limit, else that of a null move that cuts, which needs no check, enough material and a passed turn worth beta, else that of the moves; and the board is restored |
| Search.SearchEngine.TryNull | cchess_engine/search_engine.cc:346-358 | the null move and the verification search restore the board; a cut is made only out of check and with material above 200, its value is one the side to move reaches by passing if the search after the null move is quiet, with material up to 400 the node itself is worth beta if the verification search is; and where these searches are quiet, there is no other case without a cut |
| Search.SearchEngine.FullMoves | cchess_engine/search_engine.cc:360-432 | the move loop ends and restores the board; it scores a position as mated exactly if no move it tried is safe, and then no generated move is; below beta its best bounds the worth of every direct move, and above alpha it is the worth of the move it comes from, if that is direct; the flag it stores the score with says on which side of the window the score is, and the move a score above alpha comes from is credited with the square of the depth in the history table |
| Search.SearchEngine.MoveLoop | cchess_engine/search_engine.cc:366-418 | the loop itself, for any window and any picker; the move to be remembered is the one the score comes from, if it is above alpha |
| Search.FlagClaims | cchess_engine/search_engine.cc:360-418 | a fail-soft score stored with its flag says something true |
| Search.SearchEngine.SearchMove | cchess_engine/search_engine.cc:371-397 | one move with check extension and re-search, searched exactly if it leaves the own king safe: if it repeats a position, or gives no check one ply above the horizon, the answer is fail-soft for its worth, and it is mate by the next move if alpha leaves no more to be found |
| Search.SearchEngine.SearchChild | cchess_engine/search_engine.cc:378-393 | the position after a move, searched from the other side, answers for the move with the sign changed |
| Search.SearchEngine.SearchWindows | cchess_engine/search_engine.cc:378-393 | a full window for the first move, a null window and perhaps a full one again for the others: the answer is one for the whole window, in the full search and at the root |
| Search.SearchEngine.SearchRoot | cchess_engine/search_engine.cc:434-482 | restores the board; the best move is a generated one that leaves the own king safe, and one is found exactly if there is one; no move that repeats a position, or at depth 1 gives no check, is worth more than the best value, which is the worth of the best move if that is such a move; the last step credits the best move in the history table and leaves the killer table exactly at depth 64, and empty killer slots stay empty |
| Search.SearchEngine.Search | cchess_engine/search_engine.cc:498-532 | iterative deepening, stopped by the clock at any depth: the move returned is a generated one that leaves the own king safe whenever there is one, the board is untouched, the killer table is left exactly if depth 64 is reached, every killer slot is as empty afterwards as after the reset, and only the last depth searched can have a decided value; among the moves that repeat a position, or at depth 1 give no check, none is worth more than the move returned if that is one of them |
| Search.SearchEngine.SetBestMove | cchess_engine/search_engine.h:171-180 | the tables after storing a best move; row 64 is beyond the killer table |
| Search.SearchEngine.Probe | cchess_engine/search_engine.cc:151-197 | whatever item the table holds, the answer is the one its depth, flag and score give in this window, in the range of the distance, and the move it offers is one that can be tried |
| Engine.PlayFromStart | cchess_engine/board.h:30-40 | on a new board, any run of operations from the start position reaches the position they lead to, with hash and material exact |
| Engine.PlayFromText | cchess_engine/board.cc:178-190 | the same from any loaded text in which each side has one king |
| Engine.SearchFromStart | cchess_engine/search_engine.cc:484-535 | on a new board the search from the start position returns a generated move that leaves the own king safe |
| Engine.BookTry | cchess_engine/search_engine.cc:486-494 | the book answer is made on the board, kept if it leaves the own king safe, and undone without trace |
| Engine.BestMove | cchess_engine/search_engine.cc:484-535 | with the book in front, if there is a safe generated move, the result is one exactly unless it is a book hit that is not generated; if the moves listed for the position and its mirror image are generated in them, it always is |
| Engine.HonestAnswer | cchess_engine/search_engine.h:76-96 | an answer of a book whose listed moves are generated where they are listed is generated |
| Engine.CollisionPlayed | cchess_engine/search_engine.cc:489-494 | a word that is no move, listed under the lock word of the start position, passes all tests of the book branch |
| Search.GrabBound | cchess_engine/search_engine.cc:151-197 | however often mate scores are rewritten in place, the table answers no score a node at this distance could not have |
| Search.StoredBound | cchess_engine/search_engine.cc:199-229 | a score stored from any distance stays in the range the table can hold |
| Search.TableAnswer | cchess_engine/search_engine.cc:151-197 | if what an item says of its node is true, the table answers fail-soft in every window |
| Search.StoredThenRead | cchess_engine/search_engine.cc:199-229 | a mate stored at one distance and read at another keeps its distance from the node and is read at any depth, the score of a perpetual check is never read, any other score is read unless it looks like a draw or was searched less deep |
| Search.ReadAgainExact | cchess_engine/search_engine.cc:163-179 | a score read twice gives the same answer exactly if the distance is 0 or it is no mate, since reading rewrites it in place |
| Search.CaptureOrder | cchess_engine/constants.h:280-280 | captures are ordered by the victim first and the attacker second, from king over rook, knight and cannon, pawn down to advisor and bishop |
| Search.SearchEngine.SearchRootMove | cchess_engine/search_engine.cc:450-475 | one root move, searched exactly if it leaves the own king safe, answers as in the full search in the window from the best value to 10000 |
| Search.SearchEngine.TryMove | cchess_engine/search_engine.h:196-207 | an unsafe move is taken back without trace; a safe one leaves the board exactly one step further with the turn passed |
| Search.SearchEngine.TakeBack | cchess_engine/search_engine.h:209-214 | undoing the step returns to the very state it was made in |
| Search.SearchEngine.DoNullMove | cchess_engine/search_engine.h:182-187 | the position with the turn passed and a null record follows, legal and one step further on the history |
| Search.SearchEngine.UndoNullMove | cchess_engine/search_engine.h:189-194 | back to the state before the null move |
| Search.SearchEngine.SelfInCheck | cchess_engine/board.h:99-103 | whether the side to move is in check |
| Search.SearchEngine.PickAll | cchess_engine/search_engine.cc:69-149 | for any table move and any killer slots, in and out of check: no move comes twice, every generated move that leaves the own king safe comes, and nothing else but the table move, legal moves, and killers that end off the board |
| Search.Sorter.constructor | cchess_engine/search_engine.cc:69-108 | in check the hints count only if they were generated |
| Search.Sorter.NextMove | cchess_engine/search_engine.cc:110-149 | a table move comes first; each call gives a move not given before and goes forward, or returns 0 when every wanted move was given |
| Search.Sorter.GiveRest | cchess_engine/search_engine.cc:137-148 | the next listed move that is none of the hints |
| Picker.GivesKiller1 | cchess_engine/search_engine.cc:119-124 | passing the first killer stage leaves no wanted move behind and repeats none |
| Picker.GivesKiller2 | cchess_engine/search_engine.cc:125-131 | the same for the second killer stage |
| Picker.GivesRest | cchess_engine/search_engine.cc:137-145 | the same for each step through the list |
| Picker.RestCovers | cchess_engine/search_engine.cc:137-148 | a used-up list means nothing is missing |
| Picker.GivenPseudo | cchess_engine/search_engine.cc:368-371 | what the picker gives, other than the table move, passes the attack test |
| Rules.CheckIsCapture | cchess_engine/board.cc:245-259 | on every well-placed board a king is in check exactly if some enemy man has a generated capture onto it or the two kings face each other |
| Rules.AttackIsGenerated | cchess_engine/board.cc:529-607 | onto any cell its own side does not hold, the attack test accepts exactly the generated moves, the flying king, and the cannon jumping one screen onto an empty cell |
| Rules.CapturesAreGenerated | cchess_engine/board.cc:263-465 | generating captures only gives exactly the generated moves that take an enemy man |
| Rules.BishopStep | cchess_engine/board.cc:312-338 | from a bishop square the unchecked landing cell is on the board and in the half exactly when the half step is |
| Rules.KnightAgrees | cchess_engine/board.cc:340-365 | the leg table and the jump table describe the same knight moves |
| Rules.RaysCover | cchess_engine/constants.h:123-123 | the four unit steps reach every aligned square, each along one ray only |
| Rules.OffsetStep | cchess_engine/utils.h:45-58 | walking by the offset visits exactly the squares between |
| Rays.ScreenFound | cchess_engine/board.cc:553-594 | the second walk reaches the target exactly if the first man met is the only screen |
| Rays.RookRayEnds | cchess_engine/board.cc:367-389 | where the rook loop stops decides which squares of the ray are targets |
| Rays.CannonQuietEnds | cchess_engine/board.cc:391-407 | the same for the quiet part of the cannon loop |
| Rays.CannonCaptureEnds | cchess_engine/board.cc:408-423 | the first man behind the screen is the only possible capture |
| Rays.PackAllExact | cchess_engine/utils.h:91-94 | packing distinct targets gives distinct moves that unpack to them |
| Geometry.PackUnpack | cchess_engine/utils.h:81-94 | packing and unpacking a move are inverse |
| Geometry.UnpackPack | cchess_engine/utils.h:81-94 | and so the other way around |
| Geometry.BoardCells | cchess_engine/constants.h:9-47 | the board is ten rows of nine cells, and the palaces are the eighteen cells of the fort table |
| Rotation.TurnMoves | cchess_engine/board.cc:491-500 | turning a position round by half a turn with the colours exchanged turns its generated moves round and adds none |
| Rotation.TurnGenerated | cchess_engine/board.cc:263-465 | one generated move of any man, turned round |
| Rotation.TurnAttack | cchess_engine/board.cc:529-607 | what the attack test accepts it accepts turned round, whatever colour stands on the target |
| Rotation.TurnPseudo | cchess_engine/board.cc:609-627 | so turning round keeps what passes the static part of legalMove |
| Rotation.TurnCheck | cchess_engine/board.cc:245-259 | a side is in check exactly if the other side is in the position turned round |
| Rotation.TurnSafe | cchess_engine/board.cc:609-627 | a move leaves the own king safe exactly if it does so turned round |
| Rotation.TurnLegal | cchess_engine/board.h:99-103 | turned round, positions of play stay positions of play |
| Rotation.PawnMoves | cchess_engine/player_piece.h:132-136 | the generated moves of a pawn, in rows and columns: one row towards the half its own king is not in, and beyond the river one column to either side |
| Rotation.PawnsAdvance | cchess_engine/player_piece.h:132-136 | in every position of a game played from the start position the pawns of Red go up or, in the upper half, aside, those of Black down or, in the lower half, aside |
| Rotation.KingsStayHome | cchess_engine/player_piece.h:132-136 | in such a game each king stays in its half |
| Rotation.TurnEvaluation | cchess_engine/board.h:93-96 | the evaluation of a position is that of the position turned round with colours and turn exchanged |
| Rotation.TurnMaterial | cchess_engine/player_piece.h:126-130 | the material of a side is that of the other side in the placement turned round |
| Rotation.StartEvaluation | cchess_engine/board.h:93-96 | the start position is its own image and is worth the 3 for the move |
| Rotation.AloneInTheMiddle | cchess_engine/constants.h:141-262 | what a lone man of either side is worth on each cell of the middle file |
| Rotation.TablesMirror | cchess_engine/constants.h:141-262 | the value tables are the same on the left and on the right |
| Play.PseudoIsGenerated | cchess_engine/board.cc:609-627 | what the static part of legalMove accepts, in terms of the generator |
| Play.GeneratedOnBoard | cchess_engine/board.cc:312-338 | every generated move ends on the board, bishops on bishop squares |
| Play.NoKingCapture | cchess_engine/board.cc:609-627 | in a legal position no move that passes the attack test captures a king |
| Play.MoveKeepsWellPlaced | cchess_engine/board.cc:630-644 | every such move keeps the board well placed |
| Play.PlayedLegal | cchess_engine/board.h:176-180 | play goes from legal positions to legal positions |
| Play.PassedLegal | cchess_engine/search_engine.h:182-187 | and so does a null move out of check |
| Play.AtMost119Moves | cchess_engine/search_engine.h:14-14 | no well-placed position has more than 119 generated moves |
| Play.ListFits | cchess_engine/board.cc:491-500 | a list of generated moves without repetition fits the 128-entry buffers |
| Play.KingStaysDetermined | cchess_engine/board.cc:630-644 | a move that does not take the king lets no man stand on its square |
| Play.WalkStops | cchess_engine/board.cc:553-568 | the walk of a king or rook tested against its own square stops in the array exactly if a man stands on a higher index |
| Play.SecondWalkStops | cchess_engine/board.cc:583-594 | the cannon walks to an end exactly if two do |
| Play.KingCaptureOverruns | cchess_engine/board.cc:630-644 | a king capture after which the check test runs out of the array |
| Play.TriesDetermined | cchess_engine/board.cc:609-627 | every move that passes the attack test in a legal position can be made and tested |
| Play.TryableExact | cchess_engine/search_engine.h:196-207 | which move words can be tried at all: those after which both tests end and which, if kept, lead to a legal position |
| Play.PseudoTryable | cchess_engine/board.cc:609-627 | every move that passes the attack test can be tried |
| Repetition.RepetitionFound | cchess_engine/board.cc:691-724 | in any run of play whose present placement and side to move occurred before, the status is positive, and its bits say whether all own and all opposing moves since the nearest equal key gave check |
| Repetition.StatusExact | cchess_engine/board.cc:691-724 | the status is positive exactly if a reversible earlier step of the side to move carries the present key; its bits speak of the steps since the nearest one |
| Repetition.RunRecords | cchess_engine/board.cc:630-688 | the history of a run records each move with its capture, its check and the key of the position it was made in |
| Repetition.MenDecrease | cchess_engine/board.cc:630-644 | between equal placements nothing was captured |
| Repetition.NearestMatches | cchess_engine/board.cc:700-715 | the nearest position with the present key is the step the scan stops at |
| Mirror.MirrorMoves | cchess_engine/utils.h:76-104 | the moves generated on the mirrored position are exactly the mirrored moves of the original, so a book move found under the mirror hash maps back to a generated move |
| Mirror.MirrorHashExact | cchess_engine/board.cc:97-115 | the mirror hash is the full hash of the mirrored placement with the same side to move |
| Mirror.MirrorGenerated | cchess_engine/board.cc:263-465 | a single generated move mirrors to a generated move |
| Mirror.MirrorIsGenerated | cchess_engine/utils.h:101-104 | mirroring a packed move twice gives it back, and generation is preserved |
| Book.OpenBook.BookMove | cchess_engine/search_engine.h:76-96 | in any well-placed position the answer is a listed move, or the mirror image of a move listed for the mirrored position, generated here exactly if that one is generated there; so if the moves listed for these two positions are generated in them, the answer is generated; 0 exactly if neither is listed |
| Book.MirrorOffers | cchess_engine/utils.h:101-104 | mirroring any move word, on the board or not: the mirrored word is generated exactly if the word is generated in the mirrored position |
| Book.OpenBook.FindBestMove | cchess_engine/search_engine.h:76-96 | a listed move, else the mirrored move of one listed for the mirror image, else 0 |
| Book.OpenBook.FindInner | cchess_engine/search_engine.h:99-125 | one of the moves listed for the lock word, if there is any |
| Book.OpenBook.LowerBound | cchess_engine/search_engine.h:102-106 | the first entry whose lock word is not below the given one |
| Pieces.HashUpdate | cchess_engine/zobrist_helper.h:113-116 | replacing one cell changes the hash by the two cells' keys |
| Pieces.HashSet | cchess_engine/zobrist_helper.h:108-116 | and so with the side key in it |
| Pieces.TotalUpdate | cchess_engine/player_piece.h:99-106 | replacing one cell changes a total by the two cells' weights |
| Pieces.MaterialBound | cchess_engine/constants.h:141-262 | no army of legal size is worth more than 1211 |
| Pieces.TableValue | cchess_engine/constants.h:141-262 | the value tables never leave 0 and the maximum of the kind |
| Pieces.ArmyTotal | cchess_engine/player_piece.h:99-130 | a total weighted by kind is bounded by the largest army |
| Boards.Board.RunOperations | cchess_engine/board.h:87-192 | any run of makes, undos, plays, back-steps, null moves and turn changes goes through the positions these operations give one after the other, undoing bringing back what stood there before, and after it hash and material of both sides equal a recomputation from the cells |
| Boards.StepsUndone | cchess_engine/board.cc:630-667 | on positions, undo after make, back-step after play and undoing a null move are the identity |
| Boards.Board.Apply | cchess_engine/board.h:87-192 | one operation does to the board what it does to the position |
| Boards.Board.MakeThenUndo | cchess_engine/board.cc:630-660 | any nested make/undo sequence on board squares whose check tests end goes through the position the moves lead to and restores cells, piece objects, hash, material and history: captures, also of kings, empty starts and start = end included |
| Boards.Board.MakeMove | cchess_engine/board.cc:630-644 | the new position, the recorded step, and all caches, for every move after which the check test is defined |
| Boards.Board.KingStands | cchess_engine/board.cc:630-644 | while the other king stands and is not taken, a move onto the board is defined |
| Boards.Board.UndoMove | cchess_engine/board.cc:647-660 | cells, piece objects, caches and history of before the last step |
| Boards.Board.AddPiece | cchess_engine/board.cc:502-512 | cells and flags change by one piece, caches with them |
| Boards.Board.DelPiece | cchess_engine/board.cc:514-527 | the piece taken off, cells and flags, caches |
| Boards.Board.ChangeSide | cchess_engine/board.h:87-91 | only the side to move changes, and the hash with it |
| Boards.Board.PlayMove | cchess_engine/board.h:176-180 | the position after the move with the turn passed |
| Boards.Board.BackOneStep | cchess_engine/board.h:188-192 | the last step undone and the turn passed back |
| Boards.Board.MakeNullMove | cchess_engine/board.h:139-142 | a step is recorded and nothing else changes |
| Boards.Board.UndoNullMove | cchess_engine/board.h:144-147 | and dropped again |
| Boards.Board.Evaluate | cchess_engine/board.h:93-96 | the cached values give the recomputed material balance |
| Boards.Board.WillKillKing | cchess_engine/board.cc:245-259 | true exactly if the king is in check, also when an enemy stands on the square of the captured king, as long as its test ends |
| Boards.Board.LegalMovePiece | cchess_engine/board.cc:529-607 | the walks and tables compute the attack relation; against the own square too, if the walk ends |
| Boards.Board.WalkUp | cchess_engine/board.cc:553-594 | the walk that starts on its target stops at the first man above it |
| Boards.Board.Walk | cchess_engine/board.cc:553-566 | stops at the target or at the first man |
| Boards.Board.CannonReaches | cchess_engine/board.cc:560-594 | nothing in between onto an empty cell, or exactly one screen |
| Boards.Board.FortTargets | cchess_engine/board.cc:269-311 | king and advisor steps inside the forts |
| Boards.Board.BishopTargets | cchess_engine/board.cc:312-338 | bishop steps over an empty eye |
| Boards.Board.KnightTargets | cchess_engine/board.cc:340-365 | knight jumps over free legs |
| Boards.Board.PawnTargets | cchess_engine/board.cc:425-463 | pawn steps ahead, and sideways across the river |
| Boards.Board.RookRay | cchess_engine/board.cc:367-389 | all rook targets of one ray, each once |
| Boards.Board.CannonRay | cchess_engine/board.cc:391-423 | all cannon targets of one ray, each once |
| Boards.Board.GenerateMoves | cchess_engine/board.cc:263-465 | exactly the generated moves of a shown piece, each once; none for a hidden one |
| Boards.Board.GenerateAllMoves | cchess_engine/board.cc:491-500 | exactly the generated moves of the side to move, each once, never more than 119 |
| Boards.Board.GenerateSafeMoves | cchess_engine/board.cc:468-489 | exactly the generated moves that leave the own king safe; the board is as before |
| Boards.Board.TryLegalMove | cchess_engine/board.cc:609-627 | own man, target not own, attack test, own king safe; the board is as before |
| Boards.Board.NoWayToMove | cchess_engine/board.cc:748-753 | true exactly if no generated move leaves the own king safe |
| Boards.Board.RepetitionStatus | cchess_engine/board.cc:691-724 | the scan of the history |
| Boards.Board.MirrorZobrist | cchess_engine/board.cc:97-115 | the hash of the mirrored cells |
| Boards.Board.ToFen | cchess_engine/board.cc:200-243 | the text of cells and side |
| Boards.Board.InitFromFen | cchess_engine/board.cc:138-175 | reading a text sets up its placement with new men, whose lists and caches are right, and says which side moves |
| Boards.Board.ResetFromFen | cchess_engine/board.cc:178-190 | placement, side, hash and material of the text, history empty, all men new; the king of a side with several is the last in reading order; the board is ready to play exactly if each side has one king |
| Boards.Board.ResetData | cchess_engine/board.cc:127-135 | the empty board |
| Boards.Board.AddPieceToBoard | cchess_engine/board.cc:117-125 | one new man more on the board, in the list of its side, with all caches right; a king becomes the recorded one, whether or not there was one |
| Boards.Board.Reload | cchess_engine/board.cc:138-243 | printing and loading again restores placement and side and reproduces hash and material; the text has at most 85 characters |
| Snapshots.UndoRestores | cchess_engine/board.cc:502-660 | at the level of cells, squares and show flags, undoing is the exact inverse of making |
| Snapshots.CacheUpdate | cchess_engine/board.cc:502-527 | one cell more or less changes hash and material as addPiece and delPiece do |
| Snapshots.ViewOfMove | cchess_engine/board.cc:630-644 | the cell changes of a move, seen as a position |
| Fen.LoadText | cchess_engine/board.cc:138-243 | loading the text of a placement gives the placement and the side |
| Boards.Board.Reset | cchess_engine/board.cc:193-197 | the legal start position, Red to move, with an empty history, all caches right and all men new |
| StartPosition.StartText | cchess_engine/board.h:16-16 | the start position prints as the text that reset loads |
| StartPosition.StartLoads | cchess_engine/board.cc:193-197 | that text loads the start position with Red to move, and the board can hold it |
| StartPosition.StartLegal | cchess_engine/board.h:16-16 | the start position is well placed, with no more than the full army, and neither side is in check |
| StartPosition.StartMove | cchess_engine/board.h:16-16 | Red has a generated move that leaves its king safe |
| StartPosition.PrintRow | cchess_engine/board.cc:200-243 | a row prints as a text that depends on that row alone, followed by the rows after it |
| Fen.TextOfLoaded | cchess_engine/board.cc:138-243 | printing what a canonical text loads gives that text |
| Fen.PrintCanonical | cchess_engine/board.cc:200-243 | every printed text is canonical |
| Fen.TextFits | cchess_engine/board.cc:202-202 | with at most 32 men the text has at most 85 characters |
| Fen.LoadStep | cchess_engine/board.cc:144-169 | what the reading loop does with each character; a letter always finds its cell empty |
| History.PushExact | cchess_engine/board.cc:663-688 | a push leaves the older records alone exactly if it goes to one of the first 2048 slots or the first of a growth, or repeats the records it shares a slot with |
| History.RecordLost | cchess_engine/board.cc:676-678 | the 2050th record overwrites the 2049th |
| History.FirstPushesExact | cchess_engine/board.h:16-16 | up to 2049 records the table is an exact stack |
| History.Table.Push | cchess_engine/board.cc:663-688 | the records read back after a push, growth and sharing included |
| History.Table.Pop | cchess_engine/board.cc:652-652 | the last record, and the records without it |
| History.Table.Replay | cchess_engine/board.cc:646-688 | every run of pushes and pops that never pushes onto more than 2048 records reads back as a plain stack |
| Session.InverseIndexes | center_server.cc:219-238 | the two indexes are inverse to each other |
| Session.OpponentOf | center_server.cc:212-270 | nobody in the hall is disconnected; in a game exactly with game info, whose opponent is another hall entry of the other colour in the same room, both linked under their present connections |
| Session.OneTimerPerRoom | center_server.cc:307-319 | each live room has exactly one armed timer: the stored one, owned by the player to move |
| Session.NoTimerOnEnded | center_server.cc:514-573 | no timer is armed for a room whose game is over |
| Session.EnterGood | center_server.cc:219-224 | a new user keeps the invariant |
| Session.EnterExact | center_server.cc:219-224 | insert does not overwrite: a new user keeps the invariant exactly if its connection is not yet in the hall |
| Session.SecondNameBreaks | center_server.cc:219-224 | one connection that logs in under two names breaks the invariant |
| Session.SitGood | center_server.cc:240-251 | a new room keeps it |
| Session.RearmGood | center_server.cc:774-781 | a step or take-back keeps it |
| Session.RearmExact | center_server.cc:825-843 | and only if the timer goes to the side then to move: a take-back agreed by the other side breaks it |
| Session.LeaveGood | center_server.cc:234-238 | leaving the hall keeps it |
| Session.LeaveExact | center_server.cc:610-636 | and only for those in no game: a second disconnection of a player disconnected in a game breaks it |
| Session.SecondDisconnectBreaks | center_server.cc:610-636 | a run from the empty hall that ends in such a second disconnection |
| Session.WrongTakeBackBreaks | center_server.cc:825-843 | a run from the empty hall that ends in a take-back agreed by the wrong side |
| Session.OverGood | center_server.cc:253-270 | the end of a game keeps it |
| Session.ReturnGood | center_server.cc:637-649 | a return under a new connection keeps it |
| Session.ReturnExact | center_server.cc:637-649 | and only under a connection no other entry holds |
| Session.ReturnOverBreaks | center_server.cc:637-649 | a player who comes back on the connection of its opponent breaks the invariant |
| Session.PaidBalanced | center_server.cc:342-354 | two opposite changes when a game ends keep the books: each score is the login score plus the changes logged for that entry, and all changes sum to zero |
| Session.NoPointsMade | center_server.cc:514-550 | so the scores of all entries together are the scores they logged in with |
| Session.PairedPlay | center_server.cc:741-755 | a pairing of two waiting users makes a new live room with the colours they were paired with, both play, and the timer of Red runs |
| Session.GameCounted | center_server.cc:342-354 | a game that ends adds one game to both players, a win to the one that gained and a loss to the one that lost points |
| Center.CenterServer.Run | center_server.cc:398-424 | for every run of events the halls form a trace of the protocol, one step for each event, that keeps the invariant; the scores over all entries there ever were sum to those of the logins, and games, wins and losses of each entry are those of its changes since |
| Center.RunNewServer | center_server.cc:398-424 | the same for a new server |
| Center.CenterServer.Handle | center_server.cc:398-424 | every allowed event makes the very step of the protocol it names, keeps the invariant, and changes no score except those of the two players of a game that ends |
| Center.CenterServer.HandleLogin | center_server.cc:690-719 | a login enters, returns or changes nothing |
| Center.CenterServer.HandlePaired | center_server.cc:741-755 | a pairing starts the game exactly if both users wait |
| Center.CenterServer.AllowedIs | center_server.cc:398-424 | what the handlers rely on, as a condition on the hall |
| Center.CenterServer.HandleGame | center_server.cc:757-877 | moves, resignations, draws and time-outs make the step they name and pay the two players |
| Center.CenterServer.HandleQuiet | center_server.cc:610-891 | match requests, take-backs and disconnections make the step they name and pay nobody |
| Center.CenterServer.Login | center_server.cc:690-719 | a new user enters with the score it brought, a player disconnected in a game returns, anyone else here is refused or ignored; all other scores stay |
| Center.CenterServer.Reconnect | center_server.cc:637-649 | the entry moves to the new connection, its game info with it |
| Center.CenterServer.Disconnect | center_server.cc:610-636 | a player keeps its seat, anyone else leaves |
| Center.CenterServer.MatchRequest | center_server.cc:725-739 | an online user starts matching |
| Center.CenterServer.CancelMatch | center_server.cc:879-890 | a matching user is online again |
| Center.CenterServer.MatchResponse | center_server.cc:741-755 | a game starts exactly if both named users are here and matching |
| Center.CenterServer.CreateRoom | center_server.cc:240-251 | two linked players, a fresh room, Red's timer armed |
| Center.CenterServer.MoveStep | center_server.cc:757-793 | only the playing side to move acts: it ends the game, or the turn and the timer pass to the opponent |
| Center.CenterServer.Giveup | center_server.cc:795-810 | any playing side ends the game as loser |
| Center.CenterServer.ForgiveResponse | center_server.cc:825-843 | an agreed take-back by the playing side to move goes one step back, passes turn and timer to the opponent, and stores the position and last move that a returning player is shown |
| Center.CenterServer.DrawResponse | center_server.cc:860-877 | an agreed draw ends the game without score changes |
| Center.CenterServer.TimeOut | center_server.cc:569-573 | the owner of the timer loses; the timer is gone and its room ended |
| Center.CenterServer.GameOver | center_server.cc:514-567 | what one side gains the other loses, wins and losses are counted, the timer is cancelled, the room ends for the first time, both entries go online or leave |
| Center.CenterServer.Settle | center_server.cc:514-550 | scores and counts by kind of ending, summing to zero |
| Center.CenterServer.FindOpp | center_server.cc:212-217 | the other player of the room |
| Websocket.SendAndReceive | websocket/WebsocketContext.cc:10-148 | any list of frames, cut up in any way, is read back exactly: opcodes and unmasked payloads in order |
| Websocket.Receive | websocket/WebsocketContext.cc:10-104 | for every byte stream, well formed or not, what is read depends only on the bytes, not on how they were cut |
| Websocket.DrainSplit | websocket/WebsocketContext.cc:10-104 | draining in two parts is draining at once |
| Websocket.DrainStream | websocket/WebsocketContext.cc:106-148 | a stream of frames drains to exactly those frames, with nothing left |
| Websocket.WireRead | websocket/WebsocketContext.cc:106-148 | a frame at the front is read back with exactly its bytes |
| Websocket.NextStable | websocket/WebsocketContext.cc:10-104 | a complete frame or an error does not depend on what follows |
| Websocket.ShortestForm | websocket/WebsocketContext.h:250-271 | of all frames with the same payload and masking the encoder's is the shortest |
| Websocket.HelloFrames | websocket/WebsocketContext.cc:106-148 | the text frames of section 5.7 of RFC 6455, with and without a mask, byte for byte |
| Websocket.LongFrames | websocket/WebsocketContext.cc:106-148 | the headers of its frames of 256 bytes and of 64 KiB |
| Websocket.XorIsBitwise | websocket/WebsocketContext.h:215-238 | masking a byte is the bitwise exclusive or |
| Websocket.Opcodes | websocket/WebsocketContext.h:40-55 | the opcodes that are handled |
| Websocket.RefusedExact | websocket/WebsocketContext.cc:14-73 | a stream is refused exactly for an opcode that is not handled or a 64-bit length above 4 MiB |
| Websocket.MaskedTwice | websocket/WebsocketContext.h:207-226 | masking twice with the same key is the identity |
| Websocket.NumberOf | websocket/WebsocketContext.h:156-170 | the extended length is read back from its bytes |
| Websocket.GetFrame | websocket/WebsocketContext.cc:130-148 | the bytes of the frame layout are appended |
| Websocket.WebsocketContext.Decode | websocket/WebsocketContext.cc:10-104 | through all parser states no byte is lost, and the outcome is what the layout says about all bytes so far |
| Websocket.WebsocketContext.ReadBasic | websocket/WebsocketContext.cc:15-55 | the first two bytes |
| Websocket.WebsocketContext.ReadLength | websocket/WebsocketContext.cc:56-80 | the extended length and its limit |
| Websocket.WebsocketContext.ReadMask | websocket/WebsocketContext.cc:81-90 | the mask key |
| Websocket.WebsocketContext.ReadPayload | websocket/WebsocketContext.cc:91-100 | the payload, unmasked |
| Websocket.WebsocketContext.Collect | websocket/WebsocketContext.h:339-343 | decode and reset until no whole frame is left: all frames, and the rest kept |
| Websocket.WebsocketContext.TakeOne | websocket/WebsocketServer.cc:79-129 | the server's message callback takes one frame for each arrival of bytes: no whole frame stays behind exactly if there was at most one |
| Websocket.TwoAtOnce | websocket/WebsocketServer.cc:79-129 | two frames that arrive together: one is taken, the other stays behind whole |
| Websocket.WebsocketData.Through | websocket/WebsocketContext.h:207-248 | the masking loop |
| Codec.SendAndReceive | server_codec/codec.cc:136-169 | any list of sendable messages, cut up in any way, is delivered exactly, nothing left over |
| Codec.DrainSplit | server_codec/codec.cc:136-169 | for every byte stream, well formed or not, and every cut, what is delivered and what stays is the same |
| Codec.DrainPrefix | server_codec/codec.cc:136-169 | of a stream of frames that arrived in part the complete ones are delivered, and a proper prefix of the next is kept |
| Codec.DrainStream | server_codec/codec.cc:136-169 | a whole stream delivers exactly the messages sent |
| Codec.FrontOfFrame | server_codec/codec.cc:140-157 | a whole frame passes every length and checksum test and is read back |
| Codec.PayloadParses | server_codec/codec.cc:188-237 | checksum, name length, type and body are read back |
| Codec.FrontOfPart | server_codec/codec.cc:140-167 | a frame that has not fully arrived is waited for |
| Codec.LengthExact | server_codec/codec.cc:140-148 | nothing is decided on fewer than 16 bytes, and then a length is refused exactly if it is not between 10 and 64 MiB |
| Codec.ShortestMessage | server_codec/codec.h:96-97 | a payload has at least 10 bytes, and 10 exactly for a name of one letter and no body |
| Codec.CheckSumIs | server_codec/codec.cc:66-69 | the checksum of the framing is the plain Adler-32 of its bytes |
| Codec.Int32Read | server_codec/codec.cc:129-134 | a 32-bit number is read back, sign included |
| Codec.Send | server_codec/codec.h:70-78 | the frame of the message |
| Codec.ProtobufCodec.OnMessage | server_codec/codec.cc:136-169 | everything complete is delivered; an error or an incomplete frame stays in front |
| Codec.ProtobufCodec.Receive | server_codec/codec.cc:136-169 | the pieces in which the bytes arrive do not matter |
| Base64.RoundTrip | websocket/base64.h:36-144 | decoding what was encoded gives the bytes back, and the text has four characters for every three bytes begun |
| Base64.EncodeBytes | websocket/base64.h:36-82 | the masks and shifts compute the definition on 24-bit groups |
| Base64.DecodeText | websocket/base64.h:101-144 | for every string the decoder computes the definition; missing characters become digit 255 and touch no output byte |
| Base64.MasksSplit | websocket/base64.h:46-51 | the encoder's masks are the four digits of the group |
| Base64.JoinBytes | websocket/base64.h:116-118 | the decoder's masks are the three bytes of the group |
| Base64.FindLetter | websocket/base64.h:13-28 | the alphabet is read back |
| Base64.LetterIs | websocket/base64.h:13-16 | the letters are those of the alphabet string |
| Base64.Examples | websocket/base64.h:36-82 | the examples of RFC 4648: foobar, and both lengths of padding |
| Adler.AdlerBuf | assets/js/adler32.js:42-55 | for every array and seed the deferred-modulo sum is the per-byte Adler-32 |
| Adler.AdlerBstr | assets/js/adler32.js:27-40 | the same for strings of bytes |
| Adler.AdlerStr | assets/js/adler32.js:57-85 | for every well-formed string and seed it is the Adler-32 of its UTF-8 bytes |
| Adler.Blocks | assets/js/adler32.js:45-54 | the nested loops keep the sums right modulo 65521 and bounded by 65760 and 600000 |
| Adler.BlockFits | assets/js/adler32.js:45-53 | even three bytes more than a block keep both sums below 2^31, and folding restores the bounds |
| Adler.FoldKeeps | assets/js/adler32.js:51-52 | folding keeps the remainder modulo 65521 |
| Adler.StrBlock | assets/js/adler32.js:61-83 | the byte budget of a block may be overrun by up to three bytes, and everything still fits |
| Adler.PairOctets | assets/js/adler32.js:68-73 | the bytes taken from a surrogate pair are the UTF-8 bytes of its code point |
| Adler.AddByte | assets/js/adler32.js:47-50 | adding a byte without reducing is adding it in the definition |
| Adler.Chained | assets/js/adler32.js:42-55 | the checksum of y seeded with the checksum of x is the checksum of x followed by y |
| Adler.PlainChecksum | assets/js/adler32.js:42-55 | without a seed the low half is one plus the sum of the bytes, and the high half the sum of these sums, both modulo 65521 |
| Adler.ChecksumOfAbc | assets/js/adler32.js:42-55 | the checksum of the text abc |

## Left out

- Search.SearchEngine.Probe: the item the transposition table holds for a node is left open: it may have any score in the table's range, any depth and flag, and any word that can be tried; a checksum collision may in principle offer a word whose check test leaves the array or that leads out of well-placed positions, and what the source does then is not modelled. Because the table rewrites stored values, and because of null-move pruning, no minimax value is claimed for `searchFull` and `searchRoot` at every depth: what is claimed is the value of direct answers (`Direct`), those of moves that repeat a position or that give no check one ply above the horizon.
- Engine.BestMove: the words the book can answer are such that both check tests after them end.
- Search.SearchEngine.TryKiller: for a killer move that ends off the board the answer of `legalMove` is left open; the picker's claims hold whatever it is. The full search assumes slots that are empty or hold on-board moves, which is all a search ever stores.
- Boards.Board.TryLegalMove: moves that end off the board; no generated or stored move does.
- Boards.Board.UndoMove: on an empty history it does nothing, as in the engine; the browser's `undoMove` follows a null step there (`assets/js/board.js:418-434`) and needs a step to take back.
- Boards.Board.InitFromFen: texts with letters that are no pieces, more than 16 men of one side or men off the board, with which the source leaves its arrays, are not loaded. Two men on one cell cannot be asked for by a text (`Fen.LoadStep`).
- Boards.Board.ResetFromFen: the same texts are not loaded.
- Boards.Board.AddPieceToBoard: a man on an occupied cell, which no text asks for.
- Boards.Board.Valid: play is modelled for boards on which each side has one king; a board loaded with several keeps right lists and caches but is not played on.
- The history of the board is a plain stack within the 2048 slots of its own; `History.Table.Replay` shows that the engine's step table reads back as that stack.
- Codec.SendAndReceive: message types and bodies are a given set of names and a given test; protobuf itself is not modelled. Frames longer than 64 MiB are rejected by the receiver and therefore not sendable.
- Adler.AdlerStr: only well-formed UTF-16; for lone surrogates there are no UTF-8 bytes to compare with.
- The RC4 stream that fills the key table: everything holds for any key table.
- The clock of `search`, which may stop it after any depth, and the opening book's file; the random draw among book moves is a parameter.
- `getExchangeSideBoard`, `getMirrorBoard` and `Board(SIDE_TYPE_BLACK)`, which set the side without the side key. The model's constructor makes an empty board, which `Reset` or `ResetFromFen` then fills.
- Releasing history records and pieces; memory in general.
- The browser's board apart from its unbounded history: its make and undo are the engine's with an all-zero key table and an unbounded history, its generator is not modelled.
- Time accounting of the center server: a timer is armed or not and has an owner. Messages to players, forwarded draw and take-back requests, and logging.
- The byte swaps of `websocket/netEndian.h`: lengths are written as the byte sequences they produce.
- The handshake with SHA-1 and HTTP, the connection servers, the match server, the login server, and all user interface code.
- Moves as text, the move printer and the prompt helper.
