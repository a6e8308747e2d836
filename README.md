# OnlineCheckers in Dafny

This project models the core of OnlineCheckers, a two-player checkers game played over TCP. One
instance is the host and plays the dark pieces. The other is the guest and plays the light pieces.
Each side shows the board from its own point of view, so the guest's board is the host's board
turned round: tile `i` on one board is tile `63 - i` on the other.

The model covers three parts of the program.

- **The rules engine.**
  - The constants and helpers of `CheckersConstants.h` are in `CheckersConstants`.
  - `Piece` and `Tile` are value datatypes with their update functions, in `Pieces` and `Tiles`.
  - The `GameState` class is specified by pure functions in `GameRules`. They cover setting up
    the map, restarting, capturing, moving, placing, the winner check, and selecting and dropping
    a piece.
  - The queue-driven search that offers a selected piece its destinations is in `MoveSearch`.
  - `GameStates.GameState` is an imperative class. Its 64 tiles are an `array`. Its index sets,
    danger map and flags are fields. Every method is proved against the `GameRules` function it
    implements, and the loops of `InitMap`, `HighLightAllPossibleTiles`, `IsInDanger` and
    `GetAllPiecesIndex` carry their invariants.
- **The select/drop state machine of `CheckersBoard`.**
  - `Boards` holds the pure `HandleEvent`. It turns one SDL event into a new board and the protocol
    lines handed to the network.
  - The `Boards.CheckersBoard` class is proved against it.
- **The line protocol.**
  - `Messages` holds the seven messages and their `sprintf` templates. It also holds the two
    decoders, `NetworkServer::OnMessage` and `NetworkClient::OnMessage`, built on a model of
    `sprintf`/`sscanf` with `%zd` in `Formatting`.
  - `Framing` models newline framing over byte chunks.
  - `Networking.NetworkingBase` is the message queue.
  - `Dispatch` holds what each side's `GameUpdate` loop does with one message and with a whole
    queue.
  - `NetworkServers.NetworkServer` and `NetworkClients.NetworkClient` are classes with their
    connection buffers, proved against those functions.
  - `Mirroring` proves that the host and the guest keep mirror-image boards. This holds across the
    greeting and across every forwarded KILL and MOVE.

Sockets, `select`, SDL, rendering and logging are not modelled. Wherever the source asks the
operating system something, the answer is a parameter:
- the bytes `recv` delivered;
- the count `send` reported;
- whether `select` reported the socket writable.

## Model

Most of the proof work is in four places:
- `MoveSearch.JumpMeasure` and `MoveSearch.InvExplore` show that the search terminates and keeps its
  invariant;
- `Formatting.ScanSprintf` shows that `sscanf` reads back what `sprintf` wrote;
- the loop of `GameStates.GameState.HighLightAllPossibleTiles` carries the invariant that ties it to
  `Explore` (`GameStates.AdvanceExplore`);
- the `Framing` and `Mirroring` lemmas build the round trips and the mirroring from those results.

| member | source | states |
|---|---|---|
| CheckersConstants.CheckersColor.Value | Source/Checkers/CheckersConstants.h:43-50 | the four colours are numbered 0 to 3 as the enum declares |
| CheckersConstants.ColorOf | Source/Checkers/CheckersConstants.h:43-50 | the cast `(CheckersColor)v` of a number below 4 is the colour whose value is `v` |
| CheckersConstants.Opponent | Source/Checkers/GameState.cpp:60 | the other player of a player is a player, and a different one |
| CheckersConstants.DefaultMoveResult | Source/Checkers/CheckersConstants.h:56-65 | a default `MoveResult` has the invalid destination and kills nothing |
| CheckersConstants.RevertedIndex | Source/Checkers/CheckersConstants.h:82-85 | a board index seen from the other side is `63 - i`, and is on the board |
| CheckersConstants.RevertedIndexInvolutive | Source/Checkers/CheckersConstants.h:82-85 | reverting an index twice gives it back |
| CheckersConstants.GetIndexFromPos | Source/Checkers/CheckersConstants.h:90-93 | a grid position on the board gives an index whose column and row are that position |
| CheckersConstants.GetVec2FromIndex | Source/Checkers/CheckersConstants.h:107-111 | the grid position of an index maps back to the same index; its column is below 8 |
| CheckersConstants.GetIndexFromPixel | Source/Checkers/CheckersConstants.h:98-103 | a click inside the window names a tile, whose grid position is the pixel divided by the tile size |
| CheckersConstants.LastNewline | Source/Checkers/CheckersConstants.h:76-79 | `find_last_of("\n")`: absent exactly when there is no newline, else the last newline's position |
| CheckersConstants.StripNewlineWithout | Source/Checkers/CheckersConstants.h:76-79 | `operator--` leaves a string without a newline unchanged |
| CheckersConstants.StripNewlineAt | Source/Checkers/CheckersConstants.h:76-79 | `operator--` cuts a string at its last newline |
| CheckersConstants.TemplatesAreLines | Source/Checkers/CheckersConstants.h:31-37 | each of the seven templates is one line ending in its only newline |
| CheckersConstants.StripTemplate | Source/Checkers/CheckersConstants.h:76-79 | on a one-line template, `operator--` drops exactly the final newline |
| Pieces.Piece.ToKing | Source/Checkers/Piece.h:36 | the piece is crowned and keeps its colour and place |
| Pieces.Piece.OnSelected | Source/Checkers/Piece.cpp:65-68 | the piece is drawn a third of a tile higher and is otherwise unchanged |
| Pieces.Piece.UnSelect | Source/Checkers/Piece.cpp:73-76 | the piece is drawn a third of a tile lower and is otherwise unchanged |
| Pieces.Piece.SetPosition | Source/Checkers/Piece.h:35 | the piece takes the given rectangle and keeps its colour and crown |
| Pieces.NewPiece | Source/Checkers/Piece.cpp:13-20 | a new piece has the given colour, no crown, and a tile-sized rectangle |
| Pieces.ColorFixedCrownKept | Source/Checkers/Piece.h:18-19 | no run of piece operations changes its colour or takes its crown away |
| Pieces.ToKingIdempotent | Source/Checkers/Piece.h:36 | crowning twice is crowning once |
| Pieces.SelectThenUnselect | Source/Checkers/Piece.cpp:65-76 | lifting a piece and putting it back gives the same piece |
| Tiles.Tile.RemovePiece | Source/Checkers/Tile.cpp:55-62 | the tile holds no piece and keeps its rectangle, side and highlight |
| Tiles.Tile.SetHighLighted | Source/Checkers/Tile.h:34 | the tile is highlighted and otherwise unchanged |
| Tiles.Tile.Reset | Source/Checkers/Tile.h:35 | the tile is not highlighted and otherwise unchanged |
| Tiles.Tile.SetPiece | Source/Checkers/Tile.cpp:67-72 | the tile holds the piece, moved onto the tile's rectangle, or nothing if given nothing |
| Tiles.Tile.SetPosition | Source/Checkers/Tile.h:37 | the tile's rectangle moves to the grid position times the tile size |
| Tiles.Tile.SetSide | Source/Checkers/Tile.h:38 | the tile takes the given colour and is otherwise unchanged |
| Tiles.NewTile | Source/Checkers/Tile.cpp:8-18 | a new tile is empty, dark, not highlighted, with a tile-sized rectangle at the origin |
| Tiles.RemovePieceIdempotent | Source/Checkers/Tile.cpp:55-62 | removing the piece twice is removing it once |
| GameRules.NewGame | Source/Checkers/GameState.cpp:11-18 | a new game has 64 default tiles, the dark player, no pieces, no captures, and is not set up |
| GameRules.Winner | Source/Checkers/GameState.cpp:52-68 | nobody wins before set-up; otherwise play continues exactly while both sides have pieces; a side with none loses |
| GameRules.KillPieceAt | Source/Checkers/GameState.cpp:407-415 | only the tile's piece goes, and its index leaves the set that held it |
| GameRules.MovePiece | Source/Checkers/GameState.cpp:420-441 | only the two tiles change, and the player, set-up flag and captures are kept |
| GameRules.MoveCrowns | Source/Checkers/GameState.cpp:420-441 | the moved piece keeps its colour; it is a king exactly when it was one or is ours and reached the top row; its index moves within its set |
| GameRules.PlacePiece | Source/Checkers/GameState.cpp:170-185 | a new uncrowned piece of the side is on the tile and in the matching set; set up once both sets are non-empty |
| GameRules.KillKeepsConsistent | Source/Checkers/GameState.cpp:407-415 | a capture keeps the board and the index sets in agreement |
| GameRules.MoveKeepsConsistent | Source/Checkers/GameState.cpp:420-441 | a move onto an empty tile keeps the board and the index sets in agreement |
| GameRules.PlaceKeepsConsistent | Source/Checkers/GameState.cpp:170-185 | placing on an empty tile keeps the board and sets in agreement, and a set-up board stays set up |
| GameRules.InitRowsEffect | Source/Checkers/GameState.cpp:192-253 | the nested loops set up every cell in row-major order, touching each cell once |
| GameRules.InitMapSpawns | Source/Checkers/GameState.cpp:192-253 | on an empty board, our pieces stand on the dark cells of the three bottom rows and the opponent's on those of the three top rows, uncrowned |
| GameRules.InitHost | Source/Checkers/GameState.cpp:25-37 | the host plays dark, is set up, has twelve pieces per side on their starting cells, and the board is consistent |
| GameRules.InitClient | Source/Checkers/GameState.cpp:25-37 | the guest plays light, places no piece, and keeps its sets and its set-up flag |
| GameRules.ClearPieces | Source/Checkers/GameState.cpp:130-137 | every tile loses its piece and keeps everything else |
| GameRules.RestartBoard | Source/Checkers/GameState.cpp:130-137 | after a restart both sides stand on their starting cells, and the sets gain those cells and keep every index they held |
| GameRules.RestartConsistentIff | Source/Checkers/GameState.cpp:130-137 | a restart leaves the board consistent exactly when the sets already held only starting cells of the right side |
| GameRules.OnSelected | Source/Checkers/GameState.cpp:75-94 | a piece is selected exactly when the clicked tile holds one of ours; otherwise nothing changes; the sets and player are kept |
| GameRules.IsValidMove | Source/Checkers/GameState.cpp:111-125 | a click on an offered tile is a move there, killing the tile's danger list; any other click is no move |
| GameRules.ResetSelectedPiece | Source/Checkers/GameState.cpp:100-103 | only the selected tile changes; the sets, player and captures are kept |
| GameRules.ResetHighlights | Source/Checkers/GameState.cpp:397-402 | no tile is highlighted, the danger map is empty, and nothing else changes |
| GameRules.SelectCapturesIffJump | Source/Checkers/GameState.cpp:75-94 | from an idle board, a selection offers captures exactly when a jump is open from the piece's tile |
| GameRules.SelectHighlights | Source/Checkers/GameState.cpp:277-345 | offered tiles are the landing tiles when a capture exists, else the open plain steps; all are empty |
| GameRules.SelectCaptures | Source/Checkers/GameState.cpp:363-392 | on a consistent idle board, a selection marks only opponent pieces, each at most once |
| GameRules.CancelRestores | Source/Checkers/CheckersBoard.cpp:118-128 | selecting, dropping on a tile not on offer and clearing the highlights gives back the game as it was |
| GameRules.KillAllEffect | Source/Checkers/GameState.cpp:407-415 | killing a list of tiles empties exactly those tiles, takes them out of both sets, and keeps consistency |
| GameRules.LegalDrop | Source/Checkers/CheckersBoard.cpp:104-128 | a legal drop lands on an empty tile other than the origin and kills distinct opponent pieces; afterwards the board is consistent and the opponent has lost that many pieces |
| GameRules.KillsLowerCount | Source/Checkers/GameState.cpp:407-415 | killing distinct opponent pieces lowers the opponent's count by their number |
| MoveSearch.Diagonal | Source/Checkers/GameState.cpp:289-334 | a diagonal neighbour, when it exists, is on the board and is another tile |
| MoveSearch.InDangerCaptured | Source/Checkers/GameState.cpp:350-361 | `IsInDanger` holds exactly for the indices in some danger list |
| MoveSearch.ProcessTile | Source/Checkers/GameState.cpp:363-392 | one diagonal changes only highlights, and keeps the search well formed |
| MoveSearch.JumpMeasure | Source/Checkers/GameState.cpp:371-391 | a jump over an opponent not yet captured captures one more piece and queues one more tile, so the search terminates |
| MoveSearch.Expand | Source/Checkers/GameState.cpp:289-334 | the four diagonals of a tile change only highlights |
| MoveSearch.Explore | Source/Checkers/GameState.cpp:289-334 | the search ends with an empty queue and changes only highlights |
| MoveSearch.HighlightSteps | Source/Checkers/GameState.cpp:337-344 | highlighting the plain steps changes only highlights |
| MoveSearch.HighLightAll | Source/Checkers/GameState.cpp:277-345 | the whole search changes only highlights |
| MoveSearch.InvExplore | Source/Checkers/GameState.cpp:289-334 | the search keeps its invariant: captures hold opponents, none twice, highlights are the landings, landings are empty |
| MoveSearch.ExploreWithoutJump | Source/Checkers/GameState.cpp:289-334 | with no jump open at the origin, the search only records the origin's plain steps |
| MoveSearch.ExploreFindsJump | Source/Checkers/GameState.cpp:371-391 | a jump open from the front of the queue ends the search with captures |
| MoveSearch.HighlightStepsMarks | Source/Checkers/GameState.cpp:337-344 | the final loop highlights exactly the tiles the move map offers |
| MoveSearch.HighLightAllShape | Source/Checkers/GameState.cpp:277-345 | the result has the loop's danger map, and keeps the loop's tiles when captures exist |
| MoveSearch.SearchCapturesIffJump | Source/Checkers/GameState.cpp:277-345 | the search ends with captures exactly when a jump is open from the origin |
| MoveSearch.SearchCaptures | Source/Checkers/GameState.cpp:363-392 | from a clean board, captures are distinct opponent pieces, no more than the opponent has |
| MoveSearch.SearchHighlights | Source/Checkers/GameState.cpp:277-345 | from a clean board, highlights are the landings when captures exist, else the plain steps |
| MoveSearch.SearchLandingsEmpty | Source/Checkers/GameState.cpp:277-345 | from a clean board, every offered tile is empty |
| MoveSearch.OutcomeOnSameOccupants | Source/Checkers/GameState.cpp:363-392 | whether a jump is open and which plain steps are open depend only on which colour stands where |
| GameStates.Enumerate | Source/Checkers/GameState.cpp:154-159 | the loop over a set yields each of its members exactly once |
| GameStates.AdvanceExplore | Source/Checkers/GameState.cpp:289-334 | no number of turns of the search loop changes what the search ends with |
| GameStates.GameState.constructor | Source/Checkers/GameState.cpp:11-18 | the new object's value is `NewGame()` |
| GameStates.GameState.Init | Source/Checkers/GameState.cpp:25-37 | the new value is `GameRules.Init` of the old |
| GameStates.GameState.CheckerWinner | Source/Checkers/GameState.cpp:52-68 | returns `Winner` of the current value |
| GameStates.GameState.OnSelected | Source/Checkers/GameState.cpp:75-94 | the new value and the returned index are `GameRules.OnSelected` of the old value |
| GameStates.GameState.ResetSelectedPiece | Source/Checkers/GameState.cpp:100-103 | the new value is `GameRules.ResetSelectedPiece` of the old |
| GameStates.GameState.IsValidMove | Source/Checkers/GameState.cpp:111-125 | returns `GameRules.IsValidMove` of the current value |
| GameStates.GameState.Restart | Source/Checkers/GameState.cpp:130-137 | the new value is `GameRules.Restart` of the old |
| GameStates.GameState.GetAllPiecesIndex | Source/Checkers/GameState.cpp:143-162 | on the host, two lists holding each index of each set exactly once |
| GameStates.GameState.PlacePiece | Source/Checkers/GameState.cpp:170-185 | on the guest, the new value is `GameRules.PlacePiece` of the old |
| GameStates.GameState.InitMap | Source/Checkers/GameState.cpp:192-253 | the nested loops with the toggled dark-cell flag compute `GameRules.InitMap` of the old value |
| GameStates.GameState.HighLightAllPossibleTiles | Source/Checkers/GameState.cpp:277-345 | the while loop over the queue and the final loop leave the tiles and danger map of `HighLightAll` |
| GameStates.GameState.ProcessHighLightTile | Source/Checkers/GameState.cpp:363-392 | one diagonal updates tiles, danger map, move map and queue as `ProcessTile` does |
| GameStates.GameState.IsInDanger | Source/Checkers/GameState.cpp:350-361 | the nested loops find the index exactly when some danger list holds it |
| GameStates.GameState.ResetHighlightedTiles | Source/Checkers/GameState.cpp:397-402 | the new value is `ResetHighlights` of the old |
| GameStates.GameState.KillPieceAt | Source/Checkers/GameState.cpp:407-415 | the new value is `GameRules.KillPieceAt` of the old |
| GameStates.GameState.MovePiece | Source/Checkers/GameState.cpp:420-441 | the new value is `GameRules.MovePiece` of the old |
| Boards.NewBoard | Source/Checkers/CheckersBoard.cpp:9-14 | a new board runs, selects, holds nothing, and is coherent |
| Boards.HandleEvent | Source/Checkers/CheckersBoard.cpp:75-135 | the host's restart key sends RESTART; a selecting click holds one of our pieces; a drop sends MOVE then one KILL per capture exactly when the tile is on offer, and ends idle and selecting |
| Boards.Select | Source/Checkers/CheckersBoard.cpp:92-99 | a selecting click sends nothing and holds the clicked tile exactly when it holds one of our pieces |
| Boards.Drop | Source/Checkers/CheckersBoard.cpp:104-128 | a drop sends MOVE then one KILL per capture exactly when the tile is on offer, and ends idle and selecting |
| Boards.Continuing | Source/Checkers/CheckersBoard.cpp:53-70 | the board runs on exactly while it was running and nobody has won; a winner stops it |
| Boards.Written | Source/Checkers/CheckersBoard.cpp:109-115 | the lines handed to the network are one line per message |
| Boards.SelectThenDrop | Source/Checkers/CheckersBoard.cpp:92-128 | a select then a legal drop sends a MOVE from the held tile to an empty tile, then KILLs of distinct opponent pieces; the board stays consistent and the opponent loses that many pieces |
| Boards.SelectThenCancel | Source/Checkers/CheckersBoard.cpp:118-128 | a select then a drop off the offered tiles sends nothing and gives back the board as it was |
| Boards.DropCaptures | Source/Checkers/CheckersBoard.cpp:109-116 | the KILL lines of a drop name the captured tiles in capture order |
| Boards.StaysStopped | Source/Checkers/CheckersBoard.cpp:53-70 | once stopped, no event and no winner check starts the board again |
| Boards.SendDrop | Source/Checkers/CheckersBoard.cpp:109-116 | the loop writes the MOVE line then a KILL line for each capture |
| Boards.CheckersBoard.constructor | Source/Checkers/CheckersBoard.cpp:9-14 | the new board's value is `NewBoard()` |
| Boards.CheckersBoard.Init | Source/Checkers/CheckersBoard.cpp:20-23 | the game becomes `GameRules.Init` of the old game |
| Boards.CheckersBoard.Shutdown | Source/Checkers/CheckersBoard.cpp:34-37 | the board stops running and nothing else changes |
| Boards.CheckersBoard.Remove | Source/Checkers/CheckersBoard.cpp:39-42 | the game becomes `KillPieceAt` of the old game |
| Boards.CheckersBoard.Move | Source/Checkers/CheckersBoard.cpp:44-47 | the game becomes `MovePiece` of the old game |
| Boards.CheckersBoard.Restart | Source/Checkers/CheckersBoard.h:31 | the game becomes `Restart` of the old game |
| Boards.CheckersBoard.PlacePiece | Source/Checkers/CheckersBoard.h:34 | the game becomes `PlacePiece` of the old game |
| Boards.CheckersBoard.GetAllPiecesIndex | Source/Checkers/CheckersBoard.h:33 | each piece index of each set, once |
| Boards.CheckersBoard.ShouldContinue | Source/Checkers/CheckersBoard.cpp:53-70 | board and result are `Continuing` of the old board |
| Boards.CheckersBoard.HandleInput | Source/Checkers/CheckersBoard.cpp:75-135 | board, lines sent and result are those of `HandleEvent` |
| Boards.CheckersBoard.SelectAt | Source/Checkers/CheckersBoard.cpp:92-99 | the new board is `Select` of the old |
| Boards.CheckersBoard.DropAt | Source/Checkers/CheckersBoard.cpp:104-128 | the new board and the lines sent are those of `Drop` |
| Formatting.NatToString | Source/Checkers/CheckersConstants.h:31-36 | `%zd` prints a non-empty run of decimal digits |
| Formatting.DigitsValueOfNumber | Source/Checkers/CheckersConstants.h:31-36 | reading the digits `%zd` printed gives back the number |
| Formatting.ScanSprintf | Source/Application/Networking/NetworkServer.cpp:301-305 | `sscanf` with a separated format reads back the arguments `sprintf` printed with it, whatever non-digit follows |
| Messages.Construct | Source/Application/Networking/Network.h:48-111 | a message is queued exactly when its constructor's assertion holds, and holds the given fields |
| Messages.Templates | Source/Checkers/CheckersConstants.h:31-37 | every template is its scan format plus a newline, with one separated hole per field |
| Messages.Encode | Source/Checkers/CheckersConstants.h:31-37 | a printed message is one line ending in its newline |
| Messages.EncodeLine | Source/Checkers/CheckersConstants.h:31-37 | a printed message is its framed line plus a newline, and the line has no newline |
| Messages.ServerDecode | Source/Application/Networking/NetworkServer.cpp:295-315 | the host queues only well-formed KILL, MOVE, ACTIVE or RESTART messages |
| Messages.ClientDecode | Source/Application/Networking/NetworkClient.cpp:239-269 | the guest queues only well-formed messages |
| Messages.ServerReadsWire | Source/Application/Networking/NetworkServer.cpp:295-315 | the host decodes a received KILL, MOVE or ACTIVE line as that message |
| Messages.ServerReadsLocal | Source/Application/Networking/NetworkServer.cpp:75-77 | the host decodes its own board's KILL, MOVE and RESTART lines, newline included, as those messages |
| Messages.ServerRestartNeedsNewline | Source/Application/Networking/NetworkServer.cpp:310 | the host queues RESTART exactly for the line with its newline, which framing never delivers |
| Messages.ClientReadsWire | Source/Application/Networking/NetworkClient.cpp:239-269 | the guest decodes every framed message line as that message |
| Messages.ClientSkipsKillMove | Source/Application/Networking/NetworkClient.cpp:246-250 | no other message's line is scanned as a KILL or a MOVE |
| Messages.ClientSkipsPlain | Source/Application/Networking/NetworkClient.cpp:252-256 | no PIECE, TURN or RESTART line is taken for GAME IS FULL or ACTIVE |
| Messages.LinesOf | Source/Application/Networking/NetworkClient.cpp:144-152 | the framed lines of a run of messages are their lines, one each |
| Messages.ConcatJoined | Source/Application/Networking/NetworkServer.cpp:358-364 | the bytes of a run of messages are their newline-free lines, each followed by a newline |
| Framing.NewlineAt | Source/Application/Networking/NetworkServer.cpp:150 | `std::find` gives the first newline, or the end |
| Framing.TakeLine | Source/Application/Networking/NetworkServer.cpp:150-156 | with no newline the buffer stays; else it splits into the line, its newline and the rest |
| Framing.TakeLineUnique | Source/Application/Networking/NetworkServer.cpp:150-156 | a line and its newline are taken back out whole, whatever follows |
| Framing.ReadAllConserves | Source/Application/Networking/NetworkServer.cpp:147-156 | reads lose and invent nothing: lines taken, with newlines, plus the buffer left are the bytes received |
| Framing.ReadAllLines | Source/Application/Networking/NetworkServer.cpp:147-156 | reads hand over newline-free lines, at most one per read |
| Framing.LinesInOrder | Source/Application/Networking/NetworkClient.cpp:141-152 | a stream of lines read chunk by chunk yields a prefix of those lines, in order |
| Framing.SendSize | Source/Application/Networking/NetworkServer.cpp:165 | a send offers all that is queued up to the buffer size |
| Networking.Enqueued | Source/Application/Networking/NetworkServer.cpp:301-314 | a decode result queues its message exactly when it was constructed, and nothing else |
| Networking.NetworkingBase.constructor | Source/Application/Networking/Network.h:128-132 | nothing is queued, the side is active and the turn is to be logged |
| Networking.NetworkingBase.Push | Source/Application/Networking/NetworkServer.cpp:301-311 | the decode result's message, if any, goes to the back of the queue |
| Networking.NetworkingBase.GetNextMessage | Source/Application/Networking/Network.h:151-158 | none from an empty queue, else the oldest message, taken off |
| Networking.NetworkingBase.TakeTurnLog | Source/Application/Networking/NetworkServer.cpp:59-66 | a pending turn log is taken once and reports whether this side is active |
| Networking.NetworkingBase.Destroy | Source/Application/Networking/Network.h:134-143 | every queued message is freed, oldest first, and the queue is empty |
| Dispatch.IntCast | Source/Application/Networking/NetworkServer.cpp:226 | `(int)n` is a 32-bit value that equals `n` when `n` fits |
| Dispatch.Mirror | Source/Application/Networking/NetworkServer.cpp:233 | a wire index on the board is mirrored to `63 - i` |
| Dispatch.Apply | Source/Application/Networking/NetworkServer.cpp:218-285 | applying a message keeps the board size and the player |
| Dispatch.HostStep | Source/Application/Networking/NetworkServer.cpp:218-285 | one pass of the host loop keeps the board size and the player |
| Dispatch.HostServe | Source/Application/Networking/NetworkServer.cpp:207-289 | the host loop keeps the board size and the player |
| Dispatch.GuestStep | Source/Application/Networking/NetworkClient.cpp:178-232 | one pass of the guest loop keeps the guest on a light board |
| Dispatch.GuestServe | Source/Application/Networking/NetworkClient.cpp:169-236 | the guest loop keeps the guest on a light board |
| NetworkServers.Broadcast | Source/Application/Networking/NetworkServer.cpp:358-364 | every connection gets the message appended to its outgoing bytes, and nothing else changes |
| NetworkServers.BroadcastTwice | Source/Application/Networking/NetworkServer.cpp:358-364 | two broadcasts are one broadcast of both messages in order |
| NetworkServers.Greet | Source/Application/Networking/NetworkServer.cpp:331-354 | the greeting's bytes are the PIECE lines of the dark pieces, then the light ones, then TURN |
| NetworkServers.AppendPieces | Source/Application/Networking/NetworkServer.cpp:336-349 | each loop appends one mirrored PIECE line per index, in order |
| NetworkServers.HostReadsInOrder | Source/Application/Networking/NetworkServer.cpp:147-158 | whatever the chunking, the host decodes a prefix of the guest's messages, in order |
| NetworkServers.NetworkServer.constructor | Source/Application/Networking/Network.h:128-132 | no connections, nothing queued, active, turn to be logged |
| NetworkServers.NetworkServer.OnMessage | Source/Application/Networking/NetworkServer.cpp:295-315 | the queue gains what the host's decoder makes of the line |
| NetworkServers.NetworkServer.SendToAll | Source/Application/Networking/NetworkServer.cpp:358-364 | the connections become `Broadcast` of the old ones |
| NetworkServers.NetworkServer.HandleInput | Source/Application/Networking/NetworkServer.cpp:75-88 | the line is queued; unless it is RESTART, the host gives up the turn and broadcasts ACTIVE |
| NetworkServers.NetworkServer.Accept | Source/Application/Networking/NetworkServer.cpp:112 | the new connection joins the table; a later guest gets GAME IS FULL, the first gets the greeting |
| NetworkServers.NetworkServer.Receive | Source/Application/Networking/NetworkServer.cpp:126-159 | an empty read drops the connection; else the chunk is framed and a completed line decoded |
| NetworkServers.NetworkServer.Send | Source/Application/Networking/NetworkServer.cpp:162-190 | the reported count leaves the front of the buffer; zero or less drops the connection |
| NetworkServers.NetworkServer.GameUpdate | Source/Application/Networking/NetworkServer.cpp:202-290 | a stopped game gives up the turn; a running one drains the queue as `HostServe` says and broadcasts its bytes |
| NetworkServers.NetworkServer.HandleMessage | Source/Application/Networking/NetworkServer.cpp:218-285 | one message is applied and forwarded as `HostStep` says |
| NetworkClients.NetworkClient.constructor | Source/Application/Networking/NetworkClient.cpp:5-11 | not connected, empty buffers, nothing queued, active, no turn to log |
| NetworkClients.NetworkClient.OnMessage | Source/Application/Networking/NetworkClient.cpp:239-269 | the queue gains what the guest's decoder makes of the line |
| NetworkClients.NetworkClient.HandleInput | Source/Application/Networking/NetworkClient.cpp:57-64 | the line and ACTIVE are queued for sending, and the guest gives up the turn |
| NetworkClients.NetworkClient.Poll | Source/Application/Networking/NetworkClient.cpp:78-93 | no writable host stops the application; the first writable poll connects and does nothing else |
| NetworkClients.NetworkClient.Send | Source/Application/Networking/NetworkClient.cpp:96-120 | the reported count leaves the front of the buffer; zero or less loses the connection |
| NetworkClients.NetworkClient.Receive | Source/Application/Networking/NetworkClient.cpp:123-153 | an inactive guest loses the connection on a failed or empty read; else the chunk is framed and a completed line decoded |
| NetworkClients.NetworkClient.GameUpdate | Source/Application/Networking/NetworkClient.cpp:164-237 | a stopped game gives up the turn; a running one drains the queue as `GuestServe` says |
| NetworkClients.NetworkClient.HandleMessage | Source/Application/Networking/NetworkClient.cpp:178-232 | one message is applied as `GuestStep` says |
| NetworkClients.InputReachesHost | Source/Application/Networking/NetworkClient.cpp:57-64 | the bytes the guest queues for a KILL or MOVE frame into that line, then ACTIVE |
| NetworkClients.GuestReadsInOrder | Source/Application/Networking/NetworkClient.cpp:141-152 | whatever the chunking, the guest decodes a prefix of the host's messages, in order |
| Mirroring.MoveMirrored | Source/Application/Networking/NetworkServer.cpp:249-266 | a move and the opposite move keep two mirrored boards mirrored |
| Mirroring.KillMirrored | Source/Application/Networking/NetworkServer.cpp:223-237 | a capture and the opposite capture keep two mirrored boards mirrored |
| Mirroring.ForwardKeepsMirrored | Source/Application/Networking/NetworkServer.cpp:218-268 | whoever made a KILL or MOVE, host and guest boards stay mirrored |
| Mirroring.PlaceAllEffect | Source/Application/Networking/NetworkClient.cpp:213-217 | after one side's PIECE lines, exactly the named tiles hold that side's colour; others keep their occupant |
| Mirroring.GreetingMirrors | Source/Application/Networking/NetworkServer.cpp:331-354 | a guest with an empty board, served a set-up host's greeting, ends mirroring the host's board, holding the turn exactly when the host does not, still running, with nothing left queued |

## Left out

- Sockets, `select`, `accept`, SDL events and rendering, textures and logging are not modelled.
  - A read is the chunk `recv` delivered.
  - A send is the count `send` reported.
  - Whether `select` found the socket writable is a flag.
  - Which connection `select` reports, and in what order, is left to the caller.
- `NetworkServer::Update` and `NetworkClient::Update` run `WinsockUpdate` then `GameUpdate`. They
  are covered by `TakeTurnLog`, `Accept`, `Receive`, `Send`, `Poll` and `GameUpdate`; the
  scheduling of one frame is not modelled.
- The server's accepted sockets block, so a read without a newline is followed by another read of
  the same connection. This is modelled as repeated calls of `Receive`.
- NetworkClients.NetworkClient.Receive requires that a failed `recv` happens only while the guest
  is inactive. On an active guest the source inserts `&buffer[readBytes]` with a negative count,
  which is undefined behaviour.
- Messages.Construct: the `assert` in a message constructor is modelled as rejecting the line.
  A debug build would abort; a release build would queue a message with an out-of-range flag.
- `sscanf`'s `%zd` is modelled on unsigned decimal digits only. A sign, leading `+`/`-` and
  overflow past `size_t` are not modelled.
- Dispatch.Apply skips a KILL, MOVE or PIECE whose index is off the board. The source indexes the
  tile array out of bounds there, which is undefined behaviour.
- Dispatch.Mirror and CheckersConstants.RevertedIndex are specified for indices on the board. The
  `(int)` cast is modelled as two's-complement truncation (`IntCast`); `abs` of a large value is not
  modelled further.
- `std::unordered_set` and `std::unordered_map` iteration order is unspecified.
  - `GameStates.Enumerate` yields a set's members in an arbitrary order.
  - The move map is visited in the fixed order the search fills it in (`MoveMapOrder`).
- Ownership of heap objects, `new`/`delete` and leaks are not modelled.
  - A piece is a value held by its tile, so the `Piece` and `Tile` members are functions.
  - In `MovePiece` with `from == dest`, the second `SetPiece(nullptr)` empties the tile and the
    piece is leaked; the model drops it from the board.
- GameRules.MovePiece and GameStates.GameState.MovePiece crown the piece on `dest` only when
  `dest` holds one (`tiles[dest].piece.Some?`). The source calls `GetPiece()->ToKing()` whenever
  `dest` is on row 0 and in the local set, and so dereferences null when `dest` ends up empty.
  That happens when `from == dest`, since the second `SetPiece(nullptr)` empties the tile, or when
  `from` is empty. A MOVE line from the network can cause either. The model skips the crown there
  instead of modelling the crash.
- GameRules.ResetSelectedPiece and GameStates.GameState.ResetSelectedPiece leave the board
  unchanged when the tile holds no piece. The source calls `GetPiece()->UnSelect()` with no null
  check, so it dereferences null there. Players can reach this:
  - the host lifts a piece, which clears `m_isSelecting`;
  - the host presses R while holding it, and `Restart` empties every tile but keeps
    `m_holdingPieceIndex`;
  - the host then clicks a tile that was not offered, and `ResetSelectedPiece` runs on the held
    tile, which is now empty.
  A guest that is holding a piece when the host's RESTART arrives meets the same crash on its next
  click. `Boards.Coherent` does not require the held tile to hold a piece, so the model reaches
  this case and treats it as a no-op rather than a crash.
- `Piece`'s constructor loads a texture and returns early when loading fails. Only the fields it
  sets are modelled.
- The `Tile` destructor is covered by `RemovePiece`. The `Piece` destructor frees the texture only.
- `Vector2` floats are modelled as an integer grid position (`GridPos`). The conversion is exact
  on the board.
- Clicks are assumed to lie inside the 512×512 window, since SDL reports clicks there.
  `GetIndexFromPixel` is specified on window pixels only.
- The `App` class is modelled only as far as the networking uses it: the board and the running
  flag (`App::Running`, `App::Stop`).
- The `TESTING` block of `InitMap` (compiled out by `#define TESTING 0`) is not modelled.
- Mirroring.Mirrored compares which colour stands on each tile. It does not compare crowns or
  screen rectangles. A guest crowns its own pieces on reaching its top row, and the host does not
  crown the guest's pieces.
- Dispatch.HostStep, Dispatch.HostServe, Dispatch.GuestStep and Dispatch.GuestServe state only
  that the board keeps its size and player. What they do is tied to the source through the class
  methods proved against them and through the `Mirroring` lemmas.
