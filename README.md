# Chess rule engine of NkanyisoMz/Chess_Game, in Dafny

This project models the rule engine of a small Ruby chess game and proves
properties of that model:

- `pieces.dfy` (module `Pieces`) models `lib/piece.rb`. It covers the bounds and
  destination tests `within_bounds?` and `valid_move?`, the sliding scan
  `directional_moves`, and the `valid_moves` generator of each piece class. A
  piece is a value: its colour, its kind and the square it records as its
  position. The generators are functions of a grid snapshot and the piece.
- `board.dfy` (module `Boards`) models `lib/board.rb`. The grid is modelled
  twice:
  - as values: the starting position, the effect of a move, the king search,
    and what "in check" and "checkmate" mean;
  - as the class `Board`, whose `grid` field the methods change square by
    square, as the Ruby object does.

  Each method of the class (`setup_pieces`, `get_piece_at`, `move_piece`,
  `find_king`, `in_check?`, `move_removes_check?`, `checkmate?`) is proved
  against those functions. The proofs also show that the simulate-then-revert
  search leaves the grid exactly as it found it. Concrete positions tie the
  specifications down:
  - in the starting position neither side is in check;
  - a black king on a8, facing white rooks on h8 and h7, is checkmated;
  - without the rook on h7, that king is in check but not mated.
- `player.dfy` (module `Players`) models `lib/player.rb`. It covers
  `convert_to_index`, which turns "e2" into `[6, 4]` with rank 8 as row 0, and
  the whitespace split of `get_move`, which takes the first two words of the
  typed line as the source and destination squares.

Squares are `(row, column)` pairs of unbounded integers, because the source
forms squares off the board and then tests them. Ruby exceptions are modelled
as values of `Raised<T>`:

- `Returned(value)` is a normal return;
- `KingNotFound` is the "King not found" error raised by `find_king`;
- `NoMethodError` is a method called on `nil`, or a method that no class
  defines.

`move_piece` reports its refusals as a `MoveOutcome` in place of the printed
messages.

The code checks less than its own test and comments expect: the test at
`spec/board_spec.rb:12-14` expects `move_piece` to refuse an illegal move, and
the comment of `pinned?` at `lib/piece.rb:30-34` describes a self-check test
that its body (`false`) does not perform. The model follows the code:

- `move_piece` checks only that there is a piece on the source square and that
  it has the mover's colour. It does not test the destination against the
  piece's moves (`Boards.MoveIgnoresPieceRules`). It does not reject a move
  that leaves the mover in check either: the third ensures of
  `Boards.Board.MovePiece` carries out every move of an own piece to a square
  on the board, and `Boards.CornerKingTrapped` gives such moves, each of which
  leaves the king in check. The test in `spec/board_spec.rb:12-14`
  expects a raise for e2 to e5. That test also passes two arguments to a
  three-argument method.
- `move_removes_check?` puts the grid back only when `in_check?` returns. If it
  raises, the grid stays changed.
- Check detection uses the generated moves of the opponent's pieces with no
  self-check filtering. That is the meaning `in_check?` would have if its call
  to `possible_moves` named the existing `valid_moves` (see Findings).
  `Boards.Board.InCheck` and `Boards.Board.Checkmate` are proved against that
  intended meaning.

## Model

| member | source | states |
|---|---|---|
| Pieces.WithinBounds | lib/piece.rb:21-23 | a square is on the board iff its column is in 0..7 and its row-major number 8 * row + column is one of the 64 squares |
| Pieces.PieceAt | lib/board.rb:37-41 | get_piece_at finds a piece only on a square of the board |
| Pieces.ValidMove | lib/piece.rb:26-28 | valid_move? holds iff the square is on the board and empty, or holds a piece of the other colour |
| Pieces.OffsetMoves | lib/piece.rb:60-125 | the king and knight generators yield at most one square per offset, and every square they yield passes valid_move? |
| Pieces.OffsetMovesExact | lib/piece.rb:60-125 | a square is generated iff it is the piece's position plus one of the offsets and passes valid_move? (on the board, empty or an enemy) |
| Pieces.KingMovesAdjacent | lib/piece.rb:60-70 | the king's destinations are exactly the valid squares other than its own at distance one in both row and column |
| Pieces.KnightMovesLShaped | lib/piece.rb:115-125 | the knight's destinations are exactly the valid squares two rows and one column away, or one row and two columns away |
| Pieces.PawnMoves | lib/piece.rb:134-161 | a pawn has at most four destinations |
| Pieces.PawnMovesExact | lib/piece.rb:139-158 | one step ahead iff that square is on the board and empty; two steps iff on the start row (6 for white, 1 for black) with both squares ahead on the board and empty; a forward diagonal iff it holds an enemy piece; nothing else |
| Pieces.Ray | lib/piece.rb:43-48 | every square the while loop appends passes valid_move?, and every appended square except the last is empty, so the scan slides through empty squares |
| Pieces.RaySquares | lib/piece.rb:43-47 | the i-th square of a scanned line is i steps along the direction from its first square |
| Pieces.RayLengthReachable | lib/piece.rb:44-47 | the scan reaches the k-th square iff every square before it is on the board and empty and the k-th passes valid_move?, so it stops after a capture and before an own piece or the edge |
| Pieces.RayLength | lib/piece.rb:42-48 | the scan from a square on the board yields at most seven squares, so the while loop ends |
| Pieces.DirectionalMoves | lib/piece.rb:38-51 | every sliding destination passes valid_move? |
| Pieces.DirectionalMovesExact | lib/piece.rb:38-51 | a square is among directional_moves iff it is reachable along some listed direction |
| Pieces.DirectionalMovesAppend | lib/piece.rb:42-50 | the result is the scans of the directions concatenated in list order |
| Pieces.DirectionalMovesOnLines | lib/piece.rb:42-47 | every sliding destination lies one or more steps along one listed direction |
| Pieces.DirectionalMovesSameColor | lib/piece.rb:38-51 | directional_moves depends only on the piece's colour and position |
| Pieces.DirectionalMovesBlocked | lib/piece.rb:43-44 | a piece whose first square in each direction fails valid_move? has no sliding destination |
| Pieces.RookMovesStraight | lib/piece.rb:91-94 | a rook's destinations share its row or its column and differ from its square |
| Pieces.BishopMovesDiagonal | lib/piece.rb:103-106 | a bishop's destinations lie on one of its diagonals and differ from its square |
| Pieces.QueenIsRookThenBishop | lib/piece.rb:79-82 | the queen's destinations are the rook's followed by the bishop's, from the same square |
| Pieces.ValidMoves | lib/piece.rb:60-161 | no generator of any piece class yields a square off the board or one holding a piece of the mover's colour |
| Boards.ApplyMove | lib/board.rb:56-60 | after a move the destination holds the moved piece with its position updated, the source is empty, every other square is unchanged, and pieces still record their own squares |
| Boards.FindKingSpec | lib/board.rb:106-114 | find_king returns the first square in row-major order holding a king of the colour, and fails exactly when there is none |
| Boards.FirstKingExists | lib/board.rb:107-111 | when any king of a colour is on the grid, a first one in scan order exists |
| Boards.FirstKingUnique | lib/board.rb:107-111 | the first king in scan order is unique |
| Boards.InitialGrid | lib/board.rb:14-35 | after setup every piece records the square it stands on, and black's pieces are white's reflected rank for rank with the colour swapped |
| Boards.ThreatBeforeExact | lib/board.rb:95-101 | the in_check? scan up to a square finds an attacker iff an opposing piece before that square generates the target |
| Boards.ThreatenedExact | lib/board.rb:95-103 | the full scan finds an attacker iff some opposing piece generates the target |
| Boards.InCheckSpec | lib/board.rb:90-104 | a side is in check iff find_king finds its king and the in_check? scan finds an attacker of that square |
| Boards.FirstKingIsFound | lib/board.rb:106-114 | any first king in scan order is the square find_king returns |
| Boards.InCheckAttacked | lib/board.rb:90-104 | a side is in check iff find_king finds its king and some piece of the other colour generates that square |
| Boards.OwnMoveKeepsKing | lib/board.rb:117-126 | a generated destination of one's own piece is on the board, and the simulated move leaves one's king on the grid, so the inner find_king does not raise |
| Boards.AllStayInCheckMember | lib/board.rb:76-83 | when the loop over a piece's moves finished without an escape, each tried move left the side in check |
| Boards.NoEscapeWhenAllStay | lib/board.rb:76-83 | a piece all of whose generated moves leave the side in check offers no escape |
| Boards.NoEscapeBeforeSquare | lib/board.rb:68-85 | the checkmate? scan up to a square found no escape on any earlier square |
| Boards.NoEscapeAnywhere | lib/board.rb:68-87 | the completed scan found no escape on any square |
| Boards.CheckmateSpec | lib/board.rb:64-88 | a checkmated side has a king and that king is attacked |
| Boards.UndoMove | lib/board.rb:128-131 | restoring the source and the destination undoes the simulated move, including when source and destination coincide, and gives back the original grid when pieces record their own squares |
| Boards.InitialBackRowHemmed | lib/board.rb:14-35 | in the starting position every neighbour of a back-row piece is off the board or holds a piece of the same colour |
| Boards.InitialPawnStaysHome | lib/board.rb:16-19 | in the starting position a pawn's destinations stay in its own half of the board |
| Boards.BackRowLeaperStaysHome | lib/piece.rb:60-125 | a king or knight on its own back row cannot reach the other half |
| Boards.InitialLeaperStaysHome | lib/board.rb:26-35 | in the starting position kings and knights stay in their own half |
| Boards.HemmedSliderStuck | lib/piece.rb:79-106 | a queen, rook or bishop with no valid first square in any direction has no destination |
| Boards.InitialSlidersStuck | lib/board.rb:26-35 | in the starting position queens, rooks and bishops have no destination |
| Boards.InitialMovesStayHome | lib/board.rb:14-35 | in the starting position no piece can reach the other half of the board |
| Boards.InitialKings | lib/board.rb:14-35 | setup puts the white king on e1 (7, 4) and the black king on e8 (0, 4), where find_king finds them |
| Boards.InitialNotInCheck | lib/board.rb:90-104 | neither side is in check in the starting position |
| Boards.MoveIgnoresPieceRules | lib/board.rb:43-61 | move_piece carries out a pawn move from e2 to e5 that is not among the pawn's destinations |
| Boards.InCheckAsWritten | lib/board.rb:90-104 | in_check? as written raises "King not found" exactly when the side has no king, and where it returns, its answer agrees with the intended meaning |
| Boards.NoOpponentNoCheck | lib/board.rb:95-103 | a side facing no piece of the other colour is not in check |
| Boards.CheckmateAsWritten | lib/board.rb:64-88 | checkmate? as written raises "King not found" exactly when the side has no king, and where it returns, its answer agrees with the intended meaning |
| Boards.AsWrittenNeverTrue | lib/board.rb:90-104 | in_check? and checkmate? as written can never return true |
| Boards.AsWrittenRaisesAtStart | lib/board.rb:99 | on the starting board in_check? and checkmate? as written raise NoMethodError, although the side is not in check |
| Boards.RookAttacksLeft | lib/piece.rb:91-94 | a rook attacks a square to its left along its row when the squares between are empty and the target is empty or an enemy |
| Boards.CheckBy | lib/board.rb:90-104 | a side whose first king is among an opposing piece's destinations is in check |
| Boards.CornerCheck | lib/board.rb:90-104 | with the black king on a8 and a white rook on h8, black is in check |
| Boards.CornerKingMoves | lib/piece.rb:60-70 | the cornered black king can only step to b8, a7 or b7 |
| Boards.CornerAfterKingMove | lib/board.rb:117-123 | after the king's simulated step only its old and new squares change |
| Boards.CornerKingTrapped | lib/board.rb:117-126 | with white rooks on h8 and h7 every step of the cornered king still leaves it in check |
| Boards.CornerMate | lib/board.rb:64-88 | black king on a8 against white rooks on h8 and h7 is checkmate |
| Boards.CornerEscapeSafe | lib/board.rb:117-126 | without the rook on h7 the king's step to a7 leaves black out of check |
| Boards.CornerKingCanStep | lib/piece.rb:60-70 | a7 is among the cornered king's destinations |
| Boards.CornerKingEscapes | lib/board.rb:76-83 | without the rook on h7 the king has a move that gets it out of check |
| Boards.CornerCheckNotMate | lib/board.rb:64-88 | without the rook on h7 black is in check but not checkmated, so checkmate? does not reduce to in_check? |
| Boards.Board.constructor | lib/board.rb:6-12 | a new board holds exactly the starting position, with every piece recording its own square |
| Boards.Board.SetupPieces | lib/board.rb:14-24 | rows 0, 1, 6 and 7 receive the starting pieces and rows 2-5 are untouched |
| Boards.Board.SetupBackRow | lib/board.rb:26-35 | the given row receives R, N, B, Q, K, B, N, R of the colour and the other rows are untouched |
| Boards.Board.GetPieceAt | lib/board.rb:37-41 | nothing for a square off the board, else the grid cell |
| Boards.Board.MovePiece | lib/board.rb:43-61 | an empty source or a piece of the other colour is refused with the grid unchanged; otherwise the grid becomes the applied move; pieces keep recording their own squares |
| Boards.Board.FindKing | lib/board.rb:106-114 | the nested scan returns the first king of the colour, or none |
| Boards.Board.InCheck | lib/board.rb:90-104 | the answer is true exactly when an opposing piece generates the square of the side's first king |
| Boards.Board.Attacked | lib/board.rb:95-103 | the scan answers true exactly when some opposing piece generates the target |
| Boards.Board.MoveRemovesCheck | lib/board.rb:117-134 | the answer is true exactly when the side is not in check after the move, and the grid is restored, exactly so when pieces record their own squares |
| Boards.Board.Checkmate | lib/board.rb:64-88 | the answer is true exactly when the side is in check and no generated move of its pieces gets it out, and the grid is left as it was |
| Boards.Board.TryPiece | lib/board.rb:70-83 | the answer is true exactly when the piece is the side's own and one of its generated moves gets the side out of check, and the grid is left as it was |
| Players.DigitValue | lib/player.rb:19 | to_i of one character lies in 0..9, and is 0 for anything other than a digit |
| Players.RankValue | lib/player.rb:19 | the rank read from the second character lies in 0..9, and 0 when that character is missing |
| Players.ConvertToIndex | lib/player.rb:17-21 | the column is the letter's code minus that of 'a' and the row is 8 minus the rank; an empty string raises NoMethodError |
| Players.ConvertToIndexOnBoard | lib/player.rb:17-21 | files a-h with ranks 1-8 give indices in 0..7 |
| Players.ConvertSquareName | lib/player.rb:17-21 | converting the name of any square on the board gives that square back |
| Players.SquareNameOfConvert | lib/player.rb:17-21 | naming the square converted from a valid name gives the name back |
| Players.ConvertToIndexInjective | lib/player.rb:17-21 | distinct valid names give distinct squares |
| Players.ConvertToIndexUnchecked | lib/player.rb:18-19 | nothing is validated: "i9" gives [-1, 8], "a0" gives [8, 0], and a missing or non-digit rank reads as 0 |
| Players.ConvertToIndexExamples | spec/player_spec.rb:24-26 | e2 gives [6, 4], h8 gives [0, 7] and a1 gives [7, 0] |
| Players.SkipSpaceDropsSpace | lib/player.rb:12 | before each word the split drops exactly a run of leading whitespace and keeps the rest of the line |
| Players.WordLengthStops | lib/player.rb:12 | a word holds no whitespace and runs up to the next whitespace character or the end of the line |
| Players.SkipSpace | lib/player.rb:12 | dropping leading whitespace never lengthens the line and leaves it empty or starting with a non-whitespace character |
| Players.WordLength | lib/player.rb:12 | the first word is no longer than the line, and is at least one character long when the line starts with a non-whitespace character |
| Players.Words | lib/player.rb:12 | the split yields no words exactly when the line is all whitespace |
| Players.WordsAreWords | lib/player.rb:12 | every word of the split is non-empty and holds no whitespace |
| Players.WordsKeepText | lib/player.rb:12 | the words, concatenated, are the line with its whitespace removed |
| Players.WordsOfUnwords | lib/player.rb:12 | words joined by single spaces split back into the same words |
| Players.GetMove | lib/player.rb:11-13 | a move is returned iff the line has at least two words, and it is the first two words converted; otherwise NoMethodError |
| Players.GetMoveOfNames | lib/player.rb:12-13 | typing the names of two squares on the board separated by a space gives exactly those two squares |
| Players.GetMoveExample | spec/player_spec.rb:14-18 | "e2 e4" gives [[6, 4], [4, 4]] |

## Left out

- lib/game.rb, the game loop that alternates turns and prints the board, is not part of this model.
- `symbol` and `pinned?` in lib/piece.rb are left out. They draw pieces and always answer false, and no rule uses them.
- The `puts` messages of `move_piece` become the `MoveOutcome` values, and the console I/O of `get_move` (`puts`, `gets`, `chomp`) is left out. The typed line is a parameter of `Players.GetMove`.
- Boards.Board.GetPieceAt: a square is always a pair of integers, so the `nil` coordinates guarded against at lib/board.rb:39 cannot occur.
- Boards.Board.MovePiece: requires the destination to be on the board when the move is carried out. With the destination off the board Ruby indexes out of range, and the model does not reproduce any of these outcomes:
  - a row of 8 or more, or below -8, makes `@grid[x]` nil, and the write then raises NoMethodError;
  - a row from -8 to -1 wraps around to a row counted from the end, and so does a column from -8 to -1;
  - a column of 8 or more grows the row array;
  - a column below -8 raises IndexError.
- Boards.Board.InCheck, Boards.Board.Checkmate: require the side's king to be on the grid. Where it is missing, `find_king` raises "King not found". That path is modelled only in the as-written functions `Boards.InCheckAsWritten` and `Boards.CheckmateAsWritten`.
- Boards.Board.MoveRemovesCheck: requires both squares to be on the board and a piece on `from`. With `from` empty, lib/board.rb:121-123 clears `to` and then raises NoMethodError on `nil.position =`. It also requires the side's king to survive the simulated move. Otherwise the inner `in_check?` raises and the grid is not restored. Every move that `checkmate?` tries meets these requirements: it tries only its own pieces and their generated destinations, which are on the board (`Pieces.ValidMoves`), and the king survives (`Boards.OwnMoveKeepsKing`).
- Players.ConvertToIndex: models characters as Unicode code points. Ruby's `ord` on a multi-byte character agrees with that.
- Players.GetMove: a line of end-of-input (`gets` returning nil) is not modelled.
- Castling, en passant, promotion and stalemate are absent from the source, and so from the model.

## Findings

| source | as written | input that shows it | evidently intended | confidence | as-written member | corrected member |
|---|---|---|---|---|---|---|
| lib/board.rb:99 | `piece.possible_moves.include?(king_pos)`: no piece class defines `possible_moves` (the generator is `valid_moves(board)`), so the first opposing piece raises NoMethodError | `Board.new`, then `in_check?('white')`: the black rook on a8 raises | `piece.valid_moves(self).include?(king_pos)` | not executed | Boards.AsWrittenRaisesAtStart | Boards.Board.InCheck |
| lib/board.rb:73 | `checkmate?` first calls the broken `in_check?`, which raises or returns false. The loop at lines 68-85, with its own `possible_moves` call, is never reached, and the answer is never true | `Board.new`, then `checkmate?('black')` raises NoMethodError | `piece.valid_moves(self)` at line 73, and a working `in_check?` | not executed | Boards.AsWrittenNeverTrue | Boards.Board.Checkmate |
