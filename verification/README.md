# Othello rules engine (script.js), modelled in Dafny

This project models the game logic of the browser Othello script `script.js`:
the 8 x 8 board and the player to move (module-level `board` and
`currentPlayer`), and the functions that read and change them: `initBoard`,
`isValidMove`, `placeStone`, `switchPlayer`, `hasValidMoves`, `isGameOver`,
`countStones` and `playerMove`.

The project has three modules.

- `Board` (`board.dfy`) holds the values:
  - players and cells;
  - a board snapshot `Grid`, a sequence of 64 cells where cell (x, y) is index `y * 8 + x`;
  - stone counting;
  - `Paint`, which recolours a set of cells;
  - the start position.
- `Rules` (`rules.dfy`) holds the rules on snapshots, stated in two ways:
  - as the scan loops walk them: `Run` is the opponent stones a scan passes, which is placeStone's `stonesToFlip`, and `Closes` says whether a stone of the mover ends the scan;
  - by distance from the move: `Brackets(b, x, y, d, p, n)` says the cells 1..n steps away hold opponent stones and the cell n + 1 steps away holds the mover's stone.

  Lemmas connect the two forms. On top of them are the legality predicate `ValidIn`, the flip set `FlipSet` and the board after a move, `Place`. Lemmas prove what a move does to the board and to the stone counts.
- `Game` (`game.dfy`) holds the script itself: a class `Othello` with an `array` board and a `currentPlayer` field. Its methods follow the JavaScript functions loop for loop. Each method is proved against the `Rules` functions of the snapshot `board[..]`.

Where the design description of the game and the code disagree, the model follows the code:

- **No pass counter.** The code keeps none.
- **No full-board shortcut.** The code has no board-full fast path for the end of the game. `Rules.FullBoardIsOver` proves that the general condition already covers a full board.
- **The turn is not reset.** `initBoard` leaves `currentPlayer` alone. Only the script's `let currentPlayer = 'B'` sets it, so only the constructor starts with Black.
- **placeStone returns a boolean.** It does not return the list of flipped stones. The flipped cells are still available to the proofs, as `FlipSet`.

## Model

| member | source | states |
|---|---|---|
| Board.Opponent | script.js:46 | the opponent of a player is the other player |
| Board.OpponentInvolution | script.js:113-115 | switching the player twice gives back the original player |
| Board.InitialCounts | script.js:19-26 | the start position has exactly two black stones, two white stones and 60 empty cells |
| Board.CountPartition | script.js:133-143 | on any board, the empty, black and white counts add up to the number of cells |
| Board.CountPaint | script.js:97-99 | recolouring a set of cells that all held one colour moves exactly the size of the set from that colour's count to the new colour's count; other counts do not change |
| Rules.DirectionsAreUnits | script.js:47-51 | the eight scan directions are distinct unit steps |
| Rules.RunStep | script.js:58-69 | one scan step: an opponent stone is passed and the scan goes on from the next cell; any other cell ends the scan, which closes exactly when that cell is the mover's stone |
| Rules.ScanStep | script.js:58-69 | one step of isValidMove's scan: an opponent stone sets `foundOpponent`; the mover's stone decides by `foundOpponent`; an empty cell fails |
| Rules.RunCollect | script.js:94-95 | passing an opponent stone appends it to `stonesToFlip`, and the rest of the scan is the scan from the next cell |
| Rules.RunStop | script.js:96-103 | a cell that is not an opponent stone adds nothing to `stonesToFlip`, and the scan closes exactly when it holds the mover's stone |
| Rules.RunOff | script.js:93 | a scan that has left the board collects nothing more and does not close |
| Rules.RunAt | script.js:93-95 | the j-th stone a scan passes is the opponent stone j steps from where the scan starts |
| Rules.RunEnd | script.js:93-103 | a scan ends on a cell that is not an opponent stone, as many steps away as the stones it passed, and closes exactly when that cell holds the mover's stone |
| Rules.RunLength | script.js:93-103 | when the mover brackets n stones along a direction, the scan passes exactly n stones and closes |
| Rules.BracketedMeans | script.js:53-70 | a direction counts for isValidMove exactly when some run of n >= 1 opponent stones is followed by the mover's stone; an adjacent stone of the mover (a run of zero) does not count |
| Rules.LegalityMeans | script.js:43-73 | a move is legal exactly when the cell is empty and some direction brackets one or more opponent stones |
| Rules.FlipsMeans | script.js:93-99 | the stones flipped along a direction are exactly the cells 1..n steps away when the mover brackets n stones there |
| Rules.NoFlipsUnlessBracketed | script.js:96-103 | without a bracket in a direction, nothing is flipped in that direction |
| Rules.AheadApart | script.js:47-51 | no cell lies ahead of the move in two different directions |
| Rules.FlipsAgree | script.js:88-107 | two boards that agree on the cells ahead of the move in a direction flip the same cells there, so flips in other directions cannot change a direction's scan |
| Rules.FlipsUpToCells | script.js:88-107 | every cell flipped by the first n directions was an opponent stone, is not the move's cell, and lies ahead of the move in a direction that flips it |
| Rules.SequentialIsPaint | script.js:79-107 | after the first n directions, the board from flipping direction by direction is the original board with the move's cell and the flips of those n directions (all read from the original board) painted |
| Rules.SequentialIsSimultaneous | script.js:79-107 | flipping the eight directions one after the other, each scan reading the board left by the previous ones, gives the same board as flipping every captured stone at once |
| Rules.LegalMoveFlips | script.js:77-107 | every legal move flips at least one stone |
| Rules.PlaceChanges | script.js:77-107 | a legal move makes the cell and every flipped stone the mover's; every flipped stone was an opponent stone; a cell changes exactly when it is the move's cell or flipped; in each direction only that direction's flips change |
| Rules.PlaceCounts | script.js:76-110 | after a legal move, the mover gains one stone plus the flips, the opponent loses the flips, one empty cell fills, and the total number of stones grows by one |
| Rules.FullBoardIsOver | script.js:44 | with no empty cell, no player has a legal move |
| Game.FullBoardDraw | script.js:128-130 | a full board split 32 to 32 is over and is a draw |
| Game.Othello.constructor | script.js:15-26 | a new game holds the start position and Black is to move |
| Game.Othello.InitBoard | script.js:19-26 | initBoard makes a fresh board holding exactly the start position |
| Game.Othello.ScanRay | script.js:53-69 | the scan of one direction returns true exactly when that direction is bracketed |
| Game.Othello.IsValidMove | script.js:43-73 | the result is true exactly when the cell is on the board, empty, and bracketed in some direction |
| Game.Othello.FlipStones | script.js:97-99 | the board afterwards is the old board with every listed cell set to the player |
| Game.Othello.CollectRun | script.js:89-106 | `stonesToFlip` is exactly the run of opponent stones the scan passes, and `closed` tells whether the mover's stone ended it |
| Game.Othello.FlipDirection | script.js:88-107 | one direction of placeStone flips exactly that direction's bracketed stones, read on the current board |
| Game.Othello.PlaceStone | script.js:76-110 | returns whether the move is legal; an illegal move leaves the board unchanged; a legal move leaves the board from setting the cell and flipping every captured stone, with one more stone in total |
| Game.Othello.SwitchPlayer | script.js:113-115 | the turn passes to the opponent |
| Game.Othello.HasValidMoves | script.js:118-125 | the result is true exactly when some cell is a legal move for the player |
| Game.Othello.IsGameOver | script.js:128-130 | the game is over exactly when neither player has a legal move |
| Game.Othello.CountStones | script.js:133-143 | returns exactly the black and white stone counts; together they are at most 64 |
| Game.Othello.PlayerMove | script.js:152-175 | an illegal move changes nothing; after a legal move, the turn goes to the opponent if the opponent can move, otherwise stays with the mover if the mover can move (a skip), otherwise the game ends with the final counts and the winner |

## Left out

- **Service worker registration** (script.js:1-10) is browser I/O with no game logic.
- **printBoard and console output** (script.js:29-40) are not modelled. The messages of `playerMove` become the `Outcome` value it returns. The skip message prints `currentPlayer`, which is then the mover again, so it names the wrong player as having no moves. That message is output only, and `Outcome.Skipped` carries no player.
- **startGame** (script.js:146-149) and the top-level call are modelled by the constructor, without printing.
- **Rows off the board are a precondition.** A row `y` outside 0..7 makes `board[y]` undefined, and the source throws a TypeError. `IsValidMove`, `PlaceStone` and `PlayerMove` require `0 <= y < 8`. A column off the board is modelled: it reads as `undefined` and the move is rejected.
- **Coordinates are integers.** Non-integer JavaScript numbers are not modelled.
- **The board is flat.** It is one 64-cell array indexed `y * 8 + x` instead of an array of 8 rows. The cells and their meaning are the same.
- **Direction loops are separate methods.** The per-direction loops of isValidMove and placeStone are `ScanRay` and `CollectRun` / `FlipDirection`.
- **Flipping happens after the scan.** placeStone flips `stonesToFlip` just before its `break`. The model flips after the scan returns, when the scan closed. Nothing is read in between, so the effect is the same. An empty `stonesToFlip` flips nothing in both.
- **The scoring bot is not part of this model.** That is the evaluation function and the minimax search of other versions of the game; script.js has none.
