/** The game of script.js: the module-level `board` and `currentPlayer` held by
    one object, and the functions that read and update them in place. */
module Game {
  import opened Board
  import opened Rules

  /** Who won, by the final stone counts. */
  datatype Verdict = BlackWins | WhiteWins | Draw

  /** What playerMove reports on the console after a call. */
  datatype Outcome =
    | Invalid                                          // 'Invalid move': nothing changed
    | Continue                                         // the opponent is to move
    | Skipped                                          // the opponent cannot move: the mover moves again
    | GameOver(black: nat, white: nat, verdict: Verdict) // neither side can move

  /** The end-of-game comparison: more stones wins, equal counts draw. */
  function Decide(black: nat, white: nat): Verdict
  {
    if black > white then BlackWins else if white > black then WhiteWins else Draw
  }

  /** A full board split 32 to 32 is over and drawn. */
  lemma FullBoardDraw(b: Grid)
    requires Count(b, Empty) == 0 && Count(b, Stone(Black)) == 32
    ensures !HasMove(b, Black) && !HasMove(b, White)
    ensures Decide(Count(b, Stone(Black)), Count(b, Stone(White))) == Draw
  {
    FullBoardIsOver(b, Black);
    FullBoardIsOver(b, White);
    CountPartition(b);
  }

  class Othello {
    /** `board[y][x]` is `board[Idx(x, y)]`. */
    var board: array<Cell>
    var currentPlayer: Player

    ghost predicate Valid()
      reads this
    {
      board.Length == 64
    }

    /** Loading the script: `let board = []`, `let currentPlayer = 'B'`, then
        startGame's initBoard. */
    constructor ()
      ensures Valid() && fresh(board)
      ensures board[..] == Initial() && currentPlayer == Black
    {
      board := new Cell[0];
      currentPlayer := Black;
      new;
      InitBoard();
    }

    /** initBoard: a fresh empty board with the four centre stones; the turn is untouched. */
    method InitBoard()
      modifies this`board
      ensures Valid() && fresh(board)
      ensures board[..] == Initial()
    {
      board := new Cell[64](_ => Empty);
      board[Idx(3, 3)] := Stone(White);
      board[Idx(4, 3)] := Stone(Black);
      board[Idx(3, 4)] := Stone(Black);
      board[Idx(4, 4)] := Stone(White);
      assert forall j :: 0 <= j < 64 ==> board[..][j] == Initial()[j];
    }

    /** One direction of isValidMove: walk from (x + dx, y + dy) over opponent stones;
        the direction counts when at least one was passed and a stone of `p` follows. */
    method ScanRay(x: int, y: int, d: Dir, p: Player) returns (bracketed: bool)
      requires Valid() && InBounds(x, y) && Unit(d)
      ensures bracketed == Bracketed(board[..], x, y, d, p)
    {
      ghost var b := board[..];
      var opponent := Opponent(p);
      var nx, ny := x + d.dx, y + d.dy;
      var foundOpponent := false;
      while 0 <= nx < Size && 0 <= ny < Size
        invariant ScanFrom(b, nx, ny, d, p, foundOpponent) == Bracketed(b, x, y, d, p)
        decreases Room(nx, d.dx) + Room(ny, d.dy)
      {
        var cell := board[Idx(nx, ny)];
        assert cell == b[Idx(nx, ny)];
        ScanStep(b, nx, ny, d, p, foundOpponent);
        if cell == Stone(opponent) {
          foundOpponent := true;
        } else if cell == Stone(p) {
          if foundOpponent {
            return true;
          }
          break;
        } else {
          break;
        }
        nx, ny := nx + d.dx, ny + d.dy;
      }
      return false;
    }

    /** isValidMove: the cell must be empty and some direction bracketed. A column
        off the board reads as `undefined`, which is not `null`, so it is rejected
        like an occupied cell; a row off the board has no array to read from. */
    method IsValidMove(x: int, y: int, p: Player) returns (valid: bool)
      requires Valid() && 0 <= y < Size
      ensures valid == (InBounds(x, y) && ValidIn(board[..], x, y, p))
    {
      if !(0 <= x < Size) || board[Idx(x, y)] != Empty {
        return false;
      }
      DirectionsAreUnits();
      for i := 0 to |Directions|
        invariant forall j :: 0 <= j < i ==> !Bracketed(board[..], x, y, Directions[j], p)
      {
        var bracketed := ScanRay(x, y, Directions[i], p);
        if bracketed {
          return true;
        }
      }
      return false;
    }

    /** `stonesToFlip.forEach(([fx, fy]) => board[fy][fx] = player)`. */
    method FlipStones(stones: seq<(int, int)>, p: Player)
      requires Valid() && forall t :: 0 <= t < |stones| ==> InBounds(stones[t].0, stones[t].1)
      modifies board
      ensures board[..] == Paint(old(board[..]), Cells(stones), Stone(p))
    {
      ghost var cur := board[..];
      for t := 0 to |stones|
        invariant board[..] == Paint(cur, Cells(stones[..t]), Stone(p))
      {
        var (fx, fy) := stones[t];
        ghost var before := board[..];
        board[Idx(fx, fy)] := Stone(p);
        PaintOne(before, Idx(fx, fy), Stone(p));
        PaintTwice(cur, Cells(stones[..t]), {Idx(fx, fy)}, Stone(p));
        assert Cells(stones[..t + 1]) == Cells(stones[..t]) + {Idx(fx, fy)} by {
          assert stones[..t + 1] == stones[..t] + [(fx, fy)];
          CellsAppend(stones[..t], [(fx, fy)]);
        }
      }
      assert stones[..|stones|] == stones;
    }

    /** The scan of one direction of placeStone: walk from (x + dx, y + dy) collecting
        opponent stones in `stonesToFlip` until the edge, an empty cell or a stone of
        `p`; `closed` tells whether it stopped on a stone of `p`. */
    method CollectRun(x: int, y: int, d: Dir, p: Player) returns (stonesToFlip: seq<(int, int)>, closed: bool)
      requires Valid() && InBounds(x, y) && Unit(d)
      ensures stonesToFlip == Run(board[..], x + d.dx, y + d.dy, d, p)
      ensures closed == Closes(board[..], x + d.dx, y + d.dy, d, p)
    {
      ghost var b := board[..];
      ghost var run, ends := Run(b, x + d.dx, y + d.dy, d, p), Closes(b, x + d.dx, y + d.dy, d, p);
      var opponent := Opponent(p);
      stonesToFlip, closed := [], false;
      var nx, ny := x + d.dx, y + d.dy;
      while 0 <= nx < Size && 0 <= ny < Size
        invariant run == stonesToFlip + Run(b, nx, ny, d, p)
        invariant ends == Closes(b, nx, ny, d, p)
        decreases Room(nx, d.dx) + Room(ny, d.dy)
      {
        var cell := board[Idx(nx, ny)];
        assert cell == b[Idx(nx, ny)];
        if cell == Stone(opponent) {
          RunCollect(b, run, stonesToFlip, nx, ny, d, p);
          stonesToFlip := stonesToFlip + [(nx, ny)];
        } else {
          RunStop(b, run, stonesToFlip, nx, ny, d, p);
          closed := cell == Stone(p);
          break;
        }
        nx, ny := nx + d.dx, ny + d.dy;
      }
      if !InBounds(nx, ny) {
        RunOff(b, run, stonesToFlip, nx, ny, d, p);
      }
    }

    /** One direction of placeStone: scan, and flip the collected stones when a stone
        of `p` closed the run. */
    method FlipDirection(x: int, y: int, d: Dir, p: Player)
      requires Valid() && InBounds(x, y) && Unit(d)
      modifies board
      ensures board[..] == FlipRay(old(board[..]), x, y, d, p)
    {
      var stonesToFlip, closed := CollectRun(x, y, d, p);
      if closed {
        forall t | 0 <= t < |stonesToFlip|
          ensures InBounds(stonesToFlip[t].0, stonesToFlip[t].1)
        {
          RunAt(board[..], x + d.dx, y + d.dy, d, p, t);
        }
        FlipStones(stonesToFlip, p);
      } else {
        PaintNothing(board[..], Stone(p));
      }
    }

    /** placeStone: reject an illegal move; otherwise put the stone down and flip
        each of the eight directions in turn. */
    method PlaceStone(x: int, y: int, p: Player) returns (placed: bool)
      requires Valid() && 0 <= y < Size
      modifies board
      ensures placed == (InBounds(x, y) && ValidIn(old(board[..]), x, y, p))
      ensures !placed ==> board[..] == old(board[..])
      ensures placed ==> board[..] == Place(old(board[..]), x, y, p)
      ensures placed ==> Count(board[..], Stone(Black)) + Count(board[..], Stone(White))
                         == Count(old(board[..]), Stone(Black)) + Count(old(board[..]), Stone(White)) + 1
    {
      placed := IsValidMove(x, y, p);
      if !placed {
        return;
      }
      ghost var b := board[..];
      board[Idx(x, y)] := Stone(p);
      DirectionsAreUnits();
      for i := 0 to |Directions|
        invariant board[..] == Sequential(b, x, y, p, i)
      {
        FlipDirection(x, y, Directions[i], p);
      }
      SequentialIsSimultaneous(b, x, y, p);
      PlaceCounts(b, x, y, p);
    }

    /** switchPlayer: hand the turn to the other player. */
    method SwitchPlayer()
      modifies this`currentPlayer
      ensures currentPlayer == Opponent(old(currentPlayer))
    {
      currentPlayer := if currentPlayer == Black then White else Black;
    }

    /** hasValidMoves: a row-major search for a legal move, stopping at the first. */
    method HasValidMoves(p: Player) returns (has: bool)
      requires Valid()
      ensures has == HasMove(board[..], p)
    {
      for y := 0 to Size
        invariant forall yy, xx :: 0 <= yy < y && 0 <= xx < Size ==> !ValidIn(board[..], xx, yy, p)
      {
        for x := 0 to Size
          invariant forall yy, xx :: 0 <= yy < y && 0 <= xx < Size ==> !ValidIn(board[..], xx, yy, p)
          invariant forall xx :: 0 <= xx < x ==> !ValidIn(board[..], xx, y, p)
        {
          var valid := IsValidMove(x, y, p);
          if valid {
            return true;
          }
        }
      }
      return false;
    }

    /** isGameOver: neither player has a legal move. */
    method IsGameOver() returns (over: bool)
      requires Valid()
      ensures over == (!HasMove(board[..], Black) && !HasMove(board[..], White))
    {
      var blackCan := HasValidMoves(Black);
      if blackCan {
        return false;
      }
      var whiteCan := HasValidMoves(White);
      return !whiteCan;
    }

    /** countStones: the number of black and of white stones, by a row-major scan. */
    method CountStones() returns (black: nat, white: nat)
      requires Valid()
      ensures black == Count(board[..], Stone(Black)) && white == Count(board[..], Stone(White))
      ensures black + white <= 64
    {
      black, white := 0, 0;
      for y := 0 to Size
        invariant black == Count(board[..Idx(0, y)], Stone(Black))
        invariant white == Count(board[..Idx(0, y)], Stone(White))
      {
        for x := 0 to Size
          invariant black == Count(board[..Idx(x, y)], Stone(Black))
          invariant white == Count(board[..Idx(x, y)], Stone(White))
        {
          CountPrefix(board[..], Idx(x, y), Stone(Black));
          CountPrefix(board[..], Idx(x, y), Stone(White));
          if board[Idx(x, y)] == Stone(Black) {
            black := black + 1;
          }
          if board[Idx(x, y)] == Stone(White) {
            white := white + 1;
          }
        }
      }
      assert board[..Idx(0, Size)] == board[..];
      CountPartition(board[..]);
    }

    /** playerMove: the current player plays (x, y). An illegal move changes nothing.
        After a legal one the turn goes to the opponent if the opponent can move, else
        stays with the mover if the mover can move, else the game is over. */
    method PlayerMove(x: int, y: int) returns (outcome: Outcome)
      requires Valid() && 0 <= y < Size
      modifies this`currentPlayer, board
      ensures Valid() && board == old(board)
      ensures !(InBounds(x, y) && ValidIn(old(board[..]), x, y, old(currentPlayer))) ==>
                outcome == Invalid && board[..] == old(board[..]) && currentPlayer == old(currentPlayer)
      ensures InBounds(x, y) && ValidIn(old(board[..]), x, y, old(currentPlayer)) ==>
                var mover, after := old(currentPlayer), Place(old(board[..]), x, y, old(currentPlayer));
                && board[..] == after
                && (HasMove(after, Opponent(mover)) ==>
                      outcome == Continue && currentPlayer == Opponent(mover))
                && (!HasMove(after, Opponent(mover)) && HasMove(after, mover) ==>
                      outcome == Skipped && currentPlayer == mover)
                && (!HasMove(after, Opponent(mover)) && !HasMove(after, mover) ==>
                      currentPlayer == mover &&
                      outcome == GameOver(Count(after, Stone(Black)), Count(after, Stone(White)),
                                          Decide(Count(after, Stone(Black)), Count(after, Stone(White)))))
    {
      var placed := PlaceStone(x, y, currentPlayer);
      if !placed {
        return Invalid;
      }
      SwitchPlayer();
      var can := HasValidMoves(currentPlayer);
      if !can {
        SwitchPlayer();
        OpponentInvolution(old(currentPlayer));
        can := HasValidMoves(currentPlayer);
        if !can {
          var black, white := CountStones();
          return GameOver(black, white, Decide(black, white));
        }
        return Skipped;
      }
      return Continue;
    }
  }
}
