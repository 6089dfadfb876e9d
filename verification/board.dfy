/** The Othello board as a value: players, cells, the 64-cell grid in
    row-major order, and counting stones on it. */
module Board {

  /** BOARD_SIZE: the board is Size x Size. */
  const Size: int := 8

  datatype Player = Black | White

  /** A cell is empty (`null`) or holds a stone of one player (`'B'` / `'W'`). */
  datatype Cell = Empty | Stone(owner: Player)

  /** The other player; `player === 'B' ? 'W' : 'B'`. */
  function Opponent(p: Player): (q: Player)
    ensures q != p
  {
    if p == Black then White else Black
  }

  /** Switching twice gives back the original player. */
  lemma OpponentInvolution(p: Player)
    ensures Opponent(Opponent(p)) == p
  {
  }

  /** A board snapshot: 64 cells, the cell (x, y) at index y * 8 + x. */
  type Grid = s: seq<Cell> | |s| == 64 witness seq(64, _ => Empty)

  predicate InBounds(x: int, y: int)
  {
    0 <= x < Size && 0 <= y < Size
  }

  /** Row-major index of the cell (x, y), i.e. `board[y][x]`. */
  function Idx(x: int, y: int): (j: int)
    ensures InBounds(x, y) ==> 0 <= j < 64
  {
    y * 8 + x
  }

  /** Distinct on-board coordinates have distinct indices. */
  lemma IdxInjective(x1: int, y1: int, x2: int, y2: int)
    requires InBounds(x1, y1) && InBounds(x2, y2)
    ensures Idx(x1, y1) == Idx(x2, y2) <==> x1 == x2 && y1 == y2
  {
  }

  /** The cells named by a list of `[x, y]` coordinates, as a set of indices. */
  function Cells(ps: seq<(int, int)>): set<int>
  {
    if ps == [] then {} else {Idx(ps[0].0, ps[0].1)} + Cells(ps[1..])
  }

  /** The cells of a concatenation are the cells of its parts. */
  lemma {:induction false} CellsAppend(ps: seq<(int, int)>, qs: seq<(int, int)>)
    ensures Cells(ps + qs) == Cells(ps) + Cells(qs)
  {
    if ps == [] {
      assert ps + qs == qs;
    } else {
      assert (ps + qs)[1..] == ps[1..] + qs;
      CellsAppend(ps[1..], qs);
    }
  }

  /** A cell is named by the list exactly when some entry's index is that cell. */
  lemma {:induction false} CellsMeans(ps: seq<(int, int)>, e: int)
    ensures e in Cells(ps) <==> exists j :: 0 <= j < |ps| && e == Idx(ps[j].0, ps[j].1)
  {
    if ps != [] {
      CellsMeans(ps[1..], e);
      if e in Cells(ps[1..]) {
        var j :| 0 <= j < |ps| - 1 && e == Idx(ps[1..][j].0, ps[1..][j].1);
        assert ps[j + 1] == ps[1..][j];
      }
      if exists j :: 0 <= j < |ps| && e == Idx(ps[j].0, ps[j].1) {
        var j :| 0 <= j < |ps| && e == Idx(ps[j].0, ps[j].1);
        if j > 0 {
          assert ps[1..][j - 1] == ps[j];
        }
      }
    }
  }

  /** The number of cells of `s` equal to `c`. */
  function Count(s: seq<Cell>, c: Cell): nat
  {
    if s == [] then 0
    else Count(s[..|s| - 1], c) + (if s[|s| - 1] == c then 1 else 0)
  }

  /** Every cell is empty, black or white, so the three counts add up to the size. */
  lemma {:induction false} CountPartition(s: seq<Cell>)
    ensures Count(s, Empty) + Count(s, Stone(Black)) + Count(s, Stone(White)) == |s|
  {
    if s != [] {
      CountPartition(s[..|s| - 1]);
      match s[|s| - 1]
      case Empty =>
      case Stone(q) => assert q == Black || q == White;
    }
  }

  /** No cell equals `c` exactly when `c` is counted zero times. */
  lemma {:induction false} CountZero(s: seq<Cell>, c: Cell)
    ensures Count(s, c) == 0 <==> forall j :: 0 <= j < |s| ==> s[j] != c
  {
    if s != [] {
      var t := s[..|s| - 1];
      CountZero(t, c);
      assert forall j :: 0 <= j < |t| ==> t[j] == s[j];
    }
  }

  /** Counting a prefix one cell longer: how a row-major scan accumulates a count. */
  lemma CountPrefix(s: seq<Cell>, n: nat, c: Cell)
    requires n < |s|
    ensures Count(s[..n + 1], c) == Count(s[..n], c) + (if s[n] == c then 1 else 0)
  {
    assert s[..n + 1][..n] == s[..n];
  }

  /** Overwriting one cell moves at most one unit of count from the old value to the new one. */
  lemma {:induction false} CountUpdate(s: seq<Cell>, j: int, v: Cell, c: Cell)
    requires 0 <= j < |s|
    ensures Count(s[j := v], c)
         == Count(s, c) - (if s[j] == c then 1 else 0) + (if v == c then 1 else 0)
  {
    var n := |s| - 1;
    if j == n {
      assert s[j := v][..n] == s[..n];
    } else {
      assert s[j := v][..n] == s[..n][j := v];
      CountUpdate(s[..n], j, v, c);
    }
  }

  /** `s` with every cell whose index is in `S` set to `c`. */
  function Paint(s: Grid, S: set<int>, c: Cell): (r: Grid)
    ensures forall j :: 0 <= j < 64 ==> r[j] == (if j in S then c else s[j])
  {
    seq(64, j requires 0 <= j < 64 => if j in S then c else s[j])
  }

  /** Painting no cell leaves the board as it is. */
  lemma PaintNothing(s: Grid, c: Cell)
    ensures Paint(s, {}, c) == s
  {
    assert forall j :: 0 <= j < 64 ==> Paint(s, {}, c)[j] == s[j];
  }

  /** Painting one cell is updating it. */
  lemma PaintOne(s: Grid, j: int, c: Cell)
    requires 0 <= j < 64
    ensures Paint(s, {j}, c) == s[j := c]
  {
    assert forall i :: 0 <= i < 64 ==> Paint(s, {j}, c)[i] == s[j := c][i];
  }

  /** Painting `A` and then `B` with one colour is painting their union. */
  lemma PaintTwice(s: Grid, A: set<int>, B: set<int>, c: Cell)
    ensures Paint(Paint(s, A, c), B, c) == Paint(s, A + B, c)
  {
    assert forall j :: 0 <= j < 64 ==> Paint(Paint(s, A, c), B, c)[j] == Paint(s, A + B, c)[j];
  }

  /** Painting the cells of `S`, all holding `from`, with `to` moves |S| from one count to the other. */
  lemma {:induction false} CountPaint(s: Grid, S: set<int>, from: Cell, to: Cell, c: Cell)
    requires from != to
    requires forall k :: k in S ==> 0 <= k < 64 && s[k] == from
    ensures Count(Paint(s, S, to), c)
         == Count(s, c) + (if c == to then |S| else if c == from then -|S| else 0)
    decreases S
  {
    if forall k :: k !in S {
      assert S == {};
      assert Paint(s, S, to) == s;
    } else {
      var j :| j in S;
      var R := S - {j};
      CountPaint(s, R, from, to, c);
      assert Paint(s, S, to) == Paint(s, R, to)[j := to];
      CountUpdate(Paint(s, R, to), j, to, c);
    }
  }

  /** The start position of initBoard: White on (3,3) and (4,4), Black on (4,3) and (3,4)
      (that is board[3][4] and board[4][3]), every other cell empty. */
  function Initial(): Grid
  {
    seq(64, j requires 0 <= j < 64 =>
      if j == Idx(3, 3) || j == Idx(4, 4) then Stone(White)
      else if j == Idx(4, 3) || j == Idx(3, 4) then Stone(Black)
      else Empty)
  }

  /** The start position has two stones of each colour and 60 empty cells. */
  lemma InitialCounts()
    ensures Count(Initial(), Stone(Black)) == 2
    ensures Count(Initial(), Stone(White)) == 2
    ensures Count(Initial(), Empty) == 60
  {
    var empty: Grid := seq(64, _ => Empty);
    var whites := {Idx(3, 3), Idx(4, 4)};
    var blacks := {Idx(4, 3), Idx(3, 4)};
    var half := Paint(empty, whites, Stone(White));
    assert Initial() == Paint(half, blacks, Stone(Black));
    CountZero(empty, Stone(Black));
    CountZero(empty, Stone(White));
    CountPartition(empty);
    CountPaint(empty, whites, Empty, Stone(White), Stone(Black));
    CountPaint(empty, whites, Empty, Stone(White), Stone(White));
    CountPaint(empty, whites, Empty, Stone(White), Empty);
    CountPaint(half, blacks, Empty, Stone(Black), Stone(Black));
    CountPaint(half, blacks, Empty, Stone(Black), Stone(White));
    CountPaint(half, blacks, Empty, Stone(Black), Empty);
  }
}
