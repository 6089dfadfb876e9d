/** Legality and flipping on board values: the specification that the
    in-place methods isValidMove and placeStone are proved against. */
module Rules {
  import opened Board

  /** A scan direction `[dx, dy]`. */
  datatype Dir = Dir(dx: int, dy: int)

  /** The eight directions, in the order isValidMove and placeStone scan them. */
  const Directions: seq<Dir> :=
    [Dir(-1, -1), Dir(0, -1), Dir(1, -1),
     Dir(-1, 0),              Dir(1, 0),
     Dir(-1, 1),  Dir(0, 1),  Dir(1, 1)]

  /** A non-zero step of at most one cell along each axis. */
  predicate Unit(d: Dir)
  {
    -1 <= d.dx <= 1 && -1 <= d.dy <= 1 && (d.dx != 0 || d.dy != 0)
  }

  /** The eight directions are distinct unit steps. */
  lemma DirectionsAreUnits()
    ensures |Directions| == 8
    ensures forall i :: 0 <= i < 8 ==> Unit(Directions[i])
    ensures forall i, j :: 0 <= i < 8 && 0 <= j < 8 && Directions[i] == Directions[j] ==> i == j
  {
  }

  /** How many more steps along a unit component u fit on the board from coordinate c
      (a termination measure for the scans). */
  function Room(c: int, u: int): int
  {
    if u > 0 then Size - c else if u < 0 then c + 1 else 0
  }

  // ---------------------------------------------------------------------------
  // One direction, as the scan loops walk it.
  // ---------------------------------------------------------------------------

  /** The opponent stones a scan passes from (cx, cy) on, stepping by d
      (`nx += dx; ny += dy`), in order: placeStone's `stonesToFlip`. */
  function Run(b: Grid, cx: int, cy: int, d: Dir, p: Player): seq<(int, int)>
    requires Unit(d)
    decreases Room(cx, d.dx) + Room(cy, d.dy)
  {
    if InBounds(cx, cy) && b[Idx(cx, cy)] == Stone(Opponent(p))
    then [(cx, cy)] + Run(b, cx + d.dx, cy + d.dy, d, p)
    else []
  }

  /** Whether that scan stops on a stone of `p` (rather than an empty cell or the edge). */
  predicate Closes(b: Grid, cx: int, cy: int, d: Dir, p: Player)
    requires Unit(d)
    decreases Room(cx, d.dx) + Room(cy, d.dy)
  {
    InBounds(cx, cy) &&
    if b[Idx(cx, cy)] == Stone(Opponent(p)) then Closes(b, cx + d.dx, cy + d.dy, d, p)
    else b[Idx(cx, cy)] == Stone(p)
  }

  /** One step of the scan at an on-board cell: an opponent stone is passed and the
      scan goes on from the next cell; anything else ends it, closed exactly when
      it is a stone of `p`. */
  lemma RunStep(b: Grid, cx: int, cy: int, d: Dir, p: Player)
    requires Unit(d) && InBounds(cx, cy)
    ensures b[Idx(cx, cy)] == Stone(Opponent(p)) ==>
              && Run(b, cx, cy, d, p) == [(cx, cy)] + Run(b, cx + d.dx, cy + d.dy, d, p)
              && Closes(b, cx, cy, d, p) == Closes(b, cx + d.dx, cy + d.dy, d, p)
    ensures b[Idx(cx, cy)] != Stone(Opponent(p)) ==>
              Run(b, cx, cy, d, p) == [] && Closes(b, cx, cy, d, p) == (b[Idx(cx, cy)] == Stone(p))
  {
  }

  /** Passing an opponent stone moves it from the rest of the scan to the stones
      collected so far. */
  lemma RunCollect(b: Grid, run: seq<(int, int)>, acc: seq<(int, int)>, cx: int, cy: int, d: Dir, p: Player)
    requires Unit(d) && InBounds(cx, cy) && b[Idx(cx, cy)] == Stone(Opponent(p))
    requires run == acc + Run(b, cx, cy, d, p)
    ensures run == (acc + [(cx, cy)]) + Run(b, cx + d.dx, cy + d.dy, d, p)
    ensures Closes(b, cx, cy, d, p) == Closes(b, cx + d.dx, cy + d.dy, d, p)
  {
    RunStep(b, cx, cy, d, p);
  }

  /** Meeting anything but an opponent stone ends the scan: nothing more is collected,
      and it closes exactly when that cell holds a stone of `p`. */
  lemma RunStop(b: Grid, run: seq<(int, int)>, acc: seq<(int, int)>, cx: int, cy: int, d: Dir, p: Player)
    requires Unit(d) && InBounds(cx, cy) && b[Idx(cx, cy)] != Stone(Opponent(p))
    requires run == acc + Run(b, cx, cy, d, p)
    ensures run == acc
    ensures Closes(b, cx, cy, d, p) == (b[Idx(cx, cy)] == Stone(p))
  {
    RunStep(b, cx, cy, d, p);
    assert acc + [] == acc;
  }

  /** A scan that has left the board collects nothing more and does not close. */
  lemma RunOff(b: Grid, run: seq<(int, int)>, acc: seq<(int, int)>, cx: int, cy: int, d: Dir, p: Player)
    requires Unit(d) && !InBounds(cx, cy)
    requires run == acc + Run(b, cx, cy, d, p)
    ensures run == acc
    ensures !Closes(b, cx, cy, d, p)
  {
    assert acc + [] == acc;
  }

  /** isValidMove's verdict on a scan at (cx, cy) that has `found` an opponent stone
      or not: at least one opponent stone in all, then a stone of `p`. */
  predicate ScanFrom(b: Grid, cx: int, cy: int, d: Dir, p: Player, found: bool)
    requires Unit(d)
  {
    (found || |Run(b, cx, cy, d, p)| >= 1) && Closes(b, cx, cy, d, p)
  }

  /** One step of isValidMove's scan: an opponent stone sets `foundOpponent` and the
      scan goes on; a stone of `p` decides by `foundOpponent`; an empty cell fails. */
  lemma ScanStep(b: Grid, cx: int, cy: int, d: Dir, p: Player, found: bool)
    requires Unit(d) && InBounds(cx, cy)
    ensures b[Idx(cx, cy)] == Stone(Opponent(p)) ==>
              ScanFrom(b, cx, cy, d, p, found) == ScanFrom(b, cx + d.dx, cy + d.dy, d, p, true)
    ensures b[Idx(cx, cy)] != Stone(Opponent(p)) ==>
              ScanFrom(b, cx, cy, d, p, found) == (found && b[Idx(cx, cy)] == Stone(p))
  {
    RunStep(b, cx, cy, d, p);
  }

  /** Along d from (x, y), isValidMove's verdict: at least one opponent stone
      (`foundOpponent`), then a stone of `p`. */
  predicate Bracketed(b: Grid, x: int, y: int, d: Dir, p: Player)
    requires Unit(d)
  {
    |Run(b, x + d.dx, y + d.dy, d, p)| >= 1 && Closes(b, x + d.dx, y + d.dy, d, p)
  }

  /** What placeStone flips along d from (x, y): the opponent stones passed, when a
      stone of `p` ends the scan, and nothing otherwise. */
  function FlipsDir(b: Grid, x: int, y: int, d: Dir, p: Player): set<int>
    requires Unit(d)
  {
    if Closes(b, x + d.dx, y + d.dy, d, p) then Cells(Run(b, x + d.dx, y + d.dy, d, p)) else {}
  }

  /** isValidMove: (x, y) is empty and some direction is bracketed. */
  predicate ValidIn(b: Grid, x: int, y: int, p: Player)
    requires InBounds(x, y)
  {
    b[Idx(x, y)] == Empty && exists i :: 0 <= i < 8 && Bracketed(b, x, y, Directions[i], p)
  }

  /** hasValidMoves: some cell of the board is a legal move for `p`. */
  predicate HasMove(b: Grid, p: Player)
  {
    exists x, y :: 0 <= x < Size && 0 <= y < Size && ValidIn(b, x, y, p)
  }

  /** The flips of the first n directions, all read from the same board `b`. */
  function FlipsUpTo(b: Grid, x: int, y: int, p: Player, n: nat): set<int>
    requires n <= 8
  {
    if n == 0 then {} else FlipsUpTo(b, x, y, p, n - 1) + FlipsDir(b, x, y, Directions[n - 1], p)
  }

  /** Every stone a move at (x, y) captures, over all eight directions at once. */
  function FlipSet(b: Grid, x: int, y: int, p: Player): set<int>
  {
    FlipsUpTo(b, x, y, p, 8)
  }

  /** The board after `p` plays (x, y): the new stone and all captured stones
      become `p`'s, with every direction flipped simultaneously. */
  function Place(b: Grid, x: int, y: int, p: Player): Grid
    requires InBounds(x, y)
  {
    Paint(b, {Idx(x, y)} + FlipSet(b, x, y, p), Stone(p))
  }

  /** One pass of placeStone's direction loop: scan `s` along d and flip what it collected. */
  function FlipRay(s: Grid, x: int, y: int, d: Dir, p: Player): Grid
    requires Unit(d)
  {
    Paint(s, FlipsDir(s, x, y, d, p), Stone(p))
  }

  /** placeStone as the code runs it: set (x, y), then scan and flip the first n
      directions one after the other, each scan reading the board left by the previous ones. */
  function Sequential(b: Grid, x: int, y: int, p: Player, n: nat): Grid
    requires InBounds(x, y) && n <= 8
  {
    if n == 0 then b[Idx(x, y) := Stone(p)]
    else FlipRay(Sequential(b, x, y, p, n - 1), x, y, Directions[n - 1], p)
  }

  // ---------------------------------------------------------------------------
  // The rule stated by distance: the cell k steps from (x, y) along d.
  // ---------------------------------------------------------------------------

  /** The cell k steps from (x, y) along d. */
  function Step(x: int, y: int, d: Dir, k: nat): (int, int)
    decreases k
  {
    if k == 0 then (x, y) else Step(x + d.dx, y + d.dy, d, k - 1)
  }

  /** Cell c is on the board and holds v. */
  predicate Holds(b: Grid, c: (int, int), v: Cell)
  {
    InBounds(c.0, c.1) && b[Idx(c.0, c.1)] == v
  }

  /** Cell e is between 1 and n steps from (x, y) along d. */
  ghost predicate Within(x: int, y: int, d: Dir, n: int, e: int)
  {
    exists k: nat :: 1 <= k <= n && e == Idx(Step(x, y, d, k).0, Step(x, y, d, k).1)
  }

  /** `p` brackets exactly n >= 1 opponent stones along d: the cells 1..n steps away
      hold opponent stones and the cell n + 1 steps away a stone of `p`. */
  ghost predicate Brackets(b: Grid, x: int, y: int, d: Dir, p: Player, n: int)
  {
    && 1 <= n
    && (forall k :: 1 <= k <= n ==> Holds(b, Step(x, y, d, k), Stone(Opponent(p))))
    && Holds(b, Step(x, y, d, n + 1), Stone(p))
  }

  /** The j-th stone a scan from (cx, cy) passes is the opponent stone j steps
      from (cx, cy). */
  lemma {:induction false} RunAt(b: Grid, cx: int, cy: int, d: Dir, p: Player, j: nat)
    requires Unit(d) && j < |Run(b, cx, cy, d, p)|
    ensures Run(b, cx, cy, d, p)[j] == Step(cx, cy, d, j)
    ensures Holds(b, Step(cx, cy, d, j), Stone(Opponent(p)))
    decreases j
  {
    if InBounds(cx, cy) {
      RunStep(b, cx, cy, d, p);
      if j > 0 {
        RunAt(b, cx + d.dx, cy + d.dy, d, p, j - 1);
      }
    }
  }

  /** A scan from (cx, cy) ends |run| steps from (cx, cy), on a cell that is not an
      opponent stone, and closes exactly when that cell holds a stone of `p`. */
  lemma {:induction false} RunEnd(b: Grid, cx: int, cy: int, d: Dir, p: Player)
    requires Unit(d)
    ensures var r := Run(b, cx, cy, d, p);
            && !Holds(b, Step(cx, cy, d, |r|), Stone(Opponent(p)))
            && (Closes(b, cx, cy, d, p) <==> Holds(b, Step(cx, cy, d, |r|), Stone(p)))
    decreases Room(cx, d.dx) + Room(cy, d.dy)
  {
    if Holds(b, (cx, cy), Stone(Opponent(p))) {
      RunEnd(b, cx + d.dx, cy + d.dy, d, p);
    }
  }

  /** When `p` brackets n stones along d, the scan passes exactly n of them and closes. */
  lemma RunLength(b: Grid, x: int, y: int, d: Dir, p: Player, n: int)
    requires Unit(d) && Brackets(b, x, y, d, p, n)
    ensures |Run(b, x + d.dx, y + d.dy, d, p)| == n
    ensures Closes(b, x + d.dx, y + d.dy, d, p)
  {
    var cx, cy := x + d.dx, y + d.dy;
    RunEnd(b, cx, cy, d, p);
    var r := Run(b, cx, cy, d, p);
    assert Step(x, y, d, |r| + 1) == Step(cx, cy, d, |r|);
    if n < |r| {
      assert Step(x, y, d, n + 1) == Step(cx, cy, d, n);
      RunAt(b, cx, cy, d, p, n);
    }
  }

  /** A direction is bracketed exactly when `Brackets` holds of some run length; a
      stone of `p` right next to (x, y) is a run of zero and does not count. */
  lemma BracketedMeans(b: Grid, x: int, y: int, d: Dir, p: Player)
    requires Unit(d)
    ensures Bracketed(b, x, y, d, p) <==> exists n :: Brackets(b, x, y, d, p, n)
  {
    if Bracketed(b, x, y, d, p) {
      var cx, cy := x + d.dx, y + d.dy;
      RunEnd(b, cx, cy, d, p);
      var r := Run(b, cx, cy, d, p);
      forall k | 1 <= k <= |r|
        ensures Holds(b, Step(x, y, d, k), Stone(Opponent(p)))
      {
        RunAt(b, cx, cy, d, p, k - 1);
      }
      assert Step(x, y, d, |r| + 1) == Step(cx, cy, d, |r|);
      assert Brackets(b, x, y, d, p, |r|);
    }
    if exists n :: Brackets(b, x, y, d, p, n) {
      var n :| Brackets(b, x, y, d, p, n);
      RunLength(b, x, y, d, p, n);
    }
  }

  /** Each stone the scan along d passes is a cell 1..|run| steps away. */
  lemma RunWithin(b: Grid, x: int, y: int, d: Dir, p: Player, e: int)
    requires Unit(d) && e in Cells(Run(b, x + d.dx, y + d.dy, d, p))
    ensures Within(x, y, d, |Run(b, x + d.dx, y + d.dy, d, p)|, e)
  {
    var r := Run(b, x + d.dx, y + d.dy, d, p);
    CellsMeans(r, e);
    var j :| 0 <= j < |r| && e == Idx(r[j].0, r[j].1);
    RunAt(b, x + d.dx, y + d.dy, d, p, j);
    assert Step(x, y, d, j + 1) == Step(x + d.dx, y + d.dy, d, j);
  }

  /** Each cell 1..|run| steps away along d is a stone the scan passes. */
  lemma WithinRun(b: Grid, x: int, y: int, d: Dir, p: Player, e: int)
    requires Unit(d) && Within(x, y, d, |Run(b, x + d.dx, y + d.dy, d, p)|, e)
    ensures e in Cells(Run(b, x + d.dx, y + d.dy, d, p))
  {
    var r := Run(b, x + d.dx, y + d.dy, d, p);
    var k: nat :| 1 <= k <= |r| && e == Idx(Step(x, y, d, k).0, Step(x, y, d, k).1);
    RunAt(b, x + d.dx, y + d.dy, d, p, k - 1);
    CellsMeans(r, e);
  }

  /** The stones flipped along d are exactly the bracketed ones: the cells 1..n steps
      away when `p` brackets n stones. */
  lemma FlipsMeans(b: Grid, x: int, y: int, d: Dir, p: Player, n: int)
    requires Unit(d) && Brackets(b, x, y, d, p, n)
    ensures forall e :: e in FlipsDir(b, x, y, d, p) <==> Within(x, y, d, n, e)
  {
    RunLength(b, x, y, d, p, n);
    forall e
      ensures e in FlipsDir(b, x, y, d, p) <==> Within(x, y, d, n, e)
    {
      if e in FlipsDir(b, x, y, d, p) {
        RunWithin(b, x, y, d, p, e);
      }
      if Within(x, y, d, n, e) {
        WithinRun(b, x, y, d, p, e);
      }
    }
  }

  /** Without a bracket along d nothing is flipped there. */
  lemma NoFlipsUnlessBracketed(b: Grid, x: int, y: int, d: Dir, p: Player)
    requires Unit(d) && !Bracketed(b, x, y, d, p)
    ensures FlipsDir(b, x, y, d, p) == {}
  {
    var r := Run(b, x + d.dx, y + d.dy, d, p);
    if Closes(b, x + d.dx, y + d.dy, d, p) {
      assert r == [];
    }
  }

  /** A move is legal exactly when the cell is empty and, in some direction, one or
      more opponent stones are followed by a stone of the mover. */
  lemma LegalityMeans(b: Grid, x: int, y: int, p: Player)
    requires InBounds(x, y)
    ensures ValidIn(b, x, y, p) <==>
            b[Idx(x, y)] == Empty && exists i, n :: 0 <= i < 8 && Brackets(b, x, y, Directions[i], p, n)
  {
    DirectionsAreUnits();
    forall i | 0 <= i < 8
      ensures Bracketed(b, x, y, Directions[i], p) <==> exists n :: Brackets(b, x, y, Directions[i], p, n)
    {
      BracketedMeans(b, x, y, Directions[i], p);
    }
  }

  // ---------------------------------------------------------------------------
  // Different directions touch different cells.
  // ---------------------------------------------------------------------------

  /** The sign of v: -1, 0 or 1. */
  function Sign(v: int): int
  {
    if v > 0 then 1 else if v < 0 then -1 else 0
  }

  /** Cell e lies ahead of (x, y) in direction d: its column and row differ from x
      and y with the signs of dx and dy. */
  predicate Ahead(x: int, y: int, d: Dir, e: int)
  {
    0 <= e < 64 && Sign(e % 8 - x) == d.dx && Sign(e / 8 - y) == d.dy
  }

  /** Column and row of an on-board cell can be read back from its index. */
  lemma IdxCoords(x: int, y: int)
    requires InBounds(x, y)
    ensures Idx(x, y) % 8 == x && Idx(x, y) / 8 == y
  {
  }

  /** No cell lies ahead of (x, y) in two different directions. */
  lemma AheadApart(x: int, y: int, i: int, j: int, e: int)
    requires 0 <= i < 8 && 0 <= j < 8
    requires Ahead(x, y, Directions[i], e) && Ahead(x, y, Directions[j], e)
    ensures i == j
  {
    DirectionsAreUnits();
  }

  /** The origin is not ahead of itself. */
  lemma OriginNotAhead(x: int, y: int, d: Dir)
    requires InBounds(x, y) && Unit(d)
    ensures !Ahead(x, y, d, Idx(x, y))
  {
    IdxCoords(x, y);
  }

  /** A scan that starts ahead of (x, y) in direction d passes only opponent stones
      that lie ahead of (x, y) in that direction. */
  lemma {:induction false} RunAhead(b: Grid, x: int, y: int, cx: int, cy: int, d: Dir, p: Player)
    requires Unit(d) && Sign(cx - x) == d.dx && Sign(cy - y) == d.dy
    ensures forall e :: e in Cells(Run(b, cx, cy, d, p)) ==> Ahead(x, y, d, e) && b[e] == Stone(Opponent(p))
    decreases Room(cx, d.dx) + Room(cy, d.dy)
  {
    var r := Run(b, cx, cy, d, p);
    if r != [] {
      var rest := Run(b, cx + d.dx, cy + d.dy, d, p);
      assert r[0] == (cx, cy) && r[1..] == rest;
      IdxCoords(cx, cy);
      RunAhead(b, x, y, cx + d.dx, cy + d.dy, d, p);
    }
  }

  /** Two boards that agree ahead of (x, y) in direction d give the same scan from a
      cell ahead of (x, y) there. */
  lemma {:induction false} RunAgrees(s: Grid, b: Grid, x: int, y: int, cx: int, cy: int, d: Dir, p: Player)
    requires Unit(d) && Sign(cx - x) == d.dx && Sign(cy - y) == d.dy
    requires forall e :: Ahead(x, y, d, e) ==> s[e] == b[e]
    ensures Run(s, cx, cy, d, p) == Run(b, cx, cy, d, p)
    ensures Closes(s, cx, cy, d, p) == Closes(b, cx, cy, d, p)
    decreases Room(cx, d.dx) + Room(cy, d.dy)
  {
    if InBounds(cx, cy) {
      IdxCoords(cx, cy);
      assert Ahead(x, y, d, Idx(cx, cy));
      RunAgrees(s, b, x, y, cx + d.dx, cy + d.dy, d, p);
    }
  }

  /** Two boards that agree ahead of (x, y) in direction d flip the same cells there. */
  lemma FlipsAgree(s: Grid, b: Grid, x: int, y: int, d: Dir, p: Player)
    requires Unit(d)
    requires forall e :: Ahead(x, y, d, e) ==> s[e] == b[e]
    ensures FlipsDir(s, x, y, d, p) == FlipsDir(b, x, y, d, p)
  {
    RunAgrees(s, b, x, y, x + d.dx, y + d.dy, d, p);
  }

  /** The flips of direction d lie ahead of (x, y) in direction d and are opponent stones. */
  lemma FlipsAhead(b: Grid, x: int, y: int, d: Dir, p: Player)
    requires Unit(d)
    ensures forall e :: e in FlipsDir(b, x, y, d, p) ==> Ahead(x, y, d, e) && b[e] == Stone(Opponent(p))
  {
    RunAhead(b, x, y, x + d.dx, y + d.dy, d, p);
  }

  /** Each flipped cell is an opponent stone flipped by one of the first n directions,
      ahead of (x, y) in that direction, and not the origin. */
  lemma {:induction false} FlipsUpToCells(b: Grid, x: int, y: int, p: Player, n: nat, e: int)
    requires InBounds(x, y) && n <= 8 && e in FlipsUpTo(b, x, y, p, n)
    ensures 0 <= e < 64 && e != Idx(x, y) && b[e] == Stone(Opponent(p))
    ensures exists i :: 0 <= i < n && Ahead(x, y, Directions[i], e) && e in FlipsDir(b, x, y, Directions[i], p)
  {
    DirectionsAreUnits();
    if e in FlipsUpTo(b, x, y, p, n - 1) {
      FlipsUpToCells(b, x, y, p, n - 1, e);
    } else {
      var D := Directions[n - 1];
      FlipsAhead(b, x, y, D, p);
      OriginNotAhead(x, y, D);
    }
  }

  /** The flips of direction i (i < n) are among the flips of the first n directions. */
  lemma {:induction false} FlipsUpToContains(b: Grid, x: int, y: int, p: Player, n: nat, i: nat)
    requires i < n <= 8
    ensures FlipsDir(b, x, y, Directions[i], p) <= FlipsUpTo(b, x, y, p, n)
  {
    if i < n - 1 {
      FlipsUpToContains(b, x, y, p, n - 1, i);
    }
  }

  // ---------------------------------------------------------------------------
  // The effect of a move.
  // ---------------------------------------------------------------------------

  /** After n directions, the sequential board is the original with the origin
      and every flip of those n directions (read from the ORIGINAL board) painted. */
  lemma {:induction false} SequentialIsPaint(b: Grid, x: int, y: int, p: Player, n: nat)
    requires InBounds(x, y) && n <= 8
    ensures Sequential(b, x, y, p, n) == Paint(b, {Idx(x, y)} + FlipsUpTo(b, x, y, p, n), Stone(p))
  {
    DirectionsAreUnits();
    if n == 0 {
      PaintOne(b, Idx(x, y), Stone(p));
    } else {
      SequentialIsPaint(b, x, y, p, n - 1);
      var s := Sequential(b, x, y, p, n - 1);
      var A := {Idx(x, y)} + FlipsUpTo(b, x, y, p, n - 1);
      var D := Directions[n - 1];
      OriginNotAhead(x, y, D);
      forall e | Ahead(x, y, D, e)
        ensures s[e] == b[e]
      {
        if e in FlipsUpTo(b, x, y, p, n - 1) {
          FlipsUpToCells(b, x, y, p, n - 1, e);
        }
      }
      FlipsAgree(s, b, x, y, D, p);
      var F := FlipsDir(b, x, y, D, p);
      PaintTwice(b, A, F, Stone(p));
      assert A + F == {Idx(x, y)} + FlipsUpTo(b, x, y, p, n);
    }
  }

  /** Flipping direction by direction, each scan on the board left by the previous
      one, ends in the same board as flipping every captured stone at once: no two
      directions flip the same cell, and none flips the origin. */
  lemma SequentialIsSimultaneous(b: Grid, x: int, y: int, p: Player)
    requires InBounds(x, y)
    ensures Sequential(b, x, y, p, 8) == Place(b, x, y, p)
  {
    SequentialIsPaint(b, x, y, p, 8);
  }

  /** Legality soundness: every legal move captures at least one stone. */
  lemma LegalMoveFlips(b: Grid, x: int, y: int, p: Player)
    requires InBounds(x, y) && ValidIn(b, x, y, p)
    ensures |FlipSet(b, x, y, p)| >= 1
  {
    DirectionsAreUnits();
    var i :| 0 <= i < 8 && Bracketed(b, x, y, Directions[i], p);
    var D := Directions[i];
    var r := Run(b, x + D.dx, y + D.dy, D, p);
    assert Idx(r[0].0, r[0].1) in FlipsDir(b, x, y, D, p);
    FlipsUpToContains(b, x, y, p, 8, i);
  }

  /** What a legal move changes: the origin becomes `p`'s, every captured stone was
      an opponent stone and becomes `p`'s, and no other cell changes; in particular
      no empty cell but the origin is filled, and in each direction no cell but that
      direction's own flips changes. */
  lemma PlaceChanges(b: Grid, x: int, y: int, p: Player)
    requires InBounds(x, y) && ValidIn(b, x, y, p)
    ensures Place(b, x, y, p)[Idx(x, y)] == Stone(p)
    ensures forall e :: e in FlipSet(b, x, y, p) ==>
              0 <= e < 64 && e != Idx(x, y) && b[e] == Stone(Opponent(p)) && Place(b, x, y, p)[e] == Stone(p)
    ensures forall e :: 0 <= e < 64 ==>
              (Place(b, x, y, p)[e] != b[e] <==> e == Idx(x, y) || e in FlipSet(b, x, y, p))
    ensures forall e :: 0 <= e < 64 && e != Idx(x, y) && b[e] != Stone(Opponent(p)) ==>
              Place(b, x, y, p)[e] == b[e]
    ensures forall i, e :: 0 <= i < 8 && Ahead(x, y, Directions[i], e) && e !in FlipsDir(b, x, y, Directions[i], p) ==>
              Place(b, x, y, p)[e] == b[e]
  {
    forall e | e in FlipSet(b, x, y, p)
      ensures 0 <= e < 64 && e != Idx(x, y) && b[e] == Stone(Opponent(p))
    {
      FlipsUpToCells(b, x, y, p, 8, e);
    }
    forall i, e | 0 <= i < 8 && Ahead(x, y, Directions[i], e) && e !in FlipsDir(b, x, y, Directions[i], p)
      ensures Place(b, x, y, p)[e] == b[e]
    {
      DirectionsAreUnits();
      OriginNotAhead(x, y, Directions[i]);
      if e in FlipSet(b, x, y, p) {
        FlipsUpToCells(b, x, y, p, 8, e);
      }
    }
  }

  /** Stone counts after a legal move: the mover gains the placed stone plus every
      flip, the opponent loses the flips, one empty cell is filled, so the number
      of stones on the board grows by exactly one. */
  lemma PlaceCounts(b: Grid, x: int, y: int, p: Player)
    requires InBounds(x, y) && ValidIn(b, x, y, p)
    ensures var a, f := Place(b, x, y, p), |FlipSet(b, x, y, p)|;
            && Count(a, Stone(p)) == Count(b, Stone(p)) + 1 + f
            && Count(a, Stone(Opponent(p))) == Count(b, Stone(Opponent(p))) - f
            && Count(a, Empty) == Count(b, Empty) - 1
            && Count(a, Stone(Black)) + Count(a, Stone(White))
               == Count(b, Stone(Black)) + Count(b, Stone(White)) + 1
  {
    var F := FlipSet(b, x, y, p);
    var o := Idx(x, y);
    forall e | e in F ensures 0 <= e < 64 && e != o && b[e] == Stone(Opponent(p)) {
      FlipsUpToCells(b, x, y, p, 8, e);
    }
    var mid := Paint(b, F, Stone(p));
    assert Place(b, x, y, p) == mid[o := Stone(p)];
    CountPaint(b, F, Stone(Opponent(p)), Stone(p), Stone(p));
    CountPaint(b, F, Stone(Opponent(p)), Stone(p), Stone(Opponent(p)));
    CountPaint(b, F, Stone(Opponent(p)), Stone(p), Empty);
    CountUpdate(mid, o, Stone(p), Stone(p));
    CountUpdate(mid, o, Stone(p), Stone(Opponent(p)));
    CountUpdate(mid, o, Stone(p), Empty);
    assert p == Black || p == White;
  }

  /** A full board is over: with no empty cell, neither player has a legal move. */
  lemma FullBoardIsOver(b: Grid, p: Player)
    requires Count(b, Empty) == 0
    ensures !HasMove(b, p)
  {
    CountZero(b, Empty);
  }
}
