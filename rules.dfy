/**
 * The rules of Connect Four as values: the board, the drop rule, the
 * four-in-a-row test, the tie test and the transition taken when a column
 * is selected. The class `Connect4.Game` is proved against these
 * definitions; the lemmas at the end state what the rules promise.
 */
module Rules {

  datatype Option<T> = None | Some(value: T)

  /** The two players, told apart by identity only (their colours are display). */
  datatype Player = P1 | P2 {
    /** The player whose turn comes next. */
    function Other(): (q: Player)
      ensures q != this
    {
      if this == P1 then P2 else P1
    }
  }

  /** A board cell: empty, or holding a piece of one player. */
  datatype Cell = Empty | Piece(owner: Player)

  /** Rows of cells; row 0 is the top, pieces settle towards the last row. */
  type Grid = seq<seq<Cell>>

  /** How a finished game is announced. */
  datatype Ending = Won(winner: Player) | Tie

  /**
   * The state a game keeps: the board, its dimensions, whose turn it is,
   * and whether the game has ended (column selection is then detached).
   */
  datatype GameState = GameState(board: Grid, height: nat, width: nat, curr: Player, over: bool)
  {
    ghost predicate Valid() {
      |board| == height && forall y :: 0 <= y < height ==> |board[y]| == width
    }
  }

  /** The state right after construction. */
  function Initial(height: nat, width: nat): (s: GameState)
    ensures s.Valid() && s.height == height && s.width == width
    ensures s.curr == P1 && !s.over
    ensures forall y, x :: 0 <= y < height && 0 <= x < width ==> s.board[y][x] == Empty
  {
    GameState(seq(height, _ => seq(width, _ => Empty)), height, width, P1, false)
  }

  // ---------------------------------------------------------------------
  // The drop rule

  /**
   * Scans column x from row n-1 up to row 0 and yields the first empty row
   * met, or None when rows 0..n-1 of the column are all occupied.
   */
  function DropRow(g: Grid, x: nat, n: nat): (r: Option<nat>)
    requires n <= |g| && forall y :: 0 <= y < n ==> x < |g[y]|
    ensures r.None? <==> forall y :: 0 <= y < n ==> g[y][x].Piece?
    ensures r.Some? ==> r.value < n && g[r.value][x] == Empty
    ensures r.Some? ==> forall y :: r.value < y < n ==> g[y][x].Piece?
  {
    if n == 0 then None
    else if g[n - 1][x] == Empty then Some(n - 1)
    else DropRow(g, x, n - 1)
  }

  /** The board with a piece of p put into cell (y, x). */
  function Place(g: Grid, y: nat, x: nat, p: Player): (g': Grid)
    requires y < |g| && x < |g[y]|
  {
    g[y := g[y][x := Piece(p)]]
  }

  /** Placing a piece keeps the board's shape and changes exactly one cell. */
  lemma PlaceSetsOneCell(g: Grid, y: nat, x: nat, p: Player)
    requires y < |g| && x < |g[y]|
    ensures var g' := Place(g, y, x, p);
      |g'| == |g| && (forall i :: 0 <= i < |g| ==> |g'[i]| == |g[i]|) &&
      g'[y][x] == Piece(p) &&
      forall i, j :: 0 <= i < |g| && 0 <= j < |g[i]| && (i, j) != (y, x) ==> g'[i][j] == g[i][j]
  {
  }

  /** Two boards of the same shape that agree on every cell are equal. */
  lemma SameBoard(g: Grid, g': Grid, height: nat, width: nat)
    requires |g| == |g'| == height
    requires forall y :: 0 <= y < height ==> |g[y]| == |g'[y]| == width
    requires forall y, x :: 0 <= y < height && 0 <= x < width ==> g[y][x] == g'[y][x]
    ensures g == g'
  {
    forall y | 0 <= y < height ensures g[y] == g'[y] {
    }
  }

  /**
   * Gravity: in every column the occupied cells form one block that reaches
   * the bottom row.
   */
  ghost predicate Settled(s: GameState)
    requires s.Valid()
  {
    forall y, y', x :: 0 <= y <= y' < s.height && 0 <= x < s.width && s.board[y][x].Piece? ==>
      s.board[y'][x].Piece?
  }

  // ---------------------------------------------------------------------
  // Four in a row and a full board

  /** Cell c = (y, x) lies on the board and holds a piece of p. */
  predicate Holds(s: GameState, c: (int, int), p: Player)
    requires s.Valid()
  {
    0 <= c.0 < s.height && 0 <= c.1 < s.width && s.board[c.0][c.1] == Piece(p)
  }

  /** Every cell of the list holds a piece of p. */
  predicate AllHold(s: GameState, cells: seq<(int, int)>, p: Player)
    requires s.Valid()
  {
    forall i :: 0 <= i < |cells| ==> Holds(s, cells[i], p)
  }

  /** The four cells from (y, x) going dy rows and dx columns per step. */
  function Line(y: int, x: int, dy: int, dx: int): (cells: seq<(int, int)>)
    ensures |cells| == 4 && cells[0] == (y, x)
    ensures forall i :: 0 < i < 4 ==> cells[i] == (cells[i - 1].0 + dy, cells[i - 1].1 + dx)
  {
    [(y, x), (y + dy, x + dx), (y + 2 * dy, x + 2 * dx), (y + 3 * dy, x + 3 * dx)]
  }

  /** The steps (rows, columns) of the four directions: horiz, vert, diagDR, diagDL. */
  const Directions: seq<(int, int)> := [(0, 1), (1, 0), (1, 1), (1, -1)]

  /**
   * A line of four of p's pieces starts at (y, x): rightwards, downwards,
   * down-right or down-left.
   */
  predicate WinStartsAt(s: GameState, y: int, x: int, p: Player)
    requires s.Valid()
  {
    AllHold(s, Line(y, x, 0, 1), p) || AllHold(s, Line(y, x, 1, 0), p) ||
    AllHold(s, Line(y, x, 1, 1), p) || AllHold(s, Line(y, x, 1, -1), p)
  }

  /** Some cell of the board starts a line of four of p's pieces. */
  ghost predicate FourInARow(s: GameState, p: Player)
    requires s.Valid()
  {
    exists y, x :: 0 <= y < s.height && 0 <= x < s.width && WinStartsAt(s, y, x, p)
  }

  /** Every cell of the board is occupied. */
  ghost predicate Full(s: GameState)
    requires s.Valid()
  {
    forall y, x :: 0 <= y < s.height && 0 <= x < s.width ==> s.board[y][x].Piece?
  }

  /**
   * A line of four starts at (y, x) exactly when, for one of the four
   * directions, the four cells stepping from (y, x) all lie on the board and
   * hold p; the start cell itself then holds p.
   */
  lemma WinDirections(s: GameState, y: int, x: int, p: Player)
    requires s.Valid()
    ensures WinStartsAt(s, y, x, p) <==>
      exists k :: 0 <= k < |Directions| && AllHold(s, Line(y, x, Directions[k].0, Directions[k].1), p)
    ensures WinStartsAt(s, y, x, p) ==> Holds(s, (y, x), p)
  {
    if WinStartsAt(s, y, x, p) {
      var k := if AllHold(s, Line(y, x, 0, 1), p) then 0
        else if AllHold(s, Line(y, x, 1, 0), p) then 1
        else if AllHold(s, Line(y, x, 1, 1), p) then 2
        else 3;
      assert AllHold(s, Line(y, x, Directions[k].0, Directions[k].1), p);
      assert Holds(s, Line(y, x, Directions[k].0, Directions[k].1)[0], p);
    }
  }

  /**
   * Four in a row for p: some start cell on the board and some direction in
   * (0,1), (1,0), (1,1), (1,-1) give four cells that all lie on the board
   * and all hold p.
   */
  lemma FourInARowMeans(s: GameState, p: Player)
    requires s.Valid()
    ensures FourInARow(s, p) <==>
      exists y, x, k {:trigger AllHold(s, Line(y, x, Directions[k].0, Directions[k].1), p)} ::
        0 <= y < s.height && 0 <= x < s.width && 0 <= k < |Directions| &&
        AllHold(s, Line(y, x, Directions[k].0, Directions[k].1), p)
  {
    if FourInARow(s, p) {
      var y, x :| 0 <= y < s.height && 0 <= x < s.width && WinStartsAt(s, y, x, p);
      WinDirections(s, y, x, p);
    }
    if exists y, x, k {:trigger AllHold(s, Line(y, x, Directions[k].0, Directions[k].1), p)} ::
        0 <= y < s.height && 0 <= x < s.width && 0 <= k < |Directions| &&
        AllHold(s, Line(y, x, Directions[k].0, Directions[k].1), p) {
      var y, x, k :| 0 <= y < s.height && 0 <= x < s.width && 0 <= k < |Directions| &&
        AllHold(s, Line(y, x, Directions[k].0, Directions[k].1), p);
      WinDirections(s, y, x, p);
      assert WinStartsAt(s, y, x, p);
    }
  }

  /**
   * The four cells from (y, x), stepping dy rows and dx columns at a time,
   * all hold p; stated cell by cell, independently of `Line`.
   */
  predicate RunFrom(s: GameState, y: int, x: int, dy: int, dx: int, p: Player)
    requires s.Valid()
  {
    Holds(s, (y, x), p) && Holds(s, (y + dy, x + dx), p) &&
    Holds(s, (y + 2 * dy, x + 2 * dx), p) && Holds(s, (y + 3 * dy, x + 3 * dx), p)
  }

  /**
   * Four in a row as a player sees it: four of p's pieces in a straight line
   * in any of the eight compass directions.
   */
  ghost predicate RunOfFour(s: GameState, p: Player)
    requires s.Valid()
  {
    exists y, x, dy, dx :: -1 <= dy <= 1 && -1 <= dx <= 1 && (dy, dx) != (0, 0) &&
      RunFrom(s, y, x, dy, dx, p)
  }

  /** A run pointing right, down, down-right or down-left is found by the scan. */
  lemma ForwardRunIsScanned(s: GameState, y: int, x: int, dy: int, dx: int, p: Player)
    requires s.Valid() && 0 <= dy <= 1 && -1 <= dx <= 1 && (dy == 0 ==> dx == 1)
    requires RunFrom(s, y, x, dy, dx, p)
    ensures FourInARow(s, p)
  {
    var line := Line(y, x, dy, dx);
    assert AllHold(s, line, p) by {
      assert line[1] == (y + dy, x + dx);
    }
    if dy == 0 {
      assert AllHold(s, Line(y, x, 0, 1), p);
    } else if dx == 0 {
      assert AllHold(s, Line(y, x, 1, 0), p);
    } else if dx == 1 {
      assert AllHold(s, Line(y, x, 1, 1), p);
    } else {
      assert AllHold(s, Line(y, x, 1, -1), p);
    }
    assert WinStartsAt(s, y, x, p);
  }

  /** A run in one of the eight directions is found by the four-direction scan. */
  lemma RunIsScanned(s: GameState, y: int, x: int, dy: int, dx: int, p: Player)
    requires s.Valid() && -1 <= dy <= 1 && -1 <= dx <= 1 && (dy, dx) != (0, 0)
    requires RunFrom(s, y, x, dy, dx, p)
    ensures FourInARow(s, p)
  {
    if dy < 0 || (dy == 0 && dx < 0) {
      // Read from its far end, the run points down or right.
      assert RunFrom(s, y + 3 * dy, x + 3 * dx, -dy, -dx, p);
      ForwardRunIsScanned(s, y + 3 * dy, x + 3 * dx, -dy, -dx, p);
    } else {
      ForwardRunIsScanned(s, y, x, dy, dx, p);
    }
  }

  /**
   * Scanning only rightwards, downwards, down-right and down-left from every
   * cell finds four in a row exactly when there are four of p's pieces in a
   * line in any of the eight directions: the other four directions are the
   * same lines read from their far end.
   */
  lemma FourDirectionsSuffice(s: GameState, p: Player)
    requires s.Valid()
    ensures FourInARow(s, p) <==> RunOfFour(s, p)
  {
    if FourInARow(s, p) {
      var a, b :| 0 <= a < s.height && 0 <= b < s.width && WinStartsAt(s, a, b, p);
      WinDirections(s, a, b, p);
      var k :| 0 <= k < |Directions| && AllHold(s, Line(a, b, Directions[k].0, Directions[k].1), p);
      var (dy, dx) := Directions[k];
      var line := Line(a, b, dy, dx);
      assert Holds(s, line[0], p) && Holds(s, line[1], p) && Holds(s, line[2], p) && Holds(s, line[3], p);
      assert RunFrom(s, a, b, dy, dx, p);
    }
    if RunOfFour(s, p) {
      var y, x, dy, dx :| -1 <= dy <= 1 && -1 <= dx <= 1 && (dy, dx) != (0, 0) &&
        RunFrom(s, y, x, dy, dx, p);
      RunIsScanned(s, y, x, dy, dx, p);
    }
  }

  /** The board is full exactly when no column has room for another piece. */
  lemma FullMeansNoRoom(s: GameState)
    requires s.Valid()
    ensures Full(s) <==> forall x :: 0 <= x < s.width ==> DropRow(s.board, x, s.height).None?
  {
    if !Full(s) {
      var y, x :| 0 <= y < s.height && 0 <= x < s.width && s.board[y][x] == Empty;
      assert DropRow(s.board, x, s.height).Some?;
    }
  }

  /** Whether p has a line of four depends only on the board. */
  lemma LinesDependOnBoard(s: GameState, t: GameState, p: Player)
    requires s.Valid() && t.Valid()
    requires s.board == t.board && s.height == t.height && s.width == t.width
    ensures FourInARow(s, p) == FourInARow(t, p)
  {
    if FourInARow(s, p) {
      var a, b :| 0 <= a < s.height && 0 <= b < s.width && WinStartsAt(s, a, b, p);
      assert WinStartsAt(t, a, b, p);
    }
    if FourInARow(t, p) {
      var a, b :| 0 <= a < t.height && 0 <= b < t.width && WinStartsAt(t, a, b, p);
      assert WinStartsAt(s, a, b, p);
    }
  }

  // ---------------------------------------------------------------------
  // Selecting a column

  /**
   * The new state and the announcement (if any) after column x is selected
   * in state s: nothing happens once the game is over or when the column is
   * full; otherwise the mover's piece drops, then a win is checked, then a
   * tie, and only then does the turn pass to the other player.
   */
  ghost function Click(s: GameState, x: nat): (result: (GameState, Option<Ending>))
    requires s.Valid() && x < s.width
    ensures result.0.Valid() && result.0.height == s.height && result.0.width == s.width
  {
    if s.over then (s, None)
    else
      match DropRow(s.board, x, s.height)
      case None => (s, None)
      case Some(y) =>
        var t := s.(board := Place(s.board, y, x, s.curr));
        if FourInARow(t, t.curr) then (t.(over := true), Some(Won(t.curr)))
        else if Full(t) then (t.(over := true), Some(Tie))
        else (t.(curr := t.curr.Other()), None)
  }

  /** Every entry of xs names a column of a board w columns wide. */
  predicate Columns(xs: seq<int>, w: nat)
  {
    forall i :: 0 <= i < |xs| ==> 0 <= xs[i] < w
  }

  /** The state after the columns xs are selected one after another. */
  ghost function Run(s: GameState, xs: seq<int>): (t: GameState)
    requires s.Valid() && Columns(xs, s.width)
    ensures t.Valid() && t.height == s.height && t.width == s.width
    decreases |xs|
  {
    if xs == [] then s else Run(Click(s, xs[0]).0, xs[1..])
  }

  // ---------------------------------------------------------------------
  // What the rules promise

  /** Selecting a full column changes nothing and announces nothing. */
  lemma FullColumnIgnored(s: GameState, x: nat)
    requires s.Valid() && x < s.width
    requires forall y :: 0 <= y < s.height ==> s.board[y][x].Piece?
    ensures Click(s, x) == (s, None)
  {
  }

  /**
   * A move in a running game whose column has room puts the mover's piece
   * in the lowest empty cell of that column and changes no other cell.
   */
  lemma MovePlacesOnePiece(s: GameState, x: nat)
    requires s.Valid() && x < s.width && !s.over
    requires exists y :: 0 <= y < s.height && s.board[y][x] == Empty
    ensures var t := Click(s, x).0;
      exists y :: 0 <= y < s.height && s.board[y][x] == Empty &&
        (forall y' :: y < y' < s.height ==> s.board[y'][x].Piece?) &&
        t.board[y][x] == Piece(s.curr) &&
        forall i, j :: 0 <= i < s.height && 0 <= j < s.width && (i, j) != (y, x) ==>
          t.board[i][j] == s.board[i][j]
  {
    var e :| 0 <= e < s.height && s.board[e][x] == Empty;
    var r := DropRow(s.board, x, s.height);
    assert r.Some?;
    var y := r.value;
    var g := Place(s.board, y, x, s.curr);
    PlaceSetsOneCell(s.board, y, x, s.curr);
    assert Click(s, x).0.board == g;
    assert g[y][x] == Piece(s.curr);
    assert forall i, j :: 0 <= i < s.height && 0 <= j < s.width && (i, j) != (y, x) ==> g[i][j] == s.board[i][j];
  }

  /** A piece once placed stays where it is for the rest of the game. */
  lemma PiecesArePermanent(s: GameState, x: nat)
    requires s.Valid() && x < s.width
    ensures var t := Click(s, x).0;
      forall i, j :: 0 <= i < s.height && 0 <= j < s.width && s.board[i][j].Piece? ==>
        t.board[i][j] == s.board[i][j]
  {
  }

  /** A move keeps every column settled. */
  lemma MovePreservesGravity(s: GameState, x: nat)
    requires s.Valid() && x < s.width && Settled(s)
    ensures Settled(Click(s, x).0)
  {
    var r := DropRow(s.board, x, s.height);
    if !s.over && r.Some? {
      var y := r.value;
      var t := s.(board := Place(s.board, y, x, s.curr));
      // Above the landing row the column is still empty.
      assert forall a :: 0 <= a < y ==> s.board[a][x] == Empty by {
        forall a | 0 <= a < y ensures s.board[a][x] == Empty {
          var above, landing := s.board[a][x], s.board[y][x];
          assert above.Piece? ==> landing.Piece?;
        }
      }
      assert Settled(t);
      assert Click(s, x).0.board == t.board;
    }
  }

  /**
   * After a piece lands at row y of a settled column, the next piece in that
   * column lands one row higher, at y - 1; after row 0 the column is full.
   */
  lemma NextDropIsAbove(s: GameState, x: nat)
    requires s.Valid() && x < s.width && Settled(s)
    requires DropRow(s.board, x, s.height).Some?
    ensures var y := DropRow(s.board, x, s.height).value;
      DropRow(Place(s.board, y, x, s.curr), x, s.height) == if y == 0 then None else Some(y - 1)
  {
    var y := DropRow(s.board, x, s.height).value;
    var g := Place(s.board, y, x, s.curr);
    var r := DropRow(g, x, s.height);
    if y == 0 {
      assert g[0][x].Piece?;
    } else {
      var above, landing := s.board[y - 1][x], s.board[y][x];
      assert above.Piece? ==> landing.Piece?;
      var next := g[y - 1][x];
      assert next == Empty;
      assert r.Some?;
      assert r.value < y - 1 ==> next.Piece?;
    }
  }

  /**
   * The outcome of a move, in the order it is decided: a line of four ends
   * the game with the mover as winner and the turn not passed; otherwise a
   * full board ends it as a tie; otherwise the turn passes to the other
   * player exactly once and the game goes on.
   */
  lemma MoveOutcome(s: GameState, x: nat)
    requires s.Valid() && x < s.width && !s.over
    requires DropRow(s.board, x, s.height).Some?
    ensures var (t, ending) := Click(s, x);
      if FourInARow(t, s.curr) then t.over && t.curr == s.curr && ending == Some(Won(s.curr))
      else if Full(t) then t.over && t.curr == s.curr && ending == Some(Tie)
      else !t.over && t.curr == s.curr.Other() && t.curr != s.curr && ending == None
  {
    var y := DropRow(s.board, x, s.height).value;
    var t := s.(board := Place(s.board, y, x, s.curr));
    LinesDependOnBoard(t, Click(s, x).0, s.curr);
  }

  /** Once the game is over, any number of further selections changes nothing. */
  lemma {:induction false} EndedGameIgnoresClicks(s: GameState, xs: seq<int>)
    requires s.Valid() && Columns(xs, s.width) && s.over
    ensures Run(s, xs) == s
    decreases |xs|
  {
    if xs != [] {
      assert Click(s, xs[0]).0 == s;
      EndedGameIgnoresClicks(s, xs[1..]);
    }
  }

  /** Every state reached from a settled state by selections is settled. */
  lemma {:induction false} RunPreservesGravity(s: GameState, xs: seq<int>)
    requires s.Valid() && Columns(xs, s.width) && Settled(s)
    ensures Settled(Run(s, xs))
    decreases |xs|
  {
    if xs != [] {
      MovePreservesGravity(s, xs[0]);
      RunPreservesGravity(Click(s, xs[0]).0, xs[1..]);
    }
  }

  /** Every state reachable in a game is settled. */
  lemma ReachableIsSettled(height: nat, width: nat, xs: seq<int>)
    requires Columns(xs, width)
    ensures Settled(Run(Initial(height, width), xs))
  {
    RunPreservesGravity(Initial(height, width), xs);
  }

  /**
   * The win test asks only about the mover: a move never creates a line of
   * four for the player who did not move, so a line of the opponent's after
   * the move was already there before it.
   */
  lemma OpponentGainsNoLine(s: GameState, x: nat)
    requires s.Valid() && x < s.width
    requires FourInARow(Click(s, x).0, s.curr.Other())
    ensures FourInARow(s, s.curr.Other())
  {
    var t := Click(s, x).0;
    var q := s.curr.Other();
    var a, b :| 0 <= a < t.height && 0 <= b < t.width && WinStartsAt(t, a, b, q);
    forall c | Holds(t, c, q) ensures Holds(s, c, q) {
    }
    assert WinStartsAt(s, a, b, q) by {
      if AllHold(t, Line(a, b, 0, 1), q) {
        assert AllHold(s, Line(a, b, 0, 1), q);
      } else if AllHold(t, Line(a, b, 1, 0), q) {
        assert AllHold(s, Line(a, b, 1, 0), q);
      } else if AllHold(t, Line(a, b, 1, 1), q) {
        assert AllHold(s, Line(a, b, 1, 1), q);
      } else {
        assert AllHold(s, Line(a, b, 1, -1), q);
      }
    }
  }

  /**
   * A win detected after a move in a game without a line of the mover's
   * runs through the piece just placed: some winning line of four, in one
   * direction, contains the new piece.
   */
  lemma NewLineUsesNewPiece(s: GameState, x: nat)
    requires s.Valid() && x < s.width && !s.over
    requires DropRow(s.board, x, s.height).Some?
    requires !FourInARow(s, s.curr)
    requires FourInARow(s.(board := Place(s.board, DropRow(s.board, x, s.height).value, x, s.curr)), s.curr)
    ensures var y := DropRow(s.board, x, s.height).value;
      var t := s.(board := Place(s.board, y, x, s.curr));
      exists a, b, k {:trigger Line(a, b, Directions[k].0, Directions[k].1)} ::
        0 <= a < s.height && 0 <= b < s.width && 0 <= k < |Directions| &&
        AllHold(t, Line(a, b, Directions[k].0, Directions[k].1), s.curr) &&
        (y, x) in Line(a, b, Directions[k].0, Directions[k].1)
  {
    var y := DropRow(s.board, x, s.height).value;
    var t := s.(board := Place(s.board, y, x, s.curr));
    var p := s.curr;
    var a, b :| 0 <= a < t.height && 0 <= b < t.width && WinStartsAt(t, a, b, p);
    assert !WinStartsAt(s, a, b, p);
    // A line that misses (y, x) reads the same cells in s and in t.
    forall cells: seq<(int, int)> | (y, x) !in cells && AllHold(t, cells, p)
      ensures AllHold(s, cells, p)
    {
      forall i | 0 <= i < |cells| ensures Holds(s, cells[i], p) {
        assert Holds(t, cells[i], p);
        assert cells[i] != (y, x);
      }
    }
    // The winning direction in t: its line must run through (y, x).
    var k := if AllHold(t, Line(a, b, 0, 1), p) then 0
      else if AllHold(t, Line(a, b, 1, 0), p) then 1
      else if AllHold(t, Line(a, b, 1, 1), p) then 2
      else 3;
    var line := Line(a, b, Directions[k].0, Directions[k].1);
    assert AllHold(t, line, p);
    assert (y, x) in line;
  }

  /**
   * On the default 6 by 7 board, with player one's pieces at (5, 0), (5, 1)
   * and (5, 2) and player one to move, selecting column 3 wins for player one.
   */
  lemma HorizontalWinExample()
    ensures var s := GameState(seq(6, y => seq(7, x => if y == 5 && x < 3 then Piece(P1) else Empty)), 6, 7, P1, false);
      var (t, ending) := Click(s, 3);
      t.over && t.board[5][3] == Piece(P1) && ending == Some(Won(P1))
  {
    var s := GameState(seq(6, y => seq(7, x => if y == 5 && x < 3 then Piece(P1) else Empty)), 6, 7, P1, false);
    assert DropRow(s.board, 3, 6) == Some(5);
    var t := s.(board := Place(s.board, 5, 3, P1));
    assert AllHold(t, Line(5, 0, 0, 1), P1);
    assert WinStartsAt(t, 5, 0, P1);
  }

  /**
   * On the default 6 by 7 board, with player one's pieces in rows 3 to 5 of
   * column 0 and player one to move, selecting column 0 wins for player one.
   */
  lemma VerticalWinExample()
    ensures var s := GameState(seq(6, y => seq(7, x => if x == 0 && y >= 3 then Piece(P1) else Empty)), 6, 7, P1, false);
      var (t, ending) := Click(s, 0);
      t.over && t.board[2][0] == Piece(P1) && ending == Some(Won(P1))
  {
    var s := GameState(seq(6, y => seq(7, x => if x == 0 && y >= 3 then Piece(P1) else Empty)), 6, 7, P1, false);
    assert s.board[2][0] == Empty;
    assert DropRow(s.board, 0, 6) == Some(2);
    var t := s.(board := Place(s.board, 2, 0, P1));
    assert AllHold(t, Line(2, 0, 1, 0), P1);
    assert WinStartsAt(t, 2, 0, P1);
  }

  /** Once the game is over, a selection changes nothing and announces nothing. */
  lemma ClickAfterEnd(s: GameState, x: nat)
    requires s.Valid() && x < s.width && s.over
    ensures Click(s, x) == (s, None)
  {
  }

  /** A piece once placed stays where it is for the rest of the game. */
  lemma {:induction false} RunKeepsPieces(s: GameState, xs: seq<int>)
    requires s.Valid() && Columns(xs, s.width)
    ensures var t := Run(s, xs);
      forall i, j :: 0 <= i < s.height && 0 <= j < s.width && s.board[i][j].Piece? ==>
        t.board[i][j] == s.board[i][j]
    decreases |xs|
  {
    if xs != [] {
      PiecesArePermanent(s, xs[0]);
      RunKeepsPieces(Click(s, xs[0]).0, xs[1..]);
    }
  }

  /** Either the game is over or neither player has four in a row. */
  ghost predicate NoLineUnlessOver(s: GameState)
    requires s.Valid()
  {
    s.over || (!FourInARow(s, P1) && !FourInARow(s, P2))
  }

  /** A selection keeps NoLineUnlessOver. */
  lemma ClickKeepsNoLineUnlessOver(s: GameState, x: nat)
    requires s.Valid() && x < s.width && NoLineUnlessOver(s)
    ensures NoLineUnlessOver(Click(s, x).0)
  {
    var t := Click(s, x).0;
    if !s.over && DropRow(s.board, x, s.height).Some? && !t.over {
      MoveOutcome(s, x);
      assert !FourInARow(t, s.curr);
      if FourInARow(t, s.curr.Other()) {
        OpponentGainsNoLine(s, x);
      }
      assert s.curr == P1 || s.curr == P2;
    }
  }

  /** NoLineUnlessOver holds after any sequence of selections. */
  lemma {:induction false} RunKeepsNoLineUnlessOver(s: GameState, xs: seq<int>)
    requires s.Valid() && Columns(xs, s.width) && NoLineUnlessOver(s)
    ensures NoLineUnlessOver(Run(s, xs))
    decreases |xs|
  {
    if xs != [] {
      ClickKeepsNoLineUnlessOver(s, xs[0]);
      RunKeepsNoLineUnlessOver(Click(s, xs[0]).0, xs[1..]);
    }
  }

  /**
   * In every game reached from a new one, a line of four of either player
   * means the game is over: checking only the mover after each move never
   * misses a win.
   */
  lemma ReachableLineEndsGame(height: nat, width: nat, xs: seq<int>)
    requires Columns(xs, width)
    ensures var t := Run(Initial(height, width), xs);
      t.over || (!FourInARow(t, P1) && !FourInARow(t, P2))
  {
    var s := Initial(height, width);
    if FourInARow(s, P1) {
      var a, b :| 0 <= a < height && 0 <= b < width && WinStartsAt(s, a, b, P1);
      WinDirections(s, a, b, P1);
    }
    if FourInARow(s, P2) {
      var a, b :| 0 <= a < height && 0 <= b < width && WinStartsAt(s, a, b, P2);
      WinDirections(s, a, b, P2);
    }
    RunKeepsNoLineUnlessOver(s, xs);
  }
}
