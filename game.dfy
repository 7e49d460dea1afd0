/**
 * The `Game` object of Connect Four without its display: a fixed grid of
 * cells updated in place, the player whose turn it is, and a flag that is
 * set where the game ends and column selection is detached.
 */
module Connect4 {
  import opened Rules

  class Game {
    const height: nat
    const width: nat
    /** board[y, x] is the cell in row y (0 is the top) and column x. */
    const board: array2<Cell>
    var currPlayer: Player
    /** Set by EndGame; afterwards selecting a column has no effect. */
    var over: bool

    ghost predicate Valid()
    {
      board.Length0 == height && board.Length1 == width
    }

    /** The cells of the board, row by row. */
    ghost function Cells(): (g: Grid)
      reads board
      ensures |g| == board.Length0
      ensures forall y :: 0 <= y < |g| ==> |g[y]| == board.Length1
      ensures forall y, x :: 0 <= y < board.Length0 && 0 <= x < board.Length1 ==> g[y][x] == board[y, x]
    {
      seq(board.Length0, y requires 0 <= y < board.Length0 reads board =>
        seq(board.Length1, x requires 0 <= x < board.Length1 reads board => board[y, x]))
    }

    /** The game as a value of the rules. */
    ghost function State(): (s: GameState)
      reads this, board
      requires Valid()
      ensures s.Valid()
    {
      GameState(Cells(), height, width, currPlayer, over)
    }

    /** A new game on an empty board of the given size, player one to move. */
    constructor (height: nat := 6, width: nat := 7)
      ensures Valid() && fresh(board)
      ensures State() == Initial(height, width)
    {
      this.height := height;
      this.width := width;
      board := new Cell[height, width];
      currPlayer := P1;
      over := false;
      new;
      MakeBoard();
      SameBoard(State().board, Initial(height, width).board, height, width);
    }

    /** Empties every cell of the board. */
    method MakeBoard()
      requires Valid()
      modifies board
      ensures forall y, x :: 0 <= y < height && 0 <= x < width ==> board[y, x] == Empty
    {
      for y := 0 to height
        invariant forall i, j :: 0 <= i < y && 0 <= j < width ==> board[i, j] == Empty
      {
        for x := 0 to width
          invariant forall i, j :: 0 <= i < y && 0 <= j < width ==> board[i, j] == Empty
          invariant forall j :: 0 <= j < x ==> board[y, j] == Empty
        {
          board[y, x] := Empty;
        }
      }
    }

    /**
     * The row a piece dropped into column x lands in: the first empty cell
     * met scanning up from the bottom row, or None if the column is full.
     */
    method FindSpotForCol(x: nat) returns (spot: Option<nat>)
      requires Valid() && x < width
      ensures spot == DropRow(State().board, x, height)
      ensures spot.None? <==> forall y :: 0 <= y < height ==> board[y, x].Piece?
    {
      var y: int := height - 1;
      while y >= 0
        invariant -1 <= y < height
        invariant forall i :: y < i < height ==> board[i, x].Piece?
      {
        if board[y, x] == Empty {
          ghost var r := DropRow(State().board, x, height);
          ghost var cell := board[y, x];
          assert r.value < y ==> cell.Piece?;
          return Some(y);
        }
        y := y - 1;
      }
      return None;
    }

    /**
     * Whether every listed cell lies on the board and holds a piece of the
     * current player; a cell off the board is rejected before it is read.
     */
    function Win(cells: seq<(int, int)>): (r: bool)
      reads this, board
      requires Valid()
      ensures r <==> AllHold(State(), cells, currPlayer)
    {
      forall i | 0 <= i < |cells| ::
        var (y, x) := cells[i];
        0 <= y < height && 0 <= x < width && board[y, x] == Piece(currPlayer)
    }

    /**
     * Whether some cell, taken in row-major order, starts a line of four of
     * the current player's pieces in one of the four directions.
     */
    method CheckForWin() returns (won: bool)
      requires Valid()
      ensures won <==> FourInARow(State(), currPlayer)
    {
      for y := 0 to height
        invariant forall i, j :: 0 <= i < y && 0 <= j < width ==> !WinStartsAt(State(), i, j, currPlayer)
      {
        for x := 0 to width
          invariant forall i, j :: 0 <= i < y && 0 <= j < width ==> !WinStartsAt(State(), i, j, currPlayer)
          invariant forall j :: 0 <= j < x ==> !WinStartsAt(State(), y, j, currPlayer)
        {
          var horiz := [(y, x), (y, x + 1), (y, x + 2), (y, x + 3)];
          var vert := [(y, x), (y + 1, x), (y + 2, x), (y + 3, x)];
          var diagDR := [(y, x), (y + 1, x + 1), (y + 2, x + 2), (y + 3, x + 3)];
          var diagDL := [(y, x), (y + 1, x - 1), (y + 2, x - 2), (y + 3, x - 3)];
          assert horiz == Line(y, x, 0, 1) && vert == Line(y, x, 1, 0);
          assert diagDR == Line(y, x, 1, 1) && diagDL == Line(y, x, 1, -1);
          if Win(horiz) || Win(vert) || Win(diagDR) || Win(diagDL) {
            assert WinStartsAt(State(), y, x, currPlayer);
            return true;
          }
        }
      }
      return false;
    }

    /** Ends the game: column selection is detached from here on. */
    method EndGame()
      modifies this`over
      ensures over
    {
      over := true;
    }

    /**
     * Selecting column x: drop the current player's piece, then check for a
     * win, then for a tie, and only then pass the turn. Returns what is
     * announced when the game ends.
     */
    method HandleBoardClick(x: nat) returns (ending: Option<Ending>)
      requires Valid() && x < width
      modifies this, board
      ensures Valid()
      ensures (State(), ending) == Click(old(State()), x)
    {
      if over {
        return None;
      }
      var spot := FindSpotForCol(x);
      if spot.None? {
        return None;
      }
      var y := spot.value;
      ghost var before := State();
      board[y, x] := Piece(currPlayer);
      SameBoard(State().board, Place(before.board, y, x, currPlayer), height, width);
      ghost var placed := State();
      assert placed == before.(board := Place(before.board, y, x, currPlayer));

      var won := CheckForWin();
      if won {
        EndGame();
        assert State() == placed.(over := true);
        return Some(Won(currPlayer));
      }

      if forall i, j | 0 <= i < height && 0 <= j < width :: board[i, j].Piece? {
        EndGame();
        return Some(Tie);
      }

      currPlayer := if currPlayer == P1 then P2 else P1;
      ending := None;
    }
  }
}
