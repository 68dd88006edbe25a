/** The game engine of the `App` component: the four state values as fields, and the two
    handlers as methods that update them, each one atomic transition. */
module Engine {
  import opened Board
  import opened Game

  class TicTacToe {
    var board: array<Cell>
    var isXNext: bool
    var winner: Outcome
    var moveCount: int

    /** The four values as a snapshot. */
    ghost function Snapshot(): State
      reads this, board
    {
      State(board[..], isXNext, winner, moveCount)
    }

    /** The engine holds a 9-cell board, and its state is one a game can reach. */
    ghost predicate Valid()
      reads this, board
    {
      board.Length == 9 && Reachable(Snapshot())
    }

    /** The initial `useState` values: an empty board, X to move, no winner, no moves. */
    constructor ()
      ensures Valid() && fresh(board)
      ensures Snapshot() == Initial()
    {
      board := new Cell[9](_ => Empty);
      isXNext := true;
      winner := Pending;
      moveCount := 0;
      new;
      assert board[..] == Initial().board;
      InitialReachable();
    }

    /** `handleCellClick(idx)`: a click on an occupied cell or after the game is decided changes
        nothing; otherwise a copy of the board with the current symbol at idx replaces the board,
        the move is counted, and a winner, a draw or the other player's turn is recorded. */
    method HandleCellClick(idx: Index)
      requires Valid()
      modifies this
      ensures Valid()
      ensures Snapshot() == Click(old(Snapshot()), idx)
      ensures board != old(board) ==> fresh(board)
    {
      if board[idx] != Empty || winner != Pending {
        return;
      }
      ghost var before := Snapshot();
      var cells := board;
      var nextBoard := new Cell[9](i requires 0 <= i < cells.Length reads cells => cells[i]);
      nextBoard[idx] := if isXNext then Filled(X) else Filled(O);
      var nextMoveCount := moveCount + 1;
      assert nextBoard[..] == before.board[idx := Filled(Current(before))];
      board := nextBoard;
      moveCount := nextMoveCount;

      var result := CalculateWinner(nextBoard);
      if result.Some? {
        winner := Won(result.value);
      } else if nextMoveCount == 9 {
        winner := Draw;
      } else {
        isXNext := !isXNext;
      }
      ClickPreservesReachable(before, idx);
    }

    /** `handleRestart`: a fresh empty board replaces the board and the other values go back to
        their initial values. */
    method HandleRestart()
      requires Valid()
      modifies this
      ensures Valid() && fresh(board)
      ensures Snapshot() == Restart(old(Snapshot()))
    {
      board := new Cell[9](_ => Empty);
      isXNext := true;
      winner := Pending;
      moveCount := 0;
      assert board[..] == Initial().board;
      InitialReachable();
    }
  }

  /** Restart in the middle of a game: after three clicks the engine is back at the fresh game. */
  method RestartMidGame()
  {
    var game := new TicTacToe();
    game.HandleCellClick(4);
    game.HandleCellClick(0);
    game.HandleCellClick(8);
    game.HandleRestart();
    assert game.Snapshot() == Initial();
    assert game.moveCount == 0 && game.isXNext && game.winner == Pending;
  }
}
