/** The game state as a value, the two user intents as transitions on it, and the two
    projections the view derives from it (status label, per-cell disabled flag). */
module Game {
  import opened Board

  /** The `winner` state value: null (game on), 'X' or 'O', or 'draw'. */
  datatype Outcome = Pending | Won(player: Player) | Draw

  /** A snapshot of the four state values board, isXNext, winner and moveCount. */
  datatype State = State(board: seq<Cell>, isXNext: bool, winner: Outcome, moveCount: int)

  /** The status label, without its text: a draw, a winner, or whose turn it is. */
  datatype Status = DrawLabel | WinnerLabel(player: Player) | TurnLabel(player: Player)

  /** The state of a fresh game. */
  function Initial(): State
  {
    State(seq(9, _ => Empty), true, Pending, 0)
  }

  /** The symbol the next accepted click places. */
  function Current(s: State): Player
  {
    if s.isXNext then X else O
  }

  function Other(p: Player): Player
  {
    if p == X then O else X
  }

  /** The click guard: an occupied cell or a decided game (a winner or a draw) ignores the click. */
  predicate Ignored(s: State, idx: Index)
    requires |s.board| == 9
  {
    s.board[idx] != Empty || s.winner != Pending
  }

  /** `handleCellClick(idx)` as one transition. An accepted click places the current symbol,
      counts the move and then records a winner, records a draw on the 9th move, or hands the
      turn to the other player. */
  function Click(s: State, idx: Index): (r: State)
    requires |s.board| == 9
    ensures |r.board| == 9
    ensures Ignored(s, idx) ==> r == s
    ensures !Ignored(s, idx) ==> r.board == s.board[idx := Filled(Current(s))]
    ensures !Ignored(s, idx) ==> r.moveCount == s.moveCount + 1
  {
    if Ignored(s, idx) then s
    else
      var next := s.board[idx := Filled(Current(s))];
      var count := s.moveCount + 1;
      match WinnerOf(next)
      case Some(p) => State(next, s.isXNext, Won(p), count)
      case None =>
        if count == 9 then State(next, s.isXNext, Draw, count)
        else State(next, !s.isXNext, Pending, count)
  }

  /** `handleRestart` as one transition: every value goes back to its initial value. */
  function Restart(s: State): State
  {
    Initial()
  }

  /** The status label derived from `winner` and `isXNext`. */
  function StatusOf(s: State): (r: Status)
    ensures r == DrawLabel <==> s.winner == Draw
    ensures forall p :: r == WinnerLabel(p) <==> s.winner == Won(p)
    ensures forall p :: r == TurnLabel(p) <==> s.winner == Pending && p == Current(s)
  {
    match s.winner
    case Draw => DrawLabel
    case Won(p) => WinnerLabel(p)
    case Pending => TurnLabel(if s.isXNext then X else O)
  }

  /** The per-cell `disabled` flag of the grid: the cell is occupied or the game is decided.
      A cell is disabled exactly when a click on it leaves the whole state unchanged. */
  predicate Disabled(s: State, idx: Index)
    requires |s.board| == 9
    ensures Disabled(s, idx) <==> Click(s, idx) == s
  {
    s.board[idx].Filled? || !s.winner.Pending?
  }

  /** How many more X marks than O marks the board holds: while the game is on, one exactly when
      it is O's turn; once decided, one exactly when X made the last move (the turn did not change). */
  function XLead(s: State): int
  {
    if s.winner == Pending then (if s.isXNext then 0 else 1)
    else (if s.isXNext then 1 else 0)
  }

  /** What holds of every state reachable from a fresh game by clicks. */
  predicate Reachable(s: State)
  {
    |s.board| == 9
    && 0 <= s.moveCount <= 9
    && s.moveCount == Occupied(s.board)
    && Marks(s.board, X) == Marks(s.board, O) + XLead(s)
    && (s.winner == Pending ==> WinnerOf(s.board) == None && s.moveCount < 9)
    && (s.winner.Won? ==> WinnerOf(s.board) == Some(s.winner.player) && s.winner.player == Current(s))
    && (s.winner == Draw ==> WinnerOf(s.board) == None && s.moveCount == 9)
  }

  lemma {:induction false} EmptyBoardMarks(n: nat, p: Player)
    ensures Marks(seq(n, _ => Empty), p) == 0
  {
    if n > 0 {
      assert seq(n, _ => Empty)[1..] == seq(n - 1, _ => Empty);
      EmptyBoardMarks(n - 1, p);
    }
  }

  lemma InitialReachable()
    ensures Reachable(Initial())
  {
    EmptyBoardMarks(9, X);
    EmptyBoardMarks(9, O);
    var b := Initial().board;
    WinnerOfSpec(b);
  }

  /** If the board had no winner before a cell was filled with p and has one after, the new
      winner is p: the completed line must run through the filled cell. */
  lemma NewWinnerIsMover(b: seq<Cell>, idx: Index, p: Player)
    requires |b| == 9 && b[idx] == Empty && WinnerOf(b) == None
    requires WinnerOf(b[idx := Filled(p)]).Some?
    ensures WinnerOf(b[idx := Filled(p)]) == Some(p)
  {
    var next := b[idx := Filled(p)];
    var w := WinnerOf(next).value;
    WinnerOfSpec(next);
    WinnerOfSpec(b);
    var k :| 0 <= k < |Lines| && LineOf(next, k, w) && forall j :: 0 <= j < k ==> !LineComplete(next, j);
    var (x, y, z) := Lines[k];
    if idx != x && idx != y && idx != z {
      assert LineComplete(b, k);
      assert false;
    }
  }

  /** Every click keeps a reachable state reachable. */
  lemma ClickPreservesReachable(s: State, idx: Index)
    requires Reachable(s)
    ensures Reachable(Click(s, idx))
  {
    if !Ignored(s, idx) {
      var p := Current(s);
      MarksAfterFill(s.board, idx, p, X);
      MarksAfterFill(s.board, idx, p, O);
      var next := s.board[idx := Filled(p)];
      if WinnerOf(next).Some? {
        NewWinnerIsMover(s.board, idx, p);
      }
    }
  }

  /** The state reached from a fresh game by clicking the given cells in order. */
  function Play(clicks: seq<Index>): (r: State)
    ensures |r.board| == 9
    decreases |clicks|
  {
    if clicks == [] then Initial()
    else Click(Play(clicks[..|clicks| - 1]), clicks[|clicks| - 1])
  }

  /** Every state reached by clicks from a fresh game is reachable; in particular the move count
      equals the number of occupied cells and never exceeds 9. */
  lemma {:induction false} PlayReachable(clicks: seq<Index>)
    ensures Reachable(Play(clicks))
    ensures Play(clicks).moveCount == Occupied(Play(clicks).board) <= 9
    decreases |clicks|
  {
    if clicks == [] {
      InitialReachable();
    } else {
      PlayReachable(clicks[..|clicks| - 1]);
      ClickPreservesReachable(Play(clicks[..|clicks| - 1]), clicks[|clicks| - 1]);
    }
  }

  /** Turns alternate: in a game still on, X is to move exactly when both players have placed the
      same number of marks (an even number of moves so far), and O exactly when X has placed one
      more (an odd number). */
  lemma TurnFollowsMarks(s: State)
    requires Reachable(s) && s.winner == Pending
    ensures Current(s) == X <==> Marks(s.board, X) == Marks(s.board, O)
    ensures Current(s) == O <==> Marks(s.board, X) == Marks(s.board, O) + 1
    ensures Current(s) == X <==> s.moveCount % 2 == 0
  {
  }

  /** An accepted click that leaves the game on hands the turn to the other player; one that
      decides the game keeps it, so after a win the turn names the winner. */
  lemma ClickTurn(s: State, idx: Index)
    requires Reachable(s) && !Ignored(s, idx)
    ensures Click(s, idx).winner == Pending ==> Current(Click(s, idx)) == Other(Current(s))
    ensures Click(s, idx).winner != Pending ==> Current(Click(s, idx)) == Current(s)
    ensures Click(s, idx).winner.Won? ==> Click(s, idx).winner.player == Current(s)
  {
    ClickPreservesReachable(s, idx);
  }

  lemma PlayAppend(clicks: seq<Index>, more: seq<Index>)
    requires more != []
    ensures Play(clicks + more) == Click(Play(clicks + more[..|more| - 1]), more[|more| - 1])
  {
    assert (clicks + more)[..|clicks + more| - 1] == clicks + more[..|more| - 1];
  }

  /** Once the game is decided, further clicks change nothing. */
  lemma {:induction false} DecidedGameIsFrozen(clicks: seq<Index>, more: seq<Index>)
    requires Play(clicks).winner != Pending
    ensures Play(clicks + more) == Play(clicks)
    decreases |more|
  {
    if more == [] {
      assert clicks + more == clicks;
    } else {
      PlayAppend(clicks, more);
      DecidedGameIsFrozen(clicks, more[..|more| - 1]);
    }
  }

  /** A cell, once set, keeps its symbol through any further clicks: only restart clears it. */
  lemma {:induction false} MarksArePermanent(clicks: seq<Index>, more: seq<Index>, j: Index)
    requires Play(clicks).board[j] != Empty
    ensures Play(clicks + more).board[j] == Play(clicks).board[j]
    decreases |more|
  {
    if more == [] {
      assert clicks + more == clicks;
    } else {
      PlayAppend(clicks, more);
      MarksArePermanent(clicks, more[..|more| - 1], j);
    }
  }

  /** In a reachable state the label tells the truth about the board: a draw is a full board
      without a line, a winner fills some line, and while it is someone's turn no line is
      complete and some cell is still empty. */
  lemma StatusMatchesBoard(s: State)
    requires Reachable(s)
    ensures StatusOf(s) == DrawLabel ==> Occupied(s.board) == 9 && !SomeLineComplete(s.board)
    ensures forall p :: StatusOf(s) == WinnerLabel(p) ==> exists k :: 0 <= k < |Lines| && LineOf(s.board, k, p)
    ensures forall p :: StatusOf(s) == TurnLabel(p) ==>
      p == Current(s) && !SomeLineComplete(s.board) && exists i :: 0 <= i < 9 && s.board[i] == Empty
  {
    WinnerOfSpec(s.board);
    if s.winner == Pending {
      SomeCellEmpty(s.board);
    }
  }

  /** Restart from any state, reachable or not, gives exactly the fresh game, which is reachable. */
  lemma RestartIsInitial(s: State)
    ensures forall i :: 0 <= i < 9 ==> Restart(s).board[i] == Empty
    ensures Restart(s).isXNext && Restart(s).winner == Pending && Restart(s).moveCount == 0
    ensures Restart(s) == Initial() && Reachable(Restart(s))
  {
    InitialReachable();
  }

  // Scenarios of a played game.

  lemma PlayStep(clicks: seq<Index>, c: Index)
    ensures Play(clicks + [c]) == Click(Play(clicks), c)
  {
    assert (clicks + [c])[..|clicks|] == clicks;
  }

  /** X takes the top row: 0(X), 3(O), 1(X), 4(O), 2(X). A further click at 5 is ignored. */
  lemma TopRowScenario()
    ensures Play([0, 3, 1, 4, 2]).winner == Won(X)
    ensures Play([0, 3, 1, 4, 2]).moveCount == 5
    ensures Play([0, 3, 1, 4, 2, 5]) == Play([0, 3, 1, 4, 2])
  {
    var e, x, o := Empty, Filled(X), Filled(O);
    PlayStep([], 0);
    assert [] + [0] == [0];
    assert WinnerOf([x, e, e, e, e, e, e, e, e]) == None;
    assert Play([0]) == State([x, e, e, e, e, e, e, e, e], false, Pending, 1);
    PlayStep([0], 3);
    assert [0] + [3] == [0, 3];
    assert WinnerOf([x, e, e, o, e, e, e, e, e]) == None;
    assert Play([0, 3]) == State([x, e, e, o, e, e, e, e, e], true, Pending, 2);
    PlayStep([0, 3], 1);
    assert [0, 3] + [1] == [0, 3, 1];
    assert WinnerOf([x, x, e, o, e, e, e, e, e]) == None;
    assert Play([0, 3, 1]) == State([x, x, e, o, e, e, e, e, e], false, Pending, 3);
    PlayStep([0, 3, 1], 4);
    assert [0, 3, 1] + [4] == [0, 3, 1, 4];
    assert WinnerOf([x, x, e, o, o, e, e, e, e]) == None;
    assert Play([0, 3, 1, 4]) == State([x, x, e, o, o, e, e, e, e], true, Pending, 4);
    PlayStep([0, 3, 1, 4], 2);
    assert [0, 3, 1, 4] + [2] == [0, 3, 1, 4, 2];
    assert Play([0, 3, 1, 4, 2]) == State([x, x, x, o, o, e, e, e, e], true, Won(X), 5);
    PlayStep([0, 3, 1, 4, 2], 5);
    assert [0, 3, 1, 4, 2] + [5] == [0, 3, 1, 4, 2, 5];
  }

  /** The first four moves of the draw game: X:0, O:1, X:2, O:4. */
  lemma DrawOpening()
    ensures Play([0, 1, 2, 4])
      == State([Filled(X), Filled(O), Filled(X), Empty, Filled(O), Empty, Empty, Empty, Empty], true, Pending, 4)
  {
    var e, x, o := Empty, Filled(X), Filled(O);
    PlayStep([], 0);
    assert [] + [0] == [0];
    assert WinnerOf([x, e, e, e, e, e, e, e, e]) == None;
    assert Play([0]) == State([x, e, e, e, e, e, e, e, e], false, Pending, 1);
    PlayStep([0], 1);
    assert [0] + [1] == [0, 1];
    assert WinnerOf([x, o, e, e, e, e, e, e, e]) == None;
    assert Play([0, 1]) == State([x, o, e, e, e, e, e, e, e], true, Pending, 2);
    PlayStep([0, 1], 2);
    assert [0, 1] + [2] == [0, 1, 2];
    assert WinnerOf([x, o, x, e, e, e, e, e, e]) == None;
    assert Play([0, 1, 2]) == State([x, o, x, e, e, e, e, e, e], false, Pending, 3);
    PlayStep([0, 1, 2], 4);
    assert [0, 1, 2] + [4] == [0, 1, 2, 4];
    assert WinnerOf([x, o, x, e, o, e, e, e, e]) == None;
  }

  /** The next three moves of the draw game: X:3, O:5, X:7. */
  lemma DrawMiddle()
    ensures Play([0, 1, 2, 4, 3, 5, 7])
      == State([Filled(X), Filled(O), Filled(X), Filled(X), Filled(O), Filled(O), Empty, Filled(X), Empty], false, Pending, 7)
  {
    var e, x, o := Empty, Filled(X), Filled(O);
    DrawOpening();
    PlayStep([0, 1, 2, 4], 3);
    assert [0, 1, 2, 4] + [3] == [0, 1, 2, 4, 3];
    assert WinnerOf([x, o, x, x, o, e, e, e, e]) == None;
    assert Play([0, 1, 2, 4, 3]) == State([x, o, x, x, o, e, e, e, e], false, Pending, 5);
    PlayStep([0, 1, 2, 4, 3], 5);
    assert [0, 1, 2, 4, 3] + [5] == [0, 1, 2, 4, 3, 5];
    assert WinnerOf([x, o, x, x, o, o, e, e, e]) == None;
    assert Play([0, 1, 2, 4, 3, 5]) == State([x, o, x, x, o, o, e, e, e], true, Pending, 6);
    PlayStep([0, 1, 2, 4, 3, 5], 7);
    assert [0, 1, 2, 4, 3, 5] + [7] == [0, 1, 2, 4, 3, 5, 7];
    assert WinnerOf([x, o, x, x, o, o, e, x, e]) == None;
  }

  /** A full board without a line: X:0, O:1, X:2, O:4, X:3, O:5, X:7, O:6, X:8. */
  lemma DrawScenario()
    ensures Play([0, 1, 2, 4, 3, 5, 7, 6, 8]).winner == Draw
    ensures Play([0, 1, 2, 4, 3, 5, 7, 6, 8]).moveCount == 9
  {
    var e, x, o := Empty, Filled(X), Filled(O);
    DrawMiddle();
    PlayStep([0, 1, 2, 4, 3, 5, 7], 6);
    assert [0, 1, 2, 4, 3, 5, 7] + [6] == [0, 1, 2, 4, 3, 5, 7, 6];
    assert WinnerOf([x, o, x, x, o, o, o, x, e]) == None;
    assert Play([0, 1, 2, 4, 3, 5, 7, 6]) == State([x, o, x, x, o, o, o, x, e], true, Pending, 8);
    PlayStep([0, 1, 2, 4, 3, 5, 7, 6], 8);
    assert [0, 1, 2, 4, 3, 5, 7, 6] + [8] == [0, 1, 2, 4, 3, 5, 7, 6, 8];
    assert WinnerOf([x, o, x, x, o, o, o, x, x]) == None;
    assert Play([0, 1, 2, 4, 3, 5, 7, 6, 8]) == State([x, o, x, x, o, o, o, x, x], true, Draw, 9);
  }
}
