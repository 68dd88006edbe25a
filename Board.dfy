/** The 3x3 board of the game and the search for a winning line.
    Cells are addressed 0..8 in row-major order:
      0 1 2
      3 4 5
      6 7 8
 */
module Board {

  datatype Option<T> = None | Some(value: T)

  /** The two symbols, 'X' and 'O'. */
  datatype Player = X | O

  /** A cell is null (empty) or holds a player's symbol. */
  datatype Cell = Empty | Filled(player: Player)

  type Index = k: int | 0 <= k < 9

  /** The 8 winning lines in the order they are scanned: 3 rows, 3 columns, 2 diagonals. */
  const Lines: seq<(Index, Index, Index)> := [
    (0, 1, 2), (3, 4, 5), (6, 7, 8),
    (0, 3, 6), (1, 4, 7), (2, 5, 8),
    (0, 4, 8), (2, 4, 6)
  ]

  /** Line i is complete: its first cell is occupied and the other two hold the same value
      (the test of the scanning loop). */
  predicate LineComplete(b: seq<Cell>, i: nat)
    requires |b| == 9 && i < |Lines|
  {
    var (p, q, r) := Lines[i];
    b[p] != Empty && b[p] == b[q] && b[p] == b[r]
  }

  /** All three cells of line i hold player p's symbol. */
  predicate LineOf(b: seq<Cell>, i: nat, p: Player)
    requires |b| == 9 && i < |Lines|
  {
    var (a, c, d) := Lines[i];
    b[a] == Filled(p) && b[c] == Filled(p) && b[d] == Filled(p)
  }

  /** The symbol of the first complete line at position i or later, if there is one. */
  function WinnerFrom(b: seq<Cell>, i: nat): Option<Player>
    requires |b| == 9 && i <= |Lines|
    decreases |Lines| - i
  {
    if i == |Lines| then None
    else if LineComplete(b, i) then Some(b[Lines[i].0].player)
    else WinnerFrom(b, i + 1)
  }

  /** The winner of a board: the symbol of the first complete line in scanning order. */
  function WinnerOf(b: seq<Cell>): Option<Player>
    requires |b| == 9
  {
    WinnerFrom(b, 0)
  }

  /** Whether some line is complete. */
  predicate SomeLineComplete(b: seq<Cell>)
    requires |b| == 9
  {
    exists i :: 0 <= i < |Lines| && LineComplete(b, i)
  }

  lemma CompleteIsLineOf(b: seq<Cell>, i: nat)
    requires |b| == 9 && i < |Lines|
    ensures LineComplete(b, i) <==> b[Lines[i].0].Filled? && LineOf(b, i, b[Lines[i].0].player)
  {
  }

  /** The scan from position i returns the symbol of the first complete line from i on,
      and nothing exactly when no line from i on is complete. */
  lemma {:induction false} WinnerFromSpec(b: seq<Cell>, i: nat)
    requires |b| == 9 && i <= |Lines|
    decreases |Lines| - i
    ensures WinnerFrom(b, i).None? <==> forall j :: i <= j < |Lines| ==> !LineComplete(b, j)
    ensures WinnerFrom(b, i).Some? ==>
      exists k :: i <= k < |Lines| && LineComplete(b, k) && LineOf(b, k, WinnerFrom(b, i).value)
        && forall j :: i <= j < k ==> !LineComplete(b, j)
  {
    if i < |Lines| {
      WinnerFromSpec(b, i + 1);
      if LineComplete(b, i) {
        CompleteIsLineOf(b, i);
        assert LineOf(b, i, WinnerFrom(b, i).value);
      } else {
        if WinnerFrom(b, i).Some? {
          var k :| i + 1 <= k < |Lines| && LineComplete(b, k) && LineOf(b, k, WinnerFrom(b, i).value)
            && forall j :: i + 1 <= j < k ==> !LineComplete(b, j);
          assert forall j :: i <= j < k ==> !LineComplete(b, j);
        }
      }
    }
  }

  /** WinnerOf returns a symbol exactly when some line is complete, and that symbol fills
      the earliest complete line in the scanning order. */
  lemma WinnerOfSpec(b: seq<Cell>)
    requires |b| == 9
    ensures WinnerOf(b).None? <==> !SomeLineComplete(b)
    ensures WinnerOf(b).Some? ==>
      exists k :: 0 <= k < |Lines| && LineOf(b, k, WinnerOf(b).value)
        && forall j :: 0 <= j < k ==> !LineComplete(b, j)
  {
    WinnerFromSpec(b, 0);
  }

  /** A board on which player p fills all three cells of some line always has a winner,
      and the winner fills an earlier-or-equal line. */
  lemma LineOfHasWinner(b: seq<Cell>, i: nat, p: Player)
    requires |b| == 9 && i < |Lines| && LineOf(b, i, p)
    ensures WinnerOf(b).Some?
    ensures WinnerOf(b) != Some(p) ==>
      exists k :: 0 <= k < i && LineOf(b, k, WinnerOf(b).value)
  {
    assert LineComplete(b, i);
    WinnerOfSpec(b);
    var k :| 0 <= k < |Lines| && LineOf(b, k, WinnerOf(b).value)
      && forall j :: 0 <= j < k ==> !LineComplete(b, j);
  }

  /** The board on which only line i is filled, by player p. */
  function LineBoard(i: nat, p: Player): (b: seq<Cell>)
    requires i < |Lines|
    ensures |b| == 9 && LineOf(b, i, p)
  {
    var (x, y, z) := Lines[i];
    seq(9, k => if k == x || k == y || k == z then Filled(p) else Empty)
  }

  /** Each of the 8 lines on its own is recognised, with the right symbol. */
  lemma EveryLineRecognised(i: nat, p: Player)
    requires i < |Lines|
    ensures WinnerOf(LineBoard(i, p)) == Some(p)
  {
    var b := LineBoard(i, p);
    LineOfHasWinner(b, i, p);
    WinnerOfSpec(b);
  }

  /** The `calculateWinner` scan: walks the 8 lines in order and returns the symbol of the first
      complete one, or nothing. */
  method CalculateWinner(squares: array<Cell>) returns (r: Option<Player>)
    requires squares.Length == 9
    ensures r == WinnerOf(squares[..])
  {
    var i := 0;
    while i < |Lines|
      invariant 0 <= i <= |Lines|
      invariant WinnerFrom(squares[..], i) == WinnerOf(squares[..])
    {
      var (a, b, c) := Lines[i];
      if squares[a] != Empty && squares[a] == squares[b] && squares[a] == squares[c] {
        return Some(squares[a].player);
      }
      i := i + 1;
    }
    return None;
  }

  /** Number of cells holding player p's symbol. */
  function Marks(b: seq<Cell>, p: Player): nat
  {
    if b == [] then 0 else (if b[0] == Filled(p) then 1 else 0) + Marks(b[1..], p)
  }

  /** Number of occupied cells. */
  function Occupied(b: seq<Cell>): nat
  {
    Marks(b, X) + Marks(b, O)
  }

  /** Filling an empty cell with p's symbol adds one mark for p and none for the other player. */
  lemma {:induction false} MarksAfterFill(b: seq<Cell>, idx: nat, p: Player, q: Player)
    requires idx < |b| && b[idx] == Empty
    ensures Marks(b[idx := Filled(p)], q) == Marks(b, q) + (if p == q then 1 else 0)
  {
    if idx > 0 {
      assert b[idx := Filled(p)][1..] == b[1..][idx - 1 := Filled(p)];
      MarksAfterFill(b[1..], idx - 1, p, q);
    } else {
      assert b[idx := Filled(p)][1..] == b[1..];
    }
  }

  /** There are never more occupied cells than cells. */
  lemma {:induction false} OccupiedBound(b: seq<Cell>)
    ensures Occupied(b) <= |b|
  {
    if b != [] {
      OccupiedBound(b[1..]);
    }
  }

  /** A board with fewer occupied cells than cells has an empty cell. */
  lemma {:induction false} SomeCellEmpty(b: seq<Cell>)
    requires Occupied(b) < |b|
    ensures exists i :: 0 <= i < |b| && b[i] == Empty
  {
    if b[0] != Empty {
      assert Occupied(b) == Occupied(b[1..]) + 1 by {
        assert b[0] == Filled(b[0].player);
        assert b[0].player == X || b[0].player == O;
      }
      SomeCellEmpty(b[1..]);
      var i :| 0 <= i < |b[1..]| && b[1..][i] == Empty;
      assert b[i + 1] == Empty;
    }
  }
}
