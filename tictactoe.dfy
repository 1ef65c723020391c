/** The game logic of the tic-tac-toe board component: winner detection over a
    nine-cell board, the click transition of the board, and the status line
    the board shows above its grid. */
module TicTacToe {

  datatype Option<T> = None | Some(value: T)

  /** The two players' marks. */
  datatype Player = X | O

  /** A square is empty (null in the component) or holds a player's mark. */
  datatype Cell = Empty | Mark(player: Player)

  /** Three board indices; the board is numbered 0..8 in row-major order. */
  datatype Line = Line(a: nat, b: nat, c: nat)

  const BoardSize: nat := 9

  /** The eight lines in scan order: rows top to bottom, columns left to
      right, then the two diagonals. */
  const Lines: seq<Line> := [
    Line(0, 1, 2), Line(3, 4, 5), Line(6, 7, 8),
    Line(0, 3, 6), Line(1, 4, 7), Line(2, 5, 8),
    Line(0, 4, 8), Line(2, 4, 6)
  ]

  // ---------------------------------------------------------------------
  // Winner detection
  // ---------------------------------------------------------------------

  /** One mark fills all three cells of `l`. An index past the end of the
      board reads as absent, which is falsy, so such a line never counts. */
  predicate Completes(squares: seq<Cell>, l: Line) {
    l.a < |squares| && l.b < |squares| && l.c < |squares| &&
    squares[l.a] != Empty && squares[l.a] == squares[l.b] && squares[l.a] == squares[l.c]
  }

  /** The player whose mark fills a completed line. */
  function Owner(squares: seq<Cell>, l: Line): (p: Player)
    requires Completes(squares, l)
  {
    squares[l.a].player
  }

  /** Scan of the lines from index `k` on; the first completed one decides. */
  function WinnerFrom(squares: seq<Cell>, k: nat): (r: Option<Player>)
    decreases |Lines| - k
  {
    if k >= |Lines| then None
    else if Completes(squares, Lines[k]) then Some(Owner(squares, Lines[k]))
    else WinnerFrom(squares, k + 1)
  }

  /** The winner of a board: None exactly when no line is complete, and
      otherwise the owner of a completed line. */
  function Winner(squares: seq<Cell>): (r: Option<Player>)
    ensures r == None <==> forall k :: 0 <= k < |Lines| ==> !Completes(squares, Lines[k])
    ensures r.Some? ==>
              exists k :: 0 <= k < |Lines| && Completes(squares, Lines[k]) && Owner(squares, Lines[k]) == r.value
  {
    WinnerFromIsFirstCompleted(squares, 0);
    WinnerFrom(squares, 0)
  }

  /** Line `j` is the first completed line at or after index `k`. */
  ghost predicate FirstCompletedFrom(squares: seq<Cell>, k: nat, j: int) {
    k <= j < |Lines| && Completes(squares, Lines[j]) &&
    forall i :: k <= i < j ==> !Completes(squares, Lines[i])
  }

  /** Line `j` is the first completed line in scan order. */
  ghost predicate FirstCompleted(squares: seq<Cell>, j: int) {
    0 <= j < |Lines| && Completes(squares, Lines[j]) &&
    forall i :: 0 <= i < j ==> !Completes(squares, Lines[i])
  }

  lemma {:induction false} WinnerFromIsFirstCompleted(squares: seq<Cell>, k: nat)
    requires k <= |Lines|
    ensures WinnerFrom(squares, k) == None <==>
              forall j :: k <= j < |Lines| ==> !Completes(squares, Lines[j])
    ensures WinnerFrom(squares, k).Some? ==>
              exists j :: FirstCompletedFrom(squares, k, j) &&
                          Owner(squares, Lines[j]) == WinnerFrom(squares, k).value
    decreases |Lines| - k
  {
    if k < |Lines| {
      WinnerFromIsFirstCompleted(squares, k + 1);
      if Completes(squares, Lines[k]) {
        assert FirstCompletedFrom(squares, k, k);
      } else if WinnerFrom(squares, k).Some? {
        var j :| FirstCompletedFrom(squares, k + 1, j) &&
                 Owner(squares, Lines[j]) == WinnerFrom(squares, k).value;
        assert FirstCompletedFrom(squares, k, j);
      }
    }
  }

  /** The winner is None exactly when no line is complete; otherwise it is the
      owner of the first completed line in scan order. */
  lemma WinnerIsFirstCompletedLine(squares: seq<Cell>)
    ensures Winner(squares) == None <==>
              forall k :: 0 <= k < |Lines| ==> !Completes(squares, Lines[k])
    ensures Winner(squares).Some? ==>
              exists k :: FirstCompleted(squares, k) && Owner(squares, Lines[k]) == Winner(squares).value
    ensures forall k :: FirstCompleted(squares, k) ==> Winner(squares) == Some(Owner(squares, Lines[k]))
  {
    WinnerFromIsFirstCompleted(squares, 0);
    if Winner(squares).Some? {
      var j :| FirstCompletedFrom(squares, 0, j) && Owner(squares, Lines[j]) == Winner(squares).value;
      assert FirstCompleted(squares, j);
      forall k | FirstCompleted(squares, k)
        ensures Winner(squares) == Some(Owner(squares, Lines[k]))
      {
      }
    }
  }

  /** The loop of the component: scan the lines in order and return the mark
      of the first one whose three cells are filled and equal. */
  method CalculateWinner(squares: seq<Cell>) returns (w: Option<Player>)
    ensures w == Winner(squares)
    ensures w == None <==> forall k :: 0 <= k < |Lines| ==> !Completes(squares, Lines[k])
    ensures w.Some? ==> exists k :: FirstCompleted(squares, k) && Owner(squares, Lines[k]) == w.value
  {
    var i := 0;
    while i < |Lines|
      invariant 0 <= i <= |Lines|
      invariant forall j :: 0 <= j < i ==> !Completes(squares, Lines[j])
      invariant WinnerFrom(squares, i) == Winner(squares)
    {
      var Line(a, b, c) := Lines[i];
      if a < |squares| && b < |squares| && c < |squares| &&
         squares[a] != Empty && squares[a] == squares[b] && squares[a] == squares[c]
      {
        assert FirstCompleted(squares, i);
        return Some(squares[a].player);
      }
      i := i + 1;
    }
    return None;
  }

  // ---------------------------------------------------------------------
  // Board state and the click transition
  // ---------------------------------------------------------------------

  /** The board component's state: its nine squares and whose turn it is. */
  datatype BoardState = BoardState(squares: seq<Cell>, xIsNext: bool)

  /** The mark placed by the next click. */
  function Mover(xIsNext: bool): (p: Player) {
    if xIsNext then X else O
  }

  /** The state the board starts in. */
  function Initial(): (s: BoardState)
    ensures |s.squares| == BoardSize && s.xIsNext
    ensures forall j :: 0 <= j < |s.squares| ==> s.squares[j] == Empty
  {
    BoardState(seq(BoardSize, _ => Empty), true)
  }

  /** The effect of a click on square `i`: ignored once the board has a winner
      or when the square is filled; otherwise the mover's mark goes into
      square `i` and the turn passes. */
  function Click(s: BoardState, i: nat): (r: BoardState)
    requires |s.squares| == BoardSize && i < BoardSize
    ensures |r.squares| == BoardSize
    ensures Winner(s.squares).Some? ==> r == s
    ensures s.squares[i] != Empty ==> r == s
    ensures Winner(s.squares) == None && s.squares[i] == Empty ==>
              r.squares[i] == Mark(Mover(s.xIsNext)) && r.xIsNext == !s.xIsNext &&
              forall j :: 0 <= j < BoardSize && j != i ==> r.squares[j] == s.squares[j]
  {
    if Winner(s.squares).Some? || s.squares[i] != Empty then s
    else BoardState(s.squares[i := Mark(Mover(s.xIsNext))], !s.xIsNext)
  }

  /** Every entry of `moves` is a square index. */
  predicate ValidMoves(moves: seq<nat>) {
    forall k :: 0 <= k < |moves| ==> moves[k] < BoardSize
  }

  /** The state after clicking the squares of `moves` in order. */
  function Play(s: BoardState, moves: seq<nat>): (r: BoardState)
    requires |s.squares| == BoardSize && ValidMoves(moves)
    ensures |r.squares| == BoardSize
    decreases |moves|
  {
    if moves == [] then s else Play(Click(s, moves[0]), moves[1..])
  }

  /** The number of squares holding `c`. */
  function Count(cells: seq<Cell>, c: Cell): (n: nat) {
    if cells == [] then 0 else (if cells[0] == c then 1 else 0) + Count(cells[1..], c)
  }

  /** The number of filled squares, that is, of moves made so far. */
  function Filled(cells: seq<Cell>): (n: nat) {
    Count(cells, Mark(X)) + Count(cells, Mark(O))
  }

  lemma {:induction false} CountUpdate(cells: seq<Cell>, i: nat, v: Cell, c: Cell)
    requires i < |cells|
    ensures Count(cells[i := v], c) + (if cells[i] == c then 1 else 0) ==
            Count(cells, c) + (if v == c then 1 else 0)
  {
    if i == 0 {
      assert cells[i := v][1..] == cells[1..];
    } else {
      CountUpdate(cells[1..], i - 1, v, c);
      assert cells[i := v][1..] == cells[1..][i - 1 := v];
    }
  }

  lemma {:induction false} CountAbsent(cells: seq<Cell>, c: Cell)
    requires forall j :: 0 <= j < |cells| ==> cells[j] != c
    ensures Count(cells, c) == 0
  {
    if cells != [] {
      CountAbsent(cells[1..], c);
    }
  }

  /** X has made as many moves as O when X is next, and one more otherwise. */
  ghost predicate Balanced(s: BoardState) {
    |s.squares| == BoardSize &&
    Count(s.squares, Mark(X)) == Count(s.squares, Mark(O)) + (if s.xIsNext then 0 else 1)
  }

  lemma InitialBalanced()
    ensures Balanced(Initial())
  {
    CountAbsent(Initial().squares, Mark(X));
    CountAbsent(Initial().squares, Mark(O));
  }

  lemma ClickKeepsBalanced(s: BoardState, i: nat)
    requires Balanced(s) && i < BoardSize
    ensures Balanced(Click(s, i))
  {
    if Winner(s.squares) == None && s.squares[i] == Empty {
      var v := Mark(Mover(s.xIsNext));
      CountUpdate(s.squares, i, v, Mark(X));
      CountUpdate(s.squares, i, v, Mark(O));
    }
  }

  lemma {:induction false} PlayKeepsBalanced(s: BoardState, moves: seq<nat>)
    requires Balanced(s) && ValidMoves(moves)
    ensures Balanced(Play(s, moves))
    decreases |moves|
  {
    if moves != [] {
      ClickKeepsBalanced(s, moves[0]);
      PlayKeepsBalanced(Click(s, moves[0]), moves[1..]);
    }
  }

  /** From the initial state, after any clicks, the count of X marks minus the
      count of O marks is 0 when X is next and 1 when O is next; so X moves
      exactly when an even number of squares is filled. */
  lemma TurnsAlternate(moves: seq<nat>)
    requires ValidMoves(moves)
    ensures var s := Play(Initial(), moves);
            Count(s.squares, Mark(X)) - Count(s.squares, Mark(O)) == (if s.xIsNext then 0 else 1)
    ensures var s := Play(Initial(), moves);
            s.xIsNext <==> Filled(s.squares) % 2 == 0
  {
    InitialBalanced();
    PlayKeepsBalanced(Initial(), moves);
  }

  /** A filled square keeps its mark through any sequence of clicks. */
  lemma {:induction false} PlayNeverOverwrites(s: BoardState, moves: seq<nat>, j: nat)
    requires |s.squares| == BoardSize && ValidMoves(moves)
    requires j < BoardSize && s.squares[j] != Empty
    ensures Play(s, moves).squares[j] == s.squares[j]
    decreases |moves|
  {
    if moves != [] {
      PlayNeverOverwrites(Click(s, moves[0]), moves[1..], j);
    }
  }

  /** Once the board has a winner, no sequence of clicks changes the state. */
  lemma {:induction false} WinIsFinal(s: BoardState, moves: seq<nat>)
    requires |s.squares| == BoardSize && ValidMoves(moves)
    requires Winner(s.squares).Some?
    ensures Play(s, moves) == s
    decreases |moves|
  {
    if moves != [] {
      WinIsFinal(Click(s, moves[0]), moves[1..]);
    }
  }

  /** All completed lines belong to the same player. */
  ghost predicate SingleOwner(squares: seq<Cell>) {
    forall j, k ::
      (0 <= j < |Lines| && 0 <= k < |Lines| &&
       Completes(squares, Lines[j]) && Completes(squares, Lines[k])) ==>
        Owner(squares, Lines[j]) == Owner(squares, Lines[k])
  }

  /** A line that a single write completes passes through the written square,
      so it belongs to the writer. */
  lemma NewLineBelongsToMover(squares: seq<Cell>, i: nat, p: Player, l: Line)
    requires i < |squares|
    requires !Completes(squares, l) && Completes(squares[i := Mark(p)], l)
    ensures Owner(squares[i := Mark(p)], l) == p
  {
  }

  lemma ClickKeepsSingleOwner(s: BoardState, i: nat)
    requires |s.squares| == BoardSize && i < BoardSize
    requires SingleOwner(s.squares)
    ensures SingleOwner(Click(s, i).squares)
  {
    if Winner(s.squares) == None && s.squares[i] == Empty {
      WinnerIsFirstCompletedLine(s.squares);
      var p := Mover(s.xIsNext);
      var after := Click(s, i).squares;
      assert after == s.squares[i := Mark(p)];
      forall k | 0 <= k < |Lines| && Completes(after, Lines[k])
        ensures Owner(after, Lines[k]) == p
      {
        NewLineBelongsToMover(s.squares, i, p, Lines[k]);
      }
    }
  }

  lemma {:induction false} PlayKeepsSingleOwner(s: BoardState, moves: seq<nat>)
    requires |s.squares| == BoardSize && ValidMoves(moves)
    requires SingleOwner(s.squares)
    ensures SingleOwner(Play(s, moves).squares)
    decreases |moves|
  {
    if moves != [] {
      ClickKeepsSingleOwner(s, moves[0]);
      PlayKeepsSingleOwner(Click(s, moves[0]), moves[1..]);
    }
  }

  /** In every state reachable by clicks from the initial state, every
      completed line belongs to the reported winner, so the scan order never
      changes which player is reported. */
  lemma ReachableWinnerOwnsEveryLine(moves: seq<nat>)
    requires ValidMoves(moves)
    ensures var b := Play(Initial(), moves).squares;
            forall k :: 0 <= k < |Lines| && Completes(b, Lines[k]) ==>
              Winner(b) == Some(Owner(b, Lines[k]))
  {
    PlayKeepsSingleOwner(Initial(), moves);
    var b := Play(Initial(), moves).squares;
    WinnerIsFirstCompletedLine(b);
    forall k | 0 <= k < |Lines| && Completes(b, Lines[k])
      ensures Winner(b) == Some(Owner(b, Lines[k]))
    {
      var j :| FirstCompleted(b, j) && Owner(b, Lines[j]) == Winner(b).value;
    }
  }

  /** The empty board has no winner. */
  lemma InitialHasNoWinner()
    ensures Winner(Initial().squares) == None
  {
    WinnerIsFirstCompletedLine(Initial().squares);
  }

  // ---------------------------------------------------------------------
  // Status line
  // ---------------------------------------------------------------------

  function Symbol(p: Player): (ch: char) {
    if p == X then 'X' else 'O'
  }

  /** The status line: it names the winner when there is one, and otherwise
      the player who moves next. */
  function Status(s: BoardState): (t: string)
    ensures |t| > 0
    ensures t[..|t| - 1] == "Winner: " <==> Winner(s.squares).Some?
    ensures t[..|t| - 1] == "Next player: " <==> Winner(s.squares) == None
    ensures t[|t| - 1] == Symbol(if Winner(s.squares).Some? then Winner(s.squares).value
                                 else Mover(s.xIsNext))
  {
    match Winner(s.squares)
    case Some(w) => "Winner: " + [Symbol(w)]
    case None => "Next player: " + [if s.xIsNext then 'X' else 'O']
  }

  /** There is no draw outcome: when play fills the board without completing
      a line, X has made five moves and O four, so the status line asks O to
      move although no square is left. */
  lemma DrawShowsNextPlayerO(moves: seq<nat>)
    requires ValidMoves(moves)
    ensures var s := Play(Initial(), moves);
            Filled(s.squares) == BoardSize && Winner(s.squares) == None ==>
              Status(s) == "Next player: O"
  {
    TurnsAlternate(moves);
  }

  // ---------------------------------------------------------------------
  // The board component
  // ---------------------------------------------------------------------

  /** The board component: it owns the squares and the turn. */
  class Board {
    var squares: seq<Cell>
    var xIsNext: bool

    ghost predicate Valid()
      reads this
    {
      |squares| == BoardSize
    }

    function State(): BoardState
      reads this
    {
      BoardState(squares, xIsNext)
    }

    /** Nine empty squares, X to move. */
    constructor ()
      ensures Valid()
      ensures |squares| == BoardSize && xIsNext
      ensures forall j :: 0 <= j < BoardSize ==> squares[j] == Empty
      ensures State() == Initial()
    {
      squares := seq(BoardSize, _ => Empty);
      xIsNext := true;
    }

    /** A click on square `i`. The new squares are a copy of the old ones with
        square `i` set, which replaces the old squares together with the turn. */
    method HandleClick(i: nat)
      requires Valid() && i < BoardSize
      modifies this
      ensures Valid()
      ensures State() == Click(old(State()), i)
      ensures old(Winner(squares)).Some? || old(squares[i]) != Empty ==>
                squares == old(squares) && xIsNext == old(xIsNext)
      ensures old(Winner(squares)) == None && old(squares[i]) == Empty ==>
                squares == old(squares)[i := Mark(Mover(old(xIsNext)))] && xIsNext == !old(xIsNext)
    {
      var next := squares;
      var w := CalculateWinner(next);
      if w.Some? || next[i] != Empty {
        return;
      }
      next := next[i := if xIsNext then Mark(X) else Mark(O)];
      squares, xIsNext := next, !xIsNext;
    }
  }

  /** Moves 0, 3, 1, 4, 2 complete the top row for X; a further click on
      square 5 is ignored. */
  method TopRowScenario()
  {
    var board := new Board();
    board.HandleClick(0);
    board.HandleClick(3);
    board.HandleClick(1);
    board.HandleClick(4);
    board.HandleClick(2);
    assert Completes(board.squares, Lines[0]);
    assert FirstCompleted(board.squares, 0);
    WinnerIsFirstCompletedLine(board.squares);
    assert Winner(board.squares) == Some(X);
    var before := board.State();
    board.HandleClick(5);
    assert board.State() == before;
    assert Status(board.State()) == "Winner: X";
  }
}
