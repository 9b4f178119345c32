/**
 * The game-state store of a two-player tic-tac-toe game: a board of nine
 * cells, the player whose turn it is, the outcome so far and the winning
 * line.  `CalculateWinner` is the pure win detector; `Move` is the state
 * transition that the store's `makeMove` action applies; the class
 * `GameStore` holds the state and changes it in place.
 */
module TicTacToe {

  datatype Option<+T> = None | Some(value: T)

  datatype Player = X | O

  /** The outcome so far: `Nobody` while the game is in progress. */
  datatype Winner = Nobody | Won(player: Player) | Draw

  /** Three board indices that form a row, a column or a diagonal. */
  datatype Triple = Triple(a: int, b: int, c: int)

  type Board = seq<Option<Player>>

  /** What the win detector reports: both fields set, or both unset. */
  datatype WinResult = WinResult(winner: Option<Player>, line: Option<Triple>)

  /** The whole observable state of the store. */
  datatype GameState = GameState(
    board: Board,
    currentPlayer: Player,
    winner: Winner,
    winningLine: Option<Triple>)

  const Size := 9

  /** The eight lines in the order they are scanned: rows, columns, diagonals. */
  const Lines: seq<Triple> := [
    Triple(0, 1, 2), Triple(3, 4, 5), Triple(6, 7, 8),
    Triple(0, 3, 6), Triple(1, 4, 7), Triple(2, 5, 8),
    Triple(0, 4, 8), Triple(2, 4, 6)
  ]

  const EmptyBoard: Board := [None, None, None, None, None, None, None, None, None]

  /** The state a new game starts in and that a reset puts back. */
  const Initial := GameState(EmptyBoard, X, Nobody, None)

  function Other(p: Player): (q: Player)
    ensures q != p
  {
    if p == X then O else X
  }

  /** The three cells of `t` hold the same player. */
  predicate Completed(b: Board, t: Triple)
    requires |b| == Size && 0 <= t.a < Size && 0 <= t.b < Size && 0 <= t.c < Size
    ensures Completed(b, t) <==>
      (b[t.a] == b[t.b] == b[t.c] == Some(X)) || (b[t.a] == b[t.b] == b[t.c] == Some(O))
  {
    assert b[t.a].Some? ==> b[t.a].value.X? || b[t.a].value.O?;
    b[t.a].Some? && b[t.a] == b[t.b] && b[t.a] == b[t.c]
  }

  /** Every cell is occupied. */
  predicate Full(b: Board)
    ensures Full(b) <==> None !in b
  {
    forall i :: 0 <= i < |b| ==> b[i].Some?
  }

  /** Number of cells occupied by `p`. */
  function Count(b: Board, p: Player): (n: nat)
    ensures n <= |b|
  {
    if b == [] then 0 else (if b[0] == Some(p) then 1 else 0) + Count(b[1..], p)
  }

  /** The lines from position `k` on, scanned in order; the first completed one wins. */
  function SearchFrom(b: Board, k: nat): (r: WinResult)
    requires |b| == Size && k <= |Lines|
    decreases |Lines| - k
    ensures r.winner.Some? <==> r.line.Some?
  {
    if k == |Lines| then WinResult(None, None)
    else if Completed(b, Lines[k]) then WinResult(b[Lines[k].a], Some(Lines[k]))
    else SearchFrom(b, k + 1)
  }

  /**
   * The win detector: the first line, in scanning order, whose three cells
   * hold the same player, with that player; nothing when no line does.
   * Its properties are the lemmas `WinnerSound`, `WinnerComplete` and
   * `WinnerIsFirstCompleted` below.
   */
  function CalculateWinner(b: Board): (r: WinResult)
    requires |b| == Size
    ensures r.winner.Some? <==> r.line.Some?
  {
    SearchFrom(b, 0)
  }

  /**
   * The transition `makeMove(index)` applies: a move on an occupied cell or
   * after the game has ended is ignored; otherwise the current player takes
   * the cell, and the game is won, drawn, or goes on with the other player.
   */
  function Move(s: GameState, index: int): (r: GameState)
    requires |s.board| == Size && 0 <= index < Size
    ensures |r.board| == Size
  {
    if s.board[index].Some? || s.winner != Nobody then s
    else
      var newBoard := s.board[index := Some(s.currentPlayer)];
      var result := CalculateWinner(newBoard);
      if result.winner.Some? then
        GameState(newBoard, s.currentPlayer, Won(result.winner.value), result.line)
      else if Full(newBoard) then
        GameState(newBoard, s.currentPlayer, Draw, s.winningLine)
      else
        GameState(newBoard, Other(s.currentPlayer), s.winner, s.winningLine)
  }

  predicate ValidMoves(moves: seq<int>) {
    forall k :: 0 <= k < |moves| ==> 0 <= moves[k] < Size
  }

  /** The state after the given moves, starting from a new game. */
  function Play(moves: seq<int>): (s: GameState)
    requires ValidMoves(moves)
    ensures |s.board| == Size
  {
    if moves == [] then Initial
    else Move(Play(moves[..|moves| - 1]), moves[|moves| - 1])
  }

  /**
   * What every state reachable from a new game satisfies.  X moves first
   * and the players alternate, so X is level with O or one ahead; while the
   * game is in progress it is X's turn exactly when they are level, and once
   * it has ended the last mover is still the current player.
   */
  ghost predicate Consistent(s: GameState) {
    |s.board| == Size &&
    var lead := Count(s.board, X) - Count(s.board, O);
    var w := CalculateWinner(s.board);
    match s.winner
    case Nobody =>
      lead == (if s.currentPlayer == X then 0 else 1)
      && w.line.None? && !Full(s.board) && s.winningLine.None?
    case Won(p) =>
      lead == (if s.currentPlayer == X then 1 else 0)
      && p == s.currentPlayer && w == WinResult(Some(p), s.winningLine) && s.winningLine.Some?
    case Draw =>
      lead == (if s.currentPlayer == X then 1 else 0)
      && w.line.None? && Full(s.board) && s.winningLine.None?
  }

  // ---------------------------------------------------------------------
  // Counting cells

  /** Taking an empty cell adds one to the mover's count and nothing to the other's. */
  lemma {:induction false} CountPlace(b: Board, i: int, p: Player, q: Player)
    requires 0 <= i < |b| && b[i].None?
    ensures Count(b[i := Some(p)], q) == Count(b, q) + (if p == q then 1 else 0)
  {
    var b' := b[i := Some(p)];
    if i == 0 {
      assert b'[1..] == b[1..];
    } else {
      assert b'[1..] == b[1..][i - 1 := Some(p)];
      CountPlace(b[1..], i - 1, p, q);
    }
  }

  /** On a full board the X cells and the O cells make up the whole board. */
  lemma {:induction false} CountFull(b: Board)
    requires Full(b)
    ensures Count(b, X) + Count(b, O) == |b|
  {
    if b != [] {
      assert Full(b[1..]) by {
        forall i | 0 <= i < |b[1..]| ensures b[1..][i].Some? { assert b[1..][i] == b[i + 1]; }
      }
      CountFull(b[1..]);
      assert b[0].Some?;
      assert b[0].value == X || b[0].value == O;
    }
  }

  // ---------------------------------------------------------------------
  // The win detector

  /** What the scan from position `k` finds: the first completed line from `k` on, or nothing. */
  lemma {:induction false} SearchFromFindsFirst(b: Board, k: nat)
    requires |b| == Size && k <= |Lines|
    decreases |Lines| - k
    ensures var r := SearchFrom(b, k);
      (r.line.Some? ==>
        exists j :: k <= j < |Lines| && r.line.value == Lines[j]
          && Completed(b, Lines[j]) && b[Lines[j].a] == r.winner
          && forall i :: k <= i < j ==> !Completed(b, Lines[i]))
      && (r.line.None? <==> forall j :: k <= j < |Lines| ==> !Completed(b, Lines[j]))
  {
    if k < |Lines| && !Completed(b, Lines[k]) {
      SearchFromFindsFirst(b, k + 1);
    }
  }

  /**
   * A reported line is one of the eight, its three cells hold the reported
   * player, and no line before it in scanning order is completed.
   */
  lemma WinnerSound(b: Board)
    requires |b| == Size
    ensures var r := CalculateWinner(b);
      r.line.Some? ==>
        exists j :: 0 <= j < |Lines| && r.line.value == Lines[j]
          && Completed(b, Lines[j]) && b[Lines[j].a] == r.winner
          && forall i :: 0 <= i < j ==> !Completed(b, Lines[i])
  {
    SearchFromFindsFirst(b, 0);
  }

  /** Nothing is reported exactly when no line is completed. */
  lemma WinnerComplete(b: Board)
    requires |b| == Size
    ensures CalculateWinner(b) == WinResult(None, None) <==>
      forall j :: 0 <= j < |Lines| ==> !Completed(b, Lines[j])
  {
    SearchFromFindsFirst(b, 0);
  }

  /** The result is determined by the first completed line: its player and the line itself. */
  lemma WinnerIsFirstCompleted(b: Board, j: int)
    requires |b| == Size && 0 <= j < |Lines| && Completed(b, Lines[j])
    requires forall i :: 0 <= i < j ==> !Completed(b, Lines[i])
    ensures CalculateWinner(b) == WinResult(b[Lines[j].a], Some(Lines[j]))
  {
    SearchFromFindsFirst(b, 0);
    var r := CalculateWinner(b);
    var j' :| 0 <= j' < |Lines| && r.line.value == Lines[j']
      && Completed(b, Lines[j']) && b[Lines[j'].a] == r.winner
      && forall i :: 0 <= i < j' ==> !Completed(b, Lines[i]);
    assert j' == j;
  }

  /** A line not completed before a move and completed after it runs through the moved cell. */
  lemma CompletedByMove(b: Board, index: int, p: Player, j: int)
    requires |b| == Size && 0 <= index < Size && 0 <= j < |Lines|
    requires !Completed(b, Lines[j]) && Completed(b[index := Some(p)], Lines[j])
    ensures index in {Lines[j].a, Lines[j].b, Lines[j].c}
    ensures b[index := Some(p)][Lines[j].a] == Some(p)
  {
  }

  /**
   * If no line was completed before a move, any line completed after it is
   * the mover's, and passes through the moved cell.
   */
  lemma MoverWins(b: Board, index: int, p: Player)
    requires |b| == Size && 0 <= index < Size
    requires CalculateWinner(b).line.None?
    ensures var r := CalculateWinner(b[index := Some(p)]);
      r.line.Some? ==> r.winner == Some(p) && index in {r.line.value.a, r.line.value.b, r.line.value.c}
  {
    var b' := b[index := Some(p)];
    var r := CalculateWinner(b');
    WinnerComplete(b);
    WinnerSound(b');
    if r.line.Some? {
      var j :| 0 <= j < |Lines| && r.line.value == Lines[j]
        && Completed(b', Lines[j]) && b'[Lines[j].a] == r.winner;
      CompletedByMove(b, index, p, j);
    }
  }

  // ---------------------------------------------------------------------
  // One move

  /** An occupied cell or an ended game leaves the whole state as it was. */
  lemma MoveRejected(s: GameState, index: int)
    requires |s.board| == Size && 0 <= index < Size
    requires s.board[index].Some? || s.winner != Nobody
    ensures Move(s, index) == s
  {
  }

  /** An accepted move puts the current player on the chosen cell and changes no other cell. */
  lemma MoveSetsOneCell(s: GameState, index: int)
    requires |s.board| == Size && 0 <= index < Size
    requires s.board[index].None? && s.winner == Nobody
    ensures Move(s, index).board[index] == Some(s.currentPlayer)
    ensures forall i :: 0 <= i < Size && i != index ==> Move(s, index).board[i] == s.board[i]
  {
  }

  /**
   * An accepted move that completes a line ends the game: the winner is the
   * player on the first completed line, that line is recorded, and the turn
   * does not pass.  When no line was completed before the move, the winner
   * is the mover and the recorded line runs through the moved cell.
   */
  lemma MoveWins(s: GameState, index: int)
    requires |s.board| == Size && 0 <= index < Size
    requires s.board[index].None? && s.winner == Nobody
    requires CalculateWinner(s.board[index := Some(s.currentPlayer)]).line.Some?
    ensures var r := Move(s, index);
      var w := CalculateWinner(r.board);
      r.winner == Won(w.winner.value) && r.winningLine == w.line
      && Completed(r.board, r.winningLine.value)
      && r.currentPlayer == s.currentPlayer
    ensures CalculateWinner(s.board).line.None? ==>
      var r := Move(s, index);
      r.winner == Won(s.currentPlayer)
      && index in {r.winningLine.value.a, r.winningLine.value.b, r.winningLine.value.c}
  {
    var b' := s.board[index := Some(s.currentPlayer)];
    var w := CalculateWinner(b');
    WinnerSound(b');
    var j :| 0 <= j < |Lines| && w.line.value == Lines[j] && Completed(b', Lines[j]);
    if CalculateWinner(s.board).line.None? {
      MoverWins(s.board, index, s.currentPlayer);
    }
  }

  /**
   * An accepted move that completes no line and fills the board is a draw;
   * the turn and the recorded line stay as they were.
   */
  lemma MoveDraws(s: GameState, index: int)
    requires |s.board| == Size && 0 <= index < Size
    requires s.board[index].None? && s.winner == Nobody
    requires forall j :: 0 <= j < |Lines| ==> !Completed(s.board[index := Some(s.currentPlayer)], Lines[j])
    requires Full(s.board[index := Some(s.currentPlayer)])
    ensures var r := Move(s, index);
      r.winner == Draw && r.winningLine == s.winningLine && r.currentPlayer == s.currentPlayer
  {
  }

  /**
   * An accepted move that completes no line and leaves a cell empty keeps
   * the game going and passes the turn to the other player.
   */
  lemma MoveContinues(s: GameState, index: int)
    requires |s.board| == Size && 0 <= index < Size
    requires s.board[index].None? && s.winner == Nobody
    requires forall j :: 0 <= j < |Lines| ==> !Completed(s.board[index := Some(s.currentPlayer)], Lines[j])
    requires !Full(s.board[index := Some(s.currentPlayer)])
    ensures var r := Move(s, index);
      r.winner == Nobody && r.winningLine == s.winningLine && r.currentPlayer == Other(s.currentPlayer)
  {
  }

  // ---------------------------------------------------------------------
  // Reachable states

  lemma InitialConsistent()
    ensures Consistent(Initial)
  {
    assert Count(EmptyBoard, X) == 0 && Count(EmptyBoard, O) == 0;
    assert !Full(EmptyBoard) by { assert EmptyBoard[0].None?; }
    assert CalculateWinner(EmptyBoard) == WinResult(None, None);
  }

  /** Every move, accepted or not, keeps a consistent state consistent. */
  lemma {:induction false} MovePreservesConsistent(s: GameState, index: int)
    requires Consistent(s) && 0 <= index < Size
    ensures Consistent(Move(s, index))
  {
    if s.board[index].None? && s.winner == Nobody {
      var p := s.currentPlayer;
      var b' := s.board[index := Some(p)];
      CountPlace(s.board, index, p, X);
      CountPlace(s.board, index, p, O);
      MoverWins(s.board, index, p);
    }
  }

  /** Every state reached by play from a new game is consistent. */
  lemma {:induction false} PlayConsistent(moves: seq<int>)
    requires ValidMoves(moves)
    ensures Consistent(Play(moves))
  {
    if moves == [] {
      InitialConsistent();
    } else {
      var prefix := moves[..|moves| - 1];
      PlayConsistent(prefix);
      MovePreservesConsistent(Play(prefix), moves[|moves| - 1]);
    }
  }

  /**
   * X is never behind O and never more than one ahead; while the game is in
   * progress, X is to move exactly when the counts are level.
   */
  lemma PlayAlternates(moves: seq<int>)
    requires ValidMoves(moves)
    ensures var s := Play(moves);
      var lead := Count(s.board, X) - Count(s.board, O);
      (lead == 0 || lead == 1)
      && (s.winner == Nobody ==> (lead == 0 <==> s.currentPlayer == X))
  {
    PlayConsistent(moves);
  }

  /** The winning line is recorded exactly when a player has won, and it is a completed line of the winner. */
  lemma PlayWinningLine(moves: seq<int>)
    requires ValidMoves(moves)
    ensures var s := Play(moves);
      (s.winningLine.Some? <==> s.winner.Won?)
      && (s.winner.Won? ==>
            s.winningLine.value in Lines
            && Completed(s.board, s.winningLine.value)
            && s.board[s.winningLine.value.a] == Some(s.winner.player))
  {
    PlayConsistent(moves);
    var s := Play(moves);
    if s.winner.Won? {
      var w := CalculateWinner(s.board);
      WinnerSound(s.board);
      var j :| 0 <= j < |Lines| && w.line.value == Lines[j]
        && Completed(s.board, Lines[j]) && s.board[Lines[j].a] == w.winner;
    }
  }

  /** A drawn game is always ended by X: X holds five cells, O four. */
  lemma PlayDrawEndsWithX(moves: seq<int>)
    requires ValidMoves(moves)
    requires Play(moves).winner == Draw
    ensures var s := Play(moves);
      s.currentPlayer == X && Count(s.board, X) == 5 && Count(s.board, O) == 4
  {
    PlayConsistent(moves);
    CountFull(Play(moves).board);
  }

  /** Once the game has ended, further moves change nothing. */
  lemma {:induction false} PlayTerminalAbsorbs(moves: seq<int>, more: seq<int>)
    requires ValidMoves(moves) && ValidMoves(more)
    requires Play(moves).winner != Nobody
    ensures ValidMoves(moves + more) && Play(moves + more) == Play(moves)
  {
    assert ValidMoves(moves + more) by {
      forall k | 0 <= k < |moves + more| ensures 0 <= (moves + more)[k] < Size {
        if k >= |moves| { assert (moves + more)[k] == more[k - |moves|]; }
      }
    }
    if more != [] {
      var init := more[..|more| - 1];
      assert (moves + more)[..|moves + more| - 1] == moves + init;
      PlayTerminalAbsorbs(moves, init);
    } else {
      assert moves + more == moves;
    }
  }

  // ---------------------------------------------------------------------
  // The store

  /** The store: its fields are replaced by the `makeMove` and `resetGame` actions. */
  class GameStore {
    var board: Board
    var currentPlayer: Player
    var winner: Winner
    var winningLine: Option<Triple>

    function State(): GameState
      reads this
    {
      GameState(board, currentPlayer, winner, winningLine)
    }

    ghost predicate Valid()
      reads this
    {
      Consistent(State())
    }

    /** A new store holds the initial state. */
    constructor ()
      ensures Valid() && State() == Initial
    {
      board, currentPlayer, winner, winningLine := EmptyBoard, X, Nobody, None;
      InitialConsistent();
    }

    /**
     * The `makeMove` action: the new state is `Move` of the old one, and a
     * consistent store stays consistent.
     */
    method MakeMove(index: int)
      requires |board| == Size && 0 <= index < Size
      modifies this
      ensures State() == Move(old(State()), index)
      ensures old(Valid()) ==> Valid()
    {
      if Valid() {
        MovePreservesConsistent(State(), index);
      }
      if board[index].Some? || winner != Nobody {
        return;
      }
      var newBoard := board[index := Some(currentPlayer)];
      var result := CalculateWinner(newBoard);
      if result.winner.Some? {
        board, winner, winningLine := newBoard, Won(result.winner.value), result.line;
        return;
      }
      var isDraw := Full(newBoard);
      if isDraw {
        board, winner := newBoard, Draw;
        return;
      }
      board, currentPlayer := newBoard, Other(currentPlayer);
    }

    /** The `resetGame` action: the initial state, whatever came before. */
    method ResetGame()
      modifies this
      ensures Valid() && State() == Initial
    {
      board, currentPlayer, winner, winningLine := Initial.board, Initial.currentPlayer, Initial.winner, Initial.winningLine;
      InitialConsistent();
    }
  }
}
