/**
 * Concrete games played from a new game, one move at a time.  Each lemma
 * names the state before and after its moves; the intermediate states are
 * spelled out in the proofs.
 */
module Scenarios {
  import opened TicTacToe

  const e: Option<Player> := None
  const x: Option<Player> := Some(X)
  const o: Option<Player> := Some(O)

  /** X has taken 0 and 3, O has taken 1; O to move. */
  const ColumnOpening := GameState([x, o, e, x, e, e, e, e, e], O, Nobody, None)

  /** X has taken 0 and 2, O has taken 1; O to move. */
  const CornerOpening := GameState([x, o, x, e, e, e, e, e, e], O, Nobody, None)

  /** After O 3, X 4, O 5 from the corner opening; X to move. */
  const DiagonalMiddle := GameState([x, o, x, o, x, o, e, e, e], X, Nobody, None)

  /** After O 4, X 3, O 5 from the corner opening; X to move. */
  const BlockedMiddle := GameState([x, o, x, x, o, o, e, e, e], X, Nobody, None)

  /** After X 7, O 6 from the blocked middle; X to move, one cell left. */
  const BlockedLate := GameState([x, o, x, x, o, o, o, x, e], X, Nobody, None)

  /** X has taken 1 and 2, O has taken 4; O to move. */
  const EdgeOpening := GameState([e, x, x, e, o, e, e, e, e], O, Nobody, None)

  /** After O 5, X 3, O 7 from the edge opening; X to move, no line completed. */
  const EdgeMiddle := GameState([e, x, x, x, o, o, e, o, e], X, Nobody, None)

  lemma ColumnGameOpens()
    ensures Move(Move(Move(Initial, 0), 1), 3) == ColumnOpening
  {
    assert Move(Initial, 0) == GameState([x, e, e, e, e, e, e, e, e], O, Nobody, None);
    assert Move(Move(Initial, 0), 1) == GameState([x, o, e, e, e, e, e, e, e], X, Nobody, None);
  }

  /** O takes 4, then X completes the left column 0, 3, 6 and keeps the turn. */
  lemma ColumnGameWon()
    ensures Move(Move(ColumnOpening, 4), 6)
      == GameState([x, o, e, x, o, e, x, e, e], X, Won(X), Some(Triple(0, 3, 6)))
  {
    assert Move(ColumnOpening, 4) == GameState([x, o, e, x, o, e, e, e, e], X, Nobody, None);
  }

  lemma CornerGameOpens()
    ensures Move(Move(Move(Initial, 0), 1), 2) == CornerOpening
  {
    assert Move(Initial, 0) == GameState([x, e, e, e, e, e, e, e, e], O, Nobody, None);
    assert Move(Move(Initial, 0), 1) == GameState([x, o, e, e, e, e, e, e, e], X, Nobody, None);
  }

  lemma DiagonalGameContinues()
    ensures Move(Move(Move(CornerOpening, 3), 4), 5) == DiagonalMiddle
  {
    assert Move(CornerOpening, 3) == GameState([x, o, x, o, e, e, e, e, e], X, Nobody, None);
    assert Move(Move(CornerOpening, 3), 4) == GameState([x, o, x, o, x, e, e, e, e], O, Nobody, None);
  }

  /**
   * X 7, O 6, X 8 fills the board, but X's last move also completes the
   * diagonal 0, 4, 8: a win is settled before a draw is considered.
   */
  lemma DiagonalGameWonOnFullBoard()
    ensures Move(Move(Move(DiagonalMiddle, 7), 6), 8)
      == GameState([x, o, x, o, x, o, o, x, x], X, Won(X), Some(Triple(0, 4, 8)))
  {
    assert Move(DiagonalMiddle, 7) == GameState([x, o, x, o, x, o, e, x, e], O, Nobody, None);
    assert Move(Move(DiagonalMiddle, 7), 6) == GameState([x, o, x, o, x, o, o, x, e], X, Nobody, None);
  }

  lemma BlockedGameContinues()
    ensures Move(Move(Move(CornerOpening, 4), 3), 5) == BlockedMiddle
  {
    assert Move(CornerOpening, 4) == GameState([x, o, x, e, o, e, e, e, e], X, Nobody, None);
    assert Move(Move(CornerOpening, 4), 3) == GameState([x, o, x, x, o, e, e, e, e], O, Nobody, None);
  }

  lemma BlockedGameGoesOn()
    ensures Move(Move(BlockedMiddle, 7), 6) == BlockedLate
  {
    var late := [x, o, x, x, o, o, o, x, e];
    assert Move(BlockedMiddle, 7) == GameState([x, o, x, x, o, o, e, x, e], O, Nobody, None);
    assert [x, o, x, x, o, o, e, x, e][6 := o] == late;
    assert !Full(late) by { assert late[8].None?; }
  }

  /** X 8 fills the board with no line completed: a draw, X still current, no line. */
  lemma BlockedGameDrawn()
    ensures Move(BlockedLate, 8) == GameState([x, o, x, x, o, o, o, x, x], X, Draw, None)
  {
    var full := [x, o, x, x, o, o, o, x, x];
    assert BlockedLate.board[8 := x] == full;
    assert Full(full);
  }

  lemma EdgeGameOpens()
    ensures Move(Move(Move(Initial, 1), 4), 2) == EdgeOpening
  {
    assert Move(Initial, 1) == GameState([e, x, e, e, e, e, e, e, e], O, Nobody, None);
    assert Move(Move(Initial, 1), 4) == GameState([e, x, e, e, o, e, e, e, e], X, Nobody, None);
  }

  lemma EdgeGameContinues()
    ensures Move(Move(Move(EdgeOpening, 5), 3), 7) == EdgeMiddle
  {
    assert Move(EdgeOpening, 5) == GameState([e, x, x, e, o, o, e, e, e], X, Nobody, None);
    assert Move(Move(EdgeOpening, 5), 3) == GameState([e, x, x, x, o, o, e, e, e], O, Nobody, None);
  }

  /**
   * X 6, O 8, X 0: X's last move completes both the top row 0, 1, 2 and the
   * left column 0, 3, 6.  Rows are scanned before columns, so the row is
   * the recorded line.
   */
  lemma EdgeGameWonOnTwoLines()
    ensures Move(Move(Move(EdgeMiddle, 6), 8), 0)
      == GameState([x, x, x, x, o, o, x, o, o], X, Won(X), Some(Triple(0, 1, 2)))
  {
    assert Move(EdgeMiddle, 6) == GameState([e, x, x, x, o, o, x, o, e], O, Nobody, None);
    assert Move(Move(EdgeMiddle, 6), 8) == GameState([e, x, x, x, o, o, x, o, o], X, Nobody, None);
  }

  /** A second move on the same cell is ignored: cell 0 stays X and O stays to move. */
  lemma RepeatedCellIgnored()
    ensures Move(Move(Initial, 0), 0) == GameState([x, e, e, e, e, e, e, e, e], O, Nobody, None)
  {
    assert Move(Initial, 0) == GameState([x, e, e, e, e, e, e, e, e], O, Nobody, None);
  }
}
