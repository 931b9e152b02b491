/** The constants the controller imports from its constants module
    (TURN, CELL_VALUE, GAME_STATUS), as enumerations, and the small
    wrappers the model uses for optional values and thrown errors. */
module Constants {

  /** TURN: whose move it is. There is no third value, so the turn can
      never be "nobody". */
  datatype Turn = Cross | Circle

  /** CELL_VALUE: the content of one board slot ('', 'X' or 'O'). */
  datatype Cell = Empty | X | O

  /** GAME_STATUS: still playing, a draw ("ended"), or a win for X or O. */
  datatype Status = Playing | Ended | XWin | OWin

  /** A board as the evaluator receives it: the nine cells in row-major order. */
  type Board = seq<Cell>

  const BoardSize: nat := 9

  datatype Option<T> = None | Some(value: T)

  /** The result of a call that either returns normally or throws. */
  datatype Outcome = Pass | Fail(error: string)

  /** What the board evaluator reports: a status and, for a win, the
      positions of the winning line (None stands for a value that is not
      an array at all). */
  datatype Verdict = Verdict(status: Status, winPositions: Option<seq<int>>)

  /** The message highlightWinCells throws. */
  const InvalidPositions: string := "Invalid positions!"
}
