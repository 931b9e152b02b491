/** The page's game controller: the three global variables it keeps and the
    operations that update them in place. ToggleTurn, HandleCellClick and
    ResetGame are proved to move the state as Rules.Toggle, Rules.Click and
    Rules.Reset say; UpdateGameStatus only sets the status. */
module Main {
  import opened Constants
  import opened Rules

  class Controller {
    var currentTurn: Turn
    var gameStatus: Status
    var cellValues: array<Cell>

    ghost predicate Valid()
      reads this
    {
      cellValues.Length == BoardSize
    }

    /** The controller's state as a value. */
    ghost function State(): Game
      reads this, cellValues
    {
      Game(currentTurn, gameStatus, cellValues[..])
    }

    /** The globals as declared: CROSS to move, PLAYING, nine blank cells. */
    constructor ()
      ensures Valid() && fresh(cellValues)
      ensures State() == Initial()
      ensures Balanced(State())
    {
      currentTurn := Cross;
      gameStatus := Playing;
      cellValues := new Cell[BoardSize](_ => Empty);
      new;
      InitialBalanced();
    }

    method ToggleTurn()
      modifies this`currentTurn
      ensures currentTurn == Toggle(old(currentTurn))
    {
      currentTurn := if currentTurn == Circle then Cross else Circle;
    }

    method UpdateGameStatus(newGameStatus: Status)
      modifies this`gameStatus
      ensures gameStatus == newGameStatus
    {
      gameStatus := newGameStatus;
    }

    /** A click on cell `index`. The board is updated in place (the same
        array), and the result says whether the call throws from
        highlightWinCells after the state has been updated. */
    method HandleCellClick(index: nat, checkGameStatus: Board -> Verdict) returns (outcome: Outcome)
      requires Valid() && index < BoardSize
      modifies this, cellValues
      ensures Valid() && cellValues == old(cellValues)
      ensures State() == Click(old(State()), index, checkGameStatus)
      ensures outcome == ClickOutcome(old(State()), index, checkGameStatus)
      ensures Balanced(old(State())) ==> Balanced(State())
    {
      ghost var before := State();
      var isClicked := cellValues[index] != Empty;
      var isEndGame := gameStatus != Playing;
      if isClicked || isEndGame {
        return Pass;
      }
      cellValues[index] := if currentTurn == Circle then O else X;
      ToggleTurn();
      var game := checkGameStatus(cellValues[..]);
      match game.status {
        case Ended =>
          UpdateGameStatus(game.status);
          outcome := Pass;
        case OWin | XWin =>
          UpdateGameStatus(game.status);
          outcome := HighlightWinCells(game.winPositions);
        case Playing =>
          outcome := Pass;
      }
      assert cellValues[..] == before.cells[index := Mark(before.turn)];
      if Balanced(before) {
        ClickKeepsBalance(before, index, checkGameStatus);
      }
    }

    /** The replay button: back to CROSS, PLAYING and a blank board of the
        same length, held in a new array. */
    method ResetGame()
      requires Valid()
      modifies this
      ensures Valid() && fresh(cellValues)
      ensures State() == Reset(old(State()))
      ensures State() == Initial() && Balanced(State())
    {
      currentTurn := Cross;
      gameStatus := Playing;
      cellValues := new Cell[cellValues.Length](_ => Empty);
      UpdateGameStatus(Playing);
      ResetBalanced(State());
    }
  }
}
