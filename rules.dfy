/** The controller's state machine as pure functions over a snapshot of its
    three global variables, with the properties the controller promises.
    The board evaluator is a parameter everywhere: nothing here depends on
    how it decides, only on how the controller reacts to its verdict. */
module Rules {
  import opened Constants

  /** A snapshot of currentTurn, gameStatus and cellValues. */
  datatype Game = Game(turn: Turn, status: Status, cells: Board)

  /** An event the page can deliver: a click on cell `index`, or a click on
      the replay button. */
  datatype Event = CellClick(index: nat) | ReplayClick

  predicate WellFormed(g: Game) {
    |g.cells| == BoardSize
  }

  /** The state the globals are declared with. */
  function Initial(): (g: Game)
    ensures WellFormed(g)
    ensures g.turn == Cross && g.status == Playing
    ensures forall i :: 0 <= i < |g.cells| ==> g.cells[i] == Empty
  {
    Game(Cross, Playing, seq(BoardSize, _ => Empty))
  }

  /** toggleTurn: the turn passes to the other player. */
  function Toggle(t: Turn): (r: Turn)
    ensures r != t
  {
    if t == Circle then Cross else Circle
  }

  lemma ToggleTwice(t: Turn)
    ensures Toggle(Toggle(t)) == t
  {
  }

  /** The symbol a move writes for the player to move: 'O' for CIRCLE,
      'X' for anything else. */
  function Mark(t: Turn): (c: Cell)
    ensures c != Empty
    ensures c == O <==> t == Circle
  {
    if t == Circle then O else X
  }

  /** The guard of handleCellClick: the cell is still free and the game
      is still being played. So a game that is over, or a full board,
      accepts no click. */
  predicate Accepts(g: Game, index: nat)
    requires WellFormed(g) && index < BoardSize
    ensures g.status != Playing ==> !Accepts(g, index)
    ensures Filled(g.cells) == |g.cells| ==> !Accepts(g, index)
  {
    CountAt(g.cells, index, Empty);
    g.cells[index] == Empty && g.status == Playing
  }

  /** The switch on the evaluator's status: ENDED, O_WIN and X_WIN are
      stored, anything else leaves the status as it was. */
  function Settle(current: Status, reported: Status): (r: Status)
    ensures reported in {Ended, XWin, OWin} ==> r == reported
    ensures reported == Playing ==> r == current
  {
    match reported
    case Ended | OWin | XWin => reported
    case Playing => current
  }

  /** handleCellClick on the state: ignored unless accepted; otherwise the
      cell gets the current player's mark, the turn flips, and the
      evaluator's verdict on the new board decides the status. */
  function Click(g: Game, index: nat, checkGameStatus: Board -> Verdict): (r: Game)
    requires WellFormed(g) && index < BoardSize
    ensures WellFormed(r)
  {
    if !Accepts(g, index) then g
    else
      var cells := g.cells[index := Mark(g.turn)];
      var verdict := checkGameStatus(cells);
      Game(Toggle(g.turn), Settle(g.status, verdict.status), cells)
  }

  /** highlightWinCells's guard: anything but an array of exactly three
      positions throws. */
  function HighlightWinCells(winPositions: Option<seq<int>>): (r: Outcome)
    ensures r.Pass? <==> winPositions.Some? && |winPositions.value| == 3
    ensures r.Fail? ==> r.error == InvalidPositions
  {
    match winPositions
    case None => Fail(InvalidPositions)
    case Some(positions) => if |positions| != 3 then Fail(InvalidPositions) else Pass
  }

  /** Whether handleCellClick returns normally or throws: it throws exactly
      when an accepted move is reported as a win whose positions are not a
      list of three. */
  function ClickOutcome(g: Game, index: nat, checkGameStatus: Board -> Verdict): (r: Outcome)
    requires WellFormed(g) && index < BoardSize
    ensures r.Fail? <==>
      Accepts(g, index) &&
      var verdict := checkGameStatus(Click(g, index, checkGameStatus).cells);
      (verdict.status == XWin || verdict.status == OWin) &&
      !(verdict.winPositions.Some? && |verdict.winPositions.value| == 3)
    ensures r.Fail? ==> r.error == InvalidPositions
  {
    if !Accepts(g, index) then Pass
    else
      var verdict := checkGameStatus(g.cells[index := Mark(g.turn)]);
      match verdict.status
      case OWin | XWin => HighlightWinCells(verdict.winPositions)
      case Ended | Playing => Pass
  }

  /** resetGame: turn CROSS, status PLAYING, and every cell blanked
      (the board keeps its length). */
  function Reset(g: Game): (r: Game)
    ensures r.turn == Cross && r.status == Playing
    ensures |r.cells| == |g.cells|
    ensures forall i :: 0 <= i < |r.cells| ==> r.cells[i] == Empty
  {
    Game(Cross, Playing, seq(|g.cells|, _ => Empty))
  }

  /** The events a page may deliver: cell clicks carry an index on the board. */
  predicate OnBoard(events: seq<Event>) {
    forall k :: 0 <= k < |events| ==> (events[k].CellClick? ==> events[k].index < BoardSize)
  }

  /** One event, as the listeners dispatch it: a cell click goes to the
      click handler, a replay click to the reset. */
  function Apply(g: Game, e: Event, checkGameStatus: Board -> Verdict): (r: Game)
    requires WellFormed(g)
    requires e.CellClick? ==> e.index < BoardSize
    ensures WellFormed(r)
  {
    match e
    case CellClick(index) => Click(g, index, checkGameStatus)
    case ReplayClick => Reset(g)
  }

  /** The state after a series of events, handled one at a time. */
  function Run(g: Game, events: seq<Event>, checkGameStatus: Board -> Verdict): (r: Game)
    requires WellFormed(g) && OnBoard(events)
    ensures WellFormed(r)
    decreases |events|
  {
    if events == [] then g
    else Run(Apply(g, events[0], checkGameStatus), events[1..], checkGameStatus)
  }

  // ---------------------------------------------------------------------
  // Counting marks

  function Count(cells: Board, c: Cell): (n: nat)
    ensures n <= |cells|
  {
    if cells == [] then 0
    else (if cells[0] == c then 1 else 0) + Count(cells[1..], c)
  }

  /** Overwriting one cell moves one unit of count from the old value to the new one. */
  lemma {:induction false} CountUpdate(cells: Board, i: nat, v: Cell, c: Cell)
    requires i < |cells|
    ensures Count(cells[i := v], c) + (if cells[i] == c then 1 else 0)
         == Count(cells, c) + (if v == c then 1 else 0)
  {
    if i == 0 {
      assert cells[i := v][1..] == cells[1..];
    } else {
      assert cells[i := v][1..] == cells[1..][i - 1 := v];
      CountUpdate(cells[1..], i - 1, v, c);
    }
  }

  /** A value found at some position is counted at least once. */
  lemma {:induction false} CountAt(cells: Board, i: nat, c: Cell)
    requires i < |cells|
    ensures cells[i] == c ==> Count(cells, c) >= 1
  {
    if i > 0 {
      CountAt(cells[1..], i - 1, c);
    }
  }

  lemma {:induction false} CountAllEmpty(n: nat, c: Cell)
    ensures Count(seq(n, _ => Empty), c) == if c == Empty then n else 0
  {
    if n > 0 {
      assert seq(n, _ => Empty)[1..] == seq(n - 1, _ => Empty);
      CountAllEmpty(n - 1, c);
    }
  }

  /** The number of occupied cells. */
  function Filled(cells: Board): (n: nat)
  {
    |cells| - Count(cells, Empty)
  }

  /** X moves first and the players alternate: X has as many marks as O
      and it is X's turn, or X has one more and it is O's turn. */
  predicate Balanced(g: Game) {
    (Count(g.cells, X) == Count(g.cells, O) && g.turn == Cross) ||
    (Count(g.cells, X) == Count(g.cells, O) + 1 && g.turn == Circle)
  }

  // ---------------------------------------------------------------------
  // One click

  /** A click on an occupied cell, or any click once the game is over,
      changes nothing. */
  lemma IgnoredClickIsNoOp(g: Game, index: nat, checkGameStatus: Board -> Verdict)
    requires WellFormed(g) && index < BoardSize
    requires g.cells[index] != Empty || g.status != Playing
    ensures Click(g, index, checkGameStatus) == g
    ensures ClickOutcome(g, index, checkGameStatus) == Pass
  {
  }

  /** An accepted click writes the mover's symbol into the clicked cell
      and into no other. */
  lemma AcceptedClickWritesOneCell(g: Game, index: nat, checkGameStatus: Board -> Verdict)
    requires WellFormed(g) && index < BoardSize && Accepts(g, index)
    ensures var r := Click(g, index, checkGameStatus);
      r.cells[index] == Mark(g.turn) &&
      forall j :: 0 <= j < BoardSize && j != index ==> r.cells[j] == g.cells[j]
  {
  }

  /** An accepted click always hands the turn over, also when it ends the game. */
  lemma AcceptedClickFlipsTurn(g: Game, index: nat, checkGameStatus: Board -> Verdict)
    requires WellFormed(g) && index < BoardSize && Accepts(g, index)
    ensures Click(g, index, checkGameStatus).turn == Toggle(g.turn)
  {
  }

  /** After an accepted click the status is exactly the evaluator's verdict
      on the new board: the game ends precisely when the evaluator says so. */
  lemma AcceptedClickStatus(g: Game, index: nat, checkGameStatus: Board -> Verdict)
    requires WellFormed(g) && index < BoardSize && Accepts(g, index)
    ensures var r := Click(g, index, checkGameStatus);
      r.status == checkGameStatus(r.cells).status
  {
  }

  /** Clicking the same cell twice in a row has the effect of one click. */
  lemma ClickTwiceIsClickOnce(g: Game, index: nat, checkGameStatus: Board -> Verdict)
    requires WellFormed(g) && index < BoardSize
    ensures var once := Click(g, index, checkGameStatus);
      Click(once, index, checkGameStatus) == once
  {
  }

  /** Every accepted click fills exactly one more cell, an ignored one none. */
  lemma ClickFillsOneCell(g: Game, index: nat, checkGameStatus: Board -> Verdict)
    requires WellFormed(g) && index < BoardSize
    ensures Filled(Click(g, index, checkGameStatus).cells)
         == Filled(g.cells) + (if Accepts(g, index) then 1 else 0)
  {
    if Accepts(g, index) {
      CountUpdate(g.cells, index, Mark(g.turn), Empty);
    }
  }

  /** Every click keeps the marks balanced with the turn. */
  lemma ClickKeepsBalance(g: Game, index: nat, checkGameStatus: Board -> Verdict)
    requires WellFormed(g) && index < BoardSize && Balanced(g)
    ensures Balanced(Click(g, index, checkGameStatus))
  {
    if Accepts(g, index) {
      CountUpdate(g.cells, index, Mark(g.turn), X);
      CountUpdate(g.cells, index, Mark(g.turn), O);
    }
  }

  // ---------------------------------------------------------------------
  // Reset

  /** Reset yields the initial state from any well-formed state. */
  lemma ResetIsInitial(g: Game)
    requires WellFormed(g)
    ensures Reset(g) == Initial()
  {
  }

  /** Resetting twice is resetting once. */
  lemma ResetIdempotent(g: Game)
    ensures Reset(Reset(g)) == Reset(g)
  {
  }

  /** The start state is balanced: no marks, CROSS to move. */
  lemma InitialBalanced()
    ensures Balanced(Initial())
    ensures Filled(Initial().cells) == 0
  {
    CountAllEmpty(BoardSize, X);
    CountAllEmpty(BoardSize, O);
    CountAllEmpty(BoardSize, Empty);
  }

  /** Reset restores the balance, whatever the state before. */
  lemma ResetBalanced(g: Game)
    ensures Balanced(Reset(g))
    ensures Filled(Reset(g).cells) == 0
  {
    CountAllEmpty(|g.cells|, X);
    CountAllEmpty(|g.cells|, O);
    CountAllEmpty(|g.cells|, Empty);
  }

  // ---------------------------------------------------------------------
  // Whole sessions

  /** From a balanced state, every series of clicks and replays stays balanced. */
  lemma {:induction false} RunKeepsBalance(g: Game, events: seq<Event>, checkGameStatus: Board -> Verdict)
    requires WellFormed(g) && OnBoard(events) && Balanced(g)
    ensures Balanced(Run(g, events, checkGameStatus))
    decreases |events|
  {
    if events != [] {
      match events[0] {
        case CellClick(index) => ClickKeepsBalance(g, index, checkGameStatus);
        case ReplayClick => ResetBalanced(g);
      }
      RunKeepsBalance(Apply(g, events[0], checkGameStatus), events[1..], checkGameStatus);
    }
  }

  /** Every state reachable from the initial one is balanced. */
  lemma ReachableIsBalanced(events: seq<Event>, checkGameStatus: Board -> Verdict)
    requires OnBoard(events)
    ensures Balanced(Run(Initial(), events, checkGameStatus))
  {
    InitialBalanced();
    RunKeepsBalance(Initial(), events, checkGameStatus);
  }

  /** Once the game is over, clicks on cells change nothing until a replay. */
  lemma {:induction false} OverGameIgnoresClicks(g: Game, events: seq<Event>, checkGameStatus: Board -> Verdict)
    requires WellFormed(g) && OnBoard(events) && g.status != Playing
    requires forall k :: 0 <= k < |events| ==> events[k].CellClick?
    ensures Run(g, events, checkGameStatus) == g
    decreases |events|
  {
    if events != [] {
      IgnoredClickIsNoOp(g, events[0].index, checkGameStatus);
      OverGameIgnoresClicks(g, events[1..], checkGameStatus);
    }
  }

  /** A replay puts any session back to the initial state. */
  lemma ReplayRestarts(g: Game, events: seq<Event>, checkGameStatus: Board -> Verdict)
    requires WellFormed(g) && OnBoard(events + [ReplayClick])
    ensures Run(g, events + [ReplayClick], checkGameStatus) == Initial()
  {
    RunSplit(g, events, [ReplayClick], checkGameStatus);
    ResetIsInitial(Run(g, events, checkGameStatus));
  }

  /** Handling a + b is handling a, then b. */
  lemma {:induction false} RunSplit(g: Game, a: seq<Event>, b: seq<Event>, checkGameStatus: Board -> Verdict)
    requires WellFormed(g) && OnBoard(a + b)
    ensures OnBoard(a) && OnBoard(b)
    ensures Run(g, a + b, checkGameStatus) == Run(Run(g, a, checkGameStatus), b, checkGameStatus)
    decreases |a|
  {
    assert OnBoard(a) by {
      forall k | 0 <= k < |a| ensures (a + b)[k] == a[k] { }
    }
    assert OnBoard(b) by {
      forall k | 0 <= k < |b| ensures (a + b)[|a| + k] == b[k] { }
    }
    if a == [] {
      assert a + b == b;
    } else {
      assert (a + b)[0] == a[0];
      assert (a + b)[1..] == a[1..] + b;
      RunSplit(Apply(g, a[0], checkGameStatus), a[1..], b, checkGameStatus);
    }
  }
}
