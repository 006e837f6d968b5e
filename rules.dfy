/**
 * The game's transition rule as a pure function: from a state and a move
 * command to the classified result and the next state. The class in
 * server.dfy performs it in place and is proved to agree with it.
 */
module Rules {
  import opened Wrappers
  import opened Commands
  import opened Board

  /** What a move returns: `true`, `'win'`, `'wrongPlayer'` or `false`. */
  datatype Outcome = Ok | Win | WrongPlayer | Invalid
  {
    predicate Accepted() { this == Ok || this == Win }
  }

  /** The shared game state: grid, whose turn it is, the log of moves, and the winner (None for null). */
  datatype State = State(grid: Grid, currentPlayer: Owner, moveHistory: seq<string>, winner: Option<Owner>)

  /**
   * The state a game starts from, and the one a reset restores: the layout
   * InitialGrid (all ten pieces, see InitialPieces), A to move, an empty log and no winner.
   * It satisfies the invariant.
   */
  function Initial(): (s: State)
    ensures s.grid == InitialGrid
    ensures s.currentPlayer == A && s.moveHistory == [] && s.winner == None
    ensures Consistent(s)
  {
    InitialWellFormed();
    assert WinnerOf(InitialGrid) == None by {
      assert Name(A) + "-" <= InitialGrid[0][0];
      assert Name(B) + "-" <= InitialGrid[4][0];
      assert HasOwner(InitialGrid, A) && HasOwner(InitialGrid, B);
    }
    State(InitialGrid, A, [], None)
  }

  /** The invariant every state of a game keeps: a well-formed board and a winner that matches it. */
  ghost predicate Consistent(s: State)
  {
    WellFormed(s.grid) && s.winner == WinnerOf(s.grid)
  }

  /** The log line of an accepted move: "<piece> moved <direction>" (an absent direction prints as "undefined"). */
  function HistoryEntry(cmd: Command): (line: string)
    ensures var n := |cmd.character| + |" moved "|;
      && |line| >= n && line[..n] == cmd.character + " moved "
      && (cmd.direction.Some? ==> line[n..] == cmd.direction.value)
      && (cmd.direction.None? ==> line[n..] == "undefined")
  {
    cmd.character + " moved " + (match cmd.direction case Some(d) => d case None => "undefined")
  }

  /** Whether (row, col) lies on the board. */
  predicate OnBoard(row: int, col: int)
  {
    0 <= row < Rows && 0 <= col < Cols
  }

  /**
   * The validation half of a move, for the player to move: the cell the
   * piece stands on and the cell it goes to, or None when the piece is not
   * on the board, the destination is off the board, or the destination holds
   * a piece whose id starts with the mover's name.
   */
  function Destination(g: Grid, cmd: Command): (d: Option<(nat, nat, nat, nat)>)
    requires Shaped(g)
    ensures d.Some? ==> var (row, col, newRow, newCol) := d.value;
      && Locate(g, cmd.character) == Some((row, col))
      && OnBoard(newRow, newCol)
      && (newRow - row, newCol - col) == Displacement(cmd.player, cmd.charType, cmd.direction)
      && (g[newRow][newCol] == "" || !(cmd.player <= g[newRow][newCol]))
    ensures Locate(g, cmd.character).None? ==> d.None?
  {
    match Locate(g, cmd.character)
    case None => None
    case Some((row, col)) =>
      var (dr, dc) := Displacement(cmd.player, cmd.charType, cmd.direction);
      var (newRow, newCol) := (row + dr, col + dc);
      if !OnBoard(newRow, newCol) then None
      else
        var target := g[newRow][newCol];
        if target != "" && cmd.player <= target then None
        else Some((row, col, newRow, newCol))
  }

  /** Destination once the piece has been found at (row, col) and its destination computed. */
  lemma DestinationFrom(g: Grid, cmd: Command, row: nat, col: nat, newRow: int, newCol: int)
    requires Shaped(g) && Locate(g, cmd.character) == Some((row, col))
    requires (newRow - row, newCol - col) == Displacement(cmd.player, cmd.charType, cmd.direction)
    ensures !OnBoard(newRow, newCol) ==> Destination(g, cmd) == None
    ensures OnBoard(newRow, newCol) ==>
      Destination(g, cmd) == if g[newRow][newCol] != "" && cmd.player <= g[newRow][newCol] then None else Some((row, col, newRow as nat, newCol as nat))
  {
  }

  /**
   * One move. A command whose owner prefix is not the current player is
   * refused before the board is looked at, and one Destination refuses is
   * invalid. An accepted move clears the origin, puts the piece on the
   * destination (removing whatever stood there), logs the move, passes the
   * turn and recomputes the winner.
   */
  function Resolve(s: State, move: string): (res: (Outcome, State))
    requires Shaped(s.grid)
    ensures res.0 == WrongPlayer <==> ParseMove(move).player != Name(s.currentPlayer)
    ensures res.0 == Invalid <==>
      ParseMove(move).player == Name(s.currentPlayer) && Destination(s.grid, ParseMove(move)).None?
    ensures !res.0.Accepted() ==> res.1 == s
    ensures res.0.Accepted() ==>
      && Shaped(res.1.grid)
      && res.1.currentPlayer == Other(s.currentPlayer)
      && res.1.moveHistory == s.moveHistory + [HistoryEntry(ParseMove(move))]
      && res.1.winner == WinnerOf(res.1.grid)
      && (res.0 == Win <==> res.1.winner.Some?)
  {
    var cmd := ParseMove(move);
    if cmd.player != Name(s.currentPlayer) then (WrongPlayer, s)
    else
      match Destination(s.grid, cmd)
      case None => (Invalid, s)
      case Some((row, col, newRow, newCol)) =>
        var grid := Put(Put(s.grid, row, col, ""), newRow, newCol, cmd.character);
        var winner := WinnerOf(grid);
        (if winner.Some? then Win else Ok,
         State(grid, Other(s.currentPlayer), s.moveHistory + [HistoryEntry(cmd)], winner))
  }

  /** A piece found on a well-formed board by a command naming a player has a kind (its id has a dash). */
  lemma FoundPieceHasKind(g: Grid, move: string, o: Owner)
    requires WellFormed(g)
    requires ParseMove(move).player == Name(o)
    requires Locate(g, ParseMove(move).character).Some?
    ensures ParseMove(move).charType.Some?
  {
    var cmd := ParseMove(move);
    var (r, c) := Locate(g, cmd.character).value;
    assert cmd.character[0] == cmd.player[0];
    InitialIdsOwned(g[r][c]);
  }

  /**
   * A direction the piece's kind does not define (or a kind with no table)
   * leaves the destination on the piece's own cell, which holds an id
   * starting with the mover's name: the move is refused and nothing changes.
   */
  lemma UnrecognisedDirectionRejected(s: State, move: string)
    requires Shaped(s.grid)
    requires ParseMove(move).player == Name(s.currentPlayer)
    requires Locate(s.grid, ParseMove(move).character).Some?
    requires var cmd := ParseMove(move);
      !(cmd.charType.Some? && cmd.direction.Some? && cmd.direction.value in DirectionsOf(cmd.charType.value))
    ensures Resolve(s, move) == (Invalid, s)
  {
    var cmd := ParseMove(move);
    assert cmd.character != "" by {
      assert |cmd.player| == 1;
    }
  }

  /**
   * What an accepted move does to the board and the log: the origin is the
   * first cell holding the piece id, the destination is the origin moved by
   * the displacement table and lies on the board, the kind recognises the
   * direction, the destination held no piece of the mover's, the origin is
   * emptied, the destination holds the piece, no other cell changes, and the
   * log gains "<piece> moved <direction>" at its end.
   */
  lemma AcceptedMoveCells(s: State, move: string) returns (row: nat, col: nat, newRow: nat, newCol: nat)
    requires Shaped(s.grid) && Resolve(s, move).0.Accepted()
    ensures var cmd := ParseMove(move);
      var (g, g') := (s.grid, Resolve(s, move).1.grid);
      && FirstOccurrence(g, cmd.character, row, col)
      && OnBoard(newRow, newCol) && (newRow != row || newCol != col)
      && newRow == row + Displacement(cmd.player, cmd.charType, cmd.direction).0
      && newCol == col + Displacement(cmd.player, cmd.charType, cmd.direction).1
      && cmd.charType.Some? && cmd.direction.Some? && cmd.direction.value in DirectionsOf(cmd.charType.value)
      && (g[newRow][newCol] == "" || !(cmd.player <= g[newRow][newCol]))
      && g'[row][col] == "" && g'[newRow][newCol] == cmd.character
      && (forall i, j :: OnBoard(i, j) && (i != row || j != col) && (i != newRow || j != newCol) ==> g'[i][j] == g[i][j])
      && Resolve(s, move).1.moveHistory == s.moveHistory + [cmd.character + " moved " + cmd.direction.value]
  {
    var cmd := ParseMove(move);
    var d := Destination(s.grid, cmd).value;
    row, col, newRow, newCol := d.0, d.1, d.2, d.3;
  }

  /**
   * What an accepted move does to the pieces: no piece appears, none of the
   * mover's is lost, and a piece that stood on the destination is captured:
   * it is the opponent's, and it is the one piece that disappears. The
   * board stays well formed.
   */
  lemma AcceptedMovePieces(s: State, move: string) returns (captured: Option<string>)
    requires WellFormed(s.grid) && Resolve(s, move).0.Accepted()
    ensures var (g, g') := (s.grid, Resolve(s, move).1.grid);
      var (mover, opponent) := (s.currentPlayer, Other(s.currentPlayer));
      var lost := if captured.Some? then {captured.value} else {};
      && Destination(g, ParseMove(move)).Some?
      && (var (_, _, newRow, newCol) := Destination(g, ParseMove(move)).value;
          captured == if g[newRow][newCol] == "" then None else Some(g[newRow][newCol]))
      && WellFormed(g')
      && (captured.Some? ==> captured.value in OwnedBy(g, opponent))
      && Pieces(g') == Pieces(g) - lost
      && OwnedBy(g', mover) == OwnedBy(g, mover)
      && OwnedBy(g', opponent) == OwnedBy(g, opponent) - lost
      && |Pieces(g')| == |Pieces(g)| - |lost|
      && |OwnedBy(g', opponent)| == |OwnedBy(g, opponent)| - |lost|
  {
    var cmd := ParseMove(move);
    var g := s.grid;
    var (row, col, newRow, newCol) := Destination(g, cmd).value;
    assert g[row][col] == cmd.character != "" && cmd.player <= g[row][col] by {
      assert |cmd.player| == 1;
    }
    var lost := MoveAccounting(g, row, col, newRow, newCol, s.currentPlayer);
    captured := if lost == {} then None else Some(g[newRow][newCol]);
  }

  /** Every move, accepted or refused, keeps the state invariant. */
  lemma ResolveKeepsConsistent(s: State, move: string)
    requires Consistent(s)
    ensures Consistent(Resolve(s, move).1)
  {
    if Resolve(s, move).0.Accepted() {
      var _ := AcceptedMovePieces(s, move);
    }
  }

  /**
   * The stored winner is never consulted: whatever it says, the same move
   * gets the same result and the same next board, turn and log, so play
   * goes on after a win.
   */
  lemma WinnerNotConsulted(s: State, move: string, w: Option<Owner>)
    requires Shaped(s.grid)
    ensures var (before, after) := (Resolve(s, move), Resolve(s.(winner := w), move));
      && after.0 == before.0
      && after.1.grid == before.1.grid
      && after.1.currentPlayer == before.1.currentPlayer
      && after.1.moveHistory == before.1.moveHistory
      && (before.0.Accepted() ==> after.1 == before.1)
  {
  }

  /** The opening cell of a piece, found by the scan. */
  lemma LocateInitial(r: nat, c: nat)
    requires r < Rows && c < Cols && InitialGrid[r][c] != ""
    ensures Locate(InitialGrid, InitialGrid[r][c]) == Some((r, c))
  {
    InitialWellFormed();
    LocateUniquePiece(InitialGrid, r, c);
  }

  /** A's H2 jumps forward-right by two rows and two columns. */
  lemma ScenarioDisplacement()
    ensures Displacement("A", Some("H2"), Some("FR")) == (2, 2)
  {
    assert "H2"[0] == 'H';
  }

  /** The command "B-P1:F" names B's piece B-P1, of kind P1, stepping forward. */
  lemma StepCommand(move: string)
    requires move == "B-P1:F"
    ensures ParseMove(move) == Command("B-P1", Some("F"), "B", Some("P1"))
  {
    ParseWrittenMove(move, "B", "P1", "F");
  }

  /** At the opening it is A's turn: a command for one of B's pieces is refused as the wrong player's. */
  lemma OpeningWrongPlayer()
    ensures Resolve(Initial(), "B-P1:F") == (WrongPlayer, Initial())
  {
    StepCommand("B-P1:F");
  }

  /** A's H2 starts in column 3 (A-H2 is the fourth id of row 0). */
  lemma InitialH2()
    ensures Locate(InitialGrid, "A-H2") == Some((0, 3))
  {
    LocateInitial(0, 3);
  }

  /** The command "A-H2:FR" names A's piece A-H2, of kind H2, jumping forward-right. */
  lemma JumpCommand(move: string)
    requires move == "A-H2:FR"
    ensures ParseMove(move) == Command("A-H2", Some("FR"), "A", Some("H2"))
  {
    ParseWrittenMove(move, "A", "H2", "FR");
  }

  /**
   * An H2 of A standing in column 3 cannot jump forward-right, since column 5
   * is off the board: on A's turn the command "A-H2:FR" is refused and
   * nothing changes. With InitialH2 this covers the opening position.
   */
  lemma JumpPastEdge(s: State, move: string, row: nat)
    requires Shaped(s.grid) && s.currentPlayer == A && move == "A-H2:FR"
    requires Locate(s.grid, "A-H2") == Some((row, 3))
    ensures Resolve(s, move) == (Invalid, s)
  {
    JumpCommand(move);
    ScenarioDisplacement();
  }

  /** At the opening A's H2 stands in column 3, so "A-H2:FR" is refused. */
  lemma OpeningJumpOffBoard()
    ensures Resolve(Initial(), "A-H2:FR") == (Invalid, Initial())
  {
    InitialH2();
    JumpPastEdge(Initial(), "A-H2:FR", 0);
  }

  /** The command "A-P1:F" names A's piece A-P1, of kind P1, stepping forward. */
  lemma ForwardCommand(move: string)
    requires move == "A-P1:F"
    ensures ParseMove(move) == Command("A-P1", Some("F"), "A", Some("P1"))
  {
    ParseWrittenMove(move, "A", "P1", "F");
  }

  /** A forward step of one of A's P pieces goes one row down the board. */
  lemma ForwardStep()
    ensures Displacement("A", Some("P1"), Some("F")) == (1, 0)
  {
    assert "P" <= "P1";
  }

  /** The log line of that step. */
  lemma ForwardEntry()
    ensures HistoryEntry(Command("A-P1", Some("F"), "A", Some("P1"))) == "A-P1 moved F"
  {
  }

  /** A's P1 starts in the corner (0, 0). */
  lemma InitialP1()
    ensures Locate(InitialGrid, "A-P1") == Some((0, 0)) && InitialGrid[1][0] == ""
  {
    LocateInitial(0, 0);
  }

  /** The board after A-P1 steps from (0, 0) to (1, 0): both players still have pieces, so no one has won. */
  lemma ForwardStepBoard()
    ensures WinnerOf(Put(Put(InitialGrid, 0, 0, ""), 1, 0, "A-P1")) == None
  {
    var g := Put(Put(InitialGrid, 0, 0, ""), 1, 0, "A-P1");
    assert Name(A) + "-" <= g[1][0];
    assert Name(B) + "-" <= g[4][0];
    assert HasOwner(g, A) && HasOwner(g, B);
  }

  /**
   * On A's turn, with A-P1 at (0, 0) and (1, 0) empty, "A-P1:F" is accepted:
   * the piece moves down one row, the turn passes to B and the log gains
   * "A-P1 moved F".
   */
  lemma StepDown(s: State, move: string)
    requires Shaped(s.grid) && s.currentPlayer == A && move == "A-P1:F"
    requires Locate(s.grid, "A-P1") == Some((0, 0)) && s.grid[1][0] == ""
    ensures var g := Put(Put(s.grid, 0, 0, ""), 1, 0, "A-P1");
      Resolve(s, move) == (if WinnerOf(g).Some? then Win else Ok,
                           State(g, B, s.moveHistory + ["A-P1 moved F"], WinnerOf(g)))
  {
    var cmd := Command("A-P1", Some("F"), "A", Some("P1"));
    ForwardCommand(move);
    ForwardStep();
    DestinationFrom(s.grid, cmd, 0, 0, 1, 0);
    ForwardEntry();
  }

  /**
   * The opening move "A-P1:F" is accepted: A-P1 leaves (0, 0) for (1, 0),
   * the turn passes to B, the log reads "A-P1 moved F" and no one has won.
   */
  lemma OpeningForwardStep()
    ensures Resolve(Initial(), "A-P1:F")
         == (Ok, State(Put(Put(InitialGrid, 0, 0, ""), 1, 0, "A-P1"), B, ["A-P1 moved F"], None))
  {
    InitialP1();
    StepDown(Initial(), "A-P1:F");
    ForwardStepBoard();
    assert Initial().moveHistory + ["A-P1 moved F"] == ["A-P1 moved F"];
  }
}
