/**
 * The server's one shared game state and the three operations that change
 * it: a move, the winner check a move ends with, and a reset. The state is
 * an object whose fields the operations update in place; each operation is
 * proved to do what the pure rules in Rules say.
 */
module Server {
  import opened Wrappers
  import opened Commands
  import opened Board
  import opened Rules

  /** The contents of a two-dimensional array as a sequence of rows. */
  ghost function Contents(a: array2<string>): (g: Grid)
    reads a
    ensures |g| == a.Length0
    ensures forall r :: 0 <= r < |g| ==> |g[r]| == a.Length1
    ensures forall r, c :: 0 <= r < a.Length0 && 0 <= c < a.Length1 ==> g[r][c] == a[r, c]
  {
    seq(a.Length0, r requires 0 <= r < a.Length0 reads a =>
      seq(a.Length1, c requires 0 <= r < a.Length0 && 0 <= c < a.Length1 reads a => a[r, c]))
  }

  /**
   * A scan of the array for a cell starting with an owner's name and a dash
   * succeeds exactly when that owner has a piece on the board.
   */
  lemma ContentsScan(a: array2<string>, prefix: string)
    ensures forall o :: prefix == Name(o) + "-" ==>
      ((exists r, c :: 0 <= r < a.Length0 && 0 <= c < a.Length1 && a[r, c] != "" && prefix <= a[r, c])
       <==> OwnedBy(Contents(a), o) != {})
  {
    var g := Contents(a);
    forall o | prefix == Name(o) + "-"
      ensures (exists r, c :: 0 <= r < a.Length0 && 0 <= c < a.Length1 && a[r, c] != "" && prefix <= a[r, c])
        <==> OwnedBy(g, o) != {}
    {
      OwnerScan(g, o);
      if exists r, c :: 0 <= r < a.Length0 && 0 <= c < a.Length1 && a[r, c] != "" && prefix <= a[r, c] {
        var r, c :| 0 <= r < a.Length0 && 0 <= c < a.Length1 && a[r, c] != "" && prefix <= a[r, c];
        assert g[r][c] == a[r, c];
      }
      if exists r, c :: 0 <= r < |g| && 0 <= c < |g[r]| && g[r][c] != "" && prefix <= g[r][c] {
        var r, c :| 0 <= r < |g| && 0 <= c < |g[r]| && g[r][c] != "" && prefix <= g[r][c];
        assert g[r][c] == a[r, c];
      }
    }
  }

  class GameState {
    var grid: array2<string>
    var currentPlayer: Owner
    var moveHistory: seq<string>
    var winner: Option<Owner>

    /** The board as a value: row r, column c is grid[r, c]. */
    ghost function Cells(): (g: Grid)
      reads this`grid, grid
      ensures |g| == grid.Length0
      ensures forall r :: 0 <= r < |g| ==> |g[r]| == grid.Length1
      ensures forall r, c :: 0 <= r < grid.Length0 && 0 <= c < grid.Length1 ==> g[r][c] == grid[r, c]
    {
      Contents(grid)
    }

    /** The whole state as a value, as it is sent to a client. */
    ghost function Snapshot(): State
      reads this, grid
    {
      State(Cells(), currentPlayer, moveHistory, winner)
    }

    /** The object invariant: a 5x5 grid and a consistent state. */
    ghost predicate Valid()
      reads this, grid
    {
      grid.Length0 == Rows && grid.Length1 == Cols && Consistent(Snapshot())
    }

    /** The state the server starts with. */
    constructor ()
      ensures Valid() && fresh(grid)
      ensures Snapshot() == Initial()
    {
      grid := new string[Rows, Cols]((r, c) requires 0 <= r < Rows && 0 <= c < Cols => InitialGrid[r][c]);
      currentPlayer := A;
      moveHistory := [];
      winner := None;
      new;
      assert Cells() == InitialGrid by {
        SameCells(Cells(), InitialGrid);
      }
      assert Snapshot() == Initial();
      assert Consistent(Snapshot());
    }

    /** A new game: a fresh initial board, A to move, an empty log and no winner, whatever came before. */
    method ResetGameState()
      modifies this
      ensures Valid() && fresh(grid)
      ensures Snapshot() == Initial()
    {
      grid := new string[Rows, Cols]((r, c) requires 0 <= r < Rows && 0 <= c < Cols => InitialGrid[r][c]);
      currentPlayer := A;
      moveHistory := [];
      winner := None;
      assert Cells() == InitialGrid by {
        SameCells(Cells(), InitialGrid);
      }
      assert Snapshot() == Initial();
      assert Consistent(Snapshot());
    }

    /**
     * Whether some cell holds an id that starts with `prefix`; for an owner's
     * name and a dash, exactly whether that owner still has a piece on the board.
     */
    predicate AnyCellStartsWith(prefix: string)
      reads this, grid
      ensures forall o :: prefix == Name(o) + "-" ==> (AnyCellStartsWith(prefix) <==> OwnedBy(Cells(), o) != {})
    {
      ContentsScan(grid, prefix);
      exists r, c :: 0 <= r < grid.Length0 && 0 <= c < grid.Length1 && grid[r, c] != "" && prefix <= grid[r, c]
    }

    /** Sets the winner from the owners that still have a piece on the board. */
    method CheckWinCondition()
      requires grid.Length0 == Rows && grid.Length1 == Cols
      modifies this`winner
      ensures winner == WinnerOf(Cells()) && Cells() == old(Cells())
    {
      var playerAExists := AnyCellStartsWith("A-");
      var playerBExists := AnyCellStartsWith("B-");
      assert playerAExists <==> OwnedBy(Cells(), A) != {} by {
        assert Name(A) + "-" == "A-";
      }
      assert playerBExists <==> OwnedBy(Cells(), B) != {} by {
        assert Name(B) + "-" == "B-";
      }
      if !playerAExists {
        winner := Some(B);
        return;
      }
      if !playerBExists {
        winner := Some(A);
        return;
      }
      winner := None;
    }

    /** The nested row/column scan for the cell holding `character`, stopping at the first one. */
    method LocatePiece(character: string) returns (pos: Option<(nat, nat)>)
      requires grid.Length0 == Rows && grid.Length1 == Cols
      ensures pos == Locate(Cells(), character)
    {
      pos := None;
      var row := 0;
      while row < grid.Length0
        invariant 0 <= row <= grid.Length0
        invariant pos == None
        invariant forall i, j :: 0 <= i < row && 0 <= j < grid.Length1 ==> grid[i, j] != character
      {
        var col := 0;
        while col < grid.Length1
          invariant 0 <= col <= grid.Length1
          invariant pos == None
          invariant forall j :: 0 <= j < col ==> grid[row, j] != character
        {
          if grid[row, col] == character {
            pos := Some((row, col));
            break;
          }
          col := col + 1;
        }
        if pos.Some? {
          break;
        }
        row := row + 1;
      }
      LocateDetermined(Cells(), character, pos);
    }

    /**
     * The destination of a move of a piece of kind `charType` at (charRow, charCol):
     * the row and column start at the piece's and each direction branch shifts them.
     */
    static method NewPosition(player: string, charType: string, direction: Option<string>, charRow: int, charCol: int)
      returns (newRow: int, newCol: int)
      ensures (newRow - charRow, newCol - charCol) == Displacement(player, Some(charType), direction)
    {
      newRow, newCol := charRow, charCol;
      if "P" <= charType {
        if direction == Some("L") { newCol := newCol - 1; }
        else if direction == Some("R") { newCol := newCol + 1; }
        else if direction == Some("F") { newRow := newRow + (if player == "A" then 1 else -1); }
        else if direction == Some("B") { newRow := newRow + (if player == "A" then -1 else 1); }
      } else if charType == "H1" {
        if direction == Some("L") { newCol := newCol - 2; }
        else if direction == Some("R") { newCol := newCol + 2; }
        else if direction == Some("F") { newRow := newRow + (if player == "A" then 2 else -2); }
        else if direction == Some("B") { newRow := newRow + (if player == "A" then -2 else 2); }
      } else if charType == "H2" {
        if direction == Some("FL") { newRow := newRow + (if player == "A" then 2 else -2); newCol := newCol - 2; }
        else if direction == Some("FR") { newRow := newRow + (if player == "A" then 2 else -2); newCol := newCol + 2; }
        else if direction == Some("BL") { newRow := newRow + (if player == "A" then -2 else 2); newCol := newCol - 2; }
        else if direction == Some("BR") { newRow := newRow + (if player == "A" then -2 else 2); newCol := newCol + 2; }
      }
    }

    /** Empties the piece's cell and puts the piece on its destination, removing whatever stood there. */
    method MovePiece(character: string, charRow: nat, charCol: nat, newRow: nat, newCol: nat)
      requires grid.Length0 == Rows && grid.Length1 == Cols
      requires charRow < Rows && charCol < Cols && newRow < Rows && newCol < Cols
      modifies grid
      ensures Cells() == Put(Put(old(Cells()), charRow, charCol, ""), newRow, newCol, character)
    {
      ghost var after := Put(Put(Cells(), charRow, charCol, ""), newRow, newCol, character);
      grid[charRow, charCol] := "";
      grid[newRow, newCol] := character;
      SameCells(Cells(), after);
    }

    /** Logs the move and hands the turn to the other player (the mover is the player to move). */
    method PassTurn(cmd: Command)
      requires cmd.player == Name(currentPlayer)
      modifies this`moveHistory, this`currentPlayer
      ensures moveHistory == old(moveHistory) + [HistoryEntry(cmd)]
      ensures currentPlayer == Other(old(currentPlayer))
      ensures Cells() == old(Cells())
    {
      moveHistory := moveHistory + [HistoryEntry(cmd)];
      currentPlayer := if cmd.player == "A" then B else A;
    }

    /**
     * The accepted-move half of a move: move the piece, log the move, hand
     * the turn over and recheck the winner.
     */
    method ExecuteMove(cmd: Command, charRow: nat, charCol: nat, newRow: nat, newCol: nat) returns (result: Outcome)
      requires grid.Length0 == Rows && grid.Length1 == Cols
      requires charRow < Rows && charCol < Cols && newRow < Rows && newCol < Cols
      requires cmd.player == Name(currentPlayer)
      modifies this, grid
      ensures grid == old(grid)
      ensures Cells() == Put(Put(old(Cells()), charRow, charCol, ""), newRow, newCol, cmd.character)
      ensures currentPlayer == Other(old(currentPlayer))
      ensures moveHistory == old(moveHistory) + [HistoryEntry(cmd)]
      ensures winner == WinnerOf(Cells())
      ensures result == (if winner.Some? then Win else Ok)
    {
      MovePiece(cmd.character, charRow, charCol, newRow, newCol);
      PassTurn(cmd);
      CheckWinCondition();
      result := if winner.Some? then Win else Ok;
    }

    /**
     * The validation half of a move for the player to move: find the piece,
     * compute its destination, and refuse a destination off the board or
     * holding one of the mover's own pieces. Returns the origin and the
     * destination of an allowed move. `move` is the command `cmd` was parsed from.
     */
    method ValidateMove(cmd: Command, ghost move: string) returns (dest: Option<(nat, nat, nat, nat)>)
      requires grid.Length0 == Rows && grid.Length1 == Cols && WellFormed(Cells())
      requires cmd == ParseMove(move) && cmd.player == Name(currentPlayer)
      ensures dest == Destination(Cells(), cmd)
    {
      var pos := LocatePiece(cmd.character);
      if pos.None? {
        return None;
      }
      var (charRow, charCol) := pos.value;

      FoundPieceHasKind(Cells(), move, currentPlayer);
      var newRow, newCol := NewPosition(cmd.player, cmd.charType.value, cmd.direction, charRow, charCol);
      DestinationFrom(Cells(), cmd, charRow, charCol, newRow, newCol);

      if newRow < 0 || newRow >= grid.Length0 || newCol < 0 || newCol >= grid.Length1 {
        return None;
      }

      var targetCell := grid[newRow, newCol];
      if targetCell != "" && cmd.player <= targetCell {
        return None;
      }
      return Some((charRow, charCol, newRow, newCol));
    }

    /**
     * Performs the move command `move` on the shared state in place and
     * returns its classification, exactly as Rules.Resolve describes it.
     */
    method ValidateAndExecuteMove(move: string) returns (result: Outcome)
      requires Valid()
      modifies this, grid
      ensures Valid() && grid == old(grid)
      ensures (result, Snapshot()) == Resolve(old(Snapshot()), move)
    {
      ghost var before := Snapshot();
      var cmd := ParseMove(move);

      if cmd.player != Name(currentPlayer) {
        return WrongPlayer;
      }

      var dest := ValidateMove(cmd, move);
      if dest.None? {
        return Invalid;
      }
      var (charRow, charCol, newRow, newCol) := dest.value;

      ghost var after := Put(Put(before.grid, charRow, charCol, ""), newRow, newCol, cmd.character);
      result := ExecuteMove(cmd, charRow, charCol, newRow, newCol);
      assert Snapshot() == State(after, Other(before.currentPlayer), before.moveHistory + [HistoryEntry(cmd)], WinnerOf(after));
      ResolveKeepsConsistent(before, move);
      assert Consistent(Snapshot());
    }
  }
}
