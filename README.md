# A verified model of the 5x5 board-game server

`server.js` runs a two-player board game on a 5x5 grid. Players A and B each
start with five pieces on their home row: `A-P1 A-P2 A-H1 A-H2 A-P3` on row 0
and `B-P1 B-P2 B-H1 B-H2 B-P3` on row 4. A client sends a move command such as
`A-P1:F` or `A-H2:FR`. The server checks the command against one shared game
state and then either refuses it or applies it. The state holds the grid, the
player to move, the move log and the winner. Applying a move empties the
piece's cell and puts the piece on its destination, capturing whatever stood
there. It then appends "`<piece> moved <direction>`" to the log, passes the
turn and recomputes the winner. A player with no piece left has lost.

This project models that core in Dafny and proves properties of it.

- `wrappers.dfy`: `Option`. None stands for JavaScript's `undefined` and `null`.
- `text.dfy`: the part of `String.prototype.split` that two-name destructuring
  uses, `const [a, b] = s.split(sep)`. It gives the text before the first
  separator and, when there is one, the text up to the next separator.
- `commands.dfy`: parsing a command into piece id, direction, owner and kind.
  It also holds the displacement table of each kind, mirrored for B.
- `board.dfy`: the grid as a value and the initial layout. It defines the
  board invariant: each cell is empty or holds one of the ten ids, and no id
  stands on two cells. It also holds the row-major search for a piece, the
  winner rule, and what moving a piece does to the set of pieces on the board.
- `rules.dfy`: the whole move as a pure function `Resolve` from a state and a
  command to an outcome and the next state, built on `Destination` for the
  validation half. It also holds the lemmas about moves and a few concrete
  positions.
- `server.dfy`: the class `GameState`, whose fields the operations update in
  place. The grid is an `array2<string>`. `ValidateAndExecuteMove` does the
  validation half with `ValidateMove`: a nested-loop search (`LocatePiece`),
  the direction branches (`NewPosition`), then the bounds check and the
  own-piece check. It does the execution half with `ExecuteMove`: the two
  cell writes (`MovePiece`), the log and the turn (`PassTurn`), then
  `CheckWinCondition`. Each method is proved against the pure definitions.
  The top-level method's contract says its result and the new state are
  exactly what `Resolve` gives for the old state. It also says the state
  invariant is kept.

The outcomes `true`, `'win'`, `'wrongPlayer'` and `false` are
`Ok`, `Win`, `WrongPlayer` and `Invalid`.

A's H2 starts in column 3 (`server.js:10`), so `A-H2:FR` from the opening
would land on column 5, off the board, and is refused
(`Rules.OpeningJumpOffBoard`).

## Model

| member | source | states |
|---|---|---|
| Text.IndexOf | server.js:56-57 | None exactly when the separator does not occur; otherwise the index of its first occurrence |
| Text.SplitTwo | server.js:56-57 | the first field is the longest separator-free prefix; the second is None exactly when there is no separator, else the separator-free text after the first separator, ending at the next separator or at the end |
| Text.SplitTwoOfJoin | server.js:56-57 | splitting `a + sep + b + rest` (with `rest` empty or starting with `sep`) gives back `a` and `b` |
| Commands.ParseMove | server.js:56-57 | the piece id is the command up to its first colon (all of it when there is none); the direction is undefined exactly when there is no colon, and otherwise the text after the first colon up to the next colon or the end; the owner and the kind come out of the piece id the same way at its dashes |
| Commands.ParseWrittenMove | server.js:56-57 | a command written `<owner>-<kind>:<direction>` parses into exactly those parts, with id `<owner>-<kind>` |
| Commands.Displacement | server.js:81-98 | the branch chain moves the piece exactly when the kind is defined, the direction is defined, and the kind recognises the direction (L R F B for `P*` and H1, FL FR BL BR for H2); otherwise the piece stays where it is |
| Commands.DisplacementMirrored | server.js:81-98 | B's displacement is A's with the row step negated and the column step kept |
| Commands.DisplacementFacing | server.js:83-92 | for `P*` and H1 pieces, forward goes to higher rows for A and lower rows for B; backward is the reverse; left goes to lower columns and right to higher columns for both |
| Commands.DiagonalFacing | server.js:93-97 | for H2, a token starting with F goes to higher rows for A and lower rows for B, one starting with B the reverse; a token ending in R goes to higher columns and one ending in L to lower columns |
| Commands.DisplacementGeometry | server.js:81-98 | a `P*` piece moves at most one square orthogonally, an H1 two squares orthogonally, an H2 two squares along both axes or not at all |
| Board.Put | server.js:112-113 | a cell assignment sets that cell and leaves every other cell and the grid's shape unchanged |
| Board.InitialIdsOwned | server.js:9-15 | every id of the game starts with "A-" or "B-", and starts with an owner's name only when followed by a dash |
| Board.InitialWellFormed | server.js:9-15 | the opening grid is well formed: each cell is empty or an id of the game, and no id is repeated |
| Board.InitialHome | server.js:9-15 | every id of the game stands on its home cell in the opening grid |
| Board.InitialPieces | server.js:9-15 | the opening grid holds exactly the ten ids of the game |
| Board.FindInRow | server.js:67-73 | the inner scan returns the first column of the row holding the id, or none when no column does |
| Board.LocateFrom | server.js:66-75 | the scan from a row returns the first cell in row-major order holding the id, or none when no later row holds it |
| Board.Locate | server.js:64-79 | the search returns the first cell in row-major order holding the id, or none exactly when no cell holds it |
| Board.LocateDetermined | server.js:64-79 | any answer that is the first occurrence (or none when absent) is the search's answer |
| Board.LocateUniquePiece | server.js:64-79 | on a well-formed grid an id is found exactly where it stands |
| Board.HasOwner | server.js:40-41 | the `some`/`startsWith` scan finds a cell of an owner exactly when the owner still has a piece on the board |
| Board.WinnerOf | server.js:39-52 | the winner is B exactly when A has no piece; A exactly when A has one and B has none; none exactly when both have pieces |
| Board.MoveKeepsWellFormed | server.js:112-113 | moving a piece of a well-formed grid onto another cell keeps the grid well formed |
| Board.MoveRemovesTarget | server.js:112-113 | after the move the pieces on the board are the old ones minus whatever stood on the destination |
| Board.RemovalAccounting | server.js:112-113 | removing at most one opponent piece keeps the mover's pieces and removes it from the opponent's, with the counts to match |
| Board.MoveAccounting | server.js:105-113 | a move onto an empty cell or an opponent's piece keeps the grid well formed, keeps every piece of the mover, and loses at most the opponent piece on the destination |
| Board.CapturedIsOpponents | server.js:105-109 | a non-empty destination that does not start with the mover's name holds an opponent's piece |
| Rules.HistoryEntry | server.js:114 | the log line is the piece id, then " moved ", then the direction, or "undefined" when the command has none |
| Rules.Destination | server.js:64-109 | an allowed move's origin is where the search finds the piece; its destination is the origin moved by the displacement table, lies on the board, and is empty or not the mover's; a piece that is not found gives none |
| Rules.DestinationFrom | server.js:100-109 | once the piece is found and its destination computed, the move is refused off the board or onto the mover's own piece, and allowed otherwise |
| Rules.Resolve | server.js:55-126 | wrong player exactly when the owner prefix is not the player to move; invalid exactly when the player is right and `Destination` refuses the move (piece not found, off the board, or onto an own piece), so every move `Destination` allows is accepted; a refused move changes nothing; an accepted move passes the turn, appends the log line, and sets the winner from the new board, with `Win` exactly when there is a winner |
| Rules.FoundPieceHasKind | server.js:83 | a piece found on a well-formed board for a player has a kind, so `charType.startsWith` is never called on undefined |
| Rules.UnrecognisedDirectionRejected | server.js:82-109 | a direction the kind does not define leaves the piece on its own cell, which holds the mover's piece, so the move is refused and nothing changes |
| Rules.AcceptedMoveCells | server.js:111-114 | an accepted move starts at the first cell holding the piece and ends on a different on-board cell given by the table; the kind defines the direction; the destination held no piece of the mover's; the origin is emptied, the destination holds the piece, no other cell changes, and the log gains "`<piece> moved <direction>`" |
| Rules.AcceptedMovePieces | server.js:105-113 | an accepted move keeps the board well formed and adds no piece; the piece that stood on the destination, if any, is captured: it is the opponent's, it is the one piece that disappears, and the opponent's count drops by exactly one; an empty destination loses nothing; none of the mover's pieces is lost |
| Rules.ResolveKeepsConsistent | server.js:55-126 | every move, refused or accepted, keeps the state invariant: a well-formed board and the winner that board implies |
| Rules.WinnerNotConsulted | server.js:119-125 | the stored winner does not affect the result, the board, the turn or the log of a move, so play goes on after a win |
| Rules.Initial | server.js:8-19 | the opening state has the layout `Board.InitialGrid`, A to move, an empty log and no winner, and it satisfies the state invariant |
| Rules.LocateInitial | server.js:66-75 | in the opening grid the search finds each piece on its own cell |
| Rules.ScenarioDisplacement | server.js:93-95 | A's H2 jumping forward-right moves two rows down and two columns right |
| Rules.StepCommand | server.js:56-57 | `B-P1:F` parses to piece B-P1, direction F, owner B, kind P1 |
| Rules.OpeningWrongPlayer | server.js:60-62 | at the opening, `B-P1:F` is refused as the wrong player's and nothing changes |
| Rules.InitialH2 | server.js:10 | at the opening A's H2 stands at row 0, column 3 |
| Rules.JumpCommand | server.js:56-57 | `A-H2:FR` parses to piece A-H2, direction FR, owner A, kind H2 |
| Rules.JumpPastEdge | server.js:100-103 | on A's turn, with A-H2 in column 3, `A-H2:FR` is refused as off the board and nothing changes |
| Rules.OpeningJumpOffBoard | server.js:100-103 | at the opening `A-H2:FR` is refused and nothing changes |
| Rules.ForwardCommand | server.js:56-57 | `A-P1:F` parses to piece A-P1, direction F, owner A, kind P1 |
| Rules.ForwardStep | server.js:83-86 | A's P1 stepping forward moves one row down and no column |
| Rules.ForwardEntry | server.js:114 | the log line of that step is "A-P1 moved F" |
| Rules.InitialP1 | server.js:10-11 | at the opening A-P1 stands at (0, 0) and (1, 0) is empty |
| Rules.ForwardStepBoard | server.js:39-52 | after A-P1 steps to (1, 0) both players still have pieces, so there is no winner |
| Rules.StepDown | server.js:111-117 | on A's turn, with A-P1 at (0, 0) and (1, 0) empty, `A-P1:F` moves the piece to (1, 0), passes the turn to B and logs "A-P1 moved F" |
| Rules.OpeningForwardStep | server.js:55-126 | from the opening, `A-P1:F` is accepted with `true`: the board is the opening with A-P1 on (1, 0), B is to move, the log is ["A-P1 moved F"] and there is no winner |
| Server.GameState.constructor | server.js:8-19 | the server starts with the opening grid in a fresh array, A to move, an empty log and no winner, and satisfies the invariant |
| Server.GameState.ResetGameState | server.js:129-142 | whatever the state was, afterwards it is the opening state in a fresh array and satisfies the invariant |
| Server.GameState.AnyCellStartsWith | server.js:40-41 | the scan over the array with an owner's name and a dash succeeds exactly when that owner still has a piece on the board |
| Server.GameState.CheckWinCondition | server.js:39-52 | sets only the winner, to the winner the board implies, and leaves the board unchanged |
| Server.GameState.LocatePiece | server.js:64-79 | the nested loop with its two `break`s returns exactly what the row-major search returns |
| Server.GameState.NewPosition | server.js:81-98 | the branch chain moves the piece by exactly the displacement table's step |
| Server.GameState.MovePiece | server.js:112-113 | the origin becomes empty, the destination holds the piece, and no other cell changes |
| Server.GameState.PassTurn | server.js:114-117 | the log gains the move's line and the turn passes to the other player; the board is unchanged |
| Server.GameState.ExecuteMove | server.js:111-125 | the board becomes the moved board; the turn passes; the log gains the line; the winner is the one the new board implies; the result is `Win` exactly when there is a winner |
| Server.GameState.ValidateMove | server.js:64-109 | returns exactly the origin and destination `Destination` allows, or none when it refuses the move |
| Server.GameState.ValidateAndExecuteMove | server.js:55-126 | the result and the new state are exactly `Resolve` of the old state and the command, and the state invariant is kept |

## Left out

- The WebSocket server, the broadcast of the state, and the connection and
  message handlers (`server.js:1-6`, `server.js:21-36`, `server.js:144-172`)
  are I/O. They are not modelled, and neither is the JSON decoding of a
  message. `move` is a string parameter. A non-string `data.move`, which
  would throw in `split`, is outside the model.
- Concurrency: Node runs the handlers one at a time, so each operation is
  modelled as one atomic step on the shared state.
- The startup log line names port 8080 while the server listens on 8081.
  This is output only and is not modelled.
- `resetGameState` replaces the whole state object. The model writes the
  fields of one object and allocates a fresh grid array. References to the
  old state that a caller might still hold are not modelled.
- An id without a dash has an undefined kind, and `charType.startsWith`
  would throw on it (`server.js:83`). The model has no exception path for
  this. `Rules.FoundPieceHasKind` proves the case cannot be reached from a
  well-formed board, because the player check and the search come first.
  `Server.GameState.ValidateMove` relies on that lemma.
- The bounds check compares the column with the length of row 0
  (`server.js:101`). The model uses the array's second dimension, which is
  the same for the 5x5 grid.
- `Server.GameState.ValidateAndExecuteMove` runs its validation and its
  execution in two helper methods, `ValidateMove` and `ExecuteMove`, and
  `ExecuteMove` runs its steps in `MovePiece` and `PassTurn`. The statements
  and their order are the source's.
