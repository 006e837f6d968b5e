/**
 * A move command such as "A-H2:FR": its parse into piece id, direction,
 * owner and kind, and the per-kind displacement table that turns a
 * direction into a step on the board, mirrored by owner.
 */
module Commands {
  import opened Wrappers
  import opened Text

  /**
   * The four names the engine takes out of a command string: `character`
   * (the piece id), `direction`, `player` (the owner prefix of the id) and
   * `charType` (the kind). None stands for JavaScript's `undefined`.
   */
  datatype Command = Command(character: string, direction: Option<string>, player: string, charType: Option<string>)

  /** `[character, direction] = move.split(':')`, then `[player, charType] = character.split('-')`. */
  function ParseMove(move: string): (cmd: Command)
    ensures ':' !in cmd.character && cmd.character <= move
    ensures cmd.direction.None? <==> ':' !in move
    ensures '-' !in cmd.player && cmd.player <= cmd.character
    ensures cmd.charType.None? <==> '-' !in cmd.character
    ensures cmd.direction.None? ==> cmd.character == move
    ensures cmd.direction.Some? ==> ':' !in cmd.direction.value && cmd.character + [':'] + cmd.direction.value <= move
    ensures cmd.direction.Some? ==> var n := |cmd.character| + 1 + |cmd.direction.value|;
      n == |move| || move[n] == ':'
    ensures cmd.charType.None? ==> cmd.player == cmd.character
    ensures cmd.charType.Some? ==> '-' !in cmd.charType.value && cmd.player + ['-'] + cmd.charType.value <= cmd.character
    ensures cmd.charType.Some? ==> var n := |cmd.player| + 1 + |cmd.charType.value|;
      n == |cmd.character| || cmd.character[n] == '-'
  {
    var (character, direction) := SplitTwo(move, ':');
    var (player, charType) := SplitTwo(character, '-');
    Command(character, direction, player, charType)
  }

  /** A command written as "<owner>-<kind>:<direction>" parses back into exactly those parts. */
  lemma {:induction false} ParseWrittenMove(move: string, owner: string, kind: string, dir: string)
    requires ':' !in owner && ':' !in kind && ':' !in dir
    requires '-' !in owner && '-' !in kind
    requires move == owner + ['-'] + kind + [':'] + dir
    ensures ParseMove(move) == Command(owner + ['-'] + kind, Some(dir), owner, Some(kind))
  {
    var id := owner + ['-'] + kind;
    SplitTwoOfJoin(id, dir, ':', []);
    assert id + [':'] + dir + [] == move;
    SplitTwoOfJoin(owner, kind, '-', []);
    assert owner + ['-'] + kind + [] == id;
  }

  /** Row step of one "forward" square for `player`: A advances toward higher rows, B toward lower ones. */
  function Forward(player: string): int
  {
    if player == "A" then 1 else -1
  }

  /**
   * The (row, column) displacement of a move: `P*` pieces step one square
   * orthogonally, `H1` two squares orthogonally, `H2` two squares along both
   * axes at once. A direction the kind does not define, or a kind that is
   * none of these, leaves the piece where it is. A kind of None cannot occur
   * for a piece found on the board (see Rules.FoundPieceHasKind).
   */
  function Displacement(player: string, charType: Option<string>, direction: Option<string>): (step: (int, int))
    ensures step != (0, 0) <==> charType.Some? && direction.Some? && direction.value in DirectionsOf(charType.value)
  {
    var f := Forward(player);
    match charType
    case None => (0, 0)
    case Some(kind) =>
      if "P" <= kind then
        if direction == Some("L") then (0, -1)
        else if direction == Some("R") then (0, 1)
        else if direction == Some("F") then (f, 0)
        else if direction == Some("B") then (-f, 0)
        else (0, 0)
      else if kind == "H1" then
        if direction == Some("L") then (0, -2)
        else if direction == Some("R") then (0, 2)
        else if direction == Some("F") then (2 * f, 0)
        else if direction == Some("B") then (-2 * f, 0)
        else (0, 0)
      else if kind == "H2" then
        if direction == Some("FL") then (2 * f, -2)
        else if direction == Some("FR") then (2 * f, 2)
        else if direction == Some("BL") then (-2 * f, -2)
        else if direction == Some("BR") then (-2 * f, 2)
        else (0, 0)
      else (0, 0)
  }

  /** The direction tokens each kind recognises: none for an unknown kind. */
  function DirectionsOf(kind: string): set<string>
  {
    if "P" <= kind || kind == "H1" then {"L", "R", "F", "B"}
    else if kind == "H2" then {"FL", "FR", "BL", "BR"}
    else {}
  }

  /** B's moves are A's reflected top to bottom: the row step flips sign, the column step does not. */
  lemma DisplacementMirrored(charType: Option<string>, direction: Option<string>)
    ensures Displacement("B", charType, direction).0 == -Displacement("A", charType, direction).0
    ensures Displacement("B", charType, direction).1 == Displacement("A", charType, direction).1
  {
  }

  /** Forward takes A toward higher rows and B toward lower rows; left is toward lower columns and right toward higher ones for both. */
  lemma DisplacementFacing(kind: string)
    requires "P" <= kind || kind == "H1"
    ensures Displacement("A", Some(kind), Some("F")).0 > 0 && Displacement("B", Some(kind), Some("F")).0 < 0
    ensures Displacement("A", Some(kind), Some("B")).0 < 0 && Displacement("B", Some(kind), Some("B")).0 > 0
    ensures Displacement("A", Some(kind), Some("L")).1 < 0 && Displacement("B", Some(kind), Some("L")).1 < 0
    ensures Displacement("A", Some(kind), Some("R")).1 > 0 && Displacement("B", Some(kind), Some("R")).1 > 0
  {
  }

  /** For H2, the first letter of the token picks the row sign by owner and the second the column sign. */
  lemma DiagonalFacing(player: string, direction: string)
    requires direction in DirectionsOf("H2")
    ensures var (dr, dc) := Displacement(player, Some("H2"), Some(direction));
      && |direction| == 2
      && (direction[0] == 'F' <==> (player == "A" <==> dr > 0))
      && (direction[1] == 'R' <==> dc > 0)
  {
    assert "H2"[0] != 'P';
  }

  /** The geometry of each kind: single orthogonal step, double orthogonal step, double diagonal step. */
  lemma DisplacementGeometry(player: string, kind: string, direction: Option<string>)
    ensures var (dr, dc) := Displacement(player, Some(kind), direction);
      && ("P" <= kind ==> (dr == 0 || dc == 0) && -1 <= dr <= 1 && -1 <= dc <= 1)
      && (kind == "H1" ==> (dr == 0 || dc == 0) && dr in {-2, 0, 2} && dc in {-2, 0, 2})
      && (kind == "H2" ==> (dr == 0 <==> dc == 0) && dr in {-2, 0, 2} && dc in {-2, 0, 2})
  {
    // The jumpers are not `P*` kinds, so the first branch of the table does not apply to them.
    if kind == "H1" || kind == "H2" {
      assert kind[0] != 'P';
    }
  }
}
