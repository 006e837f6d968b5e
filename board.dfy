/**
 * The 5x5 board as a value: a grid of string cells, "" for an empty cell
 * and a piece id such as "A-P1" otherwise. The initial layout, the scan
 * that finds a piece, the pieces each owner still has, and who has won.
 */
module Board {
  import opened Wrappers

  datatype Owner = A | B

  /** The owner's name as it appears in commands and piece ids. */
  function Name(o: Owner): string
  {
    if o == A then "A" else "B"
  }

  /** The owner whose turn follows `o`'s. */
  function Other(o: Owner): Owner
  {
    if o == A then B else A
  }

  const Rows: nat := 5
  const Cols: nat := 5

  type Grid = seq<seq<string>>

  /** Rows x Cols cells. */
  predicate Shaped(g: Grid)
  {
    |g| == Rows && forall r :: 0 <= r < |g| ==> |g[r]| == Cols
  }

  /** Two boards of the same shape are equal when they agree on every cell. */
  lemma SameCells(g: Grid, h: Grid)
    requires Shaped(g) && Shaped(h)
    requires forall r, c :: 0 <= r < Rows && 0 <= c < Cols ==> g[r][c] == h[r][c]
    ensures g == h
  {
    forall r | 0 <= r < Rows
      ensures g[r] == h[r]
    {
    }
  }

  /** The board with cell (r, c) set to `v`. */
  function Put(g: Grid, r: nat, c: nat, v: string): (g': Grid)
    requires Shaped(g) && r < Rows && c < Cols
    ensures Shaped(g')
    ensures g'[r][c] == v
    ensures forall i, j :: 0 <= i < Rows && 0 <= j < Cols && (i != r || j != c) ==> g'[i][j] == g[i][j]
  {
    g[r := g[r][c := v]]
  }

  /** The starting layout: A's pieces on row 0, B's on row 4, the rows between empty. */
  const InitialGrid: Grid := [
    ["A-P1", "A-P2", "A-H1", "A-H2", "A-P3"],
    ["", "", "", "", ""],
    ["", "", "", "", ""],
    ["", "", "", "", ""],
    ["B-P1", "B-P2", "B-H1", "B-H2", "B-P3"]
  ]

  /** Every piece id of the game. */
  const InitialIds: set<string> := {"A-P1", "A-P2", "A-H1", "A-H2", "A-P3", "B-P1", "B-P2", "B-H1", "B-H2", "B-P3"}

  /** No piece id stands on two cells. */
  ghost predicate Unique(g: Grid)
  {
    forall r1, c1, r2, c2 ::
      (0 <= r1 < |g| && 0 <= c1 < |g[r1]| && 0 <= r2 < |g| && 0 <= c2 < |g[r2]| &&
       g[r1][c1] != "" && g[r1][c1] == g[r2][c2]) ==> r1 == r2 && c1 == c2
  }

  /** The board invariant: the right shape, only pieces of the initial layout, each at most once. */
  ghost predicate WellFormed(g: Grid)
  {
    && Shaped(g)
    && (forall r, c :: 0 <= r < Rows && 0 <= c < Cols && g[r][c] != "" ==> g[r][c] in InitialIds)
    && Unique(g)
  }

  /** The piece ids on the board. */
  ghost function Pieces(g: Grid): set<string>
  {
    set r, c | 0 <= r < |g| && 0 <= c < |g[r]| && g[r][c] != "" :: g[r][c]
  }

  /** The piece ids on the board that belong to `o` (those starting "A-" or "B-"). */
  ghost function OwnedBy(g: Grid, o: Owner): set<string>
  {
    set p | p in Pieces(g) && Name(o) + "-" <= p
  }

  /** Every id of the game starts with its owner's name and a dash. */
  lemma InitialIdsOwned(p: string)
    requires p in InitialIds
    ensures "A-" <= p || "B-" <= p
    ensures "A" <= p <==> "A-" <= p
    ensures "B" <= p <==> "B-" <= p
    ensures '-' in p
  {
  }

  /** The cell each piece id starts on. */
  function Home(p: string): (nat, nat)
  {
    if p == "A-P1" then (0, 0) else if p == "A-P2" then (0, 1) else if p == "A-H1" then (0, 2)
    else if p == "A-H2" then (0, 3) else if p == "A-P3" then (0, 4)
    else if p == "B-P1" then (4, 0) else if p == "B-P2" then (4, 1) else if p == "B-H1" then (4, 2)
    else if p == "B-H2" then (4, 3) else (4, 4)
  }

  /** In the initial layout every piece stands on its home cell, so no id is repeated. */
  lemma InitialWellFormed()
    ensures WellFormed(InitialGrid)
  {
    var g := InitialGrid;
    forall r, c | 0 <= r < Rows && 0 <= c < Cols && g[r][c] != ""
      ensures g[r][c] in InitialIds && Home(g[r][c]) == (r, c)
    {
      assert r == 0 || r == 4;
    }
  }

  /** Every id of the game stands on its home cell in the initial layout. */
  lemma InitialHome(p: string)
    requires p in InitialIds
    ensures Home(p).0 < Rows && Home(p).1 < Cols && InitialGrid[Home(p).0][Home(p).1] == p
  {
  }

  /** The initial layout holds every id of the game. */
  lemma InitialPieces()
    ensures Pieces(InitialGrid) == InitialIds
  {
    var g := InitialGrid;
    InitialWellFormed();
    assert Pieces(g) <= InitialIds;
    forall p | p in InitialIds
      ensures p in Pieces(g)
    {
      InitialHome(p);
    }
  }

  /** (r, c) holds `ch` and is the first such cell in row-by-row, left-to-right order. */
  ghost predicate FirstOccurrence(g: Grid, ch: string, r: nat, c: nat)
  {
    && r < |g| && c < |g[r]| && g[r][c] == ch
    && (forall i, j :: 0 <= i < r && 0 <= j < |g[i]| ==> g[i][j] != ch)
    && (forall j :: 0 <= j < c ==> g[r][j] != ch)
  }

  /** No cell holds `ch`. */
  ghost predicate Absent(g: Grid, ch: string)
  {
    forall i, j :: 0 <= i < |g| && 0 <= j < |g[i]| ==> g[i][j] != ch
  }

  /** The first column at or after `from` whose cell is `ch`. */
  function FindInRow(row: seq<string>, ch: string, from: nat): (c: Option<nat>)
    decreases |row| - from
    ensures c.Some? ==> from <= c.value < |row| && row[c.value] == ch
    ensures c.Some? ==> forall j :: from <= j < c.value ==> row[j] != ch
    ensures c.None? ==> forall j :: from <= j < |row| ==> row[j] != ch
  {
    if from >= |row| then None
    else if row[from] == ch then Some(from)
    else FindInRow(row, ch, from + 1)
  }

  /** No cell of rows `from` up to (not including) `to` holds `ch`. */
  ghost predicate AbsentIn(g: Grid, ch: string, from: nat, to: nat)
  {
    forall i, j :: from <= i < to && i < |g| && 0 <= j < |g[i]| ==> g[i][j] != ch
  }

  /** The first cell holding `ch` in rows `from` onward, scanning each row left to right. */
  function LocateFrom(g: Grid, ch: string, from: nat): (p: Option<(nat, nat)>)
    decreases |g| - from
    ensures p.Some? ==> var (r, c) := p.value;
      from <= r < |g| && c < |g[r]| && g[r][c] == ch &&
      AbsentIn(g, ch, from, r) && forall j :: 0 <= j < c ==> g[r][j] != ch
    ensures p.None? ==> AbsentIn(g, ch, from, |g|)
  {
    if from >= |g| then None
    else
      match FindInRow(g[from], ch, 0)
      case Some(c) => Some((from, c))
      case None => LocateFrom(g, ch, from + 1)
  }

  /**
   * The cell the engine's nested row/column scan stops at: the first cell,
   * in row-major order, whose content equals `ch` exactly; None when none does.
   */
  function Locate(g: Grid, ch: string): (p: Option<(nat, nat)>)
    ensures p.Some? ==> FirstOccurrence(g, ch, p.value.0, p.value.1)
    ensures p.None? ==> Absent(g, ch)
  {
    LocateFrom(g, ch, 0)
  }

  /** The first occurrence is unique, so the characterisation above determines `Locate`. */
  lemma LocateDetermined(g: Grid, ch: string, p: Option<(nat, nat)>)
    requires p.Some? ==> FirstOccurrence(g, ch, p.value.0, p.value.1)
    requires p.None? ==> Absent(g, ch)
    ensures p == Locate(g, ch)
  {
  }

  /** On a well-formed board a piece id is found exactly where it stands. */
  lemma LocateUniquePiece(g: Grid, r: nat, c: nat)
    requires WellFormed(g) && r < Rows && c < Cols && g[r][c] != ""
    ensures Locate(g, g[r][c]) == Some((r, c))
  {
    var p := Locate(g, g[r][c]);
    assert p.Some?;
  }

  /**
   * JavaScript's `grid.some(row => row.some(cell => cell && cell.startsWith(prefix)))`
   * for the owner's prefix: it succeeds exactly when the owner still has a piece on the board.
   */
  predicate HasOwner(g: Grid, o: Owner)
    ensures HasOwner(g, o) <==> OwnedBy(g, o) != {}
  {
    OwnerScan(g, o);
    exists r, c :: 0 <= r < |g| && 0 <= c < |g[r]| && g[r][c] != "" && Name(o) + "-" <= g[r][c]
  }

  /** A cell starting with the owner's name and a dash is a piece of the owner's, and each such piece stands on a cell. */
  lemma OwnerScan(g: Grid, o: Owner)
    ensures (exists r, c :: 0 <= r < |g| && 0 <= c < |g[r]| && g[r][c] != "" && Name(o) + "-" <= g[r][c])
        <==> OwnedBy(g, o) != {}
  {
    if exists r, c :: 0 <= r < |g| && 0 <= c < |g[r]| && g[r][c] != "" && Name(o) + "-" <= g[r][c] {
      var r, c :| 0 <= r < |g| && 0 <= c < |g[r]| && g[r][c] != "" && Name(o) + "-" <= g[r][c];
      assert g[r][c] in OwnedBy(g, o);
    }
  }

  /**
   * The winner after a move: B when A has no piece left, else A when B has
   * none, else nobody.
   */
  function WinnerOf(g: Grid): (w: Option<Owner>)
    ensures w == Some(B) <==> OwnedBy(g, A) == {}
    ensures w == Some(A) <==> OwnedBy(g, A) != {} && OwnedBy(g, B) == {}
    ensures w == None <==> OwnedBy(g, A) != {} && OwnedBy(g, B) != {}
  {
    if !HasOwner(g, A) then Some(B)
    else if !HasOwner(g, B) then Some(A)
    else None
  }

  /** Moving a piece onto a cell that does not hold it keeps the board well formed. */
  lemma {:induction false} MoveKeepsWellFormed(g: Grid, r: nat, c: nat, nr: nat, nc: nat)
    requires WellFormed(g) && r < Rows && c < Cols && nr < Rows && nc < Cols
    requires g[r][c] != "" && g[nr][nc] != g[r][c]
    ensures WellFormed(Put(Put(g, r, c, ""), nr, nc, g[r][c]))
  {
    var ch := g[r][c];
    var g' := Put(Put(g, r, c, ""), nr, nc, ch);
    forall r1, c1, r2, c2 |
      0 <= r1 < |g'| && 0 <= c1 < |g'[r1]| && 0 <= r2 < |g'| && 0 <= c2 < |g'[r2]| &&
      g'[r1][c1] != "" && g'[r1][c1] == g'[r2][c2]
      ensures r1 == r2 && c1 == c2
    {
      // A cell of g' other than the destination holds what it held in g,
      // and no such cell holds the moved piece, whose only place was (r, c).
      if (r1 != nr || c1 != nc) && (r2 != nr || c2 != nc) {
        assert g[r1][c1] == g[r2][c2];
      }
    }
  }

  /**
   * Moving the piece at (r, c) onto (nr, nc), over whatever stood there,
   * removes from the board exactly the piece that stood on the destination
   * (nothing when that cell was empty) and adds none.
   */
  lemma {:induction false} MoveRemovesTarget(g: Grid, r: nat, c: nat, nr: nat, nc: nat)
    requires WellFormed(g) && r < Rows && c < Cols && nr < Rows && nc < Cols
    requires g[r][c] != "" && g[nr][nc] != g[r][c]
    ensures Pieces(Put(Put(g, r, c, ""), nr, nc, g[r][c])) == Pieces(g) - {g[nr][nc]}
  {
    var ch, target := g[r][c], g[nr][nc];
    var g' := Put(Put(g, r, c, ""), nr, nc, ch);
    forall p | p in Pieces(g')
      ensures p in Pieces(g) && p != target
    {
      var i, j :| 0 <= i < |g'| && 0 <= j < |g'[i]| && g'[i][j] != "" && g'[i][j] == p;
      if i == nr && j == nc {
        assert g[r][c] == p;
      } else {
        assert g[i][j] == p;
      }
    }
    forall p | p in Pieces(g) && p != target
      ensures p in Pieces(g')
    {
      var i, j :| 0 <= i < |g| && 0 <= j < |g[i]| && g[i][j] != "" && g[i][j] == p;
      if i == r && j == c {
        assert g'[nr][nc] == p;
      } else {
        assert g'[i][j] == p;
      }
    }
  }

  /**
   * Removing some of the opponent's pieces from the board leaves the other
   * owner's pieces as they were and shrinks the counts by what was removed.
   */
  lemma RemovalAccounting(g: Grid, g': Grid, lost: set<string>, o: Owner)
    requires lost <= OwnedBy(g, Other(o))
    requires Pieces(g') == Pieces(g) - lost
    ensures OwnedBy(g', o) == OwnedBy(g, o)
    ensures OwnedBy(g', Other(o)) == OwnedBy(g, Other(o)) - lost
    ensures |Pieces(g')| == |Pieces(g)| - |lost|
    ensures |OwnedBy(g', Other(o))| == |OwnedBy(g, Other(o))| - |lost|
  {
    forall p | p in lost
      ensures !(Name(o) + "-" <= p)
    {
      assert (Name(Other(o)) + "-")[0] != (Name(o) + "-")[0];
    }
    assert OwnedBy(g', o) == OwnedBy(g, o);
    assert OwnedBy(g', Other(o)) == OwnedBy(g, Other(o)) - lost;
  }

  /**
   * The bookkeeping of a move of `mover`'s piece at (r, c) onto (nr, nc)
   * whose cell is empty or holds no piece of `mover`'s: the board stays well
   * formed, and the pieces lost are at most the opponent's piece that stood
   * on the destination.
   */
  lemma {:induction false} MoveAccounting(g: Grid, r: nat, c: nat, nr: nat, nc: nat, mover: Owner)
    returns (lost: set<string>)
    requires WellFormed(g) && r < Rows && c < Cols && nr < Rows && nc < Cols
    requires g[r][c] != "" && Name(mover) <= g[r][c]
    requires g[nr][nc] == "" || !(Name(mover) <= g[nr][nc])
    ensures lost == if g[nr][nc] == "" then {} else {g[nr][nc]}
    ensures var g' := Put(Put(g, r, c, ""), nr, nc, g[r][c]);
      && WellFormed(g')
      && lost <= OwnedBy(g, Other(mover))
      && Pieces(g') == Pieces(g) - lost
      && OwnedBy(g', mover) == OwnedBy(g, mover)
      && OwnedBy(g', Other(mover)) == OwnedBy(g, Other(mover)) - lost
      && |Pieces(g')| == |Pieces(g)| - |lost|
      && |OwnedBy(g', Other(mover))| == |OwnedBy(g, Other(mover))| - |lost|
  {
    var target := g[nr][nc];
    var g' := Put(Put(g, r, c, ""), nr, nc, g[r][c]);
    MoveKeepsWellFormed(g, r, c, nr, nc);
    MoveRemovesTarget(g, r, c, nr, nc);
    if target == "" {
      lost := {};
      assert "" !in Pieces(g);
      assert Pieces(g') == Pieces(g);
    } else {
      lost := {target};
      CapturedIsOpponents(g, nr, nc, mover);
    }
    RemovalAccounting(g, g', lost, mover);
  }

  /** A piece that does not start with the mover's name belongs to the opponent. */
  lemma CapturedIsOpponents(g: Grid, nr: nat, nc: nat, mover: Owner)
    requires WellFormed(g) && nr < Rows && nc < Cols
    requires g[nr][nc] != "" && !(Name(mover) <= g[nr][nc])
    ensures g[nr][nc] in OwnedBy(g, Other(mover))
  {
    var target := g[nr][nc];
    InitialIdsOwned(target);
    assert target in Pieces(g);
  }
}
