/** The board of the sliding-block puzzle (Board.py): its dimensions and its occupancy grid. */
module Boards {
  import opened Common
  import opened Footprints
  import opened Grids
  import Pieces

  /** What the board reads of each entry of its `pieces` mapping: the key, `piece.pos`, `piece.dim`. */
  function Layout(pieces: seq<(int, Pieces.Piece)>): (layout: seq<(int, Placement)>)
    ensures |layout| == |pieces|
    ensures forall k :: 0 <= k < |pieces| ==>
              layout[k] == (pieces[k].0, Placement(pieces[k].1.pos, pieces[k].1.dim))
  {
    seq(|pieces|, k requires 0 <= k < |pieces| => (pieces[k].0, Placement(pieces[k].1.pos, pieces[k].1.dim)))
  }

  class Board {
    const dim: Coord
    var board: Grid

    /** The first two statements of `__init__`: record `dim` and allocate the empty grid. */
    constructor (dim: Coord)
      ensures this.dim == dim && board == EmptyGrid(dim.0, dim.1)
    {
      this.dim := dim;
      board := EmptyGrid(dim.0, dim.1);
    }

    /**
     * The placement loops of `__init__` as written: the `raise` at the end of the innermost
     * body is not under an `else`, so the first visited cell is written and the error raised.
     */
    method Fill(pieces: seq<(int, Pieces.Piece)>) returns (r: Outcome<Conflict>)
      requires board == EmptyGrid(dim.0, dim.1)
      requires FirstVisitInGrid(dim, Layout(pieces))
      modifies this
      ensures Construct(dim, Layout(pieces)) == if r.Pass? then Built(board) else Failed(board, r.error)
    {
      ghost var layout := Layout(pieces);
      var k := 0;
      while k < |pieces|
        invariant 0 <= k <= |pieces|
        invariant board == EmptyGrid(dim.0, dim.1)
        invariant Visits(layout) == Visits(layout[k..])
      {
        var pid, piece := pieces[k].0, pieces[k].1;
        EnterPiece(layout, k, pid, Placement(piece.pos, piece.dim), Visits(layout));
        ghost var tail := Visits(layout[k + 1..]);
        ghost var r1, c0, c1 := piece.pos.0 + piece.dim.0, piece.pos.1, piece.pos.1 + piece.dim.1;
        var i := piece.pos.0;
        while i < piece.pos.0 + piece.dim.0
          invariant board == EmptyGrid(dim.0, dim.1)
          invariant Visits(layout) == RowsFrom(pid, i, r1, c0, c1) + tail
        {
          EnterRow(pid, i, r1, c0, c1);
          var j := piece.pos.1;
          // The column loop: its body always raises, so it never reaches a second iteration.
          if j < piece.pos.1 + piece.dim.1 {
            EnterCell(pid, i, j, r1, c0, c1);
            assert Visits(layout)[0] == Visit(pid, (i, j));
            // Claim a free or own cell; the raise below follows either way.
            var cell := board[i][j];
            if cell == None || cell == Some(pid) {
              board := board[i := board[i][j := Some(pid)]];
            }
            return Fail(PieceConflict(board[i][j].value, pid, (i, j)));
          }
          LeaveCells(pid, i, j, r1, c0, c1);
          i := i + 1;
        }
        LeaveRows(pid, i, r1, c0, c1);
        k := k + 1;
      }
      return Pass;
    }

    /**
     * One iteration of the piece loop of Board.py:21-27 with the `raise` under an `else`: the
     * rows of entry `k`. From this board the construction owes `result`.
     */
    method PlaceChecked(pieces: seq<(int, Pieces.Piece)>, k: int, ghost layout: seq<(int, Placement)>, ghost result: BuildResult)
      returns (r: Outcome<Conflict>)
      requires 0 <= k < |pieces| && layout == Layout(pieces)
      requires Owed(board, Visits(layout[k..])) == Some(result)
      modifies this
      ensures r.Pass? ==> Owed(board, Visits(layout[k + 1..])) == Some(result)
      ensures r.Fail? ==> result == Failed(board, r.error)
    {
      var pid, piece := pieces[k].0, pieces[k].1;
      OwedEnterPiece(board, layout, k, pid, piece.pos, piece.dim, result);
      ghost var tail := Visits(layout[k + 1..]);
      var r1, c0, c1 := piece.pos.0 + piece.dim.0, piece.pos.1, piece.pos.1 + piece.dim.1;
      var i := piece.pos.0;
      while i < r1
        invariant Owed(board, RowsFrom(pid, i, r1, c0, c1) + tail) == Some(result)
      {
        OwedEnterRow(board, pid, i, r1, c0, c1, tail, result);
        r := PlaceRowChecked(pid, i, r1, c0, c1, tail, result);
        if r.Fail? {
          return;
        }
        i := i + 1;
      }
      OwedLeaveRows(board, pid, i, r1, c0, c1, tail, result);
      return Pass;
    }

    /**
     * The checked column loop of Board.py:23-27 for row `i` of a piece spanning rows up to `r1`
     * and columns `[c0, c1)`; `tail` is what the later pieces owe.
     */
    method PlaceRowChecked(pid: int, i: int, r1: int, c0: int, c1: int, ghost tail: seq<Visit>, ghost result: BuildResult)
      returns (r: Outcome<Conflict>)
      requires Owed(board, CellsFrom(pid, i, c0, r1, c0, c1) + tail) == Some(result)
      modifies this
      ensures r.Pass? ==> Owed(board, RowsFrom(pid, i + 1, r1, c0, c1) + tail) == Some(result)
      ensures r.Fail? ==> result == Failed(board, r.error)
    {
      var j := c0;
      while j < c1
        invariant Owed(board, CellsFrom(pid, i, j, r1, c0, c1) + tail) == Some(result)
      {
        OwedCell(board, pid, i, j, r1, c0, c1, tail, result);
        // Claim a free or own cell; a cell held by another piece raises.
        if board[i][j] == None || board[i][j] == Some(pid) {
          board := board[i := board[i][j := Some(pid)]];
        } else {
          return Fail(PieceConflict(board[i][j].value, pid, (i, j)));
        }
        j := j + 1;
      }
      OwedLeaveCells(board, pid, i, j, r1, c0, c1, tail, result);
      return Pass;
    }

    /**
     * The placement loops with the `raise` under an `else`, as the conflict message intends:
     * a cell held by another piece raises, every other visited cell receives the piece's id.
     */
    method FillChecked(pieces: seq<(int, Pieces.Piece)>) returns (r: Outcome<Conflict>)
      requires board == EmptyGrid(dim.0, dim.1)
      requires AllVisitsInGrid(dim, Layout(pieces))
      modifies this
      ensures ConstructChecked(dim, Layout(pieces)) == if r.Pass? then Built(board) else Failed(board, r.error)
    {
      ghost var layout := Layout(pieces);
      ghost var result := ConstructChecked(dim, layout);
      OwedStart(dim, layout);
      var k := 0;
      while k < |pieces|
        invariant 0 <= k <= |pieces|
        invariant Owed(board, Visits(layout[k..])) == Some(result)
      {
        r := PlaceChecked(pieces, k, layout, result);
        if r.Fail? {
          return;
        }
        k := k + 1;
      }
      OwedDone(board, layout, result);
      return Pass;
    }
  }

  /** `Board(dim, pieces)` as written, with the half-built board it leaves when it raises. */
  method NewBoard(dim: Coord, pieces: seq<(int, Pieces.Piece)>) returns (b: Board, r: Outcome<Conflict>)
    requires FirstVisitInGrid(dim, Layout(pieces))
    ensures fresh(b) && b.dim == dim
    ensures Construct(dim, Layout(pieces)) == if r.Pass? then Built(b.board) else Failed(b.board, r.error)
  {
    b := new Board(dim);
    r := b.Fill(pieces);
  }

  /**
   * `Board(dim, pieces)` with the `raise` under an `else`: the board is built exactly when no two
   * pieces claim a cell, and otherwise the first clash is reported.
   */
  method NewBoardChecked(dim: Coord, pieces: seq<(int, Pieces.Piece)>) returns (b: Board, r: Outcome<Conflict>)
    requires AllVisitsInGrid(dim, Layout(pieces))
    ensures fresh(b) && b.dim == dim
    ensures ConstructChecked(dim, Layout(pieces)) == if r.Pass? then Built(b.board) else Failed(b.board, r.error)
  {
    b := new Board(dim);
    r := b.FillChecked(pieces);
  }

  /** `default_pieces` as the board reads it: ids in insertion order with position and shape. */
  const DefaultLayout: seq<(int, Placement)> := [
    (0, Placement((0, 1), (2, 2))), (1, Placement((0, 0), (2, 1))), (2, Placement((0, 3), (2, 1))),
    (3, Placement((2, 1), (1, 2))), (4, Placement((3, 0), (2, 1))), (5, Placement((3, 1), (1, 1))),
    (6, Placement((3, 2), (1, 1))), (7, Placement((4, 1), (1, 1))), (8, Placement((4, 2), (1, 2))),
    (9, Placement((3, 3), (2, 1)))]

  /** As written, `Board()` raises at the first cell of piece 0, naming piece 0 as its own rival. */
  lemma DefaultAsWritten()
    ensures FirstVisitInGrid((5, 4), DefaultLayout)
    ensures var g := EmptyGrid(5, 4);
      Construct((5, 4), DefaultLayout) == Failed(g[0 := g[0][1 := Some(0)]], PieceConflict(0, 0, (0, 1)))
  {
    AsWrittenFailsAtFirstCell((5, 4), DefaultLayout);
  }

  /** Looked up by shape every default piece has a colour; looked up by position only piece 3 has one. */
  lemma DefaultColours()
    ensures forall k :: 0 <= k < |DefaultLayout| ==> Pieces.ColorMapGet(DefaultLayout[k].1.dim).Some?
    ensures forall k :: 0 <= k < |DefaultLayout| ==> (Pieces.ColorMapGet(DefaultLayout[k].1.pos).Some? <==> k == 3)
  {
  }

  /** The piece of `default_pieces` that each cell belongs to, up to the first cell of piece 9. */
  function DefaultOwner(c: Coord): int
  {
    if c.0 <= 1 then (if c.1 == 0 then 1 else if c.1 == 3 then 2 else 0)
    else if c.0 == 2 then 3
    else if c.1 == 0 then 4
    else if c.0 == 3 then (if c.1 == 1 then 5 else if c.1 == 2 then 6 else 9)
    else if c.1 == 1 then 7
    else 8
  }

  /** Every cell piece `k < 9` of `default_pieces` visits belongs to it. */
  lemma OwnFootprint(k: int)
    requires 0 <= k < 9
    ensures DefaultLayout[..9][k].0 == k
    ensures forall c :: c in Footprint(DefaultLayout[..9][k].1) ==> DefaultOwner(c) == k
  {
    var p := DefaultLayout[k];
    assert DefaultLayout[..9][k] == p;
    FootprintIsRowMajor(p.1);
  }

  /** Pieces 0 to 8 of `default_pieces` do not overlap: each visits only the cells it owns. */
  lemma DefaultFrontOwned()
    ensures var vs := Visits(DefaultLayout[..9]);
      forall n :: 0 <= n < |vs| ==> vs[n].pid == DefaultOwner(vs[n].at)
  {
    var d := DefaultLayout[..9];
    var vs := Visits(d);
    forall n | 0 <= n < |vs| ensures vs[n].pid == DefaultOwner(vs[n].at) {
      VisitsComeFromPieces(d, n);
      var k :| 0 <= k < |d| && vs[n].pid == d[k].0 && vs[n].at in Footprint(d[k].1);
      OwnFootprint(k);
    }
  }

  /**
   * `default_pieces` itself has a clash: piece 8 covers (4, 2) and (4, 3), piece 9 covers
   * (3, 3) and (4, 3), and pieces 0 to 8 do not overlap, so the checked construction raises
   * "both piece 8 and piece 9 are at (4, 3)" for the default board.
   */
  lemma DefaultOverlaps()
    ensures AllVisitsInGrid((5, 4), DefaultLayout)
    ensures !NoOverlap(Visits(DefaultLayout))
    ensures ConstructChecked((5, 4), DefaultLayout).Failed?
    ensures ConstructChecked((5, 4), DefaultLayout).conflict == PieceConflict(8, 9, (4, 3))
  {
    var d := DefaultLayout;
    assert PiecesInGrid((5, 4), d);
    PiecesInGridVisitsInGrid((5, 4), d);
    assert d[..9][..8] == d[..8];
    var front, upTo9 := Visits(d[..8]), Visits(d[..9]);
    assert upTo9 == front + Tagged(8, Footprint(d[8].1));
    assert Visits(d) == upTo9 + Tagged(9, Footprint(d[9].1));
    ShapeVisits(8, (4, 2));
    ShapeVisits(9, (3, 3));
    var vs := Visits(d);
    assert vs[|front| + 1] == Visit(8, (4, 3));
    assert vs[|upTo9| + 1] == Visit(9, (4, 3));
    var l := |upTo9| + 1;
    var clashFree := vs[..l];
    assert clashFree == upTo9 + [Visit(9, (3, 3))];
    DefaultFrontOwned();
    assert forall n :: 0 <= n < |clashFree| ==> clashFree[n].pid == DefaultOwner(clashFree[n].at);
    var e := PieceConflict(8, 9, (4, 3));
    assert FirstClash(vs, e);
    FirstClashUnique(vs, ConstructChecked((5, 4), d).conflict, e);
  }
}
