/**
 * The occupancy grid of a board and what `Board.__init__` leaves in it: the construction as
 * written in Board.py, and the construction its conflict message evidently intends.
 */
module Grids {
  import opened Common
  import opened Footprints

  /** A cell holds `None` or the id of the piece on it. */
  type Cell = Option<int>

  /** `self.board`: a list of rows, each a list of cells. */
  type Grid = seq<seq<Cell>>

  /** The error `Board.__init__` raises: the cell's value after the write, the piece, the cell. */
  datatype Conflict = PieceConflict(occupant: int, pid: int, at: Coord)

  /** The grid when construction returns, or when it raises together with the error. */
  datatype BuildResult = Built(grid: Grid) | Failed(grid: Grid, conflict: Conflict)

  /** The freshly allocated grid: `dim[0]` rows of `dim[1]` empty cells (none for a negative count). */
  function EmptyGrid(rows: int, cols: int): (g: Grid)
    ensures |g| == Nat(rows)
    ensures forall i :: 0 <= i < |g| ==> |g[i]| == Nat(cols)
    ensures forall i, j :: 0 <= i < |g| && 0 <= j < |g[i]| ==> g[i][j] == None
  {
    seq(Nat(rows), _ => seq(Nat(cols), _ => None))
  }

  predicate InGrid(g: Grid, c: Coord)
  {
    0 <= c.0 < |g| && 0 <= c.1 < |g[c.0]|
  }

  predicate SameShape(a: Grid, b: Grid)
  {
    |a| == |b| && forall i :: 0 <= i < |a| ==> |a[i]| == |b[i]|
  }

  /**
   * The conditional write of Board.py: cell `c` receives `pid` if it is empty or already holds
   * `pid`; a cell holding another id is left as it is, and no other cell changes.
   */
  function Mark(g: Grid, pid: int, c: Coord): (r: Grid)
    requires InGrid(g, c)
    ensures SameShape(r, g)
    ensures r[c.0][c.1] == Some(pid) <==> g[c.0][c.1] == None || g[c.0][c.1] == Some(pid)
    ensures g[c.0][c.1] != None && g[c.0][c.1] != Some(pid) ==> r == g
    ensures forall i, j :: 0 <= i < |g| && 0 <= j < |g[i]| && (i, j) != c ==> r[i][j] == g[i][j]
  {
    if g[c.0][c.1] == None || g[c.0][c.1] == Some(pid) then g[c.0 := g[c.0][c.1 := Some(pid)]] else g
  }

  /** Every cell `Board.__init__` visits first lies on the grid (no Python index wrap-around). */
  predicate FirstVisitInGrid(dim: Coord, layout: seq<(int, Placement)>)
  {
    var vs := Visits(layout);
    vs != [] ==> 0 <= vs[0].at.0 < dim.0 && 0 <= vs[0].at.1 < dim.1
  }

  /** Every cell of every footprint lies on the grid. */
  predicate AllVisitsInGrid(dim: Coord, layout: seq<(int, Placement)>)
  {
    var vs := Visits(layout);
    forall k :: 0 <= k < |vs| ==> 0 <= vs[k].at.0 < dim.0 && 0 <= vs[k].at.1 < dim.1
  }

  /**
   * `Board(dim, pieces)` as written: the `raise` follows the conditional write unconditionally,
   * so the first visited cell is written (it is empty) and then the error is raised. Only a
   * layout whose pieces all have empty footprints builds a board.
   */
  function Construct(dim: Coord, layout: seq<(int, Placement)>): (r: BuildResult)
    requires FirstVisitInGrid(dim, layout)
    ensures r.Built? <==> Visits(layout) == []
    ensures r.Built? ==> r.grid == EmptyGrid(dim.0, dim.1)
    ensures r.Failed? ==>
              var v := Visits(layout)[0];
              r.conflict == PieceConflict(v.pid, v.pid, v.at)
    ensures r.Failed? ==> SameShape(r.grid, EmptyGrid(dim.0, dim.1))
    ensures r.Failed? ==> forall i, j :: 0 <= i < |r.grid| && 0 <= j < |r.grid[i]| ==>
              r.grid[i][j] == if (i, j) == r.conflict.at then Some(r.conflict.pid) else None
  {
    var g := EmptyGrid(dim.0, dim.1);
    var vs := Visits(layout);
    if vs == [] then Built(g)
    else
      var v := vs[0];
      var marked := Mark(g, v.pid, v.at);
      Failed(marked, PieceConflict(marked[v.at.0][v.at.1].value, v.pid, v.at))
  }

  /** No two visits to one cell are made on behalf of different pieces. */
  ghost predicate NoOverlap(vs: seq<Visit>)
  {
    forall k, l :: 0 <= k < l < |vs| && vs[k].at == vs[l].at ==> vs[k].pid == vs[l].pid
  }

  /** Each visited cell of `g` holds the id of the piece that visited it; all others are empty. */
  ghost predicate Covers(g: Grid, vs: seq<Visit>)
  {
    && (forall k :: 0 <= k < |vs| ==> InGrid(g, vs[k].at) && g[vs[k].at.0][vs[k].at.1] == Some(vs[k].pid))
    && (forall i, j :: 0 <= i < |g| && 0 <= j < |g[i]| && g[i][j] != None ==>
          exists k :: 0 <= k < |vs| && vs[k].at == (i, j))
  }

  /**
   * `c` reports the first clash of `vs`: visit `l` is made on behalf of `c.pid` at `c.at`, an
   * earlier visit to that cell was made on behalf of another piece `c.occupant`, and the visits
   * before `l` do not clash.
   */
  ghost predicate FirstClash(vs: seq<Visit>, c: Conflict)
  {
    exists l :: 0 <= l < |vs| && vs[l] == Visit(c.pid, c.at) && NoOverlap(vs[..l]) &&
      c.occupant != c.pid && exists k :: 0 <= k < l && vs[k] == Visit(c.occupant, c.at)
  }

  /** Every visit of `vs` is to a cell of `g`. */
  predicate AllInGrid(g: Grid, vs: seq<Visit>)
  {
    forall k :: 0 <= k < |vs| ==> InGrid(g, vs[k].at)
  }

  /**
   * The visits `vs` processed in order from grid `g` with the `raise` under an `else`: a cell
   * that is empty or holds the visiting piece receives its id, a cell held by another piece
   * raises and ends the construction.
   */
  function Checked(g: Grid, vs: seq<Visit>): (r: BuildResult)
    requires AllInGrid(g, vs)
    ensures SameShape(r.grid, g)
    decreases |vs|
  {
    if vs == [] then Built(g)
    else
      var v := vs[0];
      assert InGrid(g, vs[0].at);
      var cell := g[v.at.0][v.at.1];
      if cell == None || cell == Some(v.pid) then
        var g' := Mark(g, v.pid, v.at);
        assert AllInGrid(g', vs[1..]) by {
          forall k | 0 <= k < |vs[1..]| ensures InGrid(g', vs[1..][k].at) {
            assert InGrid(g, vs[k + 1].at);
          }
        }
        var r := Checked(g', vs[1..]);
        assert SameShape(r.grid, g) by {
          forall i | 0 <= i < |g| ensures |r.grid[i]| == |g[i]| {
            assert |g'[i]| == |g[i]|;
          }
        }
        r
      else Failed(g, PieceConflict(cell.value, v.pid, v.at))
  }

  /** A clash among the first visits stays the first clash whatever visits follow. */
  lemma ClashExtends(front: seq<Visit>, more: seq<Visit>, e: Conflict)
    requires FirstClash(front, e)
    ensures FirstClash(front + more, e) && !NoOverlap(front + more)
  {
    var vs := front + more;
    var l :| 0 <= l < |front| && front[l] == Visit(e.pid, e.at) && NoOverlap(front[..l]) &&
      e.occupant != e.pid && exists k :: 0 <= k < l && front[k] == Visit(e.occupant, e.at);
    var k :| 0 <= k < l && front[k] == Visit(e.occupant, e.at);
    assert front[..l] == vs[..l];
    assert vs[l] == front[l] && vs[k] == front[k];
  }

  /** A visit to a cell no earlier visit touched keeps the visits clash-free and covered. */
  lemma StepToFreeCell(h: Grid, front: seq<Visit>, v: Visit)
    requires NoOverlap(front) && Covers(h, front) && InGrid(h, v.at)
    requires h[v.at.0][v.at.1] == None
    ensures NoOverlap(front + [v]) && Covers(Mark(h, v.pid, v.at), front + [v])
  {
    var vs := front + [v];
    forall k | 0 <= k < |front| ensures vs[k] == front[k] && front[k].at != v.at {
      assert h[front[k].at.0][front[k].at.1] == Some(front[k].pid);
    }
    CoversAfterMark(h, front, v);
  }

  /** A visit to a cell its own piece already holds keeps the visits clash-free and covered. */
  lemma StepToOwnCell(h: Grid, front: seq<Visit>, v: Visit)
    requires NoOverlap(front) && Covers(h, front) && InGrid(h, v.at)
    requires h[v.at.0][v.at.1] == Some(v.pid)
    ensures NoOverlap(front + [v]) && Covers(Mark(h, v.pid, v.at), front + [v])
  {
    var vs := front + [v];
    var k0 :| 0 <= k0 < |front| && front[k0].at == v.at;
    forall k | 0 <= k < |front| && front[k].at == v.at ensures front[k].pid == v.pid {
      assert h[front[k].at.0][front[k].at.1] == Some(front[k].pid);
    }
    assert forall k :: 0 <= k < |front| ==> vs[k] == front[k];
    CoversAfterMark(h, front, v);
  }

  /** A visit to a cell another piece holds is the first clash. */
  lemma StepToTakenCell(h: Grid, front: seq<Visit>, v: Visit)
    requires NoOverlap(front) && Covers(h, front) && InGrid(h, v.at)
    requires h[v.at.0][v.at.1] != None && h[v.at.0][v.at.1] != Some(v.pid)
    ensures FirstClash(front + [v], PieceConflict(h[v.at.0][v.at.1].value, v.pid, v.at))
  {
    var vs := front + [v];
    var k0 :| 0 <= k0 < |front| && front[k0].at == v.at;
    assert h[front[k0].at.0][front[k0].at.1] == Some(front[k0].pid);
    assert vs[..|front|] == front;
    assert vs[k0] == front[k0] && vs[|front|] == v;
  }

  /**
   * The checked construction continued from a grid that records the clash-free visits `done`:
   * it succeeds exactly when `done + vs` is clash-free, then covers all of it, and otherwise
   * reports the first clash of `done + vs`.
   */
  lemma {:induction false} CheckedAfter(g: Grid, done: seq<Visit>, vs: seq<Visit>)
    requires NoOverlap(done) && Covers(g, done) && AllInGrid(g, vs)
    ensures var r := Checked(g, vs);
      && (r.Built? <==> NoOverlap(done + vs))
      && (r.Built? ==> Covers(r.grid, done + vs))
      && (r.Failed? ==> FirstClash(done + vs, r.conflict))
    decreases |vs|
  {
    if vs == [] {
      assert done + vs == done;
    } else {
      var v := vs[0];
      assert InGrid(g, vs[0].at);
      assert (done + [v]) + vs[1..] == done + vs;
      var cell := g[v.at.0][v.at.1];
      if cell == None || cell == Some(v.pid) {
        if cell == None {
          StepToFreeCell(g, done, v);
        } else {
          StepToOwnCell(g, done, v);
        }
        var g' := Mark(g, v.pid, v.at);
        forall k | 0 <= k < |vs[1..]| ensures InGrid(g', vs[1..][k].at) {
          assert InGrid(g, vs[k + 1].at);
        }
        CheckedAfter(g', done + [v], vs[1..]);
      } else {
        StepToTakenCell(g, done, v);
        ClashExtends(done + [v], vs[1..], PieceConflict(cell.value, v.pid, v.at));
      }
    }
  }

  /**
   * The checked construction from an empty grid succeeds exactly when no cell is claimed by two
   * pieces; it then marks every visited cell with its piece and leaves the rest empty; and when
   * it fails it reports the first clash.
   */
  lemma CheckedFromEmpty(rows: int, cols: int, vs: seq<Visit>)
    requires AllInGrid(EmptyGrid(rows, cols), vs)
    ensures var r := Checked(EmptyGrid(rows, cols), vs);
      && (r.Built? <==> NoOverlap(vs))
      && (r.Built? ==> Covers(r.grid, vs))
      && (r.Failed? ==> FirstClash(vs, r.conflict))
  {
    CheckedAfter(EmptyGrid(rows, cols), [], vs);
    assert [] + vs == vs;
  }

  /**
   * One iteration of the checked loops: the construction still owed from grid `g` is the write of
   * `v`'s cell followed by the rest, or the error when another piece holds that cell.
   */
  lemma StepChecked(g: Grid, v: Visit, mid: seq<Visit>, tail: seq<Visit>)
    requires AllInGrid(g, ([v] + mid) + tail)
    ensures InGrid(g, v.at)
    ensures g[v.at.0][v.at.1] == None || g[v.at.0][v.at.1] == Some(v.pid) ==>
              AllInGrid(Mark(g, v.pid, v.at), mid + tail) &&
              Checked(g, ([v] + mid) + tail) == Checked(Mark(g, v.pid, v.at), mid + tail)
    ensures g[v.at.0][v.at.1] != None && g[v.at.0][v.at.1] != Some(v.pid) ==>
              Checked(g, ([v] + mid) + tail) == Failed(g, PieceConflict(g[v.at.0][v.at.1].value, v.pid, v.at))
  {
    var vs := ([v] + mid) + tail;
    assert vs[0] == v && vs[1..] == mid + tail;
    assert InGrid(g, vs[0].at);
    var g' := Mark(g, v.pid, v.at);
    forall k | 0 <= k < |mid + tail| ensures InGrid(g', (mid + tail)[k].at) {
      assert (mid + tail)[k] == vs[k + 1];
      assert InGrid(g, vs[k + 1].at);
    }
  }

  /**
   * The state of the checked loops: from grid `g`, the visits `rest` still to come lie on the
   * grid and complete the construction with `result`.
   */
  ghost function Owed(g: Grid, rest: seq<Visit>): Option<BuildResult>
  {
    if AllInGrid(g, rest) then Some(Checked(g, rest)) else None
  }


  lemma OwedEnterPiece(g: Grid, layout: seq<(int, Placement)>, k: int, pid: int, pos: Coord, dim: Coord, result: BuildResult)
    requires 0 <= k < |layout| && layout[k] == (pid, Placement(pos, dim)) && Owed(g, Visits(layout[k..])) == Some(result)
    ensures Owed(g, RowsFrom(pid, pos.0, pos.0 + dim.0, pos.1, pos.1 + dim.1) + Visits(layout[k + 1..])) == Some(result)
  {
    EnterPiece(layout, k, pid, Placement(pos, dim), Visits(layout[k..]));
  }

  lemma OwedEnterRow(g: Grid, pid: int, i: int, r1: int, c0: int, c1: int, tail: seq<Visit>, result: BuildResult)
    requires i < r1 && Owed(g, RowsFrom(pid, i, r1, c0, c1) + tail) == Some(result)
    ensures Owed(g, CellsFrom(pid, i, c0, r1, c0, c1) + tail) == Some(result)
  {
    EnterRow(pid, i, r1, c0, c1);
  }

  lemma OwedLeaveCells(g: Grid, pid: int, i: int, j: int, r1: int, c0: int, c1: int, tail: seq<Visit>, result: BuildResult)
    requires c1 <= j && Owed(g, CellsFrom(pid, i, j, r1, c0, c1) + tail) == Some(result)
    ensures Owed(g, RowsFrom(pid, i + 1, r1, c0, c1) + tail) == Some(result)
  {
    LeaveCells(pid, i, j, r1, c0, c1);
  }

  lemma OwedLeaveRows(g: Grid, pid: int, i: int, r1: int, c0: int, c1: int, tail: seq<Visit>, result: BuildResult)
    requires r1 <= i && Owed(g, RowsFrom(pid, i, r1, c0, c1) + tail) == Some(result)
    ensures Owed(g, tail) == Some(result)
  {
    LeaveRows(pid, i, r1, c0, c1);
    assert [] + tail == tail;
  }

  /** Before the piece loop: from the empty grid the whole checked construction is owed. */
  lemma OwedStart(dim: Coord, layout: seq<(int, Placement)>)
    requires AllVisitsInGrid(dim, layout)
    ensures Owed(EmptyGrid(dim.0, dim.1), Visits(layout[0..])) == Some(ConstructChecked(dim, layout))
  {
    assert layout[0..] == layout;
    assert AllInGrid(EmptyGrid(dim.0, dim.1), Visits(layout));
  }

  /** After the piece loop: nothing is owed, so the construction built the current grid. */
  lemma OwedDone(g: Grid, layout: seq<(int, Placement)>, result: BuildResult)
    requires Owed(g, Visits(layout[|layout|..])) == Some(result)
    ensures result == Built(g)
  {
    assert layout[|layout|..] == [];
  }

  /** One iteration of the checked column loop, at cell `(i, j)`. */
  lemma OwedCell(g: Grid, pid: int, i: int, j: int, r1: int, c0: int, c1: int, tail: seq<Visit>, result: BuildResult)
    requires j < c1 && Owed(g, CellsFrom(pid, i, j, r1, c0, c1) + tail) == Some(result)
    ensures InGrid(g, (i, j))
    ensures g[i][j] == None || g[i][j] == Some(pid) ==>
              Owed(g[i := g[i][j := Some(pid)]], CellsFrom(pid, i, j + 1, r1, c0, c1) + tail) == Some(result)
    ensures g[i][j] != None && g[i][j] != Some(pid) ==>
              result == Failed(g, PieceConflict(g[i][j].value, pid, (i, j)))
  {
    EnterCell(pid, i, j, r1, c0, c1);
    StepChecked(g, Visit(pid, (i, j)), CellsFrom(pid, i, j + 1, r1, c0, c1), tail);
  }

  /** Marking the cell of one more clash-free visit extends the coverage by that visit. */
  lemma CoversAfterMark(h: Grid, front: seq<Visit>, v: Visit)
    requires Covers(h, front) && InGrid(h, v.at)
    requires h[v.at.0][v.at.1] == None || h[v.at.0][v.at.1] == Some(v.pid)
    requires forall k :: 0 <= k < |front| && front[k].at == v.at ==> front[k].pid == v.pid
    ensures Covers(Mark(h, v.pid, v.at), front + [v])
  {
    var m, vs := Mark(h, v.pid, v.at), front + [v];
    forall k | 0 <= k < |vs| ensures InGrid(m, vs[k].at) && m[vs[k].at.0][vs[k].at.1] == Some(vs[k].pid) {
      if k < |front| {
        assert vs[k] == front[k];
      }
    }
    forall i, j | 0 <= i < |m| && 0 <= j < |m[i]| && m[i][j] != None
      ensures exists k :: 0 <= k < |vs| && vs[k].at == (i, j)
    {
      if (i, j) == v.at {
        assert vs[|front|].at == (i, j);
      } else {
        var k :| 0 <= k < |front| && front[k].at == (i, j);
        assert vs[k] == front[k];
      }
    }
  }

  /** Each piece's rectangle `[pos0, pos0+dim0) x [pos1, pos1+dim1)` lies within the grid. */
  predicate PiecesInGrid(dim: Coord, layout: seq<(int, Placement)>)
  {
    forall k :: 0 <= k < |layout| ==> var p := layout[k].1;
      0 <= p.pos.0 && p.pos.0 + p.dim.0 <= dim.0 && 0 <= p.pos.1 && p.pos.1 + p.dim.1 <= dim.1
  }

  /** When every piece's rectangle lies within the grid, so does every visited cell. */
  lemma PiecesInGridVisitsInGrid(dim: Coord, layout: seq<(int, Placement)>)
    requires PiecesInGrid(dim, layout)
    ensures AllVisitsInGrid(dim, layout)
  {
    var vs := Visits(layout);
    forall n | 0 <= n < |vs| ensures 0 <= vs[n].at.0 < dim.0 && 0 <= vs[n].at.1 < dim.1 {
      VisitsComeFromPieces(layout, n);
      var k :| 0 <= k < |layout| && vs[n].pid == layout[k].0 && vs[n].at in Footprint(layout[k].1);
      FootprintIsRowMajor(layout[k].1);
    }
  }

  /**
   * `Board(dim, pieces)` with the `raise` under an `else`: it builds the board exactly when no
   * two pieces claim a cell, marking every footprint cell with its piece's id and leaving the
   * rest empty; otherwise it raises at the first clash in visiting order.
   */
  function ConstructChecked(dim: Coord, layout: seq<(int, Placement)>): (r: BuildResult)
    requires AllVisitsInGrid(dim, layout)
    ensures SameShape(r.grid, EmptyGrid(dim.0, dim.1))
    ensures r.Built? <==> NoOverlap(Visits(layout))
    ensures r.Built? ==> Covers(r.grid, Visits(layout))
    ensures r.Failed? ==> FirstClash(Visits(layout), r.conflict)
  {
    assert AllInGrid(EmptyGrid(dim.0, dim.1), Visits(layout));
    CheckedFromEmpty(dim.0, dim.1, Visits(layout));
    Checked(EmptyGrid(dim.0, dim.1), Visits(layout))
  }

  /** Two different ids at one cell, both before `m`, break `NoOverlap` of the first `m` visits. */
  lemma ClashSpoilsLonger(vs: seq<Visit>, k: int, l: int, m: int)
    requires 0 <= k < l < |vs| && m <= |vs|
    ensures vs[k].at == vs[l].at && vs[k].pid != vs[l].pid && l < m ==> !NoOverlap(vs[..m])
  {
    if l < m {
      assert vs[..m][k] == vs[k] && vs[..m][l] == vs[l];
    }
  }

  /** A layout has at most one first clash. */
  lemma FirstClashUnique(vs: seq<Visit>, c: Conflict, e: Conflict)
    requires FirstClash(vs, c) && FirstClash(vs, e)
    ensures c == e
  {
    var l :| 0 <= l < |vs| && vs[l] == Visit(c.pid, c.at) && NoOverlap(vs[..l]) &&
      c.occupant != c.pid && exists k :: 0 <= k < l && vs[k] == Visit(c.occupant, c.at);
    var k :| 0 <= k < l && vs[k] == Visit(c.occupant, c.at);
    var m :| 0 <= m < |vs| && vs[m] == Visit(e.pid, e.at) && NoOverlap(vs[..m]) &&
      e.occupant != e.pid && exists n :: 0 <= n < m && vs[n] == Visit(e.occupant, e.at);
    var n :| 0 <= n < m && vs[n] == Visit(e.occupant, e.at);
    ClashSpoilsLonger(vs, k, l, m);
    ClashSpoilsLonger(vs, n, m, l);
    assert l == m;
    assert vs[..l][n] == vs[n] && vs[..l][k] == vs[k];
  }

  /**
   * As written, a mapping whose first piece is a valid piece on the grid raises at that piece's
   * top-left cell, reporting the piece as its own rival, with that one cell written.
   */
  lemma AsWrittenFailsAtFirstCell(dim: Coord, layout: seq<(int, Placement)>)
    requires layout != [] && layout[0].1.dim.0 >= 1 && layout[0].1.dim.1 >= 1
    requires 0 <= layout[0].1.pos.0 < dim.0 && 0 <= layout[0].1.pos.1 < dim.1
    ensures FirstVisitInGrid(dim, layout)
    ensures var pid, pos, g := layout[0].0, layout[0].1.pos, EmptyGrid(dim.0, dim.1);
      Construct(dim, layout) == Failed(g[pos.0 := g[pos.0][pos.1 := Some(pid)]], PieceConflict(pid, pid, pos))
  {
    var pid, p := layout[0].0, layout[0].1;
    VisitsFrom(layout, 0);
    assert layout[0..] == layout;
    FootprintStartsAtPos(p);
    assert Visits(layout)[0] == Visit(pid, p.pos);
  }

  /**
   * As written, a mapping of valid pieces builds a board only when it is empty: every piece
   * `Piece` accepts has a cell, and the first such cell raises.
   */
  lemma AsWrittenBuildsOnlyEmpty(dim: Coord, layout: seq<(int, Placement)>)
    requires forall k :: 0 <= k < |layout| ==> layout[k].1.dim.0 >= 1 && layout[k].1.dim.1 >= 1
    requires FirstVisitInGrid(dim, layout)
    ensures Construct(dim, layout).Built? <==> layout == []
  {
    if layout != [] {
      VisitsFrom(layout, 0);
      assert layout[0..] == layout;
      FootprintEmpty(layout[0].1);
    }
  }

  /** The single layout of one 1 x 1 piece at the origin of a 1 x 1 board. */
  const LoneSquare: seq<(int, Placement)> := [(0, Placement((0, 0), (1, 1)))]

  /**
   * The unconditional `raise` rejects a layout without any clash: a single 1 x 1 piece on a
   * 1 x 1 board raises "both piece 0 and piece 0 are at (0, 0)", while the checked construction
   * builds the board.
   */
  lemma AsWrittenRejectsLoneSquare()
    ensures NoOverlap(Visits(LoneSquare))
    ensures FirstVisitInGrid((1, 1), LoneSquare) && AllVisitsInGrid((1, 1), LoneSquare)
    ensures Construct((1, 1), LoneSquare) == Failed([[Some(0)]], PieceConflict(0, 0, (0, 0)))
    ensures ConstructChecked((1, 1), LoneSquare) == Built([[Some(0)]])
  {
    LoneSquareVisits();
    AsWrittenFailsAtFirstCell((1, 1), LoneSquare);
    var g := EmptyGrid(1, 1);
    assert |g| == 1 && |g[0]| == 1;
    assert g[0][0 := Some(0)] == [Some(0)];
    assert g[0 := g[0][0 := Some(0)]] == [[Some(0)]];
    var r := ConstructChecked((1, 1), LoneSquare);
    assert r.Built?;
    assert |r.grid| == 1 && |r.grid[0]| == 1;
    assert r.grid[0][0] == Some(0);
    assert r.grid == [[Some(0)]];
  }

  lemma LoneSquareVisits()
    ensures Visits(LoneSquare) == [Visit(0, (0, 0))]
  {
    var p := Placement((0, 0), (1, 1));
    assert Footprint(p) == [(0, 0)] by {
      assert Rect(0, 1, 0, 1) == Rect(0, 0, 0, 1) + RowSpan(0, 0, 1);
    }
    assert LoneSquare[..0] == [];
  }

}
