/**
 * The order in which `Board.__init__` visits cells: pieces in mapping order, and for each piece
 * the rows of its footprint top to bottom, each row left to right (the nested `range` loops of
 * Board.py).
 */
module Footprints {
  import opened Common

  /** A (row, column) pair. */
  type Coord = (int, int)

  /** What the board reads of a piece: the top-left cell `pos` and the (height, width) `dim`. */
  datatype Placement = Placement(pos: Coord, dim: Coord)

  /** One iteration of the innermost loop: piece `pid` at cell `at`. */
  datatype Visit = Visit(pid: int, at: Coord)

  /** The cells `(i, j)` for `j in range(lo, hi)`, in loop order. */
  function RowSpan(i: int, lo: int, hi: int): (r: seq<Coord>)
    ensures |r| == Nat(hi - lo)
    ensures forall k :: 0 <= k < |r| ==> r[k] == (i, lo + k)
    decreases hi - lo
  {
    if hi <= lo then [] else RowSpan(i, lo, hi - 1) + [(i, hi - 1)]
  }

  /** The cells of `for i in range(r0, r1): for j in range(c0, c1)`, in loop order. */
  function Rect(r0: int, r1: int, c0: int, c1: int): seq<Coord>
    decreases r1 - r0
  {
    if r1 <= r0 then [] else Rect(r0, r1 - 1, c0, c1) + RowSpan(r1 - 1, c0, c1)
  }

  /** The cells the board visits for one piece. */
  function Footprint(p: Placement): seq<Coord>
  {
    Rect(p.pos.0, p.pos.0 + p.dim.0, p.pos.1, p.pos.1 + p.dim.1)
  }

  /** The cells `cs`, each visited on behalf of piece `pid`. */
  function Tagged(pid: int, cs: seq<Coord>): (vs: seq<Visit>)
    ensures |vs| == |cs|
    ensures forall k :: 0 <= k < |vs| ==> vs[k] == Visit(pid, cs[k])
  {
    seq(|cs|, k requires 0 <= k < |cs| => Visit(pid, cs[k]))
  }

  /** Every visit of the construction loops, for the pieces of `layout` in mapping order. */
  function Visits(layout: seq<(int, Placement)>): seq<Visit>
  {
    if layout == [] then []
    else
      var last := layout[|layout| - 1];
      Visits(layout[..|layout| - 1]) + Tagged(last.0, Footprint(last.1))
  }

  /** `a` comes strictly before `b` in row-major order. */
  predicate RowMajorBefore(a: Coord, b: Coord)
  {
    a.0 < b.0 || (a.0 == b.0 && a.1 < b.1)
  }

  /** `p` lies in the rectangle of rows `[r0, r1)` and columns `[c0, c1)`. */
  predicate InRect(p: Coord, r0: int, r1: int, c0: int, c1: int)
  {
    r0 <= p.0 < r1 && c0 <= p.1 < c1
  }

  /** The nested loops visit exactly the cells of the rectangle, each once, in row-major order. */
  lemma {:induction false} RectIsRowMajor(r0: int, r1: int, c0: int, c1: int)
    ensures forall p :: p in Rect(r0, r1, c0, c1) <==> InRect(p, r0, r1, c0, c1)
    ensures forall k, l :: 0 <= k < l < |Rect(r0, r1, c0, c1)| ==>
              RowMajorBefore(Rect(r0, r1, c0, c1)[k], Rect(r0, r1, c0, c1)[l])
    decreases r1 - r0
  {
    if r1 > r0 {
      RectIsRowMajor(r0, r1 - 1, c0, c1);
      var top, row := Rect(r0, r1 - 1, c0, c1), RowSpan(r1 - 1, c0, c1);
      var r := top + row;
      assert r == Rect(r0, r1, c0, c1);
      forall p ensures p in r <==> InRect(p, r0, r1, c0, c1) {
        if p in row {
          var k :| 0 <= k < |row| && row[k] == p;
        }
        if InRect(p, r0, r1, c0, c1) && p.0 == r1 - 1 {
          assert row[p.1 - c0] == p;
        }
      }
      forall k, l | 0 <= k < l < |r| ensures RowMajorBefore(r[k], r[l]) {
        if l < |top| {
          assert r[k] == top[k] && r[l] == top[l];
        } else if k < |top| {
          assert r[k] in top;
        }
      }
    }
  }

  /** The footprint of a piece is its rectangle `[pos0, pos0+dim0) x [pos1, pos1+dim1)`, row-major. */
  lemma FootprintIsRowMajor(p: Placement)
    ensures forall c :: c in Footprint(p) <==>
              InRect(c, p.pos.0, p.pos.0 + p.dim.0, p.pos.1, p.pos.1 + p.dim.1)
    ensures forall k, l :: 0 <= k < l < |Footprint(p)| ==> RowMajorBefore(Footprint(p)[k], Footprint(p)[l])
  {
    RectIsRowMajor(p.pos.0, p.pos.0 + p.dim.0, p.pos.1, p.pos.1 + p.dim.1);
  }

  /** The loops visit nothing for a piece exactly when one of its dimensions is below 1. */
  lemma FootprintEmpty(p: Placement)
    ensures Footprint(p) == [] <==> p.dim.0 < 1 || p.dim.1 < 1
  {
    FootprintIsRowMajor(p);
    if p.dim.0 >= 1 && p.dim.1 >= 1 {
      assert p.pos in Footprint(p);
    }
    if Footprint(p) != [] {
      assert Footprint(p)[0] in Footprint(p);
    }
  }

  /** For a piece at least one cell in each direction, the first visited cell is its top-left. */
  lemma FootprintStartsAtPos(p: Placement)
    requires p.dim.0 >= 1 && p.dim.1 >= 1
    ensures Footprint(p) != [] && Footprint(p)[0] == p.pos
  {
    FootprintEmpty(p);
    FootprintIsRowMajor(p);
    var f := Footprint(p);
    var c := f[0];
    assert p.pos in f;
    var k :| 0 <= k < |f| && f[k] == p.pos;
    assert c in f;
    assert !RowMajorBefore(c, f[k]);
  }

  /** The footprints of the four shapes of the puzzle, cell by cell in visiting order. */
  lemma ShapeFootprints(pos: Coord)
    ensures Footprint(Placement(pos, (1, 1))) == [pos]
    ensures Footprint(Placement(pos, (1, 2))) == [pos, (pos.0, pos.1 + 1)]
    ensures Footprint(Placement(pos, (2, 1))) == [pos, (pos.0 + 1, pos.1)]
    ensures Footprint(Placement(pos, (2, 2))) == [pos, (pos.0, pos.1 + 1), (pos.0 + 1, pos.1), (pos.0 + 1, pos.1 + 1)]
  {
    var (r, c) := pos;
    assert RowSpan(r, c, c + 1) == [pos];
    assert RowSpan(r + 1, c, c + 1) == [(r + 1, c)];
    assert RowSpan(r, c, c + 2) == [pos, (r, c + 1)];
    assert RowSpan(r + 1, c, c + 2) == [(r + 1, c), (r + 1, c + 1)];
    assert Rect(r, r + 1, c, c + 1) == Rect(r, r, c, c + 1) + RowSpan(r, c, c + 1);
    assert Rect(r, r + 1, c, c + 2) == Rect(r, r, c, c + 2) + RowSpan(r, c, c + 2);
    assert Rect(r, r + 2, c, c + 1) == Rect(r, r + 1, c, c + 1) + RowSpan(r + 1, c, c + 1);
    assert Rect(r, r + 2, c, c + 2) == Rect(r, r + 1, c, c + 2) + RowSpan(r + 1, c, c + 2);
  }

  /** The visits the loops make for a piece of each of the four shapes. */
  lemma ShapeVisits(pid: int, pos: Coord)
    ensures Tagged(pid, Footprint(Placement(pos, (1, 1)))) == [Visit(pid, pos)]
    ensures Tagged(pid, Footprint(Placement(pos, (1, 2)))) == [Visit(pid, pos), Visit(pid, (pos.0, pos.1 + 1))]
    ensures Tagged(pid, Footprint(Placement(pos, (2, 1)))) == [Visit(pid, pos), Visit(pid, (pos.0 + 1, pos.1))]
    ensures Tagged(pid, Footprint(Placement(pos, (2, 2)))) ==
              [Visit(pid, pos), Visit(pid, (pos.0, pos.1 + 1)), Visit(pid, (pos.0 + 1, pos.1)), Visit(pid, (pos.0 + 1, pos.1 + 1))]
  {
    ShapeFootprints(pos);
  }

  /** Visiting two consecutive parts of a mapping is visiting the first, then the second. */
  lemma {:induction false} VisitsAppend(a: seq<(int, Placement)>, b: seq<(int, Placement)>)
    ensures Visits(a + b) == Visits(a) + Visits(b)
    decreases |b|
  {
    if b != [] {
      var b' := b[..|b| - 1];
      assert (a + b)[..|a + b| - 1] == a + b';
      VisitsAppend(a, b');
    } else {
      assert a + b == a;
    }
  }

  /** The visits of a mapping are those of its first `k` pieces, then piece `k`, then the rest. */
  lemma {:induction false} VisitsSplit(layout: seq<(int, Placement)>, k: int)
    requires 0 <= k < |layout|
    ensures Visits(layout) ==
              Visits(layout[..k]) + Tagged(layout[k].0, Footprint(layout[k].1)) + Visits(layout[k + 1..])
  {
    var front, rest := layout[..k + 1], layout[k + 1..];
    assert layout == front + rest;
    VisitsAppend(front, rest);
    assert front[..k] == layout[..k] && front[k] == layout[k];
    assert Visits(front) == Visits(layout[..k]) + Tagged(layout[k].0, Footprint(layout[k].1));
  }

  /** The visit at position `n` belongs to one of the mapping's pieces and lies in its footprint. */
  lemma {:induction false} VisitsComeFromPieces(layout: seq<(int, Placement)>, n: int)
    requires 0 <= n < |Visits(layout)|
    ensures exists k :: 0 <= k < |layout| && Visits(layout)[n].pid == layout[k].0 &&
              Visits(layout)[n].at in Footprint(layout[k].1)
  {
    var front := layout[..|layout| - 1];
    var last := layout[|layout| - 1];
    if n < |Visits(front)| {
      VisitsComeFromPieces(front, n);
      var k :| 0 <= k < |front| && Visits(front)[n].pid == front[k].0 && Visits(front)[n].at in Footprint(front[k].1);
      assert layout[k] == front[k];
    } else {
      var t := Tagged(last.0, Footprint(last.1));
      assert Visits(layout)[n] == t[n - |Visits(front)|];
      assert Footprint(last.1)[n - |Visits(front)|] in Footprint(last.1);
    }
  }

  /** The column loop, seen from its first iteration. */
  lemma RowSpanFront(i: int, lo: int, hi: int)
    requires lo < hi
    ensures RowSpan(i, lo, hi) == [(i, lo)] + RowSpan(i, lo + 1, hi)
  {
    var a, b := RowSpan(i, lo, hi), [(i, lo)] + RowSpan(i, lo + 1, hi);
    assert |a| == |b|;
    forall k | 0 <= k < |a| ensures a[k] == b[k] {
      if k > 0 {
        assert b[k] == RowSpan(i, lo + 1, hi)[k - 1];
      }
    }
  }

  /** The row loop, seen from its first iteration. */
  lemma {:induction false} RectFront(r0: int, r1: int, c0: int, c1: int)
    requires r0 < r1
    ensures Rect(r0, r1, c0, c1) == RowSpan(r0, c0, c1) + Rect(r0 + 1, r1, c0, c1)
    decreases r1 - r0
  {
    if r1 > r0 + 1 {
      RectFront(r0, r1 - 1, c0, c1);
    }
  }

  lemma TaggedAppend(pid: int, a: seq<Coord>, b: seq<Coord>)
    ensures Tagged(pid, a + b) == Tagged(pid, a) + Tagged(pid, b)
  {
    assert |Tagged(pid, a + b)| == |Tagged(pid, a) + Tagged(pid, b)|;
  }

  /** The visits from piece `k` on are those of piece `k`, then those of the pieces after it. */
  lemma VisitsFrom(layout: seq<(int, Placement)>, k: int)
    requires 0 <= k < |layout|
    ensures Visits(layout[k..]) == Tagged(layout[k].0, Footprint(layout[k].1)) + Visits(layout[k + 1..])
  {
    assert layout[k..] == [layout[k]] + layout[k + 1..];
    VisitsAppend([layout[k]], layout[k + 1..]);
    assert [layout[k]][..0] == [];
  }

  /** The visits the loops of one piece still owe from row `i` on. */
  function RowsFrom(pid: int, i: int, r1: int, c0: int, c1: int): seq<Visit>
  {
    Tagged(pid, Rect(i, r1, c0, c1))
  }

  /** The visits the loops of one piece still owe from cell `(i, j)` on. */
  function CellsFrom(pid: int, i: int, j: int, r1: int, c0: int, c1: int): seq<Visit>
  {
    Tagged(pid, RowSpan(i, j, c1)) + RowsFrom(pid, i + 1, r1, c0, c1)
  }

  /** Entering piece `k`: its rows are owed first, then the pieces after it. */
  lemma EnterPiece(layout: seq<(int, Placement)>, k: int, pid: int, p: Placement, s: seq<Visit>)
    requires 0 <= k < |layout| && layout[k] == (pid, p) && s == Visits(layout[k..])
    ensures s == RowsFrom(pid, p.pos.0, p.pos.0 + p.dim.0, p.pos.1, p.pos.1 + p.dim.1) + Visits(layout[k + 1..])
  {
    VisitsFrom(layout, k);
  }

  /** Entering row `i` of a piece. */
  lemma EnterRow(pid: int, i: int, r1: int, c0: int, c1: int)
    requires i < r1
    ensures RowsFrom(pid, i, r1, c0, c1) == CellsFrom(pid, i, c0, r1, c0, c1)
  {
    RectFront(i, r1, c0, c1);
    TaggedAppend(pid, RowSpan(i, c0, c1), Rect(i + 1, r1, c0, c1));
  }

  /** Leaving the row loop: nothing is owed for this piece. */
  lemma LeaveRows(pid: int, i: int, r1: int, c0: int, c1: int)
    requires r1 <= i
    ensures RowsFrom(pid, i, r1, c0, c1) == []
  {
  }

  /** One iteration of the column loop owes the visit of `(i, j)`. */
  lemma EnterCell(pid: int, i: int, j: int, r1: int, c0: int, c1: int)
    requires j < c1
    ensures CellsFrom(pid, i, j, r1, c0, c1) == [Visit(pid, (i, j))] + CellsFrom(pid, i, j + 1, r1, c0, c1)
  {
    RowSpanFront(i, j, c1);
    TaggedAppend(pid, [(i, j)], RowSpan(i, j + 1, c1));
  }

  /** Leaving the column loop: the next row is owed. */
  lemma LeaveCells(pid: int, i: int, j: int, r1: int, c0: int, c1: int)
    requires c1 <= j
    ensures CellsFrom(pid, i, j, r1, c0, c1) == RowsFrom(pid, i + 1, r1, c0, c1)
  {
  }
}
