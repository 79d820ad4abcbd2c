/** Pieces of the sliding-block puzzle (Piece.py): a position, a shape, a colour and an ASCII box. */
module Pieces {
  import opened Common

  /** A (row, column) pair: a piece's top-left position or its (height, width). */
  type Coord = (int, int)

  /** An RGB triple. */
  type Color = (int, int, int)

  datatype PieceError = InvalidDimensions(dim: Coord)

  /** `color_map`: one colour per key; its four keys are the four shapes of the puzzle. */
  const ColorMap: map<Coord, Color> :=
    map[(1, 1) := (0, 0, 255), (2, 1) := (255, 255, 0), (1, 2) := (0, 255, 0), (2, 2) := (255, 0, 0)]

  /** `color_map.get(key, None)`. */
  function ColorMapGet(key: Coord): (r: Option<Color>)
    ensures r.Some? <==> key == (1, 1) || key == (2, 1) || key == (1, 2) || key == (2, 2)
    ensures key == (1, 1) ==> r == Some((0, 0, 255))
    ensures key == (2, 1) ==> r == Some((255, 255, 0))
    ensures key == (1, 2) ==> r == Some((0, 255, 0))
    ensures key == (2, 2) ==> r == Some((255, 0, 0))
  {
    if key in ColorMap then Some(ColorMap[key]) else None
  }

  /** Python's `c * n` for a one-character string `c`: empty when `n <= 0`. */
  function Repeat(c: char, n: int): (s: string)
    ensures |s| == Nat(n)
    ensures forall k :: 0 <= k < |s| ==> s[k] == c
    decreases n
  {
    if n <= 0 then [] else Repeat(c, n - 1) + [c]
  }

  /** Line `i` of a box `height` lines high with `numMiddle` characters between its edges. */
  function BoxLine(i: int, height: int, numMiddle: int): string
  {
    if i == 0 then " " + Repeat('_', numMiddle) + " "
    else if i == height - 1 then "|" + Repeat('_', numMiddle) + "|"
    else "|" + Repeat(' ', numMiddle) + "|"
  }

  /** The list of lines `__post_init__` builds for a piece of height `d0` and width `d1`. */
  function BoxLines(d0: int, d1: int): seq<string>
  {
    seq(Nat(d0 * 3), i => BoxLine(i, d0 * 3, d1 * 5 - 2))
  }

  /**
   * Reference picture of a box outline, character by character: the top line is underscores
   * between two blanks, the bottom line underscores between two bars, every other line blanks
   * between two bars.
   */
  function Outline(row: int, col: int, height: int, width: int): char
  {
    if row == 0 then (if col == 0 || col == width - 1 then ' ' else '_')
    else if col == 0 || col == width - 1 then '|'
    else if row == height - 1 then '_'
    else ' '
  }

  /** A valid piece's box is `3 * d0` lines of `5 * d1` characters each, drawn as `Outline`. */
  lemma BoxLinesOutline(d0: int, d1: int)
    requires d0 >= 1 && d1 >= 1
    ensures |BoxLines(d0, d1)| == 3 * d0
    ensures forall row :: 0 <= row < 3 * d0 ==> |BoxLines(d0, d1)[row]| == 5 * d1
    ensures forall row, col :: 0 <= row < 3 * d0 && 0 <= col < 5 * d1 ==>
              BoxLines(d0, d1)[row][col] == Outline(row, col, 3 * d0, 5 * d1)
  {
    var lines := BoxLines(d0, d1);
    forall row, col | 0 <= row < 3 * d0 && 0 <= col < 5 * d1
      ensures |lines[row]| == 5 * d1 && lines[row][col] == Outline(row, col, 3 * d0, 5 * d1)
    {
      var m := d1 * 5 - 2;
      assert lines[row] == BoxLine(row, d0 * 3, m);
      if 0 < col < 5 * d1 - 1 {
        var under, blank := Repeat('_', m), Repeat(' ', m);
        assert under[col - 1] == '_' && blank[col - 1] == ' ';
      }
    }
  }

  /** The boxes of the smallest and the largest shape, spelt out. */
  lemma ShapeBoxes()
    ensures BoxLines(1, 1) == [" ___ ", "|   |", "|___|"]
    ensures BoxLines(2, 2) ==
              [" ________ ", "|        |", "|        |", "|        |", "|        |", "|________|"]
  {
    var small, large := BoxLines(1, 1), BoxLines(2, 2);
    assert Repeat('_', 3) == "___" && Repeat(' ', 3) == "   ";
    assert small[0] == " ___ " && small[1] == "|   |" && small[2] == "|___|";
    assert Repeat('_', 8) == "________" && Repeat(' ', 8) == "        ";
    assert large[0] == " ________ " && large[5] == "|________|";
    assert large[1] == large[2] == large[3] == large[4] == "|        |";
  }

  /** Pieces of one shape share a colour, and the four shapes of the puzzle have four colours. */
  lemma ShapeColoursDistinct(a: Coord, b: Coord)
    requires a in ColorMap && b in ColorMap
    ensures ColorMapGet(a).Some? && ColorMapGet(b).Some?
    ensures ColorMapGet(a) == ColorMapGet(b) <==> a == b
  {
  }

  /**
   * The lookup by position disagrees with the lookup by shape: two pieces of the shape (1, 2) of
   * the default layout, at (2, 1) and at (4, 2), receive the colour of shape (2, 1) and no
   * colour at all, where their shape has the colour (0, 255, 0).
   */
  lemma PositionColourDiffers()
    ensures ColorMapGet((2, 1)) == Some((255, 255, 0)) && ColorMapGet((4, 2)) == None
    ensures ColorMapGet((1, 2)) == Some((0, 255, 0))
  {
  }

  /** A puzzle piece: `pos` and `dim` are fixed at creation; `__post_init__` sets `col` and `strList`. */
  class Piece {
    const pos: Coord
    const dim: Coord
    var col: Option<Color>
    var strList: seq<string>

    /** The generated dataclass initialiser before `__post_init__`: `col` takes its default `None`. */
    constructor (pos: Coord, dim: Coord)
      ensures this.pos == pos && this.dim == dim
      ensures col == None && strList == []
    {
      this.pos := pos;
      this.dim := dim;
      col := None;
      strList := [];
    }

    /** The `for` loop of `__post_init__`: a fresh `str_list` filled with the box, line by line. */
    method DrawBox()
      modifies this
      ensures col == old(col) && strList == BoxLines(dim.0, dim.1)
    {
      strList := [];
      var charHeight := dim.0 * 3;
      var i := 0;
      while i < dim.0 * 3
        invariant 0 <= i <= Nat(charHeight)
        invariant |strList| == i && col == old(col)
        invariant forall k :: 0 <= k < i ==> strList[k] == BoxLine(k, charHeight, dim.1 * 5 - 2)
      {
        var numMiddle := dim.1 * 5 - 2;
        var lineStr;
        if i == 0 {
          lineStr := " " + Repeat('_', numMiddle) + " ";
        } else if i == charHeight - 1 {
          lineStr := "|" + Repeat('_', numMiddle) + "|";
        } else {
          lineStr := "|" + Repeat(' ', numMiddle) + "|";
        }
        strList := strList + [lineStr];
        i := i + 1;
      }
      assert strList == BoxLines(dim.0, dim.1);
    }

    /**
     * `__post_init__` as written: validate the shape, look the colour up by the piece's
     * position, draw the box.
     */
    method PostInit() returns (r: Outcome<PieceError>)
      modifies this
      ensures r.Fail? <==> dim.0 < 1 || dim.1 < 1
      ensures r.Fail? ==> r.error == InvalidDimensions(dim) && col == old(col) && strList == old(strList)
      ensures r.Pass? ==> col == ColorMapGet(pos) && strList == BoxLines(dim.0, dim.1)
    {
      if dim.0 < 1 || dim.1 < 1 {
        return Fail(InvalidDimensions(dim));
      }
      col := ColorMapGet(pos);
      DrawBox();
      return Pass;
    }

    /** `__post_init__` with the colour looked up by the piece's shape, the keys of `color_map`. */
    method PostInitByShape() returns (r: Outcome<PieceError>)
      modifies this
      ensures r.Fail? <==> dim.0 < 1 || dim.1 < 1
      ensures r.Fail? ==> r.error == InvalidDimensions(dim) && col == old(col) && strList == old(strList)
      ensures r.Pass? ==> col == ColorMapGet(dim) && strList == BoxLines(dim.0, dim.1)
    {
      if dim.0 < 1 || dim.1 < 1 {
        return Fail(InvalidDimensions(dim));
      }
      col := ColorMapGet(dim);
      DrawBox();
      return Pass;
    }

    /** The generated dataclass `__eq__`: `col` is declared with `compare=False`. */
    predicate Eq(other: Piece)
    {
      pos == other.pos && dim == other.dim
    }
  }

  /** `Piece(pos, dim)`: the dataclass initialiser followed by `__post_init__`. */
  method NewPiece(pos: Coord, dim: Coord) returns (r: Result<Piece, PieceError>)
    ensures r.Failure? <==> dim.0 < 1 || dim.1 < 1
    ensures r.Failure? ==> r.error == InvalidDimensions(dim)
    ensures r.Success? ==> fresh(r.value) && r.value.pos == pos && r.value.dim == dim
    ensures r.Success? ==> r.value.col == ColorMapGet(pos) && r.value.strList == BoxLines(dim.0, dim.1)
  {
    var p := new Piece(pos, dim);
    var o := p.PostInit();
    if o.Fail? {
      return Failure(o.error);
    }
    return Success(p);
  }

  /**
   * `col` is declared with `compare=False`: the piece `Piece((2, 1), (1, 2))` as written and a piece
   * with the same arguments whose colour is looked up by shape are two objects of different colours
   * with the same box, and they compare equal.
   */
  method EqIgnoresColour() returns (p: Piece, q: Piece)
    ensures p != q && p.col != q.col && p.strList == q.strList && p.Eq(q)
  {
    var r := NewPiece((2, 1), (1, 2));
    p := r.value;
    q := new Piece((2, 1), (1, 2));
    var o := q.PostInitByShape();
  }
}
