# Sliding-block puzzle: board and piece construction

A Dafny model of the two construction routines of a sliding-block ("Sunset") puzzle solver.

- `Board(dim, pieces)` allocates a `dim[0] x dim[1]` grid of empty cells. It then walks every piece's footprint rectangle `[pos0, pos0+dim0) x [pos1, pos1+dim1)`, pieces in mapping order and each footprint row by row, writing the piece id into every cell that is empty or already holds that id.
- `Piece(pos, dim)` rejects shapes smaller than 1 x 1. It looks up a colour in `color_map` and draws an ASCII box of `3*dim[0]` lines of `5*dim[1]` characters.

Modules:

- `Common`: `Option`, `Outcome` (pass or error), `Result`, and a clamp to `nat` for Python's `range` and string repetition on negative counts.
- `Pieces` (Piece.py):
  - `color_map` and its lookup;
  - the box lines as functions, with a character-by-character reference picture;
  - class `Piece` with const `pos`/`dim` and mutable `col`/`strList`. `PostInit` is `__post_init__`, whose `for` loop is `DrawBox`.
- `Footprints` (Board.py:21-23): the order of the construction loops. `Visits(layout)` is the sequence of (piece id, cell) pairs the innermost body sees. Loop-step lemmas relate the loop counters to the suffix of that sequence still owed.
- `Grids` (Board.py:19-27):
  - the grid and the conditional write `Mark`;
  - `Construct`, the construction as written;
  - `ConstructChecked`, the construction with the conflict check the error message describes, characterised without recursion: it builds the grid iff no cell is claimed by two ids, the built grid is the footprints' cover, and a failure reports the first clash.
- `Boards` (Board.py):
  - class `Board` with const `dim` and mutable `board`. The constructor is lines 18-19; `Fill` and `FillChecked` are the loops of lines 21-27, as written and checked.
  - `NewBoard` / `NewBoardChecked`: the whole `__init__`.
  - `default_pieces` as `DefaultLayout`.

The Python mapping `pieces` is a sequence of (id, `Piece`) pairs in insertion order. The board reads only each piece's `pos` and `dim` (`Layout`).

The error message at Board.py:27 ("Piece conflict: both piece … and piece … are at …") describes the evident intent: construction fails only when two pieces claim a cell. No other documentation states it. As written, Board.py:27 raises on the first visited cell. The model follows the code in `Construct`/`Fill` and models the intent separately; see Findings. The checked construction fails on `default_pieces` too: pieces 8 and 9 share cell (4, 3) (`Boards.DefaultOverlaps`).

## Model

| member | source | states |
|---|---|---|
| Pieces.ColorMapGet | Piece.py:4-9 | the lookup returns a colour exactly for the four keys (1,1), (2,1), (1,2), (2,2), each its own RGB triple, and `None` for every other key |
| Pieces.Repeat | Piece.py:60-64 | `c * n` has length `max(n, 0)` and consists of `c` only |
| Pieces.BoxLinesOutline | Piece.py:56-65 | a valid piece's box has `3*dim0` lines, each `5*dim1` characters long, and every character is the reference outline's: blanks at the top corners, bars on both edges below, underscores on the top and bottom lines, blanks inside |
| Pieces.ShapeBoxes | Piece.py:56-65 | the 1x1 box is `" ___ "`, `"\|   \|"`, `"\|___\|"`, and the 2x2 box is six lines of width 10 |
| Pieces.ShapeColoursDistinct | Piece.py:4-9 | the four shapes each get a colour, and two of them get the same colour only if they are the same shape |
| Pieces.PositionColourDiffers | Piece.py:53 | the lookup by position gives the default pieces at (2,1) and (4,2), both of shape (1,2), the colour of shape (2,1) and no colour; their shape's colour is (0,255,0) |
| Pieces.Piece.constructor | Piece.py:44-48 | the dataclass initialiser records `pos` and `dim`; `col` starts as `None` |
| Pieces.Piece.DrawBox | Piece.py:54-65 | the loop leaves `strList` equal to the box lines of the piece's shape and does not touch `col` |
| Pieces.Piece.PostInit | Piece.py:50-65 | fails with `InvalidDimensions(dim)` iff a dimension is below 1, changing nothing; otherwise `col` is `color_map` looked up by `pos` and `strList` is the box |
| Pieces.Piece.PostInitByShape | Piece.py:50-65 | like `PostInit`, but `col` is `color_map` looked up by the piece's shape `dim` |
| Pieces.NewPiece | Piece.py:44-65 | `Piece(pos, dim)` fails iff a dimension is below 1; otherwise it yields a fresh piece with that `pos`/`dim`, the colour looked up by `pos` and the box lines |
| Pieces.EqIgnoresColour | Piece.py:44-48 | `col` is excluded from comparison: two distinct `Piece((2, 1), (1, 2))` objects, one coloured by position and one by shape, have different colours yet compare equal |
| Footprints.RowSpan | Board.py:23 | the column loop visits `(i, lo), ..., (i, hi-1)`, `max(hi-lo, 0)` cells |
| Footprints.RectIsRowMajor | Board.py:22-23 | the nested loops visit exactly the cells of the rectangle, in strictly increasing row-major order, so each cell once |
| Footprints.FootprintIsRowMajor | Board.py:22-23 | a piece's visited cells are exactly `[pos0, pos0+dim0) x [pos1, pos1+dim1)`, in row-major order |
| Footprints.FootprintEmpty | Board.py:22-23 | the loops visit no cell for a piece iff one of its dimensions is below 1 |
| Footprints.FootprintStartsAtPos | Board.py:22-23 | for a piece of at least 1x1 the first visited cell is `pos` |
| Footprints.ShapeFootprints | Board.py:22-23 | the cells visited for each of the four shapes, in order |
| Footprints.ShapeVisits | Board.py:21-23 | the visits the loops make for a piece of each of the four shapes |
| Footprints.VisitsAppend | Board.py:21 | visiting two consecutive parts of the mapping is visiting the first part, then the second |
| Footprints.VisitsSplit | Board.py:21 | the visits for a mapping are those of the pieces before `k`, then piece `k`'s footprint, then those after `k` |
| Footprints.VisitsFrom | Board.py:21 | the visits from entry `k` on are entry `k`'s footprint followed by the visits of the later entries |
| Footprints.VisitsComeFromPieces | Board.py:21-23 | every visit is made on behalf of some entry of the mapping and lies in that entry's footprint |
| Grids.EmptyGrid | Board.py:19 | the allocated grid has `dim0` rows of `dim1` cells, each `None` |
| Grids.Mark | Board.py:25-26 | the write sets the cell to `pid` iff it held `None` or `pid`; a cell holding another id is left alone, and no other cell changes |
| Grids.Construct | Board.py:21-27 | as written, construction succeeds iff no cell is visited at all, then with the empty grid; otherwise it raises at the first visited cell, naming that piece as both occupant and intruder, with only that cell written |
| Grids.AsWrittenFailsAtFirstCell | Board.py:21-27 | for a mapping whose first piece is valid and on the grid, construction raises at that piece's `pos` with only that cell set to its id |
| Grids.AsWrittenBuildsOnlyEmpty | Board.py:21-27 | for a mapping of valid pieces, construction as written succeeds iff the mapping is empty |
| Grids.AsWrittenRejectsLoneSquare | Board.py:25-27 | a single 1x1 piece on a 1x1 board has no clash, yet as written it raises "both piece 0 and piece 0 are at (0, 0)"; the checked construction builds `[[0]]` |
| Grids.Checked | Board.py:21-27 | the checked loops keep the grid's shape |
| Grids.CheckedAfter | Board.py:21-27 | continuing the checked loops from a grid that covers clash-free earlier visits succeeds iff all visits together are clash-free; it then covers them, and otherwise reports their first clash |
| Grids.CheckedFromEmpty | Board.py:19-27 | from the empty grid, the checked loops succeed iff no cell is claimed by two ids; they then mark every visited cell with its id and no other; a failure is the first clash |
| Grids.ConstructChecked | Board.py:19-27 | the checked construction keeps the grid's shape, builds iff no two pieces claim a cell, builds exactly the footprint cover, and otherwise reports the first clash |
| Grids.FirstClashUnique | Board.py:27 | the first clash of a visiting order, including the occupant it reports, is unique |
| Grids.PiecesInGridVisitsInGrid | Board.py:21-25 | when every piece's rectangle lies within the grid, every visited cell does |
| Boards.Board.constructor | Board.py:18-19 | records `dim` and allocates the empty `dim0 x dim1` grid |
| Boards.Board.Fill | Board.py:21-27 | the loops as written leave the board and outcome `Construct` describes |
| Boards.Board.PlaceChecked | Board.py:22-27 | one piece's rows and columns with the check move the construction one entry on, or raise with exactly the error the checked construction reports |
| Boards.Board.PlaceRowChecked | Board.py:23-27 | one row's columns with the check move the construction on to the next row, or raise with exactly the error the checked construction reports |
| Boards.Board.FillChecked | Board.py:21-27 | the checked loops leave the board `ConstructChecked` builds, or raise with its error and grid |
| Boards.NewBoard | Board.py:17-27 | `Board(dim, pieces)` as written: a fresh board with that `dim` whose grid and outcome are `Construct`'s |
| Boards.NewBoardChecked | Board.py:17-27 | `Board(dim, pieces)` with the check: a fresh board whose grid and outcome are `ConstructChecked`'s |
| Boards.DefaultAsWritten | Board.py:3-27 | as written, `Board()` with `default_pieces` raises "both piece 0 and piece 0 are at (0, 1)", with only cell (0, 1) written |
| Boards.DefaultColours | Piece.py:53 | looked up by shape, each of the ten default pieces has a colour; looked up by position, only piece 3 (at (2, 1)) has one |
| Boards.DefaultFrontOwned | Board.py:3-12 | pieces 0 to 8 of `default_pieces` do not overlap: every cell they visit belongs to the piece visiting it |
| Boards.DefaultOverlaps | Board.py:3-14 | `default_pieces` lies on the 5x4 grid, but the checked construction raises `PieceConflict(8, 9, (4, 3))`: pieces 8 and 9 both cover (4, 3) |

## Left out

- Sunset.py (the interactive terminal loop, the click command, `move_map`): terminal input and output. It calls board operations that Board.py does not define.
- `Board.simple_print` and the `__main__` blocks of Board.py and Piece.py: console output only.
- `str_map` (Piece.py:11-42): a constant nothing reads.
- Successor generation, the state codec, the heuristic, best-first search and path reconstruction: no code for them exists in Board.py or Piece.py.
- The meaning of the colour triples and their terminal styling: `col` is only an optional triple from the map.
- Grids.Construct: requires the first visited cell to lie on the grid. Python's negative-index wrap-around and `IndexError` on out-of-range footprints are not modelled.
- Boards.Board.Fill: the same precondition as `Construct`. The column loop is an `if`, because its body always ends in the `raise` and so never starts a second iteration.
- Grids.ConstructChecked: requires every visited cell to lie on the grid. The same holds for `Boards.Board.FillChecked`, `Boards.Board.PlaceChecked`, `Boards.Board.PlaceRowChecked` and `Boards.NewBoardChecked`.
- Boards.Board.FillChecked: the loop body over one mapping entry is the method `PlaceChecked`, and its column loop is `PlaceRowChecked`.
- Piece ids are integers, and the mapping is a sequence of pairs. That a Python dict holds each key once is not required; the construction never relies on it.
- After a `raise`, Python discards the half-built `Board`. The model returns it with its grid, so the state at the moment of failure can be stated.
- The model does not represent `str_list` before `__post_init__` runs. There the attribute does not exist; the model starts it as the empty list.
- Pieces.Piece.Eq: the generated `__eq__` also requires both objects to be of the same class. Only `Piece` objects exist in the model.
- Pieces.NewPiece: keeps the lookup by position as written; the corrected lookup is `PostInitByShape`.

## Findings

| source | as written | input that shows it | evidently intended | confidence | as-written member | corrected member |
|---|---|---|---|---|---|---|
| Board.py:27 | the `raise` follows the conditional write at the same indentation, so it runs for every visited cell | one 1x1 piece with id 0 at (0, 0) on a 1x1 board raises "both piece 0 and piece 0 are at (0, 0)"; the default `Board()` raises at (0, 1) for piece 0 | raise only when the cell holds a different id (an `else:` branch), as the message "Piece conflict" says | high; not executed | Grids.AsWrittenRejectsLoneSquare | Grids.ConstructChecked |
| Piece.py:53 | `color_map` is looked up with the piece's position `self.pos` | default pieces 3 (pos (2,1)) and 8 (pos (4,2)) have the same shape (1,2), yet get colours (255,255,0) and `None`; nine of the ten default pieces get no colour | `color_map.get(self.dim, None)`: the map's keys are exactly the four shapes | medium; not executed | Pieces.PositionColourDiffers | Pieces.Piece.PostInitByShape |
