/**
 * What a star puts on the terminal: the cells `render` asks for in each state,
 * and the writes `mvsquare` issues for one two-column cell after clipping it
 * against the screen size. The terminal's own drawing is not modelled; a
 * write here is one `mvaddch` call with the colour pair switched on for it.
 */
module Screen {
  import opened Lifecycle

  /** A request to draw one two-column cell whose left column is `col`. */
  datatype Cell = Cell(row: int, col: int)

  /** One `mvaddch` of a space at (row, col) with colour pair `pair` on. */
  datatype Write = Write(row: int, col: int, pair: int)

  /** The colour pair a star of colour `clr` draws with: pairs 1..3 are cyan, magenta, yellow. */
  function Pair(clr: StarColor): (p: int)
    ensures 1 <= p <= 3
  {
    ColorIndex(clr) + 1
  }

  /**
   * `mvsquare(y, x, clr)` on a screen of `maxy` rows and `maxx` columns (the values
   * of `getmaxy` and `getmaxx`): nothing unless the row is on screen and
   * -1 <= x <= maxx; then column x if it is not negative, and column x + 1.
   */
  function MvSquare(y: int, x: int, clr: StarColor, maxy: int, maxx: int): (w: seq<Write>)
    ensures |w| <= 2
    ensures forall k :: 0 <= k < |w| ==> w[k].row == y && w[k].pair == Pair(clr)
  {
    if y >= 0 && y < maxy && x >= -1 && x <= maxx then
      (if x >= 0 then [Write(y, x, Pair(clr))] else []) +
      (if x <= maxx then [Write(y, x + 1, Pair(clr))] else [])
    else []
  }

  /**
   * The writes of `mvsquare`, exactly: a write happens only on an on-screen row,
   * only for -1 <= x <= maxx, at column x when x >= 0 and at column x + 1
   * always, both with the star's colour pair. So a write's column is in
   * [0, maxx + 1]; columns maxx and maxx + 1 lie past the last screen column.
   */
  lemma MvSquareWrites(y: int, x: int, clr: StarColor, maxy: int, maxx: int, wr: Write)
    ensures wr in MvSquare(y, x, clr, maxy, maxx) <==>
              wr.row == y && 0 <= y < maxy && -1 <= x <= maxx && wr.pair == Pair(clr) &&
              ((wr.col == x && x >= 0) || wr.col == x + 1)
    ensures wr in MvSquare(y, x, clr, maxy, maxx) ==> 0 <= wr.col <= maxx + 1
  {
  }

  /**
   * The cells `render` requests for a star at (y, x) in state `l`, in the order
   * of the source's calls. An embryo matches no case and requests nothing.
   */
  function Requests(l: Life, y: int, x: int): (cells: seq<Cell>)
    ensures cells == [] <==> l == Embrion
  {
    match l
    case Embrion => []
    case Born | Oldf => [Cell(y, x)]
    case Teen | Old =>
      [Cell(y - 1, x), Cell(y, x - 2), Cell(y, x), Cell(y, x + 2), Cell(y + 1, x)]
    case Adult =>
      [Cell(y - 2, x), Cell(y - 1, x - 2), Cell(y - 1, x + 2), Cell(y, x - 4),
       Cell(y, x + 4), Cell(y + 1, x - 2), Cell(y + 1, x + 2), Cell(y + 2, x)]
  }

  /** The cell (y + dy, x + dx) for the offset (dy, dx). */
  function Shift(c: Cell, dy: int, dx: int): Cell
  {
    Cell(c.row + dy, c.col + dx)
  }

  /** The size of the glyph in each state: 0 cells for Embrion, 1 for Born and Oldf, 5 for Teen and Old, 8 for Adult. */
  lemma RequestCount(l: Life, y: int, x: int)
    ensures |Requests(l, y, x)| == match l
      case Embrion => 0
      case Born | Oldf => 1
      case Teen | Old => 5
      case Adult => 8
  {
  }

  /** The glyph does not depend on where the star is: it is the glyph at (0, 0) moved to (y, x). */
  lemma RequestsTranslate(l: Life, y: int, x: int)
    ensures |Requests(l, y, x)| == |Requests(l, 0, 0)|
    ensures forall k :: 0 <= k < |Requests(l, y, x)| ==>
              Requests(l, y, x)[k] == Shift(Requests(l, 0, 0)[k], y, x)
  {
  }

  /** The "diamond" distance 2|dy| + |dx| of a cell from (y, x): one row is as far as two columns. */
  function Ring(c: Cell, y: int, x: int): nat
  {
    2 * Abs(c.row - y) + Abs(c.col - x)
  }

  /**
   * The shape of the glyph: every requested cell lies on the star's column grid
   * (an even column offset) and on a diamond ring around the star: ring 0 for
   * Born and Oldf, ring 0 or 2 for Teen and Old, exactly ring 4 for Adult.
   */
  lemma RequestsRing(l: Life, y: int, x: int)
    ensures forall k :: 0 <= k < |Requests(l, y, x)| ==>
              var c := Requests(l, y, x)[k];
              c.col - x in {-4, -2, 0, 2, 4} &&
              (l == Born || l == Oldf ==> Ring(c, y, x) == 0) &&
              (l == Teen || l == Old ==> Ring(c, y, x) == 0 || Ring(c, y, x) == 2) &&
              (l == Adult ==> Ring(c, y, x) == 4)
  {
  }

  /** No cell is requested twice in one `render`. */
  lemma RequestsDistinct(l: Life, y: int, x: int)
    ensures forall i, j :: 0 <= i < j < |Requests(l, y, x)| ==> Requests(l, y, x)[i] != Requests(l, y, x)[j]
  {
  }

  /** The glyph is symmetric under mirroring the rows through the star's row. */
  lemma RequestsSymmetricRows(l: Life, y: int, x: int)
    ensures forall c :: c in Requests(l, y, x) ==> Cell(2 * y - c.row, c.col) in Requests(l, y, x)
  {
  }

  /** The glyph is symmetric under mirroring the columns through the star's column. */
  lemma RequestsSymmetricColumns(l: Life, y: int, x: int)
    ensures forall c :: c in Requests(l, y, x) ==> Cell(c.row, 2 * x - c.col) in Requests(l, y, x)
  {
  }

  /** Every requested cell is at most two rows and four columns from the star. */
  lemma RequestNear(l: Life, y: int, x: int, c: Cell)
    requires c in Requests(l, y, x)
    ensures Abs(c.row - y) <= 2 && Abs(c.col - x) <= 4
  {
  }

  /** The star's own cell is drawn in every state but Embrion and Adult. */
  lemma RequestsCentre(l: Life, y: int, x: int)
    ensures Cell(y, x) in Requests(l, y, x) <==> l != Embrion && l != Adult
  {
  }

  function Abs(n: int): nat
  {
    if n < 0 then -n else n
  }

  /** The writes of `mvsquare` for each requested cell, in order. */
  function Paint(cells: seq<Cell>, clr: StarColor, maxy: int, maxx: int): (w: seq<Write>)
    ensures |w| <= 2 * |cells|
    ensures forall k :: 0 <= k < |w| ==> w[k].pair == Pair(clr)
  {
    if cells == [] then []
    else MvSquare(cells[0].row, cells[0].col, clr, maxy, maxx) + Paint(cells[1..], clr, maxy, maxx)
  }

  /** A write is in the painting of some cells exactly when `mvsquare` of one of those cells issues it. */
  lemma {:induction false} PaintWrites(cells: seq<Cell>, clr: StarColor, maxy: int, maxx: int, wr: Write)
    ensures wr in Paint(cells, clr, maxy, maxx) <==>
              exists k :: 0 <= k < |cells| && wr in MvSquare(cells[k].row, cells[k].col, clr, maxy, maxx)
  {
    if cells != [] {
      PaintWrites(cells[1..], clr, maxy, maxx, wr);
      if wr in Paint(cells[1..], clr, maxy, maxx) {
        var k :| 0 <= k < |cells[1..]| && wr in MvSquare(cells[1..][k].row, cells[1..][k].col, clr, maxy, maxx);
        assert cells[k + 1] == cells[1..][k];
      }
      if exists k :: 0 <= k < |cells| && wr in MvSquare(cells[k].row, cells[k].col, clr, maxy, maxx) {
        var k :| 0 <= k < |cells| && wr in MvSquare(cells[k].row, cells[k].col, clr, maxy, maxx);
        if k > 0 {
          assert cells[1..][k - 1] == cells[k];
        }
      }
    }
  }

  /**
   * A write issued while painting the glyph of a star at (y, x) in state `l` is
   * on screen in its row, at a column in [0, maxx + 1] (up to two columns past
   * the last screen column, maxx - 1), in the star's colour pair, and comes from
   * a requested cell at most two rows and four columns from the star that passed
   * the clipping rule.
   */
  lemma GlyphWrite(l: Life, y: int, x: int, clr: StarColor, maxy: int, maxx: int, wr: Write)
    requires wr in Paint(Requests(l, y, x), clr, maxy, maxx)
    ensures 0 <= wr.row < maxy && 0 <= wr.col <= maxx + 1 && wr.pair == Pair(clr)
    ensures Abs(wr.row - y) <= 2 && -4 <= wr.col - x <= 5
    ensures -5 <= x <= maxx + 4
  {
    var cells := Requests(l, y, x);
    PaintWrites(cells, clr, maxy, maxx, wr);
    var k :| 0 <= k < |cells| && wr in MvSquare(cells[k].row, cells[k].col, clr, maxy, maxx);
    var c := cells[k];
    MvSquareWrites(c.row, c.col, clr, maxy, maxx, wr);
    RequestNear(l, y, x, c);
  }

  /** Every write of one `render` of star `s` obeys the bounds of `GlyphWrite`. */
  lemma RenderBounds(s: StarValue, maxy: int, maxx: int)
    ensures forall wr :: wr in Paint(Requests(s.state, s.y, s.x), s.clr, maxy, maxx) ==>
              0 <= wr.row < maxy && 0 <= wr.col <= maxx + 1 && wr.pair == Pair(s.clr) &&
              Abs(wr.row - s.y) <= 2 && -4 <= wr.col - s.x <= 5
  {
    forall wr | wr in Paint(Requests(s.state, s.y, s.x), s.clr, maxy, maxx)
      ensures 0 <= wr.row < maxy && 0 <= wr.col <= maxx + 1 && wr.pair == Pair(s.clr) &&
              Abs(wr.row - s.y) <= 2 && -4 <= wr.col - s.x <= 5
    {
      GlyphWrite(s.state, s.y, s.x, s.clr, maxy, maxx, wr);
    }
  }

  /** Everything one `render` of star `s` writes, clipped to a screen of `maxy` rows and `maxx` columns. */
  function Render(s: StarValue, maxy: int, maxx: int): (w: seq<Write>)
    ensures forall wr :: wr in w ==>
              0 <= wr.row < maxy && 0 <= wr.col <= maxx + 1 && wr.pair == Pair(s.clr) &&
              Abs(wr.row - s.y) <= 2 && -4 <= wr.col - s.x <= 5
    ensures s.state == Embrion ==> w == []
  {
    RenderBounds(s, maxy, maxx);
    Paint(Requests(s.state, s.y, s.x), s.clr, maxy, maxx)
  }

  /**
   * A star so far from the screen that no cell of its glyph can pass the
   * clipping rule (more than two rows above or below, more than five columns
   * left of it or more than four columns past `maxx`) issues no write at all.
   */
  lemma RenderOffScreen(s: StarValue, maxy: int, maxx: int)
    requires s.y < -2 || s.y > maxy + 1 || s.x < -5 || s.x > maxx + 4
    ensures Render(s, maxy, maxx) == []
  {
    var w := Render(s, maxy, maxx);
    if w != [] {
      assert w[0] in w;
      GlyphWrite(s.state, s.y, s.x, s.clr, maxy, maxx, w[0]);
    }
  }

  /**
   * A star whose every requested square (columns c and c + 1 of row r) lies
   * outside the visible screen of rows [0, maxy) and columns [0, maxx) draws
   * nothing visible: every write it still issues falls on column maxx or maxx + 1.
   */
  lemma RenderOffVisible(s: StarValue, maxy: int, maxx: int)
    requires forall c :: c in Requests(s.state, s.y, s.x) ==>
               c.row < 0 || c.row >= maxy || c.col < -1 || c.col >= maxx
    ensures forall wr :: wr in Render(s, maxy, maxx) ==> maxx <= wr.col <= maxx + 1
  {
    var cells := Requests(s.state, s.y, s.x);
    forall wr | wr in Render(s, maxy, maxx)
      ensures maxx <= wr.col <= maxx + 1
    {
      PaintWrites(cells, s.clr, maxy, maxx, wr);
      var k :| 0 <= k < |cells| && wr in MvSquare(cells[k].row, cells[k].col, s.clr, maxy, maxx);
      assert cells[k] in cells;
      MvSquareWrites(cells[k].row, cells[k].col, s.clr, maxy, maxx, wr);
    }
  }

  /** The writes of one frame: each star's `render`, in pool order. */
  function FrameWrites(stars: seq<StarValue>, maxy: int, maxx: int): (w: seq<Write>)
    ensures forall wr :: wr in w ==> 0 <= wr.row < maxy && 0 <= wr.col <= maxx + 1
    ensures forall wr :: wr in w ==> exists k :: 0 <= k < |stars| && wr.pair == Pair(stars[k].clr)
    decreases |stars|
  {
    if stars == [] then []
    else FrameWrites(stars[..|stars| - 1], maxy, maxx) + Render(stars[|stars| - 1], maxy, maxx)
  }

  /** Drawing one more star of the pool appends exactly that star's writes. */
  lemma FrameWritesExtend(stars: seq<StarValue>, i: nat, maxy: int, maxx: int)
    requires i < |stars|
    ensures FrameWrites(stars[..i + 1], maxy, maxx) == FrameWrites(stars[..i], maxy, maxx) + Render(stars[i], maxy, maxx)
  {
    assert stars[..i + 1][..i] == stars[..i];
  }
}
