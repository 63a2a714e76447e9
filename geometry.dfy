/**
 * The grid's geometry: the content region of the target, the rect of each
 * cell (`_get_content_rect` and `_get_cell_rect` in grid.py) and the union of
 * two cells that a spanning item covers.
 */
module Geometry {
  import opened Wrappers
  import opened PyBuiltins

  datatype Point = Point(x: real, y: real)

  datatype Rect = Rect(x: real, y: real, width: real, height: real)

  /** The grid's settings, as `configuration()` reports them: the row count and the
      column count are the lengths of the two weight sequences. */
  datatype Config = Config(rowWeights: seq<real>, colWeights: seq<real>, spacing: Point, padding: Point)
  {
    function Rows(): nat { |rowWeights| }

    function Cols(): nat { |colWeights| }
  }

  /** The target's region minus the padding on both sides. Only the target's width
      and height are used: the region's origin is the padding itself. */
  function ContentRect(padding: Point, width: real, height: real): (r: Rect)
    ensures r.x == padding.x && r.y == padding.y
    ensures padding.x + r.width + padding.x == width
    ensures padding.y + r.height + padding.y == height
  {
    Rect(padding.x, padding.y, width - padding.x - padding.x, height - padding.y - padding.y)
  }

  /** Both weight sums are non-zero, so the per-weight units can be computed. */
  predicate Divisible(c: Config) {
    Sum(c.colWeights) != 0.0 && Sum(c.rowWeights) != 0.0
  }

  /** The extent of one unit of weight along an axis. */
  function Unit(extent: real, weights: seq<real>): (u: real)
    requires Sum(weights) != 0.0
    ensures u * Sum(weights) == extent
  {
    extent / Sum(weights)
  }

  /**
   * `_get_cell_rect(row, col)` for a target of the given width and height, in the
   * order the source evaluates it: the two divisions by the weight sums (a zero sum
   * raises ZeroDivisionError), then the column and row lookups (IndexError), then
   * the cell's offset from the sum of the weights before it and its size, each
   * inset by the spacing.
   */
  function CellRect(c: Config, width: real, height: real, row: int, col: int): (r: Result<Rect, Error>)
  {
    var content := ContentRect(c.padding, width, height);
    if Sum(c.colWeights) == 0.0 || Sum(c.rowWeights) == 0.0 then Failure(ZeroDivisionError)
    else
      var unitX := content.width / Sum(c.colWeights);
      var unitY := content.height / Sum(c.rowWeights);
      if !ValidIndex(col, c.Cols()) || !ValidIndex(row, c.Rows()) then Failure(IndexError)
      else
        var xCellWeight := c.colWeights[Norm(col, c.Cols())];
        var yCellWeight := c.rowWeights[Norm(row, c.Rows())];
        var x := content.x + c.spacing.x / 2.0 + unitX * Sum(Prefix(c.colWeights, col));
        var y := content.y + c.spacing.y / 2.0 + unitY * Sum(Prefix(c.rowWeights, row));
        Success(Rect(x, y, unitX * xCellWeight - c.spacing.x, unitY * yCellWeight - c.spacing.y))
  }

  /** When a cell rect fails, and with which exception. */
  lemma CellRectOutcome(c: Config, width: real, height: real, row: int, col: int)
    ensures CellRect(c, width, height, row, col).Failure? <==>
              !Divisible(c) || !ValidIndex(row, c.Rows()) || !ValidIndex(col, c.Cols())
    ensures !Divisible(c) ==> CellRect(c, width, height, row, col) == Failure(ZeroDivisionError)
    ensures Divisible(c) && !(ValidIndex(row, c.Rows()) && ValidIndex(col, c.Cols())) ==>
              CellRect(c, width, height, row, col) == Failure(IndexError)
  {
  }

  /**
   * The closed form of a cell: with unit = content width / column weight sum, the
   * cell's x is padding + spacing/2 + unit * (sum of the weights of the columns
   * before it) and its width is unit * its weight - spacing; rows likewise.
   */
  lemma CellRectClosedForm(c: Config, width: real, height: real, row: int, col: int)
    requires Divisible(c) && ValidIndex(row, c.Rows()) && ValidIndex(col, c.Cols())
    ensures CellRect(c, width, height, row, col).Success?
    ensures var r := CellRect(c, width, height, row, col).value;
            var i, j := Norm(col, c.Cols()), Norm(row, c.Rows());
            var unitX := Unit(width - 2.0 * c.padding.x, c.colWeights);
            var unitY := Unit(height - 2.0 * c.padding.y, c.rowWeights);
            && r.x == c.padding.x + c.spacing.x / 2.0 + unitX * Sum(c.colWeights[..i])
            && r.y == c.padding.y + c.spacing.y / 2.0 + unitY * Sum(c.rowWeights[..j])
            && r.width == unitX * c.colWeights[i] - c.spacing.x
            && r.height == unitY * c.rowWeights[j] - c.spacing.y
  {
  }

  /** A negative row index selects the same cell as the row it counts to from the end. */
  lemma NegativeRow(c: Config, width: real, height: real, row: int, col: int)
    requires -(c.Rows() as int) <= row < 0
    ensures CellRect(c, width, height, row, col) == CellRect(c, width, height, row + c.Rows(), col)
  {
    var row' := row + c.Rows();
    CellRectOutcome(c, width, height, row, col);
    CellRectOutcome(c, width, height, row', col);
    if Divisible(c) && ValidIndex(col, c.Cols()) {
      assert Norm(row, c.Rows()) == Norm(row', c.Rows());
      assert Prefix(c.rowWeights, row) == Prefix(c.rowWeights, row');
      assert CellRect(c, width, height, row, col).Success?;
      assert CellRect(c, width, height, row', col).Success?;
      assert CellRect(c, width, height, row, col).value.y == CellRect(c, width, height, row', col).value.y;
      assert CellRect(c, width, height, row, col).value.height == CellRect(c, width, height, row', col).value.height;
      assert CellRect(c, width, height, row, col).value.x == CellRect(c, width, height, row', col).value.x;
    }
  }

  /** A negative column index selects the same cell as the column it counts to from the end. */
  lemma NegativeColumn(c: Config, width: real, height: real, row: int, col: int)
    requires -(c.Cols() as int) <= col < 0
    ensures CellRect(c, width, height, row, col) == CellRect(c, width, height, row, col + c.Cols())
  {
    var col' := col + c.Cols();
    CellRectOutcome(c, width, height, row, col);
    CellRectOutcome(c, width, height, row, col');
    if Divisible(c) && ValidIndex(row, c.Rows()) {
      assert Norm(col, c.Cols()) == Norm(col', c.Cols());
      assert Prefix(c.colWeights, col) == Prefix(c.colWeights, col');
      assert CellRect(c, width, height, row, col).Success?;
      assert CellRect(c, width, height, row, col').Success?;
      assert CellRect(c, width, height, row, col).value.x == CellRect(c, width, height, row, col').value.x;
      assert CellRect(c, width, height, row, col).value.width == CellRect(c, width, height, row, col').value.width;
      assert CellRect(c, width, height, row, col).value.y == CellRect(c, width, height, row, col').value.y;
    }
  }

  /** A negative index denotes the cell it counts to from the end; an index below
      minus the count raises IndexError. */
  lemma NegativeIndex(c: Config, width: real, height: real, row: int, col: int)
    ensures -(c.Rows() as int) <= row < 0 ==>
              CellRect(c, width, height, row, col) == CellRect(c, width, height, row + c.Rows(), col)
    ensures -(c.Cols() as int) <= col < 0 ==>
              CellRect(c, width, height, row, col) == CellRect(c, width, height, row, col + c.Cols())
    ensures Divisible(c) && (row < -(c.Rows() as int) || col < -(c.Cols() as int)) ==>
              CellRect(c, width, height, row, col) == Failure(IndexError)
  {
    CellRectOutcome(c, width, height, row, col);
    if -(c.Rows() as int) <= row < 0 {
      NegativeRow(c, width, height, row, col);
    }
    if -(c.Cols() as int) <= col < 0 {
      NegativeColumn(c, width, height, row, col);
    }
  }

  /** The next column starts where this one's untrimmed extent ends: the offset
      advances by the cell's width plus the spacing it gave up. */
  lemma NextColumn(c: Config, width: real, height: real, row: int, col: nat)
    requires Divisible(c) && ValidIndex(row, c.Rows()) && col + 1 < c.Cols()
    ensures CellRect(c, width, height, row, col).Success?
    ensures CellRect(c, width, height, row, col + 1).Success?
    ensures var a, b := CellRect(c, width, height, row, col).value, CellRect(c, width, height, row, col + 1).value;
            b.x == a.x + a.width + c.spacing.x && b.y == a.y && b.height == a.height
  {
    SumPrefixStep(c.colWeights, col);
  }

  /** The next row starts where this one's untrimmed extent ends. */
  lemma NextRow(c: Config, width: real, height: real, row: nat, col: int)
    requires Divisible(c) && row + 1 < c.Rows() && ValidIndex(col, c.Cols())
    ensures CellRect(c, width, height, row, col).Success?
    ensures CellRect(c, width, height, row + 1, col).Success?
    ensures var a, b := CellRect(c, width, height, row, col).value, CellRect(c, width, height, row + 1, col).value;
            b.y == a.y + a.height + c.spacing.y && b.x == a.x && b.width == a.width
  {
    SumPrefixStep(c.rowWeights, row);
  }

  /** Horizontally, the first column starts half a spacing inside the padding and
      the last one ends half a spacing before the right padding. */
  lemma FirstToLastColumn(c: Config, width: real, height: real, row: int)
    requires Divisible(c) && ValidIndex(row, c.Rows()) && c.Cols() > 0
    ensures CellRect(c, width, height, row, 0).Success?
    ensures CellRect(c, width, height, row, c.Cols() - 1).Success?
    ensures var a, b := CellRect(c, width, height, row, 0).value, CellRect(c, width, height, row, c.Cols() - 1).value;
            && a.x == c.padding.x + c.spacing.x / 2.0
            && b.x + b.width == width - c.padding.x - c.spacing.x / 2.0
  {
    var n := c.Cols();
    CellRectClosedForm(c, width, height, row, 0);
    CellRectClosedForm(c, width, height, row, n - 1);
    SumPrefixStep(c.colWeights, n - 1);
    assert c.colWeights[..n] == c.colWeights && c.colWeights[..0] == [];
    var ux := Unit(width - 2.0 * c.padding.x, c.colWeights);
    assert ux * Sum(c.colWeights[..n - 1]) + ux * c.colWeights[n - 1] == ux * Sum(c.colWeights);
  }

  /** Vertically, the first row starts half a spacing inside the padding and the
      last one ends half a spacing before the bottom padding. */
  lemma FirstToLastRow(c: Config, width: real, height: real, col: int)
    requires Divisible(c) && ValidIndex(col, c.Cols()) && c.Rows() > 0
    ensures CellRect(c, width, height, 0, col).Success?
    ensures CellRect(c, width, height, c.Rows() - 1, col).Success?
    ensures var a, b := CellRect(c, width, height, 0, col).value, CellRect(c, width, height, c.Rows() - 1, col).value;
            && a.y == c.padding.y + c.spacing.y / 2.0
            && b.y + b.height == height - c.padding.y - c.spacing.y / 2.0
  {
    var m := c.Rows();
    CellRectClosedForm(c, width, height, 0, col);
    CellRectClosedForm(c, width, height, m - 1, col);
    SumPrefixStep(c.rowWeights, m - 1);
    assert c.rowWeights[..m] == c.rowWeights && c.rowWeights[..0] == [];
    var uy := Unit(height - 2.0 * c.padding.y, c.rowWeights);
    assert uy * Sum(c.rowWeights[..m - 1]) + uy * c.rowWeights[m - 1] == uy * Sum(c.rowWeights);
  }

  /** Each weight's share of an extent, one unit per unit of weight, adds up to the extent. */
  lemma UnitsFill(extent: real, weights: seq<real>)
    requires Sum(weights) != 0.0
    ensures Sum(Scaled(Unit(extent, weights), weights)) == extent
  {
    SumScaled(Unit(extent, weights), weights);
  }

  /** The untrimmed extents (width plus spacing) of the cells of a row, left to right. */
  function ColumnExtents(c: Config, width: real, height: real, row: int): (r: seq<real>)
    requires Divisible(c) && ValidIndex(row, c.Rows())
    ensures |r| == c.Cols()
  {
    seq(c.Cols(), j requires 0 <= j < c.Cols() =>
      CellRectOutcome(c, width, height, row, j);
      CellRect(c, width, height, row, j).value.width + c.spacing.x)
  }

  /** The untrimmed extents (height plus spacing) of the cells of a column, top to bottom. */
  function RowExtents(c: Config, width: real, height: real, col: int): (r: seq<real>)
    requires Divisible(c) && ValidIndex(col, c.Cols())
    ensures |r| == c.Rows()
  {
    seq(c.Rows(), j requires 0 <= j < c.Rows() =>
      CellRectOutcome(c, width, height, j, col);
      CellRect(c, width, height, j, col).value.height + c.spacing.y)
  }

  /** Each untrimmed extent along a row is the unit times its weight. */
  lemma ColumnExtentsScaled(c: Config, width: real, height: real, row: int)
    requires Divisible(c) && ValidIndex(row, c.Rows())
    ensures ColumnExtents(c, width, height, row) == Scaled(Unit(width - 2.0 * c.padding.x, c.colWeights), c.colWeights)
  {
    var u := Unit(width - 2.0 * c.padding.x, c.colWeights);
    var e := ColumnExtents(c, width, height, row);
    var s := Scaled(u, c.colWeights);
    forall j | 0 <= j < c.Cols()
      ensures e[j] == s[j]
    {
      CellRectClosedForm(c, width, height, row, j);
    }
  }

  /** The untrimmed extents of the cells of a row add up to the content width. */
  lemma ColumnsFill(c: Config, width: real, height: real, row: int)
    requires Divisible(c) && ValidIndex(row, c.Rows())
    ensures Sum(ColumnExtents(c, width, height, row)) == width - 2.0 * c.padding.x
  {
    UnitsFill(width - 2.0 * c.padding.x, c.colWeights);
    ColumnExtentsScaled(c, width, height, row);
  }

  /** Each untrimmed extent along a column is the unit times its weight. */
  lemma RowExtentsScaled(c: Config, width: real, height: real, col: int)
    requires Divisible(c) && ValidIndex(col, c.Cols())
    ensures RowExtents(c, width, height, col) == Scaled(Unit(height - 2.0 * c.padding.y, c.rowWeights), c.rowWeights)
  {
    var u := Unit(height - 2.0 * c.padding.y, c.rowWeights);
    var e := RowExtents(c, width, height, col);
    var s := Scaled(u, c.rowWeights);
    forall j | 0 <= j < c.Rows()
      ensures e[j] == s[j]
    {
      CellRectClosedForm(c, width, height, j, col);
    }
  }

  /** The untrimmed extents of the cells of a column add up to the content height. */
  lemma RowsFill(c: Config, width: real, height: real, col: int)
    requires Divisible(c) && ValidIndex(col, c.Cols())
    ensures Sum(RowExtents(c, width, height, col)) == height - 2.0 * c.padding.y
  {
    UnitsFill(height - 2.0 * c.padding.y, c.rowWeights);
    RowExtentsScaled(c, width, height, col);
  }

  /** A span from the first cell to the last covers the whole content region, inset
      by half the spacing on every side. */
  lemma WholeGridSpan(c: Config, width: real, height: real)
    requires Divisible(c) && c.Rows() > 0 && c.Cols() > 0
    ensures CellRect(c, width, height, 0, 0).Success?
    ensures CellRect(c, width, height, c.Rows() - 1, c.Cols() - 1).Success?
    ensures SpanRect(CellRect(c, width, height, 0, 0).value, CellRect(c, width, height, c.Rows() - 1, c.Cols() - 1).value)
            == Rect(c.padding.x + c.spacing.x / 2.0, c.padding.y + c.spacing.y / 2.0,
                    width - 2.0 * c.padding.x - c.spacing.x, height - 2.0 * c.padding.y - c.spacing.y)
  {
    FirstToLastColumn(c, width, height, 0);
    FirstToLastColumn(c, width, height, c.Rows() - 1);
    FirstToLastRow(c, width, height, 0);
    FirstToLastRow(c, width, height, c.Cols() - 1);
  }

  /** The rect from the start cell's top-left corner to the stop cell's bottom-right one. */
  function SpanRect(start: Rect, stop: Rect): (r: Rect)
    ensures r.x == start.x && r.y == start.y
    ensures r.x + r.width == stop.x + stop.width
    ensures r.y + r.height == stop.y + stop.height
  {
    Rect(start.x, start.y, stop.x + stop.width - start.x, stop.y + stop.height - start.y)
  }
}
