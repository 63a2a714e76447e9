/**
 * The grid itself (`Grid` in grid.py): two weight arrays, padding, spacing and the
 * registry of placed items, updated in place. The host's rect of the grid's target
 * is passed in as a width and a height, and the rects the source would write
 * through `set_item_rect` are returned as `Write` values. Every method is proved
 * against the functions of GridSpec and Registry.
 */
module GridLayout {
  import opened Wrappers
  import opened PyBuiltins
  import opened Registry
  import opened Axis
  import opened Geometry
  import opened GridSpec

  class Grid {
    const rowWeights: Weights
    const colWeights: Weights
    var spacing: Point
    var padding: Point
    var items: Items

    /** The two axes are separate arrays and the registry has one record per item. */
    ghost predicate Valid()
      reads this
    {
      rowWeights != colWeights && Distinct(items)
    }

    /** `configuration()`: the row and column counts are the lengths of the weight arrays. */
    function Configuration(): (c: Config)
      reads this, rowWeights, colWeights
      ensures c.Rows() == |rowWeights.elems| && c.Cols() == |colWeights.elems|
      ensures c.spacing == spacing && c.padding == padding
    {
      Config(rowWeights.elems, colWeights.elems, spacing, padding)
    }

    /** The part of `__init__` after its checks. */
    constructor (rows: nat, cols: nat, spacing: Point, padding: Point)
      ensures Valid() && fresh(rowWeights) && fresh(colWeights)
      ensures Configuration() == Config(Ones(rows), Ones(cols), spacing, padding)
      ensures items == []
    {
      rowWeights := new Weights(rows);
      colWeights := new Weights(cols);
      this.spacing := spacing;
      this.padding := padding;
      items := [];
    }

    /** `configure(...)` followed by its `redraw()`. */
    method Configure(rows: int, cols: int, rowPairs: seq<WeightPair>, colPairs: seq<WeightPair>,
                     padding: seq<real>, spacing: seq<real>, width: real, height: real) returns (r: Redrawn)
      requires Valid()
      modifies this, rowWeights, colWeights
      ensures Valid() && items == old(items)
      ensures var o := Reconfigure(old(Configuration()), rows, cols, rowPairs, colPairs, padding, spacing);
              && Configuration() == o.config
              && r == if o.err.Some? then Redrawn([], o.err) else RedrawAll(o.config, items, width, height)
    {
      var err := Reweight(rows, cols, rowPairs, colPairs);
      if err.Some? {
        return Redrawn([], err);
      }
      err := Realign(padding, spacing);
      if err.Some? {
        return Redrawn([], err);
      }
      r := Redraw(width, height);
    }

    /** The weight steps of `configure`: a positive `rows` resizes the row weights
        to it, a positive `cols` resizes the row weights again, by the difference
        from the column count; then the row and the column pairs are assigned. */
    method Reweight(rows: int, cols: int, rowPairs: seq<WeightPair>, colPairs: seq<WeightPair>)
        returns (err: Option<Error>)
      requires Valid()
      modifies rowWeights, colWeights
      ensures Reconfigured(Configuration(), err) == Reweighted(old(Configuration()), rows, cols, rowPairs, colPairs)
    {
      ghost var c := Configuration();
      if rows > 0 {
        rowWeights.Resize(rows - |rowWeights.elems|);
      }
      if cols > 0 {
        rowWeights.Resize(cols - |colWeights.elems|);
      }
      assert rowWeights.elems == ResizedRows(c, rows, cols);
      err := AssignPairs(rowWeights, rowPairs, true);
      if err.Some? {
        return;
      }
      err := AssignPairs(colWeights, colPairs, false);
    }

    /** The padding and spacing steps of `configure`: each is replaced by a given
        pair, kept when empty, and any other length raises TypeError. */
    method Realign(padding: seq<real>, spacing: seq<real>) returns (err: Option<Error>)
      requires Valid()
      modifies this
      ensures Valid() && items == old(items)
      ensures Reconfigured(Configuration(), err) == Realigned(old(Configuration()), padding, spacing)
    {
      if |padding| != 0 {
        if |padding| != 2 {
          return Some(TypeError);
        }
        this.padding := Point(padding[0], padding[1]);
      }
      if |spacing| != 0 {
        if |spacing| != 2 {
          return Some(TypeError);
        }
        this.spacing := Point(spacing[0], spacing[1]);
      }
      err := None;
    }

    /** `redraw()`: one write per registered item, in registry order. */
    method Redraw(width: real, height: real) returns (r: Redrawn)
      ensures r == RedrawAll(Configuration(), items, width, height)
    {
      var c := Configuration();
      ghost var rs := ItemWrites(c, items, width, height);
      var writes: seq<Write> := [];
      var i := 0;
      while i < |items|
        invariant 0 <= i <= |items|
        invariant var rest := Collect(rs[i..]);
                  Collect(rs) == Redrawn(writes + rest.writes, rest.err)
      {
        CollectStep(rs, i);
        var w := ItemWrite(c, items[i], width, height);
        if w.Failure? {
          return Redrawn(writes, Some(w.error));
        }
        writes := writes + [w.value];
        i := i + 1;
      }
      assert rs[i..] == [];
      r := Redrawn(writes, None);
    }

    /** `get_item(row, col)`: a search of the registry in order. */
    method GetItem(row: int, col: int) returns (r: Result<Option<ItemRef>, Error>)
      ensures r == ItemAt(Configuration(), items, row, col)
    {
      var i := 0;
      while i < |items|
        invariant 0 <= i <= |items|
        invariant forall j | 0 <= j < i :: items[j].value.start != Cell(row, col)
      {
        if items[i].value.start == Cell(row, col) {
          return Success(Some(items[i].key));
        }
        i := i + 1;
      }
      if !ValidIndex(row, |rowWeights.elems|) || !ValidIndex(col, |colWeights.elems|) {
        return Failure(IndexError);
      }
      return Success(None);
    }

    /** `get_cell(item)`: the stored start cell of an item; KeyError exactly when the item is
        not in the registry (never placed, or cleared since). */
    function GetCell(item: ItemRef): (r: Result<Cell, Error>)
      reads this
      ensures r.Success? <==> item in Keys(items)
      ensures r.Success? ==> exists k | 0 <= k < |items| :: items[k].key == item && items[k].value.start == r.value
      ensures r.Failure? ==> r.error == KeyError
    {
      GetSome(items, item);
      match Get(items, item)
      case None => Failure(KeyError)
      case Some(rec) => Success(rec.start)
    }

    /** `clear()`: forgets every item; the settings stay. */
    method Clear()
      requires Valid()
      modifies this
      ensures Valid() && items == []
      ensures spacing == old(spacing) && padding == old(padding)
    {
      items := [];
    }

    /** `clear_item(item)`: forgets one item and keeps the others in order; an
        unknown item is ignored. */
    method ClearItem(item: ItemRef)
      requires Valid()
      modifies this
      ensures Valid() && items == Pop(old(items), item)
      ensures Get(items, item) == None
      ensures forall other | other != item :: Get(items, other) == Get(old(items), other)
      ensures item !in Keys(old(items)) ==> items == old(items)
      ensures spacing == old(spacing) && padding == old(padding)
    {
      PopSpec(items, item);
      items := Pop(items, item);
    }

    /** `place(item, row, col, rowspan=..., colspan=...)`: validates, stores the record
        and returns the write; on an exception nothing changes. */
    method Place(item: ItemRef, row: int, col: int, rowspan: int, colspan: int, width: real, height: real)
        returns (r: Result<Write, Error>)
      requires Valid()
      modifies this
      ensures Valid() && spacing == old(spacing) && padding == old(padding)
      ensures var p := Placed(old(Configuration()), old(items), item, row, col, rowspan, colspan, width, height);
              && (p.Failure? ==> r == Failure(p.error) && items == old(items))
              && (p.Success? ==> r == Success(p.value.write) && items == p.value.items)
    {
      if rowspan < 0 || colspan < 0 {
        return Failure(ValueError);
      }
      var stopRow := row + rowspan;
      if stopRow + 1 > |rowWeights.elems| {
        return Failure(IndexError);
      }
      var stopCol := col + colspan;
      if stopCol + 1 > |colWeights.elems| {
        return Failure(IndexError);
      }
      var rec := PlacedRecord(row, col, rowspan, colspan);
      r := ItemWrite(Configuration(), Entry(item, rec), width, height);
      if r.Failure? {
        return;
      }
      PutSpec(items, item, rec);
      items := Put(items, item, rec);
    }
  }

  /** One of `configure`'s two weight loops: `for idx, weight in pairs: w[idx] = weight`,
      guarded by `if weight > 0` for the rows; the first IndexError ends it. */
  method AssignPairs(w: Weights, pairs: seq<WeightPair>, positiveOnly: bool) returns (err: Option<Error>)
    modifies w
    ensures Applied(w.elems, err) == SetPairs(old(w.elems), pairs, positiveOnly)
  {
    var i := 0;
    while i < |pairs|
      invariant 0 <= i <= |pairs|
      invariant SetPairs(old(w.elems), pairs, positiveOnly) == SetPairs(w.elems, pairs[i..], positiveOnly)
    {
      assert pairs[i..][0] == pairs[i] && pairs[i..][1..] == pairs[i + 1..];
      if !positiveOnly || pairs[i].weight > 0.0 {
        err := w.Store(pairs[i].index, pairs[i].weight);
        if err.Some? {
          return;
        }
      }
      i := i + 1;
    }
    err := None;
  }

  /** `Grid(target, cols=..., rows=..., spacing=..., padding=...)`: ValueError unless
      there is at least one row and one column. */
  method NewGrid(cols: int, rows: int, spacing: Point, padding: Point) returns (r: Result<Grid, Error>)
    ensures r.Failure? <==> rows < 1 || cols < 1
    ensures r.Failure? ==> r.error == ValueError
    ensures r.Success? ==> && fresh(r.value) && r.value.Valid() && r.value.items == []
                           && r.value.Configuration() == Config(Ones(rows), Ones(cols), spacing, padding)
  {
    if rows < 1 || cols < 1 {
      return Failure(ValueError);
    }
    var g := new Grid(rows, cols, spacing, padding);
    return Success(g);
  }
}
