# Grid layout model

A Dafny model of the grid layout manager in `grid.py`. The manager divides a host
item's rect (its *target*) into rows and columns and keeps the items placed on it
positioned and sized. The core modelled here:

- `Weights` is the per-axis array of weights. The model covers its construction, its
  `sum` and its `resize`.
- `Grid` covers construction, `configure`, `configuration`, `place`, `get_item`,
  `get_cell`, `clear`, `clear_item` and `redraw`. It also covers the two internal
  geometry helpers, `_get_content_rect` and `_get_cell_rect`.
- `set_item_rect` converts each coordinate with `int()`, which truncates toward zero.

The model keeps the code's behaviour exactly as written, including its quirks:

- `resize` compares the amount with the current length, not with zero.
- `configure(cols=...)` resizes the row weights.
- Row weight pairs are assigned only when the weight is positive; column pairs are
  always assigned.
- An assigned pair (any column pair, or a row pair with a positive weight) whose
  index is out of range raises IndexError. The assignments made before it stay in
  place. A row pair with a weight of zero or less is skipped, even out of range.
- A zero weight sum raises ZeroDivisionError.

Files:

| file | module | contents |
|---|---|---|
| wrappers.dfy | `Wrappers` | `Option` and `Result` |
| pybuiltins.dfy | `PyBuiltins` | Python's exceptions, negative indices, `s[0:hi]`, `del s[a:b:-1]`, `sum`, `int()` |
| registry.dfy | `Registry` | the insertion-ordered `dict` of placed items: get, assignment, `pop` |
| axis.dfy | `Axis` | `class Weights` and the shapes `resize` produces |
| geometry.dfy | `Geometry` | settings snapshot, content rect, cell rect, span rect |
| grid_spec.dfy | `GridSpec` | what `configure`, `place`, `redraw` and `get_item` compute, as functions of a snapshot, with their lemmas |
| grid.dfy | `GridLayout` | `class Grid`, which updates its state in place and is proved against `GridSpec` and `Registry` |

Interaction with the host is turned into parameters and results:

- Reading the target's rect (`get_item_rect`) becomes `width` and `height` parameters.
  The source uses only the target's width and height.
- Writing an item's rect (`configure_item` through `set_item_rect`) becomes a returned
  `Write` value holding the item and its four truncated integers.
- `redraw` returns its writes in order, together with the exception that stopped it,
  if any.

The code and its docstrings disagree in several places. The model follows the code:

- The docstrings say a weight pair is ignored when its weight is negative. In the code,
  a row pair is ignored when its weight is zero or negative, and a column pair is
  never ignored.
- The docstring of `cols` in `configure` says "rows". Either way, `cols` resizes the
  rows.
- The descriptions of `padding` and `spacing` in `configure`'s docstring are swapped.
- A comment at `set_item_rect` says `int` uses the floor. It truncates toward zero
  (`PyBuiltins.TruncateIsNotFloor`).
- The docstrings say rows and columns cannot be set below 1. `configure` can still
  empty the rows (`GridSpec.ShrinkingColumnsEmptiesRows`). After that, every cell
  rect raises ZeroDivisionError.
- `get_item` returns the first item in registry order whose stored start cell is
  exactly `(row, col)`. It does not return the most recent one, and it does not match
  a negative index against its positive equivalent.

## Model

| member | source | states |
|---|---|---|
| PyBuiltins.ValidIndex | grid.py:396-397 | `w[i]` succeeds exactly for -len <= i < len, otherwise IndexError; `Norm`, `Axis.Weights.Store` and `Geometry.CellRectOutcome` state its use |
| PyBuiltins.Norm | grid.py:396-397 | a valid index denotes a position below the length: itself when non-negative, length + index when negative |
| PyBuiltins.Prefix | grid.py:403-405 | `s[0:hi]` is a prefix of `s`; for a valid index it is exactly the elements before the position the index denotes |
| PyBuiltins.DelBackward | grid.py:74 | `del s[a:b:-1]` removes `a' - b'` elements of the clamped bounds, none when `a' <= b'` |
| PyBuiltins.SliceEnd | grid.py:403-405 | the end of `s[0:hi]` never passes the length; `Prefix` states what the slice then holds |
| PyBuiltins.BackwardBound | grid.py:74 | a bound of a step -1 slice is clamped into [-1, n-1]; `DelBackward` and `Axis.Resized` state what the deletion leaves |
| PyBuiltins.Ones | grid.py:61 | `repeat(1.0, n)` gives n weights, each 1.0 |
| PyBuiltins.Sum | grid.py:66-67 | the built-in `sum` over the weights, left to right; characterised by `SumConcat`, `SumPrefixStep`, `SumOnes`, `SumSign` and `SumScaled` |
| PyBuiltins.SumConcat | grid.py:66-67 | the sum of a concatenation is the sum of the sums |
| PyBuiltins.SumPrefixStep | grid.py:403-405 | extending a prefix by one weight adds that weight to its sum |
| PyBuiltins.Scaled | grid.py:403-407 | every weight multiplied by one unit of extent, element by element |
| PyBuiltins.SumPointwise | grid.py:403-407 | a sequence that is another multiplied elementwise by u sums to u times the other's sum |
| PyBuiltins.SumScaled | grid.py:403-407 | scaling every weight by the unit scales their sum by the unit |
| PyBuiltins.SumOnes | grid.py:61 | a fresh axis of n ones sums to n |
| PyBuiltins.SumSign | grid.py:388-389 | non-negative weights have a non-negative sum; non-empty positive weights have a positive sum |
| PyBuiltins.Truncate | grid.py:53-55 | `int(x)` is the integer part of x: the floor for x >= 0 and the ceiling for x < 0 |
| PyBuiltins.TruncateIsNotFloor | grid.py:50-55 | the conversion the code uses differs from the floor its comment names: `int(-0.5)` is 0 and the floor is -1 |
| Registry.Keys | grid.py:128 | the dictionary's keys in iteration order, one per entry |
| Registry.IndexOf | grid.py:128 | the position of the entry with a key, with no earlier entry for it; None when no entry has it |
| Registry.GetAt | grid.py:128 | with distinct keys, looking up the key of position i finds position i and its value |
| Registry.Get | grid.py:313 | `d[k]` lookup as an Option; `GetSome` and `GetAt` state when and what it finds |
| Registry.GetSome | grid.py:313 | a lookup finds a value exactly when the key is present |
| Registry.Put | grid.py:365-369 | `d[k] = v` on the insertion-ordered entries; `PutSpec` states its effect |
| Registry.PutSpec | grid.py:365-369 | `d[k] = v`: k maps to v, every other key keeps its value, keys stay distinct, the key order is kept, and a new key goes last |
| Registry.RemoveAt | grid.py:324 | removing position i shifts the later entries down by one, keeps keys distinct and leaves no entry with that key |
| Registry.Pop | grid.py:324 | `d.pop(k, None)` on the insertion-ordered entries; `PopSpec` and `RemoveAt` state its effect |
| Registry.PopSpec | grid.py:324 | `d.pop(k, None)`: k is gone, every other key keeps its value, the remaining keys keep their order, and an absent key changes nothing |
| Axis.Resized | grid.py:69-74 | `resize(amount)`: appends `amount` ones when amount >= length; otherwise keeps the first `amount` weights (positive amount) or the first `length + amount`, or none |
| Axis.ResizedKeepsPrefix | grid.py:69-74 | resizing keeps every old weight still in range, and every added weight is 1.0 |
| Axis.ResizedToCount | grid.py:250-251 | `resize(n - len)` for n > 0 gives n weights, except n - len when len < n < 2*len; never zero |
| Axis.ResizedGrowSum | grid.py:71-72 | growing an axis by `amount` ones adds `amount` to its weight sum |
| Axis.Weights.constructor | grid.py:60-61 | a new axis holds `length` weights of 1.0 |
| Axis.Weights.Sum | grid.py:66-67 | the sum of the weights is non-negative for non-negative weights and positive for non-empty positive weights |
| Axis.Weights.Resize | grid.py:69-74 | the in-place resize leaves exactly `Resized(old weights, amount)` |
| Axis.Weights.Store | grid.py:257 | `w[i] = v`: stores v at the position i denotes when i is valid; otherwise IndexError and no change |
| Geometry.ContentRect | grid.py:374-383 | the content region starts at the padding and, with the padding on both sides, spans the target's width and height |
| Geometry.Divisible | grid.py:390-391 | both weight sums are non-zero, so neither division raises ZeroDivisionError; `Geometry.CellRectOutcome` states its use |
| Geometry.Unit | grid.py:390-391 | the extent per unit of weight, multiplied by the weight sum, gives the content extent |
| Geometry.CellRect | grid.py:385-410 | `_get_cell_rect` in the source's order of evaluation; characterised by `CellRectOutcome`, `CellRectClosedForm`, the negative-index lemmas and the tiling lemmas below |
| Geometry.CellRectOutcome | grid.py:385-397 | a cell rect fails exactly when a weight sum is zero (ZeroDivisionError, checked first) or an index is out of range (IndexError) |
| Geometry.CellRectClosedForm | grid.py:385-410 | a cell's offset is padding + spacing/2 + unit times the weights before it, and its size is unit times its weight minus the spacing |
| Geometry.NegativeRow | grid.py:397-405 | a negative row index gives the same rect as the row it counts to from the end |
| Geometry.NegativeColumn | grid.py:396-403 | a negative column index gives the same rect as the column it counts to from the end |
| Geometry.NegativeIndex | grid.py:396-405 | both of the above; when both weight sums are non-zero, an index below minus the count raises IndexError |
| Geometry.NextColumn | grid.py:402-407 | column col+1 starts where column col ends plus the spacing, on the same row band |
| Geometry.NextRow | grid.py:404-408 | row r+1 starts where row r ends plus the spacing, in the same column band |
| Geometry.FirstToLastColumn | grid.py:402-407 | the first column starts half a spacing inside the left padding and the last ends half a spacing before the right padding |
| Geometry.FirstToLastRow | grid.py:404-408 | the first row starts half a spacing inside the top padding and the last ends half a spacing before the bottom padding |
| Geometry.UnitsFill | grid.py:390-391 | one unit per unit of weight, over all the weights, adds up to the content extent |
| Geometry.ColumnExtents | grid.py:402-407 | the widths plus spacing of the cells of a row, left to right, one per column |
| Geometry.RowExtents | grid.py:404-408 | the heights plus spacing of the cells of a column, top to bottom, one per row |
| Geometry.ColumnExtentsScaled | grid.py:390-407 | each cell's width plus spacing along a row is the unit times its column weight |
| Geometry.RowExtentsScaled | grid.py:391-408 | each cell's height plus spacing along a column is the unit times its row weight |
| Geometry.ColumnsFill | grid.py:385-410 | over all the columns of a row, the cells' widths plus spacing add up to the target width minus twice the padding |
| Geometry.RowsFill | grid.py:385-410 | over all the rows of a column, the cells' heights plus spacing add up to the target height minus twice the padding |
| Geometry.WholeGridSpan | grid.py:361-364 | the span from the first cell to the last covers the content region inset by half the spacing on each side |
| Geometry.SpanRect | grid.py:289-292 | a span rect starts at the start cell's corner and ends at the stop cell's far edges |
| GridSpec.Applies | grid.py:255-258 | the `if _weight > 0` guard of the row loop, absent from the column loop; `GridSpec.RowPairOutcome`, `ColumnPairOutcome` and `PositiveOnlyIsFilter` state its effect |
| GridSpec.SetPairs | grid.py:255-259 | the pair loop keeps the axis length; the lemmas below characterise its result |
| GridSpec.Positive | grid.py:255-256 | the filtered pairs all have positive weights and come from the input, and every input pair with a positive weight is among them |
| GridSpec.AfterFirst | grid.py:255-259 | one pair assignment keeps the axis length |
| GridSpec.SetPairsStep | grid.py:255-259 | a pair that does not fail is applied, and the loop continues with the rest |
| GridSpec.SetPairsError | grid.py:255-259 | the loop raises exactly when an assigned pair's index is out of range, and the exception is IndexError |
| GridSpec.SetPairsNoRollback | grid.py:255-259 | at the first failing pair, the assignments of the pairs before it stay in effect |
| GridSpec.SetPairsUntouched | grid.py:255-259 | a weight that no assigned pair addresses keeps its value |
| GridSpec.SetPairsLastWins | grid.py:255-259 | after a run without error, a position holds the weight of the last pair addressing it |
| GridSpec.PositiveOnlyIsFilter | grid.py:255-257 | the guarded row loop is the unguarded loop over the pairs with positive weight |
| GridSpec.PointArg | grid.py:260-264 | `Point(*t)` for a non-empty argument, the current point for an empty one; `ReconfigureAlignment` states its outcomes |
| GridSpec.Reconfigure | grid.py:249-264 | `configure` as the weight steps followed by the alignment steps, stopping at the first exception; characterised by `ReconfigureNothing`, `ReconfigureCounts` and `ReconfigureAlignment` |
| GridSpec.Reweighted | grid.py:249-259 | the two resizes and the two pair loops; `ReconfigureCounts`, `RowPairOutcome` and `ColumnPairOutcome` state their effect |
| GridSpec.ResizedRows | grid.py:249-253 | the row weights after the two resizes; `ReconfigureCounts` and `ShrinkingColumnsEmptiesRows` state their length |
| GridSpec.Realigned | grid.py:260-264 | the padding step, then the spacing step; `ReconfigureAlignment` states their outcomes |
| GridSpec.ReconfigureNothing | grid.py:216-264 | `configure()` with no arguments changes no setting |
| GridSpec.ReconfigureCounts | grid.py:249-253 | the column count never changes; `rows=n` alone gives n rows, or n - len when len < n < 2*len, never zero; `cols=n` alone resizes the rows |
| GridSpec.ShrinkingColumnsEmptiesRows | grid.py:252-253 | on one row and three columns, `configure(cols=1)` leaves no rows and every cell rect then raises ZeroDivisionError |
| GridSpec.RowPairOutcome | grid.py:255-257 | one row pair with weight <= 0 is ignored even out of range; with a positive weight it is stored, or raises IndexError with no change |
| GridSpec.ColumnPairOutcome | grid.py:258-259 | one column pair is stored whatever its weight, or raises IndexError with no change |
| GridSpec.ReconfigureAlignment | grid.py:260-264 | padding and spacing are replaced by a given pair and kept when empty; any other length raises TypeError |
| GridSpec.ItemRect | grid.py:288-292 | the rect one record denotes: its start cell, widened to its stop cell; `PlacedWrite`, `PlacedWholeGrid` and `Geometry.SpanRect` state what it covers |
| GridSpec.ToWrite | grid.py:41-56 | `set_item_rect`: each coordinate truncated with `int()`; `PyBuiltins.Truncate` states the rounding |
| GridSpec.ItemWrite | grid.py:288-293 | the write for one registry entry, or the exception its rect raises; `RedrawWritesEntry` ties it to redraw |
| GridSpec.Collect | grid.py:287-293 | the loop over per-item results; characterised by `CollectStep` and `CollectSpec` |
| GridSpec.ItemWrites | grid.py:287-293 | one result per registry entry, in registry order; `RedrawAllSpec` states it |
| GridSpec.RedrawAll | grid.py:278-293 | `redraw`; characterised by `RedrawAllSpec`, `RedrawCompletes` and `RedrawWritesEntry` |
| GridSpec.CollectStep | grid.py:287-293 | the redraw loop writes one item's rect and continues, or stops at its exception |
| GridSpec.CollectSpec | grid.py:287-293 | a run writes the successful results in order up to the first failure, and names that failure's exception |
| GridSpec.RedrawAllSpec | grid.py:278-293 | redraw writes one rect per item in registry order up to the first item that raises, and names that exception |
| GridSpec.RedrawCompletes | grid.py:286-293 | redraw completes exactly when every item's rect can be computed |
| GridSpec.PlacedRecord | grid.py:360-369 | the record `place` stores; `PlacedRecordShape` states its shape |
| GridSpec.Placed | grid.py:351-370 | `place` as a function of the settings and registry; characterised by `PlacedOutcome`, `PlacedStores`, `PlacedWrite` and `PlacedOccupies` |
| GridSpec.PlacedOutcome | grid.py:351-362 | place raises ValueError for a negative span, IndexError for a stop cell past the end, ZeroDivisionError for a zero weight sum, and IndexError for a start cell below minus the count; it succeeds exactly when the spans are non-negative, the cells are in range and both sums are non-zero |
| GridSpec.PlacedStores | grid.py:361-369 | a successful place stores the item's record, keeps every other record, and appends a new item or keeps an existing one in its position |
| GridSpec.PlacedRecordShape | grid.py:361-369 | the record holds the start cell as given, and a stop cell exactly when a span is non-zero |
| GridSpec.PlacedWrite | grid.py:360-370 | a successful place stores its record and writes the rect that record denotes |
| GridSpec.RedrawWritesEntry | grid.py:287-293 | for each entry it reaches, redraw writes the rect of that entry's record |
| GridSpec.PlaceThenRedraw | grid.py:360-370 | a later redraw writes the same rect for the item as place did, when redraw reaches the item |
| GridSpec.PlacedWholeGrid | grid.py:360-370 | an item spanning every cell is written over the content region inset by half the spacing |
| GridSpec.FirstAt | grid.py:299-302 | the first registry position whose stored start cell equals the cell, or None when there is none |
| GridSpec.ItemAt | grid.py:295-309 | get_item returns the first item whose stored start cell matches; otherwise None for a valid cell and IndexError for an invalid one |
| GridSpec.NewItemDoesNotShadow | grid.py:299-302 | placing a new item on an occupied cell does not change what get_item finds there |
| GridSpec.PlacedOccupies | grid.py:365-369 | after a successful place, get_item at the start cell as given finds an item |
| GridLayout.Grid.Configuration | grid.py:267-276 | the reported counts are the lengths of the weight arrays, with the current spacing and padding |
| GridLayout.Grid.constructor | grid.py:122-129 | a new grid has `rows` and `cols` weights of 1.0, the given spacing and padding, and no items |
| GridLayout.Grid.Configure | grid.py:249-265 | the new settings are `Reconfigure` of the old ones and the items are kept; the redraw of the new settings runs unless an earlier step raised |
| GridLayout.Grid.Reweight | grid.py:249-259 | the two resizes and the two pair loops leave the weights `Reweighted` specifies, with its exception |
| GridLayout.Grid.Realign | grid.py:260-264 | the padding and spacing steps leave the settings `Realigned` specifies, with its exception |
| GridLayout.Grid.Redraw | grid.py:278-293 | the writes and the exception are those of `RedrawAll` over the current settings and registry; each loop step issues the entry's `ItemWrite` |
| GridLayout.Grid.GetItem | grid.py:295-309 | the registry search returns what `ItemAt` specifies |
| GridLayout.Grid.GetCell | grid.py:311-313 | the stored start cell of a placed item; KeyError exactly when the item is not in the registry (never placed, or cleared since) |
| GridLayout.Grid.Clear | grid.py:315-318 | the registry is emptied and the settings stay |
| GridLayout.Grid.ClearItem | grid.py:320-324 | the item is forgotten and the other records are kept in order; an unknown item changes nothing |
| GridLayout.Grid.Place | grid.py:351-370 | the result and the new registry are those of `Placed`; on an exception the registry is unchanged |
| GridLayout.AssignPairs | grid.py:255-259 | a pair loop leaves the weights and the exception `SetPairs` specifies |
| GridLayout.NewGrid | grid.py:118-129 | construction raises ValueError exactly when rows < 1 or cols < 1; otherwise it gives a fresh, empty grid |

## Left out

- The host calls `get_item_rect` and `configure_item`: the target's width and height are parameters, and the writes are returned as values.
- `position` (grid.py:326-329): it only forwards a write to the host.
- The target item id and the `target` property: only its width and height are used.
- The host calling `redraw` as a resize callback.
- Host errors, such as an item id the host does not know.
- `__getitem__`'s row query `self[x]`: it calls `.sort` on a list and uses its `None` result.
- `__setitem__` (grid.py:146-149): its guard `not isinstance(index, tuple) and len(index) != 2` only returns NotImplemented for a non-tuple sequence of the wrong length (any other non-tuple with `len` passes, and one without `len` raises TypeError). Past the guard it calls `place`, which `Grid.Place` covers. The type tests are not modelled.
- The `rows`, `cols`, `spacing` and `padding` setters and `set_row_weight`/`set_col_weight`: each is a single call to `configure` with one argument, which `Grid.Configure` covers.
- The `row_weights`/`col_weights` getters: they copy the arrays that `Configuration` exposes.
- `Weights.sum()` is modelled by `Axis.Weights.Sum`, whose result is `PyBuiltins.Sum` of the stored weights. The grid works on the snapshot `Configuration` returns, so `Geometry.CellRect` applies `PyBuiltins.Sum` to the weight sequences directly rather than calling the method.
- `__getitem__`'s pair query `self[r, c]` (grid.py:138-139): it forwards to `get_item`, which `Grid.GetItem` covers. Its final `raise IndexError(*index)` (grid.py:144) for any other index is not modelled.
- The read-only `items` view (grid.py:129): it exposes the registry that `Grid.items` holds.
- The default arguments of `__init__` (`cols=1`, `rows=1`, `spacing=padding=(0, 0)`) and of `place` (spans 0): `NewGrid` and `Grid.Place` take every argument explicitly.
- The `__main__` demo.
- win32_transparent_vp.py is not part of this model.
- Weights are stored by the source as 32-bit floats (`array("f")`), and all arithmetic is on floats. The model uses exact reals, so rounding is not modelled.
- Construction's `Point(*spacing)` and `Point(*padding)`: `Grid.constructor` and `NewGrid` take points, so a tuple of the wrong length (a TypeError) is not modelled there. `configure` does model that TypeError.
- The closed-form and tiling lemmas of `Geometry` require non-zero weight sums. With a zero sum every cell rect raises instead, as `Geometry.CellRectOutcome` states.
