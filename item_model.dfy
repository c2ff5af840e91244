/** The part of `QStandardItemModel` the status models rely on: rows of items,
    where the first item of a row carries the rows of its children, and model
    indexes that address an item by the rows leading to it. */
module ItemModel {
  import opened PyCore

  /** A `QStandardItem`: its text, its data in the default data role (`None`
      when nothing was set) and the child rows appended to it. */
  datatype Item = Item(text: string, data: Option<string>, children: seq<seq<Item>>)

  /** One row of items, one per column. */
  type Row = seq<Item>

  /** A `QModelIndex`: either the invalid index, or the item in `column` of
      child row `row` under the item that `parentPath` leads to (the row
      numbers of its first-column ancestors, top level first). */
  datatype ModelIndex = Invalid | Index(parentPath: seq<nat>, row: nat, column: nat)

  /** The rows under the first-column item that `path` leads to; the top-level
      rows for the empty path. */
  function RowsUnder(rows: seq<Row>, path: seq<nat>): (r: Option<seq<Row>>)
    decreases |path|
  {
    if path == [] then Some(rows)
    else
      match RowsUnder(rows, path[..|path| - 1])
      case None => None
      case Some(rs) =>
        var k := path[|path| - 1];
        if k < |rs| && |rs[k]| > 0 then Some(rs[k][0].children) else None
  }

  /** `model.itemFromIndex(index)`: the item an index addresses, if any. */
  function ItemAt(rows: seq<Row>, idx: ModelIndex): (r: Option<Item>)
    ensures r.Some? <==> (idx.Index? && RowsUnder(rows, idx.parentPath).Some?
      && idx.row < |RowsUnder(rows, idx.parentPath).value|
      && idx.column < |RowsUnder(rows, idx.parentPath).value[idx.row]|)
    ensures r.Some? ==> r.value == RowsUnder(rows, idx.parentPath).value[idx.row][idx.column]
  {
    match idx
    case Invalid => None
    case Index(p, r, c) =>
      match RowsUnder(rows, p)
      case None => None
      case Some(rs) => if r < |rs| && c < |rs[r]| then Some(rs[r][c]) else None
  }

  /** `index.isValid()` for an index into `rows`. */
  predicate IsValid(rows: seq<Row>, idx: ModelIndex) { ItemAt(rows, idx).Some? }

  /** `index.parent()`: the first-column item that the row hangs under. */
  function Parent(idx: ModelIndex): (p: ModelIndex)
    ensures p.Index? ==> p.column == 0
    ensures p.Index? ==> idx.Index? && idx.parentPath == p.parentPath + [p.row]
  {
    if idx.Invalid? || idx.parentPath == [] then Invalid
    else Index(idx.parentPath[..|idx.parentPath| - 1], idx.parentPath[|idx.parentPath| - 1], 0)
  }

  /** The parent of a valid index below the top level is valid. */
  lemma ParentOfValid(rows: seq<Row>, idx: ModelIndex)
    requires IsValid(rows, idx) && idx.parentPath != []
    ensures IsValid(rows, Parent(idx))
  {
    var p := idx.parentPath;
    assert RowsUnder(rows, p[..|p| - 1]).Some?;
  }

  /** `index.siblingAtColumn(column)`: the item in another column of the same
      row, or the invalid index when the row has no such column. */
  function SiblingAtColumn(rows: seq<Row>, idx: ModelIndex, column: nat): (s: ModelIndex)
    ensures s.Index? ==> (idx.Index? && IsValid(rows, s) && s.column == column
      && Parent(s) == Parent(idx) && s.row == idx.row)
    ensures idx.Index? && IsValid(rows, Index(idx.parentPath, idx.row, column)) ==>
      s == Index(idx.parentPath, idx.row, column)
  {
    if idx.Invalid? then Invalid
    else if IsValid(rows, Index(idx.parentPath, idx.row, column)) then Index(idx.parentPath, idx.row, column)
    else Invalid
  }

  /** `model.columnCount()` at the top level: `setHorizontalHeaderLabels`
      widens the model to its labels, and appending a row widens it to the
      row, so it is the number of labels or the widest row, whichever is more. */
  function RootColumns(rows: seq<Row>, labels: nat): (n: nat)
    ensures labels <= n && forall i :: 0 <= i < |rows| ==> |rows[i]| <= n
    ensures n == labels || exists i :: 0 <= i < |rows| && |rows[i]| == n
  {
    if rows == [] then labels
    else
      var rest := RootColumns(rows[1..], labels);
      assert forall i :: 1 <= i < |rows| ==> rows[i] == rows[1..][i - 1];
      if |rows[0]| > rest then |rows[0]| else rest
  }

  /** `index.isValid() and not index.parent().isValid()` as Qt decides it: a
      top-level index whose row exists and whose column is below the model's
      column count, whether or not an item was put in that cell. */
  predicate IsTopLevelIndex(rows: seq<Row>, columns: nat, idx: ModelIndex)
  {
    idx.Index? && idx.parentPath == [] && idx.row < |rows| && idx.column < columns
  }

  /** Every top-level item lies within the column count, whatever labels
      were set. */
  lemma TopLevelItemIndex(rows: seq<Row>, labels: nat, idx: ModelIndex)
    requires IsValid(rows, idx) && idx.parentPath == []
    ensures IsTopLevelIndex(rows, RootColumns(rows, labels), idx)
  {
    assert RowsUnder(rows, []) == Some(rows);
  }

  /** `model.rowCount(parent)`: the top-level rows for the invalid index, the
      child rows of a first-column item, and none otherwise. */
  function ChildCount(rows: seq<Row>, parent: ModelIndex): nat
  {
    match parent
    case Invalid => |rows|
    case Index(p, r, c) =>
      if c == 0 && RowsUnder(rows, p + [r]).Some? then |RowsUnder(rows, p + [r]).value| else 0
  }

  /** `model.index(row, column, parent)`: the index of an existing item under
      `parent`, the invalid index for a position that holds none. */
  function MakeIndex(rows: seq<Row>, parent: ModelIndex, row: int, column: int): (idx: ModelIndex)
    ensures idx.Index? <==> (0 <= row < ChildCount(rows, parent) && 0 <= column
      && column < |RowsUnder(rows, if parent.Invalid? then [] else parent.parentPath + [parent.row]).value[row]|)
    ensures idx.Index? ==> IsValid(rows, idx) && Parent(idx) == parent && idx.row == row && idx.column == column
  {
    var path := if parent.Invalid? then [] else parent.parentPath + [parent.row];
    if 0 <= row < ChildCount(rows, parent) && 0 <= column < |RowsUnder(rows, path).value[row]| then
      if parent.Index? then
        assert path[..|path| - 1] == parent.parentPath;
        Index(path, row, column)
      else Index(path, row, column)
    else Invalid
  }

  /** The rows under a top-level row are the children of its first item. */
  lemma RowsUnderTop(rows: seq<Row>, i: nat)
    requires i < |rows| && |rows[i]| > 0
    ensures RowsUnder(rows, [i]) == Some(rows[i][0].children)
  {
    assert [i][..0] == [];
  }

  /** The second-level index built from the top level down addresses the
      first item of child row `j` of top-level row `i`. */
  lemma ChildIndex(rows: seq<Row>, i: nat, j: nat)
    requires i < |rows| && |rows[i]| > 0 && j < |rows[i][0].children| && |rows[i][0].children[j]| > 0
    ensures MakeIndex(rows, Invalid, i, 0) == Index([], i, 0)
    ensures MakeIndex(rows, Index([], i, 0), j, 0) == Index([i], j, 0)
    ensures ItemAt(rows, Index([i], j, 0)) == Some(rows[i][0].children[j][0])
  {
    RowsUnderTop(rows, i);
    assert [] + [i] == [i];
  }
}
