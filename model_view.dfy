/** The model/view status tree: a two-level item model built from a dict of
    top-level names to dicts of child names and status codes, the rule that
    makes top-level rows unselectable, and the status record a selected child
    row yields. */
module ModelView {
  import opened PyCore
  import opened PyDict
  import opened PySort
  import opened Qt
  import opened StatusCommon
  import opened ItemModel

  /** The sort key of a `(child, status)` pair: `sorted(data.items())`
      compares the child names first, and they are distinct dict keys. */
  function ChildName(e: (string, string)): string { e.0 }

  /** The sort key of a `(name, items)` pair at the top level. */
  function TopName(e: (string, Dict<string>)): string { e.0 }

  /** Every status code of a top-level entry is in the colour table. */
  predicate AllKnown(items: Dict<string>) { forall e :: e in items ==> Known(e.1) }

  /** A top-level entry whose row `_create_top_item` completes: every code
      under it is known. */
  predicate Builds(e: (string, Dict<string>)) { AllKnown(e.1) }

  /** The row `_create_child_items` appends: the child's name, then the status
      text with the code as its data. */
  function ChildRow(e: (string, string)): (row: Row)
    requires Known(e.1)
    ensures |row| == 2 && row[0].text == e.0 && row[1].data == Some(e.1)
  {
    [Item(e.0, None, []), Item(StatusName(e.1).value, Some(e.1), [])]
  }

  /** The child rows of a top-level entry, in ascending name order. */
  function ChildRows(items: Dict<string>): (rows: seq<Row>)
    requires AllKnown(items)
    ensures |rows| == |items|
  {
    var sorted := SortBy(items, ChildName);
    SortByIndexMember(items, ChildName);
    seq(|sorted|, i requires 0 <= i < |sorted| => ChildRow(sorted[i]))
  }

  /** There is a child row for every entry, the `i`-th child row is the row of
      the `i`-th entry in name order, and the child rows are in ascending name
      order. */
  lemma {:induction false} ChildRowsFacts(items: Dict<string>)
    requires AllKnown(items)
    ensures forall e :: e in items ==> ChildRow(e) in ChildRows(items)
    ensures forall i :: 0 <= i < |items| ==>
      SortBy(items, ChildName)[i] in items && ChildRows(items)[i] == ChildRow(SortBy(items, ChildName)[i])
    ensures forall i, j :: 0 <= i < j < |items| ==>
      StrLe(ChildRows(items)[i][0].text, ChildRows(items)[j][0].text)
  {
    ChildRowsCover(items);
    forall i | 0 <= i < |items|
      ensures SortBy(items, ChildName)[i] in items && ChildRows(items)[i] == ChildRow(SortBy(items, ChildName)[i])
    {
      ChildRowAt(items, i);
    }
    forall i, j | 0 <= i < j < |items|
      ensures StrLe(ChildRows(items)[i][0].text, ChildRows(items)[j][0].text)
    {
      ChildRowsAscending(items, i, j);
    }
  }

  /** Every entry has its child row. */
  lemma {:induction false} ChildRowsCover(items: Dict<string>)
    requires AllKnown(items)
    ensures forall e :: e in items ==> ChildRow(e) in ChildRows(items)
  {
    var sorted := SortBy(items, ChildName);
    var children: seq<Row> := ChildRows(items);
    forall e | e in items ensures ChildRow(e) in children {
      SortByMember(items, ChildName, e);
      var i :| 0 <= i < |sorted| && sorted[i] == e;
      ChildRowAt(items, i);
      assert children[i] == ChildRow(e);
    }
  }

  /** An earlier child row never has a greater name than a later one. */
  lemma {:induction false} ChildRowsAscending(items: Dict<string>, i: nat, j: nat)
    requires AllKnown(items) && i < j < |items|
    ensures StrLe(ChildRows(items)[i][0].text, ChildRows(items)[j][0].text)
  {
    var sorted := SortBy(items, ChildName);
    SortBySorted(items, ChildName);
    ChildRowAt(items, i);
    ChildRowAt(items, j);
    assert StrLe(ChildName(sorted[i]), ChildName(sorted[j]));
  }

  /** The `i`-th child row is the row of the `i`-th entry in name order. */
  lemma ChildRowAt(items: Dict<string>, i: nat)
    requires AllKnown(items) && i < |items|
    ensures i < |SortBy(items, ChildName)| && SortBy(items, ChildName)[i] in items
    ensures ChildRows(items)[i] == ChildRow(SortBy(items, ChildName)[i])
  {
    SortByIndexMember(items, ChildName);
  }

  /** The top-level row `_create_top_item` appends: the name, with its child
      rows; a `KeyError` when some code is not in the colour table, in which
      case no row is appended. */
  function TopRow(name: string, items: Dict<string>): (r: Result<Row>)
    ensures r.Ok? <==> AllKnown(items)
    ensures r.Err? ==> r.error == KeyError
    ensures r.Ok? ==> (|r.value| == 1 && r.value[0].text == name && r.value[0].data == None)
  {
    if AllKnown(items) then Ok([Item(name, None, ChildRows(items))]) else Err(KeyError)
  }

  /** `_create_top_item(name, data, parent)`: adds the child rows one by one in
      ascending name order and hands back the finished row, or stops at the
      first code the colour table lacks. */
  method CreateTopItem(name: string, items: Dict<string>) returns (r: Result<Row>)
    ensures r == TopRow(name, items)
  {
    var sorted := SortBy(items, ChildName);
    SortByIndexMember(items, ChildName);
    var children: seq<Row> := [];
    for j := 0 to |sorted|
      invariant forall k :: 0 <= k < j ==> Known(sorted[k].1)
      invariant children == seq(j, k requires 0 <= k < j => ChildRow(sorted[k]))
    {
      var status := sorted[j].1;
      if !Known(status) {
        assert sorted[j] in items;
        return Err(KeyError);
      }
      children := children + [ChildRow(sorted[j])];
    }
    assert AllKnown(items) by {
      forall e | e in items ensures Known(e.1) {
        SortByMember(items, ChildName, e);
        var k :| 0 <= k < |sorted| && sorted[k] == e;
      }
    }
    assert children == ChildRows(items);
    r := Ok([Item(name, None, children)]);
  }

  /** The top-level entries in the order `refresh` visits them. */
  function SortedTops(data: Dict<Dict<string>>): seq<(string, Dict<string>)>
  {
    SortBy(data, TopName)
  }

  /** The rows built for the first `n` entries of `s`, each of which builds. */
  function TopRows(s: seq<(string, Dict<string>)>, n: nat): (rows: seq<Row>)
    requires n <= |s| && forall k :: 0 <= k < n ==> Builds(s[k])
    ensures |rows| == n
  {
    seq(n, k requires 0 <= k < n => assert Builds(s[k]); TopRow(s[k].0, s[k].1).value)
  }

  /** One more entry that builds adds its row at the end. */
  lemma TopRowsStep(s: seq<(string, Dict<string>)>, n: nat)
    requires n < |s| && forall k :: 0 <= k <= n ==> Builds(s[k])
    ensures TopRows(s, n + 1) == TopRows(s, n) + [TopRow(s[n].0, s[n].1).value]
  {
  }

  /** The rows `refresh` leaves in the model: one per top-level entry, in
      ascending name order, up to the first entry with an unknown code. */
  function TreeRows(data: Dict<Dict<string>>): (rows: seq<Row>)
    ensures |rows| <= |data|
  {
    var s := SortedTops(data);
    TopRows(s, PrefixWhile(s, Builds))
  }

  /** `refresh` gets through every entry exactly when every status code in
      the data is in the colour table. */
  lemma {:induction false} TreeComplete(data: Dict<Dict<string>>)
    ensures |TreeRows(data)| == |data| <==> forall e :: e in data ==> AllKnown(e.1)
  {
    var s := SortBy(data, TopName);
    SortByIndexMember(data, TopName);
    if forall e :: e in data ==> AllKnown(e.1) {
      assert forall i :: 0 <= i < |s| ==> Builds(s[i]) by {
        forall i | 0 <= i < |s| ensures Builds(s[i]) {
          assert s[i] in data;
        }
      }
    } else {
      var e :| e in data && !AllKnown(e.1);
      SortByMember(data, TopName, e);
      var i :| 0 <= i < |s| && s[i] == e;
      assert !Builds(s[i]);
    }
  }

  /** The top-level rows are in ascending name order, and each is the row
      built for its entry. */
  lemma {:induction false} TreeRowsOrdered(data: Dict<Dict<string>>)
    ensures forall i, j :: 0 <= i < j < |TreeRows(data)| ==>
      StrLe(TreeRows(data)[i][0].text, TreeRows(data)[j][0].text)
    ensures forall i :: 0 <= i < |TreeRows(data)| ==>
      SortedTops(data)[i] in data && Ok(TreeRows(data)[i]) == TopRow(SortedTops(data)[i].0, SortedTops(data)[i].1)
  {
    var s := SortBy(data, TopName);
    var rows: seq<Row> := TreeRows(data);
    SortBySorted(data, TopName);
    SortByIndexMember(data, TopName);
    forall i | 0 <= i < |rows|
      ensures s[i] in data && Ok(rows[i]) == TopRow(s[i].0, s[i].1) && rows[i][0].text == TopName(s[i])
    {
    }
    forall i, j | 0 <= i < j < |rows| ensures StrLe(rows[i][0].text, rows[j][0].text) {
      assert rows[i][0].text == TopName(s[i]) && rows[j][0].text == TopName(s[j]);
    }
  }

  /** A loop over the sorted entries that built the first `n` and stops at
      the `n`th, or at the end, leaves exactly the rows `refresh` leaves. */
  lemma {:induction false} TreeRowsAt(data: Dict<Dict<string>>, n: nat)
    requires n <= |SortedTops(data)| && forall k :: 0 <= k < n ==> Builds(SortedTops(data)[k])
    requires n < |SortedTops(data)| ==> !Builds(SortedTops(data)[n])
    ensures TreeRows(data) == TopRows(SortedTops(data), n)
  {
    PrefixWhileIs(SortedTops(data), Builds, n);
  }

  /** `StatusModel`: the item model behind the view. */
  class StatusModel {
    var rows: seq<Row>
    var headers: seq<string>

    constructor ()
      ensures rows == [] && headers == []
    {
      rows := [];
      headers := [];
    }

    /** `refresh()` on the data the database query returns: clears the model,
        sets the headers and appends one row per top-level entry in ascending
        name order. A code missing from the colour table raises `KeyError`,
        leaving the rows appended before it. */
    method Refresh(data: Dict<Dict<string>>) returns (r: Outcome)
      modifies this
      ensures headers == ["Name", "Status"]
      ensures rows == TreeRows(data)
      ensures r.Pass? <==> |rows| == |data|
      ensures r.Fail? ==> r.error == KeyError
    {
      headers := ["Name", "Status"];
      var sorted := SortedTops(data);
      rows := [];
      r := Pass;
      var i := 0;
      while i < |sorted|
        invariant i <= |sorted| && r == Pass
        invariant headers == ["Name", "Status"]
        invariant forall k :: 0 <= k < i ==> Builds(sorted[k])
        invariant rows == TopRows(sorted, i)
      {
        var top := CreateTopItem(sorted[i].0, sorted[i].1);
        if top.Err? {
          TreeRowsAt(data, i);
          return Fail(top.error);
        }
        TopRowsStep(sorted, i);
        rows := rows + [top.value];
        i := i + 1;
      }
      TreeRowsAt(data, i);
    }
  }

  /** `rows`: `range(rowCount())`, the row number of every top-level row. */
  function RowNumbers(rows: seq<Row>): (r: seq<nat>)
    ensures |r| == |rows| && forall i :: 0 <= i < |r| ==> r[i] == i
  {
    seq(|rows|, i => i)
  }

  /** A valid index whose parent is not: a top-level item. */
  predicate IsTopLevel(rows: seq<Row>, idx: ModelIndex)
  {
    IsValid(rows, idx) && !IsValid(rows, Parent(idx))
  }

  /** `__getitem__(index)` as written: `IndexError` for an invalid or a
      top-level index, otherwise the record built positionally from the row's
      own name, its parent's name and the status data. The field called
      `parent` therefore receives the child's name. */
  function GetItemAsWritten(rows: seq<Row>, idx: ModelIndex): (r: Result<ItemStatus>)
    ensures r == Err(IndexError) <==> !IsValid(rows, idx) || IsTopLevel(rows, idx)
    ensures r.Ok? ==> r.value.child == ItemAt(rows, Parent(idx)).value.text
  {
    if !IsValid(rows, idx) || !IsValid(rows, Parent(idx)) then Err(IndexError)
    else
      var own := ItemAt(rows, SiblingAtColumn(rows, idx, 0));
      var status := ItemAt(rows, SiblingAtColumn(rows, idx, 1));
      if own.None? || status.None? then Err(AttributeError)
      else Ok(ItemStatus(own.value.text, ItemAt(rows, Parent(idx)).value.text, status.value.data))
  }

  /** `__getitem__(index)` with the record's fields in their declared order:
      the parent's name, the child's name, the status data. */
  function GetItemStatus(rows: seq<Row>, idx: ModelIndex): (r: Result<ItemStatus>)
    ensures r == Err(IndexError) <==> !IsValid(rows, idx) || IsTopLevel(rows, idx)
    ensures r.Ok? ==> r.value.parent == ItemAt(rows, Parent(idx)).value.text
  {
    if !IsValid(rows, idx) || !IsValid(rows, Parent(idx)) then Err(IndexError)
    else
      var own := ItemAt(rows, SiblingAtColumn(rows, idx, 0));
      var status := ItemAt(rows, SiblingAtColumn(rows, idx, 1));
      if own.None? || status.None? then Err(AttributeError)
      else Ok(ItemStatus(ItemAt(rows, Parent(idx)).value.text, own.value.text, status.value.data))
  }

  /** In any model, a child row of a top-level row with a name and a status
      column yields, from either column, the top-level name, the child's
      name and the status data. */
  lemma {:induction false} GetItemStatusOfChild(rows: seq<Row>, i: nat, j: nat, column: nat)
    requires i < |rows| && |rows[i]| > 0 && j < |rows[i][0].children|
    requires |rows[i][0].children[j]| == 2 && column < 2
    ensures GetItemStatus(rows, Index([i], j, column)) == Ok(ItemStatus(
      rows[i][0].text, rows[i][0].children[j][0].text, rows[i][0].children[j][1].data))
  {
    var idx := Index([i], j, column);
    var child := rows[i][0].children[j];
    RowsUnderTop(rows, i);
    assert ItemAt(rows, idx) == Some(child[column]);
    assert Parent(idx) == Index([], i, 0);
    assert ItemAt(rows, Parent(idx)) == Some(rows[i][0]);
    assert ItemAt(rows, Index([i], j, 0)) == Some(child[0]);
    assert SiblingAtColumn(rows, idx, 0) == Index([i], j, 0);
    assert ItemAt(rows, Index([i], j, 1)) == Some(child[1]);
    assert SiblingAtColumn(rows, idx, 1) == Index([i], j, 1);
  }

  /** Every child row of the tree `refresh` builds is the row of one
      `(name, code)` entry under its top-level entry, which is in the data. */
  lemma {:induction false} TreeChild(data: Dict<Dict<string>>, i: nat, j: nat)
    requires i < |TreeRows(data)| && j < |TreeRows(data)[i][0].children|
    ensures SortedTops(data)[i] in data && TreeRows(data)[i][0].text == SortedTops(data)[i].0
    ensures exists e :: e in SortedTops(data)[i].1 && TreeRows(data)[i][0].children[j] == ChildRow(e)
  {
    var top := SortedTops(data)[i];
    TreeTopRow(data, i);
    var children: seq<Row> := ChildRows(top.1);
    var sorted := SortBy(top.1, ChildName);
    SortByIndexMember(top.1, ChildName);
    assert j < |sorted|;
    var e := sorted[j];
    assert e in top.1;
    assert children[j] == ChildRow(e);
  }

  /** A top-level row of the tree `refresh` builds carries the name of its
      entry, which is in the data, and the child rows of its entries. */
  lemma {:induction false} TreeTopRow(data: Dict<Dict<string>>, i: nat)
    requires i < |TreeRows(data)|
    ensures SortedTops(data)[i] in data && TreeRows(data)[i][0].text == SortedTops(data)[i].0
    ensures AllKnown(SortedTops(data)[i].1)
    ensures TreeRows(data)[i][0].children == ChildRows(SortedTops(data)[i].1)
  {
    var rows: seq<Row> := TreeRows(data);
    TreeRowsOrdered(data);
    var top := SortedTops(data)[i];
    assert Ok(rows[i]) == TopRow(top.0, top.1);
  }


  /** Every top-level row of the tree `refresh` builds is a top-level item. */
  lemma {:induction false} TreeTopLevel(data: Dict<Dict<string>>)
    ensures forall i :: 0 <= i < |TreeRows(data)| ==> IsTopLevel(TreeRows(data), Index([], i, 0))
  {
    var rows: seq<Row> := TreeRows(data);
    TreeRowsOrdered(data);
    forall i | 0 <= i < |rows| ensures IsTopLevel(rows, Index([], i, 0)) {
      assert |rows[i]| == 1;
    }
  }

  /** On a tree built by `refresh`, selecting a child row in either column
      yields the top-level name, then the name and code of an entry listed
      under that name in the data. */
  lemma {:induction false} GetItemStatusOfTree(data: Dict<Dict<string>>, i: nat, j: nat, column: nat)
    requires i < |TreeRows(data)| && j < |TreeRows(data)[i][0].children| && column < 2
    ensures exists e :: (e in SortedTops(data)[i].1 &&
      GetItemStatus(TreeRows(data), Index([i], j, column)) == Ok(ItemStatus(SortedTops(data)[i].0, e.0, Some(e.1))))
  {
    TreeChild(data, i, j);
    var e :| e in SortedTops(data)[i].1 && TreeRows(data)[i][0].children[j] == ChildRow(e);
    GetItemStatusOfChild(TreeRows(data), i, j, column);
  }

  /** The record as written is the intended one with parent and child
      exchanged, whenever either succeeds. */
  lemma GetItemSwapped(rows: seq<Row>, idx: ModelIndex)
    ensures GetItemAsWritten(rows, idx).Ok? <==> GetItemStatus(rows, idx).Ok?
    ensures GetItemStatus(rows, idx).Ok? ==> GetItemAsWritten(rows, idx).value == ItemStatus(
      GetItemStatus(rows, idx).value.child, GetItemStatus(rows, idx).value.parent,
      GetItemStatus(rows, idx).value.status)
  {
  }

  /** The child rows of `{'x': 'rdy'}`. */
  lemma ExampleChildRows()
    ensures ChildRows([("x", "rdy")]) == [ChildRow(("x", "rdy"))]
  {
    var items: Dict<string> := [("x", "rdy")];
    assert SortBy(items, ChildName) == items;
  }

  /** The rows `refresh` builds for `{'A': {'x': 'rdy'}}`. */
  lemma ExampleTreeRows()
    ensures TreeRows([("A", [("x", "rdy")])]) == [[Item("A", None, [ChildRow(("x", "rdy"))])]]
  {
    var data: Dict<Dict<string>> := [("A", [("x", "rdy")])];
    assert SortedTops(data) == data;
    ExampleChildRows();
    assert Builds(data[0]);
    TreeRowsAt(data, 1);
  }

  /** The lines printed for the record the lookup as written yields and for
      the corrected one. */
  lemma ExampleLine()
    ensures FormatItemStatus(ItemStatus("x", "A", Some("rdy"))) == "x:A (rdy)"
    ensures FormatItemStatus(ItemStatus("A", "x", Some("rdy"))) == "A:x (rdy)"
  {
    assert FormatItemStatus(ItemStatus("x", "A", Some("rdy"))) == "x" + ":" + "A" + " (" + "rdy" + ")";
    assert FormatItemStatus(ItemStatus("A", "x", Some("rdy"))) == "A" + ":" + "x" + " (" + "rdy" + ")";
  }

  /** The data `{'A': {'x': 'rdy'}}` makes the lookup as written print
      `x:A (rdy)`, where the record's field order calls for `A:x (rdy)`. */
  lemma {:induction false} SwappedRecordExample()
    ensures GetItemAsWritten(TreeRows([("A", [("x", "rdy")])]), Index([0], 0, 0))
      == Ok(ItemStatus("x", "A", Some("rdy")))
    ensures GetItemStatus(TreeRows([("A", [("x", "rdy")])]), Index([0], 0, 0))
      == Ok(ItemStatus("A", "x", Some("rdy")))
    ensures FormatItemStatus(ItemStatus("x", "A", Some("rdy"))) == "x:A (rdy)"
  {
    ExampleTreeRows();
    var child := ChildRow(("x", "rdy"));
    var rows: seq<Row> := [[Item("A", None, [child])]];
    assert rows[0][0].children[0] == child && child[0].text == "x" && child[1].data == Some("rdy");
    GetItemStatusOfChild(rows, 0, 0, 0);
    GetItemSwapped(rows, Index([0], 0, 0));
    ExampleLine();
  }

  /** `flags(index)` in a model whose top level has `columns` columns (the
      model's `columnCount()`, `RootColumns(rows, |headers|)`): the flags the
      base model gives, with `ItemIsSelectable` cleared on every valid
      top-level index, including cells the header labels open that hold no
      item. */
  function Flags(rows: seq<Row>, columns: nat, idx: ModelIndex, base: ItemFlags): (f: ItemFlags)
    ensures f & !ItemIsSelectable == base & !ItemIsSelectable
    ensures IsTopLevelIndex(rows, columns, idx) ==> f & ItemIsSelectable == 0
    ensures !IsTopLevelIndex(rows, columns, idx) ==> f & ItemIsSelectable == base & ItemIsSelectable
  {
    if IsTopLevelIndex(rows, columns, idx) then base & !ItemIsSelectable else base
  }

  /** On a tree built by `refresh`, both the name and the status column of
      every top-level row lose `ItemIsSelectable`, and every column of every
      child row keeps the base model's flags. */
  lemma {:induction false} TreeFlags(data: Dict<Dict<string>>, base: ItemFlags)
    ensures forall i, c :: 0 <= i < |TreeRows(data)| && 0 <= c < 2 ==>
      Flags(TreeRows(data), RootColumns(TreeRows(data), 2), Index([], i, c), base) == base & !ItemIsSelectable
    ensures forall i, j, c :: 0 <= i < |TreeRows(data)| ==>
      Flags(TreeRows(data), RootColumns(TreeRows(data), 2), Index([i], j, c), base) == base
  {
    var rows: seq<Row> := TreeRows(data);
    var columns := RootColumns(rows, 2);
    forall i, c | 0 <= i < |rows| && 0 <= c < 2
      ensures Flags(rows, columns, Index([], i, c), base) == base & !ItemIsSelectable
    {
      assert IsTopLevelIndex(rows, columns, Index([], i, c));
    }
  }

  /** Every top-level item loses `ItemIsSelectable`, whatever header labels
      were set. */
  lemma TopLevelUnselectable(rows: seq<Row>, labels: nat, idx: ModelIndex, base: ItemFlags)
    requires IsTopLevel(rows, idx)
    ensures Flags(rows, RootColumns(rows, labels), idx, base) == base & !ItemIsSelectable
  {
    TopLevelItemIndex(rows, labels, idx);
  }

  /** `selected_index`: the first selected index, or the invalid index. */
  function SelectedIndex(selected: seq<ModelIndex>): (idx: ModelIndex)
    ensures selected == [] ==> idx == Invalid
    ensures selected != [] ==> idx == selected[0]
  {
    if selected == [] then Invalid else selected[0]
  }

  /** What `selectionChanged` does with the outcome of a lookup: prints the
      record's line, prints nothing on `IndexError` (no selection, or a
      top-level row), and passes any other error on. */
  function PrintLookup(lookup: Result<ItemStatus>): (r: Result<Option<string>>)
    ensures r == Ok(None) <==> lookup == Err(IndexError)
    ensures lookup.Ok? <==> r.Ok? && r.value.Some?
    ensures lookup.Ok? ==> r == Ok(Some(FormatItemStatus(lookup.value)))
    ensures r.Err? <==> lookup.Err? && lookup.error != IndexError
    ensures r.Err? ==> r.error == lookup.error
  {
    match lookup
    case Ok(s) => Ok(Some(FormatItemStatus(s)))
    case Err(e) => if e == IndexError then Ok(None) else Err(e)
  }

  /** `selectionChanged` as written: the line of the record the lookup as
      written builds, with its parent and child exchanged. */
  function SelectionChanged(rows: seq<Row>, selected: seq<ModelIndex>): (r: Result<Option<string>>)
    ensures r == Ok(None) <==> !IsValid(rows, SelectedIndex(selected)) || IsTopLevel(rows, SelectedIndex(selected))
    ensures GetItemAsWritten(rows, SelectedIndex(selected)).Ok? ==>
      r == Ok(Some(FormatItemStatus(GetItemAsWritten(rows, SelectedIndex(selected)).value)))
    ensures r.Err? <==> (GetItemAsWritten(rows, SelectedIndex(selected)).Err?
      && GetItemAsWritten(rows, SelectedIndex(selected)).error != IndexError)
  {
    PrintLookup(GetItemAsWritten(rows, SelectedIndex(selected)))
  }

  /** `selectionChanged` with the corrected lookup: the line of the record
      with its fields in their declared order. */
  function SelectionChangedIntended(rows: seq<Row>, selected: seq<ModelIndex>): (r: Result<Option<string>>)
    ensures r == Ok(None) <==> !IsValid(rows, SelectedIndex(selected)) || IsTopLevel(rows, SelectedIndex(selected))
    ensures GetItemStatus(rows, SelectedIndex(selected)).Ok? ==>
      r == Ok(Some(FormatItemStatus(GetItemStatus(rows, SelectedIndex(selected)).value)))
    ensures r.Err? <==> (GetItemStatus(rows, SelectedIndex(selected)).Err?
      && GetItemStatus(rows, SelectedIndex(selected)).error != IndexError)
  {
    PrintLookup(GetItemStatus(rows, SelectedIndex(selected)))
  }

  /** Selecting a child prints its line with the names in the wrong order:
      where the corrected version prints `parent:child (status)`, the
      version as written prints `child:parent (status)`. */
  lemma SelectionSwapped(rows: seq<Row>, selected: seq<ModelIndex>)
    ensures SelectionChanged(rows, selected).Ok? <==> SelectionChangedIntended(rows, selected).Ok?
    ensures GetItemStatus(rows, SelectedIndex(selected)).Ok? ==> (
      var s := GetItemStatus(rows, SelectedIndex(selected)).value;
      SelectionChanged(rows, selected) == Ok(Some(FormatLine(s.child, s.parent, StatusText(s.status))))
      && SelectionChangedIntended(rows, selected) == Ok(Some(FormatLine(s.parent, s.child, StatusText(s.status)))))
  {
    GetItemSwapped(rows, SelectedIndex(selected));
  }

  /** Selecting child x of `{'A': {'x': 'rdy'}}` prints `x:A (rdy)`; the
      corrected version prints `A:x (rdy)`. */
  lemma {:induction false} SwappedSelectionExample()
    ensures SelectionChanged(TreeRows([("A", [("x", "rdy")])]), [Index([0], 0, 0)]) == Ok(Some("x:A (rdy)"))
    ensures SelectionChangedIntended(TreeRows([("A", [("x", "rdy")])]), [Index([0], 0, 0)]) == Ok(Some("A:x (rdy)"))
  {
    SwappedRecordExample();
    ExampleLine();
  }
}
