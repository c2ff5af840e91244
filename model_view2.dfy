/** The three-level status tree shared by a tree view and two combo boxes:
    roots hold groups, groups hold leaves with a status code. Roots and groups
    are listed by name, leaves in the order the data gives them; choosing a
    root points the leaf combo at that root's groups, and choosing a group
    points the tree view at its leaves. */
module ModelView2 {
  import opened PyCore
  import opened PySort
  import opened PyValues
  import opened StatusCommon
  import opened ItemModel

  /** A third-level record: `{'name': ..., 'status': ...}`. */
  datatype Leaf = Leaf(name: string, status: string)

  /** A second-level record: `{'name': ..., 'items': [...]}`, the list being
      optional. */
  datatype Group = Group(name: string, items: Option<seq<Leaf>>)

  /** A top-level record: `{'name': ..., 'items': [...]}`, the list being
      optional. */
  datatype Root = Root(name: string, items: Option<seq<Group>>)

  /** `data.get('items', [])` */
  function ItemsOr<T>(items: Option<seq<T>>): seq<T>
  {
    match items
    case None => []
    case Some(s) => s
  }

  /** `operator.itemgetter('name')` on groups and on roots. */
  function GroupName(g: Group): string { g.name }
  function RootName(r: Root): string { r.name }

  /** The row `_create_item_c` appends for a leaf: its name, then the status
      text with the code as its data. The colour lookup raises `KeyError` for
      an unknown code before anything is appended. */
  function LeafRow(leaf: Leaf): (r: Result<Row>)
    ensures r.Ok? <==> Known(leaf.status)
    ensures r.Err? ==> r.error == KeyError
    ensures r.Ok? ==> (|r.value| == 2 && r.value[0].text == leaf.name && r.value[0].children == []
      && Some(r.value[1].text) == StatusName(leaf.status) && r.value[1].data == Some(leaf.status))
  {
    if Known(leaf.status) then
      Ok([Item(leaf.name, None, []), Item(StatusName(leaf.status).value, Some(leaf.status), [])])
    else Err(KeyError)
  }

  /** Every leaf of a group has a known status code. */
  predicate LeavesKnown(leaves: seq<Leaf>) { forall k :: 0 <= k < |leaves| ==> Known(leaves[k].status) }

  /** The row `_create_item_b` appends for a group: its name, with one child row
      per leaf in the order the data lists them (none when `'items'` is
      absent); a `KeyError` when some leaf's code is unknown. */
  function GroupRow(g: Group): (r: Result<Row>)
    ensures r.Ok? <==> LeavesKnown(ItemsOr(g.items))
    ensures r.Err? ==> r.error == KeyError
    ensures r.Ok? ==> (|r.value| == 1 && r.value[0].text == g.name
      && |r.value[0].children| == |ItemsOr(g.items)|)
    ensures r.Ok? ==> forall k :: 0 <= k < |ItemsOr(g.items)| ==> (
      |r.value[0].children[k]| == 2 && r.value[0].children[k][0].text == ItemsOr(g.items)[k].name
      && r.value[0].children[k][1].data == Some(ItemsOr(g.items)[k].status))
  {
    var leaves := ItemsOr(g.items);
    if LeavesKnown(leaves) then
      Ok([Item(g.name, None, seq(|leaves|, k requires 0 <= k < |leaves| => LeafRow(leaves[k]).value))])
    else Err(KeyError)
  }

  /** `_create_item_b(data, parent)`: appends the leaf rows one by one and hands
      back the finished group row, or stops at the first unknown code. */
  method CreateItemB(g: Group) returns (r: Result<Row>)
    ensures r == GroupRow(g)
  {
    var leaves := ItemsOr(g.items);
    var children: seq<Row> := [];
    for k := 0 to |leaves|
      invariant LeavesKnown(leaves[..k])
      invariant children == seq(k, m requires 0 <= m < k => LeafRow(leaves[m]).value)
    {
      var leaf := LeafRow(leaves[k]);
      if leaf.Err? {
        return Err(leaf.error);
      }
      children := children + [leaf.value];
    }
    assert leaves[..|leaves|] == leaves;
    r := Ok([Item(g.name, None, children)]);
  }

  /** A group whose row `_create_item_b` completes: every leaf under it has
      a known code. */
  predicate GroupBuilds(g: Group) { LeavesKnown(ItemsOr(g.items)) }

  /** The groups of a root in the order `_create_item_a` visits them. */
  function SortedGroups(root: Root): seq<Group>
  {
    SortBy(ItemsOr(root.items), GroupName)
  }

  /** The rows built for the first `n` groups, each of which builds. */
  function GroupRows(groups: seq<Group>, n: nat): (rows: seq<Row>)
    requires n <= |groups| && forall k :: 0 <= k < n ==> GroupBuilds(groups[k])
    ensures |rows| == n
  {
    seq(n, k requires 0 <= k < n => assert GroupBuilds(groups[k]); GroupRow(groups[k]).value)
  }

  /** One more group that builds adds its row at the end. */
  lemma GroupRowsStep(groups: seq<Group>, n: nat)
    requires n < |groups| && forall k :: 0 <= k <= n ==> GroupBuilds(groups[k])
    ensures GroupRows(groups, n + 1) == GroupRows(groups, n) + [GroupRow(groups[n]).value]
  {
  }

  /** A root whose row `_create_item_a` completes: every group under it
      builds. */
  predicate RootBuilds(root: Root) { forall g :: g in ItemsOr(root.items) ==> GroupBuilds(g) }

  /** The row `_create_item_a` appends for a root: its name, with one child row
      per group in ascending name order; a `KeyError` when some leaf below it
      has an unknown code. */
  function RootRow(root: Root): (r: Result<Row>)
    ensures r.Ok? <==> RootBuilds(root)
    ensures r.Err? ==> r.error == KeyError
    ensures r.Ok? ==> (|r.value| == 1 && r.value[0].text == root.name
      && |r.value[0].children| == |ItemsOr(root.items)|)
  {
    var groups := SortedGroups(root);
    if RootBuilds(root) then
      SortByIndexMember(ItemsOr(root.items), GroupName);
      Ok([Item(root.name, None, GroupRows(groups, |groups|))])
    else Err(KeyError)
  }

  /** A root's row is built exactly when every group under it builds; its
      child rows are those of its groups, in ascending name order. */
  lemma {:induction false} RootRowFacts(root: Root)
    ensures RootRow(root).Ok? ==> forall k :: 0 <= k < |ItemsOr(root.items)| ==> (
      SortedGroups(root)[k] in ItemsOr(root.items)
      && Ok(RootRow(root).value[0].children[k]) == GroupRow(SortedGroups(root)[k]))
    ensures RootRow(root).Ok? ==> forall i, j :: 0 <= i < j < |ItemsOr(root.items)| ==>
      StrLe(RootRow(root).value[0].children[i][0].text, RootRow(root).value[0].children[j][0].text)
  {
    var items := ItemsOr(root.items);
    var groups := SortedGroups(root);
    SortByIndexMember(items, GroupName);
    SortBySorted(items, GroupName);
    if RootBuilds(root) {
      var children: seq<Row> := RootRow(root).value[0].children;
      assert children == GroupRows(groups, |groups|);
      forall i, j | 0 <= i < j < |items| ensures StrLe(children[i][0].text, children[j][0].text) {
        assert children[i][0].text == GroupName(groups[i]) && children[j][0].text == GroupName(groups[j]);
      }
    }
  }

  /** `_create_item_a(data, parent)`: appends the group rows in ascending name
      order and hands back the finished root row, or stops at the first group
      with an unknown code. */
  method CreateItemA(root: Root) returns (r: Result<Row>)
    ensures r == RootRow(root)
  {
    var groups := SortedGroups(root);
    SortByIndexMember(ItemsOr(root.items), GroupName);
    var children: seq<Row> := [];
    for k := 0 to |groups|
      invariant forall m :: 0 <= m < k ==> GroupBuilds(groups[m])
      invariant children == GroupRows(groups, k)
    {
      var group := CreateItemB(groups[k]);
      if group.Err? {
        assert groups[k] in ItemsOr(root.items);
        return Err(group.error);
      }
      GroupRowsStep(groups, k);
      children := children + [group.value];
    }
    assert RootBuilds(root) by {
      forall g | g in ItemsOr(root.items) ensures GroupBuilds(g) {
        SortByMember(ItemsOr(root.items), GroupName, g);
        var k :| 0 <= k < |groups| && groups[k] == g;
      }
    }
    r := Ok([Item(root.name, None, children)]);
  }

  /** The roots in the order `refresh` visits them. */
  function SortedRoots(data: seq<Root>): seq<Root>
  {
    SortBy(data, RootName)
  }

  /** The rows built for the first `n` roots of `s`, each of which builds. */
  function RootRows(s: seq<Root>, n: nat): (rows: seq<Row>)
    requires n <= |s| && forall k :: 0 <= k < n ==> RootBuilds(s[k])
    ensures |rows| == n
  {
    seq(n, k requires 0 <= k < n => assert RootBuilds(s[k]); RootRow(s[k]).value)
  }

  /** One more root that builds adds its row at the end. */
  lemma RootRowsStep(s: seq<Root>, n: nat)
    requires n < |s| && forall k :: 0 <= k <= n ==> RootBuilds(s[k])
    ensures RootRows(s, n + 1) == RootRows(s, n) + [RootRow(s[n]).value]
  {
    var longer := RootRows(s, n + 1);
    var shorter := RootRows(s, n);
    forall k | 0 <= k < n ensures longer[k] == shorter[k] {
    }
  }

  /** The rows `refresh` leaves in the model: one per root, in ascending name
      order, up to the first root with an unknown code below it. */
  function TreeRows(data: seq<Root>): (rows: seq<Row>)
    ensures |rows| <= |data|
  {
    var s := SortedRoots(data);
    RootRows(s, PrefixWhile(s, RootBuilds))
  }

  /** `refresh` gets through every root exactly when every root builds. */
  lemma {:induction false} TreeComplete(data: seq<Root>)
    ensures |TreeRows(data)| == |data| <==> forall r :: r in data ==> RootBuilds(r)
  {
    var s := SortedRoots(data);
    SortByIndexMember(data, RootName);
    if forall r :: r in data ==> RootBuilds(r) {
      forall i | 0 <= i < |s| ensures RootBuilds(s[i]) {
        assert s[i] in data;
      }
    } else {
      var r :| r in data && !RootBuilds(r);
      SortByMember(data, RootName, r);
      var i :| 0 <= i < |s| && s[i] == r;
      assert !RootBuilds(s[i]);
    }
  }

  /** The rows `refresh` leaves are in ascending name order, each the row of
      a root in the data. */
  lemma {:induction false} TreeRowsOrdered(data: seq<Root>)
    ensures forall i, j :: 0 <= i < j < |TreeRows(data)| ==>
      StrLe(TreeRows(data)[i][0].text, TreeRows(data)[j][0].text)
    ensures forall i :: 0 <= i < |TreeRows(data)| ==>
      SortedRoots(data)[i] in data && Ok(TreeRows(data)[i]) == RootRow(SortedRoots(data)[i])
  {
    var s := SortedRoots(data);
    var rows: seq<Row> := TreeRows(data);
    SortByIndexMember(data, RootName);
    SortBySorted(data, RootName);
    forall i | 0 <= i < |rows|
      ensures s[i] in data && Ok(rows[i]) == RootRow(s[i]) && rows[i][0].text == RootName(s[i])
    {
    }
    forall i, j | 0 <= i < j < |rows| ensures StrLe(rows[i][0].text, rows[j][0].text) {
      assert rows[i][0].text == RootName(s[i]) && rows[j][0].text == RootName(s[j]);
    }
  }

  /** `refresh` gets through every root exactly when every root builds, and
      the rows it leaves are in ascending name order, each the row of a root
      in the data. */
  lemma {:induction false} TreeRowsFacts(data: seq<Root>)
    ensures |TreeRows(data)| == |data| <==> forall r :: r in data ==> RootBuilds(r)
    ensures forall i, j :: 0 <= i < j < |TreeRows(data)| ==>
      StrLe(TreeRows(data)[i][0].text, TreeRows(data)[j][0].text)
    ensures forall i :: 0 <= i < |TreeRows(data)| ==>
      SortedRoots(data)[i] in data && Ok(TreeRows(data)[i]) == RootRow(SortedRoots(data)[i])
  {
    TreeComplete(data);
    TreeRowsOrdered(data);
  }

  /** A loop over the sorted roots that built the first `n` and stops at the
      `n`th, or at the end, leaves exactly the rows `refresh` leaves. */
  lemma {:induction false} TreeRowsAt(data: seq<Root>, n: nat)
    requires n <= |SortedRoots(data)| && forall k :: 0 <= k < n ==> RootBuilds(SortedRoots(data)[k])
    requires n < |SortedRoots(data)| ==> !RootBuilds(SortedRoots(data)[n])
    ensures TreeRows(data) == RootRows(SortedRoots(data), n)
  {
    PrefixWhileIs(SortedRoots(data), RootBuilds, n);
  }

  /** `StatusModel`: the item model shared by the combo boxes and the view. */
  class StatusModel {
    var rows: seq<Row>
    var headers: seq<string>

    constructor ()
      ensures rows == [] && headers == []
    {
      rows := [];
      headers := [];
    }

    /** `refresh()` on the records the database query returns: clears the
        model, sets the headers and appends one row per root in ascending name
        order. An unknown code raises `KeyError`, leaving the rows appended
        before its root. */
    method Refresh(data: seq<Root>) returns (r: Outcome)
      modifies this
      ensures headers == ["Name", "Status"]
      ensures rows == TreeRows(data)
      ensures r.Pass? <==> |rows| == |data|
      ensures r.Fail? ==> r.error == KeyError
    {
      headers := ["Name", "Status"];
      var sorted := SortedRoots(data);
      rows := [];
      r := Pass;
      var i := 0;
      while i < |sorted|
        invariant i <= |sorted| && r == Pass
        invariant headers == ["Name", "Status"]
        invariant forall k :: 0 <= k < i ==> RootBuilds(sorted[k])
        invariant rows == RootRows(sorted, i)
      {
        var top := CreateItemA(sorted[i]);
        if top.Err? {
          TreeRowsAt(data, i);
          return Fail(top.error);
        }
        RootRowsStep(sorted, i);
        rows := rows + [top.value];
        i := i + 1;
      }
      TreeRowsAt(data, i);
    }

    /** `refresh()` as written: `query_db('data2.json')` passes an argument to
        a function that takes none, so the call raises `TypeError` before the
        model is cleared, and the model keeps its rows and headers. */
    method RefreshAsWritten() returns (r: Outcome)
      ensures r == Fail(TypeError)
    {
      r := Fail(TypeError);
    }
  }

  /** The refresh as written raises `TypeError` and changes nothing, even
      where the intended refresh of the records completes, as it does for an
      empty record list. */
  method QueryArgumentExample() returns (asWritten: Outcome, intended: Outcome, rows: seq<Row>)
    ensures asWritten == Fail(TypeError) && rows == []
    ensures intended == Pass
  {
    var model := new StatusModel();
    asWritten := model.RefreshAsWritten();
    rows := model.rows;
    intended := model.Refresh([]);
  }

  /** The row `_set_root_index` selects when asked to restore the selection:
      `max(0, row * (row < count))`. It keeps a row that is still in range and
      falls back to the first row otherwise, never going negative, even from
      the current index -1 of an empty combo box. */
  function RestoreRow(row: int, count: int): (r: int)
    ensures r == if 0 <= row < count then row else 0
    ensures r >= 0
  {
    var scaled := row * BoolToInt(row < count);
    if scaled > 0 then scaled else 0
  }

  /** A `QComboBox` showing the rows under its root index. */
  class ComboBox {
    var rootIndex: ModelIndex
    var currentIndex: int

    constructor ()
      ensures rootIndex == Invalid && currentIndex == -1
    {
      rootIndex := Invalid;
      currentIndex := -1;
    }

    /** `count()`: the rows under the root index. */
    function Count(rows: seq<Row>): nat
      reads this
    {
      ChildCount(rows, rootIndex)
    }

    /** `setCurrentIndex(row)`: a row outside the list leaves nothing
        selected. */
    method SetCurrentIndex(rows: seq<Row>, row: int)
      modifies this
      ensures rootIndex == old(rootIndex)
      ensures currentIndex == if 0 <= row < Count(rows) then row else -1
    {
      currentIndex := if 0 <= row < ChildCount(rows, rootIndex) then row else -1;
    }

    /** `_set_root_index(combobox, index, restore_selection)`: points the combo
        box at a new root and selects the row it had selected before if that
        row still exists and `restore` holds, the first row otherwise. */
    method SetRootIndex(rows: seq<Row>, index: ModelIndex, restore: bool)
      modifies this
      ensures rootIndex == index
      ensures currentIndex == (
        if restore && 0 <= old(currentIndex) < ChildCount(rows, index) then old(currentIndex)
        else if 0 < ChildCount(rows, index) then 0
        else -1)
    {
      var row := currentIndex;
      rootIndex := index;
      if restore {
        row := RestoreRow(row, Count(rows));
        SetCurrentIndex(rows, row);
      } else {
        SetCurrentIndex(rows, 0);
      }
    }
  }

  /** `RootLeafWidget`: one combo box for the root, one for the group under
      it. */
  class RootLeafWidget {
    const selRoot: ComboBox
    const selLeaf: ComboBox

    constructor ()
      ensures fresh(selRoot) && fresh(selLeaf)
      ensures selLeaf.rootIndex == Invalid && selLeaf.currentIndex == -1
    {
      selRoot := new ComboBox();
      selLeaf := new ComboBox();
    }

    /** `_handle_root_changed(row)`: the leaf combo box now lists the groups of
        the chosen root, keeping its row where that row still exists. */
    method HandleRootChanged(rows: seq<Row>, row: int)
      modifies selLeaf
      ensures selLeaf.rootIndex == MakeIndex(rows, Invalid, row, 0)
      ensures selLeaf.currentIndex == (
        if 0 <= old(selLeaf.currentIndex) < ChildCount(rows, selLeaf.rootIndex) then old(selLeaf.currentIndex)
        else if 0 < ChildCount(rows, selLeaf.rootIndex) then 0
        else -1)
    {
      var newIndex := MakeIndex(rows, Invalid, row, 0);
      selLeaf.SetRootIndex(rows, newIndex, true);
    }

    /** `_handle_leaf_changed(row)`: the index emitted for the tree view, the
        chosen row under the leaf combo box's root, or the invalid index when
        there is no such row. */
    method HandleLeafChanged(rows: seq<Row>, row: int) returns (emitted: ModelIndex)
      ensures emitted.Index? <==> (0 <= row < ChildCount(rows, selLeaf.rootIndex)
        && 0 < |RowsUnder(rows, if selLeaf.rootIndex.Invalid? then [] else
          selLeaf.rootIndex.parentPath + [selLeaf.rootIndex.row]).value[row]|)
      ensures emitted.Index? ==> (IsValid(rows, emitted) && Parent(emitted) == selLeaf.rootIndex
        && emitted.row == row && emitted.column == 0)
    {
      emitted := MakeIndex(rows, selLeaf.rootIndex, row, 0);
    }
  }

  /** On a tree `refresh` built, choosing root `i` and then group `j` emits the
      index of the `j`th group of that root in name order, and the view's rows
      under it are that group's leaf rows in data order. */
  lemma {:induction false} ChosenGroup(data: seq<Root>, i: nat, j: nat)
    requires i < |TreeRows(data)| && j < |ItemsOr(SortedRoots(data)[i].items)|
    ensures MakeIndex(TreeRows(data), MakeIndex(TreeRows(data), Invalid, i, 0), j, 0) == Index([i], j, 0)
    ensures ItemAt(TreeRows(data), Index([i], j, 0)).Some?
    ensures Ok([ItemAt(TreeRows(data), Index([i], j, 0)).value]) == GroupRow(SortedGroups(SortedRoots(data)[i])[j])
  {
    var rows: seq<Row> := TreeRows(data);
    var root := SortedRoots(data)[i];
    TreeRowsOrdered(data);
    assert Ok(rows[i]) == RootRow(root);
    RootRowFacts(root);
    var g := SortedGroups(root)[j];
    assert Ok(rows[i][0].children[j]) == GroupRow(g);
    ChildIndex(rows, i, j);
  }
}
