/** The item/widget status tree: a tree widget filled item by item from a dict
    of top-level names to dicts of child names and status codes. Unlike the
    model/view version, each item is attached to its parent before it is
    filled in, so a failing colour lookup leaves a blank child, and the
    top-level item holding it, in the tree. */
module ItemWidget {
  import opened PyCore
  import opened PyDict
  import opened PySort
  import opened Qt
  import opened StatusCommon
  import opened ItemModel
  import ModelView

  /** A `QTreeWidgetItem`: the text of both columns, the `UserRole` data of
      the status column, its flags and its children. */
  datatype TreeItem = TreeItem(text0: string, text1: string, data1: Option<string>,
                               flags: ItemFlags, children: seq<TreeItem>)

  /** A new item: no text, no data, the default flags. */
  function NewItem(): TreeItem { TreeItem("", "", None, TreeItemDefaultFlags, []) }

  /** The flags `_create_top_item` gives a top-level item. */
  const TopFlags: ItemFlags := TreeItemDefaultFlags & !ItemIsSelectable

  /** A child entry whose status code the colour table has. */
  predicate KnownEntry(e: (string, string)) { Known(e.1) }

  /** `_create_child_item(name, status, parent)`: the child it leaves attached
      to the parent, and whether it raised. The item is attached first, so an
      unknown code leaves a new, blank item behind. */
  function ChildItem(e: (string, string)): (c: (TreeItem, Outcome))
    ensures c.1.Pass? <==> Known(e.1)
    ensures c.1.Fail? ==> c.1.error == KeyError && c.0 == NewItem()
    ensures c.1.Pass? ==> (c.0.text0 == e.0 && Some(c.0.text1) == StatusName(e.1)
      && c.0.data1 == Some(e.1) && c.0.flags == TreeItemDefaultFlags && c.0.children == [])
  {
    if Known(e.1) then (TreeItem(e.0, StatusName(e.1).value, Some(e.1), TreeItemDefaultFlags, []), Pass)
    else (NewItem(), Fail(KeyError))
  }

  /** `_create_top_item(name, data, parent)`: the top-level item it leaves in
      the tree, and whether it raised. The children come in ascending name
      order up to the first unknown code, whose blank child ends the list. */
  function TopItem(name: string, items: Dict<string>): (t: (TreeItem, Outcome))
    ensures t.0.text0 == name && t.0.flags == TopFlags && t.0.data1 == None
    ensures t.1.Fail? ==> (t.1.error == KeyError && |t.0.children| > 0
      && t.0.children[|t.0.children| - 1] == NewItem())
  {
    var s := SortBy(items, ModelView.ChildName);
    var n := PrefixWhile(s, KnownEntry);
    var kids := ChildItems(s, n);
    if n < |s| then (TreeItem(name, "", None, TopFlags, kids + [NewItem()]), Fail(KeyError))
    else (TreeItem(name, "", None, TopFlags, kids), Pass)
  }

  /** The child items of the first `n` entries of `s`. */
  function ChildItems(s: seq<(string, string)>, n: nat): (kids: seq<TreeItem>)
    requires n <= |s|
    ensures |kids| == n
  {
    seq(n, k requires 0 <= k < n => ChildItem(s[k]).0)
  }

  /** One more entry adds its child item at the end. */
  lemma ChildItemsStep(s: seq<(string, string)>, n: nat)
    requires n < |s|
    ensures ChildItems(s, n + 1) == ChildItems(s, n) + [ChildItem(s[n]).0]
  {
  }

  /** The top-level items of the first `n` entries of `s`. */
  function TopItems(s: seq<(string, Dict<string>)>, n: nat): (items: seq<TreeItem>)
    requires n <= |s|
    ensures |items| == n
  {
    seq(n, k requires 0 <= k < n => TopItem(s[k].0, s[k].1).0)
  }

  /** One more entry adds its top-level item at the end. */
  lemma TopItemsStep(s: seq<(string, Dict<string>)>, n: nat)
    requires n < |s|
    ensures TopItems(s, n + 1) == TopItems(s, n) + [TopItem(s[n].0, s[n].1).0]
  {
  }

  /** The tree `refresh` leaves, and whether it raised: one item per
      top-level entry in ascending name order, up to and including the first
      entry with an unknown code. */
  function WidgetTree(data: Dict<Dict<string>>): (t: (seq<TreeItem>, Outcome))
    ensures |t.0| <= |data|
  {
    var s := ModelView.SortedTops(data);
    var m := PrefixWhile(s, ModelView.Builds);
    if m < |s| then (TopItems(s, m) + [TopItem(s[m].0, s[m].1).0], TopItem(s[m].0, s[m].1).1)
    else (TopItems(s, m), Pass)
  }

  /** `_create_top_item` gets through a top-level entry exactly when every
      code under it is known, that is, when the model/view version builds its
      row. */
  lemma {:induction false} TopItemPasses(e: (string, Dict<string>))
    ensures TopItem(e.0, e.1).1.Pass? <==> ModelView.AllKnown(e.1)
    ensures TopItem(e.0, e.1).1.Pass? <==> ModelView.Builds(e)
  {
    var s := SortBy(e.1, ModelView.ChildName);
    var n := PrefixWhile(s, KnownEntry);
    SortByIndexMember(e.1, ModelView.ChildName);
    if ModelView.AllKnown(e.1) {
      assert forall k :: 0 <= k < |s| ==> KnownEntry(s[k]) by {
        forall k | 0 <= k < |s| ensures KnownEntry(s[k]) {
          assert s[k] in e.1;
        }
      }
    } else {
      var x :| x in e.1 && !Known(x.1);
      SortByMember(e.1, ModelView.ChildName, x);
      var k :| 0 <= k < |s| && s[k] == x;
      assert !KnownEntry(s[k]);
    }
  }

  /** `StatusWidget`: the tree widget. */
  class StatusWidget {
    var tops: seq<TreeItem>
    var headers: seq<string>

    constructor ()
      ensures tops == [] && headers == ["Name", "Status"]
    {
      tops := [];
      headers := ["Name", "Status"];
    }

    /** `_create_top_item(name, data, self)`: attaches a new top-level item,
        makes it unselectable, names it, then attaches its children one by
        one in ascending name order, raising at the first unknown code. */
    method CreateTopItem(name: string, items: Dict<string>) returns (r: Outcome)
      modifies this
      ensures headers == old(headers)
      ensures tops == old(tops) + [TopItem(name, items).0]
      ensures r == TopItem(name, items).1
    {
      var before := tops;
      var top := NewItem();
      tops := before + [top];
      top := top.(flags := top.flags & !ItemIsSelectable);
      top := top.(text0 := name);
      tops := before + [top];
      var s := SortBy(items, ModelView.ChildName);
      r := Pass;
      for j := 0 to |s|
        invariant tops == before + [top] && headers == old(headers)
        invariant top == TreeItem(name, "", None, TopFlags, ChildItems(s, j))
        invariant j <= PrefixWhile(s, KnownEntry)
      {
        var child := ChildItem(s[j]);
        PrefixWhileStep(s, KnownEntry, j);
        ChildItemsStep(s, j);
        top := top.(children := top.children + [child.0]);
        tops := before + [top];
        if child.1.Fail? {
          return child.1;
        }
      }
    }

    /** `refresh()` on the data the database query returns: clears the tree
        and creates the top-level items in ascending name order, stopping at
        the first one that raises. */
    method Refresh(data: Dict<Dict<string>>) returns (r: Outcome)
      modifies this
      ensures headers == old(headers)
      ensures tops == WidgetTree(data).0 && r == WidgetTree(data).1
    {
      tops := [];
      var s := ModelView.SortedTops(data);
      r := Pass;
      for i := 0 to |s|
        invariant tops == TopItems(s, i)
        invariant i <= PrefixWhile(s, ModelView.Builds)
        invariant headers == old(headers)
        invariant r == Pass
      {
        r := CreateTopItem(s[i].0, s[i].1);
        TopItemPasses(s[i]);
        PrefixWhileStep(s, ModelView.Builds, i);
        if r.Fail? {
          return;
        }
        TopItemsStep(s, i);
      }
    }
  }

  /** A selected tree item: a top-level item, or a child of one. */
  datatype ItemRef = TopRef(top: nat) | ChildRef(top: nat, child: nat)

  predicate ValidRef(tops: seq<TreeItem>, ref: ItemRef)
  {
    ref.top < |tops| && (ref.ChildRef? ==> ref.child < |tops[ref.top].children|)
  }

  /** `_item_status(item)`: the parent's name, the item's name and its status
      code, in the record's field order. A top-level item has no parent, so
      reading its parent's text raises `AttributeError`. */
  function ItemStatusOf(tops: seq<TreeItem>, ref: ItemRef): (r: Result<ItemStatus>)
    requires ValidRef(tops, ref)
    ensures r.Err? <==> ref.TopRef?
    ensures r.Err? ==> r.error == AttributeError
    ensures r.Ok? ==> (r.value.parent == tops[ref.top].text0
      && r.value.child == tops[ref.top].children[ref.child].text0
      && r.value.status == tops[ref.top].children[ref.child].data1)
  {
    match ref
    case TopRef(_) => Err(AttributeError)
    case ChildRef(i, j) =>
      var item := tops[i].children[j];
      Ok(ItemStatus(tops[i].text0, item.text0, item.data1))
  }

  /** `_handle_item_selection_handled()`: nothing without a selection, the
      printed line for one selected item, and the `ValueError` of unpacking
      more than one. */
  function SelectionChanged(tops: seq<TreeItem>, selected: seq<ItemRef>): (r: Result<Option<string>>)
    requires forall k :: 0 <= k < |selected| ==> ValidRef(tops, selected[k])
    ensures selected == [] ==> r == Ok(None)
    ensures |selected| > 1 ==> r == Err(ValueError)
    ensures |selected| == 1 && selected[0].TopRef? ==> r == Err(AttributeError)
    ensures |selected| == 1 && selected[0].ChildRef? ==>
      r == Ok(Some(FormatItemStatus(ItemStatusOf(tops, selected[0]).value)))
  {
    if |selected| == 0 then Ok(None)
    else if |selected| > 1 then Err(ValueError)
    else
      match ItemStatusOf(tops, selected[0])
      case Ok(s) => Ok(Some(FormatItemStatus(s)))
      case Err(e) => Err(e)
  }

  /** A widget child shows what a model/view child row shows. */
  predicate ChildMatchesRow(c: TreeItem, row: Row)
  {
    |row| == 2 && c.text0 == row[0].text && c.text1 == row[1].text && c.data1 == row[1].data
  }

  /** A widget top-level item shows what a model/view top-level row shows. */
  predicate TopMatchesRow(t: TreeItem, row: Row)
  {
    |row| == 1 && t.text0 == row[0].text && |t.children| == |row[0].children|
    && forall j :: 0 <= j < |t.children| ==> ChildMatchesRow(t.children[j], row[0].children[j])
  }

  /** A completed top-level item shows what the model/view row of the same
      entry shows. */
  lemma {:induction false} TopItemMatchesRow(e: (string, Dict<string>))
    requires ModelView.AllKnown(e.1)
    ensures TopMatchesRow(TopItem(e.0, e.1).0, ModelView.TopRow(e.0, e.1).value)
  {
    TopItemPasses(e);
    var s := SortBy(e.1, ModelView.ChildName);
    var n := PrefixWhile(s, KnownEntry);
    var t := TopItem(e.0, e.1).0;
    var row := ModelView.TopRow(e.0, e.1).value;
    assert n == |s|;
    assert row[0].children == ModelView.ChildRows(e.1);
    forall j | 0 <= j < |t.children| ensures ChildMatchesRow(t.children[j], row[0].children[j]) {
      assert t.children[j] == ChildItem(s[j]).0;
      assert row[0].children[j] == ModelView.ChildRow(s[j]);
    }
  }

  /** Both versions get through the same top-level entries and show the same
      names, texts and codes for them; where the model/view version drops
      the entry with an unknown code, the widget keeps a partly filled item
      for it. */
  lemma {:induction false} WidgetMatchesModel(data: Dict<Dict<string>>)
    ensures WidgetTree(data).1.Pass? <==> |ModelView.TreeRows(data)| == |data|
    ensures WidgetTree(data).1.Pass? ==> |WidgetTree(data).0| == |ModelView.TreeRows(data)|
    ensures WidgetTree(data).1.Fail? ==> (WidgetTree(data).1.error == KeyError
      && |WidgetTree(data).0| == |ModelView.TreeRows(data)| + 1)
    ensures forall i :: 0 <= i < |ModelView.TreeRows(data)| ==>
      TopMatchesRow(WidgetTree(data).0[i], ModelView.TreeRows(data)[i])
  {
    var s := ModelView.SortedTops(data);
    var m := PrefixWhile(s, ModelView.Builds);
    var rows: seq<Row> := ModelView.TreeRows(data);
    if m < |s| {
      TopItemPasses(s[m]);
    }
    var tops := WidgetTree(data).0;
    forall i | 0 <= i < m ensures TopMatchesRow(tops[i], rows[i]) {
      assert tops[i] == TopItem(s[i].0, s[i].1).0;
      assert rows[i] == ModelView.TopRow(s[i].0, s[i].1).value;
      TopItemMatchesRow(s[i]);
    }
  }

  /** Every top-level item of the widget tree carries the top-level flags. */
  lemma {:induction false} WidgetTopFlags(data: Dict<Dict<string>>)
    ensures |ModelView.TreeRows(data)| <= |WidgetTree(data).0|
    ensures forall i :: 0 <= i < |WidgetTree(data).0| ==> WidgetTree(data).0[i].flags == TopFlags
  {
    var s := ModelView.SortedTops(data);
    var m := PrefixWhile(s, ModelView.Builds);
    var tops := WidgetTree(data).0;
    assert |ModelView.TreeRows(data)| == m <= |tops|;
    forall i | 0 <= i < |tops| ensures tops[i].flags == TopFlags {
      if i < m {
        assert tops[i] == TopItem(s[i].0, s[i].1).0;
      } else {
        assert tops[i] == TopItem(s[m].0, s[m].1).0;
      }
    }
  }

  /** Every top-level item `refresh` leaves is unselectable, with the flags
      the model/view version reports for its top-level rows. */
  lemma {:induction false} TopsUnselectable(data: Dict<Dict<string>>)
    ensures forall i :: 0 <= i < |WidgetTree(data).0| ==>
      WidgetTree(data).0[i].flags & ItemIsSelectable == 0
    ensures |ModelView.TreeRows(data)| <= |WidgetTree(data).0|
    ensures forall i :: 0 <= i < |ModelView.TreeRows(data)| ==> (
      ModelView.Flags(ModelView.TreeRows(data), RootColumns(ModelView.TreeRows(data), 2), Index([], i, 0),
        TreeItemDefaultFlags)
      == WidgetTree(data).0[i].flags)
  {
    WidgetTopFlags(data);
    ModelView.TreeFlags(data, TreeItemDefaultFlags);
  }

  /** Selecting a child shows the same record in both versions: the widget's
      `_item_status` agrees with the corrected model/view lookup, in either
      column. */
  lemma {:induction false} StatusAgrees(data: Dict<Dict<string>>, i: nat, j: nat, column: nat)
    requires i < |ModelView.TreeRows(data)| && j < |ModelView.TreeRows(data)[i][0].children| && column < 2
    ensures ValidRef(WidgetTree(data).0, ChildRef(i, j))
    ensures ItemStatusOf(WidgetTree(data).0, ChildRef(i, j))
      == ModelView.GetItemStatus(ModelView.TreeRows(data), Index([i], j, column))
  {
    var rows: seq<Row> := ModelView.TreeRows(data);
    WidgetMatchesModel(data);
    var t := WidgetTree(data).0[i];
    assert TopMatchesRow(t, rows[i]);
    assert ChildMatchesRow(t.children[j], rows[i][0].children[j]);
    ModelView.GetItemStatusOfChild(rows, i, j, column);
  }
}
