/** The filter/sort demo: a source model of colour swatches, a proxy whose
    row filter adds a colour test in front of the fixed-string filter, the
    option lists of its combo boxes and the window's one-shot refresh. */
module SortFilterProxy {
  import opened PyCore
  import opened PySort
  import opened Qt

  /** `COLORS`: swatch name to Qt colour. */
  const Colors: map<string, GlobalColor> := map[
    "Black" := Black, "Red" := Red, "Dark Red" := DarkRed,
    "Green" := Green, "Dark Green" := DarkGreen, "Blue" := Blue,
    "Dark Blue" := DarkBlue, "Cyan" := Cyan, "Dark Cyan" := DarkCyan]

  /** `COLOR_NAMES = list(COLORS.keys())`, in the order the dict was written. */
  const ColorNames: seq<string> := [
    "Black", "Red", "Dark Red", "Green", "Dark Green", "Blue",
    "Dark Blue", "Cyan", "Dark Cyan"]

  lemma ColorNamesAreKeys()
    ensures forall i :: 0 <= i < |ColorNames| ==> ColorNames[i] in Colors
    ensures forall k :: k in Colors ==> k in ColorNames
  {
  }

  /** `ColorItem.NAME_ROLE`, also the proxy's filter role. */
  const NameRole: int := UserRole + 1
  /** `ColorItem.COLOR_ROLE` */
  const ColorRole: int := UserRole + 2

  /** A swatch item: its display text, its name and colour in their roles,
      and its swatch in the decoration role. */
  datatype ColorItem = ColorItem(display: string, name: string, color: string, swatch: GlobalColor)

  /** `s.replace(a, b)` for single characters. */
  function ReplaceChar(s: string, a: char, b: char): (r: string)
    ensures |r| == |s|
    ensures forall i :: 0 <= i < |s| ==> r[i] == (if s[i] == a then b else s[i])
  {
    if s == [] then [] else [if s[0] == a then b else s[0]] + ReplaceChar(s[1..], a, b)
  }

  /** `name.replace(' ', '\n')`: one word per line. */
  function DisplayName(name: string): string
  {
    ReplaceChar(name, ' ', '\n')
  }

  /** The display text has no spaces and as many characters as the name, and
      a name without newlines is recovered from it by the reverse replacement. */
  lemma DisplayNameFacts(name: string)
    ensures |DisplayName(name)| == |name|
    ensures ' ' !in DisplayName(name)
    ensures '\n' !in name ==> ReplaceChar(DisplayName(name), '\n', ' ') == name
  {
    var d := DisplayName(name);
    assert forall i :: 0 <= i < |d| ==> d[i] != ' ';
    if '\n' !in name {
      var back := ReplaceChar(d, '\n', ' ');
      forall i | 0 <= i < |name| ensures back[i] == name[i] {
        assert name[i] != '\n';
      }
    }
  }

  /** `ColorItem(name, color)`: the colour must name a swatch, or the `COLORS`
      lookup raises. */
  function NewColorItem(name: string, color: string): (r: Result<ColorItem>)
    ensures r.Ok? <==> color in Colors
    ensures r.Err? ==> r.error == KeyError
    ensures r.Ok? ==> (r.value.name == name && r.value.color == color
      && r.value.display == DisplayName(name) && r.value.swatch == Colors[color])
  {
    if color in Colors then Ok(ColorItem(DisplayName(name), name, color, Colors[color]))
    else Err(KeyError)
  }

  /** `item.data(role)` converted to text, as the base filter reads it; roles
      that hold no text read as the empty string. */
  function RoleText(item: ColorItem, role: int): string
  {
    if role == DisplayRole then item.display
    else if role == NameRole then item.name
    else if role == ColorRole then item.color
    else ""
  }

  /** The filter role holds the name as written, with its spaces, while the
      display text has newlines in their place. */
  lemma FilterRoleIsName(item: ColorItem, name: string, color: string)
    requires NewColorItem(name, color) == Ok(item)
    ensures RoleText(item, NameRole) == name
    ensures ' ' in name ==> RoleText(item, DisplayRole) != RoleText(item, NameRole)
  {
    DisplayNameFacts(name);
  }

  /** The proxy: `QSortFilterProxyModel` with a colour filter on top. */
  class ProxyModel {
    var filterValue: Option<string>
    var filterString: string
    var filterRole: int
    var sortRole: int
    var sortColumn: int
    /** How many times the proxy has re-run its filter. */
    ghost var invalidations: nat

    /** Filters on the name role, sorts on column 0, no colour filter. */
    constructor ()
      ensures filterValue == None && filterString == "" && filterRole == NameRole
      ensures sortRole == DisplayRole && sortColumn == 0 && invalidations == 0
    {
      filterValue := None;
      filterString := "";
      filterRole := NameRole;
      sortRole := DisplayRole;
      sortColumn := 0;
      invalidations := 0;
    }

    /** The `sort_role` setter. */
    method SetSortRole(role: int)
      modifies this
      ensures sortRole == role
      ensures filterValue == old(filterValue) && filterString == old(filterString)
      ensures filterRole == old(filterRole) && sortColumn == old(sortColumn)
      ensures invalidations == old(invalidations)
    {
      sortRole := role;
    }

    /** The `filter_string` setter: sets the fixed string, then re-filters. */
    method SetFilterString(s: string)
      modifies this
      ensures filterString == s && invalidations == old(invalidations) + 1
      ensures filterValue == old(filterValue) && filterRole == old(filterRole)
      ensures sortRole == old(sortRole) && sortColumn == old(sortColumn)
    {
      filterString := s;
      invalidations := invalidations + 1;
    }

    /** The `filter_value` setter: sets the colour to keep, then re-filters. */
    method SetFilterValue(v: Option<string>)
      modifies this
      ensures filterValue == v && invalidations == old(invalidations) + 1
      ensures filterString == old(filterString) && filterRole == old(filterRole)
      ensures sortRole == old(sortRole) && sortColumn == old(sortColumn)
    {
      filterValue := v;
      invalidations := invalidations + 1;
    }

    /** `refresh()`: refreshes the source model, then re-runs the filter so
        the view sees the new rows. A source refresh that raises skips the
        re-filtering. */
    method Refresh(source: SourceModel, draws: seq<Draw>) returns (r: Outcome)
      requires |source.words| > 0 ==> |draws| == RefreshCount
      requires |source.words| > 0 ==> forall i :: 0 <= i < |draws| ==> ValidDraw(draws[i], |source.words|)
      modifies this, source
      ensures r.Pass? <==> |source.words| > 0
      ensures r.Fail? ==> r.error == IndexError && source.rows == []
      ensures r.Pass? ==> (|source.rows| == RefreshCount
        && forall i :: 0 <= i < |source.rows| ==> source.rows[i] == DrawnItem(source.words, draws[i]))
      ensures source.changedEmits == old(source.changedEmits) + (if r.Pass? then 1 else 0)
      ensures invalidations == old(invalidations) + (if r.Pass? then 1 else 0)
      ensures filterValue == old(filterValue) && filterString == old(filterString)
      ensures filterRole == old(filterRole) && sortRole == old(sortRole) && sortColumn == old(sortColumn)
    {
      r := source.Refresh(draws);
      if r.Pass? {
        invalidations := invalidations + 1;
      }
    }

    /** `filterAcceptsRow`: when a colour is set the row's colour must equal
        it, and only then is the base fixed-string filter asked, on the text of
        the filter role. `matches(pattern, text)` stands for the base filter. */
    function FilterAcceptsRow(source: seq<ColorItem>, row: int, matches: (string, string) -> bool): (r: bool)
      reads this
      requires 0 <= row < |source|
      ensures r <==> (filterValue.None? || filterValue.value == source[row].color)
                     && matches(filterString, RoleText(source[row], filterRole))
    {
      var result := if filterValue.Some? then filterValue.value == source[row].color else true;
      if result then matches(filterString, RoleText(source[row], filterRole)) else false
    }
  }

  /** A row whose colour differs from the colour filter is rejected whatever
      the string filter would say. */
  lemma ColorMismatchIgnoresBaseFilter(proxy: ProxyModel, source: seq<ColorItem>, row: int,
                                       m1: (string, string) -> bool, m2: (string, string) -> bool)
    requires 0 <= row < |source|
    requires proxy.filterValue.Some? && proxy.filterValue.value != source[row].color
    ensures !proxy.FilterAcceptsRow(source, row, m1) && !proxy.FilterAcceptsRow(source, row, m2)
  {
  }

  /** A fresh proxy restricts rows by the string filter alone, matched
      against the row's name. */
  method FreshProxyFilter(source: seq<ColorItem>, row: int, matches: (string, string) -> bool)
    returns (accepted: bool)
    requires 0 <= row < |source|
    ensures accepted == matches("", source[row].name)
  {
    var proxy := new ProxyModel();
    accepted := proxy.FilterAcceptsRow(source, row, matches);
  }

  /** How many items `SourceModel.refresh` makes. */
  const RefreshCount: nat := 1000

  /** One `_make_data_item` draw: three indexes into the word list and one
      into `COLOR_NAMES`, standing for `random.choices` and `random.choice`. */
  datatype Draw = Draw(first: nat, second: nat, third: nat, color: nat)

  predicate ValidDraw(d: Draw, wordCount: nat)
  {
    d.first < wordCount && d.second < wordCount && d.third < wordCount && d.color < |ColorNames|
  }

  /** `' '.join(words)` for three words. */
  function JoinThree(a: string, b: string, c: string): string
  {
    a + " " + b + " " + c
  }

  /** The item `_make_data_item` builds from a draw. */
  function DrawnItem(words: seq<string>, d: Draw): (item: ColorItem)
    requires ValidDraw(d, |words|)
  {
    ColorNamesAreKeys();
    NewColorItem(JoinThree(words[d.first], words[d.second], words[d.third]), ColorNames[d.color]).value
  }

  /** A drawn item's name is three words of the list joined by single spaces,
      its colour is a swatch name, and its display text has no spaces. */
  lemma DrawnItemShape(words: seq<string>, d: Draw)
    requires ValidDraw(d, |words|)
    ensures DrawnItem(words, d).name == words[d.first] + " " + words[d.second] + " " + words[d.third]
    ensures DrawnItem(words, d).color in Colors && DrawnItem(words, d).color in ColorNames
    ensures ' ' !in DrawnItem(words, d).display
  {
    ColorNamesAreKeys();
    DisplayNameFacts(JoinThree(words[d.first], words[d.second], words[d.third]));
  }

  /** The source model: the word list loaded at start-up and the current items. */
  class SourceModel {
    const words: seq<string>
    var rows: seq<ColorItem>
    /** How many times `Changed` has been emitted. */
    ghost var changedEmits: nat

    constructor (words: seq<string>)
      ensures this.words == words && rows == [] && changedEmits == 0
    {
      this.words := words;
      rows := [];
      changedEmits := 0;
    }

    /** `refresh`: clears the model and appends one item per draw, 1000 in
        all, then emits `Changed`. With an empty word list the first draw
        raises, leaving the model cleared. */
    method Refresh(draws: seq<Draw>) returns (r: Outcome)
      requires |words| > 0 ==> |draws| == RefreshCount
      requires |words| > 0 ==> forall i :: 0 <= i < |draws| ==> ValidDraw(draws[i], |words|)
      modifies this
      ensures |words| == 0 ==> r == Fail(IndexError) && rows == [] && changedEmits == old(changedEmits)
      ensures |words| > 0 ==> r == Pass && changedEmits == old(changedEmits) + 1
      ensures |words| > 0 ==> (|rows| == RefreshCount
        && forall i :: 0 <= i < |rows| ==> rows[i] == DrawnItem(words, draws[i]))
    {
      rows := [];
      if |words| == 0 {
        return Fail(IndexError);
      }
      ColorNamesAreKeys();
      for i := 0 to RefreshCount
        invariant |rows| == i && changedEmits == old(changedEmits)
        invariant forall j :: 0 <= j < i ==> rows[j] == DrawnItem(words, draws[j])
      {
        var d := draws[i];
        var name := JoinThree(words[d.first], words[d.second], words[d.third]);
        var item := NewColorItem(name, ColorNames[d.color]);
        assert item == Ok(DrawnItem(words, d));
        rows := rows + [item.value];
      }
      changedEmits := changedEmits + 1;
      r := Pass;
    }
  }

  /** The data stored on a row of a `SimpleDataModel`: None, a colour name or
      a role number. */
  datatype RowData = NoData | Text(s: string) | RoleNumber(role: int)

  datatype DataRow = DataRow(text: string, data: RowData)

  /** `SimpleDataModel`: rows of a display name and data in one fixed role. */
  class SimpleDataModel {
    const dataRole: int
    var rows: seq<DataRow>

    constructor ()
      ensures dataRole == UserRole + 1 && rows == []
    {
      dataRole := UserRole + 1;
      rows := [];
    }

    /** `_add_item(name, data)` */
    method AddItem(name: string, data: RowData)
      modifies this
      ensures rows == old(rows) + [DataRow(name, data)]
    {
      rows := rows + [DataRow(name, data)];
    }
  }

  /** The rows a colour model lists for the swatch names `names`: 'All Colors'
      with no data, then each name with itself as data. */
  function OptionsOf(names: seq<string>): (rows: seq<DataRow>)
    ensures |rows| == |names| + 1
  {
    [DataRow("All Colors", NoData)]
      + seq(|names|, i requires 0 <= i < |names| => DataRow(names[i], Text(names[i])))
  }

  /** Every listed row after the first shows a key of the table, with that
      key as its data, and there are as many as there are keys. */
  lemma OptionsOfKeys(names: seq<string>, keys: seq<string>, table: map<string, GlobalColor>)
    requires forall k :: k in table <==> k in keys
    requires multiset(names) == multiset(keys)
    ensures |OptionsOf(names)| == |keys| + 1
    ensures OptionsOf(names)[0] == DataRow("All Colors", NoData)
    ensures forall i :: 1 <= i < |OptionsOf(names)| ==>
      OptionsOf(names)[i].data == Text(OptionsOf(names)[i].text) && OptionsOf(names)[i].text in table
  {
    var rows := OptionsOf(names);
    assert |names| == |multiset(names)| == |multiset(keys)| == |keys|;
    forall i | 1 <= i < |rows| ensures rows[i].data == Text(rows[i].text) && rows[i].text in table {
      assert rows[i].text == names[i - 1];
      assert names[i - 1] in multiset(keys);
    }
  }

  /** Every key of the table is listed. */
  lemma OptionsCoverKeys(names: seq<string>, keys: seq<string>, table: map<string, GlobalColor>)
    requires forall k :: k in table <==> k in keys
    requires multiset(names) == multiset(keys)
    ensures forall k :: k in table ==> exists i :: 1 <= i < |OptionsOf(names)| && OptionsOf(names)[i].text == k
  {
    var rows := OptionsOf(names);
    forall k | k in table ensures exists i :: 1 <= i < |rows| && rows[i].text == k {
      assert k in multiset(names);
      var i :| 0 <= i < |names| && names[i] == k;
      assert rows[i + 1].text == k;
    }
  }

  /** Names in ascending order are listed in ascending order. */
  lemma OptionsAscending(names: seq<string>)
    requires SortedBy(names, (s: string) => s)
    ensures forall i, j :: 1 <= i < j < |OptionsOf(names)| ==>
      StrLe(OptionsOf(names)[i].text, OptionsOf(names)[j].text)
  {
    var rows := OptionsOf(names);
    forall i, j | 1 <= i < j < |rows| ensures StrLe(rows[i].text, rows[j].text) {
      assert rows[i].text == names[i - 1] && rows[j].text == names[j - 1];
    }
  }

  /** The rows listed for the keys `keys`, in sorted order. */
  function SortedOptions(keys: seq<string>): seq<DataRow>
  {
    OptionsOf(SortBy(keys, (s: string) => s))
  }

  /** The rows listed for a table's keys start with 'All Colors', then list
      every key exactly once, in ascending order, each with its own name as
      data. */
  lemma SortedOptionsFacts(keys: seq<string>, table: map<string, GlobalColor>)
    requires forall k :: k in table <==> k in keys
    ensures |SortedOptions(keys)| == |keys| + 1
    ensures SortedOptions(keys)[0] == DataRow("All Colors", NoData)
    ensures forall i :: 1 <= i < |SortedOptions(keys)| ==>
      SortedOptions(keys)[i].data == Text(SortedOptions(keys)[i].text) && SortedOptions(keys)[i].text in table
    ensures forall k :: k in table ==> exists i :: 1 <= i < |SortedOptions(keys)| && SortedOptions(keys)[i].text == k
    ensures forall i, j :: 1 <= i < j < |SortedOptions(keys)| ==>
      StrLe(SortedOptions(keys)[i].text, SortedOptions(keys)[j].text)
  {
    var names := SortBy(keys, (s: string) => s);
    SortBySorted(keys, (s: string) => s);
    OptionsOfKeys(names, keys, table);
    OptionsCoverKeys(names, keys, table);
    OptionsAscending(names);
  }

  /** The body of `Colors()` once the names are sorted: 'All Colors', then one
      row per name, in the order given. */
  method NewOptions(names: seq<string>) returns (model: SimpleDataModel)
    ensures fresh(model) && model.dataRole == UserRole + 1
    ensures model.rows == OptionsOf(names)
  {
    model := new SimpleDataModel();
    model.AddItem("All Colors", NoData);
    for i := 0 to |names|
      invariant model.rows == OptionsOf(names)[..i + 1]
    {
      model.AddItem(names[i], Text(names[i]));
    }
  }

  /** `Colors()`: 'All Colors', then one row per swatch in sorted order. */
  method NewColors() returns (model: SimpleDataModel)
    ensures fresh(model) && model.dataRole == UserRole + 1
    ensures model.rows == SortedOptions(ColorNames)
  {
    model := NewOptions(SortBy(ColorNames, (s: string) => s));
  }

  /** The colour combo box lists 'All Colors', then one row per name in
      `COLOR_NAMES`, every swatch among them. */
  lemma ColorOptionsFacts()
    ensures |SortedOptions(ColorNames)| == |ColorNames| + 1
    ensures forall k :: k in Colors ==>
      (exists i :: 1 <= i < |SortedOptions(ColorNames)| && SortedOptions(ColorNames)[i].text == k)
  {
    ColorNamesAreKeys();
    SortedOptionsFacts(ColorNames, Colors);
  }

  /** `SortModes()`: by name, then by colour, each with its role as data. */
  method NewSortModes() returns (model: SimpleDataModel)
    ensures fresh(model) && model.dataRole == UserRole + 1
    ensures model.rows == [DataRow("By Name", RoleNumber(NameRole)), DataRow("By Color", RoleNumber(ColorRole))]
  {
    model := new SimpleDataModel();
    model.AddItem("By Name", RoleNumber(NameRole));
    model.AddItem("By Color", RoleNumber(ColorRole));
  }

  /** `DataComboBox`: a combo box over a `SimpleDataModel` that announces
      the data of the row chosen. It reads the data in the role the model
      stores it in; both default to `UserRole + 1`, and no caller changes
      either. */
  class DataComboBox {
    const model: SimpleDataModel

    constructor (model: SimpleDataModel)
      ensures this.model == model
    {
      this.model := model;
    }

    /** `itemData(index, data_role)`: the data of the row, and `None` for an
        index that names no row, such as -1 once the list is empty. */
    function ItemData(index: int): (d: RowData)
      reads this, model
      ensures 0 <= index < |model.rows| ==> d == model.rows[index].data
      ensures !(0 <= index < |model.rows|) ==> d == NoData
    {
      if 0 <= index < |model.rows| then model.rows[index].data else NoData
    }

    /** `_handle_index_changed(index)`: emits `Changed` with the chosen row's
        data. */
    method HandleIndexChanged(index: int) returns (emitted: RowData)
      ensures emitted == ItemData(index)
    {
      emitted := ItemData(index);
    }
  }

  /** Choosing row `i` of a combo box listing the options for a table's
      keys, as the colour combo box lists `COLORS` (`NewColors`,
      `ColorNamesAreKeys`), emits what the proxy's colour filter is then set
      to: `None` for 'All Colors', which turns the filter off, a key of the
      table for every other row, and `None` for a row that does not exist. */
  method OptionsComboEmits(model: SimpleDataModel, keys: seq<string>, table: map<string, GlobalColor>, i: int)
    returns (emitted: RowData)
    requires model.rows == SortedOptions(keys)
    requires forall k :: k in table <==> k in keys
    ensures i == 0 ==> emitted == NoData
    ensures 1 <= i <= |keys| ==> emitted.Text? && emitted.s in table
    ensures (i < 0 || i > |keys|) ==> emitted == NoData
  {
    SortedOptionsFacts(keys, table);
    var box := new DataComboBox(model);
    emitted := box.HandleIndexChanged(i);
  }

  /** Choosing row `i` of the sort combo box emits the role the proxy then
      sorts on: the name role, then the colour role, and `None` for a row
      that does not exist. */
  method SortComboEmits(i: int) returns (sort: RowData)
    ensures i == 0 ==> sort == RoleNumber(NameRole)
    ensures i == 1 ==> sort == RoleNumber(ColorRole)
    ensures (i < 0 || i > 1) ==> sort == NoData
  {
    var modes := NewSortModes();
    var box := new DataComboBox(modes);
    sort := box.HandleIndexChanged(i);
  }

  /** The window: refreshes the model once, after it is first shown. */
  class MainWindow {
    var openedOnce: bool
    /** How many refreshes have been scheduled. */
    ghost var scheduled: nat

    constructor ()
      ensures !openedOnce && scheduled == 0
    {
      openedOnce := false;
      scheduled := 0;
    }

    /** `showEvent`: only the first show schedules a refresh. */
    method ShowEvent() returns (scheduleRefresh: bool)
      modifies this
      ensures scheduleRefresh <==> !old(openedOnce)
      ensures openedOnce
      ensures scheduled == old(scheduled) + (if scheduleRefresh then 1 else 0)
    {
      scheduleRefresh := !openedOnce;
      if scheduleRefresh {
        openedOnce := true;
        scheduled := scheduled + 1;
      }
    }
  }

  /** However often a new window is shown, one refresh is scheduled, by the
      first show. */
  method ShowRepeatedly(times: nat) returns (refreshes: seq<bool>)
    ensures |refreshes| == times
    ensures forall i :: 0 <= i < times ==> (refreshes[i] <==> i == 0)
  {
    var window := new MainWindow();
    refreshes := [];
    for i := 0 to times
      invariant |refreshes| == i
      invariant forall j :: 0 <= j < i ==> (refreshes[j] <==> j == 0)
      invariant window.openedOnce <==> i > 0
    {
      var scheduleRefresh := window.ShowEvent();
      refreshes := refreshes + [scheduleRefresh];
    }
  }
}
