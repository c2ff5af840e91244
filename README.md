# pyqt_examples in Dafny

This project models the logic of the PySide2 examples that sits under their
widget code, and proves properties of that logic. Qt objects are replaced by
plain data:

- A settings store is a map from keys to values.
- An item model is a sequence of rows of items, where the first item of a row
  carries its child rows.
- A model index is a path of row numbers.
- A tree widget is a sequence of nested items.
- A combo box is its root index and current row.

The modules follow the examples:

- `SettingsCommon`, `AdvancedSettings` and `BasicSettings` model the two
  settings dialogs in `qsettings/`:
  - the `Setting` descriptor with its default and its `int` conversion;
  - the proxy that collects edits and writes them on `sync`;
  - the radio-button rule that decides which button starts checked;
  - the basic dialog's `accept`.
- `SortFilterProxy` models the filter/sort demo in `qmodelproxy/`:
  - the row filter that puts a colour test in front of the fixed-string
    filter;
  - the colour items;
  - the 1000-item refresh;
  - the option lists;
  - the one-shot refresh on first show.
- `StatusCommon`, `ItemModel`, `ModelView`, `ModelView2` and `ItemWidget`
  model the three status trees in `qmodelview/`:
  - the four-code status table;
  - the record a selection yields and the line printed for it;
  - how each version builds its tree and what it leaves behind when a status
    code is unknown;
  - the index rules (top-level rows are unselectable and not looked up);
  - the combo-box row restore.

Each state-changing operation is a method. Its contract ties the new state to
a function of the inputs, and lemmas prove what the examples promise about
those functions.

Python behaviour the examples rely on is modelled in small modules:

- `PyCore`: exceptions as values, via `Result` and `Outcome`.
- `PyDict`: an insertion-ordered dict.
- `PySort`: `str` ordering, and `sorted` as a stable sort.
- `PyValues`: `==` between `bool` and `int`, and `int()`.
- `Qt`: roles, item flags and colours.

Sorting a dict's items by the whole `(key, value)` pair is modelled as sorting
by the key. Keys are distinct, so the value is never compared.

## Model

| member | source | states |
|---|---|---|
| PyDict.GetAfterSet | qsettings/advanced.py:50 | after `edits[attr] = v`, the key reads `v` and every other key reads as before |
| PyDict.SetTwice | qsettings/advanced.py:50 | a second edit of the same key replaces the first: the last write wins |
| PyDict.SetKeepsDistinct | qsettings/advanced.py:33 | assigning to the pending-edits dict keeps its keys distinct |
| PySort.SortBySorted | qmodelview/model_view.py:128 | `sorted` returns its input in ascending key order |
| PySort.SortBySortedInput | qmodelview/model_view.py:142 | `sorted` leaves an already ascending list unchanged |
| PySort.SortBy | qmodelview/model_view.py:128 | `sorted` returns a permutation of its input |
| PySort.SortByStable | qmodelview/model_view2.py:182 | `sorted` is stable: records that share a name keep their input order |
| PyValues.PyInt | qsettings/basic.py:37 | `int(v)`: booleans become 0/1, integers stay, strings are parsed (`ValueError` otherwise), `None` is a `TypeError` |
| PyValues.ParseIntToStr | qsettings/basic.py:37 | an integer written as text parses back to itself |
| PyValues.PyIntOfText | qsettings/basic.py:37 | `int(str(n)) == n` |
| PyValues.PyIntIdempotent | qsettings/basic.py:41 | converting a stored `int` again gives the same value |
| SettingsCommon.Lookup | qsettings/advanced.py:109-110 | `value(key, default)` is the stored value, or the default when the key is absent |
| SettingsCommon.LastMatch | qsettings/basic.py:71-80 | the checked button is the last row whose data equals the value (the group is exclusive), or none |
| SettingsCommon.CheckButtons | qsettings/basic.py:71-80 | the constructor's loop leaves exactly `LastMatch` checked |
| SettingsCommon.LastMatchUnique | qsettings/basic.py:71-80 | with distinct row data, the one row whose data is the value is checked |
| SettingsCommon.Capitalize | qsettings/basic.py:126 | `str.capitalize` on ASCII text: first character upper case, the rest lower case, same length |
| SettingsCommon.Colors | qsettings/basic.py:122-130 | the colour model has one row per colour, in order, with the capitalised name as text and the name as data |
| SettingsCommon.ColorChoicesAre | qsettings/basic.py:122-130 | the rows are Red/red, Blue/blue, Green/green |
| SettingsCommon.ColorButtonChecked | qsettings/basic.py:71-80 | a stored red, blue or green checks exactly its own button; any other value checks none |
| AdvancedSettings.Coerce | qsettings/advanced.py:109-121 | no converter passes the value through; `int` converts it or raises the error `int()` raises |
| AdvancedSettings.SettingGet | qsettings/advanced.py:109-115 | `__get__` converts the stored value, or the default, with `get_as_type` |
| AdvancedSettings.SettingSet | qsettings/advanced.py:117-121 | `__set__` stores `set_as_type(v)` under the key; a failing conversion raises and stores nothing |
| AdvancedSettings.Descriptor | qsettings/advanced.py:130-131 | `color` and `toggle` are the model's descriptors, each under its own key |
| AdvancedSettings.WriteAttr | qsettings/advanced.py:61-69 | `setattr` writes through a descriptor; any other name leaves the store alone |
| AdvancedSettings.CommitOverlays | qsettings/advanced.py:53-59 | syncing overlays the same writes on whatever the store held, and ends the same way |
| AdvancedSettings.CommitIdempotent | qsettings/advanced.py:53-59 | the edits are never cleared, so a second sync leaves the settings exactly as the first |
| AdvancedSettings.CommitKeepsOtherKeys | qsettings/advanced.py:53-59 | keys with no pending edit keep their value, or stay absent |
| AdvancedSettings.WritesOnlyEditedKeys | qsettings/advanced.py:53-59 | a sync writes only keys that were edited |
| AdvancedSettings.CommitStoresEdits | qsettings/advanced.py:53-59 | after a sync that completes, every edit is stored, converted, under its key |
| AdvancedSettings.ToggleWriteTrueReadsOne | qsettings/advanced.py:131 | writing `True` to `toggle` then reading gives 1 |
| AdvancedSettings.Defaults | qsettings/advanced.py:130-131 | an unset `color` reads 'red' and an unset `toggle` reads 0 |
| AdvancedSettings.SettingsModel.GetAttr | qsettings/advanced.py:109-115 | reading an attribute goes through its descriptor; an unknown one is an `AttributeError` |
| AdvancedSettings.SettingsModel.SetAttr | qsettings/advanced.py:117-121 | writing an attribute changes the store as `WriteAttr` says, or not at all when it raises |
| AdvancedSettings.SettingsModelProxy.Editor | qsettings/advanced.py:35-51 | an editor exists exactly when reading the attribute succeeds; a name that is not a descriptor fails the assertion, and a getter's `ValueError` or `TypeError` is passed on, as `hasattr` does |
| AdvancedSettings.ToggleEditorReadsValue | qsettings/advanced.py:45 | asking for the `toggle` editor raises `ValueError` over stored non-numeric text and `TypeError` over a stored `None`, and succeeds over a stored integer |
| AdvancedSettings.SettingsModelProxy.EditorGet | qsettings/advanced.py:49 | the getter reads the settings, not the pending edits |
| AdvancedSettings.SettingsModelProxy.EditorSet | qsettings/advanced.py:50 | the setter records the edit in the pending dict and leaves the settings untouched |
| AdvancedSettings.SettingsModelProxy.SetValue | qsettings/advanced.py:61-69 | `setValue` is `setattr` on the settings |
| AdvancedSettings.SettingsModelProxy.Sync | qsettings/advanced.py:53-59 | the pending edits are written in order, stopping at the first that raises; the store is flushed only when all are written |
| AdvancedSettings.EditThenSync | qsettings/advanced.py:35-59 | for an attribute whose stored value can be read, an edit is invisible through the editor until the sync, visible (converted) after it, and a second sync changes nothing |
| AdvancedSettings.CheckBox.Toggle | qsettings/advanced.py:182-183 | each change records the new checked state as a pending edit |
| AdvancedSettings.NewCheckBox | qsettings/advanced.py:166-180 | the box starts checked when the setting reads non-zero; a getter that raises aborts construction |
| AdvancedSettings.NewRadioButtonGroup | qsettings/advanced.py:192-226 | the group starts with `LastMatch` of the setting's value checked; a getter that raises aborts construction |
| AdvancedSettings.RadioButtonGroup.Click | qsettings/advanced.py:228-231 | a click records the clicked row's data as a pending edit |
| BasicSettings.ReadColor | qsettings/basic.py:27-29 | `color` reads the stored colour, 'red' when unset |
| BasicSettings.ReadToggle | qsettings/basic.py:35-37 | `toggle` reads `int` of the stored value, 0 when unset |
| BasicSettings.ReadsMatchDescriptors | qsettings/basic.py:27-41 | the hand-written properties read what the advanced descriptors read |
| BasicSettings.SettingsModel.SetColor | qsettings/basic.py:31-33 | the setter stores the colour as given |
| BasicSettings.SettingsModel.SetToggle | qsettings/basic.py:39-41 | the setter stores `int(value)`, so booleans are stored as 0/1; a value `int` rejects raises and stores nothing |
| BasicSettings.RadioButtonGroup.Value | qsettings/basic.py:82-87 | the value is the data of the checked row; with none checked, reading it raises |
| BasicSettings.RadioButtonGroup.Click | qsettings/basic.py:82-87 | after a click, the value is the clicked row's data |
| BasicSettings.SettingsDialog.Accept | qsettings/basic.py:132-138 | writes the colour, then the toggle as 0/1, then syncs; with no colour checked it raises before writing |
| BasicSettings.NewSettingsDialog | qsettings/basic.py:93-111 | the dialog reads the settings only here: it checks the stored colour's button and ticks the box for a non-zero toggle |
| BasicSettings.OpenThenSave | qsettings/basic.py:93-138 | opening and saving unchanged keeps an offered colour and stores the toggle as 0/1; any other colour raises on save and writes nothing |
| SortFilterProxy.ColorNamesAreKeys | qmodelproxy/sort_filter_proxy.py:13-25 | `COLOR_NAMES` lists exactly the keys of `COLORS` |
| SortFilterProxy.ReplaceChar | qmodelproxy/sort_filter_proxy.py:160 | `str.replace` for one character changes exactly the matching positions |
| SortFilterProxy.DisplayNameFacts | qmodelproxy/sort_filter_proxy.py:160 | the display text has no spaces, and replacing newlines back gives the name when it had none |
| SortFilterProxy.NewColorItem | qmodelproxy/sort_filter_proxy.py:159-168 | an item holds its name, colour and swatch, with the display text derived from the name; an unknown colour raises `KeyError` |
| SortFilterProxy.FilterRoleIsName | qmodelproxy/sort_filter_proxy.py:156-166 | the filter role holds the name with its spaces, which differs from the display text when the name has a space |
| SortFilterProxy.ProxyModel.constructor | qmodelproxy/sort_filter_proxy.py:57-63 | no colour filter, filtering on the name role, sorted on column 0 |
| SortFilterProxy.ProxyModel.SetSortRole | qmodelproxy/sort_filter_proxy.py:69-71 | sets the sort role only |
| SortFilterProxy.ProxyModel.SetFilterString | qmodelproxy/sort_filter_proxy.py:77-80 | sets the fixed string and re-runs the filter |
| SortFilterProxy.ProxyModel.SetFilterValue | qmodelproxy/sort_filter_proxy.py:86-89 | sets the colour and re-runs the filter |
| SortFilterProxy.ProxyModel.Refresh | qmodelproxy/sort_filter_proxy.py:91-96 | refreshes the source model and then re-runs the filter once; a source refresh that raises leaves the filter un-run |
| SortFilterProxy.ProxyModel.FilterAcceptsRow | qmodelproxy/sort_filter_proxy.py:98-117 | a row is accepted iff the colour filter is unset or equals its colour, and the base filter accepts its filter-role text |
| SortFilterProxy.ColorMismatchIgnoresBaseFilter | qmodelproxy/sort_filter_proxy.py:106-117 | a colour mismatch rejects the row whatever the base filter says |
| SortFilterProxy.FreshProxyFilter | qmodelproxy/sort_filter_proxy.py:57-63 | a new proxy filters by the string filter on the row's name alone |
| SortFilterProxy.DrawnItemShape | qmodelproxy/sort_filter_proxy.py:47-53 | a drawn item's name is three words joined by single spaces, its colour is a swatch name, its display text has no spaces |
| SortFilterProxy.SourceModel.Refresh | qmodelproxy/sort_filter_proxy.py:39-45 | clears the model, appends exactly 1000 drawn items and emits `Changed`; an empty word list raises on the first draw |
| SortFilterProxy.SimpleDataModel.AddItem | qmodelproxy/sort_filter_proxy.py:189-194 | appends one row with the name and the data |
| SortFilterProxy.OptionsOfKeys | qmodelproxy/sort_filter_proxy.py:199-205 | 'All Colors' with no data comes first; every other row shows a key and has it as data |
| SortFilterProxy.OptionsCoverKeys | qmodelproxy/sort_filter_proxy.py:199-205 | every key is listed |
| SortFilterProxy.OptionsAscending | qmodelproxy/sort_filter_proxy.py:203-204 | sorted names are listed in ascending order |
| SortFilterProxy.SortedOptionsFacts | qmodelproxy/sort_filter_proxy.py:199-205 | the colour list is 'All Colors', then every key, ascending, each with its own name as data |
| SortFilterProxy.NewOptions | qmodelproxy/sort_filter_proxy.py:199-205 | the loop appends 'All Colors', then one row per name in order |
| SortFilterProxy.NewColors | qmodelproxy/sort_filter_proxy.py:196-205 | `Colors()` holds the options for the sorted swatch names |
| SortFilterProxy.ColorOptionsFacts | qmodelproxy/sort_filter_proxy.py:199-205 | the colour combo lists one row more than `COLOR_NAMES` has, and every swatch |
| SortFilterProxy.NewSortModes | qmodelproxy/sort_filter_proxy.py:208-215 | By Name → name role, then By Color → colour role |
| SortFilterProxy.DataComboBox.ItemData | qmodelproxy/sort_filter_proxy.py:235 | `itemData` is the chosen row's data, `None` for an index that names no row |
| SortFilterProxy.DataComboBox.HandleIndexChanged | qmodelproxy/sort_filter_proxy.py:234-235 | the slot emits the chosen row's data |
| SortFilterProxy.OptionsComboEmits | qmodelproxy/sort_filter_proxy.py:196-235 | choosing a colour row emits `None` for 'All Colors' and a key of `COLORS` for every other row |
| SortFilterProxy.SortComboEmits | qmodelproxy/sort_filter_proxy.py:208-235 | choosing a sort row emits the name role, then the colour role |
| SortFilterProxy.MainWindow.ShowEvent | qmodelproxy/sort_filter_proxy.py:312-318 | only the first show schedules a refresh |
| SortFilterProxy.ShowRepeatedly | qmodelproxy/sort_filter_proxy.py:312-318 | however often the window is shown, only the first show schedules a refresh |
| StatusCommon.StatusTablesAgree | qmodelview/common.py:9-21 | both tables are keyed by rdy, omt, wip, fin |
| StatusCommon.KnownCodes | qmodelview/common.py:9-21 | the four codes are exactly the colour table's keys and the name table's keys |
| StatusCommon.StatusName | qmodelview/common.py:9-14 | `STATUS_NAMES.get(code)` finds a name exactly for the four codes |
| StatusCommon.FormatLine | qmodelview/common.py:26-27 | the printed line puts ':' after the parent and ends with ')' |
| StatusCommon.PrintedLineDetermines | qmodelview/common.py:26-27 | two records print the same line only when they are the same record, as long as parents have no ':' and status texts no '(' |
| StatusCommon.StatusWindow.ShowEvent | qmodelview/common.py:50-56 | the flag is set before the first refresh runs, so only the first show refreshes, even when that refresh raises |
| StatusCommon.ShowTwice | qmodelview/common.py:50-61 | a new window shown twice refreshes on the first show only |
| ItemModel.ItemAt | qmodelview/model_view.py:95-99 | `itemFromIndex` gives an item exactly when the index names an existing row and column under an existing parent, and then it is the item there |
| ItemModel.Parent | qmodelview/model_view.py:92 | `index.parent()` is the column-0 item above the row |
| ItemModel.ParentOfValid | qmodelview/model_view.py:89-93 | the parent of a valid index below the top level is valid |
| ItemModel.SiblingAtColumn | qmodelview/model_view.py:96-98 | `siblingAtColumn` keeps the row and the parent, and is the cell in that column whenever that cell holds an item |
| ItemModel.RootColumns | qmodelview/model_view.py:125-126 | the top-level column count is at least the number of header labels and the width of every row, and equals one of them |
| ItemModel.TopLevelItemIndex | qmodelview/model_view.py:113 | every top-level item is a valid top-level index, whatever labels were set |
| ItemModel.MakeIndex | qmodelview/model_view2.py:88-90 | `model.index(row, column, parent)` is valid exactly for an existing position, and its parent is `parent` |
| ModelView.ChildRow | qmodelview/model_view.py:147-164 | a child row is its name, then the status text with the code as data |
| ModelView.ChildRowsFacts | qmodelview/model_view.py:139-140 | every entry has its row, the i-th row is the row of the i-th entry in name order, and the rows are in ascending name order |
| ModelView.TopRow | qmodelview/model_view.py:131-145 | a top-level row exists exactly when every code under it is known; otherwise `KeyError` and nothing is appended |
| ModelView.CreateTopItem | qmodelview/model_view.py:131-145 | the loop builds exactly `TopRow`, or stops with `KeyError` at the first unknown code |
| ModelView.TreeComplete | qmodelview/model_view.py:120-129 | `refresh` gets through every entry iff every code in the data is known |
| ModelView.TreeRowsOrdered | qmodelview/model_view.py:126-129 | the top-level rows are in ascending name order, each built from its entry |
| ModelView.StatusModel.Refresh | qmodelview/model_view.py:120-129 | sets the headers and leaves the rows of the entries before the first unknown code; raises `KeyError` iff some are missing |
| ModelView.RowNumbers | qmodelview/model_view.py:66-74 | `rows` is 0, 1, … up to the row count |
| ModelView.GetItemAsWritten | qmodelview/model_view.py:76-99 | `IndexError` exactly for an invalid or top-level index; the record's `child` field holds the parent's name |
| ModelView.GetItemStatus | qmodelview/model_view.py:76-99 | `IndexError` exactly for an invalid or top-level index; the record's `parent` field holds the parent's name |
| ModelView.GetItemStatusOfChild | qmodelview/model_view.py:95-99 | a child row yields its parent's name, its own name and its status data, from either column |
| ModelView.TreeChild | qmodelview/model_view.py:131-164 | every child row of the tree is the row of an entry of its top-level entry |
| ModelView.TreeTopRow | qmodelview/model_view.py:131-164 | every top-level row of the tree carries the name of an entry of the data and the sorted child rows of that entry |
| ModelView.GetItemStatusOfTree | qmodelview/model_view.py:76-99 | on a refreshed tree, a child yields its top-level name and the name and code of an entry under it |
| ModelView.GetItemSwapped | qmodelview/model_view.py:95-99 | the lookup as written is the intended record with parent and child exchanged |
| ModelView.SwappedRecordExample | qmodelview/model_view.py:95-99 | for `{'A': {'x': 'rdy'}}` the lookup as written prints `x:A (rdy)`; the corrected one gives parent A, child x |
| ModelView.Flags | qmodelview/model_view.py:101-118 | `ItemIsSelectable` is cleared exactly on valid top-level indexes, counted against the model's column count; every other flag is the base model's |
| ModelView.TreeFlags | qmodelview/model_view.py:111-126 | on a refreshed tree, both the Name and the Status column of every top-level row lose `ItemIsSelectable`, and every cell of a child row keeps the base flags |
| ModelView.TopLevelUnselectable | qmodelview/model_view.py:113-116 | every top-level item loses `ItemIsSelectable` |
| ModelView.SelectedIndex | qmodelview/model_view.py:32-39 | the first selected index, or the invalid index |
| ModelView.PrintLookup | qmodelview/model_view.py:55-60 | a record is printed as its line, an `IndexError` prints nothing, and any other error propagates |
| ModelView.SelectionChanged | qmodelview/model_view.py:52-60 | prints the line of the record the lookup as written builds; nothing for no selection or a top-level row; other errors propagate |
| ModelView.SelectionChangedIntended | qmodelview/model_view.py:52-60 | the same with the corrected lookup |
| ModelView.SelectionSwapped | qmodelview/model_view.py:52-60 | for every selected child the as-written version prints `child:parent (status)` where the corrected one prints `parent:child (status)` |
| ModelView.SwappedSelectionExample | qmodelview/model_view.py:52-60 | selecting x in `{'A': {'x': 'rdy'}}` prints `x:A (rdy)`; the corrected version prints `A:x (rdy)` |
| ModelView2.LeafRow | qmodelview/model_view2.py:215-237 | a leaf row is its name, then the status text with the code as data; an unknown code raises `KeyError` |
| ModelView2.GroupRow | qmodelview/model_view2.py:200-213 | a group row holds one leaf row per leaf in data order, none when 'items' is absent; any unknown code raises `KeyError` |
| ModelView2.CreateItemB | qmodelview/model_view2.py:200-213 | the loop builds exactly `GroupRow`, stopping at the first unknown code |
| ModelView2.RootRow | qmodelview/model_view2.py:185-198 | a root row exists exactly when every group under it builds; it has the root's name and one child row per group; otherwise `KeyError` |
| ModelView2.RootRowFacts | qmodelview/model_view2.py:185-198 | a root row's children are the rows of its groups, in ascending name order |
| ModelView2.CreateItemA | qmodelview/model_view2.py:185-198 | the loop builds exactly `RootRow`, stopping at the first group that raises |
| ModelView2.TreeRowsFacts | qmodelview/model_view2.py:182-183 | `refresh` gets through every root iff every root builds; the roots are in ascending name order |
| ModelView2.StatusModel.RefreshAsWritten | qmodelview/model_view2.py:170-173 | `refresh` raises `TypeError` at the `query_db` call, before the model is cleared |
| ModelView2.QueryArgumentExample | qmodelview/model_view2.py:170-183 | the refresh as written raises and keeps the empty model, where the intended refresh of an empty record list completes |
| ModelView2.StatusModel.Refresh | qmodelview/model_view2.py:170-183 | sets the headers and leaves the rows of the roots before the first that raises; `KeyError` iff some are missing |
| ModelView2.RestoreRow | qmodelview/model_view2.py:111-116 | `max(0, row * (row < count))` is the row when 0 ≤ row < count and 0 otherwise, never negative |
| ModelView2.ComboBox.SetRootIndex | qmodelview/model_view2.py:95-118 | with restore, the previous row is kept when still in range, else the first row is selected; without restore, the first row is selected |
| ModelView2.RootLeafWidget.HandleRootChanged | qmodelview/model_view2.py:64-75 | the leaf combo box is rooted at the chosen root and keeps its row when it can |
| ModelView2.RootLeafWidget.HandleLeafChanged | qmodelview/model_view2.py:77-92 | the emitted index is the chosen row under the leaf combo's root, valid exactly when that row exists |
| ModelView2.ChosenGroup | qmodelview/model_view2.py:64-92 | choosing root i and then row j emits the index of root i's j-th group by name, whose row is that group's row |
| ItemWidget.ChildItem | qmodelview/item_widget.py:63-78 | a child shows its name, the status text and the code; an unknown code leaves a blank child and raises `KeyError` |
| ItemWidget.TopItem | qmodelview/item_widget.py:44-61 | a top-level item is named, unselectable, and when a code is unknown ends with the blank child |
| ItemWidget.TopItemPasses | qmodelview/item_widget.py:60-61 | a top-level item completes iff every code under it is known |
| ItemWidget.StatusWidget.CreateTopItem | qmodelview/item_widget.py:44-61 | the item is attached first and its children one by one, so the tree gains exactly `TopItem` even when it raises |
| ItemWidget.StatusWidget.Refresh | qmodelview/item_widget.py:32-42 | the tree holds one item per entry in name order, up to and including the first that raises |
| ItemWidget.ItemStatusOf | qmodelview/item_widget.py:91-105 | a child yields (parent's name, its name, its code); a top-level item has no parent and raises `AttributeError` |
| ItemWidget.SelectionChanged | qmodelview/item_widget.py:80-89 | nothing selected prints nothing; one item prints its line; more than one is a `ValueError` from unpacking |
| ItemWidget.TopItemMatchesRow | qmodelview/item_widget.py:44-78 | a completed top-level item shows what the model/view row of the same entry shows |
| ItemWidget.WidgetMatchesModel | qmodelview/item_widget.py:32-78 | both trees get through the same entries and show the same names, texts and codes; on failure the widget keeps one extra, partly filled item |
| ItemWidget.TopsUnselectable | qmodelview/item_widget.py:53-54 | every top-level item is unselectable, with the flags the model/view version reports for its top-level rows |
| ItemWidget.StatusAgrees | qmodelview/item_widget.py:91-105 | the widget's `_item_status` gives the same record as the corrected model/view lookup |

## Left out

- Widget construction, layouts, signal/slot wiring and the Qt event loop are not modelled. Signals appear only as what a slot receives or emits.
- `QSortFilterProxyModel` fixed-string matching, sorting and index mapping are library code. The base filter is a predicate parameter of `FilterAcceptsRow`.
- `QSettings` persistence (INI files, disk sync, type round trips through the file) is not modelled. The store is a map, and `sync` is a ghost counter.
- JSON loading in `query_db` and in `SourceModel.__init__` is file I/O. The data and the word list are parameters.
- `random.choices` and `random.choice` are not modelled. Their results are a parameter (`Draw`), constrained only to valid indexes.
- `QColor` and `QBrush` are an enumeration of Qt's global colours.
- The `QTimer.singleShot` delay is not modelled; only the first-show flag is.
- `SettingsModel.editor` in advanced.py (lines 141-157) reads a `self._settings` that the class does not have, and nothing calls it, so it is not modelled.
- `SettingsModelProxy.value` in advanced.py (lines 71-82) discards what it reads and returns `None`. Nothing in the model relies on it.
- The basic dialog passes `default=` to `QSettings.value`. It is taken as the default value.
- qdialog/dialog.py and qmainwindow/window.py are widget wiring only, and qmodelview/__main__.py is argument dispatch. None of them is modelled.
- `int()` on text accepts only an optional sign and digits. Surrounding whitespace and digit-group underscores are not modelled.
- A record missing its 'name' or 'status' key, which raises `KeyError`, is not modelled. The data types always carry both fields.
- `setFirstColumnSpanned`, `expandAll`, the child-indicator policy and the brushes are display settings and are not modelled.
- `ItemModel`: only first-column items carry child rows, which is the only way the examples build trees.
- `ModelView2.ComboBox.SetCurrentIndex`: a row outside the list leaves nothing selected (-1). This is Qt's documented behaviour; the library source is not part of this model.
- `AdvancedSettings.NewCheckBox`: `setChecked` on a non-integer value is modelled as `TypeError`. What PySide2 accepts there is library behaviour.
- SettingsCommon.Capitalize: ASCII case mapping only. Python's `str.capitalize` is Unicode-aware and can change the length (`'ßa'` becomes `'Ssa'`). The dialog only capitalises 'red', 'blue' and 'green'.
- AdvancedSettings.SettingsModelProxy.Editor: only `color` and `toggle` count as attributes of the settings. `hasattr` also holds for the inherited `QSettings` methods (`sync`, `value`, …), where the source hands out an editor whose getter returns a bound method; the model gives `AssertionError`.
- `ItemModel`: an index is valid only where an item exists. Qt also accepts an empty cell within its parent's column count, and `itemFromIndex` then creates an item there. The only such cells in the examples are the top-level Status cells, which `ModelView.Flags` handles through the column count and which every lookup rejects at its parent check.
- `StatusCommon.Known` is defined by the four codes. `StatusCommon.KnownCodes` proves that these are exactly the keys of both tables.

## Findings

| source | as written | input that shows it | evidently intended | confidence | as-written member | corrected member |
|---|---|---|---|---|---|---|
| qmodelview/model_view.py:95-99 | `ItemStatus(own text, parent text, status)` fills the `parent` field with the child's name and the `child` field with the parent's name | data `{'A': {'x': 'rdy'}}`, selecting child x prints `x:A (rdy)` | `A:x (rdy)`, parent first, as `_item_status` in item_widget.py:101-105 builds it | not executed | ModelView.GetItemAsWritten, ModelView.SwappedRecordExample, ModelView.SelectionChanged, ModelView.SwappedSelectionExample | ModelView.GetItemStatus, ModelView.SelectionChangedIntended |
| qmodelview/model_view2.py:173 | `common.query_db('data2.json')` passes an argument to `query_db()`, which takes none (common.py:30) | any call of `refresh()` raises `TypeError` before the model is cleared, so the tree is never built | the records of data2.json are loaded and the tree is built from them | not executed | ModelView2.StatusModel.RefreshAsWritten, ModelView2.QueryArgumentExample | ModelView2.StatusModel.Refresh |
