/** The advanced settings dialog: `Setting` descriptors give the settings
    model its `color` and `toggle` attributes, and a proxy collects the edits
    a dialog makes and writes them to the settings only when it is synced. */
module AdvancedSettings {
  import opened PyCore
  import opened PyValues
  import PyDict
  import opened SettingsCommon

  /** The optional `get_as_type`/`set_as_type` callable of a descriptor:
      absent, or `int`. */
  datatype Coercion = NoCoercion | IntCoercion

  function Coerce(c: Coercion, v: Value): (r: Result<Value>)
    ensures c.NoCoercion? ==> r == Ok(v)
    ensures c.IntCoercion? && PyInt(v).Ok? ==> r == Ok(IntV(PyInt(v).value))
    ensures c.IntCoercion? && PyInt(v).Err? ==> r == Err(PyInt(v).error)
  {
    match c
    case NoCoercion => Ok(v)
    case IntCoercion => if PyInt(v).Ok? then Ok(IntV(PyInt(v).value)) else Err(PyInt(v).error)
  }

  /** A `Setting(key, default, get_as_type, set_as_type)` descriptor. */
  datatype Setting = Setting(key: string, default: Value, getAsType: Coercion, setAsType: Coercion)

  /** `Setting.__get__`: the stored value, or the default when the key is
      absent, passed through `get_as_type`. */
  function SettingGet(s: Setting, values: map<string, Value>): (r: Result<Value>)
    ensures r == Coerce(s.getAsType, Lookup(values, s.key, s.default))
  {
    Coerce(s.getAsType, Lookup(values, s.key, s.default))
  }

  /** `Setting.__set__`: the store after writing `set_as_type(v)` under the key;
      a failing conversion raises before anything is written. */
  function SettingSet(s: Setting, values: map<string, Value>, v: Value): (r: Result<map<string, Value>>)
    ensures Coerce(s.setAsType, v).Ok? <==> r.Ok?
    ensures r.Ok? ==> r.value == values[s.key := Coerce(s.setAsType, v).value]
    ensures r.Err? ==> r.error == Coerce(s.setAsType, v).error
  {
    match Coerce(s.setAsType, v)
    case Ok(w) => Ok(values[s.key := w])
    case Err(e) => Err(e)
  }

  /** `color = Setting('color', default='red')` */
  const ColorSetting := Setting("color", StrV("red"), NoCoercion, NoCoercion)
  /** `toggle = Setting('toggle', default=False, get_as_type=int, set_as_type=int)` */
  const ToggleSetting := Setting("toggle", BoolV(false), IntCoercion, IntCoercion)

  /** The descriptor `SettingsModel` declares under an attribute name. */
  function Descriptor(attr: string): (d: Option<Setting>)
    ensures d.Some? ==> d.value.key == attr
  {
    if attr == "color" then Some(ColorSetting)
    else if attr == "toggle" then Some(ToggleSetting)
    else None
  }

  /** `hasattr(settings, attr)` for the attributes the model declares. */
  predicate HasAttr(attr: string) { Descriptor(attr).Some? }

  /** `setattr(settings, attr, v)` seen from the store: a descriptor writes
      through `Setting.__set__`; any other name becomes a plain instance
      attribute and leaves the store alone. */
  function WriteAttr(values: map<string, Value>, attr: string, v: Value): (r: Result<map<string, Value>>)
    ensures !HasAttr(attr) ==> r == Ok(values)
    ensures HasAttr(attr) ==> r == SettingSet(Descriptor(attr).value, values, v)
  {
    match Descriptor(attr)
    case None => Ok(values)
    case Some(s) => SettingSet(s, values, v)
  }

  /** The store and outcome after writing the edits one by one, in the order
      they were first made, stopping at the first write that raises. */
  function Commit(values: map<string, Value>, edits: PyDict.Dict<Value>): (map<string, Value>, Outcome)
    decreases |edits|
  {
    if edits == [] then (values, Pass)
    else match WriteAttr(values, edits[0].0, edits[0].1)
      case Err(e) => (values, Fail(e))
      case Ok(next) => Commit(next, edits[1..])
  }

  /** The writes a commit makes and how it ends; neither depends on the store. */
  function Writes(edits: PyDict.Dict<Value>): (map<string, Value>, Outcome)
  {
    if edits == [] then (map[], Pass)
    else
      var (attr, v) := edits[0];
      if !HasAttr(attr) then Writes(edits[1..])
      else match Coerce(Descriptor(attr).value.setAsType, v)
        case Err(e) => (map[], Fail(e))
        case Ok(w) => (map[attr := w] + Writes(edits[1..]).0, Writes(edits[1..]).1)
  }

  /** A commit overlays the same writes on whatever the store held. */
  lemma {:induction false} CommitOverlays(values: map<string, Value>, edits: PyDict.Dict<Value>)
    ensures Commit(values, edits) == (values + Writes(edits).0, Writes(edits).1)
    decreases |edits|
  {
    if edits == [] {
      assert values + map[] == values;
    } else {
      var (attr, v) := edits[0];
      if HasAttr(attr) {
        var w := Coerce(Descriptor(attr).value.setAsType, v);
        if w.Ok? {
          assert WriteAttr(values, attr, v) == Ok(values[attr := w.value]);
          CommitOverlays(values[attr := w.value], edits[1..]);
          assert values[attr := w.value] + Writes(edits[1..]).0
              == values + (map[attr := w.value] + Writes(edits[1..]).0);
        } else {
          assert values + map[] == values;
        }
      } else {
        CommitOverlays(values, edits[1..]);
      }
    }
  }

  /** Syncing twice leaves the settings exactly as syncing once: the edits are
      not cleared, so the second sync repeats the same writes and stops at the
      same place. */
  lemma CommitIdempotent(values: map<string, Value>, edits: PyDict.Dict<Value>)
    ensures Commit(Commit(values, edits).0, edits) == Commit(values, edits)
  {
    CommitOverlays(values, edits);
    CommitOverlays(Commit(values, edits).0, edits);
    var w := Writes(edits).0;
    assert (values + w) + w == values + w;
  }

  /** A key no edit names keeps its stored value, or stays absent. */
  lemma CommitKeepsOtherKeys(values: map<string, Value>, edits: PyDict.Dict<Value>, key: string)
    requires key !in PyDict.Keys(edits)
    ensures key in Commit(values, edits).0 <==> key in values
    ensures key in values ==> Commit(values, edits).0[key] == values[key]
  {
    CommitOverlays(values, edits);
    WritesOnlyEditedKeys(edits);
  }

  lemma {:induction false} WritesOnlyEditedKeys(edits: PyDict.Dict<Value>)
    ensures Writes(edits).0.Keys <= PyDict.Keys(edits)
  {
    if edits != [] { WritesOnlyEditedKeys(edits[1..]); }
  }

  /** A commit that completes holds every edit, converted, under its key. */
  lemma {:induction false} CommitStoresEdits(values: map<string, Value>, edits: PyDict.Dict<Value>, i: int)
    requires PyDict.DistinctKeys(edits)
    requires Commit(values, edits).1 == Pass
    requires 0 <= i < |edits| && HasAttr(edits[i].0)
    ensures Coerce(Descriptor(edits[i].0).value.setAsType, edits[i].1).Ok?
    ensures edits[i].0 in Commit(values, edits).0
    ensures Commit(values, edits).0[edits[i].0]
         == Coerce(Descriptor(edits[i].0).value.setAsType, edits[i].1).value
    decreases |edits|
  {
    var (attr, v) := edits[0];
    var rest := edits[1..];
    assert PyDict.DistinctKeys(rest);
    if HasAttr(attr) {
      var w := Coerce(Descriptor(attr).value.setAsType, v);
      if i == 0 {
        assert w.Ok?;
        CommitOverlays(values[attr := w.value], rest);
        WritesOnlyEditedKeys(rest);
        assert attr !in PyDict.Keys(rest);
      } else {
        assert rest[i - 1] == edits[i];
        CommitStoresEdits(values[attr := w.value], rest, i - 1);
      }
    } else {
      assert i != 0;
      assert rest[i - 1] == edits[i];
      CommitStoresEdits(values, rest, i - 1);
    }
  }

  /** `toggle` stores `int(value)`, so writing `True` and reading back gives 1. */
  lemma ToggleWriteTrueReadsOne(values: map<string, Value>)
    ensures SettingSet(ToggleSetting, values, BoolV(true)).Ok?
    ensures SettingGet(ToggleSetting, SettingSet(ToggleSetting, values, BoolV(true)).value) == Ok(IntV(1))
  {
  }

  /** An unset `color` reads as 'red'; an unset `toggle` reads as int(False), 0. */
  lemma Defaults(values: map<string, Value>)
    requires "color" !in values && "toggle" !in values
    ensures SettingGet(ColorSetting, values) == Ok(StrV("red"))
    ensures SettingGet(ToggleSetting, values) == Ok(IntV(0))
  {
  }

  /** The QSettings subclass: a key/value store with the two descriptors. */
  class SettingsModel {
    var values: map<string, Value>
    /** How many times the store has been flushed. */
    ghost var syncs: nat

    constructor (stored: map<string, Value>)
      ensures values == stored && syncs == 0
    {
      values := stored;
      syncs := 0;
    }

    /** `getattr(settings, attr)` */
    function GetAttr(attr: string): (r: Result<Value>)
      reads this
      ensures !HasAttr(attr) ==> r == Err(AttributeError)
      ensures HasAttr(attr) ==> r == SettingGet(Descriptor(attr).value, values)
    {
      match Descriptor(attr)
      case None => Err(AttributeError)
      case Some(s) => SettingGet(s, values)
    }

    /** `setattr(settings, attr, v)` */
    method SetAttr(attr: string, v: Value) returns (r: Outcome)
      modifies this
      ensures WriteAttr(old(values), attr, v).Ok? ==> r == Pass && values == WriteAttr(old(values), attr, v).value
      ensures WriteAttr(old(values), attr, v).Err? ==> r == Fail(WriteAttr(old(values), attr, v).error) && values == old(values)
      ensures syncs == old(syncs)
    {
      match WriteAttr(values, attr, v)
      case Ok(next) => values := next; r := Pass;
      case Err(e) => r := Fail(e);
    }

    /** `QSettings.sync()`: flushes to disk; the values stay as they are. */
    method Sync()
      modifies this
      ensures values == old(values) && syncs == old(syncs) + 1
    {
      syncs := syncs + 1;
    }
  }

  /** A `SettingsEditor(get, set)` pair, bound to one attribute. */
  datatype SettingsEditor = SettingsEditor(attr: string)

  /** Deferred-commit editing: editors read the settings but write into the
      pending edits, which `Sync` writes into the settings. */
  class SettingsModelProxy {
    const settings: SettingsModel
    /** The pending edits, in the order their keys were first written. */
    var edits: PyDict.Dict<Value>

    ghost predicate Valid()
      reads this
    {
      PyDict.DistinctKeys(edits)
    }

    constructor (settings: SettingsModel)
      ensures Valid() && this.settings == settings && edits == []
    {
      this.settings := settings;
      edits := [];
    }

    /** `editor(attr)`: `hasattr` reads the attribute, so the assertion fails
        when the settings lack `attr`, and a getter that raises anything but
        `AttributeError` passes its error on, as `hasattr` does. */
    method Editor(attr: string) returns (r: Result<SettingsEditor>)
      ensures r.Ok? <==> settings.GetAttr(attr).Ok?
      ensures r.Ok? ==> HasAttr(attr) && r.value.attr == attr
      ensures !HasAttr(attr) ==> r == Err(AssertionError)
      ensures HasAttr(attr) && settings.GetAttr(attr).Err? ==> r == Err(settings.GetAttr(attr).error)
    {
      match settings.GetAttr(attr)
      case Ok(_) => r := Ok(SettingsEditor(attr));
      case Err(e) => r := if e == AttributeError then Err(AssertionError) else Err(e);
    }

    /** The editor's getter: reads the settings, not the pending edits. */
    method EditorGet(e: SettingsEditor) returns (r: Result<Value>)
      ensures r == settings.GetAttr(e.attr)
    {
      r := settings.GetAttr(e.attr);
    }

    /** The editor's setter: `edits[attr] = value`; the settings are untouched. */
    method EditorSet(e: SettingsEditor, v: Value)
      requires Valid()
      modifies this
      ensures Valid()
      ensures edits == PyDict.Set(old(edits), e.attr, v)
      ensures PyDict.Get(edits, e.attr) == Some(v)
      ensures unchanged(settings)
    {
      PyDict.SetKeepsDistinct(edits, e.attr, v);
      PyDict.GetAfterSet(edits, e.attr, v, e.attr);
      edits := PyDict.Set(edits, e.attr, v);
    }

    /** `setValue(key, value)`: `setattr` on the settings. */
    method SetValue(key: string, v: Value) returns (r: Outcome)
      modifies settings
      ensures WriteAttr(old(settings.values), key, v).Ok? ==>
        r == Pass && settings.values == WriteAttr(old(settings.values), key, v).value
      ensures WriteAttr(old(settings.values), key, v).Err? ==>
        r == Fail(WriteAttr(old(settings.values), key, v).error) && settings.values == old(settings.values)
      ensures settings.syncs == old(settings.syncs)
    {
      r := settings.SetAttr(key, v);
    }

    /** `sync()`: writes every pending edit into the settings, in order, then
      flushes them. The edits are kept. An edit whose conversion raises stops
      the loop, and the settings are then not flushed. */
    method Sync() returns (r: Outcome)
      modifies settings
      ensures (settings.values, r) == Commit(old(settings.values), edits)
      ensures settings.syncs == old(settings.syncs) + (if r.Pass? then 1 else 0)
    {
      var i := 0;
      while i < |edits|
        invariant 0 <= i <= |edits|
        invariant Commit(old(settings.values), edits) == Commit(settings.values, edits[i..])
        invariant settings.syncs == old(settings.syncs)
      {
        assert edits[i..][1..] == edits[i + 1..];
        var (key, value) := edits[i];
        var o := SetValue(key, value);
        if o.Fail? {
          return o;
        }
        i := i + 1;
      }
      settings.Sync();
      r := Pass;
    }
  }

  /** One edit made through a fresh proxy: before the sync the editor still
      reads what the settings held, and after the sync it reads the converted
      value; syncing again changes nothing. */
  method EditThenSync(stored: map<string, Value>, attr: string, v: Value)
    returns (before: Result<Value>, pending: Result<Value>, committed: Outcome,
             after: Result<Value>, again: Result<Value>)
    requires HasAttr(attr) && SettingGet(Descriptor(attr).value, stored).Ok?
    ensures before == SettingGet(Descriptor(attr).value, stored)
    ensures pending == before
    ensures committed.Pass? <==> Coerce(Descriptor(attr).value.setAsType, v).Ok?
    ensures committed.Pass? ==> after == SettingGet(Descriptor(attr).value,
      stored[attr := Coerce(Descriptor(attr).value.setAsType, v).value])
    ensures committed.Fail? ==> after == before
    ensures again == after
  {
    var model := new SettingsModel(stored);
    var proxy := new SettingsModelProxy(model);
    var editor := proxy.Editor(attr);
    before := proxy.EditorGet(editor.value);
    proxy.EditorSet(editor.value, v);
    pending := proxy.EditorGet(editor.value);
    assert proxy.edits == [(attr, v)];
    committed := proxy.Sync();
    after := proxy.EditorGet(editor.value);
    var _ := proxy.Sync();
    again := proxy.EditorGet(editor.value);
  }

  /** Asking for the `toggle` editor reads the stored value through `int`:
      stored text that is no integer raises `ValueError`, a stored `None`
      raises `TypeError`, and a stored integer gives the editor. */
  method ToggleEditorReadsValue(n: int) returns (text: Result<SettingsEditor>, none: Result<SettingsEditor>,
                                                 number: Result<SettingsEditor>)
    ensures text == Err(ValueError) && none == Err(TypeError)
    ensures number == Ok(SettingsEditor("toggle"))
  {
    var s1 := new SettingsModel(map["toggle" := StrV("on")]);
    var p1 := new SettingsModelProxy(s1);
    assert ParseInt("on") == None;
    text := p1.Editor("toggle");
    var s2 := new SettingsModel(map["toggle" := NoneV]);
    var p2 := new SettingsModelProxy(s2);
    none := p2.Editor("toggle");
    var s3 := new SettingsModel(map["toggle" := IntV(n)]);
    var p3 := new SettingsModelProxy(s3);
    number := p3.Editor("toggle");
  }

  /** The dialog's check box: starts checked when the setting reads non-zero
      and records `isChecked()` through its editor whenever it changes. */
  class CheckBox {
    const proxy: SettingsModelProxy
    const editor: SettingsEditor
    var checked: bool

    constructor (proxy: SettingsModelProxy, editor: SettingsEditor, initial: int)
      ensures this.proxy == proxy && this.editor == editor && checked == (initial != 0)
    {
      this.proxy := proxy;
      this.editor := editor;
      checked := initial != 0;
    }

    /** The user toggles the box; `_handle_change` writes the new state. */
    method Toggle()
      requires proxy.Valid()
      modifies this, proxy
      ensures checked == !old(checked)
      ensures proxy.Valid() && proxy.edits == PyDict.Set(old(proxy.edits), editor.attr, BoolV(checked))
      ensures unchanged(proxy.settings)
    {
      checked := !checked;
      proxy.EditorSet(editor, BoolV(checked));
    }
  }

  /** `CheckBox(label, editor)`: `setChecked(editor.get())`; a getter that raises
      aborts the construction. */
  method NewCheckBox(proxy: SettingsModelProxy, editor: SettingsEditor) returns (r: Result<CheckBox>)
    ensures proxy.settings.GetAttr(editor.attr).Err? ==> r == Err(proxy.settings.GetAttr(editor.attr).error)
    ensures proxy.settings.GetAttr(editor.attr).Ok? && !proxy.settings.GetAttr(editor.attr).value.IntV? ==> r == Err(TypeError)
    ensures proxy.settings.GetAttr(editor.attr).Ok? && proxy.settings.GetAttr(editor.attr).value.IntV? ==>
      r.Ok? && r.value.checked == (proxy.settings.GetAttr(editor.attr).value.i != 0)
      && r.value.proxy == proxy && r.value.editor == editor
  {
    var v := proxy.EditorGet(editor);
    if v.Err? {
      return Err(v.error);
    }
    if !v.value.IntV? {
      return Err(TypeError);
    }
    var box := new CheckBox(proxy, editor, v.value.i);
    r := Ok(box);
  }

  /** `RadioButtonGroup(label, editor, model)`: the getter's value decides
      which button starts checked; a getter that raises aborts the construction. */
  method NewRadioButtonGroup(proxy: SettingsModelProxy, editor: SettingsEditor, items: seq<Choice>)
    returns (r: Result<RadioButtonGroup>)
    ensures r.Ok? <==> proxy.settings.GetAttr(editor.attr).Ok?
    ensures r.Err? ==> r.error == proxy.settings.GetAttr(editor.attr).error
    ensures r.Ok? ==> (r.value.items == items && r.value.proxy == proxy && r.value.editor == editor
      && r.value.checkedId == LastMatch(items, proxy.settings.GetAttr(editor.attr).value))
  {
    var v := proxy.EditorGet(editor);
    if v.Err? {
      return Err(v.error);
    }
    var group := new RadioButtonGroup(proxy, editor, items, v.value);
    r := Ok(group);
  }

  /** The dialog's radio buttons: one per row, checked by the rule of
      `LastMatch`; a click records the clicked row's data through the editor. */
  class RadioButtonGroup {
    const proxy: SettingsModelProxy
    const editor: SettingsEditor
    const items: seq<Choice>
    var checkedId: int

    constructor (proxy: SettingsModelProxy, editor: SettingsEditor, items: seq<Choice>, value: Value)
      ensures this.proxy == proxy && this.editor == editor && this.items == items
      ensures checkedId == LastMatch(items, value)
    {
      this.proxy := proxy;
      this.editor := editor;
      this.items := items;
      var checked := CheckButtons(items, value);
      checkedId := checked;
    }

    /** `_handle_change(button)`: the clicked button's row data becomes the edit. */
    method Click(id: int)
      requires 0 <= id < |items| && proxy.Valid()
      modifies this, proxy
      ensures checkedId == id
      ensures proxy.Valid() && proxy.edits == PyDict.Set(old(proxy.edits), editor.attr, items[id].data)
      ensures unchanged(proxy.settings)
    {
      checkedId := id;
      proxy.EditorSet(editor, items[id].data);
    }
  }
}
