/** The basic settings dialog: the settings model spells out its `color`
    and `toggle` properties by hand, and the dialog writes both straight into
    the settings when it is accepted. */
module BasicSettings {
  import opened PyCore
  import opened PyValues
  import opened SettingsCommon
  import AdvancedSettings

  /** The `color` property: the stored 'color', 'red' when unset. */
  function ReadColor(values: map<string, Value>): (v: Value)
    ensures "color" !in values ==> v == StrV("red")
    ensures "color" in values ==> v == values["color"]
  {
    Lookup(values, "color", StrV("red"))
  }

  /** The `toggle` property: `int` of the stored 'toggle', 0 when unset. */
  function ReadToggle(values: map<string, Value>): (r: Result<int>)
    ensures "toggle" !in values ==> r == Ok(0)
    ensures "toggle" in values ==> r == PyInt(values["toggle"])
  {
    PyInt(Lookup(values, "toggle", IntV(0)))
  }

  /** The hand-written properties read exactly what the advanced example's
      descriptors read, although `toggle` defaults to 0 here and to False there. */
  lemma ReadsMatchDescriptors(values: map<string, Value>)
    ensures AdvancedSettings.SettingGet(AdvancedSettings.ColorSetting, values) == Ok(ReadColor(values))
    ensures ReadToggle(values).Ok? ==>
      AdvancedSettings.SettingGet(AdvancedSettings.ToggleSetting, values) == Ok(IntV(ReadToggle(values).value))
    ensures ReadToggle(values).Err? ==>
      AdvancedSettings.SettingGet(AdvancedSettings.ToggleSetting, values) == Err(ReadToggle(values).error)
  {
  }

  /** The QSettings subclass with hand-written properties. */
  class SettingsModel {
    var values: map<string, Value>
    /** How many times the store has been flushed. */
    ghost var syncs: nat

    constructor (stored: map<string, Value>)
      ensures values == stored && syncs == 0
    {
      values := stored;
      syncs := 0;
    }

    function Color(): Value
      reads this
    {
      ReadColor(values)
    }

    function Toggle(): Result<int>
      reads this
    {
      ReadToggle(values)
    }

    /** The `color` setter: stores the value as given. */
    method SetColor(v: Value)
      modifies this
      ensures values == old(values)["color" := v] && syncs == old(syncs)
      ensures Color() == v
    {
      values := values["color" := v];
    }

    /** The `toggle` setter: stores `int(value)`; a value `int` rejects raises
        and nothing is stored. */
    method SetToggle(v: Value) returns (r: Outcome)
      modifies this
      ensures PyInt(v).Ok? ==> r == Pass && values == old(values)["toggle" := IntV(PyInt(v).value)]
      ensures PyInt(v).Err? ==> r == Fail(PyInt(v).error) && values == old(values)
      ensures syncs == old(syncs)
      ensures r.Pass? ==> Toggle() == PyInt(v)
    {
      var n := PyInt(v);
      if n.Err? {
        return Fail(n.error);
      }
      values := values["toggle" := IntV(n.value)];
      r := Pass;
    }

    /** `QSettings.sync()`: flushes to disk; the values stay as they are. */
    method Sync()
      modifies this
      ensures values == old(values) && syncs == old(syncs) + 1
    {
      syncs := syncs + 1;
    }
  }

  /** The radio buttons of the basic dialog, one per row; which one is checked
      is Qt's state, changed by the user's clicks. */
  class RadioButtonGroup {
    const items: seq<Choice>
    var checkedId: int

    constructor (value: Value, items: seq<Choice>)
      ensures this.items == items && checkedId == LastMatch(items, value)
    {
      this.items := items;
      var checked := CheckButtons(items, value);
      checkedId := checked;
    }

    /** The `value` property: the data of the row whose id is `checkedId()`;
        with no button checked the row lookup gives None and `.data()` raises. */
    function Value(): (r: Result<Value>)
      reads this
      ensures r.Ok? <==> 0 <= checkedId < |items|
      ensures r.Ok? ==> r.value == items[checkedId].data
      ensures r.Err? ==> r.error == AttributeError
    {
      if 0 <= checkedId < |items| then Ok(items[checkedId].data) else Err(AttributeError)
    }

    /** The user clicks the button of row `id`. */
    method Click(id: int)
      requires 0 <= id < |items|
      modifies this
      ensures checkedId == id && Value() == Ok(items[id].data)
    {
      checkedId := id;
    }
  }

  /** The dialog: a colour group and a check box, filled from the settings
      when it opens. */
  class SettingsDialog {
    const settings: SettingsModel
    const selectColor: RadioButtonGroup
    var checked: bool

    constructor (settings: SettingsModel, selectColor: RadioButtonGroup, checked: bool)
      ensures this.settings == settings && this.selectColor == selectColor && this.checked == checked
    {
      this.settings := settings;
      this.selectColor := selectColor;
      this.checked := checked;
    }

    /** `accept`: writes the chosen colour, then the check box as `int`, then
        syncs. With no colour button checked the first read raises and nothing
        is written. */
    method Accept() returns (r: Outcome)
      requires settings != selectColor as object
      modifies settings
      ensures selectColor.Value().Err? ==>
        r == Fail(AttributeError) && settings.values == old(settings.values) && settings.syncs == old(settings.syncs)
      ensures selectColor.Value().Ok? ==> (r == Pass
        && settings.values == old(settings.values)["color" := selectColor.Value().value]["toggle" := IntV(BoolToInt(checked))]
        && settings.syncs == old(settings.syncs) + 1)
    {
      var color := selectColor.Value();
      if color.Err? {
        return Fail(color.error);
      }
      settings.SetColor(color.value);
      var _ := settings.SetToggle(BoolV(checked));
      settings.Sync();
      r := Pass;
    }

    /** The user ticks or clears the check box. */
    method SetChecked(b: bool)
      modifies this
      ensures checked == b
    {
      checked := b;
    }
  }

  /** `SettingsDialog(settings)`: the only place the dialog reads the settings.
      Reading `toggle` raises when the stored value is not an integer literal. */
  method NewSettingsDialog(settings: SettingsModel) returns (r: Result<SettingsDialog>)
    ensures r.Ok? <==> settings.Toggle().Ok?
    ensures r.Err? ==> r.error == settings.Toggle().error
    ensures r.Ok? ==> (r.value.settings == settings
      && r.value.selectColor.items == ColorChoices()
      && r.value.selectColor.checkedId == LastMatch(ColorChoices(), settings.Color())
      && r.value.checked == (settings.Toggle().value != 0))
  {
    var colors := Colors();
    var group := new RadioButtonGroup(settings.Color(), colors);
    var toggle := settings.Toggle();
    if toggle.Err? {
      return Err(toggle.error);
    }
    var dialog := new SettingsDialog(settings, group, toggle.value != 0);
    r := Ok(dialog);
  }

  /** Opening the dialog and saving it unchanged keeps the colour, when it is
      one the dialog offers, and stores the toggle as 0 or 1; any other stored
      colour leaves no button checked, and saving then raises without writing. */
  method OpenThenSave(stored: map<string, Value>) returns (shown: bool, saved: Outcome, after: map<string, Value>)
    ensures shown <==> ReadToggle(stored).Ok?
    ensures shown && ReadColor(stored) in {StrV("red"), StrV("blue"), StrV("green")} ==>
      saved == Pass && ReadColor(after) == ReadColor(stored)
      && ReadToggle(after) == Ok(if ReadToggle(stored).value != 0 then 1 else 0)
    ensures shown && ReadColor(stored) !in {StrV("red"), StrV("blue"), StrV("green")} ==>
      saved == Fail(AttributeError) && after == stored
  {
    var settings := new SettingsModel(stored);
    var dialog := NewSettingsDialog(settings);
    shown := dialog.Ok?;
    if !shown {
      return shown, Pass, stored;
    }
    ColorButtonChecked(ReadColor(stored));
    ColorChoicesAre();
    saved := dialog.value.Accept();
    after := settings.values;
  }
}
