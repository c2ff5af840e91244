/** What the basic and the advanced settings dialogs share: reading a key of
    the settings store with a default, the colour choices both dialogs offer,
    and the rule that decides which radio button starts checked. */
module SettingsCommon {
  import opened PyValues

  /** `QSettings.value(key, default)`: the stored value, or `default` when the
      key has never been written. */
  function Lookup(values: map<string, Value>, key: string, default: Value): (v: Value)
    ensures key in values ==> v == values[key]
    ensures key !in values ==> v == default
  {
    if key in values then values[key] else default
  }

  /** One row of a choice model: `.text()` is displayed, `.data()` is the value. */
  datatype Choice = Choice(text: string, data: Value)

  /** The row of the button that is checked once a radio group has added one
      button per row, in row order, checking each button whose row data equals
      `value`. A `QButtonGroup` is exclusive, so checking a button unchecks the
      one checked before it and the last matching row wins; -1 when no row
      matches, which is also what `checkedId()` reports then. */
  function LastMatch(items: seq<Choice>, value: Value): (r: int)
    ensures -1 <= r < |items|
    ensures r >= 0 ==> PyEq(items[r].data, value)
    ensures forall i :: r < i < |items| ==> !PyEq(items[i].data, value)
  {
    if items == [] then -1
    else if PyEq(items[|items| - 1].data, value) then |items| - 1
    else LastMatch(items[..|items| - 1], value)
  }

  /** The constructor's loop over the rows: `button.setChecked(item.data() == value)`
      for each row in turn, in an exclusive group. */
  method CheckButtons(items: seq<Choice>, value: Value) returns (checkedId: int)
    ensures checkedId == LastMatch(items, value)
  {
    checkedId := -1;
    for index := 0 to |items|
      invariant checkedId == LastMatch(items[..index], value)
    {
      assert items[..index + 1][..index] == items[..index];
      if PyEq(items[index].data, value) {
        checkedId := index;
      }
    }
    assert items[..|items|] == items;
  }

  /** When no two rows' data compare equal, the checked button is the one row
      whose data is `value`. */
  lemma {:induction false} LastMatchUnique(items: seq<Choice>, value: Value, k: int)
    requires forall i, j :: 0 <= i < |items| && 0 <= j < |items| && i != j ==>
      !PyEq(items[i].data, items[j].data)
    requires 0 <= k < |items| && items[k].data == value
    ensures LastMatch(items, value) == k
  {
    if k < |items| - 1 {
      assert !PyEq(items[|items| - 1].data, items[k].data);
      LastMatchUnique(items[..|items| - 1], value, k);
    }
  }

  function UpperChar(c: char): char { if 'a' <= c <= 'z' then (c as int - 32) as char else c }

  function LowerChar(c: char): char { if 'A' <= c <= 'Z' then (c as int + 32) as char else c }

  /** `str.capitalize`: the first character upper case, the rest lower case. */
  function Capitalize(s: string): (r: string)
    ensures |r| == |s|
    ensures |s| > 0 ==> r[0] == UpperChar(s[0])
    ensures forall i :: 0 < i < |s| ==> r[i] == LowerChar(s[i])
  {
    if s == [] then [] else [UpperChar(s[0])] + seq(|s| - 1, i requires 0 <= i < |s| - 1 => LowerChar(s[i + 1]))
  }

  /** The colours the dialog offers, in the order it lists them. */
  const ColorNames: seq<string> := ["red", "blue", "green"]

  /** The rows `SettingsDialog.colors()` builds: the capitalised name is shown
      and the lower-case name is the data. */
  function ColorChoices(): (cs: seq<Choice>)
    ensures |cs| == |ColorNames|
  {
    seq(|ColorNames|, i requires 0 <= i < |ColorNames| =>
      Choice(Capitalize(ColorNames[i]), StrV(ColorNames[i])))
  }

  /** `SettingsDialog.colors()`: one row per colour, appended in order. */
  method Colors() returns (model: seq<Choice>)
    ensures model == ColorChoices()
  {
    model := [];
    for i := 0 to |ColorNames|
      invariant model == ColorChoices()[..i]
    {
      var color := ColorNames[i];
      model := model + [Choice(Capitalize(color), StrV(color))];
    }
  }

  /** The colour rows are Red, Blue and Green, with data red, blue and green. */
  lemma ColorChoicesAre()
    ensures ColorChoices() == [Choice("Red", StrV("red")), Choice("Blue", StrV("blue")),
                               Choice("Green", StrV("green"))]
  {
    var cs := ColorChoices();
    assert cs[0] == Choice(Capitalize("red"), StrV("red"));
    assert cs[1] == Choice(Capitalize("blue"), StrV("blue"));
    assert cs[2] == Choice(Capitalize("green"), StrV("green"));
    assert Capitalize("red") == "Red";
    assert Capitalize("blue") == "Blue";
    assert Capitalize("green") == "Green";
  }

  /** A stored colour that is one of the offered ones checks exactly its own
      button; any other stored value checks none. */
  lemma ColorButtonChecked(value: Value)
    ensures LastMatch(ColorChoices(), value) ==
      if value == StrV("red") then 0
      else if value == StrV("blue") then 1
      else if value == StrV("green") then 2
      else -1
  {
    ColorChoicesAre();
    var cs := ColorChoices();
    if value == StrV("red") { LastMatchUnique(cs, value, 0); }
    else if value == StrV("blue") { LastMatchUnique(cs, value, 1); }
    else if value == StrV("green") { LastMatchUnique(cs, value, 2); }
  }
}
