/**
 * The space-option editor: a key/value table over the specification's option map, with the
 * keystroke filters of its two cell editors, the commit of an edited cell and the new/delete
 * actions.
 */
module OptionEditing {
  import opened Wrappers
  import opened ListOps
  import opened TextOps
  import opened SpecModel

  const ExampleKey := "$exampleKey"
  const NameProperty := "name"
  const ValueProperty := "value"

  /**
   * The name column's keystroke filter: an edit at offset 0 must start with '$' and go on with
   * letters; an edit anywhere else must be letters only.
   */
  predicate NameEditAllowed(start: int, text: string) {
    if start == 0 then |text| > 0 && text[0] == '$' && AllLetters(text[1..])
    else AllLetters(text)
  }

  /** The name column's verify listener. */
  method VerifyName(start: int, text: string) returns (doit: bool)
    ensures doit <==> NameEditAllowed(start, text)
  {
    var from := 0;
    doit := true;
    if start == 0 {
      doit := |text| > 0 && text[0] == '$';
      from := 1;
    }
    var i := from;
    while i < |text| && doit
      invariant doit ==> from <= i <= |text|
      invariant doit ==> (start == 0 ==> |text| > 0 && text[0] == '$') && forall k :: from <= k < i ==> IsLetter(text[k])
      invariant !doit ==> !NameEditAllowed(start, text)
    {
      doit := IsLetter(text[i]);
      if !doit && start == 0 {
        assert text[1..][i - 1] == text[i];
      }
      i := i + 1;
    }
    if doit && start == 0 {
      assert forall k :: 0 <= k < |text[1..]| ==> text[1..][k] == text[k + 1];
    }
  }

  /** The value column's verify listener: every inserted character must be a digit. */
  method VerifyValue(text: string) returns (doit: bool)
    ensures doit <==> AllDigits(text)
  {
    doit := true;
    var i := 0;
    while i < |text| && doit
      invariant 0 <= i <= |text|
      invariant doit <==> forall k :: 0 <= k < i ==> IsDigit(text[k])
    {
      doit := IsDigit(text[i]);
      i := i + 1;
    }
  }

  /**
   * The value filter lets through text that Integer.parseInt rejects: clearing the cell, or the
   * digits of 2^31, one past the largest int. Committing such text changes nothing.
   */
  lemma AcceptedValueMayNotParse()
    ensures AllDigits("") && ParseInt("") == None
    ensures var t := NatToDigits(MaxInt + 1); AllDigits(t) && ParseInt(t) == None
  {
    DigitsRoundTrip(MaxInt + 1);
  }

  /** Text the value filter accepts and that fits in an int commits exactly its digits' value. */
  lemma AcceptedValueParses(text: string)
    requires |text| > 0 && AllDigits(text) && DigitsValue(text) <= MaxInt
    ensures ParseInt(text) == Some(DigitsValue(text))
  {
  }

  /** The option map after renaming `from` to `to`: the old key's value (None if absent) moves. */
  function Renamed(m: map<string, Option<int>>, from: string, to: string): (r: map<string, Option<int>>)
    ensures to in r && r[to] == Lookup(m, from)
  {
    (m - {from})[to := Lookup(m, from)]
  }

  /** Renaming touches no other key, drops the old one and keeps only the new one. */
  lemma RenamedKeys(m: map<string, Option<int>>, from: string, to: string)
    ensures Renamed(m, from, to).Keys == m.Keys - {from} + {to}
    ensures forall k :: k in m && k != from && k != to ==> Renamed(m, from, to)[k] == m[k]
  {
  }

  /** Renaming a key onto a key that is not in use and back restores the map. */
  lemma RenamedBack(m: map<string, Option<int>>, from: string, to: string)
    requires from in m && to !in m
    ensures Renamed(Renamed(m, from, to), to, from) == m
  {
    var r := Renamed(Renamed(m, from, to), to, from);
    assert r.Keys == m.Keys;
  }

  /** Renaming onto a key already in use loses that key's value. */
  lemma RenamedOverwrites(m: map<string, Option<int>>, from: string, to: string)
    requires from != to && from in m && to in m
    ensures Renamed(m, from, to)[to] == m[from] && |Renamed(m, from, to)| == |m| - 1
  {
    var r := Renamed(m, from, to);
    assert r.Keys == m.Keys - {from};
  }

  /** One row of the option table: a name and a value, written through to the specification. */
  class EditableTableItem {
    var name: string
    var value: Option<int>
    const model: Specification

    constructor (m: Specification, n: string, v: Option<int>)
      ensures model == m && name == n && value == v
    {
      model, name, value := m, n, v;
    }

    /** setName: moves the specification's value for the old name to the new name. */
    method SetName(n: string)
      modifies this`name, model`spaceOptions
      ensures model.spaceOptions == Renamed(old(model.spaceOptions), old(name), n)
      ensures name == n && value == old(value)
    {
      var v := model.GetSpaceOption(name);
      model.RemoveSpaceOption(name);
      model.SetSpaceOption(n, v);
      name := n;
    }

    /** setValue: writes the value under the row's name. */
    method SetValue(v: Option<int>)
      modifies this`value, model`spaceOptions
      ensures model.spaceOptions == old(model.spaceOptions)[name := v]
      ensures value == v && name == old(name)
    {
      model.SetSpaceOption(name, v);
      value := v;
    }
  }

  /** What the rows display: each row's name and value, in display order. */
  ghost function Shown(rows: seq<EditableTableItem>): (r: seq<(string, Option<int>)>)
    reads rows
    ensures |r| == |rows| && forall k :: 0 <= k < |rows| ==> r[k] == (rows[k].name, rows[k].value)
  {
    if rows == [] then [] else [(rows[0].name, rows[0].value)] + Shown(rows[1..])
  }

  /** Every displayed line is an option with its value, and every option has a line. */
  predicate Displays(shown: seq<(string, Option<int>)>, options: map<string, Option<int>>)
  {
    (forall k :: 0 <= k < |shown| ==> shown[k].0 in options && shown[k].1 == options[shown[k].0]) &&
    options.Keys <= set k | 0 <= k < |shown| :: shown[k].0
  }

  /** Rows left untouched display the same thing. */
  twostate lemma ShownUnchanged(rows: seq<EditableTableItem>)
    requires forall r :: r in rows ==> unchanged(r)
    ensures Shown(rows) == old(Shown(rows))
  {
    forall k | 0 <= k < |rows|
      ensures Shown(rows)[k] == old(Shown(rows))[k]
    {
      assert rows[k] in rows;
    }
  }

  /**
   * The loop of refresh: one fresh row per option of `m`, in map order; `names` lists the rows'
   * names, each option once.
   */
  method NewRows(m: Specification) returns (rows: seq<EditableTableItem>, ghost names: seq<string>)
    ensures |rows| == |names|
    ensures forall k :: 0 <= k < |rows| ==>
      fresh(rows[k]) && rows[k].model == m && rows[k].name == names[k] &&
      names[k] in m.spaceOptions && rows[k].value == m.spaceOptions[names[k]]
    ensures forall n :: n in m.spaceOptions ==> n in names
    ensures forall j, k :: 0 <= j < k < |names| ==> names[j] != names[k]
  {
    var options := m.spaceOptions;
    rows, names := [], [];
    var remaining := options.Keys;
    while remaining != {}
      invariant remaining <= options.Keys
      invariant forall k :: 0 <= k < |names| ==> names[k] in options && names[k] !in remaining
      invariant forall n :: n in options && n !in remaining ==> n in names
      invariant forall j, k :: 0 <= j < k < |names| ==> names[j] != names[k]
      invariant |rows| == |names|
      invariant forall k :: 0 <= k < |rows| ==>
        fresh(rows[k]) && rows[k].model == m && rows[k].name == names[k] && rows[k].value == options[names[k]]
      decreases remaining
    {
      var n :| n in remaining;
      var item := new EditableTableItem(m, n, options[n]);
      rows, names := rows + [item], names + [n];
      remaining := remaining - {n};
    }
  }

  /** The option editor's model-side state. */
  class SpaceOptionTable {
    var model: Specification
    /** The table's rows, in display order. */
    var items: seq<EditableTableItem>
    /** The row an option deletion applies to. */
    var activeOption: Option<EditableTableItem>
    var dirty: bool
    /** How many PROP_DIRTY notifications the listeners have received. */
    var events: nat

    constructor (m: Specification)
      ensures model == m && items == [] && activeOption == None && !dirty && events == 0
    {
      model, items, activeOption, dirty, events := m, [], None, false, 0;
    }

    /** The rows show exactly the specification's options, one row per option, with its value. */
    ghost predicate ShowsOptions()
      reads this`model, this`items, items, model`spaceOptions
    {
      Displays(Shown(items), model.spaceOptions)
    }

    /** setDirty: notifies the listeners only when the flag actually changes. */
    method SetDirty(b: bool)
      modifies this`dirty, this`events
      ensures dirty == b
      ensures events == old(events) + (if old(dirty) == b then 0 else 1)
    {
      if dirty != b {
        dirty := b;
        events := events + 1;
      }
    }

    /** refresh: one fresh row per option of the specification, each name once, in map order. */
    method Refresh()
      modifies this`items
      ensures ShowsOptions()
      ensures forall k :: 0 <= k < |items| ==> fresh(items[k]) && items[k].model == model
      ensures forall j, k :: 0 <= j < k < |items| ==> items[j].name != items[k].name
    {
      var m := model;
      ghost var names;
      items, names := NewRows(m);
      assert model == m;
    }

    /** setModel: attaches the specification and refreshes the rows. */
    method SetModel(m: Specification)
      modifies this`model, this`items
      ensures model == m && ShowsOptions()
      ensures activeOption == old(activeOption) && dirty == old(dirty) && events == old(events)
      ensures forall k :: 0 <= k < |items| ==> fresh(items[k]) && items[k].model == m
      ensures forall j, k :: 0 <= j < k < |items| ==> items[j].name != items[k].name
    {
      model := m;
      Refresh();
    }

    /**
     * newOption: sets "$exampleKey" to 1 and appends a row for it, even when a row with that name
     * is already shown; the specification becomes dirty.
     */
    method NewOption() returns (item: EditableTableItem)
      modifies model`spaceOptions, this`items, this`dirty, this`events
      ensures model.spaceOptions == old(model.spaceOptions)[ExampleKey := Some(1)]
      ensures fresh(item) && item.model == model && item.name == ExampleKey && item.value == Some(1)
      ensures items == old(items) + [item]
      ensures dirty && events == old(events) + (if old(dirty) then 0 else 1)
    {
      model.SetSpaceOption(ExampleKey, Some(1));
      item := new EditableTableItem(model, ExampleKey, Some(1));
      items := items + [item];
      SetDirty(true);
    }

    /**
     * deleteOption: removes the active row's option and then the row itself, clears the active row
     * and marks the specification dirty. Without an active row nothing happens; an active row no
     * longer shown makes the row removal throw after the option is already gone.
     */
    method DeleteOption()
      modifies model`spaceOptions, this`items, this`activeOption, this`dirty, this`events
      ensures old(activeOption).None? ==>
        model.spaceOptions == old(model.spaceOptions) && items == old(items) &&
        activeOption == None && dirty == old(dirty) && events == old(events)
      ensures old(activeOption).Some? ==>
        model.spaceOptions == old(model.spaceOptions) - {old(activeOption).value.name}
      ensures old(activeOption).Some? && old(activeOption).value in old(items) ==>
        items == RemoveAt(old(items), IndexOf(old(items), old(activeOption).value)) &&
        activeOption == None && dirty && events == old(events) + (if old(dirty) then 0 else 1)
      ensures old(activeOption).Some? && old(activeOption).value !in old(items) ==>
        items == old(items) && activeOption == old(activeOption) && dirty == old(dirty) && events == old(events)
    {
      if activeOption.Some? {
        var row := activeOption.value;
        model.RemoveSpaceOption(row.name);
        var i := IndexOf(items, row);
        if i < 0 {
          return;
        }
        items := RemoveAt(items, i);
        activeOption := None;
        SetDirty(true);
      }
    }

    /**
     * The cell modifier's commit: a name edit renames the option; a value edit stores the parsed
     * value, and text Integer.parseInt rejects throws before anything changes. Only a completed
     * edit marks the specification dirty.
     */
    method Modify(item: EditableTableItem, property: string, text: string)
      requires item.model == model
      modifies item`name, item`value, model`spaceOptions, this`dirty, this`events
      ensures property == NameProperty ==>
        model.spaceOptions == Renamed(old(model.spaceOptions), old(item.name), text) &&
        item.name == text && item.value == old(item.value)
      ensures property != NameProperty && ParseInt(text).Some? ==>
        model.spaceOptions == old(model.spaceOptions)[old(item.name) := ParseInt(text)] &&
        item.value == ParseInt(text) && item.name == old(item.name)
      ensures property != NameProperty && ParseInt(text).None? ==>
        model.spaceOptions == old(model.spaceOptions) && item.name == old(item.name) && item.value == old(item.value) &&
        dirty == old(dirty) && events == old(events)
      ensures property == NameProperty || ParseInt(text).Some? ==>
        dirty && events == old(events) + (if old(dirty) then 0 else 1)
    {
      if property == NameProperty {
        item.SetName(text);
      } else {
        var parsed := ParseInt(text);
        if parsed.None? {
          return;
        }
        item.SetValue(parsed);
      }
      SetDirty(true);
    }
  }
}
