/**
  The filter bar: a free-text name input and a type `<select>` whose first
  option means "all types". It owns no state; it turns the type list into
  options and forwards what the user enters.
 */
module FilterBar {
  import opened JsRuntime

  /** One `<option>` of the type select. */
  datatype SelectOption = SelectOption(value: string, text: string)

  /** What the bar reports to its owner. */
  datatype Change = NameChange(value: string) | TypeChange(value: string)

  /** The label of the "all types" option. */
  const AllTypesLabel: string := "Todos los tipos"

  /** `t.charAt(0).toUpperCase() + t.slice(1)`. */
  function Capitalize(t: string): string
  {
    if |t| == 0 then "" else [UpperChar(t[0])] + t[1..]
  }

  /** A label keeps the type's length and characters; only the first may change, and only in case. */
  lemma CapitalizeShape(t: string)
    ensures |Capitalize(t)| == |t|
    ensures forall i :: 1 <= i < |t| ==> Capitalize(t)[i] == t[i]
    ensures |t| > 0 ==> !IsLower(Capitalize(t)[0])
    ensures |t| > 0 && !IsLower(t[0]) ==> Capitalize(t) == t
    ensures t == "" ==> Capitalize(t) == ""
  {
  }

  /** Case-insensitively, a label reads the same as its type. */
  lemma CapitalizeSameIgnoringCase(t: string)
    ensures ToLowerCase(Capitalize(t)) == ToLowerCase(t)
  {
    var c := Capitalize(t);
    forall i | 0 <= i < |t|
      ensures ToLowerCase(c)[i] == ToLowerCase(t)[i]
    {
      if i == 0 {
        LowerOfUpper(t[0]);
      }
    }
  }

  /** Capitalizing a label again changes nothing. */
  lemma CapitalizeIdempotent(t: string)
    ensures Capitalize(Capitalize(t)) == Capitalize(t)
  {
    if |t| > 0 {
      assert Capitalize(t)[1..] == t[1..];
    }
  }

  /** The options of the type select: "all types" first, then one per type in the given order. */
  function TypeOptions(types: Nullable<seq<string>>): (r: seq<SelectOption>)
    ensures |r| == 1 + |Coalesce(types, [])|
    ensures r[0] == SelectOption("", AllTypesLabel)
    ensures forall i :: 0 <= i < |Coalesce(types, [])| ==>
              r[i + 1].value == Coalesce(types, [])[i] && r[i + 1].text == Capitalize(Coalesce(types, [])[i])
  {
    var ts := Coalesce(types, []);
    [SelectOption("", AllTypesLabel)] + seq(|ts|, i requires 0 <= i < |ts| => SelectOption(ts[i], Capitalize(ts[i])))
  }

  /**
    The values of the options after the first, in order, give back the type
    list; a missing list gives the single "all types" option.
   */
  lemma TypeOptionValues(types: Nullable<seq<string>>)
    ensures types.Missing? ==> TypeOptions(types) == [SelectOption("", AllTypesLabel)]
    ensures OptionValues(TypeOptions(types)[1..]) == Coalesce(types, [])
    ensures forall i :: 0 <= i < |TypeOptions(types)| ==>
              (TypeOptions(types)[i].value == "" && i == 0) || (i > 0 && TypeOptions(types)[i].value in Coalesce(types, []))
  {
  }

  /** The values of a run of options, in order. */
  function OptionValues(options: seq<SelectOption>): (r: seq<string>)
    ensures |r| == |options|
  {
    seq(|options|, i requires 0 <= i < |options| => options[i].value)
  }

  /** The name input's `onChange`: forward the raw input value. */
  function OnNameInput(targetValue: string): Change
  {
    NameChange(targetValue)
  }

  /** The type select's `onChange`: forward the chosen option's value. */
  function OnTypeSelect(targetValue: string): Change
  {
    TypeChange(targetValue)
  }
}
