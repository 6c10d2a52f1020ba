/**
  The inline address edit: what opening the edit form puts in its four
  inputs, and what saving writes back into the address fields.
 */
module Editing {
  import opened Records
  import opened JsText
  import opened Normalizer

  /** The values of the edit form's inputs: street line, city, state and zip. */
  datatype EditForm = EditForm(line1: string, city: string, state: string, zip: string)

  /**
    The edit-address click handler fills the inputs with the street line and
    the hand-off locality, state and zip; the form therefore shows exactly
    the fields the confirmation would hand off.
   */
  function FormFor(a: Address): (f: EditForm)
    ensures var flex := ToFlexShape(a, "");
            f == EditForm(flex.addressLine1, flex.city, flex.state, flex.zip)
  {
    EditForm(StreetLine(a), OrElse(a.city, OrElse(a.town, "")), OrElse(a.state, ""), OrElse(a.postcode, ""))
  }

  /**
    The save-edit click handler's writes. The trimmed street line is split
    on single spaces: the first piece becomes the house number and the
    others, joined again with spaces, the road (both pieces are strings, so
    their `|| ''` changes nothing). City, state and zip become the trimmed
    inputs. Town, village and the coordinates are left as they were.
   */
  function ApplyEdit(a: Address, f: EditForm): (b: Address)
    ensures b.town == a.town && b.village == a.village
    ensures b.city == Some(Trim(f.city)) && b.state == Some(Trim(f.state)) && b.postcode == Some(Trim(f.zip))
    ensures b.houseNumber.Some? && b.road.Some? && ' ' !in b.houseNumber.value
  {
    var parts := Split(Trim(f.line1), ' ');
    a.(houseNumber := Some(parts[0]),
       road := Some(Join(parts[1..], ' ')),
       city := Some(Trim(f.city)),
       state := Some(Trim(f.state)),
       postcode := Some(Trim(f.zip)))
  }

  /**
    How the saved line is divided: without a space the whole trimmed line is
    the house number and the road is empty; otherwise house number, a space
    and road spell the trimmed line.
   */
  lemma SavedLineSplit(a: Address, f: EditForm)
    ensures var t, b := Trim(f.line1), ApplyEdit(a, f);
            ' ' !in t ==> b.houseNumber == Some(t) && b.road == Some("")
    ensures var t, b := Trim(f.line1), ApplyEdit(a, f);
            ' ' in t ==> b.houseNumber.value + " " + b.road.value == t
  {
    var t := Trim(f.line1);
    var parts := Split(t, ' ');
    HeadRestOfSplit(t, ' ');
    SplitSingleIffSepFree(t, ' ');
    if ' ' !in t {
      assert parts[1..] == [];
    }
  }

  /** After saving, the street line shown and handed off is exactly the trimmed line that was typed. */
  lemma SavedStreetLine(a: Address, f: EditForm)
    ensures StreetLine(ApplyEdit(a, f)) == Trim(f.line1)
  {
    var t := Trim(f.line1);
    var b := ApplyEdit(a, f);
    SavedLineSplit(a, f);
    var h, r := b.houseNumber.value, b.road.value;
    StreetLineOfFields(b);
    if ' ' in t {
      TrimOfTrimmed(t);
    } else {
      assert h + " " + r == t + [' '];
      TrimAppendWhitespace(t, ' ');
      TrimOfTrimmed(t);
    }
  }

  /**
    The hand-off shape of a saved address: the typed line, state and zip,
    trimmed; the typed city when it is not blank, otherwise the record's
    town (the saved empty city is falsy).
   */
  lemma SavedFlexShape(a: Address, f: EditForm, unit: string)
    ensures ToFlexShape(ApplyEdit(a, f), unit)
            == FlexAddress(Trim(f.line1), unit,
                           if Trim(f.city) != "" then Trim(f.city) else OrElse(a.town, ""),
                           Trim(f.state), Trim(f.zip))
  {
    SavedStreetLine(a, f);
  }

  /**
    Opening the form and saving it untouched leaves the hand-off shape as it
    was, provided the locality, state and zip it showed were already trimmed.
   */
  lemma SaveUntouchedFormKeepsFlexShape(a: Address, unit: string)
    requires IsTrimmed(FlexCity(a)) && IsTrimmed(OrElse(a.state, "")) && IsTrimmed(OrElse(a.postcode, ""))
    ensures ToFlexShape(ApplyEdit(a, FormFor(a)), unit) == ToFlexShape(a, unit)
  {
    var f := FormFor(a);
    SavedFlexShape(a, f, unit);
    TrimOfTrimmed(StreetLine(a));
    TrimOfTrimmed(FlexCity(a));
    TrimOfTrimmed(OrElse(a.state, ""));
    TrimOfTrimmed(OrElse(a.postcode, ""));
  }

  /**
    Saving is stable: reopening the form on a saved address and saving it
    untouched writes the same fields again (unless a blank city let the
    town show through in the reopened form).
   */
  lemma ResaveIsIdempotent(a: Address, f: EditForm)
    requires Trim(f.city) != "" || !Truthy(a.town)
    ensures var b := ApplyEdit(a, f);
            ApplyEdit(b, FormFor(b)) == b
  {
    var b := ApplyEdit(a, f);
    var g := FormFor(b);
    SavedFlexShape(a, f, "");
    TrimIdempotent(f.line1);
    TrimIdempotent(f.city);
    TrimIdempotent(f.state);
    TrimIdempotent(f.zip);
    assert Trim(g.line1) == Trim(f.line1);
    assert Trim(g.city) == Trim(f.city);
    SameTrimmedFormSameEdit(b, g, f);
    OverwriteEdit(a, f);
  }

  /** Saving depends on the inputs only through their trimmed text. */
  lemma SameTrimmedFormSameEdit(a: Address, f: EditForm, g: EditForm)
    requires Trim(f.line1) == Trim(g.line1) && Trim(f.city) == Trim(g.city)
    requires Trim(f.state) == Trim(g.state) && Trim(f.zip) == Trim(g.zip)
    ensures ApplyEdit(a, f) == ApplyEdit(a, g)
  {
  }

  /** Saving the same form twice is saving it once. */
  lemma OverwriteEdit(a: Address, f: EditForm)
    ensures ApplyEdit(ApplyEdit(a, f), f) == ApplyEdit(a, f)
  {
  }
}
