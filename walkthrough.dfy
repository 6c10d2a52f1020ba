/**
  One session end to end on a one-record dataset: search, select, edit the
  address inline, go back to the search, select again and confirm. The
  edit is made through the selected reference and is seen through the
  dataset and the cached results, because all three hold the same record.
 */
module Walkthrough {
  import opened Records
  import opened JsText
  import opened Normalizer
  import opened Editing
  import opened Search
  import opened App

  /** Typing a matching query lists the only record and caches it; clicking it selects it. */
  method SearchAndSelect(s: Session, p: Place, query: string)
    requires s.Valid() && s.addresses == [p]
    requires |query| >= MinQueryLength && Matches(p.address, Lower(query))
    modifies s
    ensures s.Valid() && s.addresses == s.lastResults == [p] && s.selected == p && s.lastQuery == query
  {
    s.OnSearchInput(query);
    FilteredSingle(p, Lower(query));
    s.Select(s.shownResults[0]);
  }

  /** Opening the edit form and typing `f` over what it showed. */
  method OpenAndType(s: Session, f: EditForm)
    requires s.Valid() && s.selected != null
    modifies s
    ensures s.Valid() && s.form == f && s.selected == old(s.selected)
    ensures s.addresses == old(s.addresses) && s.lastResults == old(s.lastResults)
    ensures s.lastQuery == old(s.lastQuery)
  {
    var shown := s.OpenEdit();
    s.TypeEditForm(f);
  }

  /** Editing and saving changes the selected record itself; the lists that hold it are untouched. */
  method EditSelected(s: Session, p: Place, f: EditForm)
    requires s.Valid() && s.selected == p
    modifies s, p
    ensures p.address == ApplyEdit(old(p.address), f)
    ensures s.Valid() && s.selected == p && s.addresses == old(s.addresses)
    ensures s.lastResults == old(s.lastResults) && s.lastQuery == old(s.lastQuery)
  {
    OpenAndType(s, f);
    var saved := s.SaveEdit();
  }

  /** Going back lists the cached record again; selecting it and confirming hands it off with `unit`. */
  method BackAndConfirm(s: Session, p: Place, unit: string) returns (flex: Option<FlexAddress>)
    requires s.Valid() && s.lastResults == [p]
    modifies s
    ensures s.selected == p && s.searchText == s.lastQuery == old(s.lastQuery) && s.shownResults == [p]
    ensures flex == Some(ToFlexShape(p.address, unit))
  {
    s.GoBackToSearch();
    s.Select(s.shownResults[0]);
    s.TypeUnit(unit);
    flex := s.Confirm();
  }

  /**
    A whole session over the one-record dataset [p]: after the edit, the
    dataset entry, the cached result and `p` itself all carry the edited
    address, and the confirmation hands off that edited address.
   */
  method EditSharedRecord(p: Place, query: string, f: EditForm, unit: string)
      returns (flex: Option<FlexAddress>, inDataset: Address, inResults: Address)
    requires |query| >= MinQueryLength && Matches(p.address, Lower(query))
    modifies p
    ensures inDataset == inResults == p.address == ApplyEdit(old(p.address), f)
    ensures flex == Some(ToFlexShape(p.address, unit))
  {
    var s := new Session();
    s.Load([p]);
    SearchAndSelect(s, p, query);
    EditSelected(s, p, f);
    inDataset := s.addresses[0].address;
    inResults := s.lastResults[0].address;
    flex := BackAndConfirm(s, p, unit);
  }

  /** The Evergreen Terrace record matches "742 ev" through its full-street key. */
  lemma EvergreenMatches(a: Address)
    requires a.houseNumber == Some("742") && a.road == Some("Evergreen Terrace")
    ensures Matches(a, Lower("742 ev"))
  {
    LowerOfLowercase("742 ev");
    assert "742 ev" <= Lower("742" + " " + "Evergreen Terrace");
  }

  /**
    A query found inside a key but not at its start does not match:
    "ergreen" does not find 742 Evergreen Terrace, Springfield 62704.
   */
  lemma ErgreenDoesNotMatch(a: Address)
    requires a.houseNumber == Some("742") && a.road == Some("Evergreen Terrace")
    requires a.city == Some("Springfield") && a.postcode == Some("62704")
    ensures !Matches(a, Lower("ergreen"))
  {
    LowerOfLowercase("ergreen");
    assert FullStreetKey(a)[0] == LowerChar('7');
    assert RoadKey(a)[1] == LowerChar('v');
    assert CityKey(a)[0] == LowerChar('S');
    assert PostcodeKey(a)[0] == '6';
  }

  /** The edited values carry no surrounding whitespace, so saving keeps them as typed. */
  lemma EvergreenFormTrimmed()
    ensures Trim("100 Main St") == "100 Main St" && Trim("Springfield") == "Springfield"
    ensures Trim("IL") == "IL" && Trim("62701") == "62701"
  {
    assert IsTrimmed("100 Main St") && IsTrimmed("Springfield") && IsTrimmed("IL") && IsTrimmed("62701");
    TrimOfTrimmed("100 Main St");
    TrimOfTrimmed("Springfield");
    TrimOfTrimmed("IL");
    TrimOfTrimmed("62701");
  }

  /** Saving the Evergreen edit form and confirming with "Apt 4" hands off the typed fields. */
  lemma EvergreenHandOff(a: Address, f: EditForm)
    requires f == EditForm("100 Main St", "Springfield", "IL", "62701")
    ensures ToFlexShape(ApplyEdit(a, f), "Apt 4") == FlexAddress("100 Main St", "Apt 4", "Springfield", "IL", "62701")
  {
    EvergreenFormTrimmed();
    SavedFlexShape(a, f, "Apt 4");
  }

  /**
    The worked example: the Evergreen Terrace record found with "742 ev",
    edited to "100 Main St" / "Springfield" / "IL" / "62701" and confirmed
    with unit "Apt 4", is handed off as exactly those fields.
   */
  method EvergreenExample() returns (flex: Option<FlexAddress>)
    ensures flex == Some(FlexAddress("100 Main St", "Apt 4", "Springfield", "IL", "62701"))
  {
    var a := Address(Some("742"), Some("Evergreen Terrace"), Some("Springfield"), None, None,
                     Some("IL"), Some("62704"));
    var p := new Place(a, Coords("39.78", "-89.65"));
    var f := EditForm("100 Main St", "Springfield", "IL", "62701");
    EvergreenMatches(a);
    var inDataset, inResults;
    flex, inDataset, inResults := EditSharedRecord(p, "742 ev", f, "Apt 4");
    EvergreenHandOff(a, f);
  }
}
