/**
  The page's module-level state and the handlers that change it: loading
  the dataset, the user's location, searching, selecting a result, going
  back to the search, editing the selected address in place and
  confirming it. Besides the script's own variables the session holds the
  values of the page inputs that the handlers read or write (search text,
  unit text, the edit form) and which records the results list shows.
 */
module App {
  import opened Records
  import opened JsText
  import opened Ranking
  import opened Normalizer
  import opened Editing
  import opened Search

  class Session {
    /** The loaded dataset, in file order. */
    var addresses: seq<Place>
    /** The selected record: the very object from the dataset or the reverse geocoder, not a copy. */
    var selected: Place?
    /** The search text at the moment of the last selection. */
    var lastQuery: string
    /** The results of the last search that reached the filter. */
    var lastResults: seq<Place>
    /** The distance key of the user's position, once geolocation has reported one. */
    var location: Option<DistanceKey>
    /** The value of the search input. */
    var searchText: string
    /** The records the results list currently shows. */
    var shownResults: seq<Place>
    /** The value of the unit input. */
    var unitText: string
    /** Whether the inline edit form is shown in place of the address display. */
    var editing: bool
    /** The values of the edit form's four inputs. */
    var form: EditForm

    /** Neither the cached results nor the shown list ever hold more than five records. */
    ghost predicate Valid()
      reads this
    {
      |lastResults| <= MaxResults && |shownResults| <= MaxResults
    }

    /** The state before the dataset has loaded. */
    constructor ()
      ensures Valid()
      ensures addresses == [] && selected == null && lastQuery == "" && lastResults == []
      ensures location == None && searchText == "" && shownResults == [] && unitText == ""
      ensures !editing && form == EditForm("", "", "", "")
    {
      addresses := [];
      selected := null;
      lastQuery := "";
      lastResults := [];
      location := None;
      searchText := "";
      shownResults := [];
      unitText := "";
      editing := false;
      form := EditForm("", "", "", "");
    }

    /** The dataset fetch resolved with `data`. */
    method Load(data: seq<Place>)
      requires Valid()
      modifies this`addresses
      ensures Valid()
      ensures addresses == data
    {
      addresses := data;
    }

    /** A geolocation callback reported the user's position, given by the distance key it induces. */
    method SetLocation(key: DistanceKey)
      requires Valid()
      modifies this`location
      ensures Valid()
      ensures location == Some(key)
    {
      location := Some(key);
    }

    /**
      searchAddresses(query): the results for the current dataset and
      location. A query of fewer than two characters returns [] and leaves
      the cache alone; any other query replaces the cache with exactly the
      returned records.
     */
    method SearchAddresses(query: string) returns (results: seq<Place>)
      requires Valid()
      modifies this`lastResults
      ensures Valid()
      ensures results == SearchResults(addresses, query, location)
      ensures |query| < MinQueryLength ==> results == [] && lastResults == old(lastResults)
      ensures |query| >= MinQueryLength ==> lastResults == results
    {
      if |query| < MinQueryLength {
        return [];
      }
      var q := Lower(query);
      var matched := Filtered(addresses, q);
      var ranked := Ranked(matched, location);
      results := Take(ranked, MaxResults);
      assert results == SearchResults(addresses, query, location);
      lastResults := results;
    }

    /**
      The search input's listener, with the debounce collapsed: the text is
      recorded; under two characters the list is emptied without a search,
      otherwise the search runs and its results are listed.
     */
    method OnSearchInput(text: string)
      requires Valid()
      modifies this`searchText, this`shownResults, this`lastResults
      ensures Valid()
      ensures searchText == text
      ensures |text| < MinQueryLength ==> shownResults == [] && lastResults == old(lastResults)
      ensures |text| >= MinQueryLength ==>
                shownResults == lastResults && lastResults == SearchResults(addresses, text, location)
    {
      searchText := text;
      if |text| < MinQueryLength {
        shownResults := [];
        return;
      }
      var results := SearchAddresses(text);
      shownResults := results;
    }

    /** The clear button and the search screen's back button: empty input, empty list. */
    method ClearSearch()
      requires Valid()
      modifies this`searchText, this`shownResults
      ensures Valid()
      ensures searchText == "" && shownResults == []
    {
      searchText := "";
      shownResults := [];
    }

    /**
      selectAddress(p): keeps a reference to `p` itself, remembers the search
      text, clears the unit input and hides the edit form.
     */
    method Select(p: Place)
      requires Valid()
      modifies this`selected, this`lastQuery, this`unitText, this`editing
      ensures Valid()
      ensures selected == p && lastQuery == searchText && unitText == "" && !editing
    {
      selected := p;
      lastQuery := searchText;
      unitText := "";
      editing := false;
    }

    /**
      goBackToSearch: the search text is put back to what it was at the last
      selection and the cached results are listed again, without searching.
     */
    method GoBackToSearch()
      requires Valid()
      modifies this`searchText, this`shownResults
      ensures Valid()
      ensures searchText == lastQuery && shownResults == lastResults
    {
      searchText := lastQuery;
      shownResults := lastResults;
    }

    /** The user types into the unit input. */
    method TypeUnit(text: string)
      requires Valid()
      modifies this`unitText
      ensures Valid()
      ensures unitText == text
    {
      unitText := text;
    }

    /**
      The edit-address button: fills the form from the selected record and
      shows it. With nothing selected the handler fails on its first read
      and nothing changes.
     */
    method OpenEdit() returns (shown: bool)
      requires Valid()
      modifies this`form, this`editing
      ensures Valid()
      ensures shown == (selected != null)
      ensures shown ==> form == FormFor(selected.address) && editing
      ensures !shown ==> form == old(form) && editing == old(editing)
    {
      if selected == null {
        return false;
      }
      form := FormFor(selected.address);
      editing := true;
      shown := true;
    }

    /** The user types into the edit form. */
    method TypeEditForm(f: EditForm)
      requires Valid()
      modifies this`form
      ensures Valid()
      ensures form == f
    {
      form := f;
    }

    /**
      The save button: writes the form into the selected record's address in
      place and hides the form. The record is the shared object, so the edit
      is seen through the dataset and the cached results wherever they hold
      it; the modifies clause lets no other record change. With nothing
      selected the handler fails before writing.
     */
    method SaveEdit() returns (saved: bool)
      requires Valid()
      modifies this`editing, selected
      ensures Valid()
      ensures saved == (selected != null)
      ensures saved ==> selected.address == ApplyEdit(old(selected.address), old(form)) && !editing
      ensures !saved ==> editing == old(editing)
    {
      if selected == null {
        return false;
      }
      editing := false;
      selected.address := ApplyEdit(selected.address, form);
      saved := true;
    }

    /**
      The confirm button: the hand-off shape of the selected record with the
      unit text, or nothing when no record is selected. It changes no state.
     */
    method Confirm() returns (flex: Option<FlexAddress>)
      ensures flex.None? <==> selected == null
      ensures flex.Some? ==> flex.value.addressLine1 == StreetLine(selected.address)
      ensures flex.Some? ==> flex.value.addressLine2 == unitText
      ensures flex.Some? ==> flex.value == ToFlexShape(selected.address, unitText)
    {
      if selected == null {
        return None;
      }
      flex := Some(ToFlexShape(selected.address, unitText));
    }
  }
}
