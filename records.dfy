/**
  Address records as the engine receives them: a geocoder-style place with
  an `address` object of optional text fields and raw latitude/longitude
  text. A place is a heap object because the engine hands the very same
  object to the selection and edits it in place.
 */
module Records {

  datatype Option<+T> = None | Some(value: T)

  /** JavaScript truthiness of an optional text field: present and non-empty. */
  predicate Truthy(o: Option<string>) {
    o.Some? && o.value != ""
  }

  /**
    The expression `o || d`: the field's text when it is truthy, `d`
    otherwise; with the default "" a present field always reads as its own
    text, even when that text is empty.
   */
  function OrElse(o: Option<string>, d: string): (r: string)
    ensures Truthy(o) ==> r == o.value
    ensures !Truthy(o) ==> r == d
    ensures d == "" ==> r == (if o.Some? then o.value else "")
  {
    if Truthy(o) then o.value else d
  }

  /**
    How `+` renders a field in string concatenation: a present field as its
    text, a missing one as the nine characters "undefined", so the rendering
    of a missing field is never empty.
   */
  function Concatenated(o: Option<string>): (r: string)
    ensures o.Some? ==> r == o.value
    ensures o.None? ==> r == "undefined" && |r| == 9
  {
    if o.Some? then o.value else "undefined"
  }

  /**
    The first truthy field of `fields`, or "" when none is: the meaning of
    a chain `f0 || f1 || ... || ''`.
   */
  function FirstTruthy(fields: seq<Option<string>>): (r: string)
    ensures r == "" <==> forall i :: 0 <= i < |fields| ==> !Truthy(fields[i])
    ensures r != "" ==> exists i :: 0 <= i < |fields| && fields[i] == Some(r) && NoneTruthyBefore(fields, i)
  {
    if fields == [] then ""
    else if Truthy(fields[0]) then
      assert NoneTruthyBefore(fields, 0);
      fields[0].value
    else
      var r := FirstTruthy(fields[1..]);
      assert forall i :: 1 <= i < |fields| ==> fields[i] == fields[1..][i - 1];
      assert r != "" ==> exists i :: 0 <= i < |fields| && fields[i] == Some(r) && NoneTruthyBefore(fields, i) by {
        if r != "" {
          var i :| 0 <= i < |fields[1..]| && fields[1..][i] == Some(r) && NoneTruthyBefore(fields[1..], i);
          assert fields[i + 1] == Some(r) && NoneTruthyBefore(fields, i + 1);
        }
      }
      r
  }

  /** No field before index `i` is truthy. */
  predicate NoneTruthyBefore(fields: seq<Option<string>>, i: int)
    requires i <= |fields|
  {
    forall j :: 0 <= j < i ==> !Truthy(fields[j])
  }

  /** The `address` object of a record; a field the record lacks is None. */
  datatype Address = Address(
    houseNumber: Option<string>,
    road: Option<string>,
    city: Option<string>,
    town: Option<string>,
    village: Option<string>,
    state: Option<string>,
    postcode: Option<string>)

  /** The record's `lat` and `lon`, as the text the dataset and the reverse geocoder deliver. */
  datatype Coords = Coords(lat: string, lon: string)

  /** One address record: its mutable `address` fields and its fixed coordinates. */
  class Place {
    var address: Address
    const coords: Coords

    constructor (address: Address, coords: Coords)
      ensures this.address == address && this.coords == coords
    {
      this.address := address;
      this.coords := coords;
    }
  }
}
