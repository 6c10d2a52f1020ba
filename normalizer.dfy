/**
  The display lines and the hand-off ("Flex") shape derived from an
  address: getStreetLine, getCityLine and toFlexShape.
 */
module Normalizer {
  import opened Records
  import opened JsText

  /** The locality shown to the user: city, else town, else village, else "". */
  function CityName(a: Address): (r: string)
    ensures r == FirstTruthy([a.city, a.town, a.village])
  {
    assert FirstTruthy([a.village]) == OrElse(a.village, "") by {
      assert [a.village][1..] == [];
    }
    assert FirstTruthy([a.town, a.village]) == OrElse(a.town, OrElse(a.village, "")) by {
      assert [a.town, a.village][1..] == [a.village];
    }
    assert [a.city, a.town, a.village][1..] == [a.town, a.village];
    OrElse(a.city, OrElse(a.town, OrElse(a.village, "")))
  }

  /** The locality put in the hand-off shape: city, else town, else "" (village is not consulted). */
  function FlexCity(a: Address): (r: string)
    ensures r == FirstTruthy([a.city, a.town])
  {
    assert [a.city, a.town][1..] == [a.town];
    assert [a.town][1..] == [];
    OrElse(a.city, OrElse(a.town, ""))
  }

  /** getStreetLine: house number and road joined by a space, trimmed; a missing part counts as "". */
  function StreetLine(a: Address): (r: string)
    ensures IsTrimmed(r)
  {
    Trim(OrElse(a.houseNumber, "") + " " + OrElse(a.road, ""))
  }

  /** getCityLine: "<locality> <state>, <postcode>", missing parts as "". */
  function CityLine(a: Address): (r: string)
    ensures var loc, st, zip := CityName(a), OrElse(a.state, ""), OrElse(a.postcode, "");
            |r| == |loc| + |st| + |zip| + 3
            && r[..|loc| + 1] == loc + " "
            && r[|loc| + 1..|loc| + 1 + |st|] == st
            && r[|r| - |zip| - 2..] == ", " + zip
  {
    CityName(a) + " " + OrElse(a.state, "") + ", " + OrElse(a.postcode, "")
  }

  /** The canonical hand-off shape. */
  datatype FlexAddress = FlexAddress(
    addressLine1: string,
    addressLine2: string,
    city: string,
    state: string,
    zip: string)

  /**
    toFlexShape(addr, unit). `unit` is the text of the unit input, always a
    string, so `unit || ''` is `unit` itself.
   */
  function ToFlexShape(a: Address, unit: string): (f: FlexAddress)
    ensures f.addressLine1 == StreetLine(a) && IsTrimmed(f.addressLine1)
    ensures f.addressLine2 == unit
    ensures f.city == FirstTruthy([a.city, a.town])
    ensures a.state.Some? ==> f.state == a.state.value
    ensures a.postcode.Some? ==> f.zip == a.postcode.value
    ensures a.state.None? ==> f.state == ""
    ensures a.postcode.None? ==> f.zip == ""
  {
    FlexAddress(StreetLine(a), unit, FlexCity(a), OrElse(a.state, ""), OrElse(a.postcode, ""))
  }

  lemma StreetLineOfFields(a: Address)
    requires a.houseNumber.Some? && a.road.Some?
    ensures StreetLine(a) == Trim(a.houseNumber.value + " " + a.road.value)
  {
  }

  /** When both parts are present and already trimmed, the street line is "<number> <road>". */
  lemma StreetLineOfParts(a: Address)
    requires Truthy(a.houseNumber) && IsTrimmed(a.houseNumber.value)
    requires Truthy(a.road) && IsTrimmed(a.road.value)
    ensures StreetLine(a) == a.houseNumber.value + " " + a.road.value
  {
    var s := a.houseNumber.value + " " + a.road.value;
    assert s[0] == a.houseNumber.value[0];
    assert s[|s| - 1] == a.road.value[|a.road.value| - 1];
    TrimOfTrimmed(s);
  }

  /** Without a house number the street line is the trimmed road, and without a road the trimmed house number. */
  lemma StreetLineOfOnePart(a: Address)
    ensures !Truthy(a.houseNumber) ==> StreetLine(a) == Trim(OrElse(a.road, ""))
    ensures !Truthy(a.road) ==> StreetLine(a) == Trim(OrElse(a.houseNumber, ""))
  {
    if !Truthy(a.houseNumber) {
      assert "" + " " + OrElse(a.road, "") == [' '] + OrElse(a.road, "");
      TrimPrependWhitespace(' ', OrElse(a.road, ""));
    }
    if !Truthy(a.road) {
      var h := OrElse(a.houseNumber, "");
      assert h + " " + "" == h + [' '];
      TrimAppendWhitespace(h, ' ');
    }
  }

  /** The display locality and the hand-off locality differ exactly for a record whose only locality is a village. */
  lemma CityNameVersusFlexCity(a: Address)
    ensures CityName(a) == FlexCity(a) <==> Truthy(a.city) || Truthy(a.town) || !Truthy(a.village)
  {
  }

  /**
    The confirmation output never diverges from what the result list shows,
    except for the locality of a record that has only a village: the
    display falls back to the village, the hand-off shape stops at town.
   */
  lemma DisplayAgreesWithFlexShape(a: Address, unit: string)
    ensures ToFlexShape(a, unit).addressLine1 == StreetLine(a)
    ensures ToFlexShape(a, unit).addressLine2 == unit
    ensures var f := ToFlexShape(a, unit);
            CityLine(a) == f.city + " " + f.state + ", " + f.zip
            <==> (Truthy(a.city) || Truthy(a.town) || !Truthy(a.village))
  {
    var f := ToFlexShape(a, unit);
    CityNameVersusFlexCity(a);
    LineCancel(CityName(a), f.city, f.state, f.zip);
  }

  /** Two locality lines with the same state and postcode are equal only if their localities are. */
  lemma LineCancel(x: string, y: string, st: string, z: string)
    ensures x + " " + st + ", " + z == y + " " + st + ", " + z <==> x == y
  {
    var t := " " + st + ", " + z;
    assert x + " " + st + ", " + z == x + t;
    assert y + " " + st + ", " + z == y + t;
    if x + t == y + t {
      assert |x| == |y|;
      assert x == (x + t)[..|x|];
      assert y == (y + t)[..|y|];
    }
  }
}
