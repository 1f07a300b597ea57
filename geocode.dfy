/** Picking the nearest place name and country out of a reverse-geocoding response. */
module Geocode {
  import opened Wrappers

  /** One address component of a geocoding result. */
  datatype AddressComponent = AddressComponent(shortName: string, longName: string, types: seq<string>)

  /** One geocoding result; only its address components are read. */
  datatype GeocodeResult = GeocodeResult(addressComponents: seq<AddressComponent>)

  /** The `nearestLocalityInfo` stored on the athlete. */
  datatype LocalityInfo = LocalityInfo(nearestLocality: string, nearestCountry: string)

  /**
   * What the geocoder callback does: it assigns the athlete's locality info, or it throws a
   * TypeError when the results list is present but empty (results[0] is undefined).
   */
  datatype LookupOutcome = Assigned(info: LocalityInfo) | TypeError

  /** getReverseGeocodeResultForType: the components listing the type, in their original order. */
  function ComponentsOfType(components: seq<AddressComponent>, t: string): (r: seq<AddressComponent>)
    ensures |r| <= |components|
    ensures forall c :: c in r <==> c in components && t in c.types
  {
    if components == [] then []
    else (if t in components[0].types then [components[0]] else []) + ComponentsOfType(components[1..], t)
  }

  /** Filtering keeps order: filtering a concatenation concatenates the filtered parts. */
  lemma {:induction false} ComponentsOfTypeAppend(a: seq<AddressComponent>, b: seq<AddressComponent>, t: string)
    ensures ComponentsOfType(a + b, t) == ComponentsOfType(a, t) + ComponentsOfType(b, t)
  {
    if a != [] {
      assert (a + b)[0] == a[0];
      assert (a + b)[1..] == a[1..] + b;
      ComponentsOfTypeAppend(a[1..], b, t);
    } else {
      assert a + b == b;
    }
  }

  /** The position of the first component at or after `from` that lists the type, if any. */
  function FirstIndexOfType(components: seq<AddressComponent>, t: string, from: nat): (r: Option<nat>)
    decreases |components| - from
    ensures r.Some? ==> from <= r.value < |components| && t in components[r.value].types
    ensures r.Some? ==> forall j :: from <= j < r.value ==> t !in components[j].types
    ensures r.None? ==> forall j :: from <= j < |components| ==> t !in components[j].types
  {
    if from >= |components| then None
    else if t in components[from].types then Some(from)
    else FirstIndexOfType(components, t, from + 1)
  }

  /** The filtered list is non-empty exactly when some component lists the type, and it starts with the first such. */
  lemma {:induction false} ComponentsOfTypeHead(components: seq<AddressComponent>, t: string)
    ensures |ComponentsOfType(components, t)| > 0 <==> FirstIndexOfType(components, t, 0).Some?
    ensures FirstIndexOfType(components, t, 0).Some? ==>
      ComponentsOfType(components, t)[0] == components[FirstIndexOfType(components, t, 0).value]
  {
    if components != [] {
      var tail := components[1..];
      ComponentsOfTypeHead(tail, t);
      FirstIndexShift(components, t, 0);
    }
  }

  /** Searching a non-empty list past its head is searching its tail, one position on. */
  lemma {:induction false} FirstIndexShift(components: seq<AddressComponent>, t: string, from: nat)
    requires |components| > 0
    decreases |components| - from
    ensures FirstIndexOfType(components, t, from + 1) ==
      match FirstIndexOfType(components[1..], t, from) case Some(j) => Some(j + 1) case None => None
  {
    if from + 1 < |components| {
      assert components[1..][from] == components[from + 1];
      FirstIndexShift(components, t, from + 1);
    }
  }

  /** The short name of the first component listing the type, or the fallback. */
  function FirstShortName(components: seq<AddressComponent>, t: string, fallback: string): string
  {
    match FirstIndexOfType(components, t, 0)
    case Some(i) => components[i].shortName
    case None => fallback
  }

  /** The long name of the first component listing the type, or "". */
  function FirstLongName(components: seq<AddressComponent>, t: string): string
  {
    match FirstIndexOfType(components, t, 0)
    case Some(i) => components[i].longName
    case None => ""
  }

  /**
   * reverseGeoCodeLookups: with no results, empty names; otherwise, from the first result, the
   * first locality or else postal town, and the first country.
   */
  function ReverseGeocodeLookups(results: Option<seq<GeocodeResult>>): (r: LookupOutcome)
    ensures r == TypeError <==> results == Some([])
    ensures results.None? ==> r == Assigned(LocalityInfo("", ""))
  {
    match results
    case None => Assigned(LocalityInfo("", ""))
    case Some(rs) =>
      if |rs| == 0 then TypeError
      else
        var components := rs[0].addressComponents;
        var localities := ComponentsOfType(components, "locality");
        var matches := if |localities| == 0 then ComponentsOfType(components, "postal_town") else localities;
        var locality := if |matches| > 0 then matches[0].shortName else "";
        var countries := ComponentsOfType(components, "country");
        var country := if |countries| > 0 then countries[0].longName else "";
        Assigned(LocalityInfo(locality, country))
  }

  /**
   * On a non-empty results list, the nearest locality is the short name of the first "locality"
   * component of the first result, else of its first "postal_town" component, else ""; the nearest
   * country is the long name of its first "country" component, else "".
   */
  lemma NearestLocalityAndCountry(rs: seq<GeocodeResult>)
    requires |rs| > 0
    ensures ReverseGeocodeLookups(Some(rs)).Assigned?
    ensures var components := rs[0].addressComponents;
      ReverseGeocodeLookups(Some(rs)).info == LocalityInfo(
        FirstShortName(components, "locality", FirstShortName(components, "postal_town", "")),
        FirstLongName(components, "country"))
  {
    var components := rs[0].addressComponents;
    ComponentsOfTypeHead(components, "locality");
    ComponentsOfTypeHead(components, "postal_town");
    ComponentsOfTypeHead(components, "country");
  }
}
