/** `getTimezone`: a switch over location names whose default case throws. */
module Timezones {
  import opened Wrappers

  /** The `Locations` union. */
  const Locations: set<string> := {"Gothenburg/Sweden", "Berlin/Germany", "Istanbul/Turkey"}

  /** The locations the switch has a case for. */
  const HandledLocations: set<string> := {"Gothenburg/Sweden", "Berlin/Germany"}

  /** The timezone of a handled location; any other string throws "Invalid location". */
  function GetTimezone(location: string): (r: Result<string>)
    ensures r.Ok? ==> r.value == "Europe/Stockholm" || r.value == "Europe/Berlin"
    ensures r.Err? ==> r.error == "Invalid location"
  {
    if location == "Gothenburg/Sweden" then Ok("Europe/Stockholm")
    else if location == "Berlin/Germany" then Ok("Europe/Berlin")
    else Err("Invalid location")
  }

  /** `GetTimezone` returns a timezone for every member of `ls`. */
  predicate TotalOver(ls: set<string>)
  {
    forall l :: l in ls ==> GetTimezone(l).Ok?
  }

  /** A call succeeds exactly for the locations that have a case. */
  lemma SucceedsIffHandled(location: string)
    ensures GetTimezone(location).Ok? <==> location in HandledLocations
  {
  }

  /** The function is total over a union exactly when every member of it has a case. */
  lemma TotalIffEveryMemberHandled(ls: set<string>)
    ensures TotalOver(ls) <==> ls <= HandledLocations
  {
    if TotalOver(ls) {
      forall l | l in ls ensures l in HandledLocations {
        SucceedsIffHandled(l);
      }
    }
  }

  /** `Locations` has a member without a case, so the function is not total over it. */
  lemma NotTotalOverLocations()
    ensures !TotalOver(Locations)
    ensures "Istanbul/Turkey" in Locations && GetTimezone("Istanbul/Turkey") == Err("Invalid location")
  {
    TotalIffEveryMemberHandled(Locations);
    assert "Istanbul/Turkey" !in HandledLocations;
  }

  /** The two handled cases of the source. */
  lemma HandledExamples()
    ensures GetTimezone("Gothenburg/Sweden") == Ok("Europe/Stockholm")
    ensures GetTimezone("Berlin/Germany") == Ok("Europe/Berlin")
  {
  }
}
