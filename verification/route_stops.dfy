/**
 * The stops of the current route and the view of them the screen shows
 * and announces: every stop except the chosen departure and destination.
 */
module RouteStops {
  import opened Strings
  import opened Seqs
  import opened TimeFields

  /** `allRouteStops.filter(stop => stop !== fromStation && stop !== toStation)`. */
  function WithoutEndpoints(stops: seq<string>, fromStation: string, toStation: string): (r: seq<string>)
    ensures forall s :: s in r <==> s in stops && s != fromStation && s != toStation
  {
    if stops == [] then []
    else
      (if stops[0] != fromStation && stops[0] != toStation then [stops[0]] else [])
      + WithoutEndpoints(stops[1..], fromStation, toStation)
  }

  /** The `intermediateStops` view: nothing until both endpoints are chosen and a route is known. */
  function Intermediate(allStops: seq<string>, fromStation: string, toStation: string): (r: seq<string>)
    ensures forall s :: s in r <==>
      fromStation != "" && toStation != "" && s in allStops && s != fromStation && s != toStation
  {
    if fromStation == "" || toStation == "" || |allStops| == 0 then []
    else WithoutEndpoints(allStops, fromStation, toStation)
  }

  lemma {:induction false} WithoutEndpointsIsDoubleRemoval(stops: seq<string>, fromStation: string, toStation: string)
    ensures WithoutEndpoints(stops, fromStation, toStation) == RemoveAll(RemoveAll(stops, fromStation), toStation)
  {
    if stops != [] {
      WithoutEndpointsIsDoubleRemoval(stops[1..], fromStation, toStation);
      var h := if stops[0] == fromStation then [] else [stops[0]];
      RemoveAllAppend(h, RemoveAll(stops[1..], fromStation), toStation);
    }
  }

  /**
   * With both endpoints chosen, the intermediate stops are the route with
   * every occurrence of the departure and of the destination removed: the
   * other stops all stay, as often as before, in route order. With either
   * endpoint empty there are none.
   */
  lemma IntermediateIsRouteWithoutEndpoints(allStops: seq<string>, fromStation: string, toStation: string)
    ensures fromStation == "" || toStation == "" ==> Intermediate(allStops, fromStation, toStation) == []
    ensures fromStation != "" && toStation != "" ==>
      var r := Intermediate(allStops, fromStation, toStation);
      && r == RemoveAll(RemoveAll(allStops, fromStation), toStation)
      && IsSubsequence(r, allStops)
      && multiset(r) == multiset(allStops)[fromStation := 0][toStation := 0]
  {
    WithoutEndpointsIsDoubleRemoval(allStops, fromStation, toStation);
    var once := RemoveAll(allStops, fromStation);
    RemoveAllKeepsOthers(allStops, fromStation);
    RemoveAllKeepsOthers(once, toStation);
    WithoutEndpointsOrder(allStops, fromStation, toStation);
  }

  lemma {:induction false} WithoutEndpointsOrder(stops: seq<string>, fromStation: string, toStation: string)
    ensures IsSubsequence(WithoutEndpoints(stops, fromStation, toStation), stops)
  {
    if stops != [] {
      WithoutEndpointsOrder(stops[1..], fromStation, toStation);
      var rest := WithoutEndpoints(stops[1..], fromStation, toStation);
      var r := WithoutEndpoints(stops, fromStation, toStation);
      if stops[0] != fromStation && stops[0] != toStation {
        assert r[0] == stops[0] && r[1..] == rest;
      } else {
        assert r == rest;
      }
    }
  }

  /**
   * Removing a stop from the route removes it from the intermediate stops
   * and leaves the rest of that view as it was.
   */
  lemma IntermediateAfterRemoval(allStops: seq<string>, fromStation: string, toStation: string, station: string)
    ensures Intermediate(RemoveAll(allStops, station), fromStation, toStation)
         == RemoveAll(Intermediate(allStops, fromStation, toStation), station)
  {
    if fromStation != "" && toStation != "" {
      var pruned := RemoveAll(allStops, station);
      WithoutEndpointsIsDoubleRemoval(allStops, fromStation, toStation);
      WithoutEndpointsIsDoubleRemoval(pruned, fromStation, toStation);
      RemoveAllCommutes(allStops, station, fromStation);
      RemoveAllCommutes(RemoveAll(allStops, fromStation), station, toStation);
    }
  }

  /** The time sent with a route request: the chosen "HH:MM" when both fields are set, otherwise "10:00". */
  function RequestTime(hours: string, minutes: string): string
  {
    if hours != "" && minutes != "" then TimeOfDay(hours, minutes) else "10:00"
  }

  /** The request's `dateTime`: tomorrow's date (`YYYY-MM-DD`), a `T`, and the request time. */
  function RequestDateTime(tomorrow: string, hours: string, minutes: string): (r: string)
    ensures |r| == |tomorrow| + 1 + |RequestTime(hours, minutes)|
    ensures r[..|tomorrow|] == tomorrow && r[|tomorrow|] == 'T'
    ensures r[|tomorrow| + 1..] == RequestTime(hours, minutes)
  {
    tomorrow + "T" + RequestTime(hours, minutes)
  }

  /**
   * The request time always reads "HH:MM"; it carries the chosen hour and
   * minute when both are set and 10:00 otherwise.
   */
  lemma RequestTimeReadsBack(hours: string, minutes: string)
    requires ValidField(hours, MaxHours) && ValidField(minutes, MaxMinutes)
    ensures var t := RequestTime(hours, minutes);
      && |t| == 5 && t[2] == ':' && AllDigits(t[..2]) && AllDigits(t[3..])
      && DecimalValue(t[..2]) == (if hours != "" && minutes != "" then DecimalValue(hours) else 10)
      && DecimalValue(t[3..]) == (if hours != "" && minutes != "" then DecimalValue(minutes) else 0)
  {
    if hours != "" && minutes != "" {
      TimeOfDayReadsBack(hours, minutes);
    } else {
      var t := "10:00";
      assert t[..2] == "10" && t[3..] == "00";
      assert DecimalValue("1") == 1;
      assert DecimalValue("10") == 10 * DecimalValue("1") + 0;
      assert DecimalValue("0") == 0;
      assert DecimalValue("00") == 10 * DecimalValue("0") + 0;
    }
  }
}
