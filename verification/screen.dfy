/**
 * The announcement screen: the operator's selection, the stops of the
 * current route and the selected notices, held as fields and changed by one
 * method per event handler of the screen.
 */
module Screen {
  import opened Wrappers
  import opened Strings
  import opened Seqs
  import opened StationMatcher
  import opened RouteStops
  import opened Notices
  import opened TimeFields
  import opened Announcement

  const TrainTypes: seq<string> := [
    "Intercity", "Sprinter", "Intercity Direct", "Thalys", "Eurostar",
    "IC Direct", "ICE", "Nightjet", "IC Berlijn"
  ]

  /** The nine train types, each listed once. */
  lemma TrainTypesDistinct()
    ensures |TrainTypes| == 9 && NoDuplicates(TrainTypes)
  {
  }

  /** A request to the route service: `POST /api/route` with this body. */
  datatype RouteRequest = RouteRequest(from: string, to: string, dateTime: string)

  /** How a route request ended. */
  datatype RouteReply =
    | Delivered(stops: seq<string>)  // success, and the body has a `stops` array
    | WithoutStops                   // success, but the body has no `stops` array
    | Failed                         // network error, non-success status, unreadable body or a `null` body

  /** The values the route effect depends on, as they were when it last ran. */
  datatype RouteDeps = RouteDeps(fromStation: string, toStation: string, hours: string, minutes: string)

  /** Everything the screen holds, as one value. */
  datatype ScreenState = ScreenState(
    trainType: string,
    fromStation: string, fromStationSearch: string,
    toStation: string, toStationSearch: string,
    allRouteStops: seq<string>,
    hours: string, minutes: string,
    selectedNotices: seq<string>,
    loadingRoute: bool,
    routeDeps: Option<RouteDeps>)

  class AnnouncementScreen {
    var trainType: string
    var fromStation: string
    var fromStationSearch: string
    var toStation: string
    var toStationSearch: string
    var allRouteStops: seq<string>
    var hours: string
    var minutes: string
    var selectedNotices: seq<string>
    var loadingRoute: bool
    /** The dependencies at the route effect's last run; None before the first render is committed. */
    var routeDeps: Option<RouteDeps>

    /**
     * The time fields hold valid values, the train type and the notices come
     * from their catalogs, and no notice is selected twice.
     */
    ghost predicate Valid()
      reads this
    {
      && ValidField(hours, MaxHours)
      && ValidField(minutes, MaxMinutes)
      && (trainType == "" || trainType in TrainTypes)
      && (forall n :: n in selectedNotices ==> n in SpecialNotices)
      && NoDuplicates(selectedNotices)
    }

    ghost function State(): ScreenState
      reads this
    {
      ScreenState(trainType, fromStation, fromStationSearch, toStation, toStationSearch,
                  allRouteStops, hours, minutes, selectedNotices, loadingRoute, routeDeps)
    }

    constructor ()
      ensures Valid()
      ensures State() == ScreenState("", "", "", "", "", [], "", "", [], false, None)
    {
      trainType, fromStation, fromStationSearch, toStation, toStationSearch := "", "", "", "", "";
      allRouteStops, hours, minutes, selectedNotices := [], "", "", [];
      loadingRoute, routeDeps := false, None;
    }

    /** The stops between the endpoints: the route without the departure and the destination. */
    function IntermediateStops(): (r: seq<string>)
      reads this
      ensures fromStation == "" || toStation == "" ==> r == []
      ensures IsSubsequence(r, allRouteStops)
      ensures forall s :: s in r ==> s != fromStation && s != toStation
    {
      IntermediateIsRouteWithoutEndpoints(allRouteStops, fromStation, toStation);
      Intermediate(allRouteStops, fromStation, toStation)
    }

    /** The suggestions under the "from" field; it excludes no station. */
    function FromSuggestions(directory: seq<string>): (r: seq<string>)
      reads this
      ensures |r| <= MaxSuggestions && IsSubsequence(r, directory)
      ensures forall s :: s in r ==> Contains(ToLower(s), ToLower(fromStationSearch))
    {
      SuggestionsSound(directory, fromStationSearch, []);
      Suggestions(directory, fromStationSearch, [])
    }

    /** The suggestions under the "to" field; the chosen departure is never offered. */
    function ToSuggestions(directory: seq<string>): (r: seq<string>)
      reads this
      ensures |r| <= MaxSuggestions && IsSubsequence(r, directory)
      ensures forall s :: s in r ==> Contains(ToLower(s), ToLower(toStationSearch))
      ensures fromStation != "" ==> fromStation !in r
    {
      SuggestionsSound(directory, toStationSearch, ExcludeChosen(fromStation));
      Suggestions(directory, toStationSearch, ExcludeChosen(fromStation))
    }

    /** A train-type chip is pressed. */
    method SelectTrainType(t: string)
      requires Valid() && t in TrainTypes
      modifies this
      ensures Valid()
      ensures State() == old(State()).(trainType := t)
    {
      trainType := t;
    }

    /** The hour field's text changes. */
    method EditHours(text: string)
      requires Valid()
      modifies this
      ensures Valid()
      ensures State() == old(State()).(hours := EditField(old(hours), text, MaxHours))
    {
      ghost var before := hours;
      var num := KeepDigits(text);
      if num == "" || DecimalValue(num) <= MaxHours {
        hours := num[..if |num| < 2 then |num| else 2];
      }
      assert hours == EditField(before, text, MaxHours);
      EditFieldKeepsValid(before, text, MaxHours);
    }

    /** The minute field's text changes. */
    method EditMinutes(text: string)
      requires Valid()
      modifies this
      ensures Valid()
      ensures State() == old(State()).(minutes := EditField(old(minutes), text, MaxMinutes))
    {
      ghost var before := minutes;
      var num := KeepDigits(text);
      if num == "" || DecimalValue(num) <= MaxMinutes {
        minutes := num[..if |num| < 2 then |num| else 2];
      }
      assert minutes == EditField(before, text, MaxMinutes);
      EditFieldKeepsValid(before, text, MaxMinutes);
    }

    /** The operator types in the "from" search field. */
    method SetFromSearch(text: string)
      requires Valid()
      modifies this
      ensures Valid()
      ensures State() == old(State()).(fromStationSearch := text)
    {
      fromStationSearch := text;
    }

    /** The operator types in the "to" search field. */
    method SetToSearch(text: string)
      requires Valid()
      modifies this
      ensures Valid()
      ensures State() == old(State()).(toStationSearch := text)
    {
      toStationSearch := text;
    }

    /** A "from" suggestion is picked: it becomes the departure and the search text. */
    method SelectFrom(station: string)
      requires Valid()
      modifies this
      ensures Valid()
      ensures State() == old(State()).(fromStation := station, fromStationSearch := station)
    {
      fromStation := station;
      fromStationSearch := station;
    }

    /** A "to" suggestion is picked: it becomes the destination and the search text. */
    method SelectTo(station: string)
      requires Valid()
      modifies this
      ensures Valid()
      ensures State() == old(State()).(toStation := station, toStationSearch := station)
    {
      toStation := station;
      toStationSearch := station;
    }

    /** The departure's clear button: departure, its search text and the route are emptied. */
    method ClearFrom()
      requires Valid()
      modifies this
      ensures Valid()
      ensures State() == old(State()).(fromStation := "", fromStationSearch := "", allRouteStops := [])
      ensures IntermediateStops() == []
    {
      fromStation := "";
      fromStationSearch := "";
      allRouteStops := [];
    }

    /** The destination's clear button: destination, its search text and the route are emptied. */
    method ClearTo()
      requires Valid()
      modifies this
      ensures Valid()
      ensures State() == old(State()).(toStation := "", toStationSearch := "", allRouteStops := [])
      ensures IntermediateStops() == []
    {
      toStation := "";
      toStationSearch := "";
      allRouteStops := [];
    }

    /**
     * A render is committed and the route effect runs if the endpoints or
     * the time fields differ from its last run (or it never ran). With both
     * endpoints chosen it marks the route as loading and issues a request
     * for tomorrow (`tomorrow` is that date as "YYYY-MM-DD") at the chosen
     * time, or 10:00; otherwise it empties the route.
     */
    method CommitRender(tomorrow: string) returns (request: Option<RouteRequest>)
      requires Valid()
      modifies this
      ensures Valid()
      ensures var deps := RouteDeps(fromStation, toStation, hours, minutes);
        && (old(routeDeps) == Some(deps) ==> request == None && State() == old(State()))
        && (old(routeDeps) != Some(deps) && fromStation != "" && toStation != "" ==>
              && request == Some(RouteRequest(fromStation, toStation, RequestDateTime(tomorrow, hours, minutes)))
              && State() == old(State()).(loadingRoute := true, routeDeps := Some(deps)))
        && (old(routeDeps) != Some(deps) && (fromStation == "" || toStation == "") ==>
              && request == None
              && State() == old(State()).(allRouteStops := [], routeDeps := Some(deps)))
    {
      ghost var before := State();
      var deps := RouteDeps(fromStation, toStation, hours, minutes);
      request := None;
      if routeDeps != Some(deps) {
        routeDeps := Some(deps);
        if fromStation != "" && toStation != "" {
          loadingRoute := true;
          request := Some(RouteRequest(fromStation, toStation, RequestDateTime(tomorrow, hours, minutes)));
          assert State() == before.(loadingRoute := true, routeDeps := Some(deps));
        } else {
          allRouteStops := [];
          assert State() == before.(allRouteStops := [], routeDeps := Some(deps));
        }
      }
    }

    /**
     * A route request has ended: a delivered `stops` array replaces the
     * route as it is, anything else leaves it; loading stops. The result
     * says whether the operator is alerted to a failure.
     */
    method ApplyRouteResponse(reply: RouteReply) returns (alert: bool)
      requires Valid()
      modifies this
      ensures Valid()
      ensures alert <==> reply.Failed?
      ensures State() == old(State()).(
        allRouteStops := if reply.Delivered? then reply.stops else old(allRouteStops),
        loadingRoute := false)
    {
      alert := false;
      match reply {
        case Delivered(stops) =>
          allRouteStops := stops;
        case WithoutStops =>
        case Failed =>
          alert := true;
      }
      loadingRoute := false;
    }

    /** The remove button next to an intermediate stop: every occurrence of it leaves the route. */
    method RemoveRouteStop(station: string)
      requires Valid()
      modifies this
      ensures Valid()
      ensures State() == old(State()).(allRouteStops := RemoveAll(old(allRouteStops), station))
      ensures IntermediateStops() == RemoveAll(old(IntermediateStops()), station)
    {
      IntermediateAfterRemoval(allRouteStops, fromStation, toStation, station);
      allRouteStops := RemoveAll(allRouteStops, station);
    }

    /** A notice chip is pressed: the notice is switched on (at the end) or off. */
    method ToggleNotice(notice: string)
      requires Valid() && notice in SpecialNotices
      modifies this
      ensures Valid()
      ensures State() == old(State()).(selectedNotices := Toggle(old(selectedNotices), notice))
    {
      ToggleKeepsNoDuplicates(selectedNotices, notice);
      ToggleFlipsOne(selectedNotices, notice);
      if notice in selectedNotices {
        selectedNotices := RemoveAll(selectedNotices, notice);
      } else {
        selectedNotices := selectedNotices + [notice];
      }
    }

    /**
     * The generate button: nothing when a required field is missing,
     * otherwise the announcement for the current selection.
     */
    method GenerateAnnouncement() returns (announcement: Option<string>)
      ensures announcement == Compose(trainType, fromStation, toStation, hours, minutes,
                                      IntermediateStops(), selectedNotices)
    {
      if trainType == "" || fromStation == "" || toStation == "" || hours == "" || minutes == "" {
        return None;
      }
      var timeStr := TimeOfDay(hours, minutes);
      var text := trainType + " van " + fromStation + " naar " + toStation;
      ghost var head := text;
      var stops := IntermediateStops();
      if |stops| > 0 {
        text := text + " via " + Join(stops, ", ");
      }
      assert text == head + ViaClause(stops);
      ghost var front := text;
      text := text + ", vertrekt om " + timeStr;
      assert text == front + DepartureClause(hours, minutes);
      front := text;
      if |selectedNotices| > 0 {
        text := text + ". " + Join(selectedNotices, ". ") + ".";
      }
      assert text == front + NoticeClause(selectedNotices);
      assert Compose(trainType, fromStation, toStation, hours, minutes, stops, selectedNotices)
          == Some(head + ViaClause(stops) + DepartureClause(hours, minutes) + NoticeClause(selectedNotices)) by {
        ComposeIsSentence(trainType, fromStation, toStation, hours, minutes, stops, selectedNotices);
      }
      return Some(text);
    }
  }

  lemma ExampleEdits()
    ensures EditField("", "9", MaxHours) == "9"
    ensures EditField("", "5", MaxMinutes) == "5"
  {
    assert DecimalValue("9") == 10 * DecimalValue("") + 9;
    assert DecimalValue("5") == 10 * DecimalValue("") + 5;
  }

  lemma ExampleRoute()
    ensures Intermediate(["Schagen", "Anna Paulowna", "Den Helder"], "Schagen", "Den Helder") == ["Anna Paulowna"]
  {
    var route := ["Schagen", "Anna Paulowna", "Den Helder"];
    assert route[1..][1..] == ["Den Helder"];
    assert WithoutEndpoints(["Den Helder"], "Schagen", "Den Helder") == [];
  }

  /**
   * A session on the screen: the 9:05 Intercity from Schagen to Den Helder,
   * announced via Anna Paulowna.
   */
  method SchagenToDenHelder()
  {
    var screen := new AnnouncementScreen();
    screen.SelectTrainType("Intercity");
    ExampleEdits();
    screen.EditHours("9");
    screen.EditMinutes("5");
    screen.SelectFrom("Schagen");
    screen.SelectTo("Den Helder");
    var request := screen.CommitRender("2026-10-12");
    assert request.Some? && request.value.from == "Schagen" && request.value.to == "Den Helder";
    assert screen.loadingRoute;

    var route := ["Schagen", "Anna Paulowna", "Den Helder"];
    var alert := screen.ApplyRouteResponse(Delivered(route));
    assert !alert && !screen.loadingRoute;
    ExampleRoute();
    assert screen.IntermediateStops() == ["Anna Paulowna"];
    var text := screen.GenerateAnnouncement();
    ComposeExampleVia();
    assert text == Some("Intercity van Schagen naar Den Helder via Anna Paulowna, vertrekt om 09:05");
  }

  /**
   * Clearing the destination empties the route; a reply still on its way
   * refills the route but brings back no intermediate stop.
   */
  method ClearThenLateReply(screen: AnnouncementScreen, tomorrow: string, route: seq<string>)
    requires screen.Valid()
    modifies screen
  {
    screen.ClearTo();
    var request := screen.CommitRender(tomorrow);
    assert request == None && screen.allRouteStops == [];
    var text := screen.GenerateAnnouncement();
    assert text == None;
    var alert := screen.ApplyRouteResponse(Delivered(route));
    assert screen.allRouteStops == route && screen.IntermediateStops() == [];
  }
}
