# Train announcement generator: a Dafny model of its screen logic

The application is a single screen on which an operator composes a Dutch
platform announcement: pick a train type, a departure time, a departure and
a destination station (with autocomplete over a station directory), prune the
intermediate stops of the route fetched from a route service, switch service
notices on and off, and generate the sentence
"Intercity van Schagen naar Den Helder via Anna Paulowna, vertrekt om 09:05. Rijdt niet."

The model covers the screen's state and text handling, file by concern:

- `strings.dfy` (`Strings`): the JavaScript string operations used — `trim`,
  `toLowerCase`, `includes`, `padStart(2, "0")`, `join`, the digit filter
  `replace(/[^0-9]/g, "")` and `parseInt` on digits.
- `seqs.dfy` (`Seqs`): sub-sequences, duplicate freedom, and `RemoveAll`, the
  `filter(e => e !== x)` idiom behind stop removal and notice removal.
- `station_matcher.dfy` (`StationMatcher`): the autocomplete suggestions.
- `route_stops.dfy` (`RouteStops`): the intermediate-stop view and the time sent
  with a route request.
- `notices.dfy` (`Notices`): the notice catalog and the toggle.
- `time_fields.dfy` (`TimeFields`): the hour and minute validators and "HH:MM".
- `announcement.dfy` (`Announcement`): the announcement template, as a function.
- `screen.dfy` (`Screen`): class `AnnouncementScreen` holds the screen's state
  (`trainType`, `fromStation`, `fromStationSearch`, `toStation`,
  `toStationSearch`, `allRouteStops`, `hours`, `minutes`, `selectedNotices`,
  `loadingRoute`) with one method per event handler. `Valid()` is the screen
  invariant (valid time fields, catalog values, no notice twice) and every
  handler keeps it. `State()` gives the whole state as one value, so each
  method states its complete new state. `GenerateAnnouncement` builds the text
  step by step and is proved equal to `Announcement.Compose`.
  Two client methods, `SchagenToDenHelder` and `ClearThenLateReply`, walk
  through whole sessions.

How the route is kept up to date: the screen re-runs its route effect after
a render whenever the departure, the destination, the hour or the minute
differs from the effect's previous run. `CommitRender` models this. The field
`routeDeps` records the values of the previous run, as the UI framework does.
When both endpoints are set, the effect marks the route as loading and returns
the `RouteRequest` to send. Otherwise it empties `allRouteStops`. The reply
comes back through `ApplyRouteResponse`, in any order and at any later time.
A delivered `stops` array replaces the route verbatim. A successful reply
whose JSON object has no `stops` array leaves the route alone and raises no
alert. A failed request leaves the route alone and raises an alert; this
includes a body that parses to `null`, because reading `data.stops` from it
throws and lands in the same `catch` (`app/index.tsx:180`, `184-189`).

Behaviour of the code worth knowing, which the model follows:
- Removing a stop removes every occurrence of it, not a single entry (`app/index.tsx:207`).
- The announcement lists notices in the order they were switched on, not in catalog order (`app/index.tsx:224`, `247`).
- Nothing discards a late route reply. A reply that arrives after an endpoint
  was cleared refills `allRouteStops`. `intermediateStops` stays empty anyway,
  because it checks both endpoints (`ClearThenLateReply` shows this).
- A reply whose JSON object lacks `stops` is not reported as a failure (`app/index.tsx:180-183`).

## Model

| member | source | states |
|---|---|---|
| `Strings.TrimStart` | app/index.tsx:68 | the result is a suffix of the input; everything cut off is white space; the result does not start with white space |
| `Strings.TrimEnd` | app/index.tsx:68 | the result is a prefix of the input; everything cut off is white space; the result does not end with white space |
| `Strings.Trim` | app/index.tsx:68 | the result is the piece of the input that starts where the leading white space ends; it is empty exactly when every character is white space |
| `Strings.TrimHasNoOuterWhitespace` | app/index.tsx:68 | the trimmed text neither starts nor ends with white space |
| `Strings.ToLowerChar` | app/index.tsx:69 | 'A'..'Z' become the matching 'a'..'z'; every other character stays |
| `Strings.ToLower` | app/index.tsx:69-72 | same length; every character is lower-cased as `ToLowerChar` states |
| `Strings.ToLowerIgnoresCase` | app/index.tsx:69-72 | two texts that differ only in the case of ASCII letters lower-case to the same text, so the match ignores case |
| `Strings.ContainsIffOccurs` | app/index.tsx:72 | `includes(t)` holds exactly when `t` occurs at some index of the string |
| `Strings.PadStart2` | app/index.tsx:142 | the result is the input preceded by zeros up to two characters; longer inputs are unchanged |
| `Strings.PadStart2Value` | app/index.tsx:237 | padding a digit string keeps it a digit string of the same value |
| `Strings.JoinEnds` | app/index.tsx:241-247 | no parts join to ""; otherwise the joined text starts with the first part and ends with the last |
| `Strings.JoinContainsParts` | app/index.tsx:241 | every part of a joined list occurs in the joined text |
| `Strings.KeepDigits` | app/index.tsx:300 | the result holds digits only, is no longer than the input, and is the input itself when that is all digits |
| `Strings.KeepDigitsInOrder` | app/index.tsx:300 | the digits kept are a sub-sequence of the input: they keep their order |
| `Strings.KeepDigitsCounts` | app/index.tsx:300 | every digit occurs in the result exactly as often as in the input |
| `Strings.DecimalValue` | app/index.tsx:303 | the value of a string of n digits is below 10^n |
| `Strings.PrefixValueAtMost` | app/index.tsx:305 | the first digits of a digit string never have a larger value than the whole |
| `Seqs.RemoveAll` | app/index.tsx:207 | an element is in the result exactly when it is in the input and differs from the removed one; never longer |
| `Seqs.RemoveAllKeepsOthers` | app/index.tsx:205-208 | removal keeps every other element as often as before and in its original order |
| `Seqs.RemoveAllAbsent` | app/index.tsx:205-208 | removing an absent element changes nothing |
| `Seqs.RemoveAllIdempotent` | app/index.tsx:205-208 | removing the same element twice equals removing it once |
| `Seqs.RemoveAllNoDuplicates` | app/index.tsx:222 | removal keeps a duplicate-free list duplicate-free |
| `StationMatcher.ExcludeChosen` | app/index.tsx:416 | the "to" field excludes exactly the chosen departure, and nothing when none is chosen |
| `StationMatcher.EligibleAppend` | app/index.tsx:70-74 | filtering a directory in two pieces gives the two filtered pieces in order |
| `StationMatcher.EligibleAt` | app/index.tsx:70-74 | a station that passes the filter stands in the filtered list right after the stations before it that pass |
| `StationMatcher.Suggestions` | app/index.tsx:67-75 | never more than 5 suggestions |
| `StationMatcher.EligibleExactly` | app/index.tsx:70-74 | a station passes the filter exactly when it is in the directory, its lower-cased name includes the search term and it is not excluded; directory order is kept |
| `StationMatcher.BlankQueryNoSuggestions` | app/index.tsx:68 | an empty or whitespace-only query gives no suggestions |
| `StationMatcher.SuggestionsSound` | app/index.tsx:67-75 | a sub-sequence of the directory, none excluded, each containing the lower-cased untrimmed query |
| `StationMatcher.EligiblePrefix` | app/index.tsx:70-74 | every prefix of the filtered list is in directory order and holds only stations that pass the filter |
| `StationMatcher.SuggestionsCount` | app/index.tsx:67-75 | a non-blank query shows as many stations as pass the filter, up to 5 |
| `StationMatcher.SuggestionsComplete` | app/index.tsx:70-74 | the suggestions are the first eligible stations: one preceded by fewer than 5 eligible stations is shown, at the position their count gives it |
| `RouteStops.WithoutEndpoints` | app/index.tsx:215-217 | a stop is kept exactly when it is on the route and is neither endpoint |
| `RouteStops.Intermediate` | app/index.tsx:211-218 | a stop is shown exactly when both endpoints are chosen, it is on the route and it is neither endpoint |
| `RouteStops.IntermediateIsRouteWithoutEndpoints` | app/index.tsx:211-218 | empty when an endpoint is empty; otherwise the route with every occurrence of both endpoints removed, in route order, other stops as often as before |
| `RouteStops.IntermediateAfterRemoval` | app/index.tsx:205-218 | removing a stop from the route removes exactly that stop from the intermediate stops |
| `RouteStops.RequestTimeReadsBack` | app/index.tsx:140-160 | the request time reads "HH:MM" and carries the chosen hour and minute when both are set, 10:00 otherwise |
| `RouteStops.RequestDateTime` | app/index.tsx:149-157 | the request's `dateTime` is tomorrow's date, a `T`, then the request time |
| `TimeFields.EditField` | app/index.tsx:298-307 | the field either keeps its text or becomes the first (at most two) digits of the typed text |
| `TimeFields.EditFieldOutcome` | app/index.tsx:298-307 | an out-of-range edit leaves the field unchanged; an accepted one stores the first (at most two) typed digits |
| `TimeFields.EditFieldKeepsValid` | app/index.tsx:317-326 | after any edit a field is empty or one or two digits within its range |
| `TimeFields.EditFieldShortText` | app/index.tsx:298-310 | an accepted text of at most two characters (the field's length limit) is stored as its digits |
| `TimeFields.TimeOfDay` | app/index.tsx:142 | for fields of at most two characters the time has five characters with a colon in the middle |
| `TimeFields.TimeOfDayReadsBack` | app/index.tsx:237 | for chosen valid fields "HH:MM" has length 5, a colon in the middle, and digits with the hour's and the minute's values |
| `Notices.Toggle` | app/index.tsx:220-226 | the notice is in the result exactly when it was not selected; every other notice stays in or out |
| `Notices.ToggleFlipsOne` | app/index.tsx:220-226 | toggling flips the membership of that notice only; switching on appends at the end; switching off keeps the others' order |
| `Notices.ToggleTwiceRestores` | app/index.tsx:220-226 | switching an absent notice on and off restores the list exactly |
| `Notices.ToggleKeepsNoDuplicates` | app/index.tsx:220-226 | a duplicate-free selection stays duplicate-free |
| `Notices.CatalogHasNoDuplicates` | app/index.tsx:29-46 | the notice catalog names each notice once |
| `Announcement.Compose` | app/index.tsx:228-248 | no text exactly when the train type, an endpoint, the hour or the minute is empty |
| `Announcement.ComposeMentionsEverything` | app/index.tsx:237-248 | the text opens with "T van " and contains both endpoints, every intermediate stop and every notice |
| `Announcement.ComposeEnding` | app/index.tsx:244-248 | with valid time fields the text ends in "." exactly when notices were selected; without notices it ends with "HH:MM" |
| `Announcement.ComposeExampleDirect` | app/index.tsx:237-244 | Intercity, Schagen, Den Helder, 9, 5 gives "Intercity van Schagen naar Den Helder, vertrekt om 09:05" |
| `Announcement.ComposeExampleVia` | app/index.tsx:240-242 | with the stop Anna Paulowna the text gains " via Anna Paulowna" before the time |
| `Announcement.ComposeExampleNotice` | app/index.tsx:246-248 | with the notice "Rijdt niet" the text ends in ". Rijdt niet." |
| `Screen.TrainTypesDistinct` | app/index.tsx:17-27 | the catalog offers nine train types, each once |
| `Screen.AnnouncementScreen.constructor` | app/index.tsx:114-123 | every field starts empty, no route, no notices, not loading; the invariant holds |
| `Screen.AnnouncementScreen.IntermediateStops` | app/index.tsx:211-218 | empty when an endpoint is empty; a sub-sequence of the route containing neither endpoint |
| `Screen.AnnouncementScreen.FromSuggestions` | app/index.tsx:338-343 | at most 5 directory stations in order, each matching the "from" search text |
| `Screen.AnnouncementScreen.ToSuggestions` | app/index.tsx:411-417 | as for "from", and the chosen departure is never offered |
| `Screen.AnnouncementScreen.SelectTrainType` | app/index.tsx:274 | only the train type changes, to the pressed catalog entry |
| `Screen.AnnouncementScreen.EditHours` | app/index.tsx:298-307 | only the hours change, as the validator says; the hours stay valid |
| `Screen.AnnouncementScreen.EditMinutes` | app/index.tsx:317-326 | only the minutes change, as the validator says; the minutes stay valid |
| `Screen.AnnouncementScreen.SetFromSearch` | app/index.tsx:340 | only the "from" search text changes |
| `Screen.AnnouncementScreen.SetToSearch` | app/index.tsx:413 | only the "to" search text changes |
| `Screen.AnnouncementScreen.SelectFrom` | app/index.tsx:125-128 | the departure and its search text become the picked station; nothing else changes |
| `Screen.AnnouncementScreen.SelectTo` | app/index.tsx:130-133 | the destination and its search text become the picked station; nothing else changes |
| `Screen.AnnouncementScreen.ClearFrom` | app/index.tsx:348-352 | departure, its search text and the route become empty, so no intermediate stops remain |
| `Screen.AnnouncementScreen.ClearTo` | app/index.tsx:429-433 | destination, its search text and the route become empty, so no intermediate stops remain |
| `Screen.AnnouncementScreen.CommitRender` | app/index.tsx:195-203 | with unchanged dependencies nothing happens; otherwise both endpoints set issues a request for tomorrow at the request time and sets loading, and a missing endpoint empties the route |
| `Screen.AnnouncementScreen.ApplyRouteResponse` | app/index.tsx:174-192 | a delivered stops array replaces the route verbatim, anything else leaves it; loading ends; an alert exactly on failure |
| `Screen.AnnouncementScreen.RemoveRouteStop` | app/index.tsx:205-208 | only the route changes: every occurrence of the stop goes, and the intermediate stops lose exactly that stop |
| `Screen.AnnouncementScreen.ToggleNotice` | app/index.tsx:220-226 | only the notice selection changes, by the toggle; it stays duplicate-free and within the catalog |
| `Screen.AnnouncementScreen.GenerateAnnouncement` | app/index.tsx:228-251 | the built text equals the announcement template for the current selection, intermediate stops and notices, or nothing when incomplete |

## Left out

- Rendering, styles, the suggestion pop-up's visibility flag and its blur timer (`app/index.tsx:65`, `88-93`, `253-706`): presentation only.
- The HTTP call, JSON encoding and decoding, `Alert.alert` and `console.error`. `CommitRender` returns the request. The reply comes in as a `RouteReply`. The alert is a boolean result. `GenerateAnnouncement` returns the text it would show. None of this is I/O the model can perform.
- Tomorrow's date: the "YYYY-MM-DD" prefix of `dateTime` comes from the host clock and calendar. It is the parameter `tomorrow` of `CommitRender`.
- Loading the station directory from `stations.json`: the directory is a parameter `seq<string>` of the suggestion functions.
- Overlapping route requests: replies may be applied in any order, and the last one applied wins. Nothing in the model tracks which request a reply answers, because nothing in the code does.
- `Strings.ToLower`: lower-cases only the ASCII letters A–Z. JavaScript's `toLowerCase` also maps other Unicode letters, and the model does not capture case folding outside ASCII.
- `Strings.DecimalValue`: `parseInt` returns a floating-point number. The model uses an unbounded integer instead. The comparisons with 23 and 59 come out the same, because rounding cannot bring a value of 24 or more down to 23 or less.
- The text fields' `maxLength={2}` (`app/index.tsx:310`, `329`) is enforced by the platform's input widget. The edit methods accept any text, and `EditFieldShortText` states what happens under that limit.
