# Travel Radius Explorer: a Dafny model of the widget logic

The Travel Radius Explorer widget lets a user fix their location, pick a
search mode (a radius in kilometres, or a maximum travel time in minutes),
and see either a ring of 16 simulated "street intersections" around them or
a list of mock places they can reach in time. The repository has two
near-duplicate components:

- `TravelRadiusApp`, built on a commercial map SDK. Its ring points carry a random travel time.
- `TravelRadiusExplorer`, built on an open-source map library. Its ring points carry a deterministic travel time, and its recommendations are re-numbered after filtering.

This project models the logic of both components as pure functions over
immutable values:

- the location request and the loading flag it raises and lowers;
- the ring generators;
- the travel-time filter over each mock catalog;
- the conversion of the radius to metres for the map circle (and, in the second component, for the fitted bounds);
- the slider bounds;
- the results panel, which shows at most 8 cards;
- for each component, the state reached after every user event, with the invariants that state keeps.

Modules:

- `Widget` (`widget.dfy`): the types both components share. These are the optional location, the coordinate, the fallback location, the geolocation outcome, the mode, the slider bounds, the range-input clamp, km to metres, the loading-bracket predicate, and `Settle` (the state a handler leaves).
- `Places` (`places.dfy`): a catalog entry and the inclusive travel-time filter, with its order, idempotence and monotonicity lemmas, plus the filter written as a loop.
- `Ring` (`ring.dfy`): the 16-point ring, its bearings `i * 360 / 16`, and an opaque position per point.
- `TravelRadiusApp` (`travel_radius_app.dfy`) and `TravelRadiusExplorer` (`travel_radius_explorer.dfy`): one module per component.

Modelling conventions:

- **Handlers as update sequences.** A handler that calls several React state setters is modelled as the sequence of states after each setter call, in order. Its final state is the last one.
- **Random draws.** `Math.random()` is an input: a real `u` with `0 <= u < 1`, one per ring point.
- **Browser answer.** The location button's handler only starts a geolocation request; the browser runs its success or error callback later. The click and the callback are therefore two separate events. Whether the browser has a geolocation API is an input of the click. The callback's outcome is an input too, `Geolocation`: granted with coordinates, or denied.
- **Sessions.** Each component's state between events is paired with two flags. One says whether a started request still waits for its callback. The other, in the second component only, says whether a request found no geolocation API. A click on a disabled button does nothing.
- **Map SDK loaded.** Whether the map SDK has loaded (`window.google`) is a boolean input. So is whether the map object exists.
- **Ratings.** Ratings such as 4.5 are kept in tenths of a star (45).
- **Positions.** Every point position is floating-point trigonometry, so it is kept as an opaque description of how the point was placed. A ring point is an `Offset` (centre, radius, bearing) and a recommendation is a `Spot` (centre, index).

Facts about the code the model relies on:

- Both components hard-code 16 ring points (`Ring.RingSize`).
- No handler checks the radius or the time limit. Only the range sliders bound them, and `Widget.RangeInput` models that clamp. Each component's `StepPreservesInv` then proves the bounds hold between events.
- Ring positions are distinct as placement descriptions (bearings 22.5 degrees apart) for a radius of at least 1 km, the slider minimum. At radius 0 all 16 points would coincide with the centre, so no distinctness is claimed there.

## Model

| member | source | states |
|---|---|---|
| `Places.WithinTime` | src/components/TravelRadiusApp.js:147-153 | every recommended place comes from the catalog and is within the limit; every catalog entry whose travel time is at most the limit (equal included) is recommended |
| `Places.WithinTimeKeepsOrder` | src/components/TravelRadiusApp.js:147-153 | the recommendations keep the catalog's relative order, and there are exactly as many as catalog entries within the limit |
| `Places.WithinTimeIdempotent` | src/components/TravelRadiusApp.js:147-153 | filtering the recommendations again with the same limit returns them unchanged |
| `Places.WithinTimeAllPass` | src/components/TravelRadiusApp.js:147-153 | when every entry is within the limit, the whole catalog is recommended in order |
| `Places.WithinTimeNonePass` | src/components/TravelRadiusApp.js:147-153 | when no entry is within the limit, nothing is recommended |
| `Places.WithinTimeMonotone` | src/components/TravelRadiusApp.js:147-153 | raising the limit never removes a recommendation: the shorter list is an ordered sublist of the longer one |
| `Places.FilterWithinTime` | src/components/TravelRadiusApp.js:153 | the filter as a front-to-back loop that appends each entry within the limit gives exactly `WithinTime` |
| `Widget.RangeInput` | src/components/TravelRadiusExplorer.js:196-215 | a slider value always lies in the slider's range (1..50 km, 15..180 min); a value already in range passes through unchanged, and one outside it is pinned to the nearer end |
| `Widget.Metres` | src/components/TravelRadiusApp.js:87 | the radius in metres is a whole multiple of 1000 that converts back to the radius in kilometres |
| `Ring.Bearing` | src/components/TravelRadiusApp.js:106 | the i-th bearing lies in [0, 360) and is i/16 of a full turn |
| `Ring.BearingsEvenlySpaced` | src/components/TravelRadiusApp.js:103-106 | bearings increase with the index in steps of exactly 22.5 degrees |
| `Ring.RingPositionsDistinct` | src/components/TravelRadiusExplorer.js:69-76 | for a radius of at least 1 km, two different indices never give the same ring placement (centre, radius, bearing); coordinates are not modelled |
| `Ring.RingPositionsAllDistinct` | src/components/TravelRadiusApp.js:105-112 | for a radius of at least 1 km, no two points of one ring share a placement (bearing); coordinates are not modelled |
| `TravelRadiusApp.RequestLocation` | src/components/TravelRadiusApp.js:44-67 | the click raises the loading flag first. With a geolocation API only the flag changes, and it stays up for the callback. Without one the flag comes straight back down and nothing else changes |
| `TravelRadiusApp.LocationAnswer` | src/components/TravelRadiusApp.js:48-62 | the callback lowers the flag last. A success stores the reported coordinates, an error stores the Belgrade fallback, and nothing else changes |
| `TravelRadiusApp.GetCurrentLocation` | src/components/TravelRadiusApp.js:44-68 | the click followed at once by its callback. The loading flag goes up first and comes down last on all three paths. A granted request stores the reported coordinates, a denied one stores the Belgrade fallback, and a missing geolocation API leaves the location as it was. Nothing else changes |
| `TravelRadiusApp.AnsweredRequestIsGetCurrentLocation` | src/components/TravelRadiusApp.js:44-68 | a click on the enabled location button, then the callback, leaves the session exactly where the whole handler does, with no request pending. Without a geolocation API the click alone does |
| `TravelRadiusApp.EstimatedTime` | src/components/TravelRadiusApp.js:113 | for a draw in [0, 1) and a radius R of at least 1 km, the simulated travel time lies in [10, 8R + 9] |
| `TravelRadiusApp.EstimatedTimeAttainable` | src/components/TravelRadiusApp.js:113 | every time in [10, 8R + 9] comes from some draw, so that range is exact |
| `TravelRadiusApp.Intersections` | src/components/TravelRadiusApp.js:102-116 | exactly 16 points in id order 0..15, all of type "intersection". For a radius R of at least 1 km they have pairwise distinct placements (bearings), and for draws in [0, 1) each time lies within [10, 8R + 9] |
| `TravelRadiusApp.BuildIntersections` | src/components/TravelRadiusApp.js:105-116 | the generating loop, which pushes one point per index, produces exactly the ring `Intersections` describes |
| `TravelRadiusApp.FindIntersectionPoints` | src/components/TravelRadiusApp.js:95-138 | with no location, or before the map SDK has loaded, nothing happens. Otherwise the loading flag brackets the work and the ring replaces the listed points, with nothing else changed |
| `TravelRadiusApp.FindRecommendations` | src/components/TravelRadiusApp.js:141-157 | with no location nothing happens. Otherwise the loading flag brackets the work and the filtered catalog replaces the recommendations, with nothing else changed |
| `TravelRadiusApp.CatalogAtDefaultLimit` | src/components/TravelRadiusApp.js:147-153 | at the default limit of 60 minutes all five places are recommended |
| `TravelRadiusApp.CatalogAtMinimumLimit` | src/components/TravelRadiusApp.js:147-153 | at the slider minimum of 15 minutes no place is recommended |
| `TravelRadiusApp.CatalogAtThirtyMinutes` | src/components/TravelRadiusApp.js:147-153 | at 30 minutes exactly "City Park" then "Riverside Café" are recommended |
| `TravelRadiusApp.DrawCircle` | src/components/TravelRadiusApp.js:71-92 | a circle is drawn exactly when the map exists and a location is known. It is centred on the location, with the radius converted to metres |
| `TravelRadiusApp.PointCards` | src/components/TravelRadiusApp.js:311-317 | the panel shows the first min(8, n) points in list order, card j numbered (point j's id) + 1 and showing its time |
| `TravelRadiusApp.RingCards` | src/components/TravelRadiusApp.js:311-315 | for a generated ring the panel shows exactly 8 cards, numbered 1 to 8 |
| `TravelRadiusApp.InitialInv` | src/components/TravelRadiusApp.js:5-12 | the first-render state (no location, radius 5, limit 60, distance mode, empty lists, no request pending) satisfies the session invariant |
| `TravelRadiusApp.StepPreservesInv` | src/components/TravelRadiusApp.js:44-290 | after every event, including clicks on disabled buttons and events while a request is pending, the sliders are in range. The widget is loading exactly while a started request waits for its callback. With no location both lists are empty, a listed ring is well formed, and the recommendations are an ordered sublist of the catalog |
| `TravelRadiusApp.FoundRingShowsEightCards` | src/components/TravelRadiusApp.js:307-315 | after "Find Street Intersections" is clicked in distance mode, with a location and the map SDK loaded, the intersections panel is shown with exactly 8 cards, numbered 1 to 8 |
| `TravelRadiusApp.ChooseModeOnlyChangesMode` | src/components/TravelRadiusApp.js:204-225 | selecting a mode radio sets the mode to the choice and changes nothing else in the session |
| `TravelRadiusExplorer.RequestLocation` | src/components/TravelRadiusExplorer.js:51-53 | the click raises the loading flag first. As written, only the flag changes whether or not there is a geolocation API. The repaired click lowers it again, with nothing else changed, when there is no API |
| `TravelRadiusExplorer.LocationAnswer` | src/components/TravelRadiusExplorer.js:54-62 | the callback lowers the flag last. A success stores the reported coordinates, an error stores the Belgrade fallback, and nothing else changes |
| `TravelRadiusExplorer.GetLocAsWritten` | src/components/TravelRadiusExplorer.js:51-63 | the loading flag goes up first. When geolocation answers, the flag is lowered last: a success stores the coordinates, an error the Belgrade fallback, and nothing else changes. When the API is missing, the only change is the raised flag |
| `TravelRadiusExplorer.GetLocAsWrittenStaysLoading` | src/components/TravelRadiusExplorer.js:51-63 | without a geolocation API the widget is left loading with its old location, so the loading flag is never lowered |
| `TravelRadiusExplorer.GetLoc` | src/components/TravelRadiusExplorer.js:51-63 | corrected request. The flag goes up first and comes down last on every path. A success stores the coordinates, an error stores the Belgrade fallback, a missing API keeps the old location, and nothing else changes |
| `TravelRadiusExplorer.GetLocAgreesWhenAnswered` | src/components/TravelRadiusExplorer.js:51-63 | whenever the browser answers, the handler as written and the corrected one produce the same updates |
| `TravelRadiusExplorer.RingTime` | src/components/TravelRadiusExplorer.js:80 | a ring point's time is always one of 20, 25, 30, 35, 40 |
| `TravelRadiusExplorer.RingTimePeriodic` | src/components/TravelRadiusExplorer.js:80 | the time label repeats with period 5 |
| `TravelRadiusExplorer.Points` | src/components/TravelRadiusExplorer.js:66-85 | exactly 16 points in id order 0..15, each carrying the time label of its index. For a radius of at least 1 km they have pairwise distinct placements (bearings) |
| `TravelRadiusExplorer.PointTimesIgnoreWhere` | src/components/TravelRadiusExplorer.js:77-82 | time labels depend only on the index, not on the location or radius; they repeat every 5 points and lie in [20, 40] |
| `TravelRadiusExplorer.BuildPoints` | src/components/TravelRadiusExplorer.js:69-83 | the generating loop, which pushes one point per index, produces exactly the ring `Points` describes |
| `TravelRadiusExplorer.GenPoints` | src/components/TravelRadiusExplorer.js:66-85 | with no location the state is unchanged. Otherwise only the points change, to the ring around the location at the current radius |
| `TravelRadiusExplorer.GenPointsIdempotent` | src/components/TravelRadiusExplorer.js:66-85 | generating the ring twice gives the same state as generating it once |
| `TravelRadiusExplorer.Recs` | src/components/TravelRadiusExplorer.js:89-109 | the list is as long as the filtered catalog; entry i carries the i-th kept place's fields, id i and a placeholder spot for index i |
| `TravelRadiusExplorer.RecsExactlyWithin` | src/components/TravelRadiusExplorer.js:95-103 | every listed place is a catalog entry within the limit (equal included), and every catalog entry within the limit is listed |
| `TravelRadiusExplorer.RecsOrdered` | src/components/TravelRadiusExplorer.js:95-99 | the list keeps catalog order, and its ids are exactly 0..k-1 in list order |
| `TravelRadiusExplorer.RecsListBase` | src/components/TravelRadiusExplorer.js:95-103 | the catalog entries read back from the list are exactly the filtered catalog |
| `TravelRadiusExplorer.RecsAtThirtyMinutes` | src/components/TravelRadiusExplorer.js:89-99 | at 30 minutes the list is "City Park" with id 0, then "Riverside Café" with id 1 |
| `TravelRadiusExplorer.GenRecs` | src/components/TravelRadiusExplorer.js:87-110 | with no location the state is unchanged. Otherwise only the recommendations change, to the numbered filtered catalog |
| `TravelRadiusExplorer.MapView` | src/components/TravelRadiusExplorer.js:117-132 | the map is shown exactly when a location is known. The circle is centred on it with the radius in metres, and the fitted box's side is twice the circle radius |
| `TravelRadiusExplorer.PointCards` | src/components/TravelRadiusExplorer.js:283-288 | the panel shows the first min(8, n) points in list order, card j numbered (point j's id) + 1 and showing its time |
| `TravelRadiusExplorer.RingCards` | src/components/TravelRadiusExplorer.js:279-290 | for a generated ring the panel shows cards 1..8 with times 20, 25, 30, 35, 40, 20, 25, 30 |
| `TravelRadiusExplorer.AnsweredRequestIsGetLoc` | src/components/TravelRadiusExplorer.js:51-63 | with the corrected handler, a click on the enabled location button, then the callback, leaves the session where the whole handler and the following re-render do. Without a geolocation API the click alone does |
| `TravelRadiusExplorer.Rendered` | src/components/TravelRadiusExplorer.js:112-114 | the effect after a render changes at most the points. In distance mode with a location, when the mode, the location or the radius changed, the points become the ring for the current location and radius; otherwise nothing changes |
| `TravelRadiusExplorer.StepKeepsLoadingFlag` | src/components/TravelRadiusExplorer.js:65-226 | with either click handler, the mode radios, the sliders and the green button leave the loading flag, the pending request and the stranded state as they were |
| `TravelRadiusExplorer.InitialInv` | src/components/TravelRadiusExplorer.js:42-48 | the first-render state, with no request started, satisfies the session invariant for either click handler |
| `TravelRadiusExplorer.StepPreservesInv` | src/components/TravelRadiusExplorer.js:40-226 | for the code as written and for the corrected click, every event keeps the sliders in range. This includes clicks on disabled buttons and events while a request is pending. With no location both lists are empty, and recommendation ids equal their positions. In distance mode with a location, the listed ring is the one for the current location and radius. The widget is loading exactly while a request is pending or, as written only, after a request found no geolocation API |
| `TravelRadiusExplorer.RepairedLoadsOnlyWhilePending` | src/components/TravelRadiusExplorer.js:40-226 | with the corrected click, after any event the widget is loading exactly when a started request waits for its callback |
| `TravelRadiusExplorer.StrandedForever` | src/components/TravelRadiusExplorer.js:51-63 | as written, once a click found no geolocation API, every later event leaves the widget loading with the same location: the location button stays disabled and no callback comes |
| `TravelRadiusExplorer.StrandedFromStart` | src/components/TravelRadiusExplorer.js:51-63 | as written, one click from the first render in a browser without geolocation strands the widget. The corrected click leaves it not loading |

## Left out

- Haversine distance (`distKm`) and the `dist` field of the second component's ring points: floating-point trigonometry. Positions are the opaque `Ring.Offset` and `TravelRadiusExplorer.Spot`.
- The latitude/longitude of ring points and of recommendation placeholders: floating-point trigonometry. The model records only the centre, radius and bearing, or the centre and index.
- Floating-point rounding of `Math.random() * (radius * 8)`: the product is taken over the reals. IEEE rounding is assumed never to push it up to `radius * 8`.
- Map SDK script injection, map creation, marker placement, removal of the old circle and `fitBounds` in the first component: foreign library and DOM calls. Old markers are never removed there; this model does not track markers.
- Leaflet icon patch, `MapContainer`, `TileLayer`, and the `invalidateSize` and load-event handling in `FitBounds`: foreign library. Only the circle and fitted-box sizes are modelled.
- The browser geolocation call itself, `alert` and `console.error`: browser I/O. The callback is an event carrying the answer. A request whose callback never comes simply leaves the session pending.
- React's batching of setter calls into renders: each setter call is one update in the modelled sequence.
- How disabled buttons are drawn: presentation only. A click on a disabled button is an event that changes nothing. The radios and sliders are never disabled, so they act while a request is pending, and so does the second component's green button once a location is known.
- The first component stores the raw radio value as its mode. Only the two radio values can occur, so the mode is the two-valued `Widget.Mode`.
- Markup, styling, icons, the header count of the intersections panel, and the recommendations panel markup: presentation only.
- `src/app/page.js`: a client-only dynamic import with no logic.
- `TravelRadiusApp.StepPreservesInv`: each event runs to completion and re-renders before the next one. A second click that lands before React has re-rendered the disabled button is not modelled.
- `TravelRadiusExplorer.StepPreservesInv`: each event runs to completion and re-renders before the next one. A second click that lands before React has re-rendered the disabled button is not modelled.
- `TravelRadiusApp.StepPreservesInv`: it bounds listed intersection times by the largest radius (at most 409 minutes), not by the current radius. The radius can change after the points were generated, and the first component does not regenerate them.

## Findings

| source | as written | input that shows it | evidently intended | confidence | as-written member | corrected member |
|---|---|---|---|---|---|---|
| src/components/TravelRadiusExplorer.js:51-63 | The location request raises `isLoading`, then calls `getCurrentPosition` through optional chaining. When the API is missing the call is skipped, and `isLoading` is never lowered. The location button stays disabled while loading, so it cannot be retried | a browser without `navigator.geolocation` | lower the flag on that path, as the first component does at src/components/TravelRadiusApp.js:64-67. The corrected handler brackets the flag on every path, and the repaired sessions are loading only while a request is pending (`TravelRadiusExplorer.RepairedLoadsOnlyWhilePending`) | medium; not executed | `TravelRadiusExplorer.StrandedForever` | `TravelRadiusExplorer.GetLoc` |
