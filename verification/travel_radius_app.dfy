/**
  The map-SDK variant of the widget (`TravelRadiusApp`): its state, the
  location request, the random-time intersection ring, the five-entry
  recommendation catalog, the map circle and the results panel. Each event
  handler that calls several state setters is modelled as the sequence of
  states after each setter call, in call order.
 */
module TravelRadiusApp {
  import opened Widget
  import opened Places
  import opened Ring

  /** One simulated street intersection; `kind` is always "intersection". */
  datatype Intersection = Intersection(id: nat, position: Offset, estimatedTime: int, kind: string)

  /** The component's state hooks (the map object and refs belong to the map SDK and are left out). */
  datatype State = State(
    location: Option<Coord>,
    isLoading: bool,
    radiusKm: int,
    maxTravelTime: int,
    mode: Mode,
    intersections: seq<Intersection>,
    recommendations: seq<Place>)

  /** The state on first render. */
  const Initial: State := State(None, false, DefaultRadiusKm, DefaultTravelMinutes, Distance, [], [])

  /** The mock places `findRecommendations` filters. */
  const Catalog: seq<Place> := [
    Place("City Park", "Park", 25, 45),
    Place("Art Museum", "Museum", 35, 47),
    Place("Historic District", "Attraction", 45, 43),
    Place("Riverside Café", "Restaurant", 20, 46),
    Place("Shopping Center", "Shopping", 50, 42)
  ]

  /** Whether the widget shows its loading state. */
  function Busy(s: State): bool
  {
    s.isLoading
  }

  /**
    The part of `getCurrentLocation` that runs on the click. With a
    geolocation API the request is only started and the flag stays up until
    its callback runs; without one the flag comes straight back down.
   */
  function RequestLocation(s: State, supported: bool): (updates: seq<State>)
    ensures 0 < |updates| && Busy(updates[0])
    ensures supported ==> Settle(s, updates) == s.(isLoading := true)
    ensures !supported ==> LoadingBracket(updates, Busy) && Settle(s, updates) == s.(isLoading := false)
  {
    var busy := s.(isLoading := true);
    if supported then [busy] else [busy, busy.(isLoading := false)]
  }

  /**
    The success or error callback of a started request: store the reported
    position, or the Belgrade fallback on an error, then lower the flag.
   */
  function LocationAnswer(s: State, g: Geolocation): (updates: seq<State>)
    requires !g.Unsupported?
    ensures 0 < |updates| && !Busy(updates[|updates| - 1])
    ensures Settle(s, updates) == s.(location := Settle(s, updates).location, isLoading := false)
    ensures g.Granted? ==> Settle(s, updates).location == Some(g.at)
    ensures g.Denied? ==> Settle(s, updates).location == Some(Fallback)
  {
    var located := s.(location := Some(if g.Granted? then g.at else Fallback));
    [located, located.(isLoading := false)]
  }

  /**
    `getCurrentLocation` with its callback run straight away: the click's
    updates followed, when there is a geolocation API, by the callback's.
   */
  function GetCurrentLocation(s: State, g: Geolocation): (updates: seq<State>)
    ensures LoadingBracket(updates, Busy)
    ensures Settle(s, updates) == s.(location := Settle(s, updates).location, isLoading := false)
    ensures g.Granted? ==> Settle(s, updates).location == Some(g.at)
    ensures g.Denied? ==> Settle(s, updates).location == Some(Fallback)
    ensures g.Unsupported? ==> Settle(s, updates).location == s.location
  {
    var asked := RequestLocation(s, !g.Unsupported?);
    if g.Unsupported? then asked else asked + LocationAnswer(Settle(s, asked), g)
  }

  /**
    `Math.floor(Math.random() * (radius * 8)) + 10`, where `u` is the value
    `Math.random()` returned. For a radius of at least 1 km the time lies in
    [10, 8 * radius + 9] (see also `EstimatedTimeAttainable`).
   */
  function EstimatedTime(u: real, radiusKm: int): (t: int)
    ensures 0.0 <= u < 1.0 && 1 <= radiusKm ==> 10 <= t <= 8 * radiusKm + 9
  {
    ScaledDrawFloor(u, radiusKm * 8);
    (u * (radiusKm * 8) as real).Floor + 10
  }

  /** `Math.floor(u * k)` for a draw `u` in [0, 1) and a positive integer `k` lies in [0, k). */
  lemma ScaledDrawFloor(u: real, k: int)
    ensures 0.0 <= u < 1.0 && 1 <= k ==> 0 <= (u * k as real).Floor < k
  {
    if 0.0 <= u < 1.0 && 1 <= k {
      ScaledBelow(u, k as real);
      FloorWithin(u * k as real, k);
    }
  }

  /** A draw in [0, 1) scaled by a positive `n` lies in [0, n). */
  lemma ScaledBelow(u: real, n: real)
    requires 0.0 <= u < 1.0 && 0.0 < n
    ensures 0.0 <= u * n < n
  {
  }

  /** The floor of a value in [0, k) lies in [0, k). */
  lemma FloorWithin(x: real, k: int)
    requires 0.0 <= x < k as real
    ensures 0 <= x.Floor < k
  {
  }

  /** Dividing by a positive `n` and scaling back returns the dividend. */
  lemma Unscale(a: real, n: real)
    requires 0.0 <= a < n
    ensures 0.0 <= a / n < 1.0 && (a / n) * n == a
  {
  }

  /** Every time in [10, 8 * radius + 9] is produced by some random draw. */
  lemma EstimatedTimeAttainable(t: int, radiusKm: int)
    requires 1 <= radiusKm && 10 <= t <= 8 * radiusKm + 9
    ensures exists u: real :: 0.0 <= u < 1.0 && EstimatedTime(u, radiusKm) == t
  {
    var n := (radiusKm * 8) as real;
    var u := (t - 10) as real / n;
    Unscale((t - 10) as real, n);
    assert ((t - 10) as real).Floor == t - 10;
    assert EstimatedTime(u, radiusKm) == t;
  }

  /** One `Math.random()` value per ring point, each in [0, 1). */
  predicate RandomDraws(draws: seq<real>)
  {
    |draws| == RingSize && forall i :: 0 <= i < |draws| ==> 0.0 <= draws[i] < 1.0
  }

  /** The points `findIntersectionPoints` builds around `center`, given the random draws. */
  function Intersections(center: Coord, radiusKm: int, draws: seq<real>): (points: seq<Intersection>)
    requires |draws| == RingSize
    ensures |points| == RingSize
    ensures forall i :: 0 <= i < |points| ==> points[i].id == i && points[i].kind == "intersection"
    ensures 1 <= radiusKm ==> forall i, j :: 0 <= i < j < |points| ==> points[i].position != points[j].position
    ensures RandomDraws(draws) && 1 <= radiusKm ==>
      forall i :: 0 <= i < |points| ==> 10 <= points[i].estimatedTime <= 8 * radiusKm + 9
  {
    var ring := seq(RingSize, i requires 0 <= i < RingSize =>
      Intersection(i, RingPosition(center, radiusKm, i), EstimatedTime(draws[i], radiusKm), "intersection"));
    if 1 <= radiusKm then RingPositionsAllDistinct(center, radiusKm); ring else ring
  }

  /** The `for` loop of `findIntersectionPoints`, pushing one point per index. */
  method BuildIntersections(center: Coord, radiusKm: int, draws: seq<real>) returns (points: seq<Intersection>)
    requires |draws| == RingSize
    ensures points == Intersections(center, radiusKm, draws)
  {
    ghost var ring := Intersections(center, radiusKm, draws);
    points := [];
    var i := 0;
    while i < RingSize
      invariant 0 <= i <= RingSize
      invariant points == ring[..i]
    {
      var p := Intersection(i, RingPosition(center, radiusKm, i), EstimatedTime(draws[i], radiusKm), "intersection");
      assert ring[..i + 1] == ring[..i] + [p];
      points := points + [p];
      i := i + 1;
    }
  }

  /**
    `findIntersectionPoints`: nothing happens without a location or before the
    map SDK has loaded; otherwise the ring replaces the listed points while
    the loading flag is up.
   */
  function FindIntersectionPoints(s: State, mapsLoaded: bool, draws: seq<real>): (updates: seq<State>)
    requires |draws| == RingSize
    ensures |updates| == 0 <==> s.location.None? || !mapsLoaded
    ensures 0 < |updates| ==> LoadingBracket(updates, Busy)
    ensures 0 < |updates| ==>
      Settle(s, updates) == s.(intersections := Intersections(s.location.value, s.radiusKm, draws), isLoading := false)
  {
    if s.location.None? || !mapsLoaded then []
    else
      var busy := s.(isLoading := true);
      var listed := busy.(intersections := Intersections(s.location.value, s.radiusKm, draws));
      [busy, listed, listed.(isLoading := false)]
  }

  /**
    `findRecommendations`: nothing happens without a location; otherwise the
    catalog entries within the travel-time limit replace the listed ones
    while the loading flag is up.
   */
  function FindRecommendations(s: State): (updates: seq<State>)
    ensures |updates| == 0 <==> s.location.None?
    ensures 0 < |updates| ==> LoadingBracket(updates, Busy)
    ensures 0 < |updates| ==>
      Settle(s, updates) == s.(recommendations := WithinTime(Catalog, s.maxTravelTime), isLoading := false)
  {
    if s.location.None? then []
    else
      var busy := s.(isLoading := true);
      var listed := busy.(recommendations := WithinTime(Catalog, s.maxTravelTime));
      [busy, listed, listed.(isLoading := false)]
  }

  /** At the default limit of 60 minutes every catalog entry is recommended. */
  lemma CatalogAtDefaultLimit()
    ensures WithinTime(Catalog, DefaultTravelMinutes) == Catalog
  {
    WithinTimeAllPass(Catalog, DefaultTravelMinutes);
  }

  /** At the slider's minimum of 15 minutes nothing is recommended. */
  lemma CatalogAtMinimumLimit()
    ensures WithinTime(Catalog, MinTravelMinutes) == []
  {
    WithinTimeNonePass(Catalog, MinTravelMinutes);
  }

  /** At 30 minutes exactly "City Park" and "Riverside Café" are recommended, in that order. */
  lemma CatalogAtThirtyMinutes()
    ensures |WithinTime(Catalog, 30)| == 2
    ensures WithinTime(Catalog, 30)[0].name == "City Park"
    ensures WithinTime(Catalog, 30)[1].name == "Riverside Café"
  {
    assert WithinTime(Catalog[4..], 30) == [];
    assert WithinTime(Catalog[3..], 30) == [Catalog[3]];
  }

  /** The circle `drawCircle` puts on the map, once the map exists and a location is known. */
  function DrawCircle(s: State, mapReady: bool): (c: Option<Circle>)
    ensures c.Some? <==> mapReady && s.location.Some?
    ensures c.Some? ==> c.value.center == s.location.value
    ensures c.Some? ==> c.value.radiusMetres % 1000 == 0 && c.value.radiusMetres / 1000 == s.radiusKm
  {
    if !mapReady || s.location.None? then None
    else Some(Circle(s.location.value, Metres(s.radiusKm)))
  }

  /** The cards of the results panel: the first eight points, numbered from 1. */
  function PointCards(points: seq<Intersection>): (cards: seq<Card>)
    ensures |cards| <= MaxCards && |cards| <= |points|
    ensures |cards| == MaxCards || |cards| == |points|
    ensures forall j :: 0 <= j < |cards| ==>
      cards[j].number == points[j].id + 1 && cards[j].minutes == points[j].estimatedTime
  {
    var shown := if |points| < MaxCards then points else points[..MaxCards];
    seq(|shown|, j requires 0 <= j < |shown| => Card(shown[j].id + 1, shown[j].estimatedTime))
  }

  /** The intersections panel, shown in distance mode once some points are listed. */
  function IntersectionsPanel(s: State): (panel: Option<seq<Card>>)
    ensures panel.Some? <==> s.mode == Distance && 0 < |s.intersections|
    ensures panel.Some? ==> panel.value == PointCards(s.intersections)
  {
    if s.mode == Distance && 0 < |s.intersections| then Some(PointCards(s.intersections)) else None
  }

  /** For a generated ring, the panel shows cards "Point 1" to "Point 8" for the first eight points. */
  lemma RingCards(center: Coord, radiusKm: int, draws: seq<real>)
    requires |draws| == RingSize
    ensures |PointCards(Intersections(center, radiusKm, draws))| == MaxCards
    ensures forall j :: 0 <= j < MaxCards ==> PointCards(Intersections(center, radiusKm, draws))[j].number == j + 1
  {
  }

  /**
    The widget between events, together with whether a location request has
    been started and its callback has not yet run.
   */
  datatype Session = Session(ui: State, pending: bool)

  /** The first render, with no request started. */
  const Start: Session := Session(Initial, false)

  /** What the user, the browser and the random source can do to the widget. */
  datatype Event =
    | LocateMe(supported: bool)   // the location button; `supported` says whether the browser has a geolocation API
    | Answer(answer: Geolocation) // the browser runs the success or error callback of the started request
    | ChooseMode(choice: Mode)
    | SlideRadius(km: int)
    | SlideMaxTravelTime(minutes: int)
    | FindIntersections(mapsLoaded: bool, draws: seq<real>)
    | FindPlaces

  /** Events the environment can produce: random draws come from `Math.random`, and a callback carries an answer. */
  predicate Possible(e: Event)
  {
    && (e.FindIntersections? ==> RandomDraws(e.draws))
    && (e.Answer? ==> !e.answer.Unsupported?)
  }

  /**
    The session once the handler of `e` has finished. The location and the
    two search buttons are disabled while loading, so a click on them then
    does nothing; a callback arrives only for a started request.
   */
  function Step(w: Session, e: Event): Session
    requires Possible(e)
  {
    var s := w.ui;
    match e
    case LocateMe(supported) =>
      if s.isLoading then w else Session(Settle(s, RequestLocation(s, supported)), supported)
    case Answer(g) =>
      if !w.pending then w else Session(Settle(s, LocationAnswer(s, g)), false)
    case ChooseMode(m) => w.(ui := s.(mode := m))
    case SlideRadius(v) => w.(ui := s.(radiusKm := RangeInput(MinRadiusKm, MaxRadiusKm, v)))
    case SlideMaxTravelTime(v) => w.(ui := s.(maxTravelTime := RangeInput(MinTravelMinutes, MaxTravelMinutes, v)))
    case FindIntersections(loaded, draws) =>
      if s.isLoading then w else w.(ui := Settle(s, FindIntersectionPoints(s, loaded, draws)))
    case FindPlaces =>
      if s.isLoading then w else w.(ui := Settle(s, FindRecommendations(s)))
  }

  /**
    A click on the location button followed by the callback ends where the
    whole of `getCurrentLocation` does, and a click without a geolocation API
    ends there at once.
   */
  lemma AnsweredRequestIsGetCurrentLocation(s: State, g: Geolocation)
    requires !s.isLoading
    ensures !g.Unsupported? ==>
      Step(Step(Session(s, false), LocateMe(true)), Answer(g)) == Session(Settle(s, GetCurrentLocation(s, g)), false)
    ensures g.Unsupported? ==>
      Step(Session(s, false), LocateMe(false)) == Session(Settle(s, GetCurrentLocation(s, g)), false)
  {
  }

  /** A listed ring: 16 points in id order, every time within what the largest radius allows. */
  predicate ListedRing(points: seq<Intersection>)
  {
    && |points| == RingSize
    && forall i :: 0 <= i < |points| ==>
         points[i].id == i && points[i].kind == "intersection"
         && 10 <= points[i].estimatedTime <= 8 * MaxRadiusKm + 9
  }

  /** What holds of the session between events. */
  ghost predicate Inv(w: Session)
  {
    var s := w.ui;
    && MinRadiusKm <= s.radiusKm <= MaxRadiusKm
    && MinTravelMinutes <= s.maxTravelTime <= MaxTravelMinutes
    && (s.isLoading <==> w.pending)
    && (s.location.None? ==> s.intersections == [] && s.recommendations == [])
    && (s.intersections == [] || ListedRing(s.intersections))
    && SubsequenceOf(s.recommendations, Catalog)
  }

  lemma InitialInv()
    ensures Inv(Start)
  {
  }

  /**
    Every event keeps the sliders in range and the lists well formed, and
    the widget shows its loading state exactly while a started request
    waits for its callback.
   */
  lemma StepPreservesInv(w: Session, e: Event)
    requires Inv(w) && Possible(e)
    ensures Inv(Step(w, e))
  {
    match e
    case FindPlaces =>
      WithinTimeKeepsOrder(Catalog, w.ui.maxTravelTime);
    case _ =>
  }

  /**
    Clicking "Find Street Intersections" in distance mode, with a location
    and the map SDK loaded, shows the panel with exactly eight cards,
    numbered 1 to 8.
   */
  lemma FoundRingShowsEightCards(w: Session, draws: seq<real>)
    requires Inv(w) && RandomDraws(draws)
    requires !w.ui.isLoading && w.ui.location.Some? && w.ui.mode == Distance
    ensures var panel := IntersectionsPanel(Step(w, FindIntersections(true, draws)).ui);
      && panel.Some? && |panel.value| == MaxCards
      && forall j :: 0 <= j < MaxCards ==> panel.value[j].number == j + 1
  {
    RingCards(w.ui.location.value, w.ui.radiusKm, draws);
  }

  /** Choosing a mode changes the mode and nothing else. */
  lemma ChooseModeOnlyChangesMode(w: Session, m: Mode)
    ensures Step(w, ChooseMode(m)).ui.mode == m
    ensures Step(w, ChooseMode(m)).(ui := Step(w, ChooseMode(m)).ui.(mode := w.ui.mode)) == w
  {
  }
}
