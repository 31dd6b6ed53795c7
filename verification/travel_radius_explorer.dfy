/**
  The open-source-map variant of the widget (`TravelRadiusExplorer`): its
  state, the location request, the deterministic-time point ring, the
  four-entry recommendation catalog with re-indexed ids, the map view, the
  effect that regenerates the ring, and the results panel.
 */
module TravelRadiusExplorer {
  import opened Widget
  import opened Places
  import opened Ring

  /** One ring point. The haversine `dist` field is floating point and not modelled. */
  datatype Point = Point(id: nat, pos: Offset, time: int)

  /** Stand-in for the placeholder position of the `index`-th recommendation near `center`. */
  datatype Spot = Spot(center: Coord, index: nat)

  /** One recommendation as listed: the catalog entry, its position in the list and a placeholder spot. */
  datatype Rec = Rec(id: nat, name: string, category: string, time: int, rating: int, pos: Spot)

  /** The component's state hooks. */
  datatype State = State(
    location: Option<Coord>,
    isLoading: bool,
    radiusKm: int,
    maxTravelTime: int,
    mode: Mode,
    points: seq<Point>,
    recs: seq<Rec>)

  /** The state on first render. */
  const Initial: State := State(None, false, DefaultRadiusKm, DefaultTravelMinutes, Distance, [], [])

  /** The mock places `genRecs` filters. */
  const Base: seq<Place> := [
    Place("City Park", "Park", 25, 45),
    Place("Art Museum", "Museum", 35, 47),
    Place("Historic District", "Attraction", 45, 43),
    Place("Riverside Café", "Restaurant", 20, 46)
  ]

  /** Whether the widget shows its loading state (it also disables the location button). */
  function Busy(s: State): bool
  {
    s.isLoading
  }

  /**
    The part of `getLoc` that runs on the click. As written the flag only
    goes up, and the request is started if the browser has a geolocation API
    and silently skipped otherwise. The `repaired` variant also lowers the
    flag again when there is no API, as the map-SDK variant does.
   */
  function RequestLocation(s: State, supported: bool, repaired: bool): (updates: seq<State>)
    ensures 0 < |updates| && Busy(updates[0])
    ensures supported || !repaired ==> Settle(s, updates) == s.(isLoading := true)
    ensures !supported && repaired ==> LoadingBracket(updates, Busy) && Settle(s, updates) == s.(isLoading := false)
  {
    var busy := s.(isLoading := true);
    if supported || !repaired then [busy] else [busy, busy.(isLoading := false)]
  }

  /**
    The success or error callback of a started request: store the reported
    position, or the Belgrade fallback on an error, then lower the flag.
   */
  function LocationAnswer(s: State, g: Geolocation): (updates: seq<State>)
    requires !g.Unsupported?
    ensures 0 < |updates| && !Busy(updates[|updates| - 1])
    ensures Settle(s, updates) == s.(location := Settle(s, updates).location, isLoading := false)
    ensures g.Granted? ==> Settle(s, updates).location == Some(g.at)
    ensures g.Denied? ==> Settle(s, updates).location == Some(Fallback)
  {
    var located := s.(location := Some(if g.Granted? then g.at else Fallback));
    [located, located.(isLoading := false)]
  }

  /** `getLoc` with its callback, if any, run straight away. */
  function LocationRequest(s: State, g: Geolocation, repaired: bool): seq<State>
  {
    var asked := RequestLocation(s, !g.Unsupported?, repaired);
    if g.Unsupported? then asked else asked + LocationAnswer(Settle(s, asked), g)
  }

  /**
    `getLoc` exactly as the component has it. When geolocation answers it
    behaves like the map-SDK variant; with no geolocation service the
    optional call is skipped and the flag-raising update is the only one.
   */
  function GetLocAsWritten(s: State, g: Geolocation): (updates: seq<State>)
    ensures 0 < |updates| && Busy(updates[0])
    ensures g.Unsupported? ==> Settle(s, updates) == s.(isLoading := true)
    ensures !g.Unsupported? ==> LoadingBracket(updates, Busy)
    ensures !g.Unsupported? ==> Settle(s, updates) == s.(location := Settle(s, updates).location, isLoading := false)
    ensures g.Granted? ==> Settle(s, updates).location == Some(g.at)
    ensures g.Denied? ==> Settle(s, updates).location == Some(Fallback)
  {
    LocationRequest(s, g, false)
  }

  /**
    In a browser without geolocation, `getLoc` as written leaves the widget
    loading and without a new location (see `StrandedForever` for what
    follows).
   */
  lemma GetLocAsWrittenStaysLoading(s: State)
    ensures Busy(Settle(s, GetLocAsWritten(s, Unsupported)))
    ensures Settle(s, GetLocAsWritten(s, Unsupported)).location == s.location
    ensures !LoadingBracket(GetLocAsWritten(s, Unsupported), Busy)
  {
  }

  /** `getLoc` with the flag lowered on every path; the `repaired` sessions below use it. */
  function GetLoc(s: State, g: Geolocation): (updates: seq<State>)
    ensures LoadingBracket(updates, Busy)
    ensures Settle(s, updates) == s.(location := Settle(s, updates).location, isLoading := false)
    ensures g.Granted? ==> Settle(s, updates).location == Some(g.at)
    ensures g.Denied? ==> Settle(s, updates).location == Some(Fallback)
    ensures g.Unsupported? ==> Settle(s, updates).location == s.location
  {
    LocationRequest(s, g, true)
  }

  /** The repair changes nothing when the browser answers. */
  lemma GetLocAgreesWhenAnswered(s: State, g: Geolocation)
    ensures !g.Unsupported? ==> GetLocAsWritten(s, g) == GetLoc(s, g)
  {
  }

  /** The travel-time label of the i-th ring point, `20 + (i % 5) * 5`. */
  function RingTime(i: nat): (t: int)
    ensures t in {20, 25, 30, 35, 40}
  {
    20 + (i % 5) * 5
  }

  /** The label repeats every five points. */
  lemma RingTimePeriodic(i: nat)
    ensures RingTime(i + 5) == RingTime(i)
  {
  }

  /** The points `genPoints` builds around `center`. */
  function Points(center: Coord, radiusKm: int): (points: seq<Point>)
    ensures |points| == RingSize
    ensures forall i :: 0 <= i < |points| ==> points[i].id == i && points[i].time == RingTime(i)
    ensures 1 <= radiusKm ==> forall i, j :: 0 <= i < j < |points| ==> points[i].pos != points[j].pos
  {
    var ring := seq(RingSize, i requires 0 <= i < RingSize => Point(i, RingPosition(center, radiusKm, i), RingTime(i)));
    if 1 <= radiusKm then RingPositionsAllDistinct(center, radiusKm); ring else ring
  }

  /**
    The time labels depend only on the index: two rings around any centres
    at any radii carry the same labels, and they repeat with period five.
   */
  lemma PointTimesIgnoreWhere(c1: Coord, r1: int, c2: Coord, r2: int)
    ensures forall i :: 0 <= i < RingSize ==> Points(c1, r1)[i].time == Points(c2, r2)[i].time
    ensures forall i :: 0 <= i < RingSize - 5 ==> Points(c1, r1)[i + 5].time == Points(c1, r1)[i].time
    ensures forall i :: 0 <= i < RingSize ==> 20 <= Points(c1, r1)[i].time <= 40
  {
    forall i | 0 <= i < RingSize - 5
      ensures Points(c1, r1)[i + 5].time == Points(c1, r1)[i].time
    {
      RingTimePeriodic(i);
    }
  }

  /** The `for` loop of `genPoints`, pushing one point per index. */
  method BuildPoints(center: Coord, radiusKm: int) returns (out: seq<Point>)
    ensures out == Points(center, radiusKm)
  {
    ghost var ring := Points(center, radiusKm);
    out := [];
    var i := 0;
    while i < 16
      invariant 0 <= i <= RingSize
      invariant out == ring[..i]
    {
      var p := Point(i, RingPosition(center, radiusKm, i), 20 + (i % 5) * 5);
      assert ring[..i + 1] == ring[..i] + [p];
      out := out + [p];
      i := i + 1;
    }
  }

  /** `genPoints`: without a location nothing changes; otherwise the ring replaces the points. */
  function GenPoints(s: State): (t: State)
    ensures s.location.None? ==> t == s
    ensures s.location.Some? ==> t == s.(points := Points(s.location.value, s.radiusKm))
  {
    if s.location.None? then s else s.(points := Points(s.location.value, s.radiusKm))
  }

  /** Regenerating the ring a second time changes nothing. */
  lemma GenPointsIdempotent(s: State)
    ensures GenPoints(GenPoints(s)) == GenPoints(s)
  {
  }

  /** The recommendations `genRecs` lists: the base entries within `maxMinutes`, numbered by position. */
  function Recs(center: Coord, maxMinutes: int): (recs: seq<Rec>)
    ensures |recs| == |WithinTime(Base, maxMinutes)|
    ensures forall i :: 0 <= i < |recs| ==>
      var p := WithinTime(Base, maxMinutes)[i];
      recs[i] == Rec(i, p.name, p.category, p.travelTime, p.rating, Spot(center, i))
  {
    var kept := WithinTime(Base, maxMinutes);
    seq(|kept|, i requires 0 <= i < |kept| =>
      Rec(i, kept[i].name, kept[i].category, kept[i].travelTime, kept[i].rating, Spot(center, i)))
  }

  /** The catalog entries behind a list of recommendations, in list order. */
  function Listed(recs: seq<Rec>): seq<Place>
  {
    seq(|recs|, i requires 0 <= i < |recs| => Place(recs[i].name, recs[i].category, recs[i].time, recs[i].rating))
  }

  /**
    Every listed recommendation is a base entry within the limit, and every
    base entry within the limit is listed.
   */
  lemma RecsExactlyWithin(center: Coord, maxMinutes: int)
    ensures forall r :: r in Recs(center, maxMinutes) ==>
      r.time <= maxMinutes && Place(r.name, r.category, r.time, r.rating) in Base
    ensures forall i :: 0 <= i < |Base| && Base[i].travelTime <= maxMinutes ==>
      exists r :: r in Recs(center, maxMinutes) && r.name == Base[i].name
  {
    var recs := Recs(center, maxMinutes);
    var kept := WithinTime(Base, maxMinutes);
    forall r | r in recs
      ensures r.time <= maxMinutes && Place(r.name, r.category, r.time, r.rating) in Base
    {
      var i :| 0 <= i < |recs| && recs[i] == r;
      assert kept[i] in kept;
    }
    forall i | 0 <= i < |Base| && Base[i].travelTime <= maxMinutes
      ensures exists r :: r in recs && r.name == Base[i].name
    {
      var k :| 0 <= k < |kept| && kept[k] == Base[i];
      assert recs[k] in recs;
    }
  }

  /** The list keeps the base order, and its ids are exactly 0 .. k-1 in list order. */
  lemma RecsOrdered(center: Coord, maxMinutes: int)
    ensures SubsequenceOf(Listed(Recs(center, maxMinutes)), Base)
    ensures forall r :: r in Recs(center, maxMinutes) ==> r.id < |Recs(center, maxMinutes)|
    ensures forall i, j :: 0 <= i < j < |Recs(center, maxMinutes)| ==>
      Recs(center, maxMinutes)[i].id < Recs(center, maxMinutes)[j].id
  {
    RecsListBase(center, maxMinutes);
    WithinTimeKeepsOrder(Base, maxMinutes);
  }

  /** Reading the catalog entries back off the recommendations gives the filtered catalog. */
  lemma RecsListBase(center: Coord, maxMinutes: int)
    ensures Listed(Recs(center, maxMinutes)) == WithinTime(Base, maxMinutes)
  {
    var recs := Recs(center, maxMinutes);
    var kept := WithinTime(Base, maxMinutes);
    forall i | 0 <= i < |kept|
      ensures Listed(recs)[i] == kept[i]
    {
      assert recs[i] == Rec(i, kept[i].name, kept[i].category, kept[i].travelTime, kept[i].rating, Spot(center, i));
    }
  }

  /** At 30 minutes the list is "City Park" (id 0) then "Riverside Café" (id 1). */
  lemma RecsAtThirtyMinutes(center: Coord)
    ensures |Recs(center, 30)| == 2
    ensures Recs(center, 30)[0].name == "City Park" && Recs(center, 30)[0].id == 0
    ensures Recs(center, 30)[1].name == "Riverside Café" && Recs(center, 30)[1].id == 1
  {
    assert WithinTime(Base[3..], 30) == [Base[3]];
  }

  /** `genRecs`: without a location nothing changes; otherwise the filtered list replaces the recommendations. */
  function GenRecs(s: State): (t: State)
    ensures s.location.None? ==> t == s
    ensures s.location.Some? ==> t == s.(recs := Recs(s.location.value, s.maxTravelTime))
  {
    if s.location.None? then s else s.(recs := Recs(s.location.value, s.maxTravelTime))
  }

  /** What the map shows once a location is known: the circle and the side of the box it is fitted to. */
  datatype View = View(circle: Circle, boundsSideMetres: int)

  /** The `Circle` and `FitBounds` of the map, which is only rendered with a location. */
  function MapView(s: State): (v: Option<View>)
    ensures v.Some? <==> s.location.Some?
    ensures v.Some? ==> v.value.circle.center == s.location.value
    ensures v.Some? ==> v.value.circle.radiusMetres % 1000 == 0 && v.value.circle.radiusMetres / 1000 == s.radiusKm
    ensures v.Some? ==> v.value.boundsSideMetres == 2 * v.value.circle.radiusMetres
  {
    if s.location.None? then None
    else
      var meters := Metres(s.radiusKm);
      Some(View(Circle(s.location.value, meters), meters * 2))
  }

  /** The cards of the results panel: the first eight points, numbered from 1. */
  function PointCards(points: seq<Point>): (cards: seq<Card>)
    ensures |cards| <= MaxCards && |cards| <= |points|
    ensures |cards| == MaxCards || |cards| == |points|
    ensures forall j :: 0 <= j < |cards| ==>
      cards[j].number == points[j].id + 1 && cards[j].minutes == points[j].time
  {
    var shown := if |points| < MaxCards then points else points[..MaxCards];
    seq(|shown|, j requires 0 <= j < |shown| => Card(shown[j].id + 1, shown[j].time))
  }

  /** For a generated ring the panel shows "Point 1" .. "Point 8" with minutes 20, 25, 30, 35, 40, 20, 25, 30. */
  lemma RingCards(center: Coord, radiusKm: int)
    ensures |PointCards(Points(center, radiusKm))| == MaxCards
    ensures forall j :: 0 <= j < MaxCards ==>
      PointCards(Points(center, radiusKm))[j] == Card(j + 1, 20 + (j % 5) * 5)
  {
  }

  /**
    The effect that runs `genPoints` after a render in distance mode when
    the mode, the location or the radius changed. `relocated` says whether a
    new location object was stored, which React always counts as a change.
   */
  function Rendered(before: State, after: State, relocated: bool): (r: State)
    ensures r == after.(points := r.points)
    ensures Regenerates(before, after, relocated) ==> r.points == Points(after.location.value, after.radiusKm)
    ensures !Regenerates(before, after, relocated) ==> r == after
  {
    if after.mode == Distance && (relocated || before.mode != after.mode || before.radiusKm != after.radiusKm)
    then GenPoints(after)
    else after
  }

  /** The effect rebuilds the ring: distance mode with a location, and the mode, location or radius changed. */
  predicate Regenerates(before: State, after: State, relocated: bool)
  {
    && after.mode == Distance
    && after.location.Some?
    && (relocated || before.mode != after.mode || before.radiusKm != after.radiusKm)
  }

  /**
    The widget between events, whether a started location request still
    waits for its callback, and whether a request found no geolocation API
    and so will never be answered.
   */
  datatype Session = Session(ui: State, pending: bool, stranded: bool)

  /** The first render, with no request started. */
  const Start: Session := Session(Initial, false, false)

  /** What the user and the browser can do to the widget. */
  datatype Event =
    | LocateMe(supported: bool)   // the location button; `supported` says whether the browser has a geolocation API
    | Answer(answer: Geolocation) // the browser runs the success or error callback of the started request
    | ChooseMode(choice: Mode)
    | SlideRadius(km: int)
    | SlideMaxTravelTime(minutes: int)
    | Act                         // the green button: `genPoints` in distance mode, `genRecs` in time mode

  /** Events the environment can produce: a callback carries an answer. */
  predicate Possible(e: Event)
  {
    e.Answer? ==> !e.answer.Unsupported?
  }

  /**
    The session once the handler of `e` has finished and the component has
    re-rendered; `repaired` picks the corrected click handler. The location
    button is disabled while loading and the green button without a
    location, so a click on them then does nothing; a callback arrives only
    for a started request.
   */
  function Step(w: Session, e: Event, repaired: bool): Session
    requires Possible(e)
  {
    var s := w.ui;
    match e
    case LocateMe(supported) =>
      if s.isLoading then w
      else Session(Settle(s, RequestLocation(s, supported, repaired)), supported, !supported && !repaired)
    case Answer(g) =>
      if !w.pending then w
      else w.(ui := Rendered(s, Settle(s, LocationAnswer(s, g)), true), pending := false)
    case ChooseMode(m) => w.(ui := Rendered(s, s.(mode := m), false))
    case SlideRadius(v) => w.(ui := Rendered(s, s.(radiusKm := RangeInput(MinRadiusKm, MaxRadiusKm, v)), false))
    case SlideMaxTravelTime(v) => w.(ui := s.(maxTravelTime := RangeInput(MinTravelMinutes, MaxTravelMinutes, v)))
    case Act =>
      if s.location.None? then w
      else w.(ui := if s.mode == Distance then GenPoints(s) else GenRecs(s))
  }

  /**
    With the repaired handler, a click on the location button followed by
    the callback ends where the whole of `getLoc` does, re-rendered; a click
    without a geolocation API ends there at once.
   */
  lemma AnsweredRequestIsGetLoc(s: State, g: Geolocation)
    requires !s.isLoading
    ensures !g.Unsupported? ==>
      Step(Step(Session(s, false, false), LocateMe(true), true), Answer(g), true)
        == Session(Rendered(s, Settle(s, GetLoc(s, g)), true), false, false)
    ensures g.Unsupported? ==>
      Step(Session(s, false, false), LocateMe(false), true) == Session(Settle(s, GetLoc(s, g)), false, false)
  {
  }

  /** No event but the location click and its callback touches the loading flag or the request. */
  lemma StepKeepsLoadingFlag(w: Session, e: Event, repaired: bool)
    requires Possible(e) && !e.LocateMe? && !e.Answer?
    ensures Busy(Step(w, e, repaired).ui) == Busy(w.ui)
    ensures Step(w, e, repaired).pending == w.pending && Step(w, e, repaired).stranded == w.stranded
  {
  }

  /** What holds of the session between events, for either click handler. */
  ghost predicate Inv(w: Session, repaired: bool)
  {
    var s := w.ui;
    && MinRadiusKm <= s.radiusKm <= MaxRadiusKm
    && MinTravelMinutes <= s.maxTravelTime <= MaxTravelMinutes
    && (s.isLoading <==> w.pending || w.stranded)
    && !(w.pending && w.stranded)
    && (repaired ==> !w.stranded)
    && (s.location.None? ==> s.points == [] && s.recs == [])
    && (s.mode == Distance && s.location.Some? ==> s.points == Points(s.location.value, s.radiusKm))
    && (s.points == [] || (|s.points| == RingSize && forall i :: 0 <= i < |s.points| ==> s.points[i].id == i))
    && (forall i :: 0 <= i < |s.recs| ==> s.recs[i].id == i)
  }

  lemma InitialInv(repaired: bool)
    ensures Inv(Start, repaired)
  {
  }

  /**
    Every event keeps the sliders in range, and in distance mode the listed
    ring always matches the current location and radius. The widget shows
    its loading state exactly while a started request waits for its
    callback or, as written, after a request found no geolocation API; the
    repaired handler never strands a request.
   */
  lemma StepPreservesInv(w: Session, e: Event, repaired: bool)
    requires Inv(w, repaired) && Possible(e)
    ensures Inv(Step(w, e, repaired), repaired)
  {
  }

  /** With the repaired handler the widget is loading only while a started request waits for its callback. */
  lemma RepairedLoadsOnlyWhilePending(w: Session, e: Event)
    requires Inv(w, true) && Possible(e)
    ensures Step(w, e, true).ui.isLoading <==> Step(w, e, true).pending
  {
    StepPreservesInv(w, e, true);
  }

  /**
    As written, a click in a browser without geolocation strands the
    widget: it is loading, and no event ever lowers the flag again or
    changes the location, since the location button stays disabled and no
    callback will come.
   */
  lemma StrandedForever(w: Session, e: Event)
    requires Inv(w, false) && Possible(e) && w.stranded
    ensures Step(w, e, false).stranded && Step(w, e, false).ui.isLoading
    ensures Step(w, e, false).ui.location == w.ui.location
  {
  }

  /** One click on the location button, in a browser without geolocation, strands the widget from its first render. */
  lemma StrandedFromStart()
    ensures Step(Start, LocateMe(false), false).stranded
    ensures !Step(Start, LocateMe(false), true).stranded && !Step(Start, LocateMe(false), true).ui.isLoading
  {
  }
}
