/**
  Types and rules shared by both variants of the Travel Radius Explorer widget:
  the optional user location, the search mode, the two range sliders, the
  kilometre-to-metre conversion used for the map circle, and the way a
  handler's successive state updates settle into one final state.
 */
module Widget {

  /** A value that may be absent; the widget's `location` starts out as `null`. */
  datatype Option<T> = None | Some(value: T)

  /** A map coordinate in degrees. The widget never does arithmetic on it in this model. */
  datatype Coord = Coord(lat: real, lng: real)

  /** The location used when the browser reports a geolocation error (Belgrade). */
  const Fallback: Coord := Coord(44.8176, 20.4633)

  /** What the browser's geolocation service does with one request. */
  datatype Geolocation =
    | Unsupported          // `navigator.geolocation` is missing
    | Granted(at: Coord)   // the success callback runs with these coordinates
    | Denied               // the error callback runs

  /** The two search modes offered by the radio buttons. */
  datatype Mode = Distance | Time

  /** Bounds and defaults of the radius slider (kilometres). */
  const MinRadiusKm: int := 1
  const MaxRadiusKm: int := 50
  const DefaultRadiusKm: int := 5

  /** Bounds and defaults of the travel-time slider (minutes). */
  const MinTravelMinutes: int := 15
  const MaxTravelMinutes: int := 180
  const DefaultTravelMinutes: int := 60

  /** How many ring points the results panel shows. */
  const MaxCards: nat := 8

  /**
    The value an `<input type="range" min=lo max=hi>` hands to its change
    handler when the user asks for `v`: the browser never lets the value
    leave the slider's range.
   */
  function RangeInput(lo: int, hi: int, v: int): (r: int)
    requires lo <= hi
    ensures lo <= r <= hi
    ensures lo <= v <= hi ==> r == v
    ensures v < lo ==> r == lo
    ensures hi < v ==> r == hi
  {
    if v < lo then lo else if hi < v then hi else v
  }

  /** The radius handed to the map, in metres, for a radius in kilometres. */
  function Metres(km: int): (m: int)
    ensures m % 1000 == 0 && m / 1000 == km
    ensures 0 < km ==> km < m
  {
    km * 1000
  }

  /** The circle drawn on the map: its centre and its radius in metres. */
  datatype Circle = Circle(center: Coord, radiusMetres: int)

  /** One card of the intersections results panel: "Point {number}" and "~{minutes} min". */
  datatype Card = Card(number: int, minutes: int)

  /**
    The loading flag, as read by `busy`, is raised by a handler's first state
    update, stays up through every later one, and is lowered by the last.
   */
  predicate LoadingBracket<S>(updates: seq<S>, busy: S -> bool)
  {
    && 2 <= |updates|
    && (forall i :: 0 <= i < |updates| - 1 ==> busy(updates[i]))
    && !busy(updates[|updates| - 1])
  }

  /**
    The state a handler leaves behind once all of its `updates` (the state
    after each setter call, in call order) have been applied to `start`.
   */
  function Settle<S>(start: S, updates: seq<S>): (s: S)
    ensures |updates| == 0 ==> s == start
    ensures 0 < |updates| ==> s == updates[|updates| - 1]
  {
    if |updates| == 0 then start else updates[|updates| - 1]
  }
}
