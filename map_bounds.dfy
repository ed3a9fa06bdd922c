/** The bounds `reduce` of `ChangeView` (src/pages/Main.tsx): the north, east,
    south and west extremes of the locations' coordinates, skipping locations
    whose latitude or longitude is not a number, and the corners handed to
    the map's `fitBounds`. */
module MapBounds {
  import opened Wrappers

  /** A bound: a real coordinate, or the -Infinity / +Infinity the fold
      starts from. */
  datatype Extended = NegInf | Finite(value: real) | PosInf

  predicate AtMost(a: Extended, b: Extended)
  {
    a.NegInf? || b.PosInf? || (a.Finite? && b.Finite? && a.value <= b.value)
  }

  /** `Math.max` on non-NaN numbers. */
  function Max(a: Extended, b: Extended): (m: Extended)
    ensures m == a || m == b
    ensures AtMost(a, m) && AtMost(b, m)
  {
    if AtMost(a, b) then b else a
  }

  /** `Math.min` on non-NaN numbers. */
  function Min(a: Extended, b: Extended): (m: Extended)
    ensures m == a || m == b
    ensures AtMost(m, a) && AtMost(m, b)
  {
    if AtMost(a, b) then a else b
  }

  /** A location as the map sees it: a coordinate is `None` when `isNaN`
      holds of it. */
  datatype Location = Location(latitude: Option<real>, longitude: Option<real>)

  predicate IsPlaceable(loc: Location)
  {
    loc.latitude.Some? && loc.longitude.Some?
  }

  datatype Bounds = Bounds(north: Extended, east: Extended, south: Extended, west: Extended)

  /** The initial accumulator of the fold. */
  const Unbounded := Bounds(NegInf, NegInf, PosInf, PosInf)

  /** One step of the fold: an unplaceable location leaves the bounds as they
      are; a placeable one widens each side just enough to contain it. */
  function Extend(acc: Bounds, loc: Location): (r: Bounds)
    ensures !IsPlaceable(loc) ==> r == acc
    ensures IsPlaceable(loc) ==>
      var lat, lon := Finite(loc.latitude.value), Finite(loc.longitude.value);
      && AtMost(r.south, lat) && AtMost(lat, r.north) && AtMost(r.west, lon) && AtMost(lon, r.east)
      && AtMost(acc.north, r.north) && AtMost(acc.east, r.east)
      && AtMost(r.south, acc.south) && AtMost(r.west, acc.west)
      && (r.north == acc.north || r.north == lat) && (r.south == acc.south || r.south == lat)
      && (r.east == acc.east || r.east == lon) && (r.west == acc.west || r.west == lon)
  {
    if loc.latitude.None? || loc.longitude.None? then acc
    else
      var lat, lon := Finite(loc.latitude.value), Finite(loc.longitude.value);
      Bounds(Max(acc.north, lat), Max(acc.east, lon), Min(acc.south, lat), Min(acc.west, lon))
  }

  /** The bounds `b` contain the location's coordinates. */
  predicate Contains(b: Bounds, loc: Location)
    requires IsPlaceable(loc)
  {
    var lat, lon := Finite(loc.latitude.value), Finite(loc.longitude.value);
    AtMost(b.south, lat) && AtMost(lat, b.north) && AtMost(b.west, lon) && AtMost(lon, b.east)
  }

  /** `markers.reduce(Extend, Unbounded)`: a left fold. Every placeable
      location lies inside the result, and with none the initial infinities
      are left as they are. */
  function BoundsOf(markers: seq<Location>): (b: Bounds)
    ensures forall m :: m in markers && IsPlaceable(m) ==> Contains(b, m)
    ensures (forall m :: m in markers ==> !IsPlaceable(m)) ==> b == Unbounded
  {
    if |markers| == 0 then Unbounded else Extend(BoundsOf(markers[..|markers| - 1]), markers[|markers| - 1])
  }

  ghost function Latitudes(markers: seq<Location>): set<real>
  {
    set m | m in markers && IsPlaceable(m) :: m.latitude.value
  }

  ghost function Longitudes(markers: seq<Location>): set<real>
  {
    set m | m in markers && IsPlaceable(m) :: m.longitude.value
  }

  /** `b` is the largest of `vals`, or -Infinity when there is none. */
  ghost predicate IsTightUpper(vals: set<real>, b: Extended)
  {
    && (vals == {} ==> b == NegInf)
    && (vals != {} ==> b.Finite? && b.value in vals && forall v :: v in vals ==> v <= b.value)
  }

  /** `b` is the smallest of `vals`, or +Infinity when there is none. */
  ghost predicate IsTightLower(vals: set<real>, b: Extended)
  {
    && (vals == {} ==> b == PosInf)
    && (vals != {} ==> b.Finite? && b.value in vals && forall v :: v in vals ==> b.value <= v)
  }

  lemma TightUpperExtend(vals: set<real>, b: Extended, v: real)
    requires IsTightUpper(vals, b)
    ensures IsTightUpper(vals + {v}, Max(b, Finite(v)))
  {
  }

  lemma TightLowerExtend(vals: set<real>, b: Extended, v: real)
    requires IsTightLower(vals, b)
    ensures IsTightLower(vals + {v}, Min(b, Finite(v)))
  {
  }

  lemma CoordinatesSnoc(markers: seq<Location>, x: Location)
    ensures Latitudes(markers + [x]) == Latitudes(markers) + (if IsPlaceable(x) then {x.latitude.value} else {})
    ensures Longitudes(markers + [x]) == Longitudes(markers) + (if IsPlaceable(x) then {x.longitude.value} else {})
  {
    var s := markers + [x];
    forall m ensures m in s <==> m in markers || m == x {
    }
  }

  ghost predicate IsTight(markers: seq<Location>, b: Bounds)
  {
    && IsTightUpper(Latitudes(markers), b.north)
    && IsTightUpper(Longitudes(markers), b.east)
    && IsTightLower(Latitudes(markers), b.south)
    && IsTightLower(Longitudes(markers), b.west)
  }

  /** One fold step keeps the bounds tight. */
  lemma ExtendKeepsTight(markers: seq<Location>, b: Bounds, x: Location)
    requires IsTight(markers, b)
    ensures IsTight(markers + [x], Extend(b, x))
  {
    CoordinatesSnoc(markers, x);
    if IsPlaceable(x) {
      TightUpperExtend(Latitudes(markers), b.north, x.latitude.value);
      TightUpperExtend(Longitudes(markers), b.east, x.longitude.value);
      TightLowerExtend(Latitudes(markers), b.south, x.latitude.value);
      TightLowerExtend(Longitudes(markers), b.west, x.longitude.value);
    } else {
      assert Latitudes(markers + [x]) == Latitudes(markers);
      assert Longitudes(markers + [x]) == Longitudes(markers);
    }
  }

  /** The bounds are tight: north and south are the largest and smallest
      latitude of the placeable locations, east and west the largest and
      smallest longitude, and they stay infinite when nothing is placeable. */
  lemma {:induction false} BoundsTight(markers: seq<Location>)
    ensures IsTightUpper(Latitudes(markers), BoundsOf(markers).north)
    ensures IsTightUpper(Longitudes(markers), BoundsOf(markers).east)
    ensures IsTightLower(Latitudes(markers), BoundsOf(markers).south)
    ensures IsTightLower(Longitudes(markers), BoundsOf(markers).west)
  {
    if |markers| > 0 {
      var s := markers[..|markers| - 1];
      var x := markers[|markers| - 1];
      assert markers == s + [x];
      BoundsTight(s);
      ExtendKeepsTight(s, BoundsOf(s), x);
    }
  }

  /** The bounds keep their initial infinities exactly when no location is
      placeable (in particular for an empty list); otherwise they are finite
      with south <= north and west <= east. */
  lemma UnboundedIffNothingPlaceable(markers: seq<Location>)
    ensures BoundsOf(markers) == Unbounded <==> forall m :: m in markers ==> !IsPlaceable(m)
    ensures (exists m :: m in markers && IsPlaceable(m)) ==>
      var b := BoundsOf(markers);
      && b.north.Finite? && b.east.Finite? && b.south.Finite? && b.west.Finite?
      && AtMost(b.south, b.north) && AtMost(b.west, b.east)
  {
    BoundsTight(markers);
    if exists m :: m in markers && IsPlaceable(m) {
      var m :| m in markers && IsPlaceable(m);
      assert m.latitude.value in Latitudes(markers);
      assert m.longitude.value in Longitudes(markers);
    } else {
      assert Latitudes(markers) == {};
      assert Longitudes(markers) == {};
    }
  }

  lemma TightUpperUnique(vals: set<real>, a: Extended, b: Extended)
    requires IsTightUpper(vals, a) && IsTightUpper(vals, b)
    ensures a == b
  {
  }

  lemma TightLowerUnique(vals: set<real>, a: Extended, b: Extended)
    requires IsTightLower(vals, a) && IsTightLower(vals, b)
    ensures a == b
  {
  }

  /** The bounds do not depend on the order of the markers. */
  lemma BoundsOrderIndependent(a: seq<Location>, b: seq<Location>)
    requires multiset(a) == multiset(b)
    ensures BoundsOf(a) == BoundsOf(b)
  {
    forall m ensures m in a <==> m in b {
      assert m in a <==> m in multiset(a);
      assert m in b <==> m in multiset(b);
    }
    assert Latitudes(a) == Latitudes(b);
    assert Longitudes(a) == Longitudes(b);
    BoundsTight(a);
    BoundsTight(b);
    TightUpperUnique(Latitudes(a), BoundsOf(a).north, BoundsOf(b).north);
    TightUpperUnique(Longitudes(a), BoundsOf(a).east, BoundsOf(b).east);
    TightLowerUnique(Latitudes(a), BoundsOf(a).south, BoundsOf(b).south);
    TightLowerUnique(Longitudes(a), BoundsOf(a).west, BoundsOf(b).west);
  }

  /** A map corner: (latitude, longitude). */
  type Corner = (Extended, Extended)

  /** The location lies in the box whose first corner is its lower-left
      (latitude, longitude) and whose second corner its upper-right. */
  predicate Between(corners: (Corner, Corner), loc: Location)
    requires IsPlaceable(loc)
  {
    var lat, lon := Finite(loc.latitude.value), Finite(loc.longitude.value);
    && AtMost(corners.0.0, lat) && AtMost(lat, corners.1.0)
    && AtMost(corners.0.1, lon) && AtMost(lon, corners.1.1)
  }

  /** The two corners passed to `fitBounds`: south-west first, north-east
      second. The box they span holds exactly the locations the bounds
      contain. */
  function FitBoundsCorners(b: Bounds): (corners: (Corner, Corner))
    ensures AtMost(b.south, b.north) && AtMost(b.west, b.east) ==>
      AtMost(corners.0.0, corners.1.0) && AtMost(corners.0.1, corners.1.1)
    ensures forall loc :: IsPlaceable(loc) ==> (Between(corners, loc) <==> Contains(b, loc))
  {
    ((b.south, b.west), (b.north, b.east))
  }

  /** The first corner holds the smallest latitude and longitude of the
      placeable locations and the second the largest, so with a placeable
      location the first lies south-west of (or on) the second; with none,
      the corners are the inverted infinite box. */
  lemma FitBoundsSouthWestFirst(markers: seq<Location>)
    ensures var corners := FitBoundsCorners(BoundsOf(markers));
      && IsTightLower(Latitudes(markers), corners.0.0) && IsTightLower(Longitudes(markers), corners.0.1)
      && IsTightUpper(Latitudes(markers), corners.1.0) && IsTightUpper(Longitudes(markers), corners.1.1)
    ensures var corners := FitBoundsCorners(BoundsOf(markers));
      (exists m :: m in markers && IsPlaceable(m)) ==>
        AtMost(corners.0.0, corners.1.0) && AtMost(corners.0.1, corners.1.1)
    ensures var corners := FitBoundsCorners(BoundsOf(markers));
      (forall m :: m in markers ==> !IsPlaceable(m)) ==>
        corners == ((PosInf, PosInf), (NegInf, NegInf))
  {
    UnboundedIffNothingPlaceable(markers);
    BoundsTight(markers);
  }
}
