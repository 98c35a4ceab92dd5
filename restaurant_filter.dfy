/**
 * The area filter of `restaurant_filter.py`: a restaurant is kept when a
 * parity count of "crossed" polygon sides is odd. The sides come from a
 * GeoJSON ring whose points are `[lng, lat]` pairs; the test line runs from
 * the restaurant to the fixed point (0.0, 0.0), and each side is judged by its
 * first endpoint only. Coordinates are only compared, never combined by
 * arithmetic, so `real` models them exactly.
 */
module AreaFilter {
  import opened Wrappers
  import opened Selection

  /** The part of a Google Places result that the filter reads: its name and `geometry.location`. */
  datatype Restaurant = Restaurant(name: string, lat: real, lng: real)

  /** A segment `{'lat1', 'lng1', 'lat2', 'lng2'}`, used both for the test line and for the sides. */
  datatype Segment = Segment(lat1: real, lng1: real, lat2: real, lng2: real)

  /** The exception `criteria` raises when it reads a point or an entry the ring does not have. */
  datatype AreaError = IndexError

  /** What the loops need to read without raising: a first point, and `[0]` and `[1]` of every point once there are sides. */
  predicate WellFormedRing(coordinates: seq<seq<real>>)
  {
    && |coordinates| > 0
    && (|coordinates| > 1 ==> forall i :: 0 <= i < |coordinates| ==> |coordinates[i]| >= 2)
  }

  /** The side from `prev` to `next`, both `[lng, lat]` points. */
  function SideBetween(prev: seq<real>, next: seq<real>): Segment
    requires |prev| >= 2 && |next| >= 2
  {
    Segment(prev[1], prev[0], next[1], next[0])
  }

  /** The sides joining consecutive points of the ring. */
  function SidesOf(coordinates: seq<seq<real>>): (sides: seq<Segment>)
    requires WellFormedRing(coordinates)
    ensures |sides| == |coordinates| - 1
  {
    seq(|coordinates| - 1, k requires 0 <= k < |coordinates| - 1 => SideBetween(coordinates[k], coordinates[k + 1]))
  }

  /** The test line from the restaurant to (0.0, 0.0). */
  function TestLine(restaurant: Restaurant): Segment
  {
    Segment(restaurant.lat, restaurant.lng, 0.0, 0.0)
  }

  /** The crossing condition applied to one side: only `side.lat1` and `side.lng1` are read. */
  predicate Crosses(testLine: Segment, side: Segment)
  {
    && ((testLine.lat1 > side.lat1) != (testLine.lat2 > side.lat1))
    && (testLine.lng1 < side.lng1 || testLine.lng2 < side.lng1)
  }

  /** The number of sides the test line crosses. */
  function Crossings(testLine: Segment, sides: seq<Segment>): (n: nat)
    ensures n <= |sides|
  {
    if sides == [] then 0
    else Crossings(testLine, sides[..|sides| - 1]) + (if Crosses(testLine, sides[|sides| - 1]) then 1 else 0)
  }

  /** The value of `criteria(restaurant)`: the crossing count is odd. */
  predicate Inside(coordinates: seq<seq<real>>, restaurant: Restaurant)
    requires WellFormedRing(coordinates)
  {
    Crossings(TestLine(restaurant), SidesOf(coordinates)) % 2 == 1
  }

  /**
   * The nested `criteria` of `filter_by_area`: the first loop collects the
   * sides, the second counts the crossed ones, and the count's parity decides.
   */
  method Criteria(coordinates: seq<seq<real>>, restaurant: Restaurant) returns (inside: bool)
    requires WellFormedRing(coordinates)
    ensures inside <==> Inside(coordinates, restaurant)
  {
    var testLine := Segment(restaurant.lat, restaurant.lng, 0.0, 0.0);
    var sides := CollectSides(coordinates);
    var intersections := CountCrossings(testLine, sides);
    inside := intersections % 2 == 1;
  }

  /** The first loop of `criteria`: one side per consecutive pair of points, moving `prev` along the ring. */
  method CollectSides(coordinates: seq<seq<real>>) returns (sides: seq<Segment>)
    requires WellFormedRing(coordinates)
    ensures sides == SidesOf(coordinates)
  {
    sides := [];
    var prev := coordinates[0];
    for i := 0 to |coordinates|
      invariant i == 0 ==> sides == [] && prev == coordinates[0]
      invariant i > 0 ==> prev == coordinates[i - 1] && |sides| == i - 1
      invariant forall k :: 0 <= k < |sides| ==> sides[k] == SideBetween(coordinates[k], coordinates[k + 1])
    {
      if i == 0 {
        continue;
      }
      assert |prev| >= 2 && |coordinates[i]| >= 2;
      var side := Segment(prev[1], prev[0], coordinates[i][1], coordinates[i][0]);
      assert side == SideBetween(coordinates[i - 1], coordinates[i]);
      prev := coordinates[i];
      sides := sides + [side];
    }
    CollectedSides(coordinates, sides);
  }

  /** The second loop of `criteria`: `intersections` goes up by one for every crossed side. */
  method CountCrossings(testLine: Segment, sides: seq<Segment>) returns (intersections: nat)
    ensures intersections == Crossings(testLine, sides)
  {
    intersections := 0;
    for j := 0 to |sides|
      invariant intersections == Crossings(testLine, sides[..j])
    {
      var side := sides[j];
      CrossingsOfLongerPrefix(testLine, sides, j);
      if (testLine.lat1 > side.lat1) != (testLine.lat2 > side.lat1)
         && (testLine.lng1 < side.lng1 || testLine.lng2 < side.lng1)
      {
        intersections := intersections + 1;
      }
    }
    assert sides[..|sides|] == sides;
  }

  /** The sides the first loop of `criteria` collects are those of `SidesOf`. */
  lemma CollectedSides(coordinates: seq<seq<real>>, sides: seq<Segment>)
    requires WellFormedRing(coordinates)
    requires |sides| == |coordinates| - 1
    requires forall k :: 0 <= k < |sides| ==> sides[k] == SideBetween(coordinates[k], coordinates[k + 1])
    ensures sides == SidesOf(coordinates)
  {
  }

  /** Counting one more side adds one exactly when that side is crossed. */
  lemma CrossingsOfLongerPrefix(testLine: Segment, sides: seq<Segment>, j: nat)
    requires j < |sides|
    ensures Crossings(testLine, sides[..j + 1])
            == Crossings(testLine, sides[..j]) + (if Crosses(testLine, sides[j]) then 1 else 0)
  {
    assert sides[..j + 1][..j] == sides[..j];
  }

  /** `RestaurantFilter`: holds the restaurant list it was built with and filters it without changing it. */
  class RestaurantFilter {
    var restaurants: seq<Restaurant>

    constructor (restaurants: seq<Restaurant>)
      ensures this.restaurants == restaurants
    {
      this.restaurants := restaurants;
    }

    /** `filter`: the restaurants satisfying `criteria`, in their original order. */
    function Filter(criteria: Restaurant -> bool): (r: seq<Restaurant>)
      reads this
      ensures IsSubsequence(r, restaurants) && |r| <= |restaurants|
      ensures forall i :: 0 <= i < |r| ==> criteria(r[i])
      ensures forall i :: 0 <= i < |restaurants| ==> (criteria(restaurants[i]) <==> restaurants[i] in r)
      ensures forall x :: multiset(r)[x] == if criteria(x) then multiset(restaurants)[x] else 0
    {
      SelectIsSubsequence(restaurants, criteria);
      SelectMembers(restaurants, criteria);
      SelectCount(restaurants, criteria);
      Select(restaurants, criteria)
    }

    /**
     * `filter_by_area`: the restaurants whose crossing count against the ring
     * is odd, in their original order. The comprehension calls `criteria` only
     * when there is a restaurant, so an empty list gives `[]` whatever the
     * ring; otherwise a ring `criteria` cannot read raises `IndexError`.
     */
    function FilterByArea(coordinates: seq<seq<real>>): (r: Result<seq<Restaurant>, AreaError>)
      reads this
      ensures r.Failure? <==> restaurants != [] && !WellFormedRing(coordinates)
      ensures restaurants == [] ==> r == Success([])
      ensures r.Success? ==> IsSubsequence(r.value, restaurants)
      ensures r.Success? && WellFormedRing(coordinates) ==>
                && (forall i :: 0 <= i < |r.value| ==> Inside(coordinates, r.value[i]))
                && (forall i :: 0 <= i < |restaurants| ==> (Inside(coordinates, restaurants[i]) <==> restaurants[i] in r.value))
                && (forall x :: multiset(r.value)[x] == if Inside(coordinates, x) then multiset(restaurants)[x] else 0)
    {
      if restaurants == [] then Success([])
      else if !WellFormedRing(coordinates) then Failure(IndexError)
      else Success(Filter(restaurant => Inside(coordinates, restaurant)))
    }
  }

  /** Written out against the fixed end (0.0, 0.0) of the test line, the crossing condition reads only the side's first endpoint. */
  lemma CrossedSideAgainstOrigin(restaurant: Restaurant, side: Segment)
    ensures Crosses(TestLine(restaurant), side)
        <==> ((restaurant.lat > side.lat1) != (0.0 > side.lat1)) && (restaurant.lng < side.lng1 || 0.0 < side.lng1)
  {
  }

  /** The count depends only on each side's first endpoint. */
  lemma {:induction false} CrossingsReadFirstEndpoints(testLine: Segment, sides: seq<Segment>, others: seq<Segment>)
    requires |sides| == |others|
    requires forall k :: 0 <= k < |sides| ==> sides[k].lat1 == others[k].lat1 && sides[k].lng1 == others[k].lng1
    ensures Crossings(testLine, sides) == Crossings(testLine, others)
  {
    if sides != [] {
      CrossingsReadFirstEndpoints(testLine, sides[..|sides| - 1], others[..|others| - 1]);
    }
  }

  /**
   * Two rings of the same length that agree on `[0]` and `[1]` of every point
   * but the last give the same verdict: the closing point of a ring is never
   * consulted, and no point is consulted beyond its `[lng, lat]` pair.
   */
  lemma LastPointNeverConsulted(coordinates: seq<seq<real>>, others: seq<seq<real>>, restaurant: Restaurant)
    requires WellFormedRing(coordinates) && WellFormedRing(others)
    requires |coordinates| == |others|
    requires forall k :: 0 <= k < |coordinates| - 1 ==>
               |coordinates[k]| >= 2 && |others[k]| >= 2
               && coordinates[k][0] == others[k][0] && coordinates[k][1] == others[k][1]
    ensures Inside(coordinates, restaurant) <==> Inside(others, restaurant)
  {
    CrossingsReadFirstEndpoints(TestLine(restaurant), SidesOf(coordinates), SidesOf(others));
  }

  /** A ring of one point has no sides, so the area filter keeps nothing. */
  lemma SinglePointRingKeepsNothing(restaurants: seq<Restaurant>, coordinates: seq<seq<real>>)
    requires |coordinates| == 1
    ensures Select(restaurants, restaurant => Inside(coordinates, restaurant)) == []
  {
    assert forall restaurant :: !Inside(coordinates, restaurant) by {
      assert SidesOf(coordinates) == [];
    }
    SelectExtremes(restaurants, restaurant => Inside(coordinates, restaurant));
  }

  /** The four-corner ring (closed by repeating its first point) used with the two Korean barbecue restaurants. */
  const SampleRing: seq<seq<real>> := [
    [-0.15597578408775803, 51.52006495254355],
    [-0.12115465851121598, 51.51997429506574],
    [-0.12086326833875205, 51.50084153079112],
    [-0.15218771184885327, 51.5022019452189],
    [-0.15597578408775803, 51.52006495254355]
  ]

  const Olle := Restaurant("Olle - KBBQ", 51.512069, -0.131557)
  const BabNSul := Restaurant("Bab n Sul - KBBQ", 51.51187820780646, -0.12389412811535294)

  /** Both sample restaurants lie in the sample ring and are kept in input order. */
  lemma SampleRingKeepsBoth()
    ensures WellFormedRing(SampleRing)
    ensures Select([Olle, BabNSul], restaurant => Inside(SampleRing, restaurant)) == [Olle, BabNSul]
  {
    SampleRingCrossedOnce(Olle);
    SampleRingCrossedOnce(BabNSul);
    SelectExtremes([Olle, BabNSul], restaurant => Inside(SampleRing, restaurant));
  }

  /** Against the sample ring, a point south of the first two corners, north of the last two and west of the third corner only crosses one side. */
  lemma SampleRingCrossedOnce(restaurant: Restaurant)
    requires 51.5022019452189 < restaurant.lat < 51.51997429506574
    requires -0.15218771184885327 <= restaurant.lng < -0.12086326833875205
    ensures WellFormedRing(SampleRing) && Inside(SampleRing, restaurant)
  {
    var sides := SidesOf(SampleRing);
    var t := TestLine(restaurant);
    assert sides[0].lat1 == 51.52006495254355;
    assert sides[1].lat1 == 51.51997429506574;
    assert sides[2].lat1 == 51.50084153079112 && sides[2].lng1 == -0.12086326833875205;
    assert sides[3].lat1 == 51.5022019452189 && sides[3].lng1 == -0.15218771184885327;
    assert Crossings(t, sides[..1]) == 0 by { assert sides[..1][..0] == []; }
    assert Crossings(t, sides[..2]) == 0 by { assert sides[..2][..1] == sides[..1]; }
    assert Crossings(t, sides[..3]) == 1 by { assert sides[..3][..2] == sides[..2]; }
    assert Crossings(t, sides[..4]) == 1 by { assert sides[..4][..3] == sides[..3]; }
    assert sides[..4] == sides;
  }

  /**
   * Within the same latitude band, a point west of the fourth corner's
   * longitude crosses two sides and is rejected, although the slanted west
   * edge of the ring lies further west: each side acts as if it stood at its
   * first endpoint.
   */
  lemma SampleRingWestOfFourthCornerRejected(restaurant: Restaurant)
    requires 51.5022019452189 < restaurant.lat < 51.51997429506574
    requires restaurant.lng < -0.15218771184885327
    ensures WellFormedRing(SampleRing) && !Inside(SampleRing, restaurant)
  {
    var sides := SidesOf(SampleRing);
    var t := TestLine(restaurant);
    assert sides[0].lat1 == 51.52006495254355;
    assert sides[1].lat1 == 51.51997429506574;
    assert sides[2].lat1 == 51.50084153079112 && sides[2].lng1 == -0.12086326833875205;
    assert sides[3].lat1 == 51.5022019452189 && sides[3].lng1 == -0.15218771184885327;
    assert Crossings(t, sides[..1]) == 0 by { assert sides[..1][..0] == []; }
    assert Crossings(t, sides[..2]) == 0 by { assert sides[..2][..1] == sides[..1]; }
    assert Crossings(t, sides[..3]) == 1 by { assert sides[..3][..2] == sides[..2]; }
    assert Crossings(t, sides[..4]) == 2 by { assert sides[..4][..3] == sides[..3]; }
    assert sides[..4] == sides;
  }
}
