/**
 * The second copy of the filter, `restaraunt_filter.py`. Its `filter` and
 * `filter_by_area` are the same code as in `restaurant_filter.py`, so this
 * class is specified by the same crossing-count definition (`AreaFilter`);
 * `filter_by_time` here is an unimplemented stub.
 */
module RestarauntFilter {
  import opened Wrappers
  import opened Selection
  import opened AreaFilter

  class RestaurantFilter {
    var restaurants: seq<Restaurant>

    constructor (restaurants: seq<Restaurant>)
      ensures this.restaurants == restaurants
    {
      this.restaurants := restaurants;
    }

    /** `filter`: the restaurants satisfying `criteria`, in their original order. */
    function Filter(criteria: Restaurant -> bool): (r: seq<Restaurant>)
      reads this
      ensures IsSubsequence(r, restaurants) && |r| <= |restaurants|
      ensures forall i :: 0 <= i < |r| ==> criteria(r[i])
      ensures forall i :: 0 <= i < |restaurants| ==> (criteria(restaurants[i]) <==> restaurants[i] in r)
      ensures forall x :: multiset(r)[x] == if criteria(x) then multiset(restaurants)[x] else 0
    {
      SelectIsSubsequence(restaurants, criteria);
      SelectMembers(restaurants, criteria);
      SelectCount(restaurants, criteria);
      Select(restaurants, criteria)
    }

    /**
     * `filter_by_area`: the same crossing-count test as the first copy,
     * applied through `filter`; `criteria` runs, and can raise `IndexError`,
     * only when there is a restaurant.
     */
    function FilterByArea(coordinates: seq<seq<real>>): (r: Result<seq<Restaurant>, AreaError>)
      reads this
      ensures r.Failure? <==> restaurants != [] && !WellFormedRing(coordinates)
      ensures restaurants == [] ==> r == Success([])
      ensures r.Success? ==> IsSubsequence(r.value, restaurants)
      ensures r.Success? && WellFormedRing(coordinates) ==>
                && (forall i :: 0 <= i < |restaurants| ==> (Inside(coordinates, restaurants[i]) <==> restaurants[i] in r.value))
                && (forall x :: multiset(r.value)[x] == if Inside(coordinates, x) then multiset(restaurants)[x] else 0)
                && r.value == Select(restaurants, restaurant => Inside(coordinates, restaurant))
    {
      if restaurants == [] then Success([])
      else if !WellFormedRing(coordinates) then Failure(IndexError)
      else Success(Filter(restaurant => Inside(coordinates, restaurant)))
    }

    /** `filter_by_time`: its body is `pass`, so every call returns `None`. */
    function FilterByTime(diningTime: string): (r: Option<seq<Restaurant>>)
      ensures r == None
    {
      None
    }
  }
}
