/** Lists made by visiting places in order: nothing is left out, nothing is listed twice. */
module Listing {
  /** A place is found by up to four indices, the most significant first. */
  datatype Place = Place(a: nat, b: nat, c: nat, d: nat)

  predicate Before(p: Place, q: Place) {
    || p.a < q.a
    || (p.a == q.a && (p.b < q.b || (p.b == q.b && (p.c < q.c || (p.c == q.c && p.d < q.d)))))
  }

  /** The items are those that hold at the places before the bound, in the order of the places, one for each place. */
  ghost predicate Lists<B(!new)>(holds: (Place, B) -> bool, bound: Place, places: seq<Place>, items: seq<B>) {
    && |places| == |items|
    && (forall i, j :: 0 <= i < j < |places| ==> Before(places[i], places[j]))
    && (forall i :: 0 <= i < |places| ==> Before(places[i], bound) && holds(places[i], items[i]))
    && (forall p, x :: holds(p, x) && Before(p, bound) ==> p in places)
  }

  /** Nothing holds from one place up to another. */
  ghost predicate Free<B(!new)>(holds: (Place, B) -> bool, from: Place, to: Place) {
    forall p, x :: holds(p, x) ==> Before(p, from) || !Before(p, to)
  }

  lemma ListsNothing<B(!new)>(holds: (Place, B) -> bool)
    ensures Lists(holds, Place(0, 0, 0, 0), [], [])
  {
  }

  lemma ListsOn<B(!new)>(holds: (Place, B) -> bool, from: Place, to: Place, places: seq<Place>, items: seq<B>)
    requires Lists(holds, from, places, items) && (from == to || Before(from, to)) && Free(holds, from, to)
    ensures Lists(holds, to, places, items)
  {
  }

  /** One more place with an item. */
  lemma ListsSnoc<B(!new)>(
    holds: (Place, B) -> bool, from: Place, to: Place, places: seq<Place>, items: seq<B>, item: B)
    requires Lists(holds, from, places, items) && holds(from, item) && Before(from, to)
    requires forall p, x :: holds(p, x) ==> Before(p, from) || p == from || !Before(p, to)
    ensures Lists(holds, to, places + [from], items + [item])
  {
    forall p, x | holds(p, x) && Before(p, to) ensures p in places + [from] {
      if p == from {
        assert (places + [from])[|places|] == p;
      } else {
        assert p in places;
      }
    }
  }

  /** Between the two places nothing holds but at the first. */
  ghost predicate Adjacent<B(!new)>(holds: (Place, B) -> bool, from: Place, next: Place) {
    Before(from, next) && forall p, x :: holds(p, x) ==> Before(p, from) || p == from || !Before(p, next)
  }

  function Found<B>(item: B, here: bool): seq<B> {
    if here then [item] else []
  }

  /** A list that is complete up to a place is complete up to the next with what holds there. */
  lemma ListsStep<B(!new)>(
    holds: (Place, B) -> bool, from: Place, next: Place, places: seq<Place>, items: seq<B>, item: B, here: bool)
    returns (places': seq<Place>)
    requires Lists(holds, from, places, items) && Adjacent(holds, from, next)
    requires forall x :: holds(from, x) <==> here && x == item
    ensures Lists(holds, next, places', items + Found(item, here))
  {
    if here {
      ListsSnoc(holds, from, next, places, items, item);
      places' := places + [from];
    } else {
      assert items + [] == items;
      ListsOn(holds, from, next, places, items);
      places' := places;
    }
  }

  /** What is listed holds somewhere, and what holds somewhere before the bound is listed when a place has one item. */
  lemma ListedMeans<B(!new)>(holds: (Place, B) -> bool, bound: Place, places: seq<Place>, items: seq<B>, item: B)
    requires Lists(holds, bound, places, items)
    requires forall p, x, y :: holds(p, x) && holds(p, y) ==> x == y
    ensures item in items <==> exists p :: Before(p, bound) && holds(p, item)
  {
    if item in items {
      var i :| 0 <= i < |items| && items[i] == item;
      assert holds(places[i], item);
    }
    if p :| Before(p, bound) && holds(p, item) {
      assert p in places;
      var i :| 0 <= i < |places| && places[i] == p;
      assert holds(places[i], items[i]);
    }
  }
}
