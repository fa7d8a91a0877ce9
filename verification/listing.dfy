/**
 * A car record as the listing pages receive it, the search filter shared by
 * the public listing and the owner dashboard, and the list update applied
 * after a delete.
 */
module Listing {
  import opened JsString
  import opened JsArray

  /** The listing and detail views receive the owner populated; the owner
      dashboard receives only the owner's identifier. */
  datatype Owner = Owner(id: string, username: string) | OwnerId(id: string)

  datatype Car = Car(id: string, title: string, description: string,
                     images: seq<string>, tags: seq<string>, owner: Owner)

  /** The search predicate: the lower-cased term occurs in the lower-cased
      title, the lower-cased description, or some lower-cased tag. */
  predicate Matches(car: Car, term: string)
    ensures term == "" ==> Matches(car, term)
    ensures Matches(car, term) ==>
              || |term| <= |car.title| || |term| <= |car.description|
              || exists tag :: tag in car.tags && |term| <= |tag|
    ensures Includes(car.title, term) ==> Matches(car, term)
  {
    var needle := Lower(term);
    assert Includes(car.title, term) ==> Includes(Lower(car.title), needle) by {
      if Includes(car.title, term) {
        IncludesLower(car.title, term);
      }
    }
    || Includes(Lower(car.title), needle)
    || Includes(Lower(car.description), needle)
    || exists tag :: tag in car.tags && Includes(Lower(tag), needle)
  }

  /** The cars shown for a search term: exactly the matching cars, each as
      often as in `cars`, in their original order. */
  function FilterCars(cars: seq<Car>, term: string): (r: seq<Car>)
    ensures IsSubsequence(r, cars)
    ensures forall c :: c in r <==> c in cars && Matches(c, term)
    ensures forall c :: multiset(r)[c] == if Matches(c, term) then multiset(cars)[c] else 0
  {
    var keep := (car: Car) => Matches(car, term);
    FilterIsSubsequence(cars, keep);
    forall c ensures multiset(Filter(cars, keep))[c] == if keep(c) then multiset(cars)[c] else 0 {
      FilterCounts(cars, keep, c);
    }
    Filter(cars, keep)
  }

  /** The empty search term matches every car, so nothing is hidden. */
  lemma EmptyTermShowsAll(cars: seq<Car>)
    ensures FilterCars(cars, "") == cars
  {
    var keep := (car: Car) => Matches(car, "");
    assert Lower("") == "";
    FilterKeepsAll(cars, keep);
  }

  /** The filtered list is empty exactly when no car matches. */
  lemma NothingShownIffNoMatch(cars: seq<Car>, term: string)
    ensures FilterCars(cars, term) == [] <==> forall c :: c in cars ==> !Matches(c, term)
  {
    var r := FilterCars(cars, term);
    if r != [] {
      assert r[0] in r;
    }
  }

  /** The search is case-insensitive in the term. */
  lemma MatchIgnoresTermCase(car: Car, term: string)
    ensures Matches(car, Lower(term)) == Matches(car, term)
  {
    LowerIdempotent(term);
  }

  /** A car whose title, description or a tag contains the term verbatim is
      found. */
  lemma VerbatimOccurrenceMatches(car: Car, term: string)
    requires || Includes(car.title, term)
             || Includes(car.description, term)
             || exists tag :: tag in car.tags && Includes(tag, term)
    ensures Matches(car, term)
  {
    if Includes(car.title, term) {
      IncludesLower(car.title, term);
    } else if Includes(car.description, term) {
      IncludesLower(car.description, term);
    } else {
      var tag :| tag in car.tags && Includes(tag, term);
      IncludesLower(tag, term);
    }
  }

  /** The local list after deleting `carId`: no car with that identifier is
      left, every other car stays as often as it was, and the order is kept. */
  function RemoveById(cars: seq<Car>, carId: string): (r: seq<Car>)
    ensures IsSubsequence(r, cars)
    ensures forall c :: c in r ==> c.id != carId
    ensures forall c: Car :: c.id != carId ==> multiset(r)[c] == multiset(cars)[c]
    ensures (forall c :: c in cars ==> c.id != carId) ==> r == cars
  {
    var keep := (car: Car) => car.id != carId;
    FilterIsSubsequence(cars, keep);
    forall c ensures multiset(Filter(cars, keep))[c] == if keep(c) then multiset(cars)[c] else 0 {
      FilterCounts(cars, keep, c);
    }
    assert (forall c :: c in cars ==> c.id != carId) ==> Filter(cars, keep) == cars by {
      if forall c :: c in cars ==> c.id != carId {
        FilterKeepsAll(cars, keep);
      }
    }
    Filter(cars, keep)
  }
}
