/**
 * The public listing: the fetched cars, the search term, the loading and
 * error flags, the delete and the decision of what is rendered.
 */
module Home {
  import opened Wrappers
  import opened Http
  import opened Listing

  const FetchError: string := "Failed to fetch cars. Please try again later."
  const NoMatchHint: string := "Try adjusting your search terms"
  const EmptyHint: string := "Start by adding a new car"

  datatype HomeView =
    | Skeleton
    | ErrorBanner(message: string)
    | NoCarsFound(hint: string)
    | Grid(shown: seq<Car>)

  class HomePage {
    var cars: seq<Car>
    var searchTerm: string
    var loading: bool
    var error: Option<string>
    var requests: seq<Request>

    /** A freshly mounted page: nothing fetched yet, loading. */
    constructor ()
      ensures cars == [] && searchTerm == "" && loading && error == None && requests == []
    {
      cars := [];
      searchTerm := "";
      loading := true;
      error := None;
      requests := [];
    }

    /** Typing in the search box. */
    method SetSearchTerm(term: string)
      modifies this
      ensures searchTerm == term
      ensures cars == old(cars) && loading == old(loading) && error == old(error)
      ensures requests == old(requests)
    {
      searchTerm := term;
    }

    /** The first half of `fetchCars`: raise the loading flag, clear the
        error and issue the unauthenticated read of the whole collection. */
    method BeginFetch()
      modifies this
      ensures loading && error == None
      ensures cars == old(cars) && searchTerm == old(searchTerm)
      ensures requests == old(requests) + [Request(Get, CarsEndpoint, false, [])]
    {
      loading := true;
      error := None;
      requests := requests + [Request(Get, CarsEndpoint, false, [])];
    }

    /** The second half of `fetchCars`, once the read has settled: store the
        cars or the fixed error message, then lower the loading flag in
        either case. */
    method SettleFetch(response: Option<seq<Car>>)
      modifies this
      ensures !loading
      ensures response.Some? ==> cars == response.value && error == old(error)
      ensures response.None? ==> cars == old(cars) && error == Some(FetchError)
      ensures searchTerm == old(searchTerm) && requests == old(requests)
    {
      if response.Some? {
        cars := response.value;
      } else {
        error := Some(FetchError);
      }
      loading := false;
    }

    /** `fetchCars` from start to end (run on mount and by "Try again"). */
    method FetchCars(response: Option<seq<Car>>)
      modifies this
      ensures !loading
      ensures response.Some? ==> cars == response.value && error == None
      ensures response.None? ==> cars == old(cars) && error == Some(FetchError)
      ensures searchTerm == old(searchTerm)
      ensures requests == old(requests) + [Request(Get, CarsEndpoint, false, [])]
    {
      BeginFetch();
      SettleFetch(response);
    }

    /** `handleDelete`: a declined confirmation sends nothing; a confirmed
        one sends the delete, and only when it succeeds are the cars with
        that identifier dropped from the local list. */
    method HandleDelete(carId: string, confirmed: bool, deleted: bool)
      modifies this`requests, this`cars
      ensures requests == old(requests) + if confirmed then [Request(Delete, CarUrl(carId), true, [])] else []
      ensures confirmed && deleted ==> cars == RemoveById(old(cars), carId)
      ensures !(confirmed && deleted) ==> cars == old(cars)
      ensures searchTerm == old(searchTerm) && loading == old(loading) && error == old(error)
    {
      if confirmed {
        requests := requests + [Request(Delete, CarUrl(carId), true, [])];
        if deleted {
          cars := RemoveById(cars, carId);
        }
      }
    }

    /** The cars matching the current search term. */
    function FilteredCars(): (r: seq<Car>)
      reads this
      ensures forall c :: c in r <==> c in cars && Matches(c, searchTerm)
    {
      FilterCars(cars, searchTerm)
    }

    /** The error banner is shown when the message is a non-empty string. */
    predicate ErrorShown()
      reads this
    {
      error.Some? && error.value != ""
    }

    /** Loading wins, then the error banner; after that "No cars found" is
        shown exactly when no car matches the search, and otherwise the grid
        of matching cars. */
    function View(): (v: HomeView)
      reads this
      ensures v.Skeleton? <==> loading
      ensures v.ErrorBanner? <==> !loading && ErrorShown()
      ensures v.NoCarsFound? <==> !loading && !ErrorShown() && forall c :: c in cars ==> !Matches(c, searchTerm)
      ensures v.NoCarsFound? ==> v.hint == if searchTerm != "" then NoMatchHint else EmptyHint
      ensures v.Grid? ==> v.shown != [] && forall c :: c in v.shown <==> c in cars && Matches(c, searchTerm)
    {
      NothingShownIffNoMatch(cars, searchTerm);
      if loading then Skeleton
      else if ErrorShown() then ErrorBanner(error.value)
      else if FilteredCars() == [] then NoCarsFound(if searchTerm != "" then NoMatchHint else EmptyHint)
      else Grid(FilteredCars())
    }
  }
}
