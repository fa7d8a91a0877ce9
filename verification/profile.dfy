/**
 * The owner dashboard: the authentication guard, the read of the user's
 * cars, the delete, the search filter and the decision of what
 * is rendered.
 */
module Profile {
  import opened Wrappers
  import opened Http
  import opened Listing

  datatype User = User(id: string, username: string)

  datatype ProfileView = NoCarsFound | Grid(shown: seq<Car>)

  /** The read of one user's cars. */
  function UserCarsUrl(userId: string): (u: string)
    ensures UserCarsEndpoint <= u
    ensures u[|UserCarsEndpoint|..] == userId
  {
    UserCarsEndpoint + userId
  }

  class ProfilePage {
    var userCars: seq<Car>
    var loading: bool
    var searchQuery: string
    var navigations: seq<string>
    var requests: seq<Request>

    /** A freshly mounted page. */
    constructor ()
      ensures userCars == [] && loading && searchQuery == ""
      ensures navigations == [] && requests == []
    {
      userCars := [];
      loading := true;
      searchQuery := "";
      navigations := [];
      requests := [];
    }

    /** Typing in the search box. */
    method SetSearchQuery(query: string)
      modifies this
      ensures searchQuery == query
      ensures userCars == old(userCars) && loading == old(loading)
      ensures navigations == old(navigations) && requests == old(requests)
    {
      searchQuery := query;
    }

    /** `fetchUserCars`: raise the loading flag, read the user's cars with
        the bearer token and store them; when there is no user, reading its
        identifier throws before any request is sent. Whatever happens, the
        loading flag ends lowered and a failure leaves the list as it was. */
    method FetchUserCars(user: Option<User>, response: Option<seq<Car>>)
      modifies this
      ensures !loading
      ensures user.None? ==> requests == old(requests) && userCars == old(userCars)
      ensures user.Some? ==> requests == old(requests) + [Request(Get, UserCarsUrl(user.value.id), true, [])]
      ensures user.Some? && response.Some? ==> userCars == response.value
      ensures response.None? ==> userCars == old(userCars)
      ensures searchQuery == old(searchQuery) && navigations == old(navigations)
    {
      loading := true;
      if user.Some? {
        requests := requests + [Request(Get, UserCarsUrl(user.value.id), true, [])];
        if response.Some? {
          userCars := response.value;
        }
      }
      loading := false;
    }

    /** The mount effect: without authentication it redirects to the
        listing and reads nothing; with it, it reads the user's cars. */
    method OnAuthState(isAuthenticated: bool, user: Option<User>, response: Option<seq<Car>>)
      modifies this
      ensures !isAuthenticated ==> navigations == old(navigations) + ["/"]
      ensures !isAuthenticated ==> requests == old(requests) && userCars == old(userCars) && loading == old(loading)
      ensures isAuthenticated ==> navigations == old(navigations) && !loading
      ensures isAuthenticated && user.Some? ==> requests == old(requests) + [Request(Get, UserCarsUrl(user.value.id), true, [])]
      ensures isAuthenticated && user.None? ==> requests == old(requests)
      ensures isAuthenticated && user.Some? && response.Some? ==> userCars == response.value
      ensures isAuthenticated && (user.None? || response.None?) ==> userCars == old(userCars)
      ensures searchQuery == old(searchQuery)
    {
      if !isAuthenticated {
        navigations := navigations + ["/"];
      } else {
        FetchUserCars(user, response);
      }
    }

    /** `handleDelete`: a declined confirmation sends nothing; a confirmed
        one sends the delete, and only when it succeeds are the cars with
        that identifier dropped from the local list. */
    method HandleDelete(carId: string, confirmed: bool, deleted: bool)
      modifies this
      ensures requests == old(requests) + if confirmed then [Request(Delete, CarUrl(carId), true, [])] else []
      ensures confirmed && deleted ==> userCars == RemoveById(old(userCars), carId)
      ensures !(confirmed && deleted) ==> userCars == old(userCars)
      ensures loading == old(loading) && searchQuery == old(searchQuery) && navigations == old(navigations)
    {
      if confirmed {
        requests := requests + [Request(Delete, CarUrl(carId), true, [])];
        if deleted {
          userCars := RemoveById(userCars, carId);
        }
      }
    }

    /** The grid of matching cars when some car matches, "No cars found."
        otherwise; the loading flag plays no part in what is rendered. */
    function View(): (v: ProfileView)
      reads this
      ensures v.NoCarsFound? <==> forall c :: c in userCars ==> !Matches(c, searchQuery)
      ensures v.Grid? ==> v.shown != [] && forall c :: c in v.shown <==> c in userCars && Matches(c, searchQuery)
    {
      var shown := FilterCars(userCars, searchQuery);
      NothingShownIffNoMatch(userCars, searchQuery);
      if shown != [] then Grid(shown) else NoCarsFound
    }
  }
}
