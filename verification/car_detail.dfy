/**
 * The detail view of one car: the fetched record, the carousel index and
 * the error message, with the handlers that change them and the decision
 * of what is rendered.
 */
module CarDetail {
  import opened Wrappers
  import opened Http
  import opened Listing
  import opened Carousel

  const LoadError: string := "Failed to load car details"

  /** What the page renders. `image` is `None` where the source would read
      past the end of the image list (an `undefined` image source). */
  datatype DetailView =
    | ErrorMessage(message: string)
    | Skeleton
    | Detail(car: Car, image: Option<string>, controls: bool)

  class CarDetailPage {
    var car: Option<Car>
    var currentImageIndex: nat
    var error: string
    var requests: seq<Request>

    /** A freshly mounted page: no car yet, the first image, no error. */
    constructor ()
      ensures car == None && currentImageIndex == 0 && error == "" && requests == []
    {
      car := None;
      currentImageIndex := 0;
      error := "";
      requests := [];
    }

    /** The fetch run on mount and whenever the route identifier changes.
        The index is not reset when a different car arrives. */
    method FetchCar(id: string, response: Option<Car>)
      modifies this
      ensures requests == old(requests) + [Request(Get, CarUrl(id), false, [])]
      ensures response.Some? ==> car == response && error == old(error)
      ensures response.None? ==> car == old(car) && error == LoadError
      ensures currentImageIndex == old(currentImageIndex)
    {
      requests := requests + [Request(Get, CarUrl(id), false, [])];
      if response.Some? {
        car := response;
      } else {
        error := LoadError;
      }
    }

    /** The "next" button; nothing happens before the car has arrived. */
    method NextImage()
      requires car.Some? ==> |car.value.images| > 0
      modifies this
      ensures car == old(car) && error == old(error) && requests == old(requests)
      ensures car.None? ==> currentImageIndex == old(currentImageIndex)
      ensures car.Some? ==> currentImageIndex == NextIndex(old(currentImageIndex), |car.value.images|)
      ensures car.Some? ==> currentImageIndex < |car.value.images|
    {
      if car.Some? {
        currentImageIndex := NextIndex(currentImageIndex, |car.value.images|);
      }
    }

    /** The "previous" button; nothing happens before the car has arrived. */
    method PreviousImage()
      requires car.Some? ==> |car.value.images| > 0
      modifies this
      ensures car == old(car) && error == old(error) && requests == old(requests)
      ensures car.None? ==> currentImageIndex == old(currentImageIndex)
      ensures car.Some? ==> currentImageIndex == PreviousIndex(old(currentImageIndex), |car.value.images|)
      ensures car.Some? ==> currentImageIndex < |car.value.images|
    {
      if car.Some? {
        currentImageIndex := PreviousIndex(currentImageIndex, |car.value.images|);
      }
    }

    /** An error hides everything else; without a car a placeholder is
        shown; otherwise the current image, with navigation controls exactly
        when there is more than one image. */
    function View(): (v: DetailView)
      reads this
      ensures v.ErrorMessage? <==> error != ""
      ensures v.Skeleton? <==> error == "" && car.None?
      ensures v.Detail? ==> car == Some(v.car) && (v.controls <==> |v.car.images| > 1)
      ensures v.Detail? && currentImageIndex < |v.car.images| ==> v.image == Some(v.car.images[currentImageIndex])
      ensures v.Detail? && currentImageIndex >= |v.car.images| ==> v.image == None
    {
      if error != "" then ErrorMessage(error)
      else if car.None? then Skeleton
      else
        var images := car.value.images;
        Detail(car.value,
               if currentImageIndex < |images| then Some(images[currentImageIndex]) else None,
               ShowControls(images))
    }
  }
}
