# Car listings front end — a verified model of its page logic

This project models, in Dafny, the sequential logic inside the page
components of a small React front end that lists, shows, creates, edits and
deletes car classified ads held by a remote REST API. The model covers four pages:

- **Car form** (`CarForm.CarFormPage`). This is the create/edit draft:
  title, description, tags, newly chosen image files, retained existing
  image URLs, the tag input and the error message. It has the event
  handlers that replace them and the multipart request built on submit.
  The draft keeps two invariants: at most 10 images in total, and no
  duplicate tags.
- **Listing** (`Home.HomePage`). This holds the fetched cars and the search
  term. It has the `loading`/`error` flag protocol around the fetch, the
  delete, and the choice between placeholder, error banner,
  "No cars found" and the grid of cars.
- **Owner dashboard** (`Profile.ProfilePage`). This has the authentication
  guard, the read of the user's cars, the delete, and the choice between
  the grid and "No cars found.".
- **Detail view** (`CarDetail.CarDetailPage`, `Carousel`). This is the
  image carousel index, which moves with wrap-around, plus the rule that
  navigation controls appear only for more than one image.

The listing and the dashboard share one search predicate (`Listing.Matches`):
a car passes when the lower-cased term occurs in its lower-cased title, its
description, or one of its tags. They also share the list update after a
delete (`Listing.RemoveById`).

The JavaScript operations the pages are built from are modelled once each:

- `Array.prototype.filter` is `JsArray.Filter`, or `JsArray.FilterOutIndex`
  for the by-index filter.
- `String.prototype.includes` is `JsString.Includes`.
- `trim` is `JsString.Trim`, with the exact ECMAScript whitespace set.
- `toLowerCase` is `JsString.Lower`.
- `%` is `Carousel.JsRem`, a truncated remainder. Dafny's own `%` is
  Euclidean.

The outside world becomes method parameters:

- HTTP outcomes take three forms. A fetch receives an `Option` value, and
  `None` means the request failed. `HandleDelete` on the listing and on the
  dashboard receives a `deleted` flag. The form's `Submit` receives a
  `SubmitOutcome`: `Saved`, or `Failed` with the server's message if it sent
  one.
- `window.confirm` is a `confirmed` flag.
- The authentication state and the current user are parameters too.

Outgoing requests are recorded in a `requests` log of `Http.Request` values:
verb, URL, whether the bearer token is attached, and the multipart body.
Navigations are recorded in a `navigations` log.

Behaviour of the code that the model keeps:

- The listing defines a delete handler (`Home.HomePage.HandleDelete`), but
  no control on the listing page calls it. Only the dashboard's delete
  button can be reached by a user.
- A delete removes the car from the local list only after the delete request
  succeeds. The statement inside the `try` comes after the `await`. It is not
  an optimistic removal before the request.
- The owner dashboard reads from `http://localhost:5000/api/users/user/{id}`.
  Every other call goes to the deployed backend.
- The dashboard's rendering ignores `loading`, because its loading branch is
  commented out. While loading it shows "No cars found." or the grid.
- In the form, a route identifier selects edit mode only when it is a
  non-empty string. This is JavaScript truthiness (`IsTruthy`).
- On the dashboard, a missing user makes `user.id` throw inside the `try`.
  So no request is sent, the list is kept, and `loading` is still lowered.
- The two draft invariants are kept by every form handler, but not by
  loading a car for editing. That load copies the server's tags and images
  as they are, so a stored record with more than 10 images or with repeated
  tags enters the draft unchanged. The handlers' contracts therefore say
  that an invariant that held before still holds after.
- The detail view does not reset the carousel index when a different car
  arrives. `View` then shows no image (`image == None`) until "next" or
  "previous" brings the index back into range.

## Model

| member | source | states |
|---|---|---|
| JsString.LowerChar | src/pages/Home.tsx:46-48 | an upper-case ASCII letter maps to the letter 32 code points above it, which is lower case; every other character is unchanged |
| JsString.Lower | src/pages/Home.tsx:46-48 | lower-casing keeps the length, maps each character through the letter mapping, and leaves no upper-case ASCII letter |
| JsString.LowerIdempotent | src/pages/Home.tsx:46-48 | lower-casing an already lower-cased string changes nothing |
| JsString.Includes | src/pages/Home.tsx:46-48 | the empty string occurs in every string; an occurring string is no longer than the one it occurs in |
| JsString.IncludesIffOccurs | src/pages/Home.tsx:46-48 | `includes` holds exactly when the term is the slice of the string at some offset |
| JsString.IncludesLower | src/pages/Home.tsx:46-48 | a case-sensitive occurrence is also an occurrence after lower-casing both sides |
| JsString.TrimStart | src/pages/CarForm.tsx:107 | the result is a suffix, everything dropped is whitespace, and the result does not start with whitespace |
| JsString.TrimEnd | src/pages/CarForm.tsx:107 | the result is a prefix, everything dropped is whitespace, and the result does not end with whitespace |
| JsString.Trim | src/pages/CarForm.tsx:107 | `trim()` is never longer than its input, neither starts nor ends with whitespace, and is empty (falsy, as `tagInput.trim()` is tested) exactly when the input is all whitespace |
| JsString.TrimIsInnerSlice | src/pages/CarForm.tsx:107-112 | the trimmed tag is a slice of the input with only whitespace around it and no whitespace at either end |
| JsString.TrimIdempotent | src/pages/CarForm.tsx:109-112 | trimming the trimmed tag again changes nothing |
| JsArray.Filter | src/pages/Home.tsx:45-49 | the filtered list is no longer than the input; every kept element is in the input and passes; every passing element of the input is kept |
| JsArray.FilterIsSubsequence | src/pages/Home.tsx:45 | filtering keeps order and adds nothing (the result is a subsequence) |
| JsArray.FilterCounts | src/pages/Home.tsx:45 | a passing value keeps all its occurrences, a failing one loses all of them |
| JsArray.FilterKeepsAll | src/pages/Home.tsx:45-49 | when every element passes, the filter returns the list unchanged |
| JsArray.FilterNoDuplicates | src/pages/CarForm.tsx:122 | filtering a duplicate-free list leaves it duplicate-free |
| JsArray.FilterOutIndex | src/pages/CarForm.tsx:92-104 | dropping position `index` shortens the list by one when the index is in range and keeps its length otherwise |
| JsArray.FilterOutIndexRemovesAt | src/pages/CarForm.tsx:92-104 | `filter((_, i) => i !== index)` equals `s[..index] + s[index+1..]` for an index in range and `s` for any other index |
| Listing.Matches | src/pages/Home.tsx:46-48 | the empty term matches every car; a car can match only when the term is no longer than its title, its description or one of its tags; a title containing the term verbatim matches |
| Listing.FilterCars | src/pages/Home.tsx:45-49 | the shown cars are exactly the matching cars, each as often as in the list, in their original order |
| Listing.EmptyTermShowsAll | src/pages/Home.tsx:45-49 | with an empty search term every car is shown, in order |
| Listing.NothingShownIffNoMatch | src/pages/Home.tsx:138 | the filtered list is empty exactly when no car matches |
| Listing.MatchIgnoresTermCase | src/pages/Home.tsx:46-48 | lower-casing the search term first changes no match |
| Listing.VerbatimOccurrenceMatches | src/pages/Home.tsx:46-48 | a car whose title, description or tag contains the term verbatim is found |
| Listing.RemoveById | src/pages/Home.tsx:57 | after the delete no car has that id; every other car keeps its occurrences; order is kept; an absent id changes nothing |
| Carousel.JsRem | src/pages/CarDetail.tsx:40 | JavaScript's remainder: below the divisor in size, differs from the dividend by a multiple of it, takes the dividend's sign |
| Carousel.NextIndex | src/pages/CarDetail.tsx:40 | `(i+1) % n` is in `[0, n)`; from a valid index it is the next one, and from `n-1` it is `0` |
| Carousel.PreviousIndex | src/pages/CarDetail.tsx:46 | `(i-1+n) % n` is in `[0, n)`; from a valid index it is the previous one, and from `0` it is `n-1` |
| Carousel.NextPreviousInverse | src/pages/CarDetail.tsx:40-46 | previous after next is the identity, and so is next after previous |
| Carousel.ModStep | src/pages/CarDetail.tsx:40 | the remainder of `m + 1` is the remainder of `m` advanced by one, wrapping to 0 after `n - 1` |
| Carousel.ForwardAdvances | src/pages/CarDetail.tsx:40 | pressing next `k` times from index `i` gives `(i+k) % n` |
| Carousel.FullCycle | src/pages/CarDetail.tsx:40 | pressing next `n` times over `n` images returns to the starting index |
| Carousel.ShowControls | src/pages/CarDetail.tsx:86 | no controls for zero or one image; when controls show, next from the first image goes to the second and previous from the second goes back |
| CarDetail.CarDetailPage.constructor | src/pages/CarDetail.tsx:19-22 | the page starts with no car, index 0 and no error |
| CarDetail.CarDetailPage.FetchCar | src/pages/CarDetail.tsx:28-36 | one unauthenticated read of the car; success stores it, failure sets the fixed message; the index is not reset |
| CarDetail.CarDetailPage.NextImage | src/pages/CarDetail.tsx:38-42 | without a car the index is unchanged; with one it becomes `NextIndex`, a valid index |
| CarDetail.CarDetailPage.PreviousImage | src/pages/CarDetail.tsx:44-48 | without a car the index is unchanged; with one it becomes `PreviousIndex`, a valid index |
| CarDetail.CarDetailPage.View | src/pages/CarDetail.tsx:50-86 | an error hides everything, no car shows a placeholder, and controls appear exactly when there is more than one image |
| Home.HomePage.constructor | src/pages/Home.tsx:21-24 | the listing starts empty, loading, with no error |
| Home.HomePage.SetSearchTerm | src/pages/Home.tsx:121 | typing replaces the search term and nothing else |
| Home.HomePage.BeginFetch | src/pages/Home.tsx:33-35 | the fetch starts with `loading` raised, the error cleared and one read issued |
| Home.HomePage.SettleFetch | src/pages/Home.tsx:36-42 | `loading` ends lowered; success stores the cars; failure keeps them and sets the fixed message |
| Home.HomePage.FetchCars | src/pages/Home.tsx:31-43 | the whole fetch: `loading` lowered after success and failure; success means no error; failure sets the fixed message |
| Home.HomePage.HandleDelete | src/pages/Home.tsx:51-62 | declining sends nothing; a confirmed, successful delete applies `RemoveById`; a decline or a failure leaves the cars unchanged |
| Home.HomePage.FilteredCars | src/pages/Home.tsx:45-49 | the filtered cars are exactly the cars matching the current term |
| Home.HomePage.View | src/pages/Home.tsx:64-157 | placeholder while loading, then the error banner; "No cars found" exactly when no car matches, with the hint chosen by the term; otherwise a non-empty grid of exactly the matching cars |
| Profile.ProfilePage.constructor | src/pages/Profile.tsx:18-21 | the dashboard starts empty and loading |
| Profile.ProfilePage.SetSearchQuery | src/pages/Profile.tsx:86 | typing replaces the search query and nothing else |
| Profile.ProfilePage.FetchUserCars | src/pages/Profile.tsx:33-49 | `loading` ends lowered; with a user, one authenticated read is sent; success stores the cars; without a user nothing is sent; failure keeps the list |
| Profile.ProfilePage.OnAuthState | src/pages/Profile.tsx:23-31 | unauthenticated: navigate to `/`, send nothing, change nothing else; authenticated: no navigation and `loading` ends lowered; with a user, one authenticated read of `/api/users/user/{id}` and success stores the cars; without a user nothing is sent and the list is kept |
| Profile.ProfilePage.HandleDelete | src/pages/Profile.tsx:51-62 | declining sends nothing; a confirmed, successful delete applies `RemoveById`; a decline or a failure leaves `userCars` unchanged |
| Profile.ProfilePage.View | src/pages/Profile.tsx:100-141 | "No cars found." exactly when no car matches the query; otherwise a non-empty grid of exactly the matching cars |
| Http.CarUrl | src/pages/CarDetail.tsx:30 | a car's URL starts with the cars endpoint and a `/`, and the id is exactly what follows |
| Http.CarUrlInjective | src/pages/Home.tsx:54 | two ids with the same URL are equal, so a delete addresses only the car it names |
| Profile.UserCarsUrl | src/pages/Profile.tsx:38 | the dashboard URL starts with the local user-cars endpoint and the user id is exactly what follows |
| CarForm.IsTruthy | src/pages/CarForm.tsx:31 | a missing id and the empty id are falsy; any other id is truthy and selects edit mode |
| CarForm.WithTag | src/pages/CarForm.tsx:109-114 | the tag is present afterwards; old tags keep their places; at most one entry is added, and only when the tag was absent; distinct tags stay distinct |
| CarForm.WithoutTag | src/pages/CarForm.tsx:119-124 | no occurrence of the removed tag is left; other tags keep their occurrences and order; distinct tags stay distinct |
| CarForm.UploadedFilesAppend | src/pages/CarForm.tsx:62 | the files carried by a concatenated body are those of the first part followed by those of the second |
| CarForm.ImageParts | src/pages/CarForm.tsx:62 | one `images` part per file, the k-th carrying the k-th file |
| CarForm.FieldParts | src/pages/CarForm.tsx:53-60 | title, description and tags first; `existingImages` as the fourth part exactly when that list is non-empty; no part named `images` |
| CarForm.BodyShape | src/pages/CarForm.tsx:53-62 | the files carried by the full body are exactly the new images; the appended files add no other field |
| CarForm.CarFormPage.constructor | src/pages/CarForm.tsx:20-28 | the draft starts empty, within the cap and with distinct tags |
| CarForm.CarFormPage.LoadForEdit | src/pages/CarForm.tsx:30-49 | in edit mode one read; success seeds the draft with no new files and the car's images as retained ones; failure sets the fixed message; create mode does nothing |
| CarForm.CarFormPage.SetTitle | src/pages/CarForm.tsx:144 | the title input replaces the title only |
| CarForm.CarFormPage.SetDescription | src/pages/CarForm.tsx:154 | the description input replaces the description only |
| CarForm.CarFormPage.SetTagInput | src/pages/CarForm.tsx:166 | the tag input replaces `tagInput` only |
| CarForm.CarFormPage.HandleImageChange | src/pages/CarForm.tsx:81-90 | no file list: nothing; over 10 in total: both lists unchanged and the cap error; otherwise the files are appended; only `images` and `error` change; the cap is kept |
| CarForm.CarFormPage.RemoveImage | src/pages/CarForm.tsx:92-97 | removes the new image at an in-range index, changes nothing otherwise, never touches `existingImages`, keeps the cap |
| CarForm.CarFormPage.RemoveExistingImage | src/pages/CarForm.tsx:99-104 | the same on `existingImages`, never touching `images` |
| CarForm.CarFormPage.HandleAddTag | src/pages/CarForm.tsx:106-117 | Enter with non-blank input: the trimmed tag is added unless present, the input is cleared and the key's default is cancelled; another key or blank input: the draft does not change; Enter on blank input is not cancelled, so the browser attempts implicit submission (`handleSubmit` runs only when title and description are non-empty); tags stay distinct |
| CarForm.CarFormPage.RemoveTag | src/pages/CarForm.tsx:119-124 | the tags become `WithoutTag` of the old tags; the removed tag is gone; tags stay distinct |
| CarForm.CarFormPage.BuildSubmitRequest | src/pages/CarForm.tsx:51-72 | `put` to the car's URL in edit mode, `post` to the collection otherwise; bearer attached; `existingImages` present exactly when non-empty; the uploaded files are exactly the new images, in order |
| CarForm.CarFormPage.Submit | src/pages/CarForm.tsx:51-79 | the logged request is exactly the one `BuildSubmitRequest` describes (verb and URL by edit mode, bearer attached, field parts then one part per new image); success navigates to `/profile`; failure shows the server message, or the fallback when there is none |

## Left out

- HTTP transport is not modelled: axios, headers, status codes, response parsing and the token's value. Each page receives the outcome of its request as an input. A request records only whether the bearer header is attached.
- `window.confirm` is not modelled; it becomes the `confirmed` input.
- Routing is not modelled. `useParams` becomes an `id` input and `navigate` only appends to a `navigations` log.
- Effect scheduling is not modelled. When the effects run (on mount and on dependency changes) is the caller's choice of which method to call.
- Asynchrony is not modelled: late responses after unmount, the order between effects, React's batching of state updates, and handlers that read a stale `formData` closure. Each handler acts on the current fields.
- Profile.ProfilePage.FetchUserCars: the moment between raising and lowering `loading` is not a separate state. The method states only the final state. The listing's fetch is split into `BeginFetch` and `SettleFetch` to show it.
- Rendering details are not modelled: JSX, CSS classes, icons, `URL.createObjectURL`, the listing's "Add Car" links shown to authenticated users, and the form's "remaining" counter text. Only the branch conditions are kept.
- `JSON.stringify` and `FormData` encoding are not modelled. A body is a list of named parts; a JSON-encoded list is a `Json` part holding the strings.
- JsString.Lower: lower-cases only the ASCII letters `A`-`Z`. Full Unicode case mapping is left out, including characters that change length when lower-cased.
- CarForm.CarFormPage.Submit: the browser's `required` check on the title and description inputs (src/pages/CarForm.tsx:146, 157) is not modelled. `Submit` stands for a submission that passed it. An empty title or description stops the submission in the browser, before `handleSubmit` runs.
- Carousel.NextIndex: requires `n > 0`. With no images JavaScript's `% 0` gives `NaN`, which has no counterpart here. The buttons are rendered only for more than one image.
- Console logging is not modelled. It carries no behaviour.
- `src/components/Navbar.tsx` and `src/App.tsx` are pure presentation and route wiring, and are not part of this model. The authentication context and the login and registration pages are not part of this model either.
