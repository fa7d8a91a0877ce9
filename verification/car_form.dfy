/**
 * The create/edit form: the draft (title, description, tags, newly chosen
 * image files, retained existing image URLs), the tag input and the error
 * message, with the event handlers that replace them and the multipart
 * request built on submit.
 */
module CarForm {
  import opened Wrappers
  import opened Http
  import opened JsString
  import opened JsArray
  import opened Listing

  /** The cap on new plus retained images. */
  const MaxImages: nat := 10
  const CapError: string := "Maximum 10 images allowed"
  const FetchError: string := "Failed to fetch car details"
  const SaveError: string := "Failed to save car"
  /** The key that adds the typed tag. */
  const AddTagKey: string := "Enter"
  /** Where a successful save leads. */
  const AfterSave: string := "/profile"

  /** The outcome of the create or replace request; a failure may carry the
      server's message. */
  datatype SubmitOutcome = Saved | Failed(message: Option<string>)

  /** A route identifier selects edit mode only when it is present and not
      the empty string (JavaScript truthiness). */
  predicate IsTruthy(id: Option<string>)
    ensures id.None? ==> !IsTruthy(id)
    ensures id == Some("") ==> !IsTruthy(id)
    ensures id.Some? && |id.value| > 0 ==> IsTruthy(id)
  {
    id.Some? && id.value != ""
  }

  /** `tags.includes(tag) ? tags : [...tags, tag]`: the tag is present
      afterwards, the old tags keep their places, at most one entry is added,
      and a duplicate-free list stays duplicate-free. */
  function WithTag(tags: seq<string>, tag: string): (r: seq<string>)
    ensures tag in r
    ensures |tags| <= |r| <= |tags| + 1 && r[..|tags|] == tags
    ensures tag in tags <==> r == tags
    ensures NoDuplicates(tags) ==> NoDuplicates(r)
  {
    if tag in tags then tags
    else
      var r := tags + [tag];
      assert r[..|tags|] == tags;
      r
  }

  /** `tags.filter(tag => tag !== removed)`: no occurrence of `removed` is
      left, every other tag keeps its number of occurrences and the order is
      kept, and a duplicate-free list stays duplicate-free. */
  function WithoutTag(tags: seq<string>, removed: string): (r: seq<string>)
    ensures removed !in r
    ensures IsSubsequence(r, tags)
    ensures forall t :: t != removed ==> multiset(r)[t] == multiset(tags)[t]
    ensures NoDuplicates(tags) ==> NoDuplicates(r)
  {
    var keep := (t: string) => t != removed;
    FilterIsSubsequence(tags, keep);
    forall t ensures multiset(Filter(tags, keep))[t] == if keep(t) then multiset(tags)[t] else 0 {
      FilterCounts(tags, keep, t);
    }
    assert NoDuplicates(tags) ==> NoDuplicates(Filter(tags, keep)) by {
      if NoDuplicates(tags) {
        FilterNoDuplicates(tags, keep);
      }
    }
    Filter(tags, keep)
  }

  /** The files carried by the parts named "images", in order. */
  function UploadedFiles(body: seq<Part>): seq<ImageFile> {
    if body == [] then []
    else
      (if body[0].name == "images" && body[0].value.Upload? then [body[0].value.file] else [])
      + UploadedFiles(body[1..])
  }

  /** Collecting the uploaded files distributes over concatenation. */
  lemma {:induction false} UploadedFilesAppend(a: seq<Part>, b: seq<Part>)
    ensures UploadedFiles(a + b) == UploadedFiles(a) + UploadedFiles(b)
  {
    if a == [] {
      assert a + b == b;
    } else {
      assert (a + b)[1..] == a[1..] + b;
      UploadedFilesAppend(a[1..], b);
    }
  }

  /** Parts none of which is named "images" carry no uploaded file. */
  lemma {:induction false} NoUploadedFiles(body: seq<Part>)
    requires forall k :: 0 <= k < |body| ==> body[k].name != "images"
    ensures UploadedFiles(body) == []
  {
    if body != [] {
      NoUploadedFiles(body[1..]);
    }
  }

  /** Some part carries the given field name. */
  predicate HasPart(body: seq<Part>, name: string) {
    exists k :: 0 <= k < |body| && body[k].name == name
  }

  /** One "images" part per file, in order. */
  function ImageParts(files: seq<ImageFile>): (r: seq<Part>)
    ensures |r| == |files|
    ensures forall k :: 0 <= k < |files| ==> r[k] == Part("images", Upload(files[k]))
  {
    seq(|files|, k requires 0 <= k < |files| => Part("images", Upload(files[k])))
  }

  /** The parts appended before the files: title, description, tags, and
      the retained images only when there are some. No part is named
      "images", and the retained images travel exactly when present. */
  function FieldParts(title: string, description: string, tags: seq<string>, existingImages: seq<string>): (r: seq<Part>)
    ensures |r| == 3 + (if |existingImages| > 0 then 1 else 0)
    ensures r[..3] == [Part("title", Text(title)), Part("description", Text(description)), Part("tags", Json(tags))]
    ensures |existingImages| > 0 ==> r[3] == Part("existingImages", Json(existingImages))
    ensures forall k :: 0 <= k < |r| ==> r[k].name != "images"
    ensures HasPart(r, "existingImages") <==> |existingImages| > 0
  {
    var fields := [Part("title", Text(title)), Part("description", Text(description)), Part("tags", Json(tags))];
    var r := if |existingImages| > 0 then fields + [Part("existingImages", Json(existingImages))] else fields;
    assert |existingImages| > 0 ==> r[3].name == "existingImages";
    r
  }

  /** The files of a body made of field parts followed by image parts are
      exactly the image files, and the field parts decide which other
      fields are present. */
  lemma BodyShape(fields: seq<Part>, files: seq<ImageFile>, name: string)
    requires forall k :: 0 <= k < |fields| ==> fields[k].name != "images"
    requires name != "images"
    ensures UploadedFiles(fields + ImageParts(files)) == files
    ensures HasPart(fields + ImageParts(files), name) <==> HasPart(fields, name)
  {
    UploadedFilesAppend(fields, ImageParts(files));
    NoUploadedFiles(fields);
    ImagePartsCarryFiles(files);
    var body := fields + ImageParts(files);
    if HasPart(body, name) {
      var k :| 0 <= k < |body| && body[k].name == name;
      assert k < |fields| && body[k] == fields[k];
    }
    if HasPart(fields, name) {
      var k :| 0 <= k < |fields| && fields[k].name == name;
      assert body[k] == fields[k];
    }
  }

  /** Taking one more file adds its part at the end. */
  lemma ImagePartsExtend(files: seq<ImageFile>, i: nat)
    requires i < |files|
    ensures ImageParts(files[..i + 1]) == ImageParts(files[..i]) + [Part("images", Upload(files[i]))]
  {
    var a, b := ImageParts(files[..i + 1]), ImageParts(files[..i]) + [Part("images", Upload(files[i]))];
    assert |a| == |b|;
    forall k | 0 <= k < |a| ensures a[k] == b[k] {
      if k < i {
        assert files[..i + 1][k] == files[..i][k];
      }
    }
  }

  /** The image parts carry exactly the files. */
  lemma {:induction false} ImagePartsCarryFiles(files: seq<ImageFile>)
    ensures UploadedFiles(ImageParts(files)) == files
  {
    if files != [] {
      ImagePartsCarryFiles(files[1..]);
      assert ImageParts(files)[1..] == ImageParts(files[1..]);
    }
  }

  class CarFormPage {
    var title: string
    var description: string
    var tags: seq<string>
    var images: seq<ImageFile>
    var existingImages: seq<string>
    var tagInput: string
    var error: string
    var navigations: seq<string>
    var requests: seq<Request>

    /** New and retained images together. */
    function ImageCount(): nat
      reads this
    {
      |images| + |existingImages|
    }

    /** The bounded-size invariant of the draft. */
    predicate WithinCap()
      reads this
    {
      ImageCount() <= MaxImages
    }

    /** The no-duplicate-tags invariant of the draft. */
    predicate TagsDistinct()
      reads this
    {
      NoDuplicates(tags)
    }

    /** An empty draft, which satisfies both invariants. */
    constructor ()
      ensures title == "" && description == "" && tags == [] && images == [] && existingImages == []
      ensures tagInput == "" && error == "" && navigations == [] && requests == []
      ensures WithinCap() && TagsDistinct()
    {
      title, description, tags, images, existingImages := "", "", [], [], [];
      tagInput, error := "", "";
      navigations, requests := [], [];
    }

    /** The mount effect in edit mode: read the car and seed the draft from
        it (no new files; its images become the retained ones), or report the
        failure. In create mode nothing happens. */
    method LoadForEdit(id: Option<string>, response: Option<Car>)
      modifies this
      ensures !IsTruthy(id) ==> requests == old(requests)
      ensures IsTruthy(id) ==> requests == old(requests) + [Request(Get, CarUrl(id.value), false, [])]
      ensures IsTruthy(id) && response.Some? ==>
                && title == response.value.title && description == response.value.description
                && tags == response.value.tags && images == [] && existingImages == response.value.images
                && error == old(error)
      ensures IsTruthy(id) && response.None? ==> error == FetchError
      ensures !(IsTruthy(id) && response.Some?) ==>
                && title == old(title) && description == old(description) && tags == old(tags)
                && images == old(images) && existingImages == old(existingImages)
      ensures !IsTruthy(id) ==> error == old(error)
      ensures tagInput == old(tagInput) && navigations == old(navigations)
    {
      if IsTruthy(id) {
        requests := requests + [Request(Get, CarUrl(id.value), false, [])];
        if response.Some? {
          var car := response.value;
          title, description, tags := car.title, car.description, car.tags;
          images, existingImages := [], car.images;
        } else {
          error := FetchError;
        }
      }
    }

    method SetTitle(value: string)
      modifies this`title
      ensures title == value
    {
      title := value;
    }

    method SetDescription(value: string)
      modifies this`description
      ensures description == value
    {
      description := value;
    }

    method SetTagInput(value: string)
      modifies this`tagInput
      ensures tagInput == value
    {
      tagInput := value;
    }

    /** `handleImageChange`: with no file list nothing happens; a selection
        that would take the combined count past the cap is rejected whole
        with an error; otherwise the files are appended to the new images.
        Only `images` and `error` can change. */
    method HandleImageChange(files: Option<seq<ImageFile>>)
      modifies this`images, this`error
      ensures files.None? ==> images == old(images) && error == old(error)
      ensures files.Some? && old(ImageCount()) + |files.value| > MaxImages ==>
                images == old(images) && error == CapError
      ensures files.Some? && old(ImageCount()) + |files.value| <= MaxImages ==>
                images == old(images) + files.value && error == old(error)
      ensures images != old(images) ==> WithinCap()
      ensures old(WithinCap()) ==> WithinCap()
    {
      if files.Some? {
        if |images| + |existingImages| + |files.value| > MaxImages {
          error := CapError;
          return;
        }
        images := images + files.value;
      }
    }

    /** `removeImage`: drops the new image at `index` when it exists and
        leaves the list alone for any other index. */
    method RemoveImage(index: int)
      modifies this`images
      ensures 0 <= index < |old(images)| ==> images == old(images)[..index] + old(images)[index + 1..]
      ensures !(0 <= index < |old(images)|) ==> images == old(images)
      ensures old(WithinCap()) ==> WithinCap()
    {
      FilterOutIndexRemovesAt(images, index);
      images := FilterOutIndex(images, index);
    }

    /** `removeExistingImage`: the same, on the retained images. */
    method RemoveExistingImage(index: int)
      modifies this`existingImages
      ensures 0 <= index < |old(existingImages)| ==>
                existingImages == old(existingImages)[..index] + old(existingImages)[index + 1..]
      ensures !(0 <= index < |old(existingImages)|) ==> existingImages == old(existingImages)
      ensures old(WithinCap()) ==> WithinCap()
    {
      FilterOutIndexRemovesAt(existingImages, index);
      existingImages := FilterOutIndex(existingImages, index);
    }

    /** `handleAddTag`: on the add key with input that is not all
        whitespace, the trimmed input is added unless already present, the
        input is cleared and the key's default action is cancelled; on any
        other key, or blank input, the draft does not change.
        `attemptsSubmit` tells whether Enter's default action goes ahead:
        on blank input it is not cancelled, so the browser attempts an
        implicit submission of the form, and `handleSubmit` runs only when
        the required title and description are non-empty. Tags stay
        duplicate-free. */
    method HandleAddTag(key: string) returns (attemptsSubmit: bool)
      modifies this`tags, this`tagInput
      ensures attemptsSubmit <==> key == AddTagKey && AllWhitespace(old(tagInput))
      ensures key == AddTagKey && !AllWhitespace(old(tagInput)) ==>
                tagInput == "" && tags == WithTag(old(tags), Trim(old(tagInput)))
      ensures key != AddTagKey || AllWhitespace(old(tagInput)) ==>
                tagInput == old(tagInput) && tags == old(tags)
      ensures old(TagsDistinct()) ==> TagsDistinct()
    {
      var tag := Trim(tagInput);
      attemptsSubmit := key == AddTagKey && tag == "";
      if key == AddTagKey && tag != "" {
        tags := WithTag(tags, tag);
        tagInput := "";
      }
    }

    /** `removeTag`. */
    method RemoveTag(removed: string)
      modifies this`tags
      ensures tags == WithoutTag(old(tags), removed)
      ensures removed !in tags
      ensures old(TagsDistinct()) ==> TagsDistinct()
    {
      tags := WithoutTag(tags, removed);
    }

    /** The request `handleSubmit` sends: replace the record in edit mode,
        create one otherwise; the body holds the title, the description, the
        tags, the retained images only when there are some, and then one
        "images" part per new file, in order. */
    method BuildSubmitRequest(id: Option<string>) returns (req: Request)
      ensures req.verb == if IsTruthy(id) then Put else Post
      ensures req.url == if IsTruthy(id) then CarUrl(id.value) else CarsEndpoint
      ensures req.bearer
      ensures req.body == FieldParts(title, description, tags, existingImages) + ImageParts(images)
      ensures HasPart(req.body, "existingImages") <==> |existingImages| > 0
      ensures UploadedFiles(req.body) == images
    {
      var files := images;
      var body := FieldParts(title, description, tags, existingImages);
      ghost var fields := body;
      var i := 0;
      while i < |files|
        invariant 0 <= i <= |files|
        invariant body == fields + ImageParts(files[..i])
      {
        ImagePartsExtend(files, i);
        body := body + [Part("images", Upload(files[i]))];
        i := i + 1;
      }
      assert files[..i] == files;
      BodyShape(fields, files, "existingImages");
      req := Request(if IsTruthy(id) then Put else Post,
                     if IsTruthy(id) then CarUrl(id.value) else CarsEndpoint,
                     true, body);
    }

    /** `handleSubmit`: send the request; on success go to the owner
        dashboard, on failure show the server's message or the fallback. */
    method Submit(id: Option<string>, outcome: SubmitOutcome) returns (req: Request)
      modifies this`requests, this`navigations, this`error
      ensures req.verb == if IsTruthy(id) then Put else Post
      ensures req.url == if IsTruthy(id) then CarUrl(id.value) else CarsEndpoint
      ensures req.bearer && req.body == FieldParts(title, description, tags, existingImages) + ImageParts(images)
      ensures HasPart(req.body, "existingImages") <==> |existingImages| > 0
      ensures UploadedFiles(req.body) == images
      ensures requests == old(requests) + [req]
      ensures outcome.Saved? ==> navigations == old(navigations) + [AfterSave] && error == old(error)
      ensures outcome.Failed? ==> navigations == old(navigations)
      ensures outcome.Failed? && outcome.message.Some? && outcome.message.value != "" ==>
                error == outcome.message.value
      ensures outcome.Failed? && (outcome.message.None? || outcome.message.value == "") ==>
                error == SaveError
    {
      req := BuildSubmitRequest(id);
      requests := requests + [req];
      match outcome
      case Saved =>
        navigations := navigations + [AfterSave];
      case Failed(message) =>
        error := if message.Some? && message.value != "" then message.value else SaveError;
    }
  }
}
