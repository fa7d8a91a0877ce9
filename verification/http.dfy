/**
 * The outgoing side of the pages' HTTP calls, as data: what is requested,
 * where, whether the bearer token is attached, and the multipart body.
 * Sending the request and waiting for the answer are not modelled; each
 * page receives the outcome as an input.
 */
module Http {

  datatype Verb = Get | Post | Put | Delete

  /** A `File` chosen in the browser's file input; its bytes are opaque. */
  datatype ImageFile = ImageFile(name: string)

  /** A value appended to a `FormData`: a plain string, a `JSON.stringify`d
      list of strings, or a file. */
  datatype PartValue = Text(text: string) | Json(items: seq<string>) | Upload(file: ImageFile)

  datatype Part = Part(name: string, value: PartValue)

  datatype Request = Request(verb: Verb, url: string, bearer: bool, body: seq<Part>)

  /** The remote collection of car records. */
  const CarsEndpoint: string := "https://car-management-backend-alpha.vercel.app/api/users"

  /** The owner dashboard reads from a different host. */
  const UserCarsEndpoint: string := "http://localhost:5000/api/users/user/"

  /** The URL of one car record. */
  function CarUrl(id: string): (u: string)
    ensures CarsEndpoint + "/" <= u
    ensures u[|CarsEndpoint| + 1..] == id
  {
    CarsEndpoint + "/" + id
  }

  /** Different cars have different URLs. */
  lemma CarUrlInjective(a: string, b: string)
    requires CarUrl(a) == CarUrl(b)
    ensures a == b
  {
    assert a == CarUrl(a)[|CarsEndpoint| + 1..];
  }
}
