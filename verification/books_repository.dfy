/** The repository's normalisation of the gateway's answer to the POST that
    adds a book: `result && result.status === "ok" ? true : false`. */
module BooksRepository {
  import opened Outcomes

  /** A parsed JSON value as the gateway hands it back. */
  datatype Json =
    | JNull
    | JBool(b: bool)
    | JNumber(n: int)
    | JString(s: string)
    | JArray(items: seq<Json>)
    | JObject(fields: map<string, Json>)

  /** JavaScript truthiness of a parsed JSON value. */
  predicate Truthy(v: Json) {
    match v
    case JNull => false
    case JBool(b) => b
    case JNumber(n) => n != 0
    case JString(s) => s != ""
    case JArray(_) => true
    case JObject(_) => true
  }

  /** Property access `v.key`; `None` stands for `undefined`. Only objects
      have own properties among parsed JSON values reachable here. */
  function Member(v: Json, key: string): Option<Json> {
    if v.JObject? && key in v.fields then Some(v.fields[key]) else None
  }

  /** The status string the server sends when it accepts a new book. */
  const StatusOk: string := "ok"

  /** Whether a resolved POST response counts as "book accepted". */
  predicate Accepted(response: Json)
    ensures Accepted(response) <==>
      response.JObject? && "status" in response.fields
      && response.fields["status"] == JString(StatusOk)
  {
    Truthy(response) && Member(response, "status") == Some(JString(StatusOk))
  }

  /** `addBook`: a rejected POST rethrows its error unchanged; a resolved
      one becomes `true` exactly when `Accepted` holds, `false` otherwise. */
  function AddBook(posted: Outcome<Json>): (r: Outcome<bool>)
    ensures r.Threw? <==> posted.Threw?
    ensures posted.Threw? ==> r.message == posted.message
    ensures posted.Returned? ==>
      (r.value <==> posted.value.JObject? && Member(posted.value, "status") == Some(JString("ok")))
  {
    match posted
    case Returned(response) => Returned(Accepted(response))
    case Threw(message) => Threw(message)
  }

  /** The cases the repository's tests pin down: `{status: "ok"}` is
      accepted; `{status: "error"}` and `null` are not; a rejection is
      passed through. */
  lemma AddBookExamples()
    ensures AddBook(Returned(JObject(map["status" := JString("ok")]))) == Returned(true)
    ensures AddBook(Returned(JObject(map["status" := JString("error")]))) == Returned(false)
    ensures AddBook(Returned(JNull)) == Returned(false)
    ensures AddBook(Threw("Network error")) == Threw("Network error")
  {
  }
}
