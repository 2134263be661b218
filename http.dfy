/** What the two report endpoints share: the decoded JSON request, Python's
    `str()` of a JSON value, the required-field check, and the shape of the
    responses (`jsonify(...)` with a status code). */
module Http {
  import opened Common

  /** A decoded JSON value; arrays and objects are kept only as the text
      Python's `str()` gives them. */
  datatype Json = JNull | JText(text: string) | JInt(n: int) | JBool(b: bool) | JOther(repr: string)

  /** `request.is_json` and `request.get_json()` (a JSON object). */
  datatype Request = Request(isJson: bool, body: map<string, Json>)

  /** Python's `str()` of a decoded JSON value, as an f-string prints it. */
  function PyStr(j: Json): string
  {
    match j
    case JNull => "None"
    case JText(t) => t
    case JInt(n) => IntToString(n)
    case JBool(b) => if b then "True" else "False"
    case JOther(repr) => repr
  }

  /** `f"{start} - {end}"`. */
  function Period(start: Json, end: Json): string
  {
    PyStr(start) + " - " + PyStr(end)
  }

  /** `all(field in data for field in required_fields)`, which stops at the
      first missing field. */
  function HasAllRequiredFields(data: map<string, Json>, required: seq<string>): (ok: bool)
    ensures ok <==> forall i :: 0 <= i < |required| ==> required[i] in data
  {
    if required == [] then true
    else if required[0] !in data then false
    else
      assert forall i :: 1 <= i < |required| ==> required[i] == required[1..][i - 1];
      HasAllRequiredFields(data, required[1..])
  }

  /** The body of a successful report. */
  datatype Report<A> = Report(searchTerm: Json, period: string, foundLectures: nat, worstAttendees: seq<A>)

  /** What a handler answers. `ServerError` is the handler's own 500 JSON
      answer; `Unhandled` is an exception escaping the handler, which Flask
      turns into its generic 500 page. */
  datatype Response<A> =
    | BadRequest(error: string, received: Option<set<string>>)
    | NotFound(error: string)
    | ServerError(error: string)
    | Unhandled(exception: string)
    | Success(report: Report<A>, status: string, results: nat)

  function StatusCode<A>(r: Response<A>): int
  {
    match r
    case BadRequest(_, _) => 400
    case NotFound(_) => 404
    case ServerError(_) => 500
    case Unhandled(_) => 500
    case Success(_, _, _) => 200
  }

  const NotJson: string := "Request must be JSON"
  const ProcessingFailed: string := "Data processing failed"
}
