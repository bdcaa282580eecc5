/** The completed HTTP exchange as the assertions see it: read-only views of
    the request that was sent and of the response that came back. Values the
    source formats with Python's `str` (the headers dict, query parameters,
    body bytes, response content) are held here already rendered. */
module Exchange {

  datatype Option<+T> = None | Some(value: T)

  /** A parsed JSON document. Only the array-or-not distinction and the
      elements of an array are used by the assertions. */
  datatype Json =
    | JNull
    | JBool(b: bool)
    | JNumber(n: real)
    | JString(s: string)
    | JArray(items: seq<Json>)
    | JObject(fields: seq<(string, Json)>)

  /** The request that produced a response.
      `params` is None when the request object has no `params` attribute and
      `body` is None when it has no `content` attribute; otherwise each holds
      the rendered value, where the empty text stands for an empty (falsy)
      value. */
  datatype Request = Request(
    url: string,
    httpMethod: string,
    headers: string,
    params: Option<string>,
    body: Option<string>)

  /** A response: the request it answers, its status code, its raw content
      (rendered) and its body parsed as JSON. */
  datatype Response = Response(
    request: Request,
    statusCode: int,
    content: string,
    json: Json)

  /** Whether an optional request attribute is present and truthy, the test
      the source makes before writing its value. */
  predicate Shown(v: Option<string>) {
    v.Some? && v.value != ""
  }
}
