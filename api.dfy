/**
 * The API client: URL construction, the error-status check applied to every
 * response, and the message an error carries. The HTTP transport is a
 * parameter.
 */
module Api {
  import opened Wrappers
  import opened Json

  /** The service root used when the client is given no base URL. */
  const DefaultBaseUrl: string := "https://graphcommons.com/api/v1"

  /** The status codes a response is rejected for. */
  const ErrorCodes: seq<int> := [400, 401, 403, 404, 405, 500]

  /** The client: the key sent with every request and the root of every URL. */
  datatype GraphCommons = GraphCommons(apiKey: string, baseUrl: string)

  /** What the transport returns: the status code, the body as parsed JSON (None when it does not parse) and the raw body. */
  datatype Response = Response(statusCode: int, json: Option<Value>, content: string)

  /** One outgoing HTTP request. */
  datatype Request = Request(verb: string, url: string, json: Option<Value>, headers: map<string, string>)

  /** `GraphCommons(api_key, base_url)`: a missing or empty base URL falls back to the default. */
  function NewClient(apiKey: string, baseUrl: Option<string>): (c: GraphCommons)
    ensures c.apiKey == apiKey
    ensures c.baseUrl != ""
    ensures baseUrl.Some? && baseUrl.value != "" ==> c.baseUrl == baseUrl.value
    ensures baseUrl.None? || baseUrl.value == "" ==> c.baseUrl == DefaultBaseUrl
  {
    GraphCommons(apiKey, if baseUrl.Some? && baseUrl.value != "" then baseUrl.value else DefaultBaseUrl)
  }

  // ---------------------------------------------------------------------------
  // build_url: filter(bool, [base_url, endpoint, id]) joined with "/"
  // ---------------------------------------------------------------------------

  /** `filter(bool, parts)`: the parts that are neither None nor empty, in order. */
  function Present(parts: seq<Option<string>>): (r: seq<string>)
    ensures forall s :: s in r <==> s != "" && Some(s) in parts
    ensures |r| <= |parts|
  {
    if parts == [] then []
    else
      assert parts == [parts[0]] + parts[1..];
      if parts[0].Some? && parts[0].value != "" then [parts[0].value] + Present(parts[1..])
      else Present(parts[1..])
  }

  /** The total length of the parts. */
  function TotalLength(parts: seq<string>): nat {
    if parts == [] then 0 else |parts[0]| + TotalLength(parts[1..])
  }

  /** `sep.join(parts)`: the parts with one separator between each consecutive pair. */
  function Join(sep: string, parts: seq<string>): (r: string)
    ensures parts == [] ==> r == ""
    ensures |parts| == 1 ==> r == parts[0]
  {
    if parts == [] then ""
    else if |parts| == 1 then parts[0]
    else parts[0] + sep + Join(sep, parts[1..])
  }

  /** The join is as long as the parts plus one separator between each consecutive pair. */
  lemma {:induction false} JoinLength(sep: string, parts: seq<string>)
    requires parts != []
    ensures |Join(sep, parts)| == TotalLength(parts) + |sep| * (|parts| - 1)
  {
    if |parts| > 1 {
      JoinLength(sep, parts[1..]);
      assert TotalLength(parts) == |parts[0]| + TotalLength(parts[1..]);
      assert |sep| * (|parts| - 1) == |sep| + |sep| * (|parts| - 2);
    }
  }

  /**
   * Filtering keeps order and multiplicity: the filter of a concatenation is
   * the concatenation of the filters, and a single part is kept exactly when
   * it is neither None nor empty.
   */
  lemma {:induction false} PresentAppend(a: seq<Option<string>>, b: seq<Option<string>>)
    ensures Present(a + b) == Present(a) + Present(b)
    ensures |a| == 1 ==> Present(a) == if a[0].Some? && a[0].value != "" then [a[0].value] else []
  {
    if a != [] {
      assert (a + b)[0] == a[0] && (a + b)[1..] == a[1..] + b;
      PresentAppend(a[1..], b);
    } else {
      assert a + b == b;
    }
    if |a| == 1 {
      assert a[1..] == [];
    }
  }

  /** Joining two non-empty lists of parts is joining each and putting one separator between them. */
  lemma {:induction false} JoinAppend(sep: string, a: seq<string>, b: seq<string>)
    requires a != [] && b != []
    ensures Join(sep, a + b) == Join(sep, a) + sep + Join(sep, b)
  {
    assert (a + b)[0] == a[0];
    if |a| == 1 {
      assert (a + b)[1..] == b;
    } else {
      assert (a + b)[1..] == a[1..] + b;
      JoinAppend(sep, a[1..], b);
    }
  }

  /** A path segment: "/" and the part, or nothing for an empty part. */
  function Segment(part: string): string {
    if part == "" then "" else "/" + part
  }

  /**
   * `build_url(endpoint, id)`: the base URL followed by "/endpoint" and
   * "/id", each segment present only when its part is non-empty.
   */
  function BuildUrl(client: GraphCommons, endpoint: string, id: Option<string>): (url: string)
    ensures client.baseUrl != "" ==>
      url == client.baseUrl + Segment(endpoint) + Segment(if id.Some? then id.value else "")
  {
    JoinedPartsShape(client.baseUrl, endpoint, id);
    Join("/", Present([Some(client.baseUrl), Some(endpoint), id]))
  }

  /** Filtering a list decides its first part and filters the rest. */
  lemma PresentCons(head: Option<string>, tail: seq<Option<string>>)
    ensures Present([head] + tail) ==
      (if head.Some? && head.value != "" then [head.value] else []) + Present(tail)
  {
  }

  /** Filtering the three parts of a URL keeps the base (when non-empty) and the non-empty endpoint and id. */
  lemma PresentUrlParts(base: string, endpoint: string, id: Option<string>)
    requires base != ""
    ensures Present([Some(base), Some(endpoint), id]) ==
      [base] + (if endpoint == "" then [] else [endpoint]) + (if id.Some? && id.value != "" then [id.value] else [])
  {
    PresentCons(id, []);
    assert [id] == [id] + [];
    PresentCons(Some(endpoint), [id]);
    assert [Some(endpoint), id] == [Some(endpoint)] + [id];
    PresentCons(Some(base), [Some(endpoint), id]);
    assert [Some(base), Some(endpoint), id] == [Some(base)] + [Some(endpoint), id];
  }

  /** Joining a base with an optional endpoint and an optional id separates them with "/". */
  lemma JoinUrlParts(base: string, endpoint: string, idPart: string)
    ensures Join("/", [base] + (if endpoint == "" then [] else [endpoint]) + (if idPart != "" then [idPart] else [])) ==
      base + Segment(endpoint) + Segment(idPart)
  {
    if endpoint == "" && idPart == "" {
      assert [base] + [] + [] == [base];
    } else if endpoint == "" {
      assert [base] + [] + [idPart] == [base, idPart];
      assert [base, idPart][1..] == [idPart];
    } else if idPart == "" {
      assert [base] + [endpoint] + [] == [base, endpoint];
      assert [base, endpoint][1..] == [endpoint];
    } else {
      assert [base] + [endpoint] + [idPart] == [base, endpoint, idPart];
      assert [base, endpoint, idPart][1..] == [endpoint, idPart];
      assert [endpoint, idPart][1..] == [idPart];
      assert Join("/", [endpoint, idPart]) == endpoint + "/" + idPart;
    }
  }

  /** The closed form of filtering and joining a non-empty base, an endpoint and an id. */
  lemma JoinedPartsShape(base: string, endpoint: string, id: Option<string>)
    ensures base != "" ==>
      Join("/", Present([Some(base), Some(endpoint), id])) ==
      base + Segment(endpoint) + Segment(if id.Some? then id.value else "")
  {
    if base != "" {
      PresentUrlParts(base, endpoint, id);
      JoinUrlParts(base, endpoint, if id.Some? then id.value else "");
    }
  }

  /** Without an id the URL is the base URL, "/" and the endpoint. */
  lemma BuildUrlWithoutId(client: GraphCommons, endpoint: string)
    requires client.baseUrl != "" && endpoint != ""
    ensures BuildUrl(client, endpoint, None) == client.baseUrl + "/" + endpoint
  {
  }

  /** With an id the URL is the base URL, "/", the endpoint, "/" and the id. */
  lemma BuildUrlWithId(client: GraphCommons, endpoint: string, id: string)
    requires client.baseUrl != "" && endpoint != "" && id != ""
    ensures BuildUrl(client, endpoint, Some(id)) == client.baseUrl + "/" + endpoint + "/" + id
  {
  }

  // ---------------------------------------------------------------------------
  // Errors
  // ---------------------------------------------------------------------------

  /**
   * `get_error_message`: the `msg` field of the parsed body, or the raw body
   * when it does not parse. Subscripting a parsed body that is not an object
   * raises TypeError, and one without `msg` raises KeyError.
   */
  function ErrorMessage(resp: Response): (r: Result<Value, Error>)
    ensures resp.json.None? ==> r == Success(Str(resp.content))
    ensures resp.json.Some? && resp.json.value.Obj? && "msg" in resp.json.value.fields ==>
      r == Success(resp.json.value.fields["msg"])
    ensures r.Failure? <==> resp.json.Some? && !(resp.json.value.Obj? && "msg" in resp.json.value.fields)
    ensures r.Failure? ==> r.error == if resp.json.value.Obj? then KeyError("msg") else TypeError
  {
    match resp.json
    case None => Success(Str(resp.content))
    case Some(body) =>
      if !body.Obj? then Failure(TypeError)
      else if "msg" in body.fields then Success(body.fields["msg"])
      else Failure(KeyError("msg"))
  }

  /**
   * The status check of `make_request`: a response with an error status
   * raises GraphCommonsException carrying the status and the error message;
   * any other response is returned unchanged.
   */
  function CheckStatus(resp: Response): (r: Result<Response, Error>)
    ensures r.Success? <==> resp.statusCode !in ErrorCodes
    ensures r.Success? ==> r.value == resp
    ensures r.Failure? && ErrorMessage(resp).Success? ==>
      r.error == GraphCommonsException(resp.statusCode, ErrorMessage(resp).value)
    ensures r.Failure? && ErrorMessage(resp).Failure? ==> r.error == ErrorMessage(resp).error
  {
    if resp.statusCode in ErrorCodes then
      match ErrorMessage(resp)
      case Success(message) => Failure(GraphCommonsException(resp.statusCode, message))
      case Failure(err) => Failure(err)
    else Success(resp)
  }

  /** A 404 whose body is `{"msg": "not found"}` raises GraphCommonsException(404, "not found"). */
  lemma NotFoundScenario(content: string)
    ensures CheckStatus(Response(404, Some(Obj(map["msg" := Str("not found")])), content)) ==
      Failure(GraphCommonsException(404, Str("not found")))
  {
  }

  /** The headers every request carries. */
  function Headers(client: GraphCommons): (h: map<string, string>)
    ensures h.Keys == {"Authentication", "Content-Type"}
    ensures h["Authentication"] == client.apiKey && h["Content-Type"] == "application/json"
  {
    map["Authentication" := client.apiKey, "Content-Type" := "application/json"]
  }

  /**
   * `make_request`: sends one request to `build_url(endpoint, id)` with the
   * client's headers and `data` as the JSON body, then applies the status check.
   */
  function MakeRequest(client: GraphCommons, verb: string, endpoint: string, data: Option<Value>,
                       id: Option<string>, send: Request -> Response): (r: Result<Response, Error>)
    ensures var sent := send(Request(verb, BuildUrl(client, endpoint, id), data, Headers(client)));
      && (r.Success? <==> sent.statusCode !in ErrorCodes)
      && (r.Success? ==> r.value == sent)
      && (r.Failure? && ErrorMessage(sent).Success? ==>
            r.error == GraphCommonsException(sent.statusCode, ErrorMessage(sent).value))
      && (r.Failure? && ErrorMessage(sent).Failure? ==> r.error == ErrorMessage(sent).error)
  {
    CheckStatus(send(Request(verb, BuildUrl(client, endpoint, id), data, Headers(client))))
  }
}
