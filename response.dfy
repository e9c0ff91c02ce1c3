/** The wrapper around a transport response: the status code, the headers
    and the JSON-decoded body, all captured once when the wrapper is built
    and only read afterwards. */
module Response {
  import opened Results

  /** A decoded JSON document, as `json_decode` returns it. */
  datatype Json =
    | JNull
    | JBool(b: bool)
    | JNumber(n: int)
    | JString(s: string)
    | JArray(items: seq<Json>)
    | JObject(members: seq<(string, Json)>)

  /** Header name to the list of its values. */
  type Headers = seq<(string, seq<string>)>

  /** What the transport hands back for a request. */
  datatype RawResponse = RawResponse(status: int, headers: Headers, body: string)

  /** The one status code counted as success. */
  const SuccessCode: int := 200

  /** `json_decode(body)`: the decoder is a parameter; when it rejects the
      text, PHP gives `null`. */
  function DecodeBody(body: string, jsonDecode: string -> Option<Json>): (j: Json)
    ensures jsonDecode(body).None? ==> j == JNull
    ensures jsonDecode(body).Some? ==> j == jsonDecode(body).value
  {
    match jsonDecode(body)
    case None => JNull
    case Some(doc) => doc
  }

  class Response {
    const httpStatus: int
    const headers: Headers
    const body: Json

    /** `decodeResponse`: status and headers are kept as the transport gave
        them, the body is decoded once. */
    constructor (raw: RawResponse, jsonDecode: string -> Option<Json>)
      ensures httpStatus == raw.status
      ensures headers == raw.headers
      ensures body == DecodeBody(raw.body, jsonDecode)
    {
      httpStatus := raw.status;
      headers := raw.headers;
      body := DecodeBody(raw.body, jsonDecode);
    }

    function GetBody(): Json
    {
      body
    }

    function GetStatusCode(): int
    {
      httpStatus
    }

    function GetHeaders(): Headers
    {
      headers
    }

    /** Success is exactly the status code 200; any other code, 2xx or
        not, is a failure. */
    function IsSuccess(): (ok: bool)
      ensures ok <==> GetStatusCode() == 200
    {
      httpStatus == SuccessCode
    }
  }

  /** A transport answer with status 200 whose body decodes to the JSON
      string "OK" gives a successful wrapper whose body is that string. */
  method PingOkExample(raw: RawResponse, jsonDecode: string -> Option<Json>) returns (r: Response)
    requires raw.status == 200
    requires jsonDecode(raw.body) == Some(JString("OK"))
    ensures r.GetBody() == JString("OK")
    ensures r.GetStatusCode() == 200
    ensures r.IsSuccess()
    ensures r.GetHeaders() == raw.headers
  {
    r := new Response(raw, jsonDecode);
  }
}
