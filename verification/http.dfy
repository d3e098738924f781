/** The values that cross the HTTP boundary: request parameters, JSON bodies, responses. */
module Http {

  /** A JSON value as the API renders it. */
  datatype Json =
    | JNull
    | JBool(b: bool)
    | JInt(i: int)
    | JStr(s: string)
    | JArr(items: seq<Json>)
    | JObj(fields: map<string, Json>)

  /** One request parameter: an explicit null or a string (an upload is named by a string). */
  datatype Param = PNull | PStr(s: string)

  /** A rendered response: its HTTP status and its JSON body. */
  datatype Response = Response(status: int, body: Json)

  /** `{status: 401, message: 'Unauthorized'}` rendered with status 401. */
  function Unauthorized(): (r: Response)
    ensures r.status == 401 && r.body.JObj? && r.body.fields.Keys == {"status", "message"}
    ensures r.body.fields["status"] == JInt(r.status) && r.body.fields["message"] == JStr("Unauthorized")
  {
    Response(401, JObj(map["status" := JInt(401), "message" := JStr("Unauthorized")]))
  }

  /** `{status: 500, message: 'Internal Server Error'}` rendered with status 500. */
  function InternalServerError(): (r: Response)
    ensures r.status == 500 && r.body.JObj? && r.body.fields.Keys == {"status", "message"}
    ensures r.body.fields["status"] == JInt(r.status) && r.body.fields["message"] == JStr("Internal Server Error")
  {
    Response(500, JObj(map["status" := JInt(500), "message" := JStr("Internal Server Error")]))
  }
}
