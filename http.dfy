/** The slice of Next.js API routes that the handlers use: the request's
    method and parsed JSON body, and the status, `Allow` header and body
    written to the response. */
module Http {
  import opened Js

  /** `req.method` (here `verb`) and `req.body`; the body is a JSON object. */
  datatype Request = Request(verb: string, body: map<string, Json>)

  /** Destructuring `const { key } = req.body`: None when the key is absent. */
  function Field(req: Request, key: string): (v: Option<Json>)
    ensures v.Some? <==> key in req.body
    ensures v.Some? ==> v.value == req.body[key]
  {
    if key in req.body then Some(req.body[key]) else None
  }

  /** `res.json(v)` sends JSON; `res.end(s)` sends plain text. */
  datatype Body = JsonBody(value: Json) | TextBody(text: string)

  /** What a handler leaves on `res`: the status code, the `Allow` header
      if it set one, and the body. An array value is sent as one `Allow`
      line per element, which HTTP field combining reads as the
      comma-separated list kept here. */
  datatype Response = Response(status: int, allow: Option<string>, body: Body)

  /** `res.status(status).json({ error: message })`. */
  function ErrorJson(status: int, message: string): (r: Response)
    ensures r.status == status && r.allow.None?
  {
    Response(status, None, JsonBody(JObj(map["error" := JStr(message)])))
  }
}
