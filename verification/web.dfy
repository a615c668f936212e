/**
  The slice of a Flask request and response the auth handlers touch.
  Routing, headers and the JSON encoder are outside this model.
*/
module Web {
  import opened PyJson

  /** A request as the handlers see it: whether its content type is JSON
      (`request.is_json`) and its body as parsed JSON (`None` when the body
      does not parse). */
  datatype Request = Request(isJson: bool, parsed: Option<Json>)

  /** A handler's answer: a status code with a JSON body, or an exception
      that escaped the handler (Flask then answers 500 on its own). */
  datatype Reply = Reply(status: int, body: Json) | ServerError

  /** `request.get_json(silent=True)` as a Python value: `None` when the
      request is not JSON or does not parse, and also when the document is
      the JSON literal `null`. */
  function GetJson(req: Request): (r: Option<Json>)
    ensures r.Some? ==> req.isJson && req.parsed == r && r.value != JNull
    ensures r.None? ==> !req.isJson || req.parsed.None? || req.parsed == Some(JNull)
  {
    if req.isJson && req.parsed.Some? && req.parsed.value != JNull then req.parsed else None
  }

  /** `jsonify({key: text})`. */
  function Message(key: string, text: string): Json {
    JObj(map[key := JStr(text)])
  }
}
