/**
  `APIException`, the one exception type the blueprint raises for business
  errors, its `to_dict` serialisation, and the blueprint's error handler that
  turns it into a reply.
*/
module Exceptions {
  import opened PyJson
  import opened Web

  /** The class attribute `status_code` used when the constructor gets none. */
  const DefaultStatusCode: int := 400

  /** The key `to_dict` always writes the message under. */
  const ErrorKey: string := "error"

  datatype APIException = APIException(error: string, statusCode: int, payload: Option<map<string, Json>>)

  /** `APIException(message, status_code, payload)`: a status code that is not
      `None` (0 included) replaces the class default. */
  function NewAPIException(message: string, statusCode: Option<int>, payload: Option<map<string, Json>>): (e: APIException)
    ensures e.error == message && e.payload == payload
    ensures statusCode.None? ==> e.statusCode == DefaultStatusCode
    ensures forall c :: statusCode == Some(c) ==> e.statusCode == c
  {
    var code := match statusCode
      case Some(c) => c
      case None => DefaultStatusCode;
    APIException(message, code, payload)
  }

  /** The common form in the blueprint: `APIException(message)`. */
  function ApiError(message: string): (e: APIException)
    ensures e == NewAPIException(message, None, None)
  {
    APIException(message, DefaultStatusCode, None)
  }

  /** `dict(self.payload or ())`: an absent payload contributes no keys. */
  function PayloadFields(e: APIException): map<string, Json> {
    match e.payload
    case Some(p) => p
    case None => map[]
  }

  /** `to_dict`: the payload's entries with the message written under
      "error", overwriting any payload entry of that name. */
  function ToDict(e: APIException): (d: map<string, Json>)
    ensures d.Keys == PayloadFields(e).Keys + {ErrorKey}
    ensures d[ErrorKey] == JStr(e.error)
    ensures forall k | k in PayloadFields(e) && k != ErrorKey :: d[k] == PayloadFields(e)[k]
  {
    PayloadFields(e)[ErrorKey := JStr(e.error)]
  }

  /** `handle_invalid_usage`: the dict as a JSON body, under the exception's
      status code. */
  function Handle(e: APIException): (r: Reply)
    ensures r.Reply? && r.status == e.statusCode
    ensures r.body.JObj? && r.body.fields == ToDict(e)
  {
    Reply(e.statusCode, JObj(ToDict(e)))
  }

  /** Raising `APIException(message, status_code)` with no payload reaches
      the client as exactly `{"error": message}`, under the given status or
      400 when none is given. */
  lemma RaisedReply(message: string, statusCode: Option<int>)
    ensures Handle(NewAPIException(message, statusCode, None))
      == Reply(if statusCode.Some? then statusCode.value else 400, Message(ErrorKey, message))
  {
    var e := NewAPIException(message, statusCode, None);
    assert ToDict(e) == map[ErrorKey := JStr(message)];
  }

  /** A payload never hides the message: even a payload that carries its own
      "error" entry is overwritten, and every other payload entry survives. */
  lemma PayloadMerge(message: string, statusCode: Option<int>, payload: map<string, Json>)
    ensures var d := ToDict(NewAPIException(message, statusCode, Some(payload)));
      && d.Keys == payload.Keys + {ErrorKey}
      && d[ErrorKey] == JStr(message)
      && (forall k | k in payload && k != ErrorKey :: d[k] == payload[k])
  {
  }
}
