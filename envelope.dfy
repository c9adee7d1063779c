/**
 * The envelope classifier of Server.Connection: decides whether an inbound
 * WebSocket frame is a JSON-RPC 2.0 Request, Response, Notification or
 * Error message, or rejects it by throwing. The checks are duck-typed on
 * the fields present, in a fixed order, exactly as the server performs them.
 */
module Envelope {
  import opened Js

  /** What JSON.parse made of a text frame. */
  datatype Parse = Parsed(value: Json) | Unparsable(syntaxError: string)

  /** An inbound frame. A text frame carries its raw text together with the
      result of JSON.parse on it; a binary frame arrives as a Buffer. */
  datatype Frame = Binary(bytes: seq<bv8>) | Text(raw: string, parsed: Parse) {
    /** The payload as the JavaScript value the handler receives. */
    function AsValue(): Value {
      match this
      case Binary(bytes) => Buffer(bytes)
      case Text(raw, _) => JsonValue(Str(raw))
    }
  }

  /** The four casts validatePayload can return under. */
  datatype Kind = RequestKind | ResponseKind | NotificationKind | ErrorKind

  /** A message validatePayload let through, with the shape it was accepted as. */
  datatype Classified = Classified(kind: Kind, message: Json)

  const NonStringPayload := "Expected string payload but recevied non-string payload."
  const NotJsonRpcPayload := "Expected JSON-RPC payload but received something else."
  const InvalidPayload := "Received invalid JSON-RPC payload."

  const Version := Str("2.0")

  // ---------------------------------------------------------------------
  // The envelope shapes, stated declaratively over the decoded object.
  // ---------------------------------------------------------------------

  /** An object whose `jsonrpc` is exactly the string "2.0". */
  predicate Tagged(m: Json) {
    m.Obj? && "jsonrpc" in m.fields && m.fields["jsonrpc"] == Version
  }

  /** A tagged object with a string or number `id` (null and absent are not
      accepted), a string `method` and an array `params`. */
  predicate RequestShape(m: Json) {
    Tagged(m)
    && "id" in m.fields && (m.fields["id"].Str? || m.fields["id"].Num?)
    && "method" in m.fields && m.fields["method"].Str?
    && "params" in m.fields && m.fields["params"].Arr?
  }

  /** A tagged object that has the key `result`, whatever its value. */
  predicate ResponseShape(m: Json) {
    Tagged(m) && "result" in m.fields
  }

  /** A tagged object whose `error` is a non-null, non-array object with a
      number `code` and a string `message`. */
  predicate ErrorShape(m: Json) {
    Tagged(m)
    && "error" in m.fields && m.fields["error"].Obj?
    && "code" in m.fields["error"].fields && m.fields["error"].fields["code"].Num?
    && "message" in m.fields["error"].fields && m.fields["error"].fields["message"].Str?
  }

  /** A tagged object whose `error` is null: reading its `code` throws. */
  predicate NullErrorBody(m: Json) {
    Tagged(m) && "error" in m.fields && m.fields["error"] == Null
  }

  // ---------------------------------------------------------------------
  // The four shape predicates, each a sequence of early-return checks in
  // which every property read may throw.
  // ---------------------------------------------------------------------

  function IsRequest(message: Json): (r: Eval<bool>)
    ensures message == Null ==> r == Threw(TypeError(ReadFailure("null", JsonRpc)))
    ensures message != Null ==> r == Returned(RequestShape(message))
  {
    var request := JsonValue(message);
    var jsonrpc :- Read(request, JsonRpc);
    if TypeOf(jsonrpc) != StringType then Returned(false)
    else if jsonrpc != JsonValue(Version) then Returned(false)
    else
      var id := Get(request, Id);
      if TypeOf(id) != StringType && TypeOf(id) != NumberType then Returned(false)
      else
        var methodName := Get(request, Method);
        if TypeOf(methodName) != StringType then Returned(false)
        else
          var params := Get(request, Params);
          if TypeOf(params) != ObjectType then Returned(false)
          else if !IsArray(params) then Returned(false)
          else Returned(true)
  }

  function IsResponse(message: Json): (r: Eval<bool>)
    ensures message == Null ==> r == Threw(TypeError(ReadFailure("null", JsonRpc)))
    ensures message != Null ==> r == Returned(ResponseShape(message))
  {
    var response := JsonValue(message);
    var jsonrpc :- Read(response, JsonRpc);
    if TypeOf(jsonrpc) != StringType then Returned(false)
    else if jsonrpc != JsonValue(Version) then Returned(false)
    else
      var result := Get(response, Result);
      if TypeOf(result) == UndefinedType then Returned(false)
      else Returned(true)
  }

  /** As written, the check on `params` rejects every object (arrays
      included) and then every non-array, so no message passes it. */
  function IsNotification(message: Json): (r: Eval<bool>)
    ensures message == Null ==> r == Threw(TypeError(ReadFailure("null", JsonRpc)))
    ensures message != Null ==> r == Returned(false)
  {
    var notification := JsonValue(message);
    var jsonrpc :- Read(notification, JsonRpc);
    if TypeOf(jsonrpc) != StringType then Returned(false)
    else if jsonrpc != JsonValue(Version) then Returned(false)
    else
      var methodName := Get(notification, Method);
      if TypeOf(methodName) != StringType then Returned(false)
      else
        var params := Get(notification, Params);
        if TypeOf(params) == ObjectType then Returned(false)
        else if !IsArray(params) then Returned(false)
        else Returned(true)
  }

  /** `typeof null === 'object'` lets a null `error` through to the read of
      its `code`, which throws. */
  function IsError(message: Json): (r: Eval<bool>)
    ensures message == Null ==> r == Threw(TypeError(ReadFailure("null", JsonRpc)))
    ensures message != Null && NullErrorBody(message) ==> r == Threw(TypeError(ReadFailure("null", Code)))
    ensures message != Null && !NullErrorBody(message) ==> r == Returned(ErrorShape(message))
  {
    var error := JsonValue(message);
    var jsonrpc :- Read(error, JsonRpc);
    if TypeOf(jsonrpc) != StringType then Returned(false)
    else if jsonrpc != JsonValue(Version) then Returned(false)
    else
      var body := Get(error, Error);
      if TypeOf(body) != ObjectType then Returned(false)
      else
        var code :- Read(body, Code);
        if TypeOf(code) != NumberType then Returned(false)
        else
          var text := Get(body, Message);
          if TypeOf(text) != StringType then Returned(false)
          else Returned(true)
  }

  // ---------------------------------------------------------------------
  // validatePayload
  // ---------------------------------------------------------------------

  /** The decoded message of a frame, when it is a text frame JSON.parse
      accepted. */
  predicate Decodes(payload: Frame) {
    payload.Text? && payload.parsed.Parsed?
  }

  function ValidatePayload(payload: Frame): (r: Eval<Classified>)
    // it lets through only text that parses, and returns the decoded value unchanged
    ensures r.Returned? ==> Decodes(payload) && r.value.message == payload.parsed.value
    // what it lets through: exactly the Request, Response and Error shapes
    ensures r.Returned? <==>
              Decodes(payload)
              && (RequestShape(payload.parsed.value)
                  || ResponseShape(payload.parsed.value)
                  || ErrorShape(payload.parsed.value))
    // precedence: Request, then Response, then Error; never Notification
    ensures r.Returned? ==> (r.value.kind == RequestKind <==> RequestShape(r.value.message))
    ensures r.Returned? && r.value.kind == ResponseKind ==> ResponseShape(r.value.message)
    ensures r.Returned? && r.value.kind == ErrorKind ==>
              ErrorShape(r.value.message) && !ResponseShape(r.value.message)
    ensures r.Returned? ==> r.value.kind != NotificationKind
  {
    if !payload.Text? then Threw(WithData(NonStringPayload, payload.AsValue()))
    else
      match payload.parsed
      case Unparsable(syntaxError) => Threw(SyntaxError(syntaxError))  // JSON.parse throws
      case Parsed(message) =>
        var jsonrpc :- Read(JsonValue(message), JsonRpc);
        if jsonrpc != JsonValue(Version) then Threw(WithData(NotJsonRpcPayload, payload.AsValue()))
        else
          // the tag check above means message is not null, so these three cannot throw
          if IsRequest(message).value then Returned(Classified(RequestKind, message))
          else
            if IsResponse(message).value then Returned(Classified(ResponseKind, message))
            else
              if IsNotification(message).value then Returned(Classified(NotificationKind, message))
              else
                var isError :- IsError(message);
                if isError then Returned(Classified(ErrorKind, message))
                else Threw(WithData(InvalidPayload, payload.AsValue()))
  }

  // ---------------------------------------------------------------------
  // Properties of the classifier
  // ---------------------------------------------------------------------

  /** A binary frame is rejected before anything else is looked at. */
  lemma BinaryRejected(bytes: seq<bv8>)
    ensures ValidatePayload(Binary(bytes)) == Threw(WithData(NonStringPayload, Buffer(bytes)))
  {
  }

  /** Text that JSON.parse refuses escapes as the parser's SyntaxError. */
  lemma UnparsableRejected(raw: string, syntaxError: string)
    ensures ValidatePayload(Text(raw, Unparsable(syntaxError))) == Threw(SyntaxError(syntaxError))
  {
  }

  /** The text `null` parses to null, and reading its `jsonrpc` throws. */
  lemma NullMessageRejected(raw: string)
    ensures ValidatePayload(Text(raw, Parsed(Null))) == Threw(TypeError(ReadFailure("null", JsonRpc)))
  {
  }

  /** A decoded value whose `jsonrpc` is not exactly "2.0" (arrays, strings,
      numbers and objects without the tag included) is rejected before any
      shape is checked, and none of the four predicates accepts it. */
  lemma UntaggedRejected(raw: string, message: Json)
    requires message != Null && !Tagged(message)
    ensures ValidatePayload(Text(raw, Parsed(message)))
              == Threw(WithData(NotJsonRpcPayload, JsonValue(Str(raw))))
    ensures IsRequest(message) == Returned(false)
    ensures IsResponse(message) == Returned(false)
    ensures IsNotification(message) == Returned(false)
    ensures IsError(message) == Returned(false)
  {
  }

  /** Request wins over every other shape, whatever else the message holds. */
  lemma RequestTakesPrecedence(raw: string, message: Json)
    requires RequestShape(message)
    ensures ValidatePayload(Text(raw, Parsed(message))) == Returned(Classified(RequestKind, message))
  {
  }

  /** `result: null` makes a Response; a missing `result` does not. */
  lemma ResponseNeedsResultKey(raw: string, result: Json)
    ensures ValidatePayload(Text(raw, Parsed(Obj(map["jsonrpc" := Version, "result" := result]))))
              == Returned(Classified(ResponseKind, Obj(map["jsonrpc" := Version, "result" := result])))
    ensures ValidatePayload(Text(raw, Parsed(Obj(map["jsonrpc" := Version]))))
              == Threw(WithData(InvalidPayload, JsonValue(Str(raw))))
  {
    assert !ResponseShape(Obj(map["jsonrpc" := Version]));
  }

  /** A message shaped as a notification is not recognised as one: it falls
      through to the last check and is rejected as invalid. */
  lemma NotificationShapeRejected(raw: string, methodName: string, params: seq<Json>)
    ensures ValidatePayload(Text(raw, Parsed(Obj(map["jsonrpc" := Version, "method" := Str(methodName), "params" := Arr(params)]))))
              == Threw(WithData(InvalidPayload, JsonValue(Str(raw))))
  {
    var m := Obj(map["jsonrpc" := Version, "method" := Str(methodName), "params" := Arr(params)]);
    assert !RequestShape(m) && !ResponseShape(m) && !ErrorShape(m) && !NullErrorBody(m);
  }

  /** An `error` that is null passes the `typeof` check and the read of its
      `code` throws, unless an earlier shape already matched. */
  lemma NullErrorBodyThrows(raw: string, message: Json)
    requires NullErrorBody(message) && !RequestShape(message) && !ResponseShape(message)
    ensures ValidatePayload(Text(raw, Parsed(message))) == Threw(TypeError(ReadFailure("null", Code)))
  {
  }

  /** A tagged message that matches no shape, and has no null `error`, is
      rejected with the invalid-payload message carrying the raw text. */
  lemma NoShapeRejected(raw: string, message: Json)
    requires Tagged(message) && !RequestShape(message) && !ResponseShape(message)
    requires !ErrorShape(message) && !NullErrorBody(message)
    ensures ValidatePayload(Text(raw, Parsed(message))) == Threw(WithData(InvalidPayload, JsonValue(Str(raw))))
  {
  }

  // ---------------------------------------------------------------------
  // The typed Request envelope of the jsonrpc-dispatch typings
  // ---------------------------------------------------------------------

  /** An id as the typings declare it: string, number or null. */
  datatype RequestId = StringId(s: string) | NumberId(n: real) | NullId

  /** A JsonRpcRequest as the typings declare it. */
  datatype Request = Request(id: RequestId, methodName: string, params: seq<Json>)

  function IdJson(id: RequestId): Json {
    match id
    case StringId(s) => Str(s)
    case NumberId(n) => Num(n)
    case NullId => Null
  }

  /** The object a typed Request stands for on the wire. */
  function RequestJson(request: Request): (m: Json)
    ensures m.Obj? && m.fields.Keys == {"jsonrpc", "id", "method", "params"}
    ensures Tagged(m)
  {
    Obj(map["jsonrpc" := Version, "id" := IdJson(request.id),
            "method" := Str(request.methodName), "params" := Arr(request.params)])
  }

  /** The typed view of a message the classifier accepts as a Request. */
  function RequestOf(m: Json): (request: Request)
    requires RequestShape(m)
    ensures request.id != NullId
    ensures IdJson(request.id) == m.fields["id"]
    ensures Str(request.methodName) == m.fields["method"]
    ensures Arr(request.params) == m.fields["params"]
  {
    var id := m.fields["id"];
    Request(if id.Str? then StringId(id.s) else NumberId(id.n),
            m.fields["method"].s, m.fields["params"].items)
  }

  /** Every typed Request with a non-null id is accepted, and reading it
      back gives the same id, method and params. */
  lemma RequestRoundTrip(request: Request)
    requires request.id != NullId
    ensures IsRequest(RequestJson(request)) == Returned(true)
    ensures RequestOf(RequestJson(request)) == request
  {
  }

  /** The typings allow `id: null`, but the classifier rejects it. */
  lemma NullIdRejected(request: Request)
    requires request.id == NullId
    ensures IsRequest(RequestJson(request)) == Returned(false)
  {
  }
}
