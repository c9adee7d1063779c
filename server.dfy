/**
 * Server.Connection: one WebSocket connection of the JSON-RPC server. Every
 * inbound frame is validated; a Request is handed to the dispatcher, and
 * anything else closes the socket with UnsupportedData, unless logging the
 * refused message throws first. A transport error closes it with
 * InternalError.
 */
module Server {
  import opened Js
  import opened Envelope
  import opened Errors

  datatype Option<T> = None | Some(value: T)

  /** The close codes of section 7.4.1 of RFC 6455, with 1012 to 1014 from
      the IANA WebSocket close-code registry. */
  datatype CloseReason =
    | Normal | GoingAway | ProtocolError | UnsupportedData | AbnormalClosure
    | InvalidFramePayloadData | PolicyViolation | MessageTooBig | MissingExtension
    | InternalError | ServiceRestart | TryAgainLater | BadGateway | TlsHandshake
  {
    /** The enum member's numeric value. */
    function Code(): (c: int)
      ensures 1000 <= c <= 1015
      ensures c != 1004 && c != 1005
    {
      match this
      case Normal => 1000
      case GoingAway => 1001
      case ProtocolError => 1002
      case UnsupportedData => 1003
      case AbnormalClosure => 1006
      case InvalidFramePayloadData => 1007
      case PolicyViolation => 1008
      case MessageTooBig => 1009
      case MissingExtension => 1010
      case InternalError => 1011
      case ServiceRestart => 1012
      case TryAgainLater => 1013
      case BadGateway => 1014
      case TlsHandshake => 1015
    }
  }

  /** The reverse mapping a numeric enum also has: the member with a code. */
  function ReasonOf(code: int): (r: Option<CloseReason>)
    ensures r.Some? ==> r.value.Code() == code
    ensures r.None? ==> forall reason: CloseReason :: reason.Code() != code
  {
    if code == 1000 then Some(Normal)
    else if code == 1001 then Some(GoingAway)
    else if code == 1002 then Some(ProtocolError)
    else if code == 1003 then Some(UnsupportedData)
    else if code == 1006 then Some(AbnormalClosure)
    else if code == 1007 then Some(InvalidFramePayloadData)
    else if code == 1008 then Some(PolicyViolation)
    else if code == 1009 then Some(MessageTooBig)
    else if code == 1010 then Some(MissingExtension)
    else if code == 1011 then Some(InternalError)
    else if code == 1012 then Some(ServiceRestart)
    else if code == 1013 then Some(TryAgainLater)
    else if code == 1014 then Some(BadGateway)
    else if code == 1015 then Some(TlsHandshake)
    else None
  }

  /** The two mappings are inverse: a code names a member exactly when that
      member's value is the code. In particular no two members share a code. */
  lemma ReasonOfInverse(reason: CloseReason, code: int)
    ensures ReasonOf(code) == Some(reason) <==> reason.Code() == code
  {
  }

  /** Which of the enum's codes (1000-1015) an endpoint may send in a Close
      frame: RFC 6455 section 7.4.1 reserves 1004 and forbids sending 1005,
      1006 and 1015; 1012-1014 are registered with IANA for sending. Codes
      outside 1000-1015, such as the 3000-4999 range, are not considered. */
  predicate Sendable(code: int) {
    (1000 <= code <= 1003) || (1007 <= code <= 1014)
  }

  /** Two of the enum's members name codes that must never be sent. */
  lemma SendableReasons(reason: CloseReason)
    ensures Sendable(reason.Code()) <==> reason != AbnormalClosure && reason != TlsHandshake
  {
  }

  const OnlyRequestsSupported :=
    "Received JSON-RPC response, error or notification but this server only supports requests."

  /** The try block of onMessage: the message handed to the dispatcher, or
      what was thrown. A frame reaches the dispatcher exactly when it is text
      that parses to a Request-shaped object, and it reaches it unchanged. */
  function Attempt(payload: Frame): (r: Eval<Json>)
    ensures r.Returned? <==> Decodes(payload) && RequestShape(payload.parsed.value)
    ensures r.Returned? ==> r.value == payload.parsed.value
    // what it throws otherwise: validatePayload's own exception, or the
    // only-requests error carrying a message validatePayload let through
    ensures ValidatePayload(payload).Threw? ==> r == Threw(ValidatePayload(payload).exception)
    ensures ValidatePayload(payload).Returned? && !RequestShape(payload.parsed.value) ==>
              r == Threw(WithData(OnlyRequestsSupported, JsonValue(payload.parsed.value)))
  {
    var validated :- ValidatePayload(payload);
    // validatePayload returned, so the message is not null and this cannot throw
    if IsRequest(validated.message).value then Returned(validated.message)
    else Threw(WithData(OnlyRequestsSupported, JsonValue(validated.message)))
  }

  /** `error.data ? error.data() : ''` in the catch block: only an
      ErrorWithData has a `data` accessor, and it gives back its data. The
      two ensures only split the body into its cases; the substance is in
      ReadCaught, which reads the data back through an ErrorWithData object
      and is proved to give this value. */
  function Diagnostic(error: Exception): (v: Value)
    ensures error.WithData? ==> v == error.data
    ensures error.TypeError? || error.SyntaxError? ==> v == JsonValue(Str(""))
  {
    if error.WithData? then error.data else JsonValue(Str(""))
  }

  /** The first two lines of onMessage's catch block: the message and the
      data of what was caught. Every error thrown here is an Error whose
      message is a string, so `error.message ? error.message : ''` is that
      message. */
  method ReadCaught(thrown: Exception) returns (text: string, data: Value)
    ensures text == thrown.message
    ensures data == Diagnostic(thrown)
  {
    if thrown.WithData? {
      // A WithData value stands for the ErrorWithData object built at the
      // throw site; the object is materialised here to read it back.
      var error := new ErrorWithData(thrown.message, thrown.data);
      text := error.message;
      data := error.Data();
    } else {
      text := thrown.message;
      data := JsonValue(Str(""));  // a TypeError or SyntaxError has no `data`
    }
  }

  /** The log line of the catch block converts the caught error's data to a
      string, and that conversion throws before the socket is closed. This
      happens for a Response or Error message, refused because it is not a
      Request, that has its own `toString` key. */
  predicate LogThrows(payload: Frame) {
    Attempt(payload).Threw? && StringConversionThrows(Diagnostic(Attempt(payload).exception))
  }

  class Connection {
    /** Every websocket.close(code, reason) call, oldest first. */
    var closeCalls: seq<(int, string)>
    /** Every message handed to dispatcher.handle, oldest first. */
    var handled: seq<Json>
    /** Every message passed to websocket.send, oldest first (the
        JSON.stringify that precedes the send is not modelled). */
    var sent: seq<Json>
    /** The message text and the data the catch block of onMessage logs. */
    var logged: seq<(string, Value)>
    /** Every exception that escaped onMessage. The handler is async, so each
        one rejects the handler's promise, which nobody awaits. */
    var rejections: seq<Exception>

    /** Only messages the classifier accepts as Requests ever reach the
        dispatcher. */
    ghost predicate Valid()
      reads this
    {
      forall i | 0 <= i < |handled| :: RequestShape(handled[i])
    }

    /** A fresh connection, its handlers registered on the socket. */
    constructor ()
      ensures Valid()
      ensures closeCalls == [] && handled == [] && sent == [] && logged == [] && rejections == []
    {
      closeCalls, handled, sent, logged, rejections := [], [], [], [], [];
    }

    /** Closes the socket with the given code and text, unchanged. */
    method Destroy(code: CloseReason, message: string)
      requires Valid()
      modifies this
      ensures Valid()
      ensures closeCalls == old(closeCalls) + [(code.Code(), message)]
      ensures handled == old(handled) && sent == old(sent) && logged == old(logged)
      ensures rejections == old(rejections)
    {
      closeCalls := closeCalls + [(code.Code(), message)];
    }

    /** The send function the dispatcher was built with. */
    method Send(message: Json)
      requires Valid()
      modifies this
      ensures Valid()
      ensures sent == old(sent) + [message]
      ensures closeCalls == old(closeCalls) && handled == old(handled) && logged == old(logged)
      ensures rejections == old(rejections)
    {
      sent := sent + [message];
    }

    /** A Request goes to the dispatcher and nothing is closed. Anything else
        is logged and closes the socket with UnsupportedData and the thrown
        error's message, unless the log line itself throws (LogThrows): then
        nothing is logged or closed, and the handler's promise rejects. */
    method OnMessage(payload: Frame)
      requires Valid()
      modifies this
      ensures Valid()
      ensures sent == old(sent)
      ensures Attempt(payload).Returned? ==>
                handled == old(handled) + [Attempt(payload).value]
                && closeCalls == old(closeCalls) && logged == old(logged) && rejections == old(rejections)
      ensures Attempt(payload).Threw? && !LogThrows(payload) ==>
                handled == old(handled) && rejections == old(rejections)
                && closeCalls == old(closeCalls) + [(UnsupportedData.Code(), Attempt(payload).exception.message)]
                && logged == old(logged) + [(Attempt(payload).exception.message, Diagnostic(Attempt(payload).exception))]
      ensures LogThrows(payload) ==>
                handled == old(handled) && closeCalls == old(closeCalls) && logged == old(logged)
                && rejections == old(rejections) + [TypeError(CannotConvertToPrimitive)]
      // the same, as the effect of one event of a connection's history
      ensures closeCalls == old(closeCalls) + EventCloses(Inbound(payload))
      ensures handled == old(handled) + EventDispatches(Inbound(payload))
      ensures rejections == old(rejections) + EventRejections(Inbound(payload))
    {
      // try
      var thrown: Exception;
      var validated := ValidatePayload(payload);
      if validated.Threw? {
        thrown := validated.exception;
      } else {
        var message := validated.value.message;
        if IsRequest(message).value {
          handled := handled + [message];  // dispatcher.handle(message)
          return;
        }
        thrown := WithData(OnlyRequestsSupported, JsonValue(message));
      }
      // catch (error)
      var text, data := ReadCaught(thrown);
      if StringConversionThrows(data) {
        // the template literal of the log line throws before console.log
        // and destroy are reached
        rejections := rejections + [TypeError(CannotConvertToPrimitive)];
        return;
      }
      logged := logged + [(text, data)];
      Destroy(UnsupportedData, text);
    }

    /** onMessage with a log line that cannot throw (its data rendered by a
        conversion that never fails), so that every frame that is not a
        Request closes the socket, as the handler evidently intends. */
    method OnMessageCorrected(payload: Frame)
      requires Valid()
      modifies this
      ensures Valid()
      ensures sent == old(sent) && rejections == old(rejections)
      ensures closeCalls == old(closeCalls) + CorrectedEventCloses(Inbound(payload))
      ensures handled == old(handled) + EventDispatches(Inbound(payload))
      ensures Attempt(payload).Threw? ==>
                logged == old(logged) + [(Attempt(payload).exception.message, Diagnostic(Attempt(payload).exception))]
      ensures Attempt(payload).Returned? ==> logged == old(logged)
    {
      var attempt := Attempt(payload);
      if attempt.Returned? {
        handled := handled + [attempt.value];
        return;
      }
      var text, data := ReadCaught(attempt.exception);
      logged := logged + [(text, data)];
      Destroy(UnsupportedData, text);
    }

    /** A transport error closes the socket with InternalError and the
        error's message. */
    method OnError(message: string)
      requires Valid()
      modifies this
      ensures Valid()
      ensures closeCalls == old(closeCalls) + [(InternalError.Code(), message)]
      ensures handled == old(handled) && sent == old(sent) && logged == old(logged)
      ensures rejections == old(rejections)
      // the same, as the effect of one event of a connection's history
      ensures closeCalls == old(closeCalls) + EventCloses(SocketError(message))
      ensures handled == old(handled) + EventDispatches(SocketError(message))
      ensures rejections == old(rejections) + EventRejections(SocketError(message))
    {
      Destroy(InternalError, message);
    }
  }

  // ---------------------------------------------------------------------
  // Properties of onMessage's reaction to single frames
  // ---------------------------------------------------------------------

  /** A binary frame closes the connection with the non-string message and
      the Buffer as data, which the log line converts without throwing. */
  lemma BinaryFrameCloses(bytes: seq<bv8>)
    ensures Attempt(Binary(bytes)) == Threw(WithData(NonStringPayload, Buffer(bytes)))
    ensures !LogThrows(Binary(bytes))
  {
  }

  /** Text JSON.parse refuses closes the connection with the parser's own
      message; a SyntaxError has no `data`, so the raw text is not logged. */
  lemma UnparsableFrameCloses(raw: string, syntaxError: string)
    ensures Attempt(Text(raw, Unparsable(syntaxError))) == Threw(SyntaxError(syntaxError))
    ensures Diagnostic(SyntaxError(syntaxError)) == JsonValue(Str(""))
    ensures !LogThrows(Text(raw, Unparsable(syntaxError)))
  {
  }

  /** A well-formed Response or Error message is accepted by the classifier
      and then refused by the handler, which carries the message as data.
      The log line throws exactly when the message has its own `toString`. */
  lemma NonRequestMessageCloses(raw: string, message: Json)
    requires !RequestShape(message) && (ResponseShape(message) || ErrorShape(message))
    ensures Attempt(Text(raw, Parsed(message))) == Threw(WithData(OnlyRequestsSupported, JsonValue(message)))
    ensures LogThrows(Text(raw, Parsed(message))) <==> "toString" in message.fields
  {
  }

  /** The request of the repository's own test is dispatched unchanged. */
  lemma AddRequestDispatched(raw: string)
    ensures var add := Obj(map["id" := Num(1.0), "jsonrpc" := Str("2.0"), "method" := Str("add"),
                               "params" := Arr([Num(1.0), Num(2.0)])]);
            Attempt(Text(raw, Parsed(add))) == Returned(add)
  {
  }

  /** The frame `{"jsonrpc":"2.0","result":0,"toString":0}` is a Response,
      so it is refused; its own `toString` makes the log line throw, and
      the handler neither closes the socket nor dispatches anything. */
  lemma ToStringResponseUnanswered(raw: string)
    ensures var response := Obj(map["jsonrpc" := Str("2.0"), "result" := Num(0.0), "toString" := Num(0.0)]);
            var event := Inbound(Text(raw, Parsed(response)));
            EventCloses(event) == [] && EventDispatches(event) == []
            && EventRejections(event) == [TypeError(CannotConvertToPrimitive)]
  {
  }

  // ---------------------------------------------------------------------
  // Whole histories of a connection driven by its two handlers
  // ---------------------------------------------------------------------

  /** What a socket can deliver to a connection's handlers. */
  datatype Event = Inbound(payload: Frame) | SocketError(message: string)

  /** An inbound frame on which onMessage's catch block throws. */
  predicate Unanswered(event: Event) {
    event.Inbound? && LogThrows(event.payload)
  }

  /** The close calls one event should make: every frame that is not a
      Request closes with UnsupportedData, every transport error with
      InternalError. OnMessageCorrected is proved to append exactly these. */
  function CorrectedEventCloses(event: Event): seq<(int, string)> {
    match event
    case Inbound(payload) =>
      if Attempt(payload).Threw? then [(UnsupportedData.Code(), Attempt(payload).exception.message)] else []
    case SocketError(message) => [(InternalError.Code(), message)]
  }

  /** The close calls one event makes: those it should make, except on an
      unanswered frame. OnMessage and OnError are proved to append exactly
      these. */
  function EventCloses(event: Event): seq<(int, string)> {
    if Unanswered(event) then [] else CorrectedEventCloses(event)
  }

  /** The messages one event hands to the dispatcher; OnMessage,
      OnMessageCorrected and OnError are proved to append exactly these. */
  function EventDispatches(event: Event): seq<Json> {
    match event
    case Inbound(payload) => if Attempt(payload).Returned? then [Attempt(payload).value] else []
    case SocketError(_) => []
  }

  /** The exceptions one event lets escape; OnMessage and OnError are proved
      to append exactly these. */
  function EventRejections(event: Event): seq<Exception> {
    if Unanswered(event) then [TypeError(CannotConvertToPrimitive)] else []
  }

  /** The close calls the handlers make over a history of events. */
  function Closes(events: seq<Event>): seq<(int, string)> {
    if events == [] then [] else Closes(events[..|events| - 1]) + EventCloses(events[|events| - 1])
  }

  /** The close calls the corrected handlers make over a history. */
  function CorrectedCloses(events: seq<Event>): seq<(int, string)> {
    if events == [] then [] else CorrectedCloses(events[..|events| - 1]) + CorrectedEventCloses(events[|events| - 1])
  }

  /** The messages the handlers dispatch over a history of events. */
  function Dispatches(events: seq<Event>): seq<Json> {
    if events == [] then [] else Dispatches(events[..|events| - 1]) + EventDispatches(events[|events| - 1])
  }

  /** The exceptions that escape the handlers over a history of events. */
  function Rejections(events: seq<Event>): seq<Exception> {
    if events == [] then [] else Rejections(events[..|events| - 1]) + EventRejections(events[|events| - 1])
  }

  /** A single event has exactly one outcome: a close call, a dispatch, or
      an escaped exception. It is a close call or a dispatch exactly when
      the event is not an unanswered frame. */
  lemma EventHasOneOutcome(event: Event)
    ensures |EventCloses(event)| + |EventDispatches(event)| + |EventRejections(event)| == 1
    ensures |EventCloses(event)| + |EventDispatches(event)| == 1 <==> !Unanswered(event)
  {
  }

  /** Over a whole history, each event contributes exactly one outcome; the
      socket is closed or the message dispatched for every event exactly
      when no event of the history is an unanswered frame. */
  lemma {:induction false} OneOutcomePerEvent(events: seq<Event>)
    ensures |Closes(events)| + |Dispatches(events)| + |Rejections(events)| == |events|
    ensures |Closes(events)| + |Dispatches(events)| == |events| <==>
              forall i | 0 <= i < |events| :: !Unanswered(events[i])
  {
    if events != [] {
      OneOutcomePerEvent(events[..|events| - 1]);
      EventHasOneOutcome(events[|events| - 1]);
    }
    NothingEscapesExactlyWhenAnswered(events);
  }

  /** No exception escapes over a history exactly when none of its events
      is an unanswered frame. */
  lemma {:induction false} NothingEscapesExactlyWhenAnswered(events: seq<Event>)
    ensures Rejections(events) == [] <==> forall i | 0 <= i < |events| :: !Unanswered(events[i])
  {
    if events != [] {
      var prefix, last := events[..|events| - 1], events[|events| - 1];
      NothingEscapesExactlyWhenAnswered(prefix);
      assert Rejections(events) == Rejections(prefix) + EventRejections(last);
      if Rejections(events) == [] {
        forall i | 0 <= i < |events|
          ensures !Unanswered(events[i])
        {
          if i < |prefix| {
            assert events[i] == prefix[i];
          }
        }
      } else if Rejections(prefix) != [] {
        var i :| 0 <= i < |prefix| && Unanswered(prefix[i]);
        assert events[i] == prefix[i];
      } else {
        assert Unanswered(events[|events| - 1]);
      }
    }
  }

  /** With the corrected handler, every single event is answered by exactly
      one close call or one dispatch. */
  lemma CorrectedEventHasOneOutcome(event: Event)
    ensures |CorrectedEventCloses(event)| + |EventDispatches(event)| == 1
  {
  }

  /** With the corrected handler, close calls and dispatches together number
      the events of any history. */
  lemma {:induction false} CorrectedOneOutcomePerEvent(events: seq<Event>)
    ensures |CorrectedCloses(events)| + |Dispatches(events)| == |events|
  {
    if events != [] {
      CorrectedOneOutcomePerEvent(events[..|events| - 1]);
      CorrectedEventHasOneOutcome(events[|events| - 1]);
    }
  }

  /** The handlers close only with UnsupportedData (1003) or InternalError
      (1011), and so never with a code RFC 6455 forbids sending. */
  lemma {:induction false} OnlyTwoCloseCodes(events: seq<Event>)
    ensures forall i | 0 <= i < |Closes(events)| ::
              (Closes(events)[i].0 == 1003 || Closes(events)[i].0 == 1011) && Sendable(Closes(events)[i].0)
  {
    if events != [] {
      var prefix := events[..|events| - 1];
      OnlyTwoCloseCodes(prefix);
      assert Closes(events) == Closes(prefix) + EventCloses(events[|events| - 1]);
    }
  }

  /** Only Request-shaped messages are ever dispatched. */
  lemma {:induction false} OnlyRequestsDispatched(events: seq<Event>)
    ensures forall i | 0 <= i < |Dispatches(events)| :: RequestShape(Dispatches(events)[i])
  {
    if events != [] {
      var prefix := events[..|events| - 1];
      OnlyRequestsDispatched(prefix);
      assert Dispatches(events) == Dispatches(prefix) + EventDispatches(events[|events| - 1]);
    }
  }

  /** A history of binary frames only dispatches nothing and closes once per
      frame, each time with UnsupportedData and the non-string message. */
  lemma {:induction false} BinaryHistoryNeverDispatches(events: seq<Event>)
    requires forall i | 0 <= i < |events| :: events[i].Inbound? && events[i].payload.Binary?
    ensures Dispatches(events) == []
    ensures |Closes(events)| == |events|
    ensures forall i | 0 <= i < |Closes(events)| :: Closes(events)[i] == (1003, NonStringPayload)
  {
    if events != [] {
      var prefix, last := events[..|events| - 1], events[|events| - 1];
      BinaryHistoryNeverDispatches(prefix);
      BinaryFrameCloses(last.payload.bytes);
      assert EventCloses(last) == [(1003, NonStringPayload)] && EventDispatches(last) == [];
      assert Closes(events) == Closes(prefix) + [(1003, NonStringPayload)];
    }
  }
}
