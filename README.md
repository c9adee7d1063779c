# JSON-RPC over WebSocket: the connection's decision logic

This project models the per-connection logic of a JSON-RPC 2.0 server that
runs over WebSocket. The logic lives in `Server.Connection`. For every
inbound frame, the connection decides whether it is a JSON-RPC Request,
Response, Notification or Error message, or whether it is malformed. A
Request is handed to the dispatcher. Anything else is logged and closes the
socket with close code 1003 (UnsupportedData) and the thrown error's
message. There is one exception: a refused Response or Error message that
has its own `toString` key. Converting it to a string for the log throws
before the close, so that socket stays open (see "## Findings"). A
transport error closes the socket with 1011 (InternalError).

The envelopes loosely follow the JSON-RPC 2.0 specification: section 4
(Request object), 4.1 (Notification), 5 (Response object) and 5.1 (Error
object). The close codes are those of section 7.4.1 of RFC 6455, plus
1012-1014 from the IANA WebSocket close-code registry.

Layout:

- `js.dfy`, module `Js`: the slice of JavaScript the logic depends on.
  - Decoded JSON values, `undefined` and binary Buffers.
  - `typeof`, including `typeof null === 'object'` and arrays being objects.
  - Property reads that throw a TypeError on `null` and `undefined`.
  - The exceptions that can reach the catch block, and an `Eval` result
    type whose `:-` models a throw leaving a function.
- `error_with_data.dfy`, module `Errors`: the `ErrorWithData` class.
- `envelope.dfy`, module `Envelope`:
  - the four shape predicates, each as a chain of early-return checks;
  - `validatePayload`;
  - a declarative statement of each shape, with the predicates proved equal to it;
  - the typed Request view of the `jsonrpc-dispatch` typings.
- `server.dfy`, module `Server`:
  - the `CloseReason` enum;
  - the `Connection` class, whose websocket and dispatcher are recorded as
    sequences of the calls made on them;
  - histories of events and lemmas about everything the two handlers can do.

The shape predicates are total. A property read on `null` throws, and the
model makes that throw a value (`Threw(TypeError(..))`). The catch block
of `onMessage` turns such a value into a 1003 close, as the source
does. `isNotification` is modelled as written: it rejects every object at
`source/code/Server.ts:156`, arrays included, and every non-array at line
157. So no message is ever classified as a Notification. A
notification-shaped message therefore falls through to "Received invalid
JSON-RPC payload.".

Further behaviour of the code that the model keeps as written:

- No message is ever classified as a Notification (see above).
- An unparsable payload is logged with data `''`: JSON.parse throws a
  SyntaxError, which has no `data`, so the raw text is not attached.
- `Connection` keeps no lifecycle state, so every `destroy` call reaches
  `websocket.close`, and frames that arrive after a close are handled like
  any other.
- The code accepts any number as an error `code`, although section 5.1 of
  the JSON-RPC 2.0 specification asks for an integer.

## Model

| member | source | states |
|---|---|---|
| `Js.Read` | source/code/Server.ts:166 | reading a property throws exactly on null and undefined; on an object it gives the own key's value or undefined; on anything else it gives undefined |
| `Errors.ErrorWithData.constructor` | source/code/ErrorWithData.ts:2-7 | the error's message is the constructor's message; the data field ends up as the data argument, because the null initialiser is overwritten, and it is never written again |
| `Errors.ErrorWithData.Data` | source/code/ErrorWithData.ts:9-11 | `data()` returns the stored data and modifies nothing |
| `Errors.ConstructAndRead` | source/code/ErrorWithData.ts:1-12 | for a new error, `message` is the constructor's message, and two successive `data()` calls both return exactly the constructor's data |
| `Envelope.IsRequest` | source/code/Server.ts:131-141 | throws on null; otherwise holds exactly for an object with `jsonrpc` "2.0", a string or number `id` (null and missing are rejected), a string `method` and an array `params` |
| `Envelope.IsResponse` | source/code/Server.ts:143-149 | throws on null; otherwise holds exactly for an object with `jsonrpc` "2.0" that has the key `result`, whatever its value |
| `Envelope.IsNotification` | source/code/Server.ts:151-159 | throws on null; otherwise is false for every message |
| `Envelope.IsError` | source/code/Server.ts:161-169 | throws on null; throws a TypeError reading `code` when `error` is null; otherwise holds exactly for a tagged object whose `error` is a non-array object with a number `code` and a string `message` |
| `Envelope.ValidatePayload` | source/code/Server.ts:104-129 | accepts exactly text that parses to a Request, Response or Error shape, and returns the decoded value unchanged; labels it Request exactly when it is Request-shaped, then Response, then Error; never labels it Notification |
| `Envelope.BinaryRejected` | source/code/Server.ts:105-107 | a binary frame throws the non-string ErrorWithData carrying the Buffer |
| `Envelope.UnparsableRejected` | source/code/Server.ts:109 | unparsable text throws the parser's SyntaxError |
| `Envelope.NullMessageRejected` | source/code/Server.ts:110 | text that parses to null throws a TypeError at the read of `jsonrpc` |
| `Envelope.UntaggedRejected` | source/code/Server.ts:110-112 | a non-null value whose `jsonrpc` is not exactly "2.0" throws the not-JSON-RPC ErrorWithData carrying the raw text, and none of the four predicates accepts it |
| `Envelope.RequestTakesPrecedence` | source/code/Server.ts:114-116 | a Request-shaped message is labelled Request whatever other keys (`result`, `error`) it has |
| `Envelope.ResponseNeedsResultKey` | source/code/Server.ts:143-149 | `{"jsonrpc":"2.0","result":x}` is a Response for every x, null included; `{"jsonrpc":"2.0"}` is rejected as invalid |
| `Envelope.NotificationShapeRejected` | source/code/Server.ts:120-128 | a message with `jsonrpc`, a string `method` and an array `params` is rejected as an invalid payload |
| `Envelope.NullErrorBodyThrows` | source/code/Server.ts:165-166 | a tagged message whose `error` is null, and which is neither a Request nor a Response, throws a TypeError reading `code` |
| `Envelope.NoShapeRejected` | source/code/Server.ts:126-128 | a tagged message matching no shape throws the invalid-payload ErrorWithData carrying the raw text |
| `Envelope.RequestJson` | typings/jsonrpc-dispatch.d.ts:2-10 | a typed Request stands for a tagged object with exactly the keys `jsonrpc`, `id`, `method`, `params` |
| `Envelope.RequestOf` | typings/jsonrpc-dispatch.d.ts:2-10 | a Request-shaped message reads back as a typed Request with a non-null id and the message's own id, method and params |
| `Envelope.RequestRoundTrip` | source/code/Server.ts:131-141 | every typed Request with a non-null id is accepted, and reading it back gives the same id, method and params |
| `Envelope.NullIdRejected` | source/code/Server.ts:135-136 | a typed Request with `id: null`, which the typings allow, is rejected |
| `Server.CloseReason.Code` | source/code/Server.ts:45-60 | every close code lies in 1000-1015 and is neither 1004 nor 1005 |
| `Server.ReasonOf` | source/code/Server.ts:45-60 | the enum's reverse mapping: a member it finds has the given code, and when it finds none no member has that code |
| `Server.ReasonOfInverse` | source/code/Server.ts:45-60 | the enum's reverse mapping finds a member from a code exactly when that member's value is the code, so no two members share a code |
| `Server.SendableReasons` | source/code/Server.ts:45-60 | of the enum's codes, all except AbnormalClosure (1006) and TlsHandshake (1015) may be sent in a Close frame (RFC 6455 section 7.4.1, with 1012-1014 from the IANA registry) |
| `Server.Attempt` | source/code/Server.ts:84-90 | the try block hands a message to the dispatcher exactly when the frame is text that parses to a Request-shaped object, and hands it on unchanged; otherwise it throws validatePayload's own exception, or, for a message validatePayload accepted, the only-requests ErrorWithData carrying that message |
| `Server.Diagnostic` | source/code/Server.ts:93 | the data the catch block logs is the ErrorWithData's data, and `''` for a TypeError or SyntaxError |
| `Server.ReadCaught` | source/code/Server.ts:92-93 | reading the caught error back through an ErrorWithData object and its `data()` accessor gives the thrown message and exactly the `Diagnostic` data |
| `Server.Connection.constructor` | source/code/Server.ts:67-72 | a new connection has made no close, dispatch, send or log call |
| `Server.Connection.Destroy` | source/code/Server.ts:74-77 | appends one close call with the given code and text, unchanged, and changes nothing else |
| `Server.Connection.Send` | source/code/Server.ts:79-81 | appends the message to what was sent, and changes nothing else |
| `Server.Connection.OnMessage` | source/code/Server.ts:83-97 | a Request is dispatched once and nothing is closed. Otherwise, when the log line can convert the error's data, the error is logged and one close with 1003 and the thrown error's message follows. When that conversion throws, nothing is logged or closed and the handler's promise rejects with a TypeError. Only Requests ever reach the dispatcher. Its close, dispatch and rejection records grow by exactly the effect of one `Inbound` event of a history |
| `Server.Connection.OnMessageCorrected` | source/code/Server.ts:83-97 | the handler as evidently intended, with a log line that cannot throw: every frame that is not a Request is logged and closes with 1003, and nothing escapes |
| `Server.Connection.OnError` | source/code/Server.ts:99-102 | appends one close call with 1011 and the error's message, and changes nothing else; that is exactly the effect of one `SocketError` event of a history |
| `Server.BinaryFrameCloses` | source/code/Server.ts:104-107 | a binary frame ends in the non-string rejection, carrying the Buffer, and its log line does not throw |
| `Server.UnparsableFrameCloses` | source/code/Server.ts:91-95 | unparsable text closes with the parser's message, the logged data is `''` rather than the raw text, and the log line does not throw |
| `Server.NonRequestMessageCloses` | source/code/Server.ts:86-94 | a well-formed Response or Error message is refused with the only-requests ErrorWithData carrying the message; its log line throws exactly when the message has its own `toString` key |
| `Server.AddRequestDispatched` | source/tests/test.ts:14-19 | the request `{id:1, jsonrpc:"2.0", method:"add", params:[1,2]}` is dispatched unchanged |
| `Server.ToStringResponseUnanswered` | source/code/Server.ts:89-95 | the frame `{"jsonrpc":"2.0","result":0,"toString":0}` makes no close call and no dispatch; it only rejects the handler's promise with a TypeError |
| `Server.EventHasOneOutcome` | source/code/Server.ts:83-102 | each single event has exactly one outcome: a close call, a dispatch or an escaped exception; it is a close call or a dispatch exactly when the event is not an unanswered frame |
| `Server.OneOutcomePerEvent` | source/code/Server.ts:83-102 | over any history, close calls, dispatches and escaped exceptions together number exactly the events; close calls and dispatches alone number the events exactly when no event is an unanswered frame |
| `Server.NothingEscapesExactlyWhenAnswered` | source/code/Server.ts:83-97 | over any history, no exception escapes the handlers exactly when no event is a refused message whose log line throws |
| `Server.CorrectedEventHasOneOutcome` | source/code/Server.ts:83-102 | with the corrected handler, each single event makes exactly one close call or one dispatch |
| `Server.CorrectedOneOutcomePerEvent` | source/code/Server.ts:83-102 | with the corrected handler, close calls and dispatches together number exactly the events of any history |
| `Server.OnlyTwoCloseCodes` | source/code/Server.ts:83-102 | over any history, the handlers close only with 1003 or 1011, both codes an endpoint may send |
| `Server.OnlyRequestsDispatched` | source/code/Server.ts:83-90 | over any history, every dispatched message is Request-shaped |
| `Server.BinaryHistoryNeverDispatches` | source/code/Server.ts:104-107 | a history of binary frames dispatches nothing and closes once per frame with 1003 and the non-string message |

## Left out

- The `Server` listener is not modelled: socket creation, restart on a listener error, the `destroy` promise and the `connections` set (source/code/Server.ts:8-42). It is network lifecycle with no decision logic, and the set is only ever added to.
- `JSON.parse` and `JSON.stringify` are library calls. A text frame carries the result of JSON.parse as input (`Parsed` or `Unparsable` with the SyntaxError's text), and `Send` records the message before stringification.
- The dispatcher (source/code/Dispatcher.ts and the `jsonrpc-dispatch` library it wraps) is an opaque sink that records the messages handed to it. Method lookup, invocation and error conversion are not visible code.
- The client in source/code/JsonRpcOverWebsocketClient.ts is not part of this model. It is socket-open plumbing, and its `send` is an unimplemented stub.
- `console.log` formatting is not modelled: the model records the message and the data that `onMessage`'s catch block logs. Of the template literal it keeps only whether converting the data to a string throws. `onError`'s log line is not recorded; its `${error}` calls the Error's own `toString`, which does not throw.
- Async and Promise behaviour of the handlers and of `destroy`, and the ordering of events across connections, are not modelled. Each handler runs to completion on one event.
- The validation that `ws` performs inside `websocket.close` is not modelled: the code range it allows and its limit on the length of the reason text. That code is not part of this model.
- JSON numbers are carried as reals and never computed on, because only their `typeof` is inspected. Doubles, NaN and infinities are not modelled.
- The wording of a TypeError raised by a read on null belongs to the JavaScript engine. The model uses current V8's "Cannot read properties of null (reading 'k')".
- `Server.OnlyTwoCloseCodes` covers histories driven only by the two handlers. `Destroy` is public, and an outside caller may pass any `CloseReason`, including 1006 and 1015.
- `Server.Connection.OnMessage` and `Server.OneOutcomePerEvent` assume that `dispatcher.handle` never throws synchronously. If it did, the catch block would also close with 1003 after the dispatch, and that frame would have two outcomes. The dispatcher's code is not part of this model.
- Binary frames are modelled as a single Buffer. The `ws` library can also deliver an `ArrayBuffer` or an array of Buffers; the model treats all three the same way, since each fails the string check, but it does not represent the latter two.

## Findings

| source | as written | input that shows it | evidently intended | confidence | as-written member | corrected member |
|---|---|---|---|---|---|---|
| source/code/Server.ts:89-95 | the log line's template literal converts the refused message (the ErrorWithData's data) to a string before `destroy` is called; for an object with its own `toString` key that conversion throws, so nothing is logged, the socket is not closed, and the async handler's promise rejects with nobody handling it | the text frame `{"jsonrpc":"2.0","result":0,"toString":0}` | every frame that is not a Request closes the socket with 1003 | not executed | `Server.ToStringResponseUnanswered` | `Server.CorrectedOneOutcomePerEvent` |
