/**
 * ErrorWithData: an Error that carries, besides its message, a diagnostic
 * value of any type. The server throws it for every payload it rejects, and
 * the message handler's catch block reads both parts back.
 */
module Errors {
  import opened Js

  class ErrorWithData {
    /** The Error's `message`, set by the superclass constructor. */
    const message: string
    /** The private `_data` field. It is written only during construction
        (first by its initialiser, then by the constructor body), so it is
        fixed for the object's lifetime. */
    const storedData: Value

    constructor (message: string, data: Value)
      ensures this.message == message
      ensures storedData == data
    {
      this.message := message;
      storedData := JsonValue(Null);  // the field initialiser runs first
      storedData := data;             // and the constructor body overwrites it
    }

    /** The accessor `data()`: reads the field and changes nothing. */
    method Data() returns (d: Value)
      ensures d == storedData
    {
      d := storedData;
    }
  }

  /** What a holder of a freshly constructed ErrorWithData observes: its
      message is the constructor's message, and `data()` gives back exactly
      the constructor's data (undefined included), on every call. */
  method ConstructAndRead(message: string, data: Value) returns (m: string, first: Value, second: Value)
    ensures m == message
    ensures first == data && second == data
  {
    var error := new ErrorWithData(message, data);
    m := error.message;
    first := error.Data();
    second := error.Data();
  }
}
