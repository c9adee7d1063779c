/**
 * The part of the JavaScript runtime that the connection logic observes:
 * the values JSON.parse produces, binary frames, `typeof`, property reads
 * (which throw a TypeError on null and undefined) and the exceptions that
 * reach the message handler's catch block.
 */
module Js {

  /** A value as JSON.parse returns it. Numbers are only ever inspected with
      `typeof`, so their value is carried as a real and never computed on.
      An object is the map of its own keys; JSON.parse keeps the last of
      duplicate keys, which a map expresses directly. */
  datatype Json =
    | Null
    | Bool(b: bool)
    | Num(n: real)
    | Str(s: string)
    | Arr(items: seq<Json>)
    | Obj(fields: map<string, Json>)

  /** Any JavaScript value the connection handles: `undefined`, a decoded
      JSON value (a text frame's payload is `JsonValue(Str(text))`), or the
      Buffer of a binary frame. */
  datatype Value = Undefined | JsonValue(json: Json) | Buffer(bytes: seq<bv8>)

  /** The answers `typeof` gives for these values. */
  datatype TypeTag = UndefinedType | ObjectType | BooleanType | NumberType | StringType

  function TypeOf(v: Value): TypeTag {
    match v
    case Undefined => UndefinedType
    case Buffer(_) => ObjectType
    case JsonValue(j) =>
      match j
      case Null => ObjectType  // typeof null === 'object'
      case Bool(_) => BooleanType
      case Num(_) => NumberType
      case Str(_) => StringType
      case Arr(_) => ObjectType  // arrays are objects too
      case Obj(_) => ObjectType
  }

  /** Array.isArray */
  predicate IsArray(v: Value) {
    v.JsonValue? && v.json.Arr?
  }

  /** The property names the envelope checks read. None of them is a property
      of Object.prototype, Array.prototype, Buffer.prototype or a primitive's
      prototype, so on a value without such an own key a read gives undefined. */
  datatype Key = JsonRpc | Id | Method | Params | Result | Error | Code | Message {
    function Name(): string {
      match this
      case JsonRpc => "jsonrpc"
      case Id => "id"
      case Method => "method"
      case Params => "params"
      case Result => "result"
      case Error => "error"
      case Code => "code"
      case Message => "message"
    }
  }

  /** What can be thrown on the paths modelled here. */
  datatype Exception =
    | WithData(message: string, data: Value)  // an ErrorWithData thrown by the server
    | TypeError(message: string)              // a property read on null or undefined
    | SyntaxError(message: string)            // JSON.parse refusing its input

  /** The outcome of evaluating an expression that may throw; `:-` propagates
      the exception the way an uncaught `throw` leaves the enclosing function. */
  datatype Eval<+T> = Returned(value: T) | Threw(exception: Exception) {
    predicate IsFailure() {
      Threw?
    }

    function PropagateFailure<U>(): Eval<U>
      requires Threw?
    {
      Threw(exception)
    }

    function Extract(): T
      requires Returned?
    {
      value
    }
  }

  /** The text of the TypeError a property read on `receiver` raises (the
      wording of current V8 engines; other engines word it differently). */
  function ReadFailure(receiver: string, key: Key): string {
    "Cannot read properties of " + receiver + " (reading '" + key.Name() + "')"
  }

  /** `v.key`: throws on null and undefined, gives the own property of an
      object, and undefined on everything else. */
  function Read(v: Value, key: Key): (r: Eval<Value>)
    ensures r.Threw? <==> v == Undefined || v == JsonValue(Null)
    ensures r.Returned? && r.value != Undefined <==>
              v.JsonValue? && v.json.Obj? && key.Name() in v.json.fields
    ensures r.Returned? && r.value != Undefined ==> r.value == JsonValue(v.json.fields[key.Name()])
  {
    match v
    case Undefined => Threw(TypeError(ReadFailure("undefined", key)))
    case JsonValue(Null) => Threw(TypeError(ReadFailure("null", key)))
    case JsonValue(Obj(fields)) =>
      Returned(if key.Name() in fields then JsonValue(fields[key.Name()]) else Undefined)
    case _ => Returned(Undefined)
  }

  /** The TypeError a string conversion raises when neither `toString` nor
      `valueOf` gives a primitive (the wording of current V8 engines). */
  const CannotConvertToPrimitive := "Cannot convert object to primitive value"

  /** Whether converting a decoded JSON value to a string throws. The
      conversion calls `toString` and then `valueOf`, skipping one that is
      not callable, and throws when neither gives a primitive. An object
      with its own `toString` key hides the inherited method behind a value
      that is never callable, and the inherited `valueOf` gives back the
      object itself, so that conversion throws. Other objects give
      "[object Object]". An array joins the conversions of its elements. */
  predicate JsonConversionThrows(j: Json) {
    match j
    case Obj(fields) => "toString" in fields
    case Arr(items) => exists i | 0 <= i < |items| :: JsonConversionThrows(items[i])
    case _ => false
  }

  /** Whether a template literal such as `${v}` throws on `v`. Primitives,
      undefined and Buffers always convert. */
  predicate StringConversionThrows(v: Value) {
    v.JsonValue? && JsonConversionThrows(v.json)
  }

  /** `v.key` on a value already known to be neither null nor undefined,
      where the read cannot throw. */
  function Get(v: Value, key: Key): Value
    requires v != Undefined && v != JsonValue(Null)
  {
    Read(v, key).value
  }
}
