/** The few pieces of JavaScript the form hook relies on: the values a
    form field can hold, truthiness, and what reading a property of a
    plain object gives. */
module JsValues {

  /** `null | T`, as the hook uses it for an optional field name. */
  datatype Option<T> = None | Some(value: T)

  /** A form field value. `Obj` stands for any object, array or function;
      `id` tells different objects apart. `Builtin(name)` is the member
      `name` that every plain object inherits from `Object.prototype`. */
  datatype Value =
    | Undefined
    | Null
    | Bool(b: bool)
    | Num(n: int)
    | Str(s: string)
    | Obj(id: nat)
    | Builtin(name: string)

  /** Form values, keyed by field name. */
  type Values = map<string, Value>

  /** Form errors: one message per field name. */
  type Errors = map<string, string>

  /** JavaScript truthiness (`NaN` is not a `Value`). */
  predicate Truthy(v: Value)
  {
    match v
    case Undefined => false
    case Null => false
    case Bool(b) => b
    case Num(n) => n != 0
    case Str(s) => s != ""
    case Obj(_) => true
    case Builtin(_) => true
  }

  /** `values[field]` as the hook means it: the object's own property, and
      `undefined` for a property it does not own. */
  function Get(values: Values, field: string): Value
  {
    if field in values then values[field] else Undefined
  }

  /** `values[field]` as JavaScript evaluates it on a plain object: a property
      the object does not own is looked up on `Object.prototype`. */
  function ReadAsWritten(values: Values, field: string): (v: Value)
    ensures field !in ObjectPrototypeNames ==> v == Get(values, field)
    ensures field in ObjectPrototypeNames && field !in values ==> Truthy(v)
  {
    if field in values then values[field]
    else if field in ObjectPrototypeNames then Builtin(field)
    else Undefined
  }

  /** An errors object seen as a plain object of string values. */
  function ErrorValues(errors: Errors): Values
  {
    map k | k in errors :: Str(errors[k])
  }

  /** The properties every plain object `{}` inherits from `Object.prototype`.
      Reading one of them on an object that does not own it gives a function
      (or, for `__proto__`, the prototype object): a truthy value. */
  const ObjectPrototypeNames: set<string> := {
    "constructor", "hasOwnProperty", "isPrototypeOf", "propertyIsEnumerable",
    "toLocaleString", "toString", "valueOf", "__proto__",
    "__defineGetter__", "__defineSetter__", "__lookupGetter__", "__lookupSetter__"
  }
}
