/** The Python runtime values that reach the database layer, with `str()` and `isinstance`. */
module Py {
  import opened Strings

  /** A Python value. Floats and bytes are opaque and carry the text `str()` gives them. */
  datatype Value =
    | PyNone
    | PyBool(b: bool)
    | PyInt(i: int)
    | PyFloat(repr: string)
    | PyStr(s: string)
    | PyBytes(repr: string)

  /** Python's `str(v)`. */
  function Str(v: Value): string {
    match v
    case PyNone => "None"
    case PyBool(b) => if b then "True" else "False"
    case PyInt(i) => IntToString(i)
    case PyFloat(r) => r
    case PyStr(s) => s
    case PyBytes(r) => r
  }

  /** The built-in classes a column kind stores. */
  datatype PyType = IntType | FloatType | StrType | BytesType

  /** Python's `isinstance(v, t)`; `bool` is a subclass of `int`, and an `int` is not a `float`. */
  predicate IsInstance(v: Value, t: PyType) {
    match t
    case IntType => v.PyInt? || v.PyBool?
    case FloatType => v.PyFloat?
    case StrType => v.PyStr?
    case BytesType => v.PyBytes?
  }

  /** Python's `bool(v)`: zero, empty and `None` are false. A float is false only as zero. */
  predicate Truthy(v: Value) {
    match v
    case PyNone => false
    case PyBool(b) => b
    case PyInt(i) => i != 0
    case PyFloat(r) => r != "0.0" && r != "-0.0"
    case PyStr(s) => s != ""
    case PyBytes(r) => r != "b''"
  }

  /** The integer an `int` instance stands for (`True` is 1, `False` is 0). */
  function AsInt(v: Value): int
    requires IsInstance(v, IntType)
  {
    if v.PyBool? then (if v.b then 1 else 0) else v.i
  }
}
