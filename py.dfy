/** The Python values the modelled code inspects: truthiness, `isinstance`, `==` and `str()`. */
module Py {
  import opened Text

  datatype Value =
    | Nil                           // None
    | Bool(b: bool)
    | Int(i: int)
    | Str(s: string)
    | Obj(id: nat, text: string)    // any other object: its identity and what str() renders

  /** The classes `isinstance` is asked about. */
  datatype Class = NoneClass | BoolClass | IntClass | StrClass | ObjectClass

  /** `bool(v)`: None, False, 0 and "" are falsy, every other value is truthy. */
  predicate Truthy(v: Value) {
    match v
    case Nil => false
    case Bool(b) => b
    case Int(i) => i != 0
    case Str(s) => s != ""
    case Obj(_, _) => true
  }

  /** `isinstance(v, c)`; bool is a subclass of int. */
  predicate IsInstance(v: Value, c: Class) {
    match c
    case NoneClass => v.Nil?
    case BoolClass => v.Bool?
    case IntClass => v.Int? || v.Bool?
    case StrClass => v.Str?
    case ObjectClass => true
  }

  predicate IsNumber(v: Value) {
    v.Int? || v.Bool?
  }

  /** The integer an int or a bool stands for (True is 1, False is 0). */
  function NumberValue(v: Value): int
    requires IsNumber(v)
  {
    if v.Bool? then (if v.b then 1 else 0) else v.i
  }

  /** `a == b` for built-in values: ints and bools compare by number, everything else structurally. */
  predicate Equal(a: Value, b: Value) {
    if IsNumber(a) && IsNumber(b) then NumberValue(a) == NumberValue(b) else a == b
  }

  /** `str(v)`. */
  function ToStr(v: Value): string {
    match v
    case Nil => "None"
    case Bool(b) => if b then "True" else "False"
    case Int(i) => IntToString(i)
    case Str(s) => s
    case Obj(_, text) => text
  }
}
