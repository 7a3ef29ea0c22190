/** Python runtime values as they appear in table cells and in node properties.

    Only the exact runtime type of a value matters to the property layer, so a
    value is a tagged variant and `TypeOf` reads the tag. Floats are opaque bit
    patterns: nothing in the model does float arithmetic. `Other` stands for a
    value of any further type (a list, a numpy scalar, a subclass of `str`, ...),
    which is never mistaken for one of the named types. */
module Values {

  datatype Option<+T> = None | Some(value: T)

  /** The result of `type(v)`. */
  datatype PyType = StrType | IntType | FloatType | BoolType | NoneType | OtherType(name: string)

  datatype Value =
    | Str(s: string)
    | Int(i: int)
    | Float(bits: bv64)
    | Bool(b: bool)
    | PyNone
    | Other(typeName: string, ident: nat)

  function TypeOf(v: Value): PyType {
    match v
    case Str(_) => StrType
    case Int(_) => IntType
    case Float(_) => FloatType
    case Bool(_) => BoolType
    case PyNone => NoneType
    case Other(name, _) => OtherType(name)
  }
}
