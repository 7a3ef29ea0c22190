/** Declarations a caller makes: property descriptors, node-model classes and
    the selector that names either a bare label or a model class. */
module Classes {
  import opened Values

  /** The concrete descriptor classes. `SchemaPropertyBase` is `SchemaProperty`
      used directly, whose `TYPE` is left as `None`. */
  datatype PropertyKind = StringProperty | IntegerProperty | FloatProperty | SchemaPropertyBase

  /** The `TYPE` class attribute of each descriptor class; `None` for the base class. */
  function DeclaredType(k: PropertyKind): Option<PyType> {
    match k
    case StringProperty => Some(StrType)
    case IntegerProperty => Some(IntType)
    case FloatProperty => Some(FloatType)
    case SchemaPropertyBase => None
  }

  /** A typed property descriptor with its constructor arguments. */
  datatype SchemaProperty = SchemaProperty(kind: PropertyKind, castValue: bool := false, default: Value := PyNone)

  /** A class attribute of a model class: either a typed property descriptor or
      any other attribute (a method, a constant, a related-object declaration),
      seen as an opaque value. */
  datatype Attribute = Typed(prop: SchemaProperty) | Plain(value: Value)

  /** `PandasModelClass`: a subclass of `PandasModel`; `OgmModelClass`: another
      subclass of `ogm.Model`; `OtherClass`: any other class. */
  datatype ClassKind = PandasModelClass | OgmModelClass | OtherClass

  datatype ModelClass = ModelClass(
    name: string,
    kind: ClassKind,
    primaryLabel: string,
    primaryKey: string,
    attributes: map<string, Attribute>,
    hasFromSeries: bool,
    hasToDict: bool)

  predicate IsOgmModel(c: ModelClass) {
    c.kind != OtherClass
  }

  /** `hasattr(c, "to_dict")`: every `PandasModel` subclass inherits one. */
  predicate HasToDict(c: ModelClass) {
    c.kind == PandasModelClass || c.hasToDict
  }

  predicate IsTypedAttribute(c: ModelClass, name: string) {
    name in c.attributes && c.attributes[name].Typed?
  }

  /** The polymorphic `model_class` argument: a label string or a class. */
  datatype Selector = ByLabel(labelName: string) | ByModel(cls: ModelClass)
}
