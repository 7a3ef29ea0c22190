/** The typed property gate: `SchemaProperty.__get__` and `__set__`.

    A property is stored in its node's property map under its attribute name.
    Reading checks the exact runtime type; writing optionally casts through
    `TYPE(value)` first and then checks the exact runtime type. */
module Properties {
  import opened Values
  import opened Classes
  import opened Errors

  /** What `TYPE(value)` does: returns a value, raises `TypeError`, or raises
      some other exception. Python's conversion rules are not modelled. */
  datatype CastOutcome = Cast(value: Value) | CastTypeError | CastRaised(exception: string)

  type Caster = (PyType, Value) -> CastOutcome

  /** `type(v) is TYPE`; never true for the base class, whose `TYPE` is `None`. */
  predicate HasDeclaredType(p: SchemaProperty, v: Value) {
    DeclaredType(p.kind) == Some(TypeOf(v))
  }

  /** What the inherited `ogm.Property.__get__` yields: the stored value, or the
      descriptor's default when the node's value for the key is None (a
      missing key reads as None). */
  function StoredOrDefault(p: SchemaProperty, props: map<string, Value>, name: string): Value {
    if name in props && props[name] != PyNone then props[name] else p.default
  }

  /** `SchemaProperty.__get__`. */
  function Get(p: SchemaProperty, props: map<string, Value>, name: string): (r: Result<Value>)
    ensures StoredOrDefault(p, props, name) == PyNone ==> r == Ok(PyNone)
    ensures StoredOrDefault(p, props, name) != PyNone ==>
              (r.Ok? <==> HasDeclaredType(p, StoredOrDefault(p, props, name)))
    ensures r.Ok? ==> r.value == StoredOrDefault(p, props, name)
    ensures r.Err? ==> r.error == PropertyValueWithInvalidType
  {
    var v := StoredOrDefault(p, props, name);
    if v != PyNone && !HasDeclaredType(p, v) then Err(PropertyValueWithInvalidType) else Ok(v)
  }

  /** The value `SchemaProperty.__set__` hands to the node, or the exception it
      raises. Only a `TypeError` of the cast is translated. */
  function Coerce(p: SchemaProperty, v: Value, cast: Caster): (r: Result<Value>)
    ensures r.Ok? ==> HasDeclaredType(p, r.value)
    ensures HasDeclaredType(p, v) ==> r == Ok(v)
    ensures !p.castValue ==> (r.Ok? <==> HasDeclaredType(p, v))
    ensures !p.castValue && r.Err? ==> r.error == PropertyValueWithInvalidType
    ensures p.castValue && !HasDeclaredType(p, v) && DeclaredType(p.kind).Some? ==>
              match cast(DeclaredType(p.kind).value, v)
              case Cast(w) => r == (if HasDeclaredType(p, w) then Ok(w) else Err(PropertyValueWithInvalidType))
              case CastTypeError => r == Err(PropertyValueWithInvalidType)
              case CastRaised(x) => r == Err(Python(Raised(x)))
  {
    var w :-
      if p.castValue && !HasDeclaredType(p, v) then
        match DeclaredType(p.kind)
        // calling `None(value)` raises TypeError
        case None => Err(PropertyValueWithInvalidType)
        case Some(t) =>
          match cast(t, v)
          case Cast(w) => Ok(w)
          case CastTypeError => Err(PropertyValueWithInvalidType)
          case CastRaised(x) => Err(Python(Raised(x)))
      else
        Ok(v);
    if !HasDeclaredType(p, w) then Err(PropertyValueWithInvalidType) else Ok(w)
  }

  /** `SchemaProperty.__set__`: the node's property map after the write. */
  function Set(p: SchemaProperty, props: map<string, Value>, name: string, v: Value, cast: Caster): (r: Result<map<string, Value>>)
    ensures r.Ok? <==> Coerce(p, v, cast).Ok?
    ensures r.Ok? ==> r.value == props[name := Coerce(p, v, cast).value]
    ensures r.Err? ==> r.error == Coerce(p, v, cast).error
  {
    var w :- Coerce(p, v, cast);
    Ok(props[name := w])
  }

  /** After a successful write, reading the property never raises and yields
      what was written (the value itself when it already had type `TYPE`). */
  lemma WriteThenRead(p: SchemaProperty, props: map<string, Value>, name: string, v: Value, cast: Caster)
    requires Set(p, props, name, v, cast).Ok?
    ensures Get(p, Set(p, props, name, v, cast).value, name) == Coerce(p, v, cast)
    ensures HasDeclaredType(p, v) ==> Get(p, Set(p, props, name, v, cast).value, name) == Ok(v)
  {
  }

  /** Writing back a value just read: the write succeeds, the read after it
      is unchanged, and when the key was stored the map is unchanged. */
  lemma ReadThenWrite(p: SchemaProperty, props: map<string, Value>, name: string, cast: Caster)
    requires Get(p, props, name).Ok? && Get(p, props, name).value != PyNone
    ensures Set(p, props, name, Get(p, props, name).value, cast).Ok?
    ensures Get(p, Set(p, props, name, Get(p, props, name).value, cast).value, name) == Get(p, props, name)
    ensures name in props && props[name] != PyNone ==> Set(p, props, name, Get(p, props, name).value, cast) == Ok(props)
  {
    if name in props && props[name] != PyNone {
      assert props[name := props[name]] == props;
    }
  }

  /** A value already of type `TYPE` is never cast: the caster is irrelevant. */
  lemma NoCastForDeclaredType(p: SchemaProperty, props: map<string, Value>, name: string, v: Value, c1: Caster, c2: Caster)
    requires HasDeclaredType(p, v)
    ensures Set(p, props, name, v, c1) == Set(p, props, name, v, c2) == Ok(props[name := v])
  {
  }

  /** Without casting, `None` is rejected like any other mistyped value. */
  lemma NoneRejectedWithoutCast(p: SchemaProperty, props: map<string, Value>, name: string, cast: Caster)
    requires !p.castValue
    ensures Set(p, props, name, PyNone, cast) == Err(PropertyValueWithInvalidType)
  {
  }

  /** The concrete descriptor classes accept exactly their own type; a `bool`
      is not an `int`. */
  lemma ConcreteKindsAcceptExactlyTheirType(p: SchemaProperty, props: map<string, Value>, name: string, v: Value, cast: Caster)
    requires !p.castValue
    ensures p.kind == StringProperty ==> (Set(p, props, name, v, cast).Ok? <==> v.Str?)
    ensures p.kind == IntegerProperty ==> (Set(p, props, name, v, cast).Ok? <==> v.Int?)
    ensures p.kind == FloatProperty ==> (Set(p, props, name, v, cast).Ok? <==> v.Float?)
  {
  }

  /** `SchemaProperty` used directly rejects every write and every non-None read. */
  lemma BaseClassRejectsEverything(p: SchemaProperty, props: map<string, Value>, name: string, v: Value, cast: Caster)
    requires p.kind == SchemaPropertyBase
    ensures Set(p, props, name, v, cast) == Err(PropertyValueWithInvalidType)
    ensures Get(p, props, name).Ok? <==> StoredOrDefault(p, props, name) == PyNone
  {
  }
}
