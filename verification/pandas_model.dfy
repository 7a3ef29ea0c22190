/** `PandasModel`: building a model instance from a table row, dumping it back
    to a dictionary, and turning collections of models or nodes into rows. */
module PandasModel {
  import opened Values
  import opened Classes
  import opened Errors
  import opened Seqs
  import opened Properties
  import opened Graph
  import opened Tables

  /** A model instance: its class, its node (`__node__`) and the attributes
      set on the instance itself (the instance `__dict__`). */
  datatype Instance = Instance(cls: ModelClass, node: Node, attrs: map<string, Value>)

  function PropOf(cls: ModelClass, name: string): SchemaProperty
    requires IsTypedAttribute(cls, name)
  {
    cls.attributes[name].prop
  }

  /** A new instance, before any assignment: its lazily created node carries
      the primary label and no properties. */
  function Fresh(cls: ModelClass): Instance {
    Instance(cls, Node({cls.primaryLabel}, map[]), map[])
  }

  /** `hasattr` on a fresh instance cannot fail for `name`: for a typed
      property it runs `__get__`, which reads the descriptor's default. */
  predicate DefaultReadable(cls: ModelClass, name: string) {
    IsTypedAttribute(cls, name) ==> Get(PropOf(cls, name), map[], name).Ok?
  }

  /** `hasattr(self, name)` on a fresh instance. Only `AttributeError` counts
      as "no such attribute"; the type error of `__get__` propagates. */
  function HasAttr(cls: ModelClass, name: string): (r: Result<bool>)
    ensures r.Ok? <==> DefaultReadable(cls, name)
    ensures r.Ok? ==> (r.value <==> name in cls.attributes)
    ensures r.Err? ==> r.error == PropertyValueWithInvalidType
  {
    if name !in cls.attributes then Ok(false)
    else if cls.attributes[name].Typed? then
      var _ :- Get(cls.attributes[name].prop, map[], name);
      Ok(true)
    else Ok(true)
  }

  /** `[col for col in row.keys() if hasattr(self, col)]`. */
  function SelectColumns(cls: ModelClass, columns: seq<string>): (r: Result<seq<string>>)
    ensures r.Ok? <==> forall c :: c in columns ==> DefaultReadable(cls, c)
    ensures r.Ok? ==> forall c :: c in r.value <==> c in columns && c in cls.attributes
    ensures r.Err? ==> r.error == PropertyValueWithInvalidType
  {
    if columns == [] then Ok([])
    else
      var keep :- HasAttr(cls, columns[0]);
      var rest :- SelectColumns(cls, columns[1..]);
      assert forall c :: c in columns <==> c == columns[0] || c in columns[1..];
      Ok(if keep then [columns[0]] + rest else rest)
  }

  /** `instance.__setattr__(name, v)`: a typed property goes through its
      setter into the node; any other name lands in the instance dictionary. */
  function SetAttr(inst: Instance, name: string, v: Value, cast: Caster): (r: Result<Instance>)
    ensures IsTypedAttribute(inst.cls, name) ==>
              (r.Ok? <==> Coerce(PropOf(inst.cls, name), v, cast).Ok?)
    ensures IsTypedAttribute(inst.cls, name) && r.Ok? ==>
              r.value == inst.(node := inst.node.(props := inst.node.props[name := Coerce(PropOf(inst.cls, name), v, cast).value]))
    ensures !IsTypedAttribute(inst.cls, name) ==> r == Ok(inst.(attrs := inst.attrs[name := v]))
  {
    if IsTypedAttribute(inst.cls, name) then
      var props :- Set(PropOf(inst.cls, name), inst.node.props, name, v, cast);
      Ok(inst.(node := inst.node.(props := props)))
    else
      Ok(inst.(attrs := inst.attrs[name := v]))
  }

  /** The assignment loop of `PandasModel.__init__`, column by column. */
  function Assign(inst: Instance, cols: seq<string>, row: map<string, Value>, cast: Caster): (r: Result<Instance>)
    requires forall c :: c in cols ==> c in row
    ensures r.Ok? <==> forall c :: c in cols && IsTypedAttribute(inst.cls, c) ==> Coerce(PropOf(inst.cls, c), row[c], cast).Ok?
    ensures r.Ok? ==> r.value.cls == inst.cls && r.value.node.labels == inst.node.labels
    ensures r.Ok? ==> r.value.node.props.Keys == inst.node.props.Keys + (set c | c in cols && IsTypedAttribute(inst.cls, c))
    ensures r.Ok? ==> forall c :: c in cols && IsTypedAttribute(inst.cls, c) ==>
                        r.value.node.props[c] == Coerce(PropOf(inst.cls, c), row[c], cast).value
    ensures r.Ok? ==> forall k :: k in inst.node.props && k !in cols ==> r.value.node.props[k] == inst.node.props[k]
    ensures r.Ok? ==> r.value.attrs.Keys == inst.attrs.Keys + (set c | c in cols && !IsTypedAttribute(inst.cls, c))
    ensures r.Ok? ==> forall c :: c in cols && !IsTypedAttribute(inst.cls, c) ==> r.value.attrs[c] == row[c]
    ensures r.Ok? ==> forall k :: k in inst.attrs && k !in cols ==> r.value.attrs[k] == inst.attrs[k]
    ensures r.Err? ==> r.error == PropertyValueWithInvalidType || r.error.Python?
    decreases |cols|
  {
    if cols == [] then Ok(inst)
    else
      assert forall c :: c in cols <==> c == cols[0] || c in cols[1..];
      var next :- SetAttr(inst, cols[0], row[cols[0]], cast);
      Assign(next, cols[1..], row, cast)
  }

  /** `PandasModel.__init__(row)`. */
  function Construct(cls: ModelClass, row: Series, cast: Caster): (r: Result<Instance>)
    ensures r.Ok? <==> (forall c :: c in row.index ==> DefaultReadable(cls, c))
                       && forall c :: c in row.index && IsTypedAttribute(cls, c) ==> Coerce(PropOf(cls, c), row.data[c], cast).Ok?
    ensures r.Ok? ==> r.value.cls == cls && r.value.node.labels == {cls.primaryLabel}
    ensures r.Ok? ==> r.value.node.props.Keys == set c | c in row.index && IsTypedAttribute(cls, c)
    ensures r.Ok? ==> forall c :: c in row.index && IsTypedAttribute(cls, c) ==>
                        r.value.node.props[c] == Coerce(PropOf(cls, c), row.data[c], cast).value
    ensures r.Ok? ==> r.value.attrs.Keys == set c | c in row.index && c in cls.attributes && !IsTypedAttribute(cls, c)
    ensures r.Ok? ==> forall c :: c in r.value.attrs ==> r.value.attrs[c] == row.data[c]
    ensures r.Err? ==> r.error == PropertyValueWithInvalidType || r.error.Python?
  {
    var selected :- SelectColumns(cls, row.index);
    Assign(Fresh(cls), selected, row.data, cast)
  }

  /** `getattr(instance, name)`: a typed property (a data descriptor) wins over
      the instance dictionary, which wins over any other class attribute. */
  function GetAttr(inst: Instance, name: string): (r: Result<Value>)
    ensures IsTypedAttribute(inst.cls, name) ==> r == Get(PropOf(inst.cls, name), inst.node.props, name)
    ensures !IsTypedAttribute(inst.cls, name) && name in inst.attrs ==> r == Ok(inst.attrs[name])
    ensures name !in inst.cls.attributes && name !in inst.attrs ==> r == Err(Python(AttributeError(name)))
  {
    if IsTypedAttribute(inst.cls, name) then Get(PropOf(inst.cls, name), inst.node.props, name)
    else if name in inst.attrs then Ok(inst.attrs[name])
    else if name in inst.cls.attributes then Ok(inst.cls.attributes[name].value)
    else Err(Python(AttributeError(name)))
  }

  /** `{p: getattr(self, p) for p in ps}`. */
  function AttributeDict(inst: Instance, ps: seq<string>): (r: Result<map<string, Value>>)
    ensures r.Ok? <==> forall p :: p in ps ==> GetAttr(inst, p).Ok?
    ensures r.Ok? ==> r.value.Keys == set p | p in ps
    ensures r.Ok? ==> forall p :: p in ps ==> GetAttr(inst, p) == Ok(r.value[p])
  {
    if ps == [] then Ok(map[])
    else
      assert forall p :: p in ps <==> p == ps[0] || p in ps[1..];
      var v :- GetAttr(inst, ps[0]);
      var rest :- AttributeDict(inst, ps[1..]);
      Ok(rest[ps[0] := v])
  }

  /** `PandasModel.to_dict(properties)`. */
  function ToDict(inst: Instance, properties: Option<seq<string>>): (r: Result<map<string, Value>>)
    ensures properties.None? ==> r == Ok(inst.node.props)
    ensures properties.Some? ==> (r.Ok? <==> forall p :: p in properties.value ==> GetAttr(inst, p).Ok?)
    ensures properties.Some? && r.Ok? ==> r.value.Keys == set p | p in properties.value
    ensures properties.Some? && r.Ok? ==> forall p :: p in properties.value ==> GetAttr(inst, p) == Ok(r.value[p])
  {
    match properties
    case None => Ok(inst.node.props)
    case Some(ps) => AttributeDict(inst, ps)
  }

  /** `m.to_dict(columns)`, as a function of the model. */
  function ToDictWith(columns: Option<seq<string>>): (f: Instance -> Result<map<string, Value>>)
    ensures forall m :: f(m) == ToDict(m, columns)
  {
    (m: Instance) => ToDict(m, columns)
  }

  /** The rows `models_to_dataframe` hands to `pd.DataFrame`. */
  function ModelsToDataframe(models: seq<Instance>, columns: Option<seq<string>>): (r: Result<seq<map<string, Value>>>)
    ensures r.Ok? <==> forall i :: 0 <= i < |models| ==> ToDict(models[i], columns).Ok?
    ensures r.Ok? ==> |r.value| == |models|
    ensures r.Ok? ==> forall i :: 0 <= i < |models| ==> ToDict(models[i], columns) == Ok(r.value[i])
  {
    MapAll(models, ToDictWith(columns))
  }

  /** The first of `cols` the map lacks; the key a plain `dict` lookup raises on. */
  function FirstMissing(cols: seq<string>, props: map<string, Value>): (r: Option<string>)
    ensures r.None? <==> forall c :: c in cols ==> c in props
    ensures r.Some? ==> r.value in cols && r.value !in props
  {
    if cols == [] then None
    else if cols[0] !in props then Some(cols[0])
    else FirstMissing(cols[1..], props)
  }

  /** One row of `nodes_to_dataframe`: `dict(node.items())`, optionally
      narrowed with `{k: node_dict[k] for k in columns}`. */
  function NodeRow(n: Node, columns: Option<seq<string>>): (r: Result<map<string, Value>>)
    ensures columns.None? ==> r == Ok(n.props)
    ensures columns.Some? ==> (r.Ok? <==> forall c :: c in columns.value ==> c in n.props)
    ensures columns.Some? && r.Ok? ==> r.value.Keys == (set c | c in columns.value)
                                       && forall c :: c in columns.value ==> r.value[c] == n.props[c]
    ensures r.Err? ==> r.error.Python? && r.error.exception.KeyError?
  {
    match columns
    case None => Ok(n.props)
    case Some(cols) =>
      match FirstMissing(cols, n.props)
      case Some(k) => Err(Python(KeyError(k)))
      case None => Ok(map c | c in cols :: n.props[c])
  }

  /** The rows `nodes_to_dataframe` hands to `pd.DataFrame`. */
  function NodesToDataframe(nodes: seq<Node>, columns: Option<seq<string>>): (r: Result<seq<map<string, Value>>>)
    ensures r.Ok? <==> columns.None? || forall i, c :: 0 <= i < |nodes| && c in columns.value ==> c in nodes[i].props
    ensures r.Ok? ==> |r.value| == |nodes|
    ensures r.Ok? && columns.None? ==> forall i :: 0 <= i < |nodes| ==> r.value[i] == nodes[i].props
    ensures r.Ok? && columns.Some? ==> forall i :: 0 <= i < |nodes| ==>
              r.value[i].Keys == (set c | c in columns.value) && forall c :: c in columns.value ==> r.value[i][c] == nodes[i].props[c]
    ensures r.Err? ==> r.error.Python? && r.error.exception.KeyError?
  {
    var f := (n: Node) => NodeRow(n, columns);
    assert forall i :: 0 <= i < |nodes| ==> f(nodes[i]) == NodeRow(nodes[i], columns);
    MapAll(nodes, f)
  }

  /** The typed columns of a well-typed row land unchanged in the node. */
  lemma ConstructKeepsTypedValues(cls: ModelClass, row: Series, cast: Caster)
    requires forall c :: c in row.index ==> DefaultReadable(cls, c)
    requires forall c :: c in row.index && IsTypedAttribute(cls, c) ==> HasDeclaredType(PropOf(cls, c), row.data[c])
    ensures Construct(cls, row, cast).Ok?
    ensures Construct(cls, row, cast).value.node.props
            == map c | c in row.index && IsTypedAttribute(cls, c) :: row.data[c]
  {
    var props := Construct(cls, row, cast).value.node.props;
    forall c | c in row.index && IsTypedAttribute(cls, c) ensures props[c] == row.data[c] {
      assert Coerce(PropOf(cls, c), row.data[c], cast) == Ok(row.data[c]);
    }
  }

  /** Reading back typed properties that already hold their declared types. */
  lemma ToDictOfTypedProps(inst: Instance, ps: seq<string>)
    requires forall p :: p in ps ==> IsTypedAttribute(inst.cls, p) && p in inst.node.props
    requires forall p :: p in ps ==> HasDeclaredType(PropOf(inst.cls, p), inst.node.props[p])
    ensures ToDict(inst, Some(ps)) == Ok(map p | p in ps :: inst.node.props[p])
  {
    forall p | p in ps ensures GetAttr(inst, p) == Ok(inst.node.props[p]) {
      assert StoredOrDefault(PropOf(inst.cls, p), inst.node.props, p) == inst.node.props[p];
    }
    var d := ToDict(inst, Some(ps));
    assert d.Ok?;
    assert d.value == map p | p in ps :: inst.node.props[p];
  }

  /** A row whose typed columns already have their declared types survives the
      trip through a model and back: `to_dict()` is the row restricted to the
      typed columns. */
  lemma ConstructThenToDict(cls: ModelClass, row: Series, cast: Caster)
    requires forall c :: c in row.index ==> DefaultReadable(cls, c)
    requires forall c :: c in row.index && IsTypedAttribute(cls, c) ==> HasDeclaredType(PropOf(cls, c), row.data[c])
    ensures Construct(cls, row, cast).Ok?
    ensures ToDict(Construct(cls, row, cast).value, None)
            == Ok(map c | c in row.index && IsTypedAttribute(cls, c) :: row.data[c])
  {
    ConstructKeepsTypedValues(cls, row, cast);
  }

  /** The same trip narrowed: `to_dict(ps)` over typed columns `ps` of the row
      is the row restricted to `ps`. */
  lemma ConstructThenToDictNarrowed(cls: ModelClass, row: Series, cast: Caster, ps: seq<string>)
    requires forall c :: c in row.index ==> DefaultReadable(cls, c)
    requires forall c :: c in row.index && IsTypedAttribute(cls, c) ==> HasDeclaredType(PropOf(cls, c), row.data[c])
    requires forall p :: p in ps ==> p in row.index && IsTypedAttribute(cls, p)
    ensures Construct(cls, row, cast).Ok?
    ensures ToDict(Construct(cls, row, cast).value, Some(ps)) == Ok(map p | p in ps :: row.data[p])
  {
    ConstructKeepsTypedValues(cls, row, cast);
    var inst := Construct(cls, row, cast).value;
    ToDictOfAgreeingProps(inst, ps, row.data);
  }

  /** `to_dict(ps)` over typed properties that agree with `data` on `ps`. */
  lemma ToDictOfAgreeingProps(inst: Instance, ps: seq<string>, data: map<string, Value>)
    requires forall p :: p in ps ==> IsTypedAttribute(inst.cls, p) && p in inst.node.props && p in data
    requires forall p :: p in ps ==> inst.node.props[p] == data[p] && HasDeclaredType(PropOf(inst.cls, p), data[p])
    ensures ToDict(inst, Some(ps)) == Ok(map p | p in ps :: data[p])
  {
    ToDictOfTypedProps(inst, ps);
    assert (map p | p in ps :: inst.node.props[p]) == (map p | p in ps :: data[p]);
  }

  /** Narrowing `nodes_to_dataframe` to `columns` narrows each full row. */
  lemma NodesToDataframeNarrows(nodes: seq<Node>, cols: seq<string>)
    requires NodesToDataframe(nodes, Some(cols)).Ok?
    ensures NodesToDataframe(nodes, None).Ok?
    ensures forall i :: 0 <= i < |nodes| ==>
              NodesToDataframe(nodes, Some(cols)).value[i]
              == map c | c in cols :: NodesToDataframe(nodes, None).value[i][c]
  {
    var narrow := NodesToDataframe(nodes, Some(cols)).value;
    var full := NodesToDataframe(nodes, None).value;
    forall i | 0 <= i < |nodes| ensures narrow[i] == map c | c in cols :: full[i][c] {
      assert full[i] == nodes[i].props;
    }
  }
}
