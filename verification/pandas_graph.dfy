/** `PandasGraph`: the repository operations that turn table rows into graph
    objects, chunk by chunk, one transaction per chunk. */
module PandasGraph {
  import opened Values
  import opened Classes
  import opened Errors
  import opened Seqs
  import opened Properties
  import opened Graph
  import opened Tables
  import opened PandasModel
  import opened Chunking

  /** What `tx.create` is handed: a node, a model instance or a relationship. */
  datatype GraphObject = NodeObject(node: Node) | ModelObject(inst: Instance) | RelationshipObject(rel: Relationship)

  /** The subgraph pushed for an object: an object with a `__node__` is
      replaced by that node. */
  function ToEntity(o: GraphObject): Entity {
    match o
    case NodeObject(n) => NodeEntity(n)
    case ModelObject(inst) => NodeEntity(inst.node)
    case RelationshipObject(r) => RelationshipEntity(r)
  }

  function Batch(objects: seq<GraphObject>): (b: seq<Entity>)
    ensures |b| == |objects| && forall i :: 0 <= i < |objects| ==> b[i] == ToEntity(objects[i])
  {
    seq(|objects|, i requires 0 <= i < |objects| => ToEntity(objects[i]))
  }

  /** `create_graph_objects`: a single transaction creating every object in
      order; a model instance contributes its node. */
  function CreateGraphObjects(s: Store, objects: seq<GraphObject>): (s': Store)
    ensures s'.log == s.log + [Batch(objects)]
    ensures s'.nodes == s.nodes + NodesOf(Batch(objects)) && s'.rels == s.rels + RelsOf(Batch(objects))
    ensures Valid(s) && EndpointsWithin(Batch(objects), |s.nodes|) ==> Valid(s')
  {
    Commit(s, Batch(objects))
  }

  /** Every model replaced by its node. */
  function Unwrapped(objects: seq<GraphObject>): (r: seq<GraphObject>)
    ensures |r| == |objects|
    ensures forall i :: 0 <= i < |objects| ==> !r[i].ModelObject?
    ensures forall i :: 0 <= i < |objects| && objects[i].ModelObject? ==> r[i] == NodeObject(objects[i].inst.node)
    ensures forall i :: 0 <= i < |objects| && !objects[i].ModelObject? ==> r[i] == objects[i]
  {
    seq(|objects|, i requires 0 <= i < |objects| =>
      if objects[i].ModelObject? then NodeObject(objects[i].inst.node) else objects[i])
  }

  /** Pushing a model is pushing its node: the store cannot tell them apart. */
  lemma ModelsPushTheirNodes(s: Store, objects: seq<GraphObject>)
    ensures CreateGraphObjects(s, objects) == CreateGraphObjects(s, Unwrapped(objects))
  {
    assert Batch(objects) == Batch(Unwrapped(objects));
  }

  /** The outcome of an operation that writes: the store afterwards (with the
      transactions committed before a failure) and the value or the error. */
  datatype Outcome<T> = Outcome(store: Store, result: Result<T>)

  function Wrapped<T>(ts: seq<T>, wrap: T -> GraphObject): (r: seq<GraphObject>)
    ensures |r| == |ts| && forall i :: 0 <= i < |ts| ==> r[i] == wrap(ts[i])
  {
    seq(|ts|, i requires 0 <= i < |ts| => wrap(ts[i]))
  }

  lemma BatchOfWrappedAppend<T>(a: seq<T>, b: seq<T>, wrap: T -> GraphObject)
    ensures Batch(Wrapped(a + b, wrap)) == Batch(Wrapped(a, wrap)) + Batch(Wrapped(b, wrap))
  {
    var whole := Batch(Wrapped(a + b, wrap));
    var parts := Batch(Wrapped(a, wrap)) + Batch(Wrapped(b, wrap));
    assert |whole| == |parts|;
    forall i | 0 <= i < |whole| ensures whole[i] == parts[i] {
      if i < |a| {
        assert (a + b)[i] == a[i];
      } else {
        assert (a + b)[i] == b[i - |a|];
      }
    }
  }

  /** The mapped chunks up to the first chunk with a failing row, and that
      row's error. */
  datatype ChunkRun<T> = ChunkRun(done: seq<seq<T>>, failure: Option<Error>)

  /** `DataFrame.apply` over each chunk in turn, stopping at the first chunk
      whose `apply` raises. */
  function MapChunks<R, T>(chunks: seq<seq<R>>, build: R -> Result<T>): (r: ChunkRun<T>)
    ensures |r.done| <= |chunks|
    ensures forall i :: 0 <= i < |r.done| ==> MapAll(chunks[i], build) == Ok(r.done[i])
    ensures r.failure.None? <==> |r.done| == |chunks|
    ensures r.failure.Some? ==> MapAll(chunks[|r.done|], build) == Err(r.failure.value)
    decreases |chunks|
  {
    if chunks == [] then ChunkRun([], None)
    else
      match MapAll(chunks[0], build)
      case Err(e) => ChunkRun([], Some(e))
      case Ok(objs) =>
        var rest := MapChunks(chunks[1..], build);
        assert forall i :: 0 <= i < |rest.done| ==> MapAll(chunks[i + 1], build) == Ok(rest.done[i]) by {
          forall i | 0 <= i < |rest.done| ensures MapAll(chunks[i + 1], build) == Ok(rest.done[i]) {
            assert chunks[1..][i] == chunks[i + 1];
          }
        }
        assert rest.failure.Some? ==> chunks[1..][|rest.done|] == chunks[|rest.done| + 1];
        ChunkRun([objs] + rest.done, rest.failure)
  }

  /** Stopping at the first failing chunk is stopping at the first failing
      row: the chunked `apply` agrees with one `apply` over all the rows. */
  lemma {:induction false} MapChunksAgrees<R, T>(chunks: seq<seq<R>>, build: R -> Result<T>)
    ensures var r := MapChunks(chunks, build);
            MapAll(Flatten(chunks), build) == if r.failure.Some? then Err(r.failure.value) else Ok(Flatten(r.done))
    decreases |chunks|
  {
    if chunks != [] {
      assert Flatten(chunks) == chunks[0] + Flatten(chunks[1..]);
      MapAllAppend(chunks[0], Flatten(chunks[1..]), build);
      match MapAll(chunks[0], build)
      case Err(e) =>
      case Ok(objs) =>
        MapChunksAgrees(chunks[1..], build);
        var rest := MapChunks(chunks[1..], build);
        assert Flatten([objs] + rest.done) == objs + Flatten(rest.done) by {
          assert ([objs] + rest.done)[1..] == rest.done;
        }
    }
  }

  /** The transaction of each mapped chunk. */
  function Batches<T>(done: seq<seq<T>>, wrap: T -> GraphObject): (bs: seq<seq<Entity>>)
    ensures |bs| == |done| && forall i :: 0 <= i < |done| ==> bs[i] == Batch(Wrapped(done[i], wrap))
  {
    seq(|done|, i requires 0 <= i < |done| => Batch(Wrapped(done[i], wrap)))
  }

  /** The transactions together hold every object, in row order. */
  lemma {:induction false} BatchesFlatten<T>(done: seq<seq<T>>, wrap: T -> GraphObject)
    ensures Flatten(Batches(done, wrap)) == Batch(Wrapped(Flatten(done), wrap))
    decreases |done|
  {
    if done != [] {
      BatchesFlatten(done[1..], wrap);
      assert Batches(done, wrap)[1..] == Batches(done[1..], wrap);
      BatchOfWrappedAppend(done[0], Flatten(done[1..]), wrap);
    }
  }

  /** The chunk loop of both `create_*_from_dataframe` methods: each chunk's
      rows are mapped with `build`, and the chunk's objects are committed in
      one transaction before the next chunk; a failing row stops the loop
      with the earlier chunks committed. Mapping a row never reads what a
      commit changes, so the mapping is done first here. */
  function RunChunks<R, T>(s: Store, chunks: seq<seq<R>>, build: R -> Result<T>, wrap: T -> GraphObject): (o: Outcome<seq<T>>)
    ensures o.result == MapAll(Flatten(chunks), build)
    ensures |s.log| <= |o.store.log| <= |s.log| + |chunks| && o.store.log[..|s.log|] == s.log
    ensures forall i :: 0 <= i < |o.store.log| - |s.log| ==>
              MapAll(chunks[i], build).Ok? && o.store.log[|s.log| + i] == Batch(Wrapped(MapAll(chunks[i], build).value, wrap))
    ensures o.result.Ok? <==> |o.store.log| == |s.log| + |chunks|
    ensures o.result.Err? ==> MapAll(chunks[|o.store.log| - |s.log|], build).Err?
    ensures o.store.nodes == s.nodes + NodesOf(Flatten(o.store.log[|s.log|..]))
    ensures o.store.rels == s.rels + RelsOf(Flatten(o.store.log[|s.log|..]))
    ensures o.result.Ok? ==> Flatten(o.store.log[|s.log|..]) == Batch(Wrapped(o.result.value, wrap))
  {
    var run := MapChunks(chunks, build);
    var bs := Batches(run.done, wrap);
    var store := CommitAll(s, bs);
    CommitAllAppends(s, bs);
    MapChunksAgrees(chunks, build);
    BatchesFlatten(run.done, wrap);
    assert store.log[|s.log|..] == bs;
    assert store.log[..|s.log|] == s.log;
    Outcome(store, if run.failure.Some? then Err(run.failure.value) else Ok(Flatten(run.done)))
  }

  /** Every object a run produced came out of `build`, so what `build`
      guarantees holds of each of them. */
  lemma RunObjectsSatisfy<R, T>(chunks: seq<seq<R>>, build: R -> Result<T>, p: T -> bool)
    requires forall row :: build(row).Ok? ==> p(build(row).value)
    ensures forall k :: 0 <= k < |Flatten(MapChunks(chunks, build).done)| ==> p(Flatten(MapChunks(chunks, build).done)[k])
  {
    var done := MapChunks(chunks, build).done;
    forall i, j | 0 <= i < |done| && 0 <= j < |done[i]| ensures p(done[i][j]) {
      assert build(chunks[i][j]) == Ok(done[i][j]);
    }
    FlattenAll(done, p);
  }

  // ---------------------------------------------------------------------------
  // create_nodes_from_dataframe

  /** How `create_nodes_from_dataframe` turns a row into an object. */
  datatype NodeBuilder =
    | LabelledNode(lbl: string)      // `py2neo.Node(label, **row)`
    | ModelInstance(cls: ModelClass) // `model_class(row)` for a `PandasModel`
    | SeriesFactory(cls: ModelClass) // `model_class.from_pandas_series(row)`

  /** The dispatch of `create_nodes_from_dataframe`, in its order: a label, a
      `PandasModel` subclass, a class with `from_pandas_series`. */
  function NodeBuilderFor(sel: Selector): (r: Result<NodeBuilder>)
    ensures sel.ByLabel? ==> r == Ok(LabelledNode(sel.labelName))
    ensures sel.ByModel? && sel.cls.kind == PandasModelClass ==> r == Ok(ModelInstance(sel.cls))
    ensures sel.ByModel? && sel.cls.kind != PandasModelClass ==>
              r == (if sel.cls.hasFromSeries then Ok(SeriesFactory(sel.cls)) else Err(NotSupportedModelClass))
  {
    match sel
    case ByLabel(l) => Ok(LabelledNode(l))
    case ByModel(c) =>
      if c.kind == PandasModelClass then Ok(ModelInstance(c))
      else if c.hasFromSeries then Ok(SeriesFactory(c))
      else Err(NotSupportedModelClass)
  }

  /** A class's own `from_pandas_series`, which this model does not see. */
  type SeriesConstructor = (ModelClass, Series) -> Result<Instance>

  function BuildNode(b: NodeBuilder, cast: Caster, fromSeries: SeriesConstructor, row: Series): (r: Result<GraphObject>)
    ensures b.LabelledNode? ==> r == Ok(NodeObject(Node({b.lbl}, PropertyDict(row.data))))
    ensures b.ModelInstance? ==> (r.Ok? <==> Construct(b.cls, row, cast).Ok?)
    ensures b.ModelInstance? && r.Ok? ==> r.value == ModelObject(Construct(b.cls, row, cast).value)
    ensures b.SeriesFactory? ==> (r.Ok? <==> fromSeries(b.cls, row).Ok?)
    ensures b.SeriesFactory? && r.Ok? ==> r.value == ModelObject(fromSeries(b.cls, row).value)
    ensures r.Ok? ==> !r.value.RelationshipObject?
  {
    match b
    case LabelledNode(l) => Ok(NodeObject(Node({l}, PropertyDict(row.data))))
    case ModelInstance(c) =>
      var inst :- Construct(c, row, cast);
      Ok(ModelObject(inst))
    case SeriesFactory(c) =>
      var inst :- fromSeries(c, row);
      Ok(ModelObject(inst))
  }

  function NodeRowBuilder(b: NodeBuilder, cast: Caster, fromSeries: SeriesConstructor): (f: Series -> Result<GraphObject>)
    ensures forall row :: f(row) == BuildNode(b, cast, fromSeries, row)
  {
    (row: Series) => BuildNode(b, cast, fromSeries, row)
  }

  function Same(o: GraphObject): GraphObject {
    o
  }

  /** The node an object creates. */
  function NodeOfObject(o: GraphObject): Node
    requires !o.RelationshipObject?
  {
    ToEntity(o).node
  }

  /** `create_nodes_from_dataframe(df, model_class, chunk_size)`. A `chunk_size`
      of 0 means one chunk. */
  function CreateNodesFromDataframe(s: Store, t: Table, sel: Selector, chunkSize: nat, cast: Caster, fromSeries: SeriesConstructor)
    : (o: Outcome<seq<GraphObject>>)
    requires |t.rows| > 0 || chunkSize == 0
    ensures NodeBuilderFor(sel).Err? ==> o == Outcome(s, Err(NotSupportedModelClass))
    ensures NodeBuilderFor(sel).Ok? ==> o == NodeRun(s, t.rows, chunkSize, NodeRowBuilder(NodeBuilderFor(sel).value, cast, fromSeries))
    ensures NodeBuilderFor(sel).Ok? ==> o.result == MapAll(t.rows, NodeRowBuilder(NodeBuilderFor(sel).value, cast, fromSeries))
    ensures sel.ByLabel? ==> o.result.Ok? && |o.result.value| == |t.rows|
    ensures sel.ByLabel? ==> forall i :: 0 <= i < |t.rows| ==> o.result.value[i] == NodeObject(Node({sel.labelName}, PropertyDict(t.rows[i].data)))
    ensures o.result.Ok? ==> |o.store.nodes| == |s.nodes| + |t.rows|
    ensures |o.store.nodes| >= |s.nodes| && o.store.nodes[..|s.nodes|] == s.nodes
    ensures o.store.rels == s.rels
    ensures Valid(s) ==> Valid(o.store)
  {
    match NodeBuilderFor(sel)
    case Err(e) => Outcome(s, Err(e))
    case Ok(b) =>
      LabelledRowsBuild(b, cast, fromSeries, t.rows);
      NodeRun(s, t.rows, chunkSize, NodeRowBuilder(b, cast, fromSeries))
  }

  /** Every row makes a node with the label and the row's values. */
  lemma LabelledRowsBuild(b: NodeBuilder, cast: Caster, fromSeries: SeriesConstructor, rows: seq<Series>)
    ensures b.LabelledNode? ==>
              var r := MapAll(rows, NodeRowBuilder(b, cast, fromSeries));
              r.Ok? && |r.value| == |rows| && forall i :: 0 <= i < |rows| ==> r.value[i] == NodeObject(Node({b.lbl}, PropertyDict(rows[i].data)))
  {
    if b.LabelledNode? {
      var f := NodeRowBuilder(b, cast, fromSeries);
      assert forall i :: 0 <= i < |rows| ==> f(rows[i]) == Ok(NodeObject(Node({b.lbl}, PropertyDict(rows[i].data))));
    }
  }

  /** A None cell of a row does not become a property of its labelled node,
      so narrowing the nodes' table to that column raises `KeyError`. */
  lemma LabelledNodeDropsNoneCells(l: string, cast: Caster, fromSeries: SeriesConstructor, row: Series, c: string)
    requires c in row.data && row.data[c] == PyNone
    ensures var n := BuildNode(LabelledNode(l), cast, fromSeries, row).value.node;
            c !in n.props && NodesToDataframe([n], Some([c])) == Err(Python(KeyError(c)))
  {
    var n := BuildNode(LabelledNode(l), cast, fromSeries, row).value.node;
    assert FirstMissing([c], n.props) == Some(c);
  }

  /** The chunked run of a row builder that makes no relationships. */
  function NodeRun(s: Store, rows: seq<Series>, chunkSize: nat, build: Series -> Result<GraphObject>): (o: Outcome<seq<GraphObject>>)
    requires |rows| > 0 || chunkSize == 0
    requires forall row :: build(row).Ok? ==> !build(row).value.RelationshipObject?
    ensures o.result == MapAll(rows, build)
    ensures o.result.Ok? ==> |o.store.nodes| == |s.nodes| + |o.result.value|
                             && forall i :: 0 <= i < |o.result.value| ==>
                                  !o.result.value[i].RelationshipObject?
                                  && o.store.nodes[|s.nodes| + i] == NodeOfObject(o.result.value[i])
    ensures |o.store.nodes| >= |s.nodes| && o.store.nodes[..|s.nodes|] == s.nodes
    ensures o.store.rels == s.rels
    ensures Valid(s) ==> Valid(o.store)
    ensures o.result.Ok? ==> |o.store.log| == |s.log| + ChunkCount(|rows|, chunkSize)
    ensures |o.store.log| >= |s.log| && o.store.log[..|s.log|] == s.log
    ensures chunkSize > 0 ==> forall i :: |s.log| <= i < |o.store.log| ==> 0 < |o.store.log[i]| <= chunkSize
  {
    var chunks := Chunks(rows, chunkSize);
    NodeRunFacts(s, chunks, build);
    ChunkedRunLog(s, rows, chunkSize, build, Same);
    RunChunks(s, chunks, build, Same)
  }

  /** Each transaction of a run holds one object per row of its chunk. */
  lemma RunBatchSizes<R, T>(s: Store, chunks: seq<seq<R>>, build: R -> Result<T>, wrap: T -> GraphObject)
    ensures var o := RunChunks(s, chunks, build, wrap);
            forall j :: 0 <= j < |o.store.log| - |s.log| ==> |o.store.log[|s.log| + j]| == |chunks[j]|
  {
    var o := RunChunks(s, chunks, build, wrap);
    forall j | 0 <= j < |o.store.log| - |s.log| ensures |o.store.log[|s.log| + j]| == |chunks[j]| {
      var objs := MapAll(chunks[j], build).value;
      assert o.store.log[|s.log| + j] == Batch(Wrapped(objs, wrap));
    }
  }

  /** The transactions of a run over `Chunks(rows, chunkSize)`: one per chunk
      on success, each of at most `chunkSize` objects. */
  lemma ChunkedRunLog<R, T>(s: Store, rows: seq<R>, chunkSize: nat, build: R -> Result<T>, wrap: T -> GraphObject)
    requires |rows| > 0 || chunkSize == 0
    ensures var o := RunChunks(s, Chunks(rows, chunkSize), build, wrap);
            o.result.Ok? ==> |o.store.log| == |s.log| + ChunkCount(|rows|, chunkSize)
    ensures var o := RunChunks(s, Chunks(rows, chunkSize), build, wrap);
            chunkSize > 0 ==> forall i :: |s.log| <= i < |o.store.log| ==> 0 < |o.store.log[i]| <= chunkSize
  {
    if chunkSize > 0 {
      ChunkedRunBatchSizes(s, rows, chunkSize, build, wrap);
    }
  }

  lemma ChunkedRunBatchSizes<R, T>(s: Store, rows: seq<R>, chunkSize: nat, build: R -> Result<T>, wrap: T -> GraphObject)
    requires chunkSize > 0 && |rows| > 0
    ensures var o := RunChunks(s, Chunks(rows, chunkSize), build, wrap);
            forall i :: |s.log| <= i < |o.store.log| ==> 0 < |o.store.log[i]| <= chunkSize
  {
    RunBatchesBounded(s, Chunks(rows, chunkSize), build, wrap, chunkSize);
  }

  /** Chunks of between 1 and `c` rows give transactions of that size. */
  lemma RunBatchesBounded<R, T>(s: Store, chunks: seq<seq<R>>, build: R -> Result<T>, wrap: T -> GraphObject, c: nat)
    requires forall i :: 0 <= i < |chunks| ==> 0 < |chunks[i]| <= c
    ensures var o := RunChunks(s, chunks, build, wrap);
            forall i :: |s.log| <= i < |o.store.log| ==> 0 < |o.store.log[i]| <= c
  {
    var o := RunChunks(s, chunks, build, wrap);
    RunBatchSizes(s, chunks, build, wrap);
    forall i | |s.log| <= i < |o.store.log| ensures 0 < |o.store.log[i]| <= c {
      var j := i - |s.log|;
      assert o.store.log[i] == o.store.log[|s.log| + j];
      assert |o.store.log[|s.log| + j]| == |chunks[j]|;
    }
  }

  /** Whatever the chunk size, a run over the rows gives the same result
      and, on success, the same nodes and relationships. */
  lemma RunChunkingInvisible<R, T>(s: Store, rows: seq<R>, c1: nat, c2: nat, build: R -> Result<T>, wrap: T -> GraphObject)
    requires |rows| > 0 || (c1 == 0 && c2 == 0)
    ensures RunChunks(s, Chunks(rows, c1), build, wrap).result == RunChunks(s, Chunks(rows, c2), build, wrap).result
    ensures var o1 := RunChunks(s, Chunks(rows, c1), build, wrap);
            var o2 := RunChunks(s, Chunks(rows, c2), build, wrap);
            o1.result.Ok? ==> o1.store.nodes == o2.store.nodes && o1.store.rels == o2.store.rels
  {
    var o1 := RunChunks(s, Chunks(rows, c1), build, wrap);
    var o2 := RunChunks(s, Chunks(rows, c2), build, wrap);
    assert o1.result == MapAll(rows, build) == o2.result;
    if o1.result.Ok? {
      var added := Batch(Wrapped(o1.result.value, wrap));
      assert Flatten(o1.store.log[|s.log|..]) == added;
      assert Flatten(o2.store.log[|s.log|..]) == added;
    }
  }

  /** A transaction of objects that are not relationships adds their nodes,
      in order, and no relationship. */
  lemma NodeObjectsBatch(objs: seq<GraphObject>)
    requires forall k :: 0 <= k < |objs| ==> !objs[k].RelationshipObject?
    ensures RelsOf(Batch(Wrapped(objs, Same))) == []
    ensures var ns := NodesOf(Batch(Wrapped(objs, Same)));
            |ns| == |objs| && forall i :: 0 <= i < |objs| ==> ns[i] == NodeOfObject(objs[i])
  {
    var added := Batch(Wrapped(objs, Same));
    assert forall k :: 0 <= k < |added| ==> added[k] == ToEntity(objs[k]) && added[k].NodeEntity?;
    NodeBatch(added);
  }

  /** A run that builds no relationships adds the mapped objects' nodes and
      no relationship. */
  lemma NodeRunStore<R>(s: Store, chunks: seq<seq<R>>, build: R -> Result<GraphObject>)
    requires forall row :: build(row).Ok? ==> !build(row).value.RelationshipObject?
    ensures var o := RunChunks(s, chunks, build, Same);
            var objs := Flatten(MapChunks(chunks, build).done);
            (forall k :: 0 <= k < |objs| ==> !objs[k].RelationshipObject?)
            && o.store.rels == s.rels && o.store.nodes == s.nodes + NodesOf(Batch(Wrapped(objs, Same)))
            && (o.result.Ok? ==> o.result.value == objs)
  {
    var o := RunChunks(s, chunks, build, Same);
    var done := MapChunks(chunks, build).done;
    BatchesFlatten(done, Same);
    assert o.store.log[|s.log|..] == Batches(done, Same);
    var p := (t: GraphObject) => !t.RelationshipObject?;
    RunObjectsSatisfy(chunks, build, p);
    NodeObjectsBatch(Flatten(done));
  }

  /** The store side of a run that builds no relationships: the existing
      nodes and relationships stay, validity is kept, and on success the new
      nodes are the objects' nodes in row order. */
  lemma NodeRunFacts<R>(s: Store, chunks: seq<seq<R>>, build: R -> Result<GraphObject>)
    requires forall row :: build(row).Ok? ==> !build(row).value.RelationshipObject?
    ensures var o := RunChunks(s, chunks, build, Same);
            o.store.rels == s.rels
            && |o.store.nodes| >= |s.nodes| && o.store.nodes[..|s.nodes|] == s.nodes
            && (Valid(s) ==> Valid(o.store))
    ensures var o := RunChunks(s, chunks, build, Same);
            o.result.Ok? ==> |o.store.nodes| == |s.nodes| + |o.result.value|
                             && forall i :: 0 <= i < |o.result.value| ==>
                                  !o.result.value[i].RelationshipObject?
                                  && o.store.nodes[|s.nodes| + i] == NodeOfObject(o.result.value[i])
  {
    var o := RunChunks(s, chunks, build, Same);
    var objs := Flatten(MapChunks(chunks, build).done);
    NodeRunStore(s, chunks, build);
    NodeObjectsBatch(objs);
    assert o.store.nodes[..|s.nodes|] == s.nodes;
  }

  /** Chunking is invisible in the result and, on success, in the store: the
      same rows give the same objects and the same nodes whatever the chunk
      size. */
  lemma NodeChunkingInvisible(s: Store, t: Table, sel: Selector, c1: nat, c2: nat, cast: Caster, fromSeries: SeriesConstructor)
    requires |t.rows| > 0 || (c1 == 0 && c2 == 0)
    ensures CreateNodesFromDataframe(s, t, sel, c1, cast, fromSeries).result
            == CreateNodesFromDataframe(s, t, sel, c2, cast, fromSeries).result
    ensures CreateNodesFromDataframe(s, t, sel, c1, cast, fromSeries).result.Ok? ==>
              CreateNodesFromDataframe(s, t, sel, c1, cast, fromSeries).store.nodes
              == CreateNodesFromDataframe(s, t, sel, c2, cast, fromSeries).store.nodes
  {
    match NodeBuilderFor(sel)
    case Err(_) =>
    case Ok(b) =>
      var build := NodeRowBuilder(b, cast, fromSeries);
      assert CreateNodesFromDataframe(s, t, sel, c1, cast, fromSeries) == NodeRun(s, t.rows, c1, build);
      assert CreateNodesFromDataframe(s, t, sel, c2, cast, fromSeries) == NodeRun(s, t.rows, c2, build);
      RunChunkingInvisible(s, t.rows, c1, c2, build, Same);
  }

  // ---------------------------------------------------------------------------
  // create_relationships_from_dataframe

  /** How `_node_getter` finds an endpoint. */
  datatype NodeGetter = FromLabel(lbl: string) | FromModel(cls: ModelClass)

  /** A selector the relationship methods accept: a label or an ogm model class. */
  predicate Supported(sel: Selector) {
    sel.ByLabel? || IsOgmModel(sel.cls)
  }

  /** `_node_getter`: a label string or an ogm model class; anything else is refused. */
  function NodeGetterFor(sel: Selector): (r: Result<NodeGetter>)
    ensures r.Ok? <==> Supported(sel)
    ensures r.Err? ==> r.error == NotSupportedModelClass
    ensures sel.ByLabel? ==> r == Ok(FromLabel(sel.labelName))
    ensures sel.ByModel? && r.Ok? ==> r.value == FromModel(sel.cls)
  {
    match sel
    case ByLabel(l) => Ok(FromLabel(l))
    case ByModel(c) => if IsOgmModel(c) then Ok(FromModel(c)) else Err(NotSupportedModelClass)
  }

  /** `_get_node_from_str` and `_get_node_from_model`. The label form matches
      on `id_key` (a missing key cannot be passed as a keyword) and yields no
      node when nothing matches; the model form ignores `id_key`, looks the
      value up under the primary key, raises when nothing matches, and
      raises when the node found does not wrap as a model of the class
      (`Repository.get` returns the wrapped model). */
  function GetNode(s: Store, g: NodeGetter, idKey: Option<string>, v: Value): (r: Result<Option<NodeId>>)
    ensures g.FromLabel? ==> (r.Ok? <==> idKey.Some?)
    ensures g.FromLabel? && idKey.None? ==> r == Err(Python(TypeError))
    ensures g.FromLabel? && r.Ok? ==> (r.value.Some? <==> AnyMatch(s, g.lbl, idKey.value, v))
    ensures g.FromLabel? && r.Ok? && r.value.Some? ==> FirstMatch(s, g.lbl, idKey.value, v, r.value.value)
    ensures g.FromModel? ==>
              (r.Ok? <==> AnyMatch(s, g.cls.primaryLabel, g.cls.primaryKey, v) && FirstWraps(s, g.cls, g.cls.primaryKey, v))
    ensures g.FromModel? && r.Ok? ==> r.value.Some? && FirstMatch(s, g.cls.primaryLabel, g.cls.primaryKey, v, r.value.value)
    ensures g.FromModel? && !AnyMatch(s, g.cls.primaryLabel, g.cls.primaryKey, v) ==>
              r == Err(NodeWithIdDoesNotExist(Some(ByModel(g.cls)), v))
    ensures g.FromModel? && AnyMatch(s, g.cls.primaryLabel, g.cls.primaryKey, v) && r.Err? ==>
              r.error == PropertyValueWithInvalidType
  {
    match g
    case FromLabel(l) =>
      if idKey.None? then Err(Python(TypeError)) else Ok(MatchNode(s, l, idKey.value, v))
    case FromModel(c) =>
      match PrimaryKeyLookup(s, c, v)
      case None => Err(NodeWithIdDoesNotExist(Some(ByModel(c)), v))
      case Some(n) =>
        FirstWrapsIsWrapOfMatch(s, c, c.primaryKey, v);
        var _ :- Wrap(c, s.nodes[n]);
        Ok(Some(n))
  }

  /** `_create_relationship`: both endpoints must have been found. */
  function CreateRelationship(relType: string, from: Option<NodeId>, to: Option<NodeId>): (r: Result<Relationship>)
    ensures r.Ok? <==> from.Some? && to.Some?
    ensures r.Ok? ==> r.value == Relationship(relType, from.value, to.value)
    ensures r.Err? ==> r.error == NodeWithIdDoesNotExist()
  {
    if from.None? || to.None? then Err(NodeWithIdDoesNotExist()) else Ok(Relationship(relType, from.value, to.value))
  }

  /** The arguments the relationship methods share. */
  datatype RelationshipArgs = RelationshipArgs(
    relType: string,
    fromSel: Selector,
    toSel: Selector,
    fromColumn: string,
    toColumn: string,
    fromIdKey: Option<string>,
    toIdKey: Option<string>)

  /** Some node answers the selector for the id value. */
  predicate Findable(s: Store, sel: Selector, idKey: Option<string>, v: Value) {
    match sel
    case ByLabel(l) => idKey.Some? && AnyMatch(s, l, idKey.value, v)
    case ByModel(c) => AnyMatch(s, c.primaryLabel, c.primaryKey, v)
  }

  /** A class endpoint's node, if there is one, wraps; a label endpoint is
      never wrapped. */
  ghost predicate EndpointWraps(s: Store, sel: Selector, v: Value) {
    sel.ByModel? ==> FirstWraps(s, sel.cls, sel.cls.primaryKey, v)
  }

  /** Node `n` is the one the selector picks for the id value: the first with
      the label whose `idKey` property is the value, or the first with the
      class's primary label whose primary-key property is the value. */
  predicate Designates(s: Store, sel: Selector, idKey: Option<string>, v: Value, n: NodeId) {
    match sel
    case ByLabel(l) => idKey.Some? && FirstMatch(s, l, idKey.value, v, n)
    case ByModel(c) => FirstMatch(s, c.primaryLabel, c.primaryKey, v, n)
  }

  /** The start-side lookup of a row raises nothing: a label comes with an
      id key, and a class finds a node that wraps. A label that finds no
      node still lets the row go on to the end side. */
  ghost predicate StartLookupSucceeds(s: Store, a: RelationshipArgs, row: Series) {
    Supported(a.fromSel) && Supported(a.toSel) && a.fromColumn in row.data
    && (a.fromSel.ByLabel? ==> a.fromIdKey.Some?)
    && (a.fromSel.ByModel? ==> Findable(s, a.fromSel, a.fromIdKey, row.data[a.fromColumn])
                               && EndpointWraps(s, a.fromSel, row.data[a.fromColumn]))
  }

  /** The relationship one row of `create_relationships_from_dataframe`
      describes: both getters are chosen, then the from-node is looked up by
      the row's from-column, then the to-node by its to-column. */
  function RelationshipForRow(s: Store, a: RelationshipArgs, row: Series): (r: Result<Relationship>)
    ensures r.Ok? <==> Supported(a.fromSel) && Supported(a.toSel) && a.fromColumn in row.data && a.toColumn in row.data
                       && Findable(s, a.fromSel, a.fromIdKey, row.data[a.fromColumn])
                       && Findable(s, a.toSel, a.toIdKey, row.data[a.toColumn])
                       && EndpointWraps(s, a.fromSel, row.data[a.fromColumn])
                       && EndpointWraps(s, a.toSel, row.data[a.toColumn])
    ensures r.Ok? ==> r.value.relType == a.relType
                      && Designates(s, a.fromSel, a.fromIdKey, row.data[a.fromColumn], r.value.start)
                      && Designates(s, a.toSel, a.toIdKey, row.data[a.toColumn], r.value.end)
    ensures !Supported(a.fromSel) || !Supported(a.toSel) ==> r == Err(NotSupportedModelClass)
    ensures Supported(a.fromSel) && Supported(a.toSel) && a.fromColumn !in row.data ==>
              r == Err(Python(KeyError(a.fromColumn)))
    ensures (Supported(a.fromSel) && Supported(a.toSel) && a.fromColumn in row.data
             && a.fromSel.ByLabel? && a.fromIdKey.None?) ==> r == Err(Python(TypeError))
    ensures (Supported(a.fromSel) && Supported(a.toSel) && a.fromColumn in row.data
             && a.fromSel.ByModel? && !Findable(s, a.fromSel, a.fromIdKey, row.data[a.fromColumn])) ==>
              r == Err(NodeWithIdDoesNotExist(Some(a.fromSel), row.data[a.fromColumn]))
    ensures (Supported(a.fromSel) && Supported(a.toSel) && a.fromColumn in row.data
             && Findable(s, a.fromSel, a.fromIdKey, row.data[a.fromColumn])
             && !EndpointWraps(s, a.fromSel, row.data[a.fromColumn])) ==>
              r == Err(PropertyValueWithInvalidType)
    ensures StartLookupSucceeds(s, a, row) && a.toColumn !in row.data ==> r == Err(Python(KeyError(a.toColumn)))
    ensures (StartLookupSucceeds(s, a, row) && a.toColumn in row.data
             && a.toSel.ByLabel? && a.toIdKey.None?) ==> r == Err(Python(TypeError))
    ensures (StartLookupSucceeds(s, a, row) && a.toColumn in row.data
             && a.toSel.ByModel? && !Findable(s, a.toSel, a.toIdKey, row.data[a.toColumn])) ==>
              r == Err(NodeWithIdDoesNotExist(Some(a.toSel), row.data[a.toColumn]))
    ensures (StartLookupSucceeds(s, a, row) && a.toColumn in row.data
             && Findable(s, a.toSel, a.toIdKey, row.data[a.toColumn])
             && !EndpointWraps(s, a.toSel, row.data[a.toColumn])) ==>
              r == Err(PropertyValueWithInvalidType)
    ensures r == Err(NodeWithIdDoesNotExist()) ==>
              a.fromColumn in row.data && a.toColumn in row.data
              && ((a.fromSel.ByLabel? && !Findable(s, a.fromSel, a.fromIdKey, row.data[a.fromColumn]))
                  || (a.toSel.ByLabel? && !Findable(s, a.toSel, a.toIdKey, row.data[a.toColumn])))
    ensures r.Err? ==> r.error.NotSupportedModelClass? || r.error.NodeWithIdDoesNotExist?
                       || r.error == Python(TypeError) || (r.error.Python? && r.error.exception.KeyError?)
                       || r.error == PropertyValueWithInvalidType
  {
    var fromGetter :- NodeGetterFor(a.fromSel);
    var toGetter :- NodeGetterFor(a.toSel);
    var fromId :- Column(row, a.fromColumn);
    var fromNode :- GetNode(s, fromGetter, a.fromIdKey, fromId);
    var toId :- Column(row, a.toColumn);
    var toNode :- GetNode(s, toGetter, a.toIdKey, toId);
    CreateRelationship(a.relType, fromNode, toNode)
  }

  function RelationshipRowBuilder(s: Store, a: RelationshipArgs): (f: Series -> Result<Relationship>)
    ensures forall row :: f(row) == RelationshipForRow(s, a, row)
  {
    (row: Series) => RelationshipForRow(s, a, row)
  }

  function RelWrap(r: Relationship): GraphObject {
    RelationshipObject(r)
  }

  /** A transaction of relationships only adds those relationships, in order. */
  lemma RelationshipObjectsBatch(objs: seq<Relationship>)
    ensures NodesOf(Batch(Wrapped(objs, RelWrap))) == []
    ensures RelsOf(Batch(Wrapped(objs, RelWrap))) == objs
  {
    var added := Batch(Wrapped(objs, RelWrap));
    assert forall k :: 0 <= k < |added| ==> added[k] == RelationshipEntity(objs[k]);
    RelationshipBatch(added);
  }

  /** A relationship run adds no node and appends the mapped relationships. */
  lemma RelationshipRunStore<R>(s: Store, chunks: seq<seq<R>>, build: R -> Result<Relationship>)
    ensures var o := RunChunks(s, chunks, build, RelWrap);
            var objs := Flatten(MapChunks(chunks, build).done);
            o.store.nodes == s.nodes && o.store.rels == s.rels + objs && (o.result.Ok? ==> o.result.value == objs)
  {
    var o := RunChunks(s, chunks, build, RelWrap);
    var done := MapChunks(chunks, build).done;
    BatchesFlatten(done, RelWrap);
    assert o.store.log[|s.log|..] == Batches(done, RelWrap);
    RelationshipObjectsBatch(Flatten(done));
  }

  /** The store side of a relationship run: no node is added, the existing
      relationships stay, and on success the new relationships are the
      objects in row order. Endpoints inside the store keep it valid. */
  lemma RelationshipRunFacts<R>(s: Store, chunks: seq<seq<R>>, build: R -> Result<Relationship>)
    ensures var o := RunChunks(s, chunks, build, RelWrap);
            o.store.nodes == s.nodes && |o.store.rels| >= |s.rels| && o.store.rels[..|s.rels|] == s.rels
    ensures var o := RunChunks(s, chunks, build, RelWrap);
            o.result.Ok? ==> o.store.rels == s.rels + o.result.value
    ensures Valid(s) && (forall row :: build(row).Ok? ==> build(row).value.start < |s.nodes| && build(row).value.end < |s.nodes|) ==>
              Valid(RunChunks(s, chunks, build, RelWrap).store)
  {
    var o := RunChunks(s, chunks, build, RelWrap);
    RelationshipRunStore(s, chunks, build);
    assert o.store.rels[..|s.rels|] == s.rels;
    if Valid(s) && (forall row :: build(row).Ok? ==> build(row).value.start < |s.nodes| && build(row).value.end < |s.nodes|) {
      RelationshipRunValid(s, chunks, build);
    }
  }

  lemma RelationshipRunValid<R>(s: Store, chunks: seq<seq<R>>, build: R -> Result<Relationship>)
    requires Valid(s)
    requires forall row :: build(row).Ok? ==> build(row).value.start < |s.nodes| && build(row).value.end < |s.nodes|
    ensures Valid(RunChunks(s, chunks, build, RelWrap).store)
  {
    var o := RunChunks(s, chunks, build, RelWrap);
    var objs := Flatten(MapChunks(chunks, build).done);
    RelationshipRunStore(s, chunks, build);
    var p := (x: Relationship) => x.start < |s.nodes| && x.end < |s.nodes|;
    RunObjectsSatisfy(chunks, build, p);
    assert o.store == Store(s.nodes, s.rels + objs, o.store.log);
    AppendingKeepsValid(s, objs, o.store.log);
  }

  lemma AppendingKeepsValid(s: Store, objs: seq<Relationship>, log: seq<seq<Entity>>)
    requires Valid(s)
    requires forall k :: 0 <= k < |objs| ==> objs[k].start < |s.nodes| && objs[k].end < |s.nodes|
    ensures Valid(Store(s.nodes, s.rels + objs, log))
  {
    var rels := s.rels + objs;
    forall i | 0 <= i < |rels| ensures rels[i].start < |s.nodes| && rels[i].end < |s.nodes| {
      if i >= |s.rels| {
        assert rels[i] == objs[i - |s.rels|];
      }
    }
  }

  /** Every relationship a row describes connects nodes of the store. */
  lemma RowEndpointsInStore(s: Store, a: RelationshipArgs)
    ensures forall row :: RelationshipRowBuilder(s, a)(row).Ok? ==>
              RelationshipRowBuilder(s, a)(row).value.start < |s.nodes| && RelationshipRowBuilder(s, a)(row).value.end < |s.nodes|
  {
    forall row | RelationshipRowBuilder(s, a)(row).Ok?
      ensures RelationshipRowBuilder(s, a)(row).value.start < |s.nodes| && RelationshipRowBuilder(s, a)(row).value.end < |s.nodes|
    {
      var r := RelationshipForRow(s, a, row);
      assert Designates(s, a.fromSel, a.fromIdKey, row.data[a.fromColumn], r.value.start);
      assert Designates(s, a.toSel, a.toIdKey, row.data[a.toColumn], r.value.end);
    }
  }

  /** `create_relationships_from_dataframe(df, relationship, ...)`. */
  function CreateRelationshipsFromDataframe(s: Store, t: Table, a: RelationshipArgs, chunkSize: nat)
    : (o: Outcome<seq<Relationship>>)
    requires |t.rows| > 0 || chunkSize == 0
    ensures o.result == MapAll(t.rows, RelationshipRowBuilder(s, a))
    ensures o.store.nodes == s.nodes
    ensures |o.store.rels| >= |s.rels| && o.store.rels[..|s.rels|] == s.rels
    ensures o.result.Ok? ==> o.store.rels == s.rels + o.result.value
    ensures Valid(s) ==> Valid(o.store)
    ensures |o.store.log| >= |s.log| && o.store.log[..|s.log|] == s.log
    ensures o.result.Ok? ==> |o.store.log| == |s.log| + ChunkCount(|t.rows|, chunkSize)
    ensures chunkSize > 0 ==> forall i :: |s.log| <= i < |o.store.log| ==> 0 < |o.store.log[i]| <= chunkSize
  {
    var build := RelationshipRowBuilder(s, a);
    var chunks := Chunks(t.rows, chunkSize);
    RowEndpointsInStore(s, a);
    RelationshipRunFacts(s, chunks, build);
    ChunkedRunLog(s, t.rows, chunkSize, build, RelWrap);
    RunChunks(s, chunks, build, RelWrap)
  }

  /** For a model endpoint the id key plays no part: `_get_node_from_model`
      discards it. */
  lemma ModelEndpointIgnoresIdKey(s: Store, a: RelationshipArgs, k: Option<string>, row: Series)
    ensures a.fromSel.ByModel? ==> RelationshipForRow(s, a, row) == RelationshipForRow(s, a.(fromIdKey := k), row)
    ensures a.toSel.ByModel? ==> RelationshipForRow(s, a, row) == RelationshipForRow(s, a.(toIdKey := k), row)
  {
  }

  /** Chunking is invisible for relationships too: same result, and on
      success the same relationships in the store. */
  lemma RelationshipChunkingInvisible(s: Store, t: Table, a: RelationshipArgs, c1: nat, c2: nat)
    requires |t.rows| > 0 || (c1 == 0 && c2 == 0)
    ensures CreateRelationshipsFromDataframe(s, t, a, c1).result == CreateRelationshipsFromDataframe(s, t, a, c2).result
    ensures CreateRelationshipsFromDataframe(s, t, a, c1).result.Ok? ==>
              CreateRelationshipsFromDataframe(s, t, a, c1).store.rels == CreateRelationshipsFromDataframe(s, t, a, c2).store.rels
  {
    RunChunkingInvisible(s, t.rows, c1, c2, RelationshipRowBuilder(s, a), RelWrap);
  }

  // ---------------------------------------------------------------------------
  // Reading the graph back into tables

  /** `get_nodes_for_dataframe`: the nodes with the label whose `prop`
      property is one of the table's `idColumn` values, in store order. In
      Cypher `IN` a null property (missing or None) is never selected. */
  function GetNodesForDataframe(s: Store, t: Table, lbl: string, prop: string, idColumn: string): (r: Result<seq<NodeId>>)
    ensures idColumn !in t.columns ==> r == Err(Python(KeyError(idColumn)))
    ensures idColumn in t.columns ==> r.Ok?
    ensures r.Ok? ==> forall j: nat :: j in r.value <==>
              j < |s.nodes| && lbl in s.nodes[j].labels && prop in s.nodes[j].props && s.nodes[j].props[prop] != PyNone
              && exists i :: 0 <= i < |t.rows| && t.rows[i].data[idColumn] == s.nodes[j].props[prop]
    ensures r.Ok? ==> forall k :: 0 <= k < |r.value| ==> r.value[k] < |s.nodes|
    ensures r.Ok? ==> StrictlyIncreasing(r.value)
  {
    if idColumn !in t.columns then Err(Python(KeyError(idColumn)))
    else
      var ids := set i | 0 <= i < |t.rows| :: t.rows[i].data[idColumn];
      var p := (j: nat) => j < |s.nodes| && lbl in s.nodes[j].labels && prop in s.nodes[j].props
                           && s.nodes[j].props[prop] != PyNone && s.nodes[j].props[prop] in ids;
      assert forall j: nat :: p(j) <==>
        j < |s.nodes| && lbl in s.nodes[j].labels && prop in s.nodes[j].props && s.nodes[j].props[prop] != PyNone
        && exists i :: 0 <= i < |t.rows| && t.rows[i].data[idColumn] == s.nodes[j].props[prop];
      Ok(IndicesWhere(|s.nodes|, p))
  }

  /** The nodes stored under the given identities, in that order. */
  function NodesAt(s: Store, ids: seq<NodeId>): (r: seq<Node>)
    requires forall k :: 0 <= k < |ids| ==> ids[k] < |s.nodes|
    ensures |r| == |ids|
    ensures forall k :: 0 <= k < |ids| ==> r[k] == s.nodes[ids[k]]
  {
    if ids == [] then [] else [s.nodes[ids[0]]] + NodesAt(s, ids[1..])
  }

  /** Every typed attribute of the class reads from the node without error. */
  predicate Wraps(cls: ModelClass, n: Node) {
    forall name | name in cls.attributes && cls.attributes[name].Typed? :: Get(cls.attributes[name].prop, n.props, name).Ok?
  }

  /** `Model.wrap(node)`: an instance over an existing node. `wrap` then
      reads every attribute of the new instance (`getattr` over `dir`), so a
      typed property whose stored value, or whose default, has the wrong
      type makes it raise. */
  function Wrap(cls: ModelClass, n: Node): (r: Result<Instance>)
    ensures r.Ok? <==> forall name :: name in cls.attributes ==> GetAttr(Instance(cls, n, map[]), name).Ok?
    ensures r.Ok? ==> r.value == Instance(cls, n, map[])
    ensures r.Err? ==> r.error == PropertyValueWithInvalidType
  {
    var inst := Instance(cls, n, map[]);
    assert forall name :: name in cls.attributes ==>
             (GetAttr(inst, name).Ok? <==> !cls.attributes[name].Typed? || Get(cls.attributes[name].prop, n.props, name).Ok?);
    if Wraps(cls, n) then Ok(inst) else Err(PropertyValueWithInvalidType)
  }

  /** Wrapping every node, failing on the first that does not wrap, as
      `Series.apply(model_class.wrap)` does. */
  function WrapAll(cls: ModelClass, nodes: seq<Node>): (r: Result<seq<Instance>>)
    ensures r.Ok? <==> forall k :: 0 <= k < |nodes| ==> Wraps(cls, nodes[k])
    ensures r.Ok? ==> |r.value| == |nodes| && forall k :: 0 <= k < |nodes| ==> r.value[k] == Instance(cls, nodes[k], map[])
    ensures r.Err? ==> r.error == PropertyValueWithInvalidType
  {
    var wrap := (n: Node) => Wrap(cls, n);
    assert forall k :: 0 <= k < |nodes| ==> wrap(nodes[k]) == Wrap(cls, nodes[k]);
    MapAll(nodes, wrap)
  }

  /** The node a class's match picks for the value, if there is one, wraps. */
  ghost predicate FirstWraps(s: Store, cls: ModelClass, key: string, v: Value) {
    forall j: nat :: FirstMatch(s, cls.primaryLabel, key, v, j) ==> Wraps(cls, s.nodes[j])
  }

  /** Only the node the match returns needs to wrap. */
  lemma FirstWrapsIsWrapOfMatch(s: Store, cls: ModelClass, key: string, v: Value)
    ensures FirstWraps(s, cls, key, v) <==>
              match MatchNode(s, cls.primaryLabel, key, v)
              case None => true
              case Some(n) => Wraps(cls, s.nodes[n])
  {
    forall j: nat | FirstMatch(s, cls.primaryLabel, key, v, j) ensures MatchNode(s, cls.primaryLabel, key, v) == Some(j) {
      assert AnyMatch(s, cls.primaryLabel, key, v);
      var n := MatchNode(s, cls.primaryLabel, key, v).value;
      assert !(j < n) && !(n < j);
    }
  }

  /** One row of `get_nodes_models_for_dataframe`: the id read back from the
      model, and the model. */
  datatype ModelRow = ModelRow(id: Value, model: Instance)

  /** Each model paired with its `prop` attribute, failing on the first
      attribute read that fails. */
  function ReadIds(models: seq<Instance>, p: string): (r: Result<seq<ModelRow>>)
    ensures r.Ok? <==> forall k :: 0 <= k < |models| ==> GetAttr(models[k], p).Ok?
    ensures r.Ok? ==> |r.value| == |models|
    ensures r.Ok? ==> forall k :: 0 <= k < |models| ==>
              r.value[k].model == models[k] && GetAttr(models[k], p) == Ok(r.value[k].id)
  {
    var read := (m: Instance) => GetAttr(m, p);
    var values :- MapAll(models, read);
    Ok(seq(|models|, k requires 0 <= k < |models| => ModelRow(values[k], models[k])))
  }

  /** The id property `get_nodes_models_for_dataframe` reads: the id
      column's name unless another one is given. */
  function IdProperty(idColumn: string, prop: Option<string>): string {
    if prop.Some? then prop.value else idColumn
  }

  /** `get_nodes_models_for_dataframe`: the nodes `get_nodes_for_dataframe`
      finds, all wrapped as models of the class, then each model's id read
      back through the model. */
  function GetNodesModelsForDataframe(s: Store, t: Table, cls: ModelClass, lbl: string, idColumn: string, prop: Option<string>)
    : (r: Result<seq<ModelRow>>)
    ensures idColumn !in t.columns ==> r == Err(Python(KeyError(idColumn)))
    ensures idColumn in t.columns && !IsOgmModel(cls) ==> r == Err(Python(AttributeError("wrap")))
    ensures r.Ok? ==> idColumn in t.columns && IsOgmModel(cls)
    ensures r.Ok? ==> var ids := GetNodesForDataframe(s, t, lbl, IdProperty(idColumn, prop), idColumn).value;
                      |r.value| == |ids|
                      && forall k :: 0 <= k < |ids| ==>
                           ids[k] < |s.nodes| && Wraps(cls, s.nodes[ids[k]])
                           && r.value[k].model == Instance(cls, s.nodes[ids[k]], map[])
                           && GetAttr(r.value[k].model, IdProperty(idColumn, prop)) == Ok(r.value[k].id)
    ensures idColumn in t.columns && IsOgmModel(cls) ==>
              var ids := GetNodesForDataframe(s, t, lbl, IdProperty(idColumn, prop), idColumn).value;
              (exists k :: 0 <= k < |ids| && ids[k] < |s.nodes| && !Wraps(cls, s.nodes[ids[k]])) ==>
                r == Err(PropertyValueWithInvalidType)
    ensures idColumn in t.columns && IsOgmModel(cls) && r.Err? ==>
              var ids := GetNodesForDataframe(s, t, lbl, IdProperty(idColumn, prop), idColumn).value;
              exists k :: 0 <= k < |ids| && ids[k] < |s.nodes|
                          && (!Wraps(cls, s.nodes[ids[k]])
                              || GetAttr(Instance(cls, s.nodes[ids[k]], map[]), IdProperty(idColumn, prop)).Err?)
  {
    var p := IdProperty(idColumn, prop);
    var ids :- GetNodesForDataframe(s, t, lbl, p, idColumn);
    if !IsOgmModel(cls) then Err(Python(AttributeError("wrap")))
    else
      var nodes := NodesAt(s, ids);
      var models :- WrapAll(cls, nodes);
      ReadIds(models, p)
  }

  /** Reading a typed id property back from the wrapped nodes gives values
      that occur in the table's id column. */
  lemma ModelIdsComeFromTable(s: Store, t: Table, cls: ModelClass, lbl: string, idColumn: string, prop: Option<string>)
    requires GetNodesModelsForDataframe(s, t, cls, lbl, idColumn, prop).Ok?
    requires IsTypedAttribute(cls, IdProperty(idColumn, prop))
    ensures var rows := GetNodesModelsForDataframe(s, t, cls, lbl, idColumn, prop).value;
            forall k :: 0 <= k < |rows| ==>
              exists i :: 0 <= i < |t.rows| && t.rows[i].data[idColumn] == rows[k].id
  {
    var p := IdProperty(idColumn, prop);
    var ids := GetNodesForDataframe(s, t, lbl, p, idColumn).value;
    var rows := GetNodesModelsForDataframe(s, t, cls, lbl, idColumn, prop).value;
    forall k | 0 <= k < |rows| ensures exists i :: 0 <= i < |t.rows| && t.rows[i].data[idColumn] == rows[k].id {
      assert ids[k] in ids;
      var n := s.nodes[ids[k]];
      assert Get(PropOf(cls, p), n.props, p) == Ok(rows[k].id);
      assert StoredOrDefault(PropOf(cls, p), n.props, p) == n.props[p];
    }
  }

  /** `_match_model`. A label yields the first node carrying it: the match
      condition is not used. A class yields the first of its nodes whose
      property satisfies the condition, wrapped by `.first()`, so a node
      that does not wrap raises. */
  function MatchModel(s: Store, sel: Selector, key: string, v: Value): (r: Result<Option<NodeId>>)
    ensures sel.ByLabel? ==> r == Ok(FirstWithLabel(s, sel.labelName))
    ensures sel.ByModel? && IsOgmModel(sel.cls) ==> (r.Ok? <==> FirstWraps(s, sel.cls, key, v))
    ensures sel.ByModel? && IsOgmModel(sel.cls) && r.Ok? ==> (r.value.Some? <==> AnyMatch(s, sel.cls.primaryLabel, key, v))
    ensures sel.ByModel? && IsOgmModel(sel.cls) && r.Ok? && r.value.Some? ==>
              FirstMatch(s, sel.cls.primaryLabel, key, v, r.value.value)
    ensures sel.ByModel? && IsOgmModel(sel.cls) && r.Err? ==> r.error == PropertyValueWithInvalidType
    ensures sel.ByModel? && !IsOgmModel(sel.cls) ==> r == Err(Python(AttributeError("match")))
  {
    match sel
    case ByLabel(l) => Ok(FirstWithLabel(s, l))
    case ByModel(c) =>
      if !IsOgmModel(c) then Err(Python(AttributeError("match")))
      else
        FirstWrapsIsWrapOfMatch(s, c, key, v);
        match MatchNode(s, c.primaryLabel, key, v)
        case None => Ok(None)
        case Some(j) =>
          var _ :- Wrap(c, s.nodes[j]);
          Ok(Some(j))
  }

  /** A class's own `to_dict`, which this model does not see. */
  type ToDictMethod = (Instance, Option<seq<string>>) -> Result<map<string, Value>>

  /** The nodes carrying the label, in store order. */
  function LabelNodes(s: Store, lbl: string): (r: seq<Node>)
    ensures |r| == |NodesWithLabel(s, lbl)|
    ensures forall k :: 0 <= k < |r| ==> NodesWithLabel(s, lbl)[k] < |s.nodes| && r[k] == s.nodes[NodesWithLabel(s, lbl)[k]]
    ensures forall k :: 0 <= k < |r| ==> lbl in r[k].labels
  {
    NodesAt(s, NodesWithLabel(s, lbl))
  }

  /** A class's own `to_dict(columns)`, as a function of the model. */
  function UserToDictWith(userToDict: ToDictMethod, columns: Option<seq<string>>): (f: Instance -> Result<map<string, Value>>)
    ensures forall m :: f(m) == userToDict(m, columns)
  {
    (m: Instance) => userToDict(m, columns)
  }

  /** A class's own `to_dict` applied to each model, failing on the first
      model it fails on. */
  function UserDataframe(models: seq<Instance>, columns: Option<seq<string>>, userToDict: ToDictMethod)
    : (r: Result<seq<map<string, Value>>>)
    ensures r.Ok? <==> forall k :: 0 <= k < |models| ==> userToDict(models[k], columns).Ok?
    ensures r.Ok? ==> |r.value| == |models|
    ensures r.Ok? ==> forall k :: 0 <= k < |models| ==> userToDict(models[k], columns) == Ok(r.value[k])
  {
    MapAll(models, UserToDictWith(userToDict, columns))
  }

  /** One step of iterating `Model.match(graph)` inside `models_to_dataframe`:
      the node is wrapped, then the model dumped. */
  function WrapThenDump(cls: ModelClass, dump: Instance -> Result<map<string, Value>>, n: Node): (r: Result<map<string, Value>>)
    ensures !Wraps(cls, n) ==> r == Err(PropertyValueWithInvalidType)
    ensures Wraps(cls, n) ==> r == dump(Instance(cls, n, map[]))
  {
    var m :- Wrap(cls, n);
    dump(m)
  }

  /** The rows of `models_to_dataframe(model_class.match(graph), columns)`.
      The match is lazy: each node is wrapped just before its model is
      dumped, and the first failure of either ends the table. */
  function DumpMatched(cls: ModelClass, nodes: seq<Node>, dump: Instance -> Result<map<string, Value>>)
    : (r: Result<seq<map<string, Value>>>)
    ensures r.Ok? <==> forall k :: 0 <= k < |nodes| ==> Wraps(cls, nodes[k]) && dump(Instance(cls, nodes[k], map[])).Ok?
    ensures r.Ok? ==> |r.value| == |nodes|
    ensures r.Ok? ==> forall k :: 0 <= k < |nodes| ==> dump(Instance(cls, nodes[k], map[])) == Ok(r.value[k])
    ensures r.Err? ==> exists k :: 0 <= k < |nodes| && WrapThenDump(cls, dump, nodes[k]) == Err(r.error)
                         && forall j :: 0 <= j < k ==> Wraps(cls, nodes[j]) && dump(Instance(cls, nodes[j], map[])).Ok?
  {
    var step := (n: Node) => WrapThenDump(cls, dump, n);
    assert forall k :: 0 <= k < |nodes| ==> step(nodes[k]) == WrapThenDump(cls, dump, nodes[k]);
    MapAll(nodes, step)
  }

  /** When every node wraps, the lazy iteration gives what wrapping all the
      nodes first and then dumping the models gives. */
  lemma DumpMatchedWhenAllWrap(cls: ModelClass, nodes: seq<Node>, dump: Instance -> Result<map<string, Value>>)
    requires WrapAll(cls, nodes).Ok?
    ensures DumpMatched(cls, nodes, dump) == MapAll(WrapAll(cls, nodes).value, dump)
  {
    var step := (n: Node) => WrapThenDump(cls, dump, n);
    var models := WrapAll(cls, nodes).value;
    MapAllPointwise(nodes, step, models, dump);
    assert DumpMatched(cls, nodes, dump) == MapAll(nodes, step);
  }

  /** `get_dataframe_for_models`: a class without `to_dict` is refused; a
      `PandasModel` uses its own `to_dict`, any other class the one it
      defines. `Model.match(graph)` yields one model per node with the
      primary label, in store order, each wrapped as it is reached. */
  function GetDataframeForModels(s: Store, cls: ModelClass, columns: Option<seq<string>>, userToDict: ToDictMethod)
    : (r: Result<seq<map<string, Value>>>)
    ensures !HasToDict(cls) ==> r == Err(NotSupportedModelClass)
    ensures HasToDict(cls) && !IsOgmModel(cls) ==> r == Err(Python(AttributeError("match")))
    ensures HasToDict(cls) && IsOgmModel(cls) && r.Ok? ==> WrapAll(cls, LabelNodes(s, cls.primaryLabel)).Ok?
    ensures HasToDict(cls) && IsOgmModel(cls) && cls.kind == PandasModelClass && WrapAll(cls, LabelNodes(s, cls.primaryLabel)).Ok? ==>
              r == ModelsToDataframe(WrapAll(cls, LabelNodes(s, cls.primaryLabel)).value, columns)
    ensures HasToDict(cls) && IsOgmModel(cls) && cls.kind != PandasModelClass && WrapAll(cls, LabelNodes(s, cls.primaryLabel)).Ok? ==>
              r == UserDataframe(WrapAll(cls, LabelNodes(s, cls.primaryLabel)).value, columns, userToDict)
    ensures HasToDict(cls) && IsOgmModel(cls) ==>
              r == DumpMatched(cls, LabelNodes(s, cls.primaryLabel),
                               if cls.kind == PandasModelClass then ToDictWith(columns) else UserToDictWith(userToDict, columns))
  {
    if !HasToDict(cls) then Err(NotSupportedModelClass)
    else if !IsOgmModel(cls) then Err(Python(AttributeError("match")))
    else
      var nodes := LabelNodes(s, cls.primaryLabel);
      var dump := if cls.kind == PandasModelClass then ToDictWith(columns) else UserToDictWith(userToDict, columns);
      if WrapAll(cls, nodes).Ok? then
        DumpMatchedWhenAllWrap(cls, nodes, dump);
        DumpMatched(cls, nodes, dump)
      else
        DumpMatched(cls, nodes, dump)
  }

  /** Dumping with `to_dict()` never fails, so only a wrap can, and each row
      is its node's property map. */
  lemma DumpMatchedFullDicts(cls: ModelClass, nodes: seq<Node>)
    ensures DumpMatched(cls, nodes, ToDictWith(None)).Ok? <==> forall k :: 0 <= k < |nodes| ==> Wraps(cls, nodes[k])
    ensures DumpMatched(cls, nodes, ToDictWith(None)).Err? ==>
              DumpMatched(cls, nodes, ToDictWith(None)).error == PropertyValueWithInvalidType
    ensures DumpMatched(cls, nodes, ToDictWith(None)).Ok? ==>
              var rows := DumpMatched(cls, nodes, ToDictWith(None)).value;
              |rows| == |nodes| && forall k :: 0 <= k < |nodes| ==> rows[k] == nodes[k].props
  {
    var dump := ToDictWith(None);
    var r := DumpMatched(cls, nodes, dump);
    if r.Ok? {
      forall k | 0 <= k < |nodes| ensures r.value[k] == nodes[k].props {
        assert dump(Instance(cls, nodes[k], map[])) == Ok(r.value[k]);
      }
    } else {
      var k :| 0 <= k < |nodes| && WrapThenDump(cls, dump, nodes[k]) == Err(r.error);
      assert dump(Instance(cls, nodes[k], map[])).Ok?;
    }
  }

  /** For a `PandasModel` class, the table of all columns exists exactly
      when every node with the primary label wraps, and then holds their
      properties in store order; otherwise the wrap raises. */
  lemma ModelDataframeIsTheNodes(s: Store, cls: ModelClass, userToDict: ToDictMethod)
    requires cls.kind == PandasModelClass && HasToDict(cls) && IsOgmModel(cls)
    ensures var ns := NodesWithLabel(s, cls.primaryLabel);
            GetDataframeForModels(s, cls, None, userToDict).Ok? <==>
              forall k :: 0 <= k < |ns| ==> ns[k] < |s.nodes| && Wraps(cls, s.nodes[ns[k]])
    ensures GetDataframeForModels(s, cls, None, userToDict).Err? ==>
              GetDataframeForModels(s, cls, None, userToDict).error == PropertyValueWithInvalidType
    ensures GetDataframeForModels(s, cls, None, userToDict).Ok? ==>
              var rows := GetDataframeForModels(s, cls, None, userToDict).value;
              |rows| == |NodesWithLabel(s, cls.primaryLabel)|
              && forall k :: 0 <= k < |rows| ==> rows[k] == s.nodes[NodesWithLabel(s, cls.primaryLabel)[k]].props
  {
    var nodes := LabelNodes(s, cls.primaryLabel);
    assert GetDataframeForModels(s, cls, None, userToDict) == DumpMatched(cls, nodes, ToDictWith(None));
    DumpMatchedFullDicts(cls, nodes);
  }

  /** A `Person` model with a string primary key `name` and an integer `age`. */
  function PersonClass(): ModelClass {
    ModelClass("Person", PandasModelClass, "Person", "name",
               map["name" := Typed(SchemaProperty(StringProperty)), "age" := Typed(SchemaProperty(IntegerProperty))],
               true, true)
  }

  /** A node made from a table row whose `age` cell is a float NaN (pandas
      turns an integer column with a gap into floats) does not wrap as a
      `Person`: looking it up by its primary key, and dumping the class,
      both raise the type error. */
  lemma MistypedNodeDoesNotWrap(userToDict: ToDictMethod)
    ensures var nan := Float(0x7FF8_0000_0000_0000);
            var s := Store([Node({"Person"}, map["name" := Str("a"), "age" := nan])], [], []);
            GetNode(s, FromModel(PersonClass()), None, Str("a")) == Err(PropertyValueWithInvalidType)
            && GetDataframeForModels(s, PersonClass(), None, userToDict) == Err(PropertyValueWithInvalidType)
  {
    var nan := Float(0x7FF8_0000_0000_0000);
    var n := Node({"Person"}, map["name" := Str("a"), "age" := nan]);
    var s := Store([n], [], []);
    var cls := PersonClass();
    assert "age" in cls.attributes && cls.attributes["age"] == Typed(SchemaProperty(IntegerProperty));
    assert Get(cls.attributes["age"].prop, n.props, "age").Err?;
    assert Matches(s.nodes[0], cls.primaryLabel, cls.primaryKey, Str("a"));
    ModelDataframeIsTheNodes(s, cls, userToDict);
    assert NodesWithLabel(s, "Person")[0] == 0;
  }

  // ---------------------------------------------------------------------------
  // Relationships read back

  /** An element of the `nodes` argument of `get_relationships`: a node of
      the graph, a model bound to one, or an object with no `__node__`. */
  datatype NodeArg = PlainNode(id: NodeId) | ModelNode(id: NodeId) | NotANode

  /** `{node if type(node) is py2neo.Node else node.__node__ for node in nodes}`. */
  function NodeIds(nodes: seq<NodeArg>): (r: Result<set<NodeId>>)
    ensures r.Ok? <==> forall k :: 0 <= k < |nodes| ==> !nodes[k].NotANode?
    ensures r.Err? ==> r.error == NotSupportedModelClass
    ensures r.Ok? ==> forall j :: j in r.value <==> exists k :: 0 <= k < |nodes| && nodes[k].id == j
  {
    if nodes == [] then Ok({})
    else if nodes[0].NotANode? then Err(NotSupportedModelClass)
    else
      var rest :- NodeIds(nodes[1..]);
      assert forall k :: 1 <= k < |nodes| ==> nodes[k] == nodes[1..][k - 1];
      Ok({nodes[0].id} + rest)
  }

  /** The reference selection of `get_relationships`: the relationship has
      the type, touches a given node, and with `inner` touches only given
      nodes. */
  predicate Selected(rel: Relationship, t: string, ns: set<NodeId>, inner: bool) {
    rel.relType == t && (rel.start in ns || rel.end in ns) && (inner ==> rel.start in ns && rel.end in ns)
  }

  /** The union the loop of `get_relationships` builds: for each node, the
      relationships of the type that touch it, filtered by `inner`. The loop
      runs over the set of nodes; a list of the same nodes, repeats allowed,
      gives the same union. */
  function PerNodeUnion(s: Store, t: string, ids: seq<NodeId>, ns: set<NodeId>, inner: bool): (r: set<RelId>)
    ensures forall j: nat :: j in r <==>
              j < |s.rels| && s.rels[j].relType == t
              && (exists k :: 0 <= k < |ids| && (s.rels[j].start == ids[k] || s.rels[j].end == ids[k]))
              && (inner ==> s.rels[j].start in ns && s.rels[j].end in ns)
  {
    if ids == [] then {}
    else
      var rest := PerNodeUnion(s, t, ids[1..], ns, inner);
      var touching := set j: nat | j < |s.rels| && s.rels[j].relType == t
                                   && (s.rels[j].start == ids[0] || s.rels[j].end == ids[0])
                                   && (inner ==> s.rels[j].start in ns && s.rels[j].end in ns);
      assert forall k :: 1 <= k < |ids| ==> ids[k] == ids[1..][k - 1];
      touching + rest
  }

  function NodeArgIds(nodes: seq<NodeArg>): (r: seq<NodeId>)
    requires forall k :: 0 <= k < |nodes| ==> !nodes[k].NotANode?
    ensures |r| == |nodes|
    ensures forall k :: 0 <= k < |nodes| ==> r[k] == nodes[k].id
  {
    seq(|nodes|, k requires 0 <= k < |nodes| => nodes[k].id)
  }

  /** The union over the listed nodes is the reference selection. */
  lemma PerNodeUnionSelects(s: Store, t: string, nodes: seq<NodeArg>, inner: bool)
    requires NodeIds(nodes).Ok?
    ensures var ns := NodeIds(nodes).value;
            forall j: nat :: j in PerNodeUnion(s, t, NodeArgIds(nodes), ns, inner) <==> j < |s.rels| && Selected(s.rels[j], t, ns, inner)
  {
    var ns := NodeIds(nodes).value;
    var ids := NodeArgIds(nodes);
    forall j: nat | j < |s.rels| && Selected(s.rels[j], t, ns, inner)
      ensures exists k :: 0 <= k < |ids| && (s.rels[j].start == ids[k] || s.rels[j].end == ids[k])
    {
      var e := if s.rels[j].start in ns then s.rels[j].start else s.rels[j].end;
      var k :| 0 <= k < |nodes| && nodes[k].id == e;
      assert ids[k] == e;
    }
  }

  /** `get_relationships`. Without nodes, every relationship of the type;
      with nodes, those `Selected` picks. The list is in store order. */
  function GetRelationships(s: Store, t: string, nodes: Option<seq<NodeArg>>, inner: bool): (r: Result<seq<RelId>>)
    ensures nodes.None? && inner ==> r == Err(InvalidArgumentsConfiguration(InnerOnlyWithoutNodes))
    ensures nodes.None? && !inner ==> r.Ok? && forall j: nat :: j in r.value <==> j < |s.rels| && s.rels[j].relType == t
    ensures nodes.Some? ==> (r.Ok? <==> NodeIds(nodes.value).Ok?)
    ensures nodes.Some? && r.Err? ==> r.error == NotSupportedModelClass
    ensures nodes.Some? && r.Ok? ==>
              forall j: nat :: j in r.value <==> j < |s.rels| && Selected(s.rels[j], t, NodeIds(nodes.value).value, inner)
    ensures r.Ok? ==> StrictlyIncreasing(r.value) && forall k :: 0 <= k < |r.value| ==> r.value[k] < |s.rels|
  {
    if nodes.None? && inner then Err(InvalidArgumentsConfiguration(InnerOnlyWithoutNodes))
    else if nodes.None? then Ok(RelsOfType(s, t))
    else
      var ns :- NodeIds(nodes.value);
      var u := PerNodeUnion(s, t, NodeArgIds(nodes.value), ns, inner);
      PerNodeUnionSelects(s, t, nodes.value, inner);
      Ok(IndicesWhere(|s.rels|, (j: nat) => j in u))
  }

  /** With `inner`, the result is the part of the result without it whose
      relationships have both ends among the nodes. */
  lemma InnerOnlyNarrows(s: Store, t: string, nodes: seq<NodeArg>)
    requires NodeIds(nodes).Ok?
    ensures var all := GetRelationships(s, t, Some(nodes), false).value;
            var inner := GetRelationships(s, t, Some(nodes), true).value;
            forall j: nat :: j in inner <==>
              j in all && s.rels[j].start in NodeIds(nodes).value && s.rels[j].end in NodeIds(nodes).value
  {
  }

  /** Passing every node of a valid store selects exactly what passing no
      nodes selects. */
  lemma AllNodesSelectEverything(s: Store, t: string, nodes: seq<NodeArg>, inner: bool)
    requires Valid(s)
    requires NodeIds(nodes).Ok? && forall j :: 0 <= j < |s.nodes| ==> j in NodeIds(nodes).value
    ensures GetRelationships(s, t, Some(nodes), inner) == GetRelationships(s, t, None, false)
  {
    var ns := NodeIds(nodes).value;
    var u := PerNodeUnion(s, t, NodeArgIds(nodes), ns, inner);
    var p := (j: nat) => j in u;
    var q := (j: nat) => j < |s.rels| && s.rels[j].relType == t;
    forall j: nat | j < |s.rels| ensures p(j) == q(j) {
      assert Selected(s.rels[j], t, ns, inner) <==> s.rels[j].relType == t;
      assert j in GetRelationships(s, t, Some(nodes), inner).value <==> Selected(s.rels[j], t, ns, inner);
    }
    IndicesWhereAgree(|s.rels|, p, q);
  }

  /** The two column names of `get_dataframe_for_relationship`: the
      properties themselves, or suffixed when they coincide. */
  function RelationshipColumns(fromProp: string, toProp: string): (r: (string, string))
    ensures r.0 != r.1
    ensures fromProp != toProp ==> r == (fromProp, toProp)
    ensures fromProp == toProp ==> r == (fromProp + "_from", toProp + "_to")
  {
    if fromProp == toProp then
      assert |fromProp + "_from"| != |toProp + "_to"|;
      (fromProp + "_from", toProp + "_to")
    else (fromProp, toProp)
  }

  /** `node[key]` on a `py2neo.Node`: a missing property reads as None. */
  function NodeItem(n: Node, key: string): (v: Value)
    ensures key in n.props ==> v == n.props[key]
    ensures key !in n.props ==> v == PyNone
  {
    if key in n.props then n.props[key] else PyNone
  }

  /** The row for one relationship: its start node's `fromProp`, its end
      node's `toProp`. */
  function RelationshipRow(s: Store, rel: Relationship, cols: (string, string), fromProp: string, toProp: string): Series
    requires rel.start < |s.nodes| && rel.end < |s.nodes|
    requires cols.0 != cols.1
  {
    RawSeries([cols.0, cols.1], map[cols.0 := NodeItem(s.nodes[rel.start], fromProp), cols.1 := NodeItem(s.nodes[rel.end], toProp)])
  }

  /** `get_dataframe_for_relationship`: one row per relationship
      `get_relationships` returns, in its order. */
  function GetDataframeForRelationship(s: Store, t: string, fromProp: string, toProp: string, nodes: Option<seq<NodeArg>>, inner: bool)
    : (r: Result<Table>)
    requires Valid(s)
    ensures r.Ok? <==> GetRelationships(s, t, nodes, inner).Ok?
    ensures r.Err? ==> r.error == GetRelationships(s, t, nodes, inner).error
    ensures r.Ok? ==> var cols := RelationshipColumns(fromProp, toProp);
                      var ids := GetRelationships(s, t, nodes, inner).value;
                      r.value.columns == [cols.0, cols.1] && |r.value.rows| == |ids|
                      && forall k :: 0 <= k < |ids| ==>
                           r.value.rows[k].data[cols.0] == NodeItem(s.nodes[s.rels[ids[k]].start], fromProp)
                           && r.value.rows[k].data[cols.1] == NodeItem(s.nodes[s.rels[ids[k]].end], toProp)
  {
    var ids :- GetRelationships(s, t, nodes, inner);
    var cols := RelationshipColumns(fromProp, toProp);
    var rows := seq(|ids|, k requires 0 <= k < |ids| => RelationshipRow(s, s.rels[ids[k]], cols, fromProp, toProp));
    Ok(RawTable([cols.0, cols.1], rows))
  }

  /** Every relationship the reference selection picks has its row. */
  lemma EverySelectedRelationshipHasARow(s: Store, t: string, fromProp: string, toProp: string, nodes: seq<NodeArg>, inner: bool, j: RelId)
    requires Valid(s)
    requires NodeIds(nodes).Ok?
    requires j < |s.rels| && Selected(s.rels[j], t, NodeIds(nodes).value, inner)
    ensures var table := GetDataframeForRelationship(s, t, fromProp, toProp, Some(nodes), inner);
            var cols := RelationshipColumns(fromProp, toProp);
            table.Ok? && exists k :: (0 <= k < |table.value.rows|
              && table.value.rows[k].data[cols.0] == NodeItem(s.nodes[s.rels[j].start], fromProp)
              && table.value.rows[k].data[cols.1] == NodeItem(s.nodes[s.rels[j].end], toProp))
  {
    var ids := GetRelationships(s, t, Some(nodes), inner).value;
    assert j in ids;
    var k :| 0 <= k < |ids| && ids[k] == j;
    var table := GetDataframeForRelationship(s, t, fromProp, toProp, Some(nodes), inner).value;
    assert |table.rows| == |ids|;
  }

  /** The id property `get_relationships_for_dataframe` matches one side
      on: the one given, or else the class's primary key. A label has no
      primary key, and a class that is not an ogm model has no
      `__primarykey__`. */
  function DefaultIdKey(sel: Selector, key: Option<string>, fromSide: bool): (r: Result<string>)
    ensures key.Some? ==> r == Ok(key.value)
    ensures key.None? && sel.ByLabel? ==>
              r == Err(InvalidArgumentsConfiguration(
                     if fromSide then FromIdKeyMissing(sel.labelName) else ToIdKeyMissing(sel.labelName)))
    ensures key.None? && sel.ByModel? && IsOgmModel(sel.cls) ==> r == Ok(sel.cls.primaryKey)
    ensures key.None? && sel.ByModel? && !IsOgmModel(sel.cls) ==> r == Err(Python(AttributeError("__primarykey__")))
  {
    if key.Some? then Ok(key.value)
    else
      match sel
      case ByLabel(l) => Err(InvalidArgumentsConfiguration(if fromSide then FromIdKeyMissing(l) else ToIdKeyMissing(l)))
      case ByModel(c) => if IsOgmModel(c) then Ok(c.primaryKey) else Err(Python(AttributeError("__primarykey__")))
  }

  /** The reference reading of `_match_model`: `j` is the node it returns
      for the selector, key and value. */
  predicate MatchedBy(s: Store, sel: Selector, key: string, v: Value, j: NodeId) {
    match sel
    case ByLabel(l) => j < |s.nodes| && l in s.nodes[j].labels && forall i :: 0 <= i < j ==> l !in s.nodes[i].labels
    case ByModel(c) => IsOgmModel(c) && FirstMatch(s, c.primaryLabel, key, v, j)
  }

  /** The node `_match_model` picks for a class, if there is one, wraps; a
      label's node is never wrapped. */
  ghost predicate MatchWraps(s: Store, sel: Selector, key: string, v: Value) {
    sel.ByModel? ==> FirstWraps(s, sel.cls, key, v)
  }

  /** A node that fails to wrap is one `_match_model` picks. */
  lemma UnwrappableIsMatched(s: Store, sel: Selector, key: string, v: Value)
    requires sel.ByLabel? || IsOgmModel(sel.cls)
    ensures !MatchWraps(s, sel, key, v) ==>
              sel.ByModel? && exists j: nat :: MatchedBy(s, sel, key, v, j) && !Wraps(sel.cls, s.nodes[j])
  {
    if !MatchWraps(s, sel, key, v) {
      var j: nat :| FirstMatch(s, sel.cls.primaryLabel, key, v, j) && !Wraps(sel.cls, s.nodes[j]);
      assert MatchedBy(s, sel, key, v, j);
    }
  }

  /** `_match_model` succeeds exactly when the node it picks wraps, and then
      returns a node exactly when one is `MatchedBy`, and that node. */
  lemma MatchModelIsMatchedBy(s: Store, sel: Selector, key: string, v: Value)
    requires sel.ByLabel? || IsOgmModel(sel.cls)
    ensures MatchModel(s, sel, key, v).Ok? <==> MatchWraps(s, sel, key, v)
    ensures MatchModel(s, sel, key, v).Err? ==> MatchModel(s, sel, key, v).error == PropertyValueWithInvalidType
    ensures MatchModel(s, sel, key, v).Ok? ==>
              forall j: nat :: MatchModel(s, sel, key, v).value == Some(j) <==> MatchedBy(s, sel, key, v, j)
  {
    if MatchModel(s, sel, key, v).Err? {
      return;
    }
    var m := MatchModel(s, sel, key, v).value;
    forall j | MatchedBy(s, sel, key, v, j) ensures m == Some(j) {
      if sel.ByLabel? {
        assert m.Some?;
        assert !(m.value < j) && !(j < m.value);
      } else {
        assert AnyMatch(s, sel.cls.primaryLabel, key, v);
        assert FirstMatch(s, sel.cls.primaryLabel, key, v, m.value);
      }
    }
  }

  /** What `get_relationships_for_dataframe` needs to match rows. */
  datatype RelationshipQuery = RelationshipQuery(
    relType: string,
    fromSel: Selector,
    toSel: Selector,
    fromColumn: string,
    toColumn: string)

  /** One row of the result: the two ids and the relationship found. */
  datatype RelationshipMatch = RelationshipMatch(fromId: Value, toId: Value, rel: RelId)

  /** `_match_relationship` for one row, with the id keys already resolved. */
  function MatchRelationshipRow(s: Store, q: RelationshipQuery, fromKey: string, toKey: string, row: Series)
    : (r: Result<RelationshipMatch>)
    ensures q.fromColumn !in row.data ==> r == Err(Python(KeyError(q.fromColumn)))
    ensures q.fromColumn in row.data && q.toColumn !in row.data ==> r == Err(Python(KeyError(q.toColumn)))
    ensures r.Ok? ==> q.fromColumn in row.data && q.toColumn in row.data
    ensures r.Ok? ==> r.value.fromId == row.data[q.fromColumn] && r.value.toId == row.data[q.toColumn]
    ensures r.Ok? ==> var rel := r.value.rel;
                      rel < |s.rels| && s.rels[rel].relType == q.relType
                      && MatchedBy(s, q.fromSel, fromKey, r.value.fromId, s.rels[rel].start)
                      && MatchedBy(s, q.toSel, toKey, r.value.toId, s.rels[rel].end)
                      && forall i :: 0 <= i < rel ==> s.rels[i] != s.rels[rel]
    ensures r.Err? && q.fromColumn in row.data && q.toColumn in row.data ==>
              r.error == Python(AttributeError("match"))
              || r.error == NodeWithIdDoesNotExist(Some(q.fromSel), row.data[q.fromColumn])
              || r.error == NodeWithIdDoesNotExist(Some(q.toSel), row.data[q.toColumn])
              || (r.error.RelationshipDoesNotExist? && r.error.relationship == q.relType)
              || r.error == PropertyValueWithInvalidType
  {
    var fromId :- Column(row, q.fromColumn);
    var toId :- Column(row, q.toColumn);
    var fromNode :- MatchModel(s, q.fromSel, fromKey, fromId);
    var toNode :- MatchModel(s, q.toSel, toKey, toId);
    if fromNode.None? then Err(NodeWithIdDoesNotExist(Some(q.fromSel), fromId))
    else if toNode.None? then Err(NodeWithIdDoesNotExist(Some(q.toSel), toId))
    else
      MatchModelIsMatchedBy(s, q.fromSel, fromKey, fromId);
      MatchModelIsMatchedBy(s, q.toSel, toKey, toId);
      match FirstRelationship(s, q.relType, fromNode.value, toNode.value)
      case None => Err(RelationshipDoesNotExist(q.relType, fromNode.value, toNode.value))
      case Some(rel) => Ok(RelationshipMatch(fromId, toId, rel))
  }

  /** A row whose matched nodes wrap fails exactly when its ids designate
      no nodes or no relationship of the type joins them, and the error
      names the missing piece: the start node, else the end node, else the
      relationship. A matched node that does not wrap, on either side,
      raises the type error. */
  lemma MatchRelationshipRowErrors(s: Store, q: RelationshipQuery, fromKey: string, toKey: string, row: Series, a: NodeId, b: NodeId)
    requires q.fromColumn in row.data && q.toColumn in row.data
    requires q.fromSel.ByLabel? || IsOgmModel(q.fromSel.cls)
    requires q.toSel.ByLabel? || IsOgmModel(q.toSel.cls)
    ensures var r := MatchRelationshipRow(s, q, fromKey, toKey, row);
            MatchWraps(s, q.fromSel, fromKey, row.data[q.fromColumn]) && MatchWraps(s, q.toSel, toKey, row.data[q.toColumn])
            && MatchedBy(s, q.fromSel, fromKey, row.data[q.fromColumn], a) && MatchedBy(s, q.toSel, toKey, row.data[q.toColumn], b) ==>
              (r.Ok? <==> Relationship(q.relType, a, b) in s.rels)
              && (r.Err? ==> r.error == RelationshipDoesNotExist(q.relType, a, b))
    ensures var r := MatchRelationshipRow(s, q, fromKey, toKey, row);
            MatchWraps(s, q.toSel, toKey, row.data[q.toColumn])
            && (forall j :: !MatchedBy(s, q.fromSel, fromKey, row.data[q.fromColumn], j)) ==>
              r == Err(NodeWithIdDoesNotExist(Some(q.fromSel), row.data[q.fromColumn]))
    ensures var r := MatchRelationshipRow(s, q, fromKey, toKey, row);
            MatchWraps(s, q.fromSel, fromKey, row.data[q.fromColumn]) && MatchWraps(s, q.toSel, toKey, row.data[q.toColumn])
            && MatchedBy(s, q.fromSel, fromKey, row.data[q.fromColumn], a)
            && (forall j :: !MatchedBy(s, q.toSel, toKey, row.data[q.toColumn], j)) ==>
              r == Err(NodeWithIdDoesNotExist(Some(q.toSel), row.data[q.toColumn]))
    ensures var r := MatchRelationshipRow(s, q, fromKey, toKey, row);
            !MatchWraps(s, q.fromSel, fromKey, row.data[q.fromColumn])
            || !MatchWraps(s, q.toSel, toKey, row.data[q.toColumn]) ==>
              r == Err(PropertyValueWithInvalidType)
  {
    MatchModelIsMatchedBy(s, q.fromSel, fromKey, row.data[q.fromColumn]);
    UnwrappableIsMatched(s, q.fromSel, fromKey, row.data[q.fromColumn]);
    MatchModelIsMatchedBy(s, q.toSel, toKey, row.data[q.toColumn]);
  }

  function RelationshipMatchBuilder(s: Store, q: RelationshipQuery, fromKey: string, toKey: string)
    : (f: Series -> Result<RelationshipMatch>)
    ensures forall row :: f(row) == MatchRelationshipRow(s, q, fromKey, toKey, row)
  {
    (row: Series) => MatchRelationshipRow(s, q, fromKey, toKey, row)
  }

  /** `get_relationships_for_dataframe`: resolve the two id keys (the start
      side first), select the two columns, then match every row. */
  function GetRelationshipsForDataframe(s: Store, t: Table, q: RelationshipQuery, fromKey: Option<string>, toKey: Option<string>)
    : (r: Result<seq<RelationshipMatch>>)
    ensures DefaultIdKey(q.fromSel, fromKey, true).Err? ==> r == Err(DefaultIdKey(q.fromSel, fromKey, true).error)
    ensures DefaultIdKey(q.fromSel, fromKey, true).Ok? && DefaultIdKey(q.toSel, toKey, false).Err? ==>
              r == Err(DefaultIdKey(q.toSel, toKey, false).error)
    ensures DefaultIdKey(q.fromSel, fromKey, true).Ok? && DefaultIdKey(q.toSel, toKey, false).Ok? ==>
              (q.fromColumn !in t.columns ==> r == Err(Python(KeyError(q.fromColumn))))
              && (q.fromColumn in t.columns && q.toColumn !in t.columns ==> r == Err(Python(KeyError(q.toColumn))))
    ensures r.Ok? ==> DefaultIdKey(q.fromSel, fromKey, true).Ok? && DefaultIdKey(q.toSel, toKey, false).Ok?
                      && q.fromColumn in t.columns && q.toColumn in t.columns
    ensures r.Ok? ==> var fk := DefaultIdKey(q.fromSel, fromKey, true).value;
                      var tk := DefaultIdKey(q.toSel, toKey, false).value;
                      |r.value| == |t.rows|
                      && forall i :: 0 <= i < |t.rows| ==> MatchRelationshipRow(s, q, fk, tk, t.rows[i]) == Ok(r.value[i])
    ensures (DefaultIdKey(q.fromSel, fromKey, true).Ok? && DefaultIdKey(q.toSel, toKey, false).Ok?
             && q.fromColumn in t.columns && q.toColumn in t.columns) ==>
              var fk := DefaultIdKey(q.fromSel, fromKey, true).value;
              var tk := DefaultIdKey(q.toSel, toKey, false).value;
              (r.Ok? <==> forall i :: 0 <= i < |t.rows| ==> MatchRelationshipRow(s, q, fk, tk, t.rows[i]).Ok?)
  {
    var fk :- DefaultIdKey(q.fromSel, fromKey, true);
    var tk :- DefaultIdKey(q.toSel, toKey, false);
    if q.fromColumn !in t.columns then Err(Python(KeyError(q.fromColumn)))
    else if q.toColumn !in t.columns then Err(Python(KeyError(q.toColumn)))
    else MapAll(t.rows, RelationshipMatchBuilder(s, q, fk, tk))
  }

  /** With a label on the start side, `_match_model` ignores the ids: every
      matched relationship starts at the first node with the label, whatever
      the row says. */
  lemma LabelStartIgnoresIds(s: Store, t: Table, q: RelationshipQuery, fromKey: Option<string>, toKey: Option<string>)
    requires q.fromSel.ByLabel?
    requires GetRelationshipsForDataframe(s, t, q, fromKey, toKey).Ok?
    ensures var rows := GetRelationshipsForDataframe(s, t, q, fromKey, toKey).value;
            var first := FirstWithLabel(s, q.fromSel.labelName);
            forall i :: 0 <= i < |rows| ==> first.Some? && s.rels[rows[i].rel].start == first.value
  {
    var rows := GetRelationshipsForDataframe(s, t, q, fromKey, toKey).value;
    var fk := DefaultIdKey(q.fromSel, fromKey, true).value;
    var tk := DefaultIdKey(q.toSel, toKey, false).value;
    var l := q.fromSel.labelName;
    var first := FirstWithLabel(s, l);
    forall i | 0 <= i < |rows| ensures first.Some? && s.rels[rows[i].rel].start == first.value {
      var a := s.rels[rows[i].rel].start;
      assert MatchRelationshipRow(s, q, fk, tk, t.rows[i]) == Ok(rows[i]);
      assert MatchedBy(s, q.fromSel, fk, rows[i].fromId, a);
      assert first.Some?;
      assert !(first.value < a) && !(a < first.value);
    }
  }
}
