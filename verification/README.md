# pandas2neo4j, modelled in Dafny

pandas2neo4j moves rows of `pandas` tables into a Neo4j graph through
py2neo and reads graph content back as tables. This project models the
library's decision logic over an abstract graph store and abstract tables,
and proves properties of that model. The modelled parts are:

- **The typed property gate.** `SchemaProperty` and its `StringProperty`,
  `IntegerProperty` and `FloatProperty` subclasses check exact runtime types
  on read and write. A write can optionally cast through `TYPE(value)`.
- **Row and model mapping.** `PandasModel` builds a model from a table row,
  `to_dict` dumps a model, and `models_to_dataframe` and `nodes_to_dataframe`
  produce one row per entity.
- **`PandasGraph`.** This covers:
  - chunked node and relationship creation, one transaction per chunk;
  - the selector dispatch (label string or model class);
  - endpoint resolution and its errors;
  - id-key defaulting;
  - relationship filtering by a node set with `inner_only`;
  - column renaming for relationship dumps;
  - the readers that turn graph content back into rows.
- **The error taxonomy and the error messages.**

Python runtime values are a tagged `Value`. A class is a `ModelClass`
record: its kind, primary label, primary key and declared attributes. A
table row is a `Series`, meaning an index of column names and a value for
each. A table is a `Table`, meaning columns plus rows over exactly those
columns.

The graph is a `Store` with three parts:

- a sequence of nodes, each with labels and properties;
- a sequence of typed relationships between node identities (positions
  in the node sequence);
- a log of committed batches, one per transaction.

A query's `.first()` is the lowest identity. `.all()`, and any list the
library builds from a set, are taken in store order. Every operation is a
pure function returning either a value or the `Error` the library would
raise.

Modules:

| file | module | contents |
|---|---|---|
| `values.dfy` | `Values` | runtime values and `type()` |
| `classes.dfy` | `Classes` | property kinds, model classes, selectors |
| `errors.dfy` | `Errors` | exception classes, `Error`, `Result`, messages |
| `seqs.dfy` | `Seqs` | first index, index filters, flattening, the abort-on-first-error map |
| `properties.dfy` | `Properties` | `SchemaProperty.__get__` / `__set__` |
| `tables.dfy` | `Tables` | rows and tables |
| `graph.dfy` | `Graph` | the store, commits, node and relationship queries |
| `pandas_model.dfy` | `PandasModel` | model construction, `to_dict`, the two table builders |
| `chunking.dfy` | `Chunking` | chunk count and `numpy.array_split` |
| `pandas_graph.dfy` | `PandasGraph` | the `PandasGraph` operations |

Calls into code the library does not contain are parameters:

- the cast `TYPE(value)`, as a `Caster` with three outcomes: a value, a
  `TypeError`, or another exception;
- a class's `from_pandas_series`;
- a class's own `to_dict`.

## Model

| member | source | states |
|---|---|---|
| Errors.EveryLibraryErrorIsPandas2Neo4jError | pandas2neo4j/errors.py:1-47 | every error the library raises belongs to a class deriving from `Pandas2Neo4jError`; exactly the untranslated Python exceptions do not |
| Errors.NodeMissingMessage | pandas2neo4j/errors.py:14-17 | the message is the generic "could not find" text exactly when the class or the id is None; otherwise it contains both the class and the id value |
| Errors.NodeMissingWithoutArguments | pandas2neo4j/errors.py:10-17 | the error built with no arguments has both fields None and prints the generic text |
| Errors.RelationshipMissingMessage | pandas2neo4j/errors.py:21-27 | the message contains the relationship name and both endpoint texts |
| Errors.FromIdKeyMissingMessage | pandas2neo4j/pandas_graph.py:553-557 | the start-side configuration message names the label it was given |
| Errors.ToIdKeyMessageOmitsLabel | pandas2neo4j/pandas_graph.py:560-565 | the end-side message as written does not contain the label (shown for every label starting with `P`) |
| Errors.ToIdKeyMissingMessage | pandas2neo4j/pandas_graph.py:560-565 | the corrected end-side message names the label and `to_model_id_key` |
| Errors.ConfigurationMessage | pandas2neo4j/pandas_graph.py:552-566 | with the end-side text corrected (see Findings), the message of a configuration error always names the label of a side that lacks an id key |
| Errors.ConfigurationMessageAsWritten | pandas2neo4j/pandas_graph.py:552-566 | the message as the library writes it: the start side names its label; the end side is the written text around the id key's None; every other issue reads as in the corrected version |
| Errors.ConfigurationMessagesDiffer | pandas2neo4j/pandas_graph.py:560-565 | for an end-side label starting with `P`, the written message omits it and the corrected one names it |
| Properties.Get | pandas2neo4j/properties.py:13-20 | the value read is the stored one, or the default when the key is missing or holds None; a None value reads as None; any other value reads back unchanged exactly when its type is exactly `TYPE`, else the read fails with `PropertyValueWithInvalidTypeError` |
| Properties.Coerce | pandas2neo4j/properties.py:22-35 | a successful write always yields a value of exactly `TYPE`; a value already of `TYPE` is kept; without casting, a write succeeds iff the type matches; with casting, the cast result is checked again, its `TypeError` is translated and other exceptions pass through |
| Properties.Set | pandas2neo4j/properties.py:22-36 | the store changes exactly at the property's key, to the coerced value, and only when coercion succeeds |
| Properties.WriteThenRead | pandas2neo4j/properties.py:13-36 | after a successful write, reading gives the written or cast value and never fails |
| Properties.ReadThenWrite | pandas2neo4j/properties.py:13-36 | writing back a non-None value just read succeeds, reads the same, and leaves a stored non-None value unchanged |
| Properties.NoCastForDeclaredType | pandas2neo4j/properties.py:23 | a value already of `TYPE` is stored as is, whatever the cast would do |
| Properties.NoneRejectedWithoutCast | pandas2neo4j/properties.py:31-35 | without `cast_value`, writing None fails |
| Properties.ConcreteKindsAcceptExactlyTheirType | pandas2neo4j/properties.py:39-48 | without casting, the string, integer and float properties accept exactly str, int and float values |
| Properties.BaseClassRejectsEverything | pandas2neo4j/properties.py:7 | the base class (TYPE None) rejects every write and reads only None |
| Tables.Column | pandas2neo4j/pandas_graph.py:569-570 | reading a row's column gives its value, or a `KeyError` naming the column when the row lacks it |
| Graph.Commit | pandas2neo4j/pandas_graph.py:60-65 | a commit appends exactly one log entry, adds the batch's nodes and relationships after the existing ones, and keeps the store valid when the new relationships join existing nodes |
| Graph.CommitAllAppends | pandas2neo4j/pandas_graph.py:180-197 | committing batches in turn logs each batch once, in order, and adds their entities in order |
| Graph.MatchNode | pandas2neo4j/pandas_graph.py:79-85 | a node is found exactly when some node has the label and the property value, and it is the lowest such node |
| Graph.FirstWithLabel | pandas2neo4j/pandas_graph.py:340-341 | the result is the lowest node carrying the label, or none exists |
| Graph.NodesWithLabel | pandas2neo4j/pandas_graph.py:398 | exactly the nodes with the label, in store order, each once |
| Graph.PrimaryKeyLookup | pandas2neo4j/pandas_graph.py:75 | a model is found exactly when some node has the primary label and primary-key value; it is the lowest such node |
| Graph.RelsOfType | pandas2neo4j/pandas_graph.py:440-441 | exactly the relationships of the type, in store order, each once |
| Graph.FirstRelationship | pandas2neo4j/pandas_graph.py:589-591 | the result is the lowest relationship of the type from the first node to the second, or no such relationship exists |
| PandasModel.HasAttr | pandas2neo4j/pandas_model.py:20 | `hasattr` on a fresh model is true exactly for class attributes; it fails when a typed default cannot be read |
| PandasModel.SelectColumns | pandas2neo4j/pandas_model.py:20 | the kept columns are exactly the row's columns that name class attributes |
| PandasModel.SetAttr | pandas2neo4j/pandas_model.py:21 | a typed attribute goes through the property setter into the node, and fails when the setter fails; any other attribute is stored on the instance as given |
| PandasModel.Assign | pandas2neo4j/pandas_model.py:20-21 | assigning columns in turn fails exactly when a typed column fails to coerce; it sets exactly those keys and leaves all others unchanged |
| PandasModel.Construct | pandas2neo4j/pandas_model.py:19-21 | construction succeeds exactly when every typed column coerces; the node holds exactly the typed columns, the instance the other attribute columns, and non-attribute columns leave no trace |
| PandasModel.GetAttr | pandas2neo4j/pandas_model.py:35 | a typed attribute is read through the property getter, an instance attribute as stored; a missing one is an `AttributeError` |
| PandasModel.AttributeDict | pandas2neo4j/pandas_model.py:35 | the dict has exactly the requested keys, each mapped to its attribute's read, and fails iff some read fails |
| PandasModel.ToDict | pandas2neo4j/pandas_model.py:33-35 | with no list, the node's full property map; with a list, exactly those keys with their validated reads |
| PandasModel.ModelsToDataframe | pandas2neo4j/pandas_model.py:51 | one row per model in order, each equal to that model's `to_dict(columns)`; it fails iff some model's fails |
| PandasModel.FirstMissing | pandas2neo4j/pandas_model.py:70 | none is missing exactly when the node has every column; otherwise the named column is requested and absent |
| PandasModel.NodeRow | pandas2neo4j/pandas_model.py:68-70 | a node's row is its full property map, or exactly the requested columns; a missing column is a `KeyError` |
| PandasModel.NodesToDataframe | pandas2neo4j/pandas_model.py:66-72 | one row per node in order, with all properties or exactly the requested columns; it fails with a `KeyError` iff some node lacks a requested column |
| PandasModel.ConstructKeepsTypedValues | pandas2neo4j/pandas_model.py:19-21 | a row whose typed columns already have the right types builds a node holding exactly those columns, unchanged |
| PandasModel.ToDictOfTypedProps | pandas2neo4j/pandas_model.py:35 | `to_dict(ps)` over well-typed stored properties is the node's map restricted to `ps` |
| PandasModel.ConstructThenToDict | pandas2neo4j/pandas_model.py:19-34 | round trip: building from a well-typed row and dumping all properties gives back the row's typed columns |
| PandasModel.ConstructThenToDictNarrowed | pandas2neo4j/pandas_model.py:19-35 | round trip: building from a well-typed row and dumping chosen typed columns gives back exactly those row values |
| PandasModel.NodesToDataframeNarrows | pandas2neo4j/pandas_model.py:66-72 | the table with chosen columns is the full table restricted to those columns, row by row |
| Chunking.ChunkCount | pandas2neo4j/pandas_graph.py:178 | one chunk for size 0, otherwise the ceiling of rows over size: the least count whose chunks can hold all rows |
| Chunking.Part | pandas2neo4j/pandas_graph.py:179 | the sizes of the `array_split` parts differ by at most one, with the larger ones first |
| Chunking.ArraySplit | pandas2neo4j/pandas_graph.py:179 | `array_split` gives exactly the requested number of parts |
| Chunking.ArraySplitFlatten | pandas2neo4j/pandas_graph.py:179 | concatenating the parts gives back the rows in order |
| Chunking.Chunks | pandas2neo4j/pandas_graph.py:235-236 | the split has the chunk count, concatenates back to the rows, is the whole table for size 0, and every chunk holds between 1 and `chunk_size` rows |
| Chunking.ChunkSizesBounded | pandas2neo4j/pandas_graph.py:178-179 | with the ceiling count, every part of an even split has at least one row and at most `chunk_size` rows |
| PandasGraph.Batch | pandas2neo4j/pandas_graph.py:61-64 | each object contributes exactly one entity to its transaction, in order |
| PandasGraph.CreateGraphObjects | pandas2neo4j/pandas_graph.py:54-65 | one transaction holding the objects is logged; their nodes and relationships are added after the existing ones |
| PandasGraph.Unwrapped | pandas2neo4j/pandas_graph.py:62-63 | every model is replaced by its node; every other object stays |
| PandasGraph.ModelsPushTheirNodes | pandas2neo4j/pandas_graph.py:62-64 | pushing a model is the same as pushing its node |
| PandasGraph.MapChunks | pandas2neo4j/pandas_graph.py:179-196 | the chunks are processed in order up to the first failing one, whose error is kept; every earlier chunk is done in full |
| PandasGraph.MapChunksAgrees | pandas2neo4j/pandas_graph.py:197-198 | the chunk-wise results, concatenated, are the row-wise result over the whole table, and both fail with the same first error |
| PandasGraph.RunChunks | pandas2neo4j/pandas_graph.py:178-198 | the result is the row-wise result; one transaction is logged per chunk that fully succeeded, holding exactly its objects; it succeeds iff every chunk was committed; earlier transactions stay |
| PandasGraph.NodeBuilderFor | pandas2neo4j/pandas_graph.py:238-245 | a label builds labelled nodes; a `PandasModel` class its constructor; a class with `from_pandas_series` that method; anything else is refused with `NotSupportedModelClassError` |
| PandasGraph.BuildNode | pandas2neo4j/pandas_graph.py:238-243 | a label gives a node with that label and every non-None cell as a property, as `py2neo.Node` drops None; the other builders give a model exactly when construction succeeds; no builder gives a relationship |
| PandasGraph.CreateNodesFromDataframe | pandas2neo4j/pandas_graph.py:235-248 | an unsupported class fails before anything is committed; otherwise the outcome is the chunked run of the chosen builder. With a label this always succeeds, each node holding its row's non-None cells. On success there is one new node per row. Existing nodes and all relationships stay. |
| PandasGraph.LabelledRowsBuild | pandas2neo4j/pandas_graph.py:238-239 | with a label every row yields a node carrying that label and the row's non-None cells, so the row-wise mapping never fails |
| PandasGraph.LabelledNodeDropsNoneCells | pandas2neo4j/pandas_graph.py:238-239 | a None cell is not a property of the labelled node, so narrowing the nodes' table to that column raises `KeyError` |
| PandasGraph.NodeRun | pandas2neo4j/pandas_graph.py:178-198 | for a builder that never makes relationships: the result is the row-wise result; on success the new nodes are the objects' nodes in row order; existing nodes and relationships stay; validity is kept; one transaction per chunk, each of at most `chunk_size` objects |
| PandasGraph.RunChunkingInvisible | pandas2neo4j/pandas_graph.py:178-198 | any two chunk sizes give the same result and, on success, the same nodes and relationships |
| PandasGraph.NodeChunkingInvisible | pandas2neo4j/pandas_graph.py:235-248 | the chunk size changes neither the returned objects nor, on success, the nodes created |
| PandasGraph.NodeGetterFor | pandas2neo4j/pandas_graph.py:87-92 | a label gets the label lookup; an ogm model class the primary-key lookup; anything else is `NotSupportedModelClassError` |
| PandasGraph.GetNode | pandas2neo4j/pandas_graph.py:67-85 | the label lookup finds the lowest node with the label and id property value; without an id key it is a `TypeError`. The model lookup ignores the id key, finds the lowest node with the primary key value, and on a miss raises `NodeWithIdDoesNotExistError(class, id)`. `Repository.get` wraps the node it finds, so a found node that does not wrap raises `PropertyValueWithInvalidTypeError` |
| PandasGraph.CreateRelationship | pandas2neo4j/pandas_graph.py:111-119 | a relationship (from, type, to) is built exactly when both endpoints exist; otherwise the error has no class and no id |
| PandasGraph.ModelEndpointIgnoresIdKey | pandas2neo4j/pandas_graph.py:67-77 | for a model endpoint on either side, the row's outcome does not depend on that side's id key |
| PandasGraph.RelationshipForRow | pandas2neo4j/pandas_graph.py:94-119 | a row yields a relationship exactly when both selectors are supported, both columns exist, both ids find nodes, and each node found through a class wraps; the relationship joins the nodes the ids designate; each failure gives the error the library raises, in the source's order. On the start side these are the column `KeyError`, the `TypeError` of a label without an id key, a missing class node and a wrap failure. Once the start lookup succeeds, the end side has the same four: `KeyError(to_key_column)`, `TypeError`, `NodeWithIdDoesNotExistError(to_class, to_id)` and the wrap failure. A label that finds no node yields the argument-less `NodeWithIdDoesNotExistError` |
| PandasGraph.CreateRelationshipsFromDataframe | pandas2neo4j/pandas_graph.py:178-198 | the result is one relationship per row, in row order. Nodes are unchanged. Existing relationships stay, and on success the new ones are exactly the result. Validity is kept. One transaction per chunk, each at most `chunk_size` objects. |
| PandasGraph.RelationshipChunkingInvisible | pandas2neo4j/pandas_graph.py:178-198 | the chunk size changes neither the result nor, on success, the relationships created |
| PandasGraph.GetNodesForDataframe | pandas2neo4j/pandas_graph.py:289-290 | exactly the nodes with the label whose id property is not null and equals a value in the id column, in store order, each once; a missing column is a `KeyError` |
| PandasGraph.GetNodesModelsForDataframe | pandas2neo4j/pandas_graph.py:326-335 | the id property defaults to the column name. Each row wraps one matched node as a model and carries the id read back through it. A missing column is a `KeyError`; a class without `wrap` an `AttributeError`. Any matched node that does not wrap raises `PropertyValueWithInvalidTypeError` before any id is read; otherwise a failed read on some model fails the call. |
| PandasGraph.ModelIdsComeFromTable | pandas2neo4j/pandas_graph.py:326-335 | when the id property is typed, every id in the result is a value of the table's id column |
| PandasGraph.MatchModel | pandas2neo4j/pandas_graph.py:337-342 | for a label: the lowest node with the label, the condition unused. For an ogm class: the lowest node with its primary label meeting the condition, if any; `.first()` wraps it, so `PropertyValueWithInvalidTypeError` when it does not wrap, and that only. Otherwise an `AttributeError`. |
| PandasGraph.GetDataframeForModels | pandas2neo4j/pandas_graph.py:394-398 | a class without `to_dict` is refused with `NotSupportedModelClassError`; a class that cannot `match` is an `AttributeError`; otherwise the nodes with the primary label, in store order, are wrapped and dumped one at a time through the class's `to_dict`. Success needs every node to wrap, and then the table is `models_to_dataframe` of the wrapped models |
| PandasGraph.UserDataframe | pandas2neo4j/pandas_model.py:51 | one row per model through the class's own `to_dict`, failing iff some call fails |
| PandasGraph.ModelDataframeIsTheNodes | pandas2neo4j/pandas_graph.py:398 | for a `PandasModel` class, the table of all columns exists iff every node with its label wraps, and is then their property maps in store order; otherwise the error is `PropertyValueWithInvalidTypeError` |
| PandasGraph.Wrap | pandas2neo4j/pandas_graph.py:330 | `Model.wrap` succeeds iff every attribute of the new instance reads without error, and then gives the instance over the node with an empty instance dictionary; otherwise `PropertyValueWithInvalidTypeError` |
| PandasGraph.WrapAll | pandas2neo4j/pandas_graph.py:328-330 | `.apply(model_class.wrap)` succeeds iff every node wraps, giving one instance per node in order |
| PandasGraph.DumpMatched | pandas2neo4j/pandas_graph.py:398 | iterating the lazy match inside `models_to_dataframe`: success iff every node wraps and its model dumps; the rows are the dumps in order; an error is that of the first node whose wrap or dump fails |
| PandasGraph.DumpMatchedWhenAllWrap | pandas2neo4j/pandas_graph.py:398 | when every node wraps, the lazy iteration equals wrapping all nodes first and then dumping the models |
| PandasGraph.DumpMatchedFullDicts | pandas2neo4j/pandas_model.py:51 | dumping matched models with `to_dict()` fails iff some node does not wrap, and then with `PropertyValueWithInvalidTypeError`; each row is its node's property map |
| PandasGraph.MistypedNodeDoesNotWrap | pandas2neo4j/pandas_graph.py:74 | a `Person` node whose integer `age` holds a float NaN cannot be looked up by its primary key, and its class cannot be dumped: both raise `PropertyValueWithInvalidTypeError` |
| PandasGraph.NodeIds | pandas2neo4j/pandas_graph.py:443-448 | the node set is exactly the given nodes' identities; an element with no node is `NotSupportedModelClassError` |
| PandasGraph.PerNodeUnion | pandas2neo4j/pandas_graph.py:449-457 | the loop's union holds exactly the relationships of the type touching a listed node, filtered by `inner_only` |
| PandasGraph.PerNodeUnionSelects | pandas2neo4j/pandas_graph.py:442-457 | the loop's union is exactly the reference selection |
| PandasGraph.GetRelationships | pandas2neo4j/pandas_graph.py:435-458 | `inner_only` without nodes is a configuration error. Without nodes the result is exactly the relationships of the type. With nodes it is exactly those touching a given node, and with `inner_only` those with both ends given. Duplicate-free. |
| PandasGraph.InnerOnlyNarrows | pandas2neo4j/pandas_graph.py:453-456 | the `inner_only` result is the plain result restricted to relationships whose both ends are given |
| PandasGraph.AllNodesSelectEverything | pandas2neo4j/pandas_graph.py:440-458 | in a valid store, passing every node selects exactly what passing none selects |
| PandasGraph.RelationshipColumns | pandas2neo4j/pandas_graph.py:500-503 | the two columns always differ; they are the property names, suffixed `_from` and `_to` when equal |
| PandasGraph.NodeItem | pandas2neo4j/pandas_graph.py:499 | a node's property, or None when absent |
| PandasGraph.GetDataframeForRelationship | pandas2neo4j/pandas_graph.py:495-503 | fails exactly as `get_relationships` does; otherwise one row per relationship in its order, holding the start node's `from` property and the end node's `to` property |
| PandasGraph.EverySelectedRelationshipHasARow | pandas2neo4j/pandas_graph.py:495-503 | every relationship the reference selection picks has a row with its endpoints' values |
| PandasGraph.DefaultIdKey | pandas2neo4j/pandas_graph.py:552-566 | a given key is used. A missing one with a label is a configuration error naming that side's label. With an ogm class it is the primary key; with any other class an `AttributeError`. |
| PandasGraph.MatchModelIsMatchedBy | pandas2neo4j/pandas_graph.py:337-342 | `_match_model` succeeds iff the node it picks for a class wraps, fails only with `PropertyValueWithInvalidTypeError`, and on success returns node `j` exactly when `j` is the reference match for the selector |
| PandasGraph.MatchRelationshipRow | pandas2neo4j/pandas_graph.py:568-594 | a match gives the row's two ids and the lowest relationship of the type whose ends are the nodes the selectors match for them; failures are the column `KeyError`, `AttributeError`, a wrap failure, a missing node naming its side, or a missing relationship; the clauses that pin each case are in `PandasGraph.MatchRelationshipRowErrors` |
| PandasGraph.MatchRelationshipRowErrors | pandas2neo4j/pandas_graph.py:571-594 | with both nodes matched and wrapping, the row succeeds iff a relationship of the type joins them, else the error names them; with no start node and a wrapping end side, the error names the start selector and id; with the start node matched, both sides wrapping and no end node, the error names the end selector and id; a matched node that does not wrap, on either side, raises `PropertyValueWithInvalidTypeError` before the `None` checks |
| PandasGraph.GetRelationshipsForDataframe | pandas2neo4j/pandas_graph.py:552-598 | the start-side key is resolved first, then the end side, then the two columns are selected. Then every row is matched in order, and the call succeeds iff every row does. |
| PandasGraph.LabelStartIgnoresIds | pandas2neo4j/pandas_graph.py:340-341 | with a label on the start side, every matched relationship starts at the first node with that label, whatever the row's id |

## Left out

- Neo4j and py2neo I/O are replaced by the in-memory `Store`. This covers the connection, `graph.begin`/`commit`, the matchers' Cypher, `Repository.get`, the `schema` property and the cached matchers. A transaction is one appended log entry.
- Concurrency and rollback are not modelled. An error stops the run, and the chunks committed before it stay committed.
- The chunk loop is modelled as "map every chunk until the first failing one, then commit those batches in order". This is the same as the source's interleaving, because mapping a row only reads nodes and relationships that existed before the call. Relationship endpoints are looked up in the store as it was when the call started.
- pandas and numpy internals are sequence operations:
  - `DataFrame.apply`;
  - `pd.concat`;
  - `np.array_split`;
  - the column selection `df[[a, b]]`, modelled as a `KeyError` naming the first missing column (pandas raises one `KeyError` that lists every missing one);
  - how pandas shapes the result of `apply` on an empty table.
- Tables with duplicate column labels are not modelled. The same goes for a relationship column name equal to one of the two key columns.
- `chunk_size` is a `nat`, and `len(df) > 0 || chunk_size == 0` is a precondition of the two creation functions. numpy's behaviour for zero sections is not modelled, and neither is the float rounding of `np.ceil(len / chunk_size)`.
- Python's `str()`, `int()` and `float()` conversions are not modelled. The cast is the `Caster` parameter, and floats are opaque.
- The `key` argument of `SchemaProperty`: a property is stored under its attribute name.
- `ogm.Model`'s default `__primarykey__` of `__id__` is not modelled. The primary key is a property name of the class.
- Cypher equality and ordering are not modelled. A property matches a value when they are equal `Value`s, a null property is never selected by `IN`, and results are in store order. That includes the list `get_relationships` builds from a set.
- Plain `ogm.Property` attributes of a class are read as class attributes with their value, and `PandasModel.__init__` writes such a column into the instance dictionary rather than into the node, so `to_dict()` without columns leaves it out.
- py2neo's `Model.wrap` is not part of this model as code. It is modelled by its behaviour: it reads every attribute of the new instance. Only the attributes a class declares can fail that read; the attributes py2neo itself defines are taken to read without error.
- A user's `from_pandas_series` and `to_dict` are parameters.
- Message texts are modelled only where a property is claimed about them: the two error classes with `__str__`, and the id-key configuration messages. The text of `PropertyValueWithInvalidTypeError` and `NotSupportedModelClassError` is left out.
- `get_graph_models`, `get_graph_nodes`, `get_models_for_dataframe` and `get_dataframe_for_label` are not part of this model.
- PandasGraph.MatchRelationshipRow: does not state which relationship id appears in a `RelationshipDoesNotExist` error outside the case of `PandasGraph.MatchRelationshipRowErrors`.
- Errors.ToIdKeyMessageOmitsLabel: states the omission for labels starting with `P`, because a label that happens to occur in the fixed text (such as `node`) is found in the message by accident.

## Findings

| source | as written | input that shows it | evidently intended | confidence | as-written member | corrected member |
|---|---|---|---|---|---|---|
| pandas2neo4j/pandas_graph.py:562-565 | The end-side `InvalidArgumentsConfigurationError` message interpolates `to_model_id_key`, which is always None at that point. It also tells the user to define `from_model_id_key`. | `get_relationships_for_dataframe` with `to_model_class="Person"` and no `to_model_id_key`: the message shows `'None'` and never mentions `Person` | mirror the start side: show the end-side label and ask for `to_model_id_key` | high; not executed | Errors.ToIdKeyMessageOmitsLabel | Errors.ToIdKeyMissingMessage, Errors.ConfigurationMessage |
