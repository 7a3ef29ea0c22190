/** The graph store behind the driver, as an in-memory value.

    Nodes and relationships live in sequences whose indices are their
    identities; a query's `.first()` is the lowest matching index. Every
    committed transaction is appended to a log. */
module Graph {
  import opened Values
  import opened Classes
  import opened Seqs

  datatype Node = Node(labels: set<string>, props: map<string, Value>)

  /** The property map of a `py2neo.Node` built from keyword arguments:
      `PropertyDict` does not store a key whose value is None. */
  function PropertyDict(data: map<string, Value>): (r: map<string, Value>)
    ensures r.Keys == set k | k in data && data[k] != PyNone
    ensures forall k :: k in r ==> r[k] == data[k] && r[k] != PyNone
  {
    map k | k in data && data[k] != PyNone :: data[k]
  }

  type NodeId = nat
  type RelId = nat

  datatype Relationship = Relationship(relType: string, start: NodeId, end: NodeId)

  /** An object handed to `tx.create`. */
  datatype Entity = NodeEntity(node: Node) | RelationshipEntity(rel: Relationship)

  datatype Store = Store(nodes: seq<Node>, rels: seq<Relationship>, log: seq<seq<Entity>>)

  /** Every relationship connects two nodes of the store. */
  predicate Valid(s: Store) {
    forall i :: 0 <= i < |s.rels| ==> s.rels[i].start < |s.nodes| && s.rels[i].end < |s.nodes|
  }

  function NodesOf(batch: seq<Entity>): (r: seq<Node>)
    ensures |r| <= |batch|
    ensures (forall i :: 0 <= i < |batch| ==> batch[i].RelationshipEntity?) ==> r == []
  {
    if batch == [] then []
    else (if batch[0].NodeEntity? then [batch[0].node] else []) + NodesOf(batch[1..])
  }

  function RelsOf(batch: seq<Entity>): (r: seq<Relationship>)
    ensures forall x :: x in r ==> RelationshipEntity(x) in batch
  {
    if batch == [] then []
    else
      var rest := RelsOf(batch[1..]);
      assert forall x :: x in rest ==> RelationshipEntity(x) in batch by {
        forall x | x in rest ensures RelationshipEntity(x) in batch {
          assert RelationshipEntity(x) in batch[1..];
        }
      }
      (if batch[0].RelationshipEntity? then [batch[0].rel] else []) + rest
  }

  /** Every relationship in the batch connects nodes below index `n`. */
  predicate EndpointsWithin(batch: seq<Entity>, n: nat) {
    forall e :: e in batch && e.RelationshipEntity? ==> e.rel.start < n && e.rel.end < n
  }

  /** `tx.commit()` of one transaction: the batch is logged and its nodes and
      relationships join the store, after the existing ones. */
  function Commit(s: Store, batch: seq<Entity>): (s': Store)
    ensures s'.log == s.log + [batch]
    ensures s'.nodes == s.nodes + NodesOf(batch) && s'.rels == s.rels + RelsOf(batch)
    ensures Valid(s) && EndpointsWithin(batch, |s.nodes|) ==> Valid(s')
  {
    var s' := Store(s.nodes + NodesOf(batch), s.rels + RelsOf(batch), s.log + [batch]);
    assert Valid(s) && EndpointsWithin(batch, |s.nodes|) ==> Valid(s') by {
      if Valid(s) && EndpointsWithin(batch, |s.nodes|) {
        forall i | 0 <= i < |s'.rels| ensures s'.rels[i].start < |s'.nodes| && s'.rels[i].end < |s'.nodes| {
          if i >= |s.rels| {
            var x := RelsOf(batch)[i - |s.rels|];
            assert x in RelsOf(batch);
            assert RelationshipEntity(x) in batch;
          }
        }
      }
    }
    s'
  }

  /** Transactions committed one after the other. */
  function CommitAll(s: Store, batches: seq<seq<Entity>>): Store
    decreases |batches|
  {
    if batches == [] then s else CommitAll(Commit(s, batches[0]), batches[1..])
  }

  /** Committing transactions in turn logs each and adds their contents in order. */
  lemma CommitAllAppends(s: Store, batches: seq<seq<Entity>>)
    ensures CommitAll(s, batches).log == s.log + batches
    ensures CommitAll(s, batches).nodes == s.nodes + NodesOf(Flatten(batches))
    ensures CommitAll(s, batches).rels == s.rels + RelsOf(Flatten(batches))
  {
    CommitAllLog(s, batches);
    CommitAllNodes(s, batches);
    CommitAllRels(s, batches);
  }

  lemma {:induction false} CommitAllLog(s: Store, batches: seq<seq<Entity>>)
    ensures CommitAll(s, batches).log == s.log + batches
    decreases |batches|
  {
    if batches != [] {
      var s1 := Commit(s, batches[0]);
      CommitAllLog(s1, batches[1..]);
      assert batches == [batches[0]] + batches[1..];
      assert s.log + batches == s1.log + batches[1..];
    }
  }

  lemma {:induction false} CommitAllNodes(s: Store, batches: seq<seq<Entity>>)
    ensures CommitAll(s, batches).nodes == s.nodes + NodesOf(Flatten(batches))
    decreases |batches|
  {
    if batches != [] {
      var s1 := Commit(s, batches[0]);
      CommitAllNodes(s1, batches[1..]);
      assert Flatten(batches) == batches[0] + Flatten(batches[1..]);
      NodesOfAppend(batches[0], Flatten(batches[1..]));
    }
  }

  lemma {:induction false} CommitAllRels(s: Store, batches: seq<seq<Entity>>)
    ensures CommitAll(s, batches).rels == s.rels + RelsOf(Flatten(batches))
    decreases |batches|
  {
    if batches != [] {
      var s1 := Commit(s, batches[0]);
      CommitAllRels(s1, batches[1..]);
      assert Flatten(batches) == batches[0] + Flatten(batches[1..]);
      RelsOfAppend(batches[0], Flatten(batches[1..]));
    }
  }

  /** Adding relationships between existing nodes, and nodes, keeps a store valid. */
  lemma AddingKeepsValid(s: Store, added: seq<Entity>)
    requires Valid(s) && EndpointsWithin(added, |s.nodes|)
    ensures Valid(Store(s.nodes + NodesOf(added), s.rels + RelsOf(added), s.log))
  {
    var rels := s.rels + RelsOf(added);
    forall i | 0 <= i < |rels| ensures rels[i].start < |s.nodes| && rels[i].end < |s.nodes| {
      if i >= |s.rels| {
        var x := RelsOf(added)[i - |s.rels|];
        assert x in RelsOf(added);
        assert RelationshipEntity(x) in added;
      }
    }
  }

  lemma {:induction false} NodesOfAppend(a: seq<Entity>, b: seq<Entity>)
    ensures NodesOf(a + b) == NodesOf(a) + NodesOf(b)
  {
    if a == [] {
      assert a + b == b;
    } else {
      assert (a + b)[0] == a[0];
      assert (a + b)[1..] == a[1..] + b;
      NodesOfAppend(a[1..], b);
    }
  }

  lemma {:induction false} RelsOfAppend(a: seq<Entity>, b: seq<Entity>)
    ensures RelsOf(a + b) == RelsOf(a) + RelsOf(b)
  {
    if a == [] {
      assert a + b == b;
    } else {
      assert (a + b)[0] == a[0];
      assert (a + b)[1..] == a[1..] + b;
      RelsOfAppend(a[1..], b);
    }
  }

  /** A batch of relationships only: no nodes, and its relationships in order. */
  lemma {:induction false} RelationshipBatch(batch: seq<Entity>)
    requires forall i :: 0 <= i < |batch| ==> batch[i].RelationshipEntity?
    ensures NodesOf(batch) == []
    ensures RelsOf(batch) == seq(|batch|, i requires 0 <= i < |batch| => batch[i].rel)
  {
    if batch != [] {
      RelationshipBatch(batch[1..]);
    }
  }

  /** A batch of nodes only: no relationships, and its nodes in order. */
  lemma {:induction false} NodeBatch(batch: seq<Entity>)
    requires forall i :: 0 <= i < |batch| ==> batch[i].NodeEntity?
    ensures NodesOf(batch) == seq(|batch|, i requires 0 <= i < |batch| => batch[i].node)
    ensures RelsOf(batch) == []
  {
    if batch != [] {
      NodeBatch(batch[1..]);
    }
  }

  /** Node `n` carries `lbl` and its `key` property equals `v`. */
  predicate Matches(n: Node, lbl: string, key: string, v: Value) {
    lbl in n.labels && key in n.props && n.props[key] == v
  }

  /** Some node of the store matches. */
  predicate AnyMatch(s: Store, lbl: string, key: string, v: Value) {
    exists j :: 0 <= j < |s.nodes| && Matches(s.nodes[j], lbl, key, v)
  }

  /** `j` is the lowest-numbered matching node. */
  predicate FirstMatch(s: Store, lbl: string, key: string, v: Value, j: NodeId) {
    j < |s.nodes| && Matches(s.nodes[j], lbl, key, v)
    && forall i :: 0 <= i < j ==> !Matches(s.nodes[i], lbl, key, v)
  }

  /** `graph.nodes.match(label, key=v).first()`. */
  function MatchNode(s: Store, lbl: string, key: string, v: Value): (r: Option<NodeId>)
    ensures r.Some? <==> AnyMatch(s, lbl, key, v)
    ensures r.Some? ==> FirstMatch(s, lbl, key, v, r.value)
  {
    var p := (j: nat) => j < |s.nodes| && Matches(s.nodes[j], lbl, key, v);
    assert forall j :: 0 <= j < |s.nodes| ==> (p(j) <==> Matches(s.nodes[j], lbl, key, v));
    First(|s.nodes|, p)
  }

  /** `NodeMatcher.match(label).first()`, with no condition. */
  function FirstWithLabel(s: Store, lbl: string): (r: Option<NodeId>)
    ensures r.Some? ==> r.value < |s.nodes| && lbl in s.nodes[r.value].labels
    ensures r.Some? ==> forall j :: 0 <= j < r.value ==> lbl !in s.nodes[j].labels
    ensures r.None? ==> forall j :: 0 <= j < |s.nodes| ==> lbl !in s.nodes[j].labels
  {
    var p := (j: nat) => j < |s.nodes| && lbl in s.nodes[j].labels;
    assert forall j :: 0 <= j < |s.nodes| ==> (p(j) <==> lbl in s.nodes[j].labels);
    First(|s.nodes|, p)
  }

  /** `NodeMatcher.match(label)`: every node carrying the label, in store order. */
  function NodesWithLabel(s: Store, lbl: string): (r: seq<NodeId>)
    ensures forall j: nat :: j in r <==> j < |s.nodes| && lbl in s.nodes[j].labels
    ensures forall k :: 0 <= k < |r| ==> r[k] < |s.nodes|
    ensures StrictlyIncreasing(r)
  {
    IndicesWhere(|s.nodes|, (j: nat) => j < |s.nodes| && lbl in s.nodes[j].labels)
  }

  /** `Repository.get(cls, value)`: the node registered for `cls` under the
      primary-key value, i.e. the first one with the class's primary label
      whose primary-key property equals it. */
  function PrimaryKeyLookup(s: Store, cls: ModelClass, v: Value): (r: Option<NodeId>)
    ensures r.Some? <==> AnyMatch(s, cls.primaryLabel, cls.primaryKey, v)
    ensures r.Some? ==> FirstMatch(s, cls.primaryLabel, cls.primaryKey, v, r.value)
  {
    MatchNode(s, cls.primaryLabel, cls.primaryKey, v)
  }

  /** `RelationshipMatcher.match(r_type=t)`: all relationships of the type, in store order. */
  function RelsOfType(s: Store, t: string): (r: seq<RelId>)
    ensures forall j: nat :: j in r <==> j < |s.rels| && s.rels[j].relType == t
    ensures StrictlyIncreasing(r)
  {
    IndicesWhere(|s.rels|, (j: nat) => j < |s.rels| && s.rels[j].relType == t)
  }

  /** `RelationshipMatcher.match(nodes=[a, b], r_type=t).first()`: the first
      relationship of the type from `a` to `b`. */
  function FirstRelationship(s: Store, t: string, a: NodeId, b: NodeId): (r: Option<RelId>)
    ensures r.Some? ==> r.value < |s.rels| && s.rels[r.value] == Relationship(t, a, b)
    ensures r.Some? ==> forall j :: 0 <= j < r.value ==> s.rels[j] != Relationship(t, a, b)
    ensures r.None? ==> Relationship(t, a, b) !in s.rels
  {
    var p := (j: nat) => j < |s.rels| && s.rels[j] == Relationship(t, a, b);
    assert forall j :: 0 <= j < |s.rels| ==> (p(j) <==> s.rels[j] == Relationship(t, a, b));
    var r := First(|s.rels|, p);
    assert r.None? ==> forall x :: x in s.rels ==> x != Relationship(t, a, b) by {
      if r.None? {
        forall x | x in s.rels ensures x != Relationship(t, a, b) {
          var j :| 0 <= j < |s.rels| && s.rels[j] == x;
        }
      }
    }
    r
  }
}
