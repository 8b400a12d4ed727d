/** The table of nodes and indices that the cluster overview draws: where the entries of the routing
    table go. */
module ShardTable {
  import opened Wrappers

  /** An entry of the routing table; objects differ by their number. */
  datatype Replica = Replica(id: nat, node: Option<string>, index: string, shard: int)
  datatype Shard = Shard(key: nat, entries: seq<Replica>)
  datatype Index = Index(name: string, shards: seq<Shard>)

  /** What the table holds; arrays with gaps are maps. */
  datatype Cell = Cell(replica: Replica, status: Option<Replica>)
  datatype Routing = Routing(name: string, length: nat, replicas: map<nat, Cell>)
  datatype Node = Node(name: string, routings: map<nat, Routing>)
  datatype Grid = Grid(nodes: seq<Node>, indices: seq<string>,
                       nodeIndices: map<string, nat>, indexIndices: map<string, nat>)

  /** One round of the innermost loop: an entry of an index object. */
  datatype Entry = Entry(index: Index, replica: Replica)

  const EMPTY := Grid([], [], map[], map[])

  function NodeOf(r: Replica): string {
    if r.node.None? then "Unassigned" else r.node.value
  }

  // ----- The layout, step by step -----

  /** Both lists have every name once, and the maps know where. */
  ghost predicate WellFormed(g: Grid) {
    && (forall n | n in g.nodeIndices :: g.nodeIndices[n] < |g.nodes| && g.nodes[g.nodeIndices[n]].name == n)
    && (forall k | 0 <= k < |g.nodes| :: g.nodes[k].name in g.nodeIndices && g.nodeIndices[g.nodes[k].name] == k)
    && (forall i | i in g.indexIndices :: g.indexIndices[i] < |g.indices| && g.indices[g.indexIndices[i]] == i)
    && (forall c | 0 <= c < |g.indices| :: g.indices[c] in g.indexIndices && g.indexIndices[g.indices[c]] == c)
    && (forall k | 0 <= k < |g.nodes| :: Aligned(g.nodes[k], g.indices))
  }

  /** A node's routings stand in the columns of their indices. */
  ghost predicate Aligned(node: Node, indices: seq<string>) {
    forall c | c in node.routings :: c < |indices| && node.routings[c].name == indices[c]
  }

  /** getIndexForNode: the row of a node, a new one if it has none. */
  function WithNode(g: Grid, n: string): (g': Grid)
    requires WellFormed(g)
    ensures WellFormed(g') && n in g'.nodeIndices
  {
    if n in g.nodeIndices then g
    else g.(nodes := g.nodes + [Node(n, map[])], nodeIndices := g.nodeIndices[n := |g.nodes|])
  }

  /** getIndexForIndex: the column of an index, a new one if it has none, with a routing in row k. */
  function WithIndex(g: Grid, k: nat, i: string): (g': Grid)
    requires WellFormed(g) && k < |g.nodes|
    ensures WellFormed(g') && i in g'.indexIndices && g'.nodeIndices == g.nodeIndices && |g'.nodes| == |g.nodes|
    ensures g'.indexIndices[i] in g'.nodes[k].routings
  {
    var g1 := WithColumn(g, i);
    var c := g1.indexIndices[i];
    if c in g.nodes[k].routings then g1 else WithRouting(g1, k, c, Routing(i, 0, map[]))
  }

  /** Routing r in row k and column c. */
  function WithRouting(g: Grid, k: nat, c: nat, r: Routing): (g': Grid)
    requires WellFormed(g) && k < |g.nodes| && c < |g.indices| && r.name == g.indices[c]
    ensures WellFormed(g') && g' == g.(nodes := g'.nodes) && |g'.nodes| == |g.nodes| && c in g'.nodes[k].routings
  {
    hide Aligned;
    AlignedWith(g.nodes[k], g.indices, c, r);
    g.(nodes := g.nodes[k := g.nodes[k].(routings := g.nodes[k].routings[c := r])])
  }

  function WithColumn(g: Grid, i: string): (g': Grid)
    requires WellFormed(g)
    ensures WellFormed(g') && i in g'.indexIndices && g'.nodes == g.nodes && g'.nodeIndices == g.nodeIndices
  {
    hide Aligned;
    if i in g.indexIndices then g
    else
      WiderAligned(g, g.indices + [i]);
      g.(indices := g.indices + [i], indexIndices := g.indexIndices[i := |g.indices|])
  }

  lemma WiderAligned(g: Grid, indices: seq<string>)
    requires WellFormed(g) && g.indices <= indices
    ensures forall k | 0 <= k < |g.nodes| :: Aligned(g.nodes[k], indices)
  {
  }

  lemma AlignedWith(node: Node, indices: seq<string>, c: nat, r: Routing)
    requires Aligned(node, indices) && c < |indices| && r.name == indices[c]
    ensures Aligned(node.(routings := node.routings[c := r]), indices)
  {
  }

  /** The entries that an index object holds under a shard number. */
  function Under(shards: seq<Shard>, key: int): Option<seq<Replica>> {
    if shards == [] then None
    else if shards[0].key == key then Some(shards[0].entries)
    else Under(shards[1..], key)
  }

  function FirstOn(entries: seq<Replica>, node: string): Option<Replica> {
    if entries == [] then None
    else if entries[0].node == Some(node) then Some(entries[0])
    else FirstOn(entries[1..], node)
  }

  /** The entry goes to the end if it has no node or no shard, and otherwise to the place of its shard. */
  function Added(routing: Routing, e: Entry): (r: Routing)
    ensures r.name == routing.name
  {
    var node, shard := NodeOf(e.replica), e.replica.shard;
    var entries := Under(e.index.shards, shard);
    if node == "Unassigned" || entries.None? || shard < 0 then
      routing.(length := routing.length + 1, replicas := routing.replicas[routing.length := Cell(e.replica, None)])
    else
      routing.(length := if routing.length <= shard then shard + 1 else routing.length,
               replicas := routing.replicas[shard := Cell(e.replica, FirstOn(entries.value, node))])
  }

  function Placed(g: Grid, e: Entry): (g': Grid)
    requires WellFormed(g)
    ensures WellFormed(g')
  {
    hide WithNode, WithIndex;
    var g1 := WithNode(g, NodeOf(e.replica));
    var k := g1.nodeIndices[NodeOf(e.replica)];
    var g2 := WithIndex(g1, k, e.replica.index);
    var c := g2.indexIndices[e.replica.index];
    WithRouting(g2, k, c, Added(g2.nodes[k].routings[c], e))
  }

  // ----- The whole layout -----

  /** The rows of the nodes that the cluster has. */
  function WithNodes(g: Grid, names: seq<string>): (g': Grid)
    requires WellFormed(g)
    ensures WellFormed(g')
  {
    if names == [] then g else WithNode(WithNodes(g, names[..|names| - 1]), names[|names| - 1])
  }

  function Laid(g: Grid, entries: seq<Entry>): (g': Grid)
    requires WellFormed(g)
    ensures WellFormed(g')
  {
    if entries == [] then g else Placed(Laid(g, entries[..|entries| - 1]), entries[|entries| - 1])
  }

  lemma {:induction false} LaidMore(g: Grid, a: seq<Entry>, b: seq<Entry>)
    requires WellFormed(g)
    ensures Laid(g, a + b) == Laid(Laid(g, a), b)
  {
    hide Placed, WellFormed;
    if b == [] {
      assert a + b == a;
    } else {
      LaidMore(g, a, b[..|b| - 1]);
      assert (a + b)[..|a + b| - 1] == a + b[..|b| - 1];
    }
  }

  function OfShard(index: Index, entries: seq<Replica>): seq<Entry> {
    seq(|entries|, k requires 0 <= k < |entries| => Entry(index, entries[k]))
  }

  function OfIndex(index: Index, shards: seq<Shard>): seq<Entry> {
    if shards == [] then []
    else OfIndex(index, shards[..|shards| - 1]) + OfShard(index, shards[|shards| - 1].entries)
  }

  /** All entries of the index objects, in the order of the loops. */
  function Entries(displayed: seq<Index>): seq<Entry> {
    if displayed == [] then []
    else
      var index := displayed[|displayed| - 1];
      Entries(displayed[..|displayed| - 1]) + OfIndex(index, index.shards)
  }

  /** The row has a routing for every column; a missing one is new and empty. */
  function FilledRow(node: Node, indices: seq<string>): Node {
    node.(routings := map c: nat | c < |indices| ::
      if c in node.routings then node.routings[c] else Routing(indices[c], 0, map[]))
  }

  /** The columns of the closed indices come last. */
  function Filled(g: Grid, closed: seq<string>): Grid {
    g.(indices := g.indices + closed,
       nodes := seq(|g.nodes|, k requires 0 <= k < |g.nodes| => FilledRow(g.nodes[k], g.indices + closed)))
  }

  /** The layout for the nodes of the cluster, the index objects that pass the filter, in the order that
      they are sorted in, and the names of the closed indices that do. */
  function Layout(names: seq<string>, displayed: seq<Index>, closed: seq<string>): Grid {
    Filled(Laid(WithNodes(EMPTY, names), Entries(displayed)), closed)
  }

  // ----- The program -----

  class Table {
    var nodes: seq<Node>
    var indices: seq<string>
    var nodeIndices: map<string, nat>
    var indexIndices: map<string, nat>
    var indexIndicesIndex: nat

    ghost function Value(): Grid
      reads this
    {
      Grid(nodes, indices, nodeIndices, indexIndices)
    }

    ghost predicate Valid()
      reads this
    {
      WellFormed(Value()) && indexIndicesIndex == |indices|
    }

    constructor ()
      ensures Valid() && Value() == EMPTY
    {
      nodes, indices, nodeIndices, indexIndices, indexIndicesIndex := [], [], map[], map[], 0;
    }

    method GetIndexForNode(n: string) returns (k: nat)
      requires Valid()
      modifies this`nodes, this`nodeIndices
      ensures Valid() && Value() == WithNode(old(Value()), n) && n in nodeIndices && k == nodeIndices[n] && k < |nodes|
    {
      if n in nodeIndices {
        k := nodeIndices[n];
        assert nodeIndices[n := k] == nodeIndices;
      } else {
        nodes := nodes + [Node(n, map[])];
        k := |nodes| - 1;
      }
      nodeIndices := nodeIndices[n := k];
    }

    method SetRouting(k: nat, c: nat, routing: Routing)
      requires k < |nodes|
      modifies this`nodes
      ensures nodes == old(nodes)[k := old(nodes[k]).(routings := old(nodes[k]).routings[c := routing])]
    {
      nodes := nodes[k := nodes[k].(routings := nodes[k].routings[c := routing])];
    }

    /** The routings are those of row k. */
    method GetIndexForIndex(k: nat, i: string) returns (c: nat)
      requires Valid() && k < |nodes|
      modifies this`nodes, this`indices, this`indexIndices, this`indexIndicesIndex
      ensures Valid() && Value() == WithIndex(old(Value()), k, i) && i in indexIndices && c == indexIndices[i]
    {
      hide Aligned;
      if i in indexIndices {
        c := indexIndices[i];
        assert indices[c := i] == indices && indexIndices[i := c] == indexIndices;
        if c !in nodes[k].routings {
          SetRouting(k, c, Routing(i, 0, map[]));
        }
        indices := indices[c := i];
      } else {
        c := indexIndicesIndex;
        assert c !in nodes[k].routings by { NotYet(Value(), k); }
        SetRouting(k, c, Routing(i, 0, map[]));
        indexIndicesIndex := indexIndicesIndex + 1;
        indices := indices + [i];
      }
      indexIndices := indexIndices[i := c];
      assert Value() == WithIndex(old(Value()), k, i);
    }

    /** The innermost loop's body. */
    method Place(index: Index, replica: Replica)
      requires Valid()
      modifies this
      ensures Valid() && Value() == Placed(old(Value()), Entry(index, replica))
    {
      hide WithNode, WithIndex, Aligned, WellFormed, Added;
      var node := NodeOf(replica);
      var k := GetIndexForNode(node);
      var c := GetIndexForIndex(k, replica.index);
      AddReplica(k, c, index, replica);
      ghost var p := Placed(old(Value()), Entry(index, replica));
      assert Value() == p;
    }

    method AddReplica(k: nat, c: nat, index: Index, replica: Replica)
      requires k < |nodes| && c in nodes[k].routings
      modifies this`nodes
      ensures var node := old(nodes[k]);
              nodes == old(nodes)[k := node.(
                routings := node.routings[c := Added(node.routings[c], Entry(index, replica))])]
    {
      hide Under, FirstOn;
      var node, shard := NodeOf(replica), replica.shard;
      var routing, entries := nodes[k].routings[c], Under(index.shards, shard);
      if node == "Unassigned" || entries.None? || shard < 0 {
        routing := routing.(length := routing.length + 1,
                            replicas := routing.replicas[routing.length := Cell(replica, None)]);
      } else {
        routing := routing.(length := if routing.length <= shard then shard + 1 else routing.length,
                            replicas := routing.replicas[shard := Cell(replica, FirstOn(entries.value, node))]);
      }
      SetRouting(k, c, routing);
    }

    method PlaceAll(displayed: seq<Index>)
      requires Valid()
      modifies this
      ensures Valid() && Value() == Laid(old(Value()), Entries(displayed))
    {
      hide Placed, WellFormed;
      ghost var g := Value();
      for i := 0 to |displayed|
        invariant Valid() && Value() == Laid(g, Entries(displayed[..i]))
      {
        PlaceIndex(displayed[i]);
        var index := displayed[i];
        LaidMore(g, Entries(displayed[..i]), OfIndex(index, index.shards));
        assert displayed[..i + 1][..i] == displayed[..i];
      }
      assert displayed[..|displayed|] == displayed;
    }

    method PlaceIndex(index: Index)
      requires Valid()
      modifies this
      ensures Valid() && Value() == Laid(old(Value()), OfIndex(index, index.shards))
    {
      hide Placed, WellFormed;
      ghost var g := Value();
      for j := 0 to |index.shards|
        invariant Valid() && Value() == Laid(g, OfIndex(index, index.shards[..j]))
      {
        PlaceShard(index, index.shards[j].entries);
        LaidMore(g, OfIndex(index, index.shards[..j]), OfShard(index, index.shards[j].entries));
        assert index.shards[..j + 1][..j] == index.shards[..j];
      }
      assert index.shards[..|index.shards|] == index.shards;
    }

    method PlaceShard(index: Index, entries: seq<Replica>)
      requires Valid()
      modifies this
      ensures Valid() && Value() == Laid(old(Value()), OfShard(index, entries))
    {
      hide Placed, WellFormed;
      ghost var g := Value();
      for k := 0 to |entries|
        invariant Valid() && Value() == Laid(g, OfShard(index, entries[..k]))
      {
        Place(index, entries[k]);
        assert OfShard(index, entries[..k + 1])[..k] == OfShard(index, entries[..k]);
      }
      assert entries[..|entries|] == entries;
    }

    /** The last loop, which completes row k. */
    method FillRow(k: nat)
      requires k < |nodes| && Aligned(nodes[k], indices)
      modifies this`nodes
      ensures nodes == old(nodes)[k := FilledRow(old(nodes[k]), indices)]
    {
      for c := 0 to |indices|
        invariant |nodes| == |old(nodes)| && nodes == old(nodes)[k := nodes[k]] && nodes[k].name == old(nodes[k]).name
        invariant forall d: nat :: d in nodes[k].routings <==> d in old(nodes[k]).routings || d < c
        invariant forall d | d in nodes[k].routings ::
          nodes[k].routings[d]
          == if d in old(nodes[k]).routings then old(nodes[k]).routings[d] else Routing(indices[d], 0, map[])
      {
        if c !in nodes[k].routings {
          SetRouting(k, c, Routing(indices[c], 0, map[]));
        }
      }
      assert nodes[k].routings == FilledRow(old(nodes[k]), indices).routings;
    }

    method Draw(names: seq<string>, displayed: seq<Index>, closed: seq<string>)
      requires Valid() && Value() == EMPTY
      modifies this
      ensures Value() == Layout(names, displayed, closed)
    {
      hide WithNode, Laid, WellFormed, FilledRow, Aligned;
      for j := 0 to |names|
        invariant Valid() && Value() == WithNodes(EMPTY, names[..j])
      {
        var _ := GetIndexForNode(names[j]);
        assert names[..j + 1][..j] == names[..j];
      }
      assert names[..|names|] == names;
      PlaceAll(displayed);
      ghost var g := Value();
      AllAligned(g, closed);
      indices := indices + closed;
      for k := 0 to |nodes|
        invariant |nodes| == |g.nodes| && Value() == g.(indices := g.indices + closed, nodes := nodes)
        invariant forall m | 0 <= m < |nodes| ::
          nodes[m] == if m < k then FilledRow(g.nodes[m], indices) else g.nodes[m]
      {
        FillRow(k);
      }
      assert nodes == Filled(g, closed).nodes;
    }
  }

  lemma NotYet(g: Grid, k: nat)
    requires WellFormed(g) && k < |g.nodes|
    ensures |g.indices| !in g.nodes[k].routings
  {
    assert Aligned(g.nodes[k], g.indices);
  }

  lemma AllAligned(g: Grid, closed: seq<string>)
    requires WellFormed(g)
    ensures forall k | 0 <= k < |g.nodes| :: Aligned(g.nodes[k], g.indices + closed)
  {
    WiderAligned(g, g.indices + closed);
  }
}
