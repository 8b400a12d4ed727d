/** Which rows and columns the shard table has. */
module ShardRows {
  import opened Wrappers
  import opened ShardTable

  /** The routing tables of these indices have an entry. */
  ghost predicate Has(displayed: seq<Index>, index: Index, r: Replica) {
    index in displayed && exists shard :: shard in index.shards && r in shard.entries
  }

  /** Entry r belongs in the row of this name. */
  predicate On(r: Replica, n: string) {
    r.node == Some(n) || (r.node.None? && n == "Unassigned")
  }

  lemma {:induction false} InOfIndex(index: Index, shards: seq<Shard>, e: Entry)
    ensures e in OfIndex(index, shards) <==>
            e.index == index && exists shard :: shard in shards && e.replica in shard.entries
  {
    if shards == [] {
    } else {
      var front, last := shards[..|shards| - 1], shards[|shards| - 1];
      assert shards == front + [last];
      InOfIndex(index, front, e);
      if e.index == index && e.replica in last.entries {
        var k :| 0 <= k < |last.entries| && last.entries[k] == e.replica;
        assert OfShard(index, last.entries)[k] == e;
      }
    }
  }

  /** The loops come to every entry of every index object, and to nothing else. */
  lemma {:induction false} InEntries(displayed: seq<Index>, e: Entry)
    ensures e in Entries(displayed) <==> Has(displayed, e.index, e.replica)
  {
    if displayed == [] {
    } else {
      var front, last := displayed[..|displayed| - 1], displayed[|displayed| - 1];
      assert displayed == front + [last];
      InEntries(front, e);
      InOfIndex(last, last.shards, e);
    }
  }

  lemma {:induction false} NodesKeys(names: seq<string>)
    ensures EMPTY.nodeIndices == map[] && EMPTY.indexIndices == map[] && WellFormed(EMPTY)
    ensures var g := WithNodes(EMPTY, names);
            g.nodeIndices.Keys == (set n | n in names) && g.indexIndices == map[]
  {
    hide WellFormed;
    assert WellFormed(EMPTY) by { EmptyIsWellFormed(); }
    if names == [] {
    } else {
      NodesKeys(names[..|names| - 1]);
      assert names == names[..|names| - 1] + [names[|names| - 1]];
    }
  }

  lemma EmptyIsWellFormed()
    ensures WellFormed(EMPTY)
  {
  }

  lemma PlacedKeys(g: Grid, e: Entry)
    requires WellFormed(g)
    ensures Placed(g, e).nodeIndices.Keys == g.nodeIndices.Keys + {NodeOf(e.replica)}
    ensures Placed(g, e).indexIndices.Keys == g.indexIndices.Keys + {e.replica.index}
  {
    hide WellFormed, Added;
  }

  lemma {:induction false} LaidKeys(g: Grid, entries: seq<Entry>)
    requires WellFormed(g)
    ensures Laid(g, entries).nodeIndices.Keys == g.nodeIndices.Keys + (set e | e in entries :: NodeOf(e.replica))
    ensures Laid(g, entries).indexIndices.Keys == g.indexIndices.Keys + (set e | e in entries :: e.replica.index)
  {
    hide WellFormed, Placed, NodeOf;
    if entries == [] {
    } else {
      var front, last := entries[..|entries| - 1], entries[|entries| - 1];
      assert entries == front + [last];
      LaidKeys(g, front);
      PlacedKeys(Laid(g, front), last);
    }
  }

  /** Every node of the cluster has a row, with shards or without; so has every other node that an entry
      names, and "Unassigned" if some entry has no node; and no name has two rows. */
  lemma {:induction false} Rows(names: seq<string>, displayed: seq<Index>, closed: seq<string>, n: string)
    ensures var rows := Layout(names, displayed, closed).nodes;
            && ((exists k :: 0 <= k < |rows| && rows[k].name == n) <==>
                n in names || exists index, r :: Has(displayed, index, r) && On(r, n))
            && forall i, j | 0 <= i < j < |rows| :: rows[i].name != rows[j].name
  {
    hide Entries, Laid, WithNodes, Has, Aligned;
    NodesKeys(names);
    var g0 := WithNodes(EMPTY, names);
    var entries := Entries(displayed);
    var g := Laid(g0, entries);
    LaidKeys(g0, entries);
    forall e
      ensures e in entries <==> Has(displayed, e.index, e.replica)
    {
      InEntries(displayed, e);
    }
    var rows := Layout(names, displayed, closed).nodes;
    assert |rows| == |g.nodes| && forall k | 0 <= k < |rows| :: rows[k].name == g.nodes[k].name;
    if n in g.nodeIndices {
      assert rows[g.nodeIndices[n]].name == n;
    }
    if index, r :| Has(displayed, index, r) && On(r, n) {
      assert Entry(index, r) in entries && NodeOf(r) == n;
    }
  }

  /** Every index that an entry names has one column, and after these come the closed indices. */
  lemma {:induction false} Columns(names: seq<string>, displayed: seq<Index>, closed: seq<string>, i: string)
    ensures var columns := Layout(names, displayed, closed).indices;
            var n := |columns| - |closed|;
            && n >= 0 && columns[n..] == closed
            && (i in columns[..n] <==> exists index, r :: Has(displayed, index, r) && r.index == i)
            && forall c, d | 0 <= c < d < n :: columns[c] != columns[d]
  {
    hide Entries, Laid, WithNodes, Has, Aligned;
    NodesKeys(names);
    var g0 := WithNodes(EMPTY, names);
    var entries := Entries(displayed);
    var g := Laid(g0, entries);
    LaidKeys(g0, entries);
    forall e
      ensures e in entries <==> Has(displayed, e.index, e.replica)
    {
      InEntries(displayed, e);
    }
    var columns := Layout(names, displayed, closed).indices;
    assert columns == g.indices + closed;
    assert columns[..|g.indices|] == g.indices;
    if i in g.indexIndices {
      assert g.indices[g.indexIndices[i]] == i;
    }
    if index, r :| Has(displayed, index, r) && r.index == i {
      assert Entry(index, r) in entries;
    }
  }

  // ----- The length of the arrays -----

  /** The cells of a routing end where its length says. */
  predicate Measured(r: Routing) {
    (forall s | s in r.replicas :: s < r.length) && (r.length > 0 ==> r.length - 1 in r.replicas)
  }

  ghost predicate AllMeasured(g: Grid) {
    forall k, c | 0 <= k < |g.nodes| && c in g.nodes[k].routings :: Measured(g.nodes[k].routings[c])
  }

  lemma AddedMeasured(r: Routing, e: Entry)
    requires Measured(r)
    ensures Measured(Added(r, e))
  {
    hide Under, FirstOn;
  }

  lemma {:induction false} PlacedMeasured(g: Grid, e: Entry)
    requires WellFormed(g) && AllMeasured(g)
    ensures AllMeasured(Placed(g, e))
  {
    hide Aligned, Added, Measured, WithIndex;
    var g1 := WithNode(g, NodeOf(e.replica));
    var k := g1.nodeIndices[NodeOf(e.replica)];
    var g2 := WithIndex(g1, k, e.replica.index);
    assert AllMeasured(g1);
    IndexMeasured(g1, k, e.replica.index);
    AddedMeasured(g2.nodes[k].routings[g2.indexIndices[e.replica.index]], e);
  }

  lemma {:induction false} IndexMeasured(g: Grid, k: nat, i: string)
    requires WellFormed(g) && AllMeasured(g) && k < |g.nodes|
    ensures AllMeasured(WithIndex(g, k, i))
  {
    hide Aligned, Measured;
    EmptyMeasured(i);
  }

  lemma EmptyMeasured(name: string)
    ensures Measured(Routing(name, 0, map[]))
  {
  }

  lemma {:induction false} LaidMeasured(g: Grid, entries: seq<Entry>)
    requires WellFormed(g) && AllMeasured(g)
    ensures AllMeasured(Laid(g, entries))
  {
    hide WellFormed, Placed, AllMeasured;
    if entries == [] {
    } else {
      LaidMeasured(g, entries[..|entries| - 1]);
      PlacedMeasured(Laid(g, entries[..|entries| - 1]), entries[|entries| - 1]);
    }
  }

  lemma {:induction false} NodesMeasured(names: seq<string>)
    ensures WellFormed(EMPTY) && AllMeasured(WithNodes(EMPTY, names))
  {
    hide WellFormed;
    EmptyIsWellFormed();
    if names == [] {
    } else {
      NodesMeasured(names[..|names| - 1]);
    }
  }

  /** Every array of cells is exactly as long as its last cell demands: an entry without a place goes
      right behind it, and routings that are filled in have none. */
  lemma {:induction false} Lengths(names: seq<string>, displayed: seq<Index>, closed: seq<string>)
    ensures AllMeasured(Layout(names, displayed, closed))
  {
    hide WellFormed, WithNodes, Laid, Entries, Measured;
    NodesMeasured(names);
    LaidMeasured(WithNodes(EMPTY, names), Entries(displayed));
    var g := Layout(names, displayed, closed);
    forall k, c | 0 <= k < |g.nodes| && c in g.nodes[k].routings
      ensures Measured(g.nodes[k].routings[c])
    {
      EmptyMeasured(g.indices[c]);
    }
  }
}
