/** What the table of nodes and indices shows: the same columns in every row, and every entry of the
    routing table in one cell. */
module ShardCells {
  import opened Wrappers
  import opened ShardTable

  // ----- Columns -----

  /** Every row has one routing for each column, and the columns name the same index in all rows. */
  lemma SameColumns(names: seq<string>, displayed: seq<Index>, closed: seq<string>)
    ensures var g := Layout(names, displayed, closed);
            forall k | 0 <= k < |g.nodes| ::
              && (forall c: nat :: c in g.nodes[k].routings <==> c < |g.indices|)
              && (forall c | 0 <= c < |g.indices| :: g.nodes[k].routings[c].name == g.indices[c])
  {
    hide WithNodes, Laid, Entries;
    var g := Laid(WithNodes(EMPTY, names), Entries(displayed));
    AllAligned(g, closed);
    forall k | 0 <= k < |g.nodes|
      ensures var node := FilledRow(g.nodes[k], g.indices + closed);
              && (forall c: nat :: c in node.routings <==> c < |g.indices + closed|)
              && (forall c | 0 <= c < |g.indices + closed| :: node.routings[c].name == (g.indices + closed)[c])
    {
      assert Aligned(g.nodes[k], g.indices + closed);
    }
  }

  // ----- The cells of a node and an index -----

  function RoutingOf(g: Grid, n: string, i: string): Routing
    requires WellFormed(g)
  {
    if n in g.nodeIndices && i in g.indexIndices && g.indexIndices[i] in g.nodes[g.nodeIndices[n]].routings then
      g.nodes[g.nodeIndices[n]].routings[g.indexIndices[i]]
    else
      Routing(i, 0, map[])
  }

  lemma WithNodeRouting(g: Grid, m: string, n: string, i: string)
    requires WellFormed(g)
    ensures RoutingOf(WithNode(g, m), n, i) == RoutingOf(g, n, i)
  {
  }

  lemma WithIndexRouting(g: Grid, k: nat, j: string, n: string, i: string)
    requires WellFormed(g) && k < |g.nodes|
    ensures RoutingOf(WithIndex(g, k, j), n, i) == RoutingOf(g, n, i)
  {
    NotYet(g, k);
    if n in g.nodeIndices {
      NotYet(g, g.nodeIndices[n]);
    }
  }

  /** An entry changes what is shown for its own node and index only. */
  lemma PlacedRouting(g: Grid, e: Entry, n: string, i: string)
    requires WellFormed(g)
    ensures RoutingOf(Placed(g, e), n, i)
         == if n == NodeOf(e.replica) && i == e.replica.index then Added(RoutingOf(g, n, i), e) else RoutingOf(g, n, i)
  {
    hide Added, WithNode, WithIndex, Aligned;
    var m := NodeOf(e.replica);
    var g1 := WithNode(g, m);
    WithNodeRouting(g, m, n, i);
    WithIndexRouting(g1, g1.nodeIndices[m], e.replica.index, n, i);
  }

  // ----- Every entry in one cell -----

  predicate Assigned(r: Replica) {
    NodeOf(r) != "Unassigned"
  }

  /** Shards stand under their own numbers, and entries under their index and shard. */
  predicate KeysMatch(index: Index) {
    && (forall i, j | 0 <= i < j < |index.shards| :: index.shards[i].key != index.shards[j].key)
    && (forall i, k | 0 <= i < |index.shards| && 0 <= k < |index.shards[i].entries| ::
          var r := index.shards[i].entries[k];
          r.index == index.name && r.shard == index.shards[i].key)
  }

  /** Two copies of the same shard on the same node. */
  predicate SamePlace(r: Replica, r': Replica) {
    Assigned(r) && Assigned(r') && NodeOf(r) == NodeOf(r') && r.index == r'.index && r.shard == r'.shard
  }

  predicate NoDoubleCopies(entries: seq<Entry>) {
    forall i, j | 0 <= i < j < |entries| ::
      entries[i].replica != entries[j].replica && !SamePlace(entries[i].replica, entries[j].replica)
  }

  /** The entry is one of the entries that its index object has for its shard. */
  predicate Listed(e: Entry) {
    && e.replica.index == e.index.name && e.replica.shard >= 0
    && var entries := Under(e.index.shards, e.replica.shard);
       entries.Some? && e.replica in entries.value
  }

  lemma {:induction false} UnderKey(shards: seq<Shard>, i: nat)
    requires i < |shards| && forall j, k | 0 <= j < k < |shards| :: shards[j].key != shards[k].key
    ensures Under(shards, shards[i].key) == Some(shards[i].entries)
  {
    if i == 0 {
    } else {
      UnderKey(shards[1..], i - 1);
    }
  }

  lemma {:induction false} IndexListed(index: Index, n: nat)
    requires KeysMatch(index) && n <= |index.shards|
    ensures forall e | e in OfIndex(index, index.shards[..n]) :: e.index == index && Listed(e)
    ensures forall i, k | 0 <= i < n && 0 <= k < |index.shards[i].entries| ::
      Entry(index, index.shards[i].entries[k]) in OfIndex(index, index.shards[..n])
  {
    if n == 0 {
    } else {
      IndexListed(index, n - 1);
      UnderKey(index.shards, n - 1);
      assert index.shards[..n][..n - 1] == index.shards[..n - 1];
      var last := index.shards[n - 1].entries;
      assert OfIndex(index, index.shards[..n]) == OfIndex(index, index.shards[..n - 1]) + OfShard(index, last);
      forall k | 0 <= k < |last|
        ensures Entry(index, last[k]) in OfShard(index, last)
      {
        assert OfShard(index, last)[k] == Entry(index, last[k]);
      }
    }
  }

  predicate AllKeysMatch(displayed: seq<Index>) {
    forall i | 0 <= i < |displayed| :: KeysMatch(displayed[i])
  }

  /** The condition on the routing table: a caller can check it before the call. */
  predicate Proper(displayed: seq<Index>) {
    AllKeysMatch(displayed) && NoDoubleCopies(Entries(displayed))
  }

  /** The other entries of the shard are entries too. */
  ghost predicate Complete(entries: seq<Entry>) {
    forall e | e in entries :: Listed(e)
      && forall r | r in Under(e.index.shards, e.replica.shard).value ::
           Entry(e.index, r) in entries && r.shard == e.replica.shard
  }

  lemma {:induction false} EntriesComplete(displayed: seq<Index>)
    requires AllKeysMatch(displayed)
    ensures Complete(Entries(displayed))
  {
    hide KeysMatch;
    if displayed == [] {
    } else {
      var k := |displayed| - 1;
      var index := displayed[k];
      EntriesComplete(displayed[..k]);
      IndexComplete(index);
      assert forall e | e in Entries(displayed) :: e in Entries(displayed[..k]) || e in OfIndex(index, index.shards);
    }
  }

  lemma {:induction false} IndexComplete(index: Index)
    requires KeysMatch(index)
    ensures Complete(OfIndex(index, index.shards))
  {
    IndexListed(index, |index.shards|);
    assert index.shards[..|index.shards|] == index.shards;
    forall e, r | e in OfIndex(index, index.shards) && r in Under(e.index.shards, e.replica.shard).value
      ensures Entry(e.index, r) in OfIndex(index, index.shards) && r.shard == e.replica.shard
    {
      var i := UnderAt(index.shards, e.replica.shard);
      var k :| 0 <= k < |index.shards[i].entries| && index.shards[i].entries[k] == r;
    }
  }

  lemma {:induction false} UnderAt(shards: seq<Shard>, key: int) returns (i: nat)
    requires Under(shards, key).Some?
    ensures i < |shards| && shards[i].key == key && Under(shards, key).value == shards[i].entries
  {
    if shards[0].key == key {
      i := 0;
    } else {
      i := UnderAt(shards[1..], key);
      i := i + 1;
    }
  }

  lemma {:induction false} FirstOnOnly(entries: seq<Replica>, node: string, r: Replica)
    requires r in entries && r.node == Some(node)
    requires forall r' | r' in entries && r'.node == Some(node) :: r' == r
    ensures FirstOn(entries, node) == Some(r)
  {
    if entries[0].node == Some(node) {
      assert entries[0] in entries;
    } else {
      FirstOnOnly(entries[1..], node, r);
    }
  }

  lemma Distinct(entries: seq<Entry>, e: Entry, e': Entry)
    requires NoDoubleCopies(entries) && e in entries && e' in entries
    requires SamePlace(e.replica, e'.replica) || e.replica == e'.replica
    ensures e == e'
  {
    var i :| 0 <= i < |entries| && entries[i] == e;
    var j :| 0 <= j < |entries| && entries[j] == e';
  }

  /** The status that a cell gets is the entry itself: the node has no other copy of the shard. */
  lemma StatusIsEntry(entries: seq<Entry>, e: Entry)
    requires Complete(entries) && NoDoubleCopies(entries) && e in entries && Assigned(e.replica)
    ensures FirstOn(Under(e.index.shards, e.replica.shard).value, NodeOf(e.replica)) == Some(e.replica)
  {
    hide NoDoubleCopies;
    var list, node := Under(e.index.shards, e.replica.shard).value, NodeOf(e.replica);
    forall r' | r' in list && r'.node == Some(node)
      ensures r' == e.replica
    {
      assert Listed(Entry(e.index, r'));
      Distinct(entries, e, Entry(e.index, r'));
    }
    FirstOnOnly(list, node, e.replica);
  }

  /** What the routing of a node and an index shows when these entries have been placed. */
  ghost predicate Shows(routing: Routing, n: string, i: string, done: seq<Entry>) {
    && (forall s | s in routing.replicas ::
          && s < routing.length
          && (exists e | e in done :: e.replica == routing.replicas[s].replica)
          && GoodCell(routing.replicas[s], n, i, s))
    && (forall e | e in done && NodeOf(e.replica) == n && e.replica.index == i :: In(routing, e.replica))
    && (forall s, s' | s in routing.replicas && s' in routing.replicas && s != s' ::
          routing.replicas[s].replica != routing.replicas[s'].replica)
  }

  predicate GoodCell(cell: Cell, n: string, i: string, s: nat) {
    Located(cell, n, i, s) && (Assigned(cell.replica) ==> cell.status == Some(cell.replica))
  }

  predicate Located(cell: Cell, n: string, i: string, s: nat) {
    NodeOf(cell.replica) == n && cell.replica.index == i && (Assigned(cell.replica) ==> s == cell.replica.shard)
  }

  ghost predicate In(routing: Routing, r: Replica) {
    exists s :: s in routing.replicas && routing.replicas[s].replica == r
  }

  /** Where an entry goes. */
  function Slot(routing: Routing, r: Replica): int {
    if Assigned(r) then r.shard else routing.length
  }

  lemma {:induction false} SlotIsFree(routing: Routing, n: string, i: string, done: seq<Entry>, e: Entry)
    requires Shows(routing, n, i, done) && NodeOf(e.replica) == n && e.replica.index == i
    requires NoDoubleCopies(done + [e])
    ensures Slot(routing, e.replica) !in routing.replicas
    ensures forall s | s in routing.replicas :: routing.replicas[s].replica != e.replica
  {
    hide NoDoubleCopies;
    forall s | s in routing.replicas
      ensures s != Slot(routing, e.replica) && routing.replicas[s].replica != e.replica
    {
      var f :| f in done && f.replica == routing.replicas[s].replica;
      assert GoodCell(routing.replicas[s], n, i, s);
      LastDiffers(done, e, f);
    }
  }

  lemma AddedIs(routing: Routing, e: Entry)
    requires Listed(e)
    requires Assigned(e.replica) ==>
      FirstOn(Under(e.index.shards, e.replica.shard).value, NodeOf(e.replica)) == Some(e.replica)
    ensures var cell := Cell(e.replica, if Assigned(e.replica) then Some(e.replica) else None);
            var slot := Slot(routing, e.replica);
            && slot >= 0 && GoodCell(cell, NodeOf(e.replica), e.replica.index, slot)
            && Added(routing, e).replicas == routing.replicas[slot := cell]
            && Added(routing, e).length > slot && Added(routing, e).length >= routing.length
  {
  }

  lemma {:induction false} AddedShows(routing: Routing, n: string, i: string, done: seq<Entry>, e: Entry)
    requires Shows(routing, n, i, done) && NodeOf(e.replica) == n && e.replica.index == i
    requires Listed(e) && NoDoubleCopies(done + [e])
    requires Assigned(e.replica) ==>
      FirstOn(Under(e.index.shards, e.replica.shard).value, NodeOf(e.replica)) == Some(e.replica)
    ensures Shows(Added(routing, e), n, i, done + [e])
  {
    hide NoDoubleCopies, Listed, FirstOn, Under, Added, Slot;
    SlotIsFree(routing, n, i, done, e);
    AddedIs(routing, e);
    MoreShows(routing, Added(routing, e), Slot(routing, e.replica), n, i, done, e);
  }

  lemma {:induction false} MoreShows(routing: Routing, r: Routing, at: nat, n: string, i: string,
                                     done: seq<Entry>, e: Entry)
    requires Shows(routing, n, i, done) && at !in routing.replicas && at in r.replicas
    requires r.replicas == routing.replicas[at := r.replicas[at]] && r.length > at && r.length >= routing.length
    requires r.replicas[at].replica == e.replica && GoodCell(r.replicas[at], n, i, at)
    requires forall s | s in routing.replicas :: routing.replicas[s].replica != e.replica
    ensures Shows(r, n, i, done + [e])
  {
    hide GoodCell;
    assert e in done + [e] && forall f | f in done :: f in done + [e];
    forall f | f in done + [e] && NodeOf(f.replica) == n && f.replica.index == i
      ensures In(r, f.replica)
    {
      if f in done {
        var s :| s in routing.replicas && routing.replicas[s].replica == f.replica;
        assert r.replicas[s].replica == f.replica;
      } else {
        assert r.replicas[at].replica == f.replica;
      }
    }
  }

  lemma LastDiffers(done: seq<Entry>, e: Entry, f: Entry)
    requires NoDoubleCopies(done + [e]) && f in done
    ensures f.replica != e.replica && !SamePlace(f.replica, e.replica)
  {
    var i :| 0 <= i < |done| && done[i] == f;
    assert (done + [e])[i] == f && (done + [e])[|done|] == e;
  }

  lemma {:induction false} OtherShows(routing: Routing, n: string, i: string, done: seq<Entry>, e: Entry)
    requires Shows(routing, n, i, done) && !(NodeOf(e.replica) == n && e.replica.index == i)
    ensures Shows(routing, n, i, done + [e])
  {
    forall s | s in routing.replicas
      ensures exists f | f in done + [e] :: f.replica == routing.replicas[s].replica
    {
      var f :| f in done && f.replica == routing.replicas[s].replica;
      assert f in done + [e];
    }
  }

  lemma EmptyWellFormed()
    ensures WellFormed(EMPTY)
  {
  }

  /** After any part of the loops, every routing shows the entries so far that are its own. */
  lemma {:induction false} LaidShows(names: seq<string>, entries: seq<Entry>, m: nat, n: string, i: string)
    requires Complete(entries) && NoDoubleCopies(entries) && m <= |entries|
    ensures Shows(RoutingOf(Laid(WithNodes(EMPTY, names), entries[..m]), n, i), n, i, entries[..m])
  {
    hide Complete, NoDoubleCopies, Added, RoutingOf, Shows, Placed, Listed, FirstOn, WellFormed;
    EmptyWellFormed();
    if m == 0 {
      NothingShown(names, n, i);
    } else {
      var done, e := entries[..m - 1], entries[m - 1];
      LaidShows(names, entries, m - 1, n, i);
      assert entries[..m][..m - 1] == done && entries[..m] == done + [e];
      var g := Laid(WithNodes(EMPTY, names), done);
      PlacedRouting(g, e, n, i);
      if NodeOf(e.replica) == n && e.replica.index == i {
        PartOf(entries, m);
        if Assigned(e.replica) {
          StatusIsEntry(entries, e);
        }
        AddedShows(RoutingOf(g, n, i), n, i, done, e);
      } else {
        OtherShows(RoutingOf(g, n, i), n, i, done, e);
      }
    }
  }

  lemma PartOf(entries: seq<Entry>, m: nat)
    requires Complete(entries) && NoDoubleCopies(entries) && 0 < m <= |entries|
    ensures entries[m - 1] in entries && Listed(entries[m - 1]) && NoDoubleCopies(entries[..m])
  {
  }

  lemma {:induction false} NothingShown(names: seq<string>, n: string, i: string)
    ensures Laid(WithNodes(EMPTY, names), []) == WithNodes(EMPTY, names)
    ensures RoutingOf(WithNodes(EMPTY, names), n, i).replicas == map[]
    ensures Shows(RoutingOf(WithNodes(EMPTY, names), n, i), n, i, [])
  {
    if names == [] {
    } else {
      var front := names[..|names| - 1];
      NothingShown(front, n, i);
      WithNodeRouting(WithNodes(EMPTY, front), names[|names| - 1], n, i);
    }
  }

  // ----- The finished table -----

  /** The cell in row k, column c and slot s shows this entry. */
  predicate CellShows(g: Grid, k: nat, c: nat, s: nat, r: Replica) {
    && k < |g.nodes| && c in g.nodes[k].routings && s in g.nodes[k].routings[c].replicas
    && g.nodes[k].routings[c].replicas[s].replica == r
  }

  /** And no other cell does. */
  ghost predicate OnlyAt(g: Grid, k: nat, c: nat, s: nat, r: Replica) {
    && CellShows(g, k, c, s, r)
    && forall k', c', s' | CellShows(g, k', c', s', r) :: k' == k && c' == c && s' == s
  }

  ghost predicate InOneCell(g: Grid, r: Replica) {
    exists k, c, s :: OnlyAt(g, k, c, s, r)
  }

  lemma FilledCells(g: Grid, closed: seq<string>, k: nat, c: nat, s: nat, r: Replica)
    requires WellFormed(g)
    ensures CellShows(Filled(g, closed), k, c, s, r) <==> CellShows(g, k, c, s, r)
  {
    AllAligned(g, closed);
    if k < |g.nodes| {
      assert Aligned(g.nodes[k], g.indices + closed);
    }
  }

  /** Row and column of a cell are those of its entry. */
  lemma CellAt(g: Grid, entries: seq<Entry>, k: nat, c: nat, s: nat, r: Replica)
    requires WellFormed(g) && CellShows(g, k, c, s, r)
    requires Shows(RoutingOf(g, g.nodes[k].name, g.indices[c]), g.nodes[k].name, g.indices[c], entries)
    ensures NodeOf(r) in g.nodeIndices && k == g.nodeIndices[NodeOf(r)]
    ensures r.index in g.indexIndices && c == g.indexIndices[r.index]
    ensures exists e | e in entries :: e.replica == r
    ensures s in RoutingOf(g, NodeOf(r), r.index).replicas && RoutingOf(g, NodeOf(r), r.index).replicas[s].replica == r
    ensures GoodCell(g.nodes[k].routings[c].replicas[s], g.nodes[k].name, g.indices[c], s)
  {
    assert Aligned(g.nodes[k], g.indices);
  }

  /** If shards and entries stand under their own keys, and no node holds two copies of one shard, then
      every entry of an index that is shown is in exactly one cell. */
  lemma EveryEntryOnce(names: seq<string>, displayed: seq<Index>, closed: seq<string>, e: Entry)
    requires Proper(displayed) && e in Entries(displayed)
    ensures InOneCell(Layout(names, displayed, closed), e.replica)
  {
    hide Entries, Laid, WithNodes, Shows, OnlyAt, CellShows, Proper, WellFormed, Complete, NoDoubleCopies;
    var entries := Entries(displayed);
    EmptyWellFormed();
    var g := Laid(WithNodes(EMPTY, names), entries);
    forall n, i
      ensures Shows(RoutingOf(g, n, i), n, i, entries)
    {
      Shown(names, displayed, n, i);
    }
    var k, c, s := ItsCell(g, entries, e);
    forall k', c', s' | CellShows(Filled(g, closed), k', c', s', e.replica)
      ensures k' == k && c' == c && s' == s
    {
      FilledCells(g, closed, k', c', s', e.replica);
      SameCell(g, entries, e.replica, k, c, s, k', c', s');
    }
    FilledCells(g, closed, k, c, s, e.replica);
    assert OnlyAt(Filled(g, closed), k, c, s, e.replica) by { OneCell(Filled(g, closed), k, c, s, e.replica); }
  }

  lemma OneCell(g: Grid, k: nat, c: nat, s: nat, r: Replica)
    requires CellShows(g, k, c, s, r)
    requires forall k', c', s' | CellShows(g, k', c', s', r) :: k' == k && c' == c && s' == s
    ensures OnlyAt(g, k, c, s, r)
  {
  }

  /** Every cell shows an entry: in the row of its node, the column of its index and, if it has a node,
      in the place of its shard, with itself as the status. */
  lemma EveryCellIsAnEntry(names: seq<string>, displayed: seq<Index>, closed: seq<string>,
                           k: nat, c: nat, s: nat, r: Replica)
    requires Proper(displayed) && CellShows(Layout(names, displayed, closed), k, c, s, r)
    ensures exists e | e in Entries(displayed) :: e.replica == r
    ensures var g := Layout(names, displayed, closed);
            c < |g.indices| && GoodCell(g.nodes[k].routings[c].replicas[s], g.nodes[k].name, g.indices[c], s)
  {
    hide Entries, Laid, WithNodes, Shows, Proper, WellFormed, RoutingOf;
    EmptyWellFormed();
    var entries := Entries(displayed);
    var g := Laid(WithNodes(EMPTY, names), entries);
    FilledCells(g, closed, k, c, s, r);
    ColumnInRange(g, k, c);
    Shown(names, displayed, g.nodes[k].name, g.indices[c]);
    CellAt(g, entries, k, c, s, r);
  }

  lemma ColumnInRange(g: Grid, k: nat, c: nat)
    requires WellFormed(g) && k < |g.nodes| && c in g.nodes[k].routings
    ensures c < |g.indices|
  {
    assert Aligned(g.nodes[k], g.indices);
  }

  lemma Shown(names: seq<string>, displayed: seq<Index>, n: string, i: string)
    requires Proper(displayed)
    ensures var entries := Entries(displayed);
            WellFormed(EMPTY) && Shows(RoutingOf(Laid(WithNodes(EMPTY, names), entries), n, i), n, i, entries)
  {
    hide Shows, Laid, WithNodes, RoutingOf, Complete, NoDoubleCopies, KeysMatch, Entries;
    var entries := Entries(displayed);
    EntriesComplete(displayed);
    LaidShows(names, entries, |entries|, n, i);
    assert entries[..|entries|] == entries;
  }

  lemma ItsCell(g: Grid, entries: seq<Entry>, e: Entry) returns (k: nat, c: nat, s: nat)
    requires WellFormed(g) && e in entries
    requires Shows(RoutingOf(g, NodeOf(e.replica), e.replica.index), NodeOf(e.replica), e.replica.index, entries)
    ensures CellShows(g, k, c, s, e.replica)
  {
    var routing := RoutingOf(g, NodeOf(e.replica), e.replica.index);
    assert In(routing, e.replica);
    var t :| t in routing.replicas && routing.replicas[t].replica == e.replica;
    k, c, s := g.nodeIndices[NodeOf(e.replica)], g.indexIndices[e.replica.index], t;
  }

  lemma SameCell(g: Grid, entries: seq<Entry>, r: Replica, k: nat, c: nat, s: nat, k': nat, c': nat, s': nat)
    requires WellFormed(g) && CellShows(g, k, c, s, r) && CellShows(g, k', c', s', r)
    requires forall n, i :: Shows(RoutingOf(g, n, i), n, i, entries)
    ensures k' == k && c' == c && s' == s
  {
    hide WellFormed, RoutingOf;
    ColumnInRange(g, k, c);
    ColumnInRange(g, k', c');
    CellAt(g, entries, k, c, s, r);
    CellAt(g, entries, k', c', s', r);
    assert Shows(RoutingOf(g, NodeOf(r), r.index), NodeOf(r), r.index, entries);
  }

  // ----- Copies that hide each other -----

  predicate AllDiffer(entries: seq<Entry>) {
    forall i, j | 0 <= i < j < |entries| :: entries[i].replica != entries[j].replica
  }

  ghost predicate AllLocated(routing: Routing, n: string, i: string) {
    forall s | s in routing.replicas :: Located(routing.replicas[s], n, i, s)
  }

  lemma {:induction false} LaidLocated(names: seq<string>, entries: seq<Entry>, n: string, i: string)
    requires forall e | e in entries :: Listed(e)
    ensures WellFormed(EMPTY)
    ensures AllLocated(RoutingOf(Laid(WithNodes(EMPTY, names), entries), n, i), n, i)
  {
    hide Added, RoutingOf, Placed, Listed, WellFormed, AllLocated;
    EmptyWellFormed();
    if entries == [] {
      NothingShown(names, n, i);
      NothingLocated(RoutingOf(WithNodes(EMPTY, names), n, i), n, i);
    } else {
      var done, e := entries[..|entries| - 1], entries[|entries| - 1];
      assert e in entries && forall f | f in done :: f in entries;
      LaidLocated(names, done, n, i);
      var g := Laid(WithNodes(EMPTY, names), done);
      PlacedRouting(g, e, n, i);
      if NodeOf(e.replica) == n && e.replica.index == i {
        AddedLocated(RoutingOf(g, n, i), n, i, e);
      }
    }
  }

  lemma NothingLocated(routing: Routing, n: string, i: string)
    requires routing.replicas == map[]
    ensures AllLocated(routing, n, i)
  {
  }

  lemma AddedLocated(routing: Routing, n: string, i: string, e: Entry)
    requires AllLocated(routing, n, i) && Listed(e) && NodeOf(e.replica) == n && e.replica.index == i
    ensures AllLocated(Added(routing, e), n, i)
  {
  }

  lemma PlaceOf(g: Grid, k: nat, c: nat, s: nat, r: Replica)
    requires WellFormed(g) && CellShows(g, k, c, s, r)
    requires AllLocated(RoutingOf(g, g.nodes[k].name, g.indices[c]), g.nodes[k].name, g.indices[c])
    ensures NodeOf(r) in g.nodeIndices && k == g.nodeIndices[NodeOf(r)]
    ensures r.index in g.indexIndices && c == g.indexIndices[r.index]
    ensures Assigned(r) ==> s == r.shard
  {
    assert Aligned(g.nodes[k], g.indices);
  }

  /** Of two copies of one shard on one node, the table shows at most one. */
  lemma HiddenCopy(names: seq<string>, displayed: seq<Index>, closed: seq<string>, e: Entry, e': Entry,
                   k: nat, c: nat, s: nat, k': nat, c': nat, s': nat)
    requires AllKeysMatch(displayed) && e in Entries(displayed) && e' in Entries(displayed)
    requires e.replica != e'.replica && SamePlace(e.replica, e'.replica)
    ensures var g := Layout(names, displayed, closed);
            !CellShows(g, k, c, s, e.replica) || !CellShows(g, k', c', s', e'.replica)
  {
    hide Entries, Laid, WithNodes, KeysMatch, RoutingOf, WellFormed, CellShows, AllLocated, Filled;
    EmptyWellFormed();
    var entries := Entries(displayed);
    EntriesComplete(displayed);
    var g := Filled(Laid(WithNodes(EMPTY, names), entries), closed);
    if CellShows(g, k, c, s, e.replica) && CellShows(g, k', c', s', e'.replica) {
      PlaceShown(names, entries, closed, k, c, s, e.replica);
      PlaceShown(names, entries, closed, k', c', s', e'.replica);
      assert k == k' && c == c' && s == s';
      OneReplica(g, k, c, s, e.replica, e'.replica);
    }
  }

  lemma OneReplica(g: Grid, k: nat, c: nat, s: nat, r: Replica, r': Replica)
    requires CellShows(g, k, c, s, r) && CellShows(g, k, c, s, r')
    ensures r == r'
  {
  }

  lemma PlaceShown(names: seq<string>, entries: seq<Entry>, closed: seq<string>, k: nat, c: nat, s: nat, r: Replica)
    requires WellFormed(EMPTY) && forall e | e in entries :: Listed(e)
    requires CellShows(Filled(Laid(WithNodes(EMPTY, names), entries), closed), k, c, s, r)
    ensures var g := Laid(WithNodes(EMPTY, names), entries);
            && NodeOf(r) in g.nodeIndices && k == g.nodeIndices[NodeOf(r)]
            && r.index in g.indexIndices && c == g.indexIndices[r.index]
            && (Assigned(r) ==> s == r.shard)
  {
    hide Laid, WithNodes, RoutingOf, WellFormed, AllLocated, Filled, Listed;
    var g := Laid(WithNodes(EMPTY, names), entries);
    FilledCells(g, closed, k, c, s, r);
    ColumnInRange(g, k, c);
    LaidLocated(names, entries, g.nodes[k].name, g.indices[c]);
    PlaceOf(g, k, c, s, r);
  }

  /** With matching keys, the table shows every entry in exactly one cell if and only if no node holds
      two copies of one shard. */
  lemma EveryEntryOnceExactly(names: seq<string>, displayed: seq<Index>, closed: seq<string>)
    requires AllKeysMatch(displayed) && AllDiffer(Entries(displayed))
    ensures (forall e | e in Entries(displayed) :: InOneCell(Layout(names, displayed, closed), e.replica))
            <==> NoDoubleCopies(Entries(displayed))
  {
    hide Layout, InOneCell, KeysMatch, Entries, SamePlace;
    var entries := Entries(displayed);
    if NoDoubleCopies(entries) {
      forall e | e in entries
        ensures InOneCell(Layout(names, displayed, closed), e.replica)
      {
        EveryEntryOnce(names, displayed, closed, e);
      }
    } else {
      var i, j :| 0 <= i < j < |entries| && SamePlace(entries[i].replica, entries[j].replica);
      assert entries[i] in entries && entries[j] in entries;
      NotBothInOneCell(names, displayed, closed, entries[i], entries[j]);
    }
  }

  lemma NotBothInOneCell(names: seq<string>, displayed: seq<Index>, closed: seq<string>, e: Entry, e': Entry)
    requires AllKeysMatch(displayed) && e in Entries(displayed) && e' in Entries(displayed)
    requires e.replica != e'.replica && SamePlace(e.replica, e'.replica)
    ensures var g := Layout(names, displayed, closed);
            !InOneCell(g, e.replica) || !InOneCell(g, e'.replica)
  {
    hide Layout, AllKeysMatch, Entries, CellShows, SamePlace;
    var g := Layout(names, displayed, closed);
    if InOneCell(g, e.replica) && InOneCell(g, e'.replica) {
      var k, c, s :| OnlyAt(g, k, c, s, e.replica);
      var k', c', s' :| OnlyAt(g, k', c', s', e'.replica);
      HiddenCopy(names, displayed, closed, e, e', k, c, s, k', c', s');
    }
  }
}
