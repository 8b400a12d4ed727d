/** Sizzle's evaluation of combinators on a whole set of candidates, with the marks that it leaves
    on nodes so that no stretch of links is walked twice. */
module SelectorEngine {
  import opened Selectors
  import opened GreedySelectors

  /** An entry of checkSet: false, true, or a node. */
  datatype Entry = No | Yes | At(k: int)

  /** A value given to each node: what a walk that reaches it should leave. */
  type Test = int -> Entry

  /** Naive search: the first value from node k on, k included. */
  function Search(t: Tree, dir: Direction, test: Test, k: int): (r: Entry)
    requires IsTree(t) && -1 <= k < |t|
    decreases k
  {
    if k < 0 then No else if test(k) != No then test(k) else Search(t, dir, test, Link(t, dir, k))
  }

  predicate InTree(t: Tree, e: Entry) {
    e.At? ==> 0 <= e.k < |t|
  }

  /** Naive search from the node after an entry's. */
  function Found(t: Tree, dir: Direction, test: Test, e: Entry): (r: Entry)
    requires IsTree(t) && InTree(t, e)
  {
    if e.At? then Search(t, dir, test, Link(t, dir, e.k)) else No
  }

  /** What Sizzle writes on a node. */
  class Marks {
    var sizcache: int
    var sizset: int
  }

  /** A document, the marks of its nodes, and the counter from which every search takes its name. */
  class Page {
    const tree: Tree
    const nodes: seq<Marks>
    var done: int

    ghost predicate Valid()
      reads this, nodes
    {
      WellFormed() && forall n | n in nodes :: n.sizcache < done
    }

    ghost predicate WellFormed() {
      IsTree(tree) && |nodes| == |tree| && forall i, j | 0 <= i < j < |nodes| :: nodes[i] != nodes[j]
    }

    /** If node k is marked by this search, its mark is the position of the result of walking on from it. */
    ghost predicate Memo(dir: Direction, test: Test, doneName: int, results: seq<Entry>, k: int)
      requires WellFormed() && 0 <= k < |nodes|
      reads nodes
    {
      nodes[k].sizcache == doneName ==>
        0 <= nodes[k].sizset < |results| && results[nodes[k].sizset] == Search(tree, dir, test, k)
    }

    /** The walk for one entry: it stops at a node that this search has marked or that passes the test. */
    method Walk(dir: Direction, test: Test, doneName: int, checkSet: array<Entry>, i: nat, isXML: bool)
      returns (match_: Entry)
      requires WellFormed() && i < checkSet.Length && InTree(tree, checkSet[i])
      requires forall k | 0 <= k < |nodes| :: Memo(dir, test, doneName, checkSet[..i], k)
      modifies nodes
      ensures match_ == Found(tree, dir, test, checkSet[i])
      ensures forall k | 0 <= k < |nodes| :: Memo(dir, test, doneName, checkSet[..i] + [match_], k)
      ensures forall n | n in nodes :: n.sizcache == old(n.sizcache) || n.sizcache == doneName
    {
      match_ := No;
      var k := if checkSet[i].At? then Link(tree, dir, checkSet[i].k) else -1;
      ghost var results := checkSet[..i] + [Found(tree, dir, test, checkSet[i])];
      ghost var before := checkSet[..i];
      forall l | 0 <= l < |nodes|
        ensures Memo(dir, test, doneName, results, l)
        ensures nodes[l].sizcache == doneName ==> nodes[l].sizset < i
      {
        assert Memo(dir, test, doneName, before, l);
      }
      while k >= 0
        invariant -1 <= k < |tree| && match_ == No
        invariant Search(tree, dir, test, k) == results[i]
        invariant forall n | n in nodes :: n.sizcache == old(n.sizcache) || n.sizcache == doneName
        invariant forall l | 0 <= l < |nodes| :: Memo(dir, test, doneName, results, l)
        invariant forall l | 0 <= l <= k :: nodes[l].sizcache == doneName ==> nodes[l].sizset < i
        decreases k
      {
        if nodes[k].sizcache == doneName {
          assert Memo(dir, test, doneName, results, k);
          match_ := checkSet[nodes[k].sizset];
          break;
        }
        label Unmarked:
        if tree[k].nodeType == ELEMENT && !isXML {
          nodes[k].sizcache := doneName;
          nodes[k].sizset := i;
          assert Memo(dir, test, doneName, results, k);
          forall l | 0 <= l < |nodes| && l != k
            ensures Memo(dir, test, doneName, results, l)
          {
            assert old@Unmarked(Memo(dir, test, doneName, results, l));
            assert nodes[l] != nodes[k];
          }
        }
        if test(k) != No {
          match_ := test(k);
          break;
        }
        k := Link(tree, dir, k);
      }
    }

    /** dirNodeCheck and dirCheck, which differ in the test only: marks that are not of this search
        are never believed, and those that are lead to what the naive search finds. */
    method Check(dir: Direction, test: Test, doneName: int, checkSet: array<Entry>, isXML: bool)
      requires WellFormed()
      requires forall n | n in nodes :: n.sizcache != doneName
      requires forall i | 0 <= i < checkSet.Length :: InTree(tree, checkSet[i])
      modifies checkSet, nodes
      ensures forall i | 0 <= i < checkSet.Length :: checkSet[i] == Found(tree, dir, test, old(checkSet[i]))
      ensures forall n | n in nodes :: n.sizcache == old(n.sizcache) || n.sizcache == doneName
    {
      for i := 0 to checkSet.Length
        invariant forall j | 0 <= j < i :: checkSet[j] == Found(tree, dir, test, old(checkSet[j]))
        invariant forall j | i <= j < checkSet.Length :: checkSet[j] == old(checkSet[j])
        invariant forall n | n in nodes :: n.sizcache == old(n.sizcache) || n.sizcache == doneName
        invariant forall k | 0 <= k < |nodes| :: Memo(dir, test, doneName, checkSet[..i], k)
      {
        if checkSet[i] != No {
          var match_ := Walk(dir, test, doneName, checkSet, i, isXML);
          ghost var results := checkSet[..i] + [match_];
          checkSet[i] := match_;
          assert checkSet[..i + 1] == results;
        } else {
          ghost var before, results := checkSet[..i], checkSet[..i + 1];
          assert results == before + [No];
          forall k | 0 <= k < |nodes|
            ensures Memo(dir, test, doneName, results, k)
          {
            assert Memo(dir, test, doneName, before, k);
          }
        }
      }
    }

    // ----- The four combinators, for a part that is a tag -----

    ghost predicate Ready(s: Step, checkSet: array<Entry>)
      reads this, nodes, checkSet
    {
      Valid() && IsTag(s.tag) && forall i | 0 <= i < checkSet.Length :: IsCandidate(tree, checkSet[i])
    }

    /** The combinators "" and "~": each search takes a name that no mark carries yet. */
    method Along(dir: Direction, s: Step, checkSet: array<Entry>, isXML: bool)
      requires Ready(s, checkSet) && s.c == (if dir.ParentNode? then Descendant else Sibling)
      modifies this, checkSet, nodes
      ensures Ready(s, checkSet)
      ensures forall i | 0 <= i < checkSet.Length :: checkSet[i] == Next(tree, s, old(checkSet[i]))
    {
      var doneName := done;
      done := done + 1;
      Check(dir, NameTest(tree, s.tag), doneName, checkSet, isXML);
      forall i | 0 <= i < checkSet.Length
        ensures checkSet[i] == Next(tree, s, old(checkSet[i]))
      {
        FoundIsNext(tree, dir, s, old(checkSet[i]));
      }
    }

    /** The combinator ">", which fails on a node that has no parent. */
    method ToParent(s: Step, checkSet: array<Entry>) returns (ok: bool)
      requires Ready(s, checkSet) && s.c == Child
      modifies checkSet
      ensures Ready(s, checkSet)
      ensures ok <==> forall i | 0 <= i < checkSet.Length :: !FailsAt(tree, s, old(checkSet[i]))
      ensures ok ==> forall i | 0 <= i < checkSet.Length :: checkSet[i] == Next(tree, s, old(checkSet[i]))
    {
      for i := 0 to checkSet.Length
        invariant forall j | 0 <= j < i ::
          checkSet[j] == Next(tree, s, old(checkSet[j])) && !FailsAt(tree, s, old(checkSet[j]))
        invariant forall j | i <= j < checkSet.Length :: checkSet[j] == old(checkSet[j])
      {
        if checkSet[i].At? {
          var parent := tree[checkSet[i].k].parent;
          if parent < 0 {
            return false;
          }
          checkSet[i] := if Named(tree[parent], s.tag) then At(parent) else No;
        }
      }
      ok := true;
    }

    /** The combinator "+". */
    method ToPrevious(s: Step, checkSet: array<Entry>)
      requires Ready(s, checkSet) && s.c == Adjacent
      modifies checkSet
      ensures Ready(s, checkSet)
      ensures forall i | 0 <= i < checkSet.Length :: checkSet[i] == Next(tree, s, old(checkSet[i]))
    {
      for i := 0 to checkSet.Length
        invariant forall j | 0 <= j < i :: checkSet[j] == Next(tree, s, old(checkSet[j]))
        invariant forall j | i <= j < checkSet.Length :: checkSet[j] == old(checkSet[j])
      {
        if checkSet[i].At? {
          var elem := tree[checkSet[i].k].prev;
          while elem >= 0 && tree[elem].nodeType != ELEMENT
            invariant -1 <= elem < |tree|
            invariant FirstElement(tree, elem) == FirstElement(tree, tree[checkSet[i].k].prev)
          {
            elem := tree[elem].prev;
          }
          checkSet[i] := if elem >= 0 && Named(tree[elem], s.tag) then At(elem) else No;
        }
      }
    }

    /** The loop over the parts of a selector, from right to left, on a copy of the nodes that were found
        for the last part, and the choice of those that are returned. */
    method Evaluate(chain: seq<Step>, found: seq<int>, isXML: bool) returns (ok: bool, results: seq<int>)
      requires Valid() && IsChain(chain) && AreNodes(tree, found)
      modifies this, nodes
      ensures Valid()
      ensures ok <==> forall k | k in found :: !Throws(tree, chain, k)
      ensures ok ==> results == KeptOf(tree, chain, found)
      ensures ok && NoDetour(tree, TagsOf(chain)) ==>
                forall k | k in results && tree[k].nodeType == ELEMENT :: k in found && Matches(tree, chain, k)
      ensures ok && NoShadow(tree, TagsOf(chain), Searches(Combinators(chain))) && Forgiving(Combinators(chain)) ==>
                forall k | k in found && tree[k].nodeType == ELEMENT && Matches(tree, chain, k) :: k in results
    {
      var checkSet := new Entry[|found|](i requires 0 <= i < |found| => EntryOf(found[i]));
      results := [];
      ok := Narrow(chain, found, checkSet, isXML);
      if !ok {
        return;
      }
      for i := 0 to |found|
        invariant results == KeptOf(tree, chain, found[..i])
      {
        assert found[..i + 1][..i] == found[..i];
        if chain == [] || (checkSet[i].At? && tree[checkSet[i].k].nodeType == ELEMENT) {
          results := results + [found[i]];
        }
      }
      assert found[..|found|] == found;
      KeptAreMatches(tree, chain, found);
    }

    method Narrow(chain: seq<Step>, ghost found: seq<int>, checkSet: array<Entry>, isXML: bool) returns (ok: bool)
      requires Valid() && IsChain(chain) && AreNodes(tree, found) && checkSet.Length == |found|
      requires forall i | 0 <= i < |found| :: checkSet[i] == At(found[i])
      modifies this, checkSet, nodes
      ensures Valid()
      ensures ok <==> forall k | k in found :: !Throws(tree, chain, k)
      ensures ok ==> forall i | 0 <= i < |found| :: checkSet[i] == EntryOf(Greedy(tree, chain, found[i]))
    {
      for n := 0 to |chain|
        invariant Valid()
        invariant forall i | 0 <= i < checkSet.Length :: IsCandidate(tree, checkSet[i])
        invariant forall i | 0 <= i < |found| :: SameEnd(tree, chain[n..], checkSet[i], chain, At(found[i]))
      {
        var s := chain[n];
        assert s in chain && chain[n..][1..] == chain[n + 1..];
        ghost var before := checkSet[..];
        match s.c {
          case Descendant => Along(ParentNode, s, checkSet, isXML);
          case Sibling => Along(PreviousSibling, s, checkSet, isXML);
          case Child =>
            var attached := ToParent(s, checkSet);
            if !attached {
              ghost var i :| 0 <= i < |found| && FailsAt(tree, s, before[i]);
              assert EndThrows(tree, chain[n..], before[i]) && found[i] in found;
              return false;
            }
          case Adjacent => ToPrevious(s, checkSet);
        }
        forall i | 0 <= i < |found|
          ensures SameEnd(tree, chain[n + 1..], checkSet[i], chain, At(found[i]))
        {
          assert checkSet[i] == Next(tree, s, before[i]);
          assert SameEnd(tree, chain[n..], before[i], chain, At(found[i]));
          AfterNext(tree, chain[n..], before[i]);
        }
      }
      assert chain[|chain|..] == [];
      forall k | k in found
        ensures !Throws(tree, chain, k)
      {
        var i :| 0 <= i < |found| && found[i] == k;
        assert SameEnd(tree, [], checkSet[i], chain, At(found[i]));
      }
      forall i | 0 <= i < |found|
        ensures checkSet[i] == EntryOf(Greedy(tree, chain, found[i]))
      {
        assert SameEnd(tree, [], checkSet[i], chain, At(found[i]));
      }
      ok := true;
    }
  }

  /** False, or a node: what checkSet holds between tag combinators. */
  predicate IsCandidate(t: Tree, e: Entry) {
    e == No || (e.At? && 0 <= e.k < |t|)
  }

  predicate AreNodes(t: Tree, found: seq<int>) {
    forall i | 0 <= i < |found| :: 0 <= found[i] < |t|
  }

  /** The step raises an exception on the entry. */
  predicate FailsAt(t: Tree, s: Step, e: Entry)
    requires IsCandidate(t, e)
  {
    e.At? && s.c.Child? && t[e.k].parent < 0
  }

  predicate EndThrows(t: Tree, chain: seq<Step>, e: Entry)
    requires IsTree(t) && IsCandidate(t, e)
  {
    e.At? && Throws(t, chain, e.k)
  }

  /** Two chains come to the same from two entries. */
  predicate SameEnd(t: Tree, chain: seq<Step>, e: Entry, chain': seq<Step>, e': Entry)
    requires IsTree(t) && IsCandidate(t, e) && IsCandidate(t, e')
  {
    After(t, chain, e) == After(t, chain', e') && EndThrows(t, chain, e) == EndThrows(t, chain', e')
  }

  /** The nodes that are kept, in order. */
  function KeptOf(t: Tree, chain: seq<Step>, found: seq<int>): (r: seq<int>)
    requires IsTree(t) && AreNodes(t, found)
    ensures forall k :: k in r <==> k in found && Kept(t, chain, k)
  {
    if found == [] then []
    else
      var i := |found| - 1;
      assert found == found[..i] + [found[i]];
      KeptOf(t, chain, found[..i]) + if Kept(t, chain, found[i]) then [found[i]] else []
  }

  /** They are taken one by one, in the order in which they were found. */
  lemma {:induction false} KeptInOrder(t: Tree, chain: seq<Step>, found: seq<int>, more: seq<int>, k: int)
    requires IsTree(t) && AreNodes(t, found) && AreNodes(t, more) && 0 <= k < |t|
    ensures KeptOf(t, chain, found + more) == KeptOf(t, chain, found) + KeptOf(t, chain, more)
    ensures KeptOf(t, chain, [k]) == if Kept(t, chain, k) then [k] else []
    decreases |more|
  {
    hide Kept;
    assert [k][..0] == [];
    if more == [] {
      assert found + more == found;
    } else {
      var i := |more| - 1;
      KeptInOrder(t, chain, found, more[..i], k);
      assert (found + more)[..|found + more| - 1] == found + more[..i];
    }
  }

  ghost function TagsOf(chain: seq<Step>): (tags: iset<string>)
    ensures Uses(chain, tags)
  {
    iset s | s in chain :: s.tag
  }

  lemma {:induction false} KeptAreMatches(t: Tree, chain: seq<Step>, found: seq<int>)
    requires IsTree(t) && AreNodes(t, found)
    ensures NoDetour(t, TagsOf(chain)) ==>
              forall k | k in KeptOf(t, chain, found) && t[k].nodeType == ELEMENT :: Matches(t, chain, k)
    ensures NoShadow(t, TagsOf(chain), Searches(Combinators(chain))) && Forgiving(Combinators(chain)) ==>
              forall k | k in found && t[k].nodeType == ELEMENT && Matches(t, chain, k) :: k in KeptOf(t, chain, found)
  {
    hide Matches, Kept, NoDetour, NoShadow;
    forall k | k in found && t[k].nodeType == ELEMENT
      ensures NoDetour(t, TagsOf(chain)) && Kept(t, chain, k) ==> Matches(t, chain, k)
      ensures NoShadow(t, TagsOf(chain), Searches(Combinators(chain))) && Forgiving(Combinators(chain)) ==>
                Matches(t, chain, k) ==> Kept(t, chain, k)
    {
      if NoDetour(t, TagsOf(chain)) {
        GreedySound(t, TagsOf(chain), chain, k);
      }
      var cs := Combinators(chain);
      if NoShadow(t, TagsOf(chain), Searches(cs)) && Forgiving(cs) && Matches(t, chain, k) {
        GreedyComplete(t, TagsOf(chain), chain, k);
      }
    }
  }

  function EntryOf(k: int): Entry {
    if k < 0 then No else At(k)
  }

  /** What a step makes of an entry. */
  function Next(t: Tree, s: Step, e: Entry): (r: Entry)
    requires IsTree(t) && IsTag(s.tag) && IsCandidate(t, e)
    ensures IsCandidate(t, r)
  {
    if e.At? then
      var m := Candidate(t, s, e.k);
      EntryOf(m)
    else No
  }

  /** What a chain makes of an entry. */
  function After(t: Tree, chain: seq<Step>, e: Entry): Entry
    requires IsTree(t) && IsCandidate(t, e)
  {
    if e.At? then EntryOf(Greedy(t, chain, e.k)) else No
  }

  lemma AfterNext(t: Tree, chain: seq<Step>, e: Entry)
    requires IsTree(t) && chain != [] && IsTag(chain[0].tag) && IsCandidate(t, e)
    ensures After(t, chain[1..], Next(t, chain[0], e)) == After(t, chain, e)
    ensures EndThrows(t, chain, e) <==> FailsAt(t, chain[0], e) || EndThrows(t, chain[1..], Next(t, chain[0], e))
  {
    if e.At? {
      var m := Candidate(t, chain[0], e.k);
      assert Throws(t, chain, e.k) <==> FailsAt(t, chain[0], e) || Throws(t, chain[1..], m);
      assert m < 0 ==> !Throws(t, chain[1..], m);
    }
  }

  function NameTest(t: Tree, tag: string): Test {
    k => if 0 <= k < |t| && Named(t[k], tag) then At(k) else No
  }

  lemma {:induction false} SearchIsNearest(t: Tree, dir: Direction, tag: string, k: int)
    requires IsTree(t) && -1 <= k < |t|
    ensures Search(t, dir, NameTest(t, tag), k) == EntryOf(Nearest(t, dir, k, tag))
    decreases k
  {
    if k < 0 || Named(t[k], tag) {
    } else {
      SearchIsNearest(t, dir, tag, Link(t, dir, k));
    }
  }

  lemma FoundIsNext(t: Tree, dir: Direction, s: Step, e: Entry)
    requires IsTree(t) && IsTag(s.tag) && IsCandidate(t, e)
    requires s.c == if dir.ParentNode? then Descendant else Sibling
    ensures Found(t, dir, NameTest(t, s.tag), e) == Next(t, s, e)
  {
    if e.At? {
      SearchIsNearest(t, dir, s.tag, Link(t, dir, e.k));
    }
  }
}
