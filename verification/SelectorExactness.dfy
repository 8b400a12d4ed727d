/** For which nodes and tags Sizzle's search is right: exact conditions, and what goes wrong without them. */
module SelectorExactness {
  import opened Selectors
  import opened GreedySelectors

  // ----- Steps that repeat -----

  function SearchOf(dir: Direction): Combinator {
    if dir.ParentNode? then Descendant else Sibling
  }

  function Repeated(dir: Direction, tag: string, n: nat): (chain: seq<Step>)
    ensures |chain| == n && forall s | s in chain :: s == Step(SearchOf(dir), tag)
  {
    seq(n, _ => Step(SearchOf(dir), tag))
  }

  lemma RepeatedTail(dir: Direction, tag: string, n: nat)
    requires n > 0
    ensures Repeated(dir, tag, n)[0] == Step(SearchOf(dir), tag)
    ensures Repeated(dir, tag, n)[1..] == Repeated(dir, tag, n - 1)
  {
  }

  lemma {:induction false} GreedyConcat(t: Tree, chain: seq<Step>, chain': seq<Step>, k: int)
    requires IsTree(t) && -1 <= k < |t|
    ensures Greedy(t, chain + chain', k) == Greedy(t, chain', Greedy(t, chain, k))
    decreases |chain|
  {
    if chain == [] {
      assert chain + chain' == chain';
    } else if k >= 0 {
      assert (chain + chain')[1..] == chain[1..] + chain';
      GreedyConcat(t, chain[1..], chain', Candidate(t, chain[0], k));
    }
  }

  /** Some number of equal steps comes to any node of the name. */
  lemma {:induction false} Walk(t: Tree, dir: Direction, tag: string, k: int, u: int) returns (n: nat)
    requires IsTree(t) && 0 <= k < |t| && 0 <= u < |t| && Reaches(t, dir, k, u) && Named(t[u], tag)
    ensures n > 0 && Greedy(t, Repeated(dir, tag, n), k) == u
    decreases k
  {
    NearestDominates(t, dir, k, tag, u);
    var g := Nearest(t, dir, Link(t, dir, k), tag);
    if g == u {
      n := 1;
    } else {
      var n' := Walk(t, dir, tag, g, u);
      n := n' + 1;
    }
    RepeatedTail(dir, tag, n);
  }

  // ----- Counting elements of a name -----

  /** How many elements in a direction from k have the name in any case or, if right, as it should be. */
  function Count(t: Tree, dir: Direction, k: int, tag: string, right: bool): nat
    requires IsTree(t) && -1 <= k < |t|
    decreases k
  {
    if k < 0 || Link(t, dir, k) < 0 then 0
    else
      var l := Link(t, dir, k);
      Count(t, dir, l, tag, right) + if Counted(t[l], tag, right) then 1 else 0
  }

  predicate Counted(n: Node, tag: string, right: bool) {
    n.nodeType == ELEMENT && if right then Rightly(n, tag) else Named(n, tag)
  }

  lemma {:induction false} CountRight(t: Tree, dir: Direction, k: int, tag: string)
    requires IsTree(t) && -1 <= k < |t|
    ensures Count(t, dir, k, tag, true) <= Count(t, dir, k, tag, false)
    decreases k
  {
    if k < 0 || Link(t, dir, k) < 0 {
    } else {
      CountRight(t, dir, Link(t, dir, k), tag);
    }
  }

  lemma {:induction false} CountReached(t: Tree, dir: Direction, k: int, tag: string, right: bool, m: int)
    requires IsTree(t) && 0 <= k < |t| && 0 <= m < |t| && Reaches(t, dir, k, m)
    ensures Count(t, dir, k, tag, right) >= Count(t, dir, m, tag, right) + if Counted(t[m], tag, right) then 1 else 0
    decreases k
  {
    hide Counted;
    if Link(t, dir, k) == m {
    } else {
      CountReached(t, dir, Link(t, dir, k), tag, right, m);
    }
  }

  lemma {:induction false} CountNearest(t: Tree, dir: Direction, k: int, tag: string, right: bool)
    requires IsTree(t) && 0 <= k < |t|
    ensures var r := Nearest(t, dir, Link(t, dir, k), tag);
            Count(t, dir, k, tag, right)
            == if r < 0 then 0 else Count(t, dir, r, tag, right) + if Counted(t[r], tag, right) then 1 else 0
    decreases k
  {
    var l := Link(t, dir, k);
    if l < 0 || Named(t[l], tag) {
    } else {
      CountNearest(t, dir, l, tag, right);
    }
  }

  /** Each step needs a selected element of its own. */
  lemma {:induction false} RepeatedNeeds(t: Tree, dir: Direction, tag: string, n: nat, k: int)
    requires IsTree(t) && 0 <= k < |t| && Matches(t, Repeated(dir, tag, n), k)
    ensures Count(t, dir, k, tag, true) >= n
    decreases n
  {
    if n == 0 {
    } else {
      var chain := Repeated(dir, tag, n);
      RepeatedTail(dir, tag, n);
      var m :| 0 <= m < |t| && Relates(t, chain[0].c, k, m) && Rightly(t[m], chain[0].tag) && Matches(t, chain[1..], m);
      CountReached(t, dir, k, tag, true, m);
      RepeatedNeeds(t, dir, tag, n - 1, m);
    }
  }

  /** As many steps as there are elements of the name, or more, can end at one. */
  lemma {:induction false} RepeatedFinds(t: Tree, dir: Direction, tag: string, k: int) returns (n: nat)
    requires IsTree(t) && 0 <= k < |t| && Count(t, dir, k, tag, false) > 0
    ensures n >= Count(t, dir, k, tag, false)
    ensures Kept(t, Repeated(dir, tag, n), k)
    decreases k
  {
    CountNearest(t, dir, k, tag, false);
    var r := Nearest(t, dir, Link(t, dir, k), tag);
    if Count(t, dir, r, tag, false) == 0 {
      n := 1;
    } else {
      var n' := RepeatedFinds(t, dir, tag, r);
      n := n' + 1;
    }
    RepeatedTail(dir, tag, n);
  }

  /** And more than there are selected ones, if the nearest node of the name is not selected. */
  lemma {:induction false} RepeatedMisleads(t: Tree, dir: Direction, tag: string, k: int) returns (chain: seq<Step>)
    requires IsTree(t) && 0 <= k < |t| && Count(t, dir, k, tag, false) > 0
    requires var g := Nearest(t, dir, Link(t, dir, k), tag); g >= 0 && !Rightly(t[g], tag)
    ensures (forall s | s in chain :: s.tag == tag) && Kept(t, chain, k) && !Matches(t, chain, k)
  {
    var g := Nearest(t, dir, Link(t, dir, k), tag);
    CountNearest(t, dir, k, tag, false);
    CountNearest(t, dir, k, tag, true);
    CountRight(t, dir, g, tag);
    var n;
    if t[g].nodeType == ELEMENT {
      n := RepeatedFinds(t, dir, tag, k);
    } else {
      var n' := RepeatedFinds(t, dir, tag, g);
      n := n' + 1;
      RepeatedTail(dir, tag, n);
    }
    chain := Repeated(dir, tag, n);
    if Matches(t, chain, k) {
      RepeatedNeeds(t, dir, tag, n, k);
    }
  }

  // ----- Soundness -----

  lemma {:induction false} NoFirstStep(t: Tree, dir: Direction, tag: string, chain: seq<Step>, k: int)
    requires IsTree(t) && 0 <= k < |t| && Count(t, dir, k, tag, false) == 0
    requires chain != [] && chain[0] == Step(SearchOf(dir), tag)
    ensures !Matches(t, chain, k)
  {
    forall m | 0 <= m < |t| && Rightly(t[m], tag)
      ensures !Relates(t, SearchOf(dir), k, m)
    {
      if Relates(t, SearchOf(dir), k, m) {
        CountReached(t, dir, k, tag, false, m);
      }
    }
  }

  /** By way of every detour some element is kept that does not match. */
  lemma {:induction false} DetourMisleads(t: Tree, tags: iset<string>, k: int, dir: Direction, u: int, a: string,
                                          dir': Direction, m: int, b: string)
    returns (chain: seq<Step>, k': int)
    requires IsTree(t) && Detour(t, tags, k, dir, u, a, dir', m, b)
    ensures Uses(chain, tags) && 0 <= k' < |t| && t[k'].nodeType == ELEMENT
    ensures Kept(t, chain, k') && !Matches(t, chain, k')
    decreases k
  {
    NearestDominates(t, dir, k, a, u);
    var g := Nearest(t, dir, Link(t, dir, k), a);
    if Rightly(t[g], a) {
      chain, k' := DetourMisleads(t, tags, g, dir, u, a, dir', m, b);
    } else if Count(t, dir, k, a, false) > 0 {
      chain := RepeatedMisleads(t, dir, a, k);
      k' := k;
    } else {
      CountReached(t, dir, k, a, false, u);
      var i := Walk(t, dir, a, k, u);
      var j := Walk(t, dir', b, u, m);
      chain, k' := Repeated(dir, a, i) + Repeated(dir', b, j), k;
      GreedyConcat(t, Repeated(dir, a, i), Repeated(dir', b, j), k);
      RepeatedTail(dir, a, i);
      NoFirstStep(t, dir, a, chain, k);
    }
  }

  /** On these nodes and with these tags every element that is kept matches, whatever the combinators,
      if and only if there is no detour. */
  lemma {:induction false} SoundIffNoDetour(t: Tree, tags: iset<string>)
    requires IsTree(t)
    ensures (forall chain, k | Uses(chain, tags) && 0 <= k < |t| && t[k].nodeType == ELEMENT ::
               Kept(t, chain, k) ==> Matches(t, chain, k))
            <==> NoDetour(t, tags)
  {
    if NoDetour(t, tags) {
      forall chain, k | Uses(chain, tags) && 0 <= k < |t| && t[k].nodeType == ELEMENT
        ensures Kept(t, chain, k) ==> Matches(t, chain, k)
      {
        GreedySound(t, tags, chain, k);
      }
    } else {
      var k, dir, u, a, dir', m, b :| Detour(t, tags, k, dir, u, a, dir', m, b);
      var chain, k' := DetourMisleads(t, tags, k, dir, u, a, dir', m, b);
    }
  }

  // ----- Completeness -----

  lemma {:induction false} ShadowHides(t: Tree, tags: iset<string>, k: int, dir: Direction, u: int, m: int, a: string)
    returns (k': int)
    requires IsTree(t) && Shadow(t, tags, k, dir, u, m, a)
    ensures 0 <= k' < |t| && t[k'].nodeType == ELEMENT
    ensures var chain := [Step(SearchOf(dir), a)]; Matches(t, chain, k') && !Kept(t, chain, k')
    decreases k
  {
    NearestDominates(t, dir, k, a, u);
    var g := Nearest(t, dir, Link(t, dir, k), a);
    if t[g].nodeType == ELEMENT {
      k' := ShadowHides(t, tags, g, dir, u, m, a);
    } else {
      k' := k;
      var chain := [Step(SearchOf(dir), a)];
      assert chain[1..] == [];
      ReachesTransitive(t, dir, k, u, m);
      assert Relates(t, chain[0].c, k, m) && Matches(t, chain[1..], m);
      assert Greedy(t, chain, k) == Greedy(t, chain[1..], g);
    }
  }

  /** On these nodes, with these tags and these directions of search, every element that matches a chain
      of forgiving combinators is kept if and only if there is no shadow. */
  lemma {:induction false} CompleteIffNoShadow(t: Tree, tags: iset<string>, dirs: set<Direction>)
    requires IsTree(t)
    ensures (forall chain, k | Uses(chain, tags) && Forgiving(Combinators(chain))
                               && Searches(Combinators(chain)) <= dirs && 0 <= k < |t| && t[k].nodeType == ELEMENT ::
               Matches(t, chain, k) ==> Kept(t, chain, k))
            <==> NoShadow(t, tags, dirs)
  {
    if NoShadow(t, tags, dirs) {
      forall chain, k | Uses(chain, tags) && Forgiving(Combinators(chain))
                        && Searches(Combinators(chain)) <= dirs && 0 <= k < |t| && t[k].nodeType == ELEMENT
                        && Matches(t, chain, k)
        ensures Kept(t, chain, k)
      {
        assert NoShadow(t, tags, Searches(Combinators(chain)));
        GreedyComplete(t, tags, chain, k);
      }
    } else {
      var k, dir, u, m, a :| dir in dirs && Shadow(t, tags, k, dir, u, m, a);
      var k' := ShadowHides(t, tags, k, dir, u, m, a);
      var chain := [Step(SearchOf(dir), a)];
      assert Combinators(chain) == [SearchOf(dir)];
    }
  }

  // ----- Exceptions -----

  /** Every element has a parent, and so has every ancestor that has the name of a tag. */
  ghost predicate Attached(t: Tree, tags: iset<string>)
    requires IsTree(t)
  {
    forall k | 0 <= k < |t| && t[k].nodeType == ELEMENT ::
      && t[k].parent >= 0
      && forall u, a | 0 <= u < |t| && a in tags && Reaches(t, ParentNode, k, u) && Named(t[u], a) :: t[u].parent >= 0
  }

  /** A candidate for element k has no other ancestors than k. */
  lemma {:induction false} AttachedGoesOn(t: Tree, tags: iset<string>, chain: seq<Step>, k: int, w: int)
    requires IsTree(t) && Attached(t, tags) && Uses(chain, tags)
    requires 0 <= k < |t| && t[k].nodeType == ELEMENT && 0 <= w < |t| && t[w].parent >= 0
    requires forall v | 0 <= v < |t| && Reaches(t, ParentNode, w, v) :: Reaches(t, ParentNode, k, v)
    ensures !Throws(t, chain, w)
    decreases |chain|
  {
    if chain == [] {
    } else {
      var s := chain[0];
      var v := Candidate(t, s, w);
      assert s in chain && Uses(chain[1..], tags);
      if v >= 0 {
        CandidateRelates(t, s, w);
        if DirectionOf(s.c).PreviousSibling? {
          SiblingsShareParent(t, w, v);
        }
        forall x | 0 <= x < |t| && Reaches(t, ParentNode, v, x)
          ensures Reaches(t, ParentNode, k, x)
        {
          if DirectionOf(s.c).PreviousSibling? {
            SiblingsShareAncestors(t, w, v, x);
          } else {
            ReachesTransitive(t, ParentNode, w, v, x);
          }
        }
        AttachedGoesOn(t, tags, chain[1..], k, v);
      }
    }
  }

  lemma {:induction false} ThrowsAtEnd(t: Tree, chain: seq<Step>, tag: string, k: int)
    requires IsTree(t) && 0 <= k < |t| && Greedy(t, chain, k) >= 0 && t[Greedy(t, chain, k)].parent < 0
    ensures Throws(t, chain + [Step(Child, tag)], k)
    decreases |chain|
  {
    var longer := chain + [Step(Child, tag)];
    if chain == [] {
      assert longer[0] == Step(Child, tag);
    } else {
      assert longer[1..] == chain[1..] + [Step(Child, tag)];
      ThrowsAtEnd(t, chain[1..], tag, Candidate(t, chain[0], k));
    }
  }

  lemma {:induction false} UnattachedThrows(t: Tree, tags: iset<string>) returns (chain: seq<Step>, k: int)
    requires IsTree(t) && tags != iset{} && !Attached(t, tags)
    ensures Uses(chain, tags) && 0 <= k < |t| && t[k].nodeType == ELEMENT && Throws(t, chain, k)
  {
    k :| 0 <= k < |t| && t[k].nodeType == ELEMENT
      && (t[k].parent < 0
          || exists u, a | 0 <= u < |t| && a in tags ::
               Reaches(t, ParentNode, k, u) && Named(t[u], a) && t[u].parent < 0);
    var front, a;
    if t[k].parent < 0 {
      a :| a in tags;
      front := [];
    } else {
      var u;
      u, a :| 0 <= u < |t| && a in tags && Reaches(t, ParentNode, k, u) && Named(t[u], a) && t[u].parent < 0;
      var n := Walk(t, ParentNode, a, k, u);
      front := Repeated(ParentNode, a, n);
    }
    ThrowsAtEnd(t, front, a, k);
    chain := front + [Step(Child, a)];
  }

  /** On these nodes and with these tags no chain ends in an exception for any element, if and only if
      they are attached. */
  lemma {:induction false} NeverThrowsIffAttached(t: Tree, tags: iset<string>)
    requires IsTree(t) && tags != iset{}
    ensures (forall chain, k | Uses(chain, tags) && 0 <= k < |t| && t[k].nodeType == ELEMENT :: !Throws(t, chain, k))
            <==> Attached(t, tags)
  {
    if Attached(t, tags) {
      forall chain, k | Uses(chain, tags) && 0 <= k < |t| && t[k].nodeType == ELEMENT
        ensures !Throws(t, chain, k)
      {
        AttachedGoesOn(t, tags, chain, k, k);
      }
    } else {
      var chain, k := UnattachedThrows(t, tags);
    }
  }

  // ----- What goes wrong -----

  /** A page with a doctype and its root element. */
  const PAGE: Tree :=
    [Node(9, "#document", false, -1, -1), Node(10, "html", false, 0, -1), Node(1, "html", true, 0, 1)]

  /** Without the last test of the node's type, "html ~ html" would be found on every such page: the
      doctype is the candidate. */
  lemma {:induction false} DoctypeIsCandidate()
    ensures IsDocument(PAGE, iset{"html"})
    ensures var chain := [Step(Sibling, "html")];
            Greedy(PAGE, chain, 2) == 1 && !Kept(PAGE, chain, 2) && !Matches(PAGE, chain, 2)
  {
    var t, chain := PAGE, [Step(Sibling, "html")];
    assert chain[1..] == [];
    assert !Named(t[0], "html") by {
      assert |LowerCase("#document")| == 9 && |LowerCase("html")| == 4;
    }
    assert Stranded(t, 0) && Stranded(t, 1);
    assert Greedy(t, chain, 2) == Greedy(t, chain[1..], Candidate(t, chain[0], 2));
    forall m | 0 <= m < |t|
      ensures !Relates(t, Sibling, 2, m)
    {
      if Reaches(t, PreviousSibling, 2, m) {
        ReachesBack(t, PreviousSibling, 2, m);
      }
    }
  }

  /** An XML document with a node u between the elements b and c. */
  function Between(u: Node): (t: Tree)
    requires u.parent == 1 && u.prev == 2
    ensures IsTree(t)
  {
    [Node(9, "#document", false, -1, -1), Node(1, "r", false, 0, -1), Node(1, "b", false, 1, -1), u,
     Node(1, "c", false, 1, 3)]
  }

  lemma {:induction false} BetweenCandidates(u: Node, tag: string)
    requires u.parent == 1 && u.prev == 2 && |tag| == 1 && Named(u, tag)
    ensures var t := Between(u);
            Candidate(t, Step(Sibling, tag), 4) == 3 && Candidate(t, Step(Sibling, "b"), 3) == 2
  {
  }

  /** "b ~ a ~ c" finds c by way of a processing instruction a. */
  lemma {:induction false} InstructionMisleads()
    ensures var t, chain := Between(Node(7, "a", false, 1, 2)), [Step(Sibling, "a"), Step(Sibling, "b")];
            IsChain(chain) && Kept(t, chain, 4) && !Matches(t, chain, 4)
  {
    var u := Node(7, "a", false, 1, 2);
    var t, chain := Between(u), [Step(Sibling, "a"), Step(Sibling, "b")];
    BetweenCandidates(u, "a");
    assert chain[1..] == [Step(Sibling, "b")] && chain[1..][1..] == [];
    assert Greedy(t, chain, 4) == Greedy(t, chain[1..], 3);
    assert Greedy(t, chain[1..], 3) == Greedy(t, [], 2);
    assert forall m | 0 <= m < |t| :: !Rightly(t[m], "a");
  }

  /** "a ~ c" finds c by way of an element A, which XML distinguishes from a. */
  lemma {:induction false} CaseMisleads()
    ensures var t, chain := Between(Node(1, "A", false, 1, 2)), [Step(Sibling, "a")];
            IsChain(chain) && Kept(t, chain, 4) && !Matches(t, chain, 4)
  {
    var u := Node(1, "A", false, 1, 2);
    var t, chain := Between(u), [Step(Sibling, "a")];
    assert LowerCase("A") == LowerCase("a");
    BetweenCandidates(u, "a");
    assert chain[1..] == [];
    assert Greedy(t, chain, 4) == Greedy(t, [], 3);
    assert forall m | 0 <= m < |t| :: !Rightly(t[m], "a");
  }
}
