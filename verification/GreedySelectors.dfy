/** Greedy matching is sound, and complete exactly for the chains in which no step can spoil the
    choice of the one before it. */
module GreedySelectors {
  import opened Selectors

  // ----- The nearest node -----

  lemma {:induction false} ReachesBack(t: Tree, dir: Direction, k: int, m: int)
    requires IsTree(t) && k < |t| && Reaches(t, dir, k, m)
    ensures m < k
    decreases k
  {
    if Link(t, dir, k) == m {
    } else {
      ReachesBack(t, dir, Link(t, dir, k), m);
    }
  }

  lemma {:induction false} ReachesTransitive(t: Tree, dir: Direction, k: int, l: int, m: int)
    requires IsTree(t) && k < |t| && l < |t| && Reaches(t, dir, k, l) && Reaches(t, dir, l, m)
    ensures Reaches(t, dir, k, m)
    decreases k
  {
    if Link(t, dir, k) == l {
    } else {
      ReachesTransitive(t, dir, Link(t, dir, k), l, m);
    }
  }

  /** Nearest is reached, and every other node with the name is reached from it. */
  lemma {:induction false} NearestDominates(t: Tree, dir: Direction, k: int, tag: string, m: int)
    requires IsTree(t) && 0 <= k < |t| && 0 <= m < |t| && Reaches(t, dir, k, m) && Named(t[m], tag)
    ensures var r := Nearest(t, dir, Link(t, dir, k), tag);
            r >= 0 && Reaches(t, dir, k, r) && (r == m || Reaches(t, dir, r, m))
    decreases k
  {
    var l := Link(t, dir, k);
    if l == m || Named(t[l], tag) {
    } else {
      NearestDominates(t, dir, l, tag, m);
    }
  }

  lemma {:induction false} NearestReached(t: Tree, dir: Direction, k: int, tag: string)
    requires IsTree(t) && 0 <= k < |t|
    ensures var r := Nearest(t, dir, Link(t, dir, k), tag);
            r >= 0 ==> Reaches(t, dir, k, r)
    decreases k
  {
    var l := Link(t, dir, k);
    if l < 0 || Named(t[l], tag) {
    } else {
      NearestReached(t, dir, l, tag);
    }
  }

  lemma {:induction false} FirstElementIsAdjacent(t: Tree, k: int)
    requires IsTree(t) && 0 <= k < |t|
    ensures var m := FirstElement(t, t[k].prev);
            && (m >= 0 ==> Reaches(t, PreviousSibling, k, m))
            && (m >= 0 ==>
                  forall b | 0 <= b < |t| && Reaches(t, PreviousSibling, k, b) && Reaches(t, PreviousSibling, b, m) ::
                    t[b].nodeType != ELEMENT)
            && (forall b | 0 <= b < |t| && Reaches(t, PreviousSibling, k, b) && t[b].nodeType == ELEMENT ::
                  m >= 0 && (b == m || Reaches(t, PreviousSibling, m, b)))
    decreases k
  {
    var l, m := t[k].prev, FirstElement(t, t[k].prev);
    if l >= 0 {
      if t[l].nodeType != ELEMENT {
        FirstElementIsAdjacent(t, l);
      } else {
        forall b | 0 <= b < |t| && Reaches(t, PreviousSibling, k, b) && Reaches(t, PreviousSibling, b, m)
          ensures false
        {
          ReachesBack(t, PreviousSibling, b, m);
          if b != l {
            ReachesBack(t, PreviousSibling, l, b);
          }
        }
      }
    }
  }

  lemma {:induction false} SiblingsShareParent(t: Tree, k: int, m: int)
    requires IsTree(t) && 0 <= k < |t| && 0 <= m < |t| && Reaches(t, PreviousSibling, k, m)
    ensures t[m].parent == t[k].parent
    decreases k
  {
    if t[k].prev == m {
    } else {
      SiblingsShareParent(t, t[k].prev, m);
    }
  }

  /** Siblings have the same ancestors. */
  lemma {:induction false} SiblingsShareAncestors(t: Tree, k: int, m: int, v: int)
    requires IsTree(t) && 0 <= k < |t| && 0 <= m < |t| && Reaches(t, PreviousSibling, k, m)
    ensures Reaches(t, ParentNode, k, v) <==> Reaches(t, ParentNode, m, v)
  {
    SiblingsShareParent(t, k, m);
  }

  // ----- Nodes before all elements -----

  lemma {:induction false} StrandedReaches(t: Tree, dir: Direction, k: int, m: int)
    requires IsTree(t) && k < |t| && Stranded(t, k) && Reaches(t, dir, k, m)
    ensures m < |t| && Stranded(t, m)
    decreases k
  {
    if Link(t, dir, k) == m {
    } else {
      StrandedReaches(t, dir, Link(t, dir, k), m);
    }
  }

  lemma DocumentHasNoDetour(t: Tree, tags: iset<string>)
    requires IsDocument(t, tags)
    ensures NoDetour(t, tags)
  {
    forall k, dir, u, a, dir', m, b | Detour(t, tags, k, dir, u, a, dir', m, b)
      ensures false
    {
      if t[u].nodeType != ELEMENT {
        StrandedReaches(t, dir', u, m);
      }
    }
  }

  lemma DocumentHasNoShadow(t: Tree, tags: iset<string>, dirs: set<Direction>)
    requires IsDocument(t, tags)
    ensures NoShadow(t, tags, dirs)
  {
    forall k, dir, u, m, a | Shadow(t, tags, k, dir, u, m, a)
      ensures false
    {
      StrandedReaches(t, dir, u, m);
    }
  }

  // ----- Soundness -----

  function DirectionOf(c: Combinator): Direction {
    if c.Descendant? || c.Child? then ParentNode else PreviousSibling
  }

  lemma {:induction false} CandidateRelates(t: Tree, s: Step, k: int)
    requires IsTree(t) && 0 <= k < |t| && Candidate(t, s, k) >= 0
    ensures Named(t[Candidate(t, s, k)], s.tag) && Reaches(t, DirectionOf(s.c), k, Candidate(t, s, k))
    ensures t[Candidate(t, s, k)].nodeType == ELEMENT ==> Relates(t, s.c, k, Candidate(t, s, k))
  {
    match s.c {
      case Descendant => NearestReached(t, ParentNode, k, s.tag);
      case Sibling => NearestReached(t, PreviousSibling, k, s.tag);
      case Adjacent => FirstElementIsAdjacent(t, k);
      case Child =>
    }
  }

  /** Node w is u, or a sibling before an ancestor u of k. */
  predicate Beside(t: Tree, dir: Direction, u: int, w: int)
    requires IsTree(t) && 0 <= u < |t|
  {
    w == u || (dir.ParentNode? && Reaches(t, PreviousSibling, u, w))
  }

  /** What is reached from such a node is reached from u, and if it is an ancestor, from k. */
  lemma ReachedBeside(t: Tree, k: int, dir: Direction, u: int, w: int, dir': Direction, v: int)
    requires IsTree(t) && 0 <= k < |t| && 0 <= u < |t| && 0 <= w < |t| && 0 <= v < |t|
    requires Reaches(t, dir, k, u) && Beside(t, dir, u, w) && Reaches(t, dir', w, v)
    ensures Reaches(t, dir', u, v)
    ensures dir'.ParentNode? ==> Reaches(t, ParentNode, k, v)
    ensures dir'.PreviousSibling? && dir.PreviousSibling? ==> Reaches(t, PreviousSibling, k, v)
  {
    if w != u {
      if dir'.ParentNode? {
        SiblingsShareAncestors(t, u, w, v);
      } else {
        ReachesTransitive(t, PreviousSibling, u, w, v);
      }
    }
    if dir == dir' {
      ReachesTransitive(t, dir, k, u, v);
    } else if dir.PreviousSibling? {
      SiblingsShareAncestors(t, k, u, v);
    }
  }

  /** Without detours the search does not come back to an element from a node that is none. */
  lemma {:induction false} NoWayBack(t: Tree, tags: iset<string>, chain: seq<Step>,
                                     k: int, dir: Direction, u: int, a: string, w: int)
    requires NoDetour(t, tags) && Uses(chain, tags) && 0 <= k < |t| && 0 <= u < |t| && 0 <= w < |t|
    requires t[k].nodeType == ELEMENT && Reaches(t, dir, k, u) && Beside(t, dir, u, w)
    requires a in tags && Named(t[u], a) && !Rightly(t[u], a) && t[w].nodeType != ELEMENT
    ensures var r := Greedy(t, chain, w); r >= 0 ==> t[r].nodeType != ELEMENT
    decreases |chain|
  {
    if chain == [] {
    } else {
      var s := chain[0];
      var v, dir' := Candidate(t, s, w), DirectionOf(s.c);
      assert s in chain && Uses(chain[1..], tags);
      if v >= 0 {
        CandidateRelates(t, s, w);
        ReachedBeside(t, k, dir, u, w, dir', v);
        assert !Detour(t, tags, k, dir, u, a, dir', v, s.tag);
        if dir'.ParentNode? || dir.PreviousSibling? {
          NoWayBack(t, tags, chain[1..], k, dir', v, s.tag, v);
        } else {
          NoWayBack(t, tags, chain[1..], k, dir, u, a, v);
        }
      }
    }
  }

  /** Whatever the combinators, what is kept matches the selector. */
  lemma {:induction false} GreedySound(t: Tree, tags: iset<string>, chain: seq<Step>, k: int)
    requires NoDetour(t, tags) && Uses(chain, tags) && 0 <= k < |t| && t[k].nodeType == ELEMENT
    ensures Kept(t, chain, k) ==> Matches(t, chain, k)
    decreases |chain|
  {
    if chain == [] {
    } else if Kept(t, chain, k) {
      var s := chain[0];
      var m := Candidate(t, s, k);
      assert s in chain && Uses(chain[1..], tags);
      CandidateRelates(t, s, k);
      if Rightly(t[m], s.tag) {
        GreedySound(t, tags, chain[1..], m);
      } else {
        assert !Detour(t, tags, k, DirectionOf(s.c), m, s.tag, ParentNode, m, s.tag);
        NoWayBack(t, tags, chain[1..], k, DirectionOf(s.c), m, s.tag, m);
      }
    }
  }

  // ----- Completeness -----

  function Combinators(chain: seq<Step>): (cs: seq<Combinator>)
    ensures |cs| == |chain|
  {
    seq(|chain|, i requires 0 <= i < |chain| => chain[i].c)
  }

  /** Read from right to left, a descendant step is followed by descendant steps only, and a
      sibling step never by an adjacent one. */
  predicate Forgiving(cs: seq<Combinator>) {
    forall i | 0 < i < |cs| ::
      && (cs[i - 1].Descendant? ==> cs[i].Descendant?)
      && (cs[i - 1].Sibling? ==> !cs[i].Adjacent?)
  }

  /** The directions in which steps search. */
  function Searches(cs: seq<Combinator>): set<Direction> {
    (if Descendant in cs then {ParentNode} else {}) + (if Sibling in cs then {PreviousSibling} else {})
  }

  /** The first step of a chain finds from g all that it finds from m. */
  lemma {:induction false} SameFromNearer(t: Tree, chain: seq<Step>, dir: Direction, g: int, m: int)
    requires IsTree(t) && 0 <= g < |t| && 0 <= m < |t| && Reaches(t, dir, g, m) && Matches(t, chain, m)
    requires chain == [] || chain[0].c.Descendant? || (dir.PreviousSibling? && !chain[0].c.Adjacent?)
    ensures Matches(t, chain, g)
  {
    if chain != [] {
      var s := chain[0];
      var n :| 0 <= n < |t| && Relates(t, s.c, m, n) && Rightly(t[n], s.tag) && Matches(t, chain[1..], n);
      if dir.PreviousSibling? {
        SiblingsShareParent(t, g, m);
      } else {
        ReachesTransitive(t, dir, g, m, n);
      }
      if s.c.Sibling? {
        ReachesTransitive(t, dir, g, m, n);
      }
      assert Relates(t, s.c, g, n);
    }
  }

  /** Without shadows, the nearest node from which a selected element is reached is an element too. */
  lemma NearestIsElement(t: Tree, tags: iset<string>, dirs: set<Direction>, dir: Direction, k: int, a: string,
                         g: int, m: int)
    requires NoShadow(t, tags, dirs) && dir in dirs && a in tags && 0 <= k < |t| && 0 <= g < |t| && 0 <= m < |t|
    requires t[k].nodeType == ELEMENT && Named(t[g], a) && Rightly(t[m], a)
    requires Reaches(t, dir, k, g) && (g == m || Reaches(t, dir, g, m))
    ensures t[g].nodeType == ELEMENT
  {
    assert !Shadow(t, tags, k, dir, g, m, a);
  }

  /** The candidate is as good as any other element that the step relates. */
  lemma {:induction false} CandidateBest(t: Tree, tags: iset<string>, chain: seq<Step>, k: int, m: int)
    requires chain != [] && NoShadow(t, tags, Searches(Combinators(chain))) && chain[0].tag in tags
    requires 0 <= k < |t| && t[k].nodeType == ELEMENT && 0 <= m < |t|
    requires Relates(t, chain[0].c, k, m) && Rightly(t[m], chain[0].tag) && Matches(t, chain[1..], m)
    requires Forgiving(Combinators(chain))
    ensures var g := Candidate(t, chain[0], k);
            g >= 0 && t[g].nodeType == ELEMENT && Matches(t, chain[1..], g)
  {
    var g, tag, dirs := Candidate(t, chain[0], k), chain[0].tag, Searches(Combinators(chain));
    assert Combinators(chain)[0] == chain[0].c && Combinators(chain)[0] in Combinators(chain);
    assert |chain| > 1 ==> Combinators(chain)[1] == chain[1].c;
    match chain[0].c {
      case Child =>
      case Adjacent => FirstElementIsAdjacent(t, k);
      case Descendant =>
        NearestDominates(t, ParentNode, k, tag, m);
        NearestIsElement(t, tags, dirs, ParentNode, k, tag, g, m);
        if g != m { SameFromNearer(t, chain[1..], ParentNode, g, m); }
      case Sibling =>
        NearestDominates(t, PreviousSibling, k, tag, m);
        NearestIsElement(t, tags, dirs, PreviousSibling, k, tag, g, m);
        if g != m { SameFromNearer(t, chain[1..], PreviousSibling, g, m); }
    }
  }

  /** For these combinators, whatever matches is kept, if there is no shadow in a direction that the
      chain searches. */
  lemma {:induction false} GreedyComplete(t: Tree, tags: iset<string>, chain: seq<Step>, k: int)
    requires NoShadow(t, tags, Searches(Combinators(chain))) && Uses(chain, tags)
    requires 0 <= k < |t| && t[k].nodeType == ELEMENT && Forgiving(Combinators(chain)) && Matches(t, chain, k)
    ensures Kept(t, chain, k)
    decreases |chain|
  {
    if chain == [] {
    } else {
      var s := chain[0];
      var m :| 0 <= m < |t| && Relates(t, s.c, k, m) && Rightly(t[m], s.tag) && Matches(t, chain[1..], m);
      assert s in chain;
      CandidateBest(t, tags, chain, k, m);
      assert Combinators(chain[1..]) == Combinators(chain)[1..];
      assert Searches(Combinators(chain[1..])) <= Searches(Combinators(chain));
      GreedyComplete(t, tags, chain[1..], Candidate(t, s, k));
    }
  }

  // ----- Every other sequence of combinators fails somewhere -----

  /** A different tag for every position of a chain. */
  function Tag(i: nat): (s: string)
    ensures |s| == i + 1 && IsTag(s)
  {
    seq(i + 1, _ => 'a')
  }

  function Chain(cs: seq<Combinator>): (chain: seq<Step>)
    ensures |chain| == |cs| && IsChain(chain)
  {
    seq(|cs|, i requires 0 <= i < |cs| => Step(cs[i], Tag(i + 1)))
  }

  /** A document that is one line of elements, each linked to the one before it as the combinators
      ask; the step before position j passes an extra element, named like its goal, on the way. */
  ghost predicate Spoils(cs: seq<Combinator>, j: nat) {
    0 < j < |cs| && ((cs[j - 1].Descendant? && !cs[j].Descendant?) || (cs[j - 1].Sibling? && cs[j].Adjacent?))
  }

  /** Where in the line the element for position i of the chain stands. */
  function Place(n: nat, j: nat, i: nat): int {
    if i < j then n + 2 - i else n + 1 - i
  }

  /** The position in the chain of the element at place x; the extra element counts as j. */
  function PositionAt(n: nat, j: nat, x: int): int {
    if x > n + 2 - j then n + 2 - x else if x == n + 2 - j then j else n + 1 - x
  }

  /** The combinator that the link from place x to place x - 1 serves. */
  function LinkAt(cs: seq<Combinator>, j: nat, x: int): Combinator
    requires 0 < j < |cs| && 1 < x <= |cs| + 2
  {
    if x == |cs| + 2 - j then cs[j - 1] else cs[PositionAt(|cs|, j, x)]
  }

  predicate IsUp(c: Combinator) {
    c.Descendant? || c.Child?
  }

  function ParentAt(cs: seq<Combinator>, j: nat, x: int): (p: int)
    requires 0 < j < |cs| && 0 < x <= |cs| + 2
    ensures 0 <= p < x
    decreases x
  {
    if x == 1 then 0 else if IsUp(LinkAt(cs, j, x)) then x - 1 else ParentAt(cs, j, x - 1)
  }

  function LineNode(cs: seq<Combinator>, j: nat, x: int): Node
    requires 0 < j < |cs| && 0 <= x <= |cs| + 2
  {
    if x == 0 then Node(9, "#document", false, -1, -1)
    else Node(ELEMENT, Tag(PositionAt(|cs|, j, x)), true, ParentAt(cs, j, x),
              if x == 1 || IsUp(LinkAt(cs, j, x)) then -1 else x - 1)
  }

  function Line(cs: seq<Combinator>, j: nat): (t: Tree)
    requires 0 < j < |cs|
    ensures |t| == |cs| + 3 && IsTree(t)
  {
    seq(|cs| + 3, x requires 0 <= x < |cs| + 3 => LineNode(cs, j, x))
  }

  /** Each element of the line is related to the one before it. */
  lemma {:induction false} LineRelates(cs: seq<Combinator>, j: nat, x: int)
    requires 0 < j < |cs| && 1 < x <= |cs| + 2
    ensures var t := Line(cs, j);
            && Relates(t, LinkAt(cs, j, x), x, x - 1)
            && t[x].parent == (if IsUp(LinkAt(cs, j, x)) then x - 1 else t[x - 1].parent)
            && t[x].prev == (if IsUp(LinkAt(cs, j, x)) then -1 else x - 1)
            && t[x - 1].nodeType == ELEMENT
  {
    var t := Line(cs, j);
    if LinkAt(cs, j, x).Adjacent? {
      forall b | 0 <= b < |t| && Reaches(t, PreviousSibling, x, b) && Reaches(t, PreviousSibling, b, x - 1)
        ensures false
      {
        ReachesBack(t, PreviousSibling, x, b);
        ReachesBack(t, PreviousSibling, b, x - 1);
      }
    }
  }

  lemma LineNames(cs: seq<Combinator>, j: nat, i: nat)
    requires 0 < j < |cs| && 0 < i <= |cs|
    ensures 0 < Place(|cs|, j, i) < |Line(cs, j)| && Rightly(Line(cs, j)[Place(|cs|, j, i)], Tag(i))
  {
    hide Tag, ParentAt, LinkAt;
  }

  /** The element for the next position is related as the combinator asks. */
  lemma {:induction false} LineStep(cs: seq<Combinator>, j: nat, i: nat)
    requires Spoils(cs, j) && i < |cs|
    ensures 0 < Place(|cs|, j, i + 1) < Place(|cs|, j, i) < |Line(cs, j)|
    ensures Relates(Line(cs, j), cs[i], Place(|cs|, j, i), Place(|cs|, j, i + 1))
    ensures Rightly(Line(cs, j)[Place(|cs|, j, i + 1)], Tag(i + 1))
  {
    hide Tag, Rightly, Relates, Line;
    var x := Place(|cs|, j, i);
    LineNames(cs, j, i + 1);
    LineRelates(cs, j, x);
    if i == j - 1 {
      LineRelates(cs, j, x - 1);
      RelatesTransitive(Line(cs, j), cs[i], x, x - 1, x - 2);
    }
  }

  lemma RelatesTransitive(t: Tree, c: Combinator, k: int, u: int, m: int)
    requires IsTree(t) && 0 <= k < |t| && 0 <= u < |t| && 0 <= m < |t| && (c.Descendant? || c.Sibling?)
    requires Relates(t, c, k, u) && Relates(t, c, u, m)
    ensures Relates(t, c, k, m)
  {
    ReachesTransitive(t, DirectionOf(c), k, u, m);
  }

  lemma {:induction false} LineMatches(cs: seq<Combinator>, j: nat, i: nat)
    requires Spoils(cs, j) && i <= |cs|
    ensures 0 < Place(|cs|, j, i) < |Line(cs, j)|
    ensures Matches(Line(cs, j), Chain(cs)[i..], Place(|cs|, j, i))
    decreases |cs| - i
  {
    hide Line, Relates, Tag;
    var chain := Chain(cs)[i..];
    if i == |cs| {
      assert chain == [];
    } else {
      LineMatches(cs, j, i + 1);
      LineStep(cs, j, i);
      assert chain[0] == Step(cs[i], Tag(i + 1)) && chain[1..] == Chain(cs)[i + 1..];
    }
  }

  /** The search takes the extra element and finds nothing from there. */
  lemma {:induction false} LineFails(cs: seq<Combinator>, j: nat, i: nat)
    requires Spoils(cs, j) && i < j
    ensures 0 < Place(|cs|, j, i) < |Line(cs, j)|
    ensures Greedy(Line(cs, j), Chain(cs)[i..], Place(|cs|, j, i)) == -1
    decreases j - i
  {
    hide Candidate, Line, Matches, Tag;
    var t, n, chain := Line(cs, j), |cs|, Chain(cs)[i..];
    var x := Place(n, j, i);
    assert chain[0] == Step(cs[i], Tag(i + 1)) && chain[1..] == Chain(cs)[i + 1..];
    hide Chain;
    LineCandidate(cs, j, x, chain[0]);
    if i + 1 < j {
      LineFails(cs, j, i + 1);
    } else {
      assert chain[1..][0] == Step(cs[j], Tag(j + 1)) by { ChainStep(cs, j); }
      ExtraFails(cs, j);
    }
  }

  lemma ChainStep(cs: seq<Combinator>, i: nat)
    requires i < |cs|
    ensures Chain(cs)[i..][0] == Step(cs[i], Tag(i + 1))
  {
    hide Tag;
  }

  /** The element before is taken when it has the name that the step looks for. */
  lemma {:induction false} LineCandidate(cs: seq<Combinator>, j: nat, x: int, s: Step)
    requires 0 < j < |cs| && 1 < x <= |cs| + 2
    requires s == Step(LinkAt(cs, j, x), Tag(PositionAt(|cs|, j, x - 1)))
    ensures Candidate(Line(cs, j), s, x) == x - 1
  {
    hide LinkAt, Tag;
    LineRelates(cs, j, x);
    assert Line(cs, j)[x - 1].name == s.tag;
  }

  /** The extra element leads nowhere. */
  lemma {:induction false} ExtraFails(cs: seq<Combinator>, j: nat)
    requires Spoils(cs, j)
    ensures Candidate(Line(cs, j), Step(cs[j], Tag(j + 1)), |cs| + 2 - j) == -1
  {
    var t, x := Line(cs, j), |cs| + 2 - j;
    LineRelates(cs, j, x);
    assert t[x - 1].name == Tag(j);
    hide Line, ParentAt;
  }

  lemma LineHasNoShadow(cs: seq<Combinator>, j: nat, tags: iset<string>, dirs: set<Direction>)
    requires 0 < j < |cs|
    ensures NoShadow(Line(cs, j), tags, dirs)
  {
    hide LinkAt, PositionAt, Tag;
    forall k, dir, u, m, a | Shadow(Line(cs, j), tags, k, dir, u, m, a)
      ensures false
    {
      ReachesBack(Line(cs, j), dir, u, m);
    }
  }

  /** Sizzle finds every element that a chain of these combinators matches, on all nodes without such
      shadows and for all tags, exactly when the combinators are forgiving. */
  lemma {:induction false} CompleteIffForgiving(cs: seq<Combinator>)
    ensures Forgiving(cs) <==>
      forall t: Tree, tags, chain, k | NoShadow(t, tags, Searches(cs)) && Uses(chain, tags) && Combinators(chain) == cs
                                 && 0 <= k < |t| && t[k].nodeType == ELEMENT ::
        Matches(t, chain, k) ==> Kept(t, chain, k)
  {
    if Forgiving(cs) {
      forall t: Tree, tags, chain, k | NoShadow(t, tags, Searches(cs)) && Uses(chain, tags) && Combinators(chain) == cs
                                 && 0 <= k < |t| && t[k].nodeType == ELEMENT && Matches(t, chain, k)
        ensures Kept(t, chain, k)
      {
        GreedyComplete(t, tags, chain, k);
      }
    } else {
      var i :| 0 < i < |cs|
        && !((cs[i - 1].Descendant? ==> cs[i].Descendant?) && (cs[i - 1].Sibling? ==> !cs[i].Adjacent?));
      var j: nat := i;
      var k := Place(|cs|, j, 0);
      var tags := iset s | s in Chain(cs) :: s.tag;
      LineMatches(cs, j, 0);
      LineFails(cs, j, 0);
      LineHasNoShadow(cs, j, tags, Searches(cs));
      LineStart(cs, j);
      assert Chain(cs)[0..] == Chain(cs);
      assert Combinators(Chain(cs)) == cs;
      assert Matches(Line(cs, j), Chain(cs), k) && !Kept(Line(cs, j), Chain(cs), k);
    }
  }

  lemma LineStart(cs: seq<Combinator>, j: nat)
    requires 0 < j < |cs|
    ensures 0 < Place(|cs|, j, 0) < |Line(cs, j)| && Line(cs, j)[Place(|cs|, j, 0)].nodeType == ELEMENT
  {
  }
}
