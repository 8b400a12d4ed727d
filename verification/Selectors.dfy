/** Chains of tag selectors, read from right to left as Sizzle reads them: the meaning that
    section 8 of Selectors Level 3 gives them, and the greedy search that keeps one candidate. */
module Selectors {
  /** A node of a document, with its name as written. It folds if its language takes names that differ
      in case for the same, as HTML does for its own elements, but not XML, and not HTML for those of
      SVG. Links are positions in the document, -1 for null. */
  datatype Node = Node(nodeType: int, name: string, folds: bool, parent: int, prev: int)

  const ELEMENT := 1

  type Tree = seq<Node>

  function LowerCase(s: string): (r: string)
    ensures |r| == |s|
  {
    seq(|s|, i requires 0 <= i < |s| => if 'A' <= s[i] <= 'Z' then s[i] + ('a' - 'A') else s[i])
  }

  /** What Sizzle compares. */
  predicate Named(n: Node, tag: string) {
    LowerCase(n.name) == LowerCase(tag)
  }

  /** What the tag selects. */
  predicate Rightly(n: Node, tag: string) {
    n.nodeType == ELEMENT && if n.folds then Named(n, tag) else n.name == tag
  }

  predicate IsWordChar(c: char) {
    'a' <= c <= 'z' || 'A' <= c <= 'Z' || '0' <= c <= '9' || c == '_'
  }

  /** A selector part that is searched for by name. */
  predicate IsTag(s: string) {
    forall c | c in s :: IsWordChar(c)
  }

  /** Nodes in document order: links lead backwards, and siblings have one parent. */
  predicate IsTree(t: Tree) {
    forall k | 0 <= k < |t| ::
      && -1 <= t[k].parent < k && -1 <= t[k].prev < k
      && (t[k].prev >= 0 ==> t[t[k].prev].parent == t[k].parent)
  }

  datatype Direction = ParentNode | PreviousSibling

  function Link(t: Tree, dir: Direction, k: int): (r: int)
    requires IsTree(t) && 0 <= k < |t|
    ensures -1 <= r < k
  {
    if dir.ParentNode? then t[k].parent else t[k].prev
  }

  datatype Combinator = Descendant | Child | Adjacent | Sibling

  datatype Step = Step(c: Combinator, tag: string)

  predicate IsChain(chain: seq<Step>) {
    forall s | s in chain :: IsTag(s.tag)
  }

  /** The chain has no other tags. */
  ghost predicate Uses(chain: seq<Step>, tags: iset<string>) {
    forall s | s in chain :: s.tag in tags
  }

  // ----- Selectors Level 3 -----

  /** Node m is reached from k by following links in one direction. */
  predicate Reaches(t: Tree, dir: Direction, k: int, m: int)
    requires IsTree(t) && k < |t|
    decreases k
  {
    k >= 0 && (Link(t, dir, k) == m || Reaches(t, dir, Link(t, dir, k), m))
  }

  /** From element k one comes to u, which Sizzle takes for what a tag selects, but the tag does not
      select it; and u is an element, or leads to an element m that has the name of a tag. */
  ghost predicate Detour(t: Tree, tags: iset<string>, k: int, dir: Direction, u: int, a: string,
                         dir': Direction, m: int, b: string)
    requires IsTree(t)
  {
    && 0 <= k < |t| && 0 <= u < |t| && 0 <= m < |t| && a in tags && b in tags
    && t[k].nodeType == ELEMENT && Reaches(t, dir, k, u) && Named(t[u], a) && !Rightly(t[u], a)
    && (t[u].nodeType == ELEMENT || (t[m].nodeType == ELEMENT && Reaches(t, dir', u, m) && Named(t[m], b)))
  }

  ghost predicate NoDetour(t: Tree, tags: iset<string>) {
    IsTree(t) && forall k, dir, u, a, dir', m, b :: !Detour(t, tags, k, dir, u, a, dir', m, b)
  }

  /** In a direction from element k, a node u that is no element stands before an element m that a tag
      selects, and has the name too. */
  ghost predicate Shadow(t: Tree, tags: iset<string>, k: int, dir: Direction, u: int, m: int, a: string)
    requires IsTree(t)
  {
    && 0 <= k < |t| && 0 <= u < |t| && 0 <= m < |t| && a in tags
    && t[k].nodeType == ELEMENT && Reaches(t, dir, k, u) && Reaches(t, dir, u, m)
    && t[u].nodeType != ELEMENT && Named(t[u], a) && Rightly(t[m], a)
  }

  ghost predicate NoShadow(t: Tree, tags: iset<string>, dirs: set<Direction>) {
    IsTree(t) && forall k, dir, u, m, a | dir in dirs :: !Shadow(t, tags, k, dir, u, m, a)
  }

  /** Neither the node nor anything above or before it is an element. */
  predicate Stranded(t: Tree, k: int)
    requires IsTree(t) && k < |t|
    decreases k
  {
    k < 0 || (t[k].nodeType != ELEMENT && Stranded(t, t[k].parent) && Stranded(t, t[k].prev))
  }

  /** As in every HTML page without foreign elements: what has the name of a tag is selected by it or,
      like the node of a doctype, stands before all elements. */
  ghost predicate IsDocument(t: Tree, tags: iset<string>) {
    IsTree(t) && forall k, a | 0 <= k < |t| && a in tags && Named(t[k], a) :: Rightly(t[k], a) || Stranded(t, k)
  }

  /** Element m stands in the relation of the combinator to element k. */
  ghost predicate Relates(t: Tree, c: Combinator, k: int, m: int)
    requires IsTree(t) && 0 <= k < |t| && 0 <= m < |t|
  {
    && t[m].nodeType == ELEMENT
    && match c
       case Descendant => Reaches(t, ParentNode, k, m)
       case Child => t[k].parent == m
       case Sibling => Reaches(t, PreviousSibling, k, m)
       case Adjacent =>
         && Reaches(t, PreviousSibling, k, m)
         && forall b | 0 <= b < |t| && Reaches(t, PreviousSibling, k, b) && Reaches(t, PreviousSibling, b, m) ::
              t[b].nodeType != ELEMENT
  }

  /** Some element related to k by the first step has its tag and satisfies the other steps. */
  ghost predicate Matches(t: Tree, chain: seq<Step>, k: int)
    requires IsTree(t) && 0 <= k < |t|
    decreases |chain|
  {
    chain == [] || exists m | 0 <= m < |t| ::
      Relates(t, chain[0].c, k, m) && Rightly(t[m], chain[0].tag) && Matches(t, chain[1..], m)
  }

  // ----- The search of Sizzle -----

  /** The first node from k on, k included, with the name in any case; -1 if there is none. */
  function Nearest(t: Tree, dir: Direction, k: int, tag: string): (r: int)
    requires IsTree(t) && -1 <= k < |t|
    ensures -1 <= r <= k && (r >= 0 ==> Named(t[r], tag))
  {
    if k < 0 then -1 else if Named(t[k], tag) then k else Nearest(t, dir, Link(t, dir, k), tag)
  }

  /** The first element from k on, k included. */
  function FirstElement(t: Tree, k: int): (r: int)
    requires IsTree(t) && -1 <= k < |t|
    ensures -1 <= r <= k && (r >= 0 ==> t[r].nodeType == ELEMENT)
  {
    if k < 0 || t[k].nodeType == ELEMENT then k else FirstElement(t, t[k].prev)
  }

  /** What one combinator leaves in place of candidate k; -1 for false. */
  function Candidate(t: Tree, s: Step, k: int): (r: int)
    requires IsTree(t) && 0 <= k < |t|
    ensures -1 <= r < k
  {
    match s.c
    case Descendant => Nearest(t, ParentNode, t[k].parent, s.tag)
    case Sibling => Nearest(t, PreviousSibling, t[k].prev, s.tag)
    case Child => if t[k].parent >= 0 && Named(t[t[k].parent], s.tag) then t[k].parent else -1
    case Adjacent =>
      var m := FirstElement(t, t[k].prev);
      if m >= 0 && Named(t[m], s.tag) then m else -1
  }

  /** The candidate left for k after all steps, one at a time and without going back. */
  function Greedy(t: Tree, chain: seq<Step>, k: int): (r: int)
    requires IsTree(t) && -1 <= k < |t|
    ensures -1 <= r <= k
    decreases |chain|
  {
    if k < 0 || chain == [] then k else Greedy(t, chain[1..], Candidate(t, chain[0], k))
  }

  /** The steps end in an exception: some child step finds a candidate that has no parent. */
  predicate Throws(t: Tree, chain: seq<Step>, k: int)
    requires IsTree(t) && -1 <= k < |t|
    decreases |chain|
  {
    k >= 0 && chain != []
    && ((chain[0].c.Child? && t[k].parent < 0) || Throws(t, chain[1..], Candidate(t, chain[0], k)))
  }

  /** What Sizzle returns when there are any steps: nodes whose last candidate is an element. */
  predicate Kept(t: Tree, chain: seq<Step>, k: int)
    requires IsTree(t) && 0 <= k < |t|
  {
    chain == [] || (Greedy(t, chain, k) >= 0 && t[Greedy(t, chain, k)].nodeType == ELEMENT)
  }
}
