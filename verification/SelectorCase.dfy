/** Letter case: which names Sizzle takes for a tag, and that writing tags or names in another case changes
    nothing where case does not count. */
module SelectorCase {
  import opened Selectors
  import opened SelectorEngine

  const CAPITALS := "ABCDEFGHIJKLMNOPQRSTUVWXYZ"
  const SMALL := "abcdefghijklmnopqrstuvwxyz"

  /** The same character, or the two forms of one letter. */
  ghost predicate SameLetter(c: char, d: char) {
    c == d || exists k :: 0 <= k < 26 && {c, d} == {CAPITALS[k], SMALL[k]}
  }

  ghost predicate SameLetters(s: string, r: string) {
    |s| == |r| && forall i | 0 <= i < |s| :: SameLetter(s[i], r[i])
  }

  lemma Alphabets(k: int)
    requires 0 <= k < 26
    ensures CAPITALS[k] == 'A' + k as char && SMALL[k] == 'a' + k as char
  {
  }

  lemma LowerLetter(c: char, d: char)
    ensures SameLetter(c, d) <==> LowerCase([c]) == LowerCase([d])
  {
    hide LowerCase;
    if SameLetter(c, d) && c != d {
      var k :| 0 <= k < 26 && {c, d} == {CAPITALS[k], SMALL[k]};
      FormsOfLetter(k);
      assert c in {CAPITALS[k], SMALL[k]} && d in {CAPITALS[k], SMALL[k]};
    }
    if LowerCase([c]) == LowerCase([d]) && c != d {
      var k := LetterOf(c, d);
      assert {c, d} == {CAPITALS[k], SMALL[k]};
    }
  }

  lemma FormsOfLetter(k: int)
    requires 0 <= k < 26
    ensures LowerCase([CAPITALS[k]]) == LowerCase([SMALL[k]]) == [SMALL[k]]
  {
    Alphabets(k);
  }

  lemma LetterOf(c: char, d: char) returns (k: int)
    requires LowerCase([c]) == LowerCase([d]) && c != d
    ensures 0 <= k < 26 && ((c == CAPITALS[k] && d == SMALL[k]) || (c == SMALL[k] && d == CAPITALS[k]))
  {
    assert LowerCase([c])[0] == LowerCase([d])[0];
    k := if 'A' <= c <= 'Z' then c as int - 'A' as int else d as int - 'A' as int;
    Alphabets(k);
  }

  /** A node has the name of a tag, for Sizzle, if both are the same but for the case of their letters. */
  lemma NamedIsSameLetters(n: Node, tag: string)
    ensures Named(n, tag) <==> SameLetters(n.name, tag)
  {
    hide SameLetter;
    forall i | 0 <= i < |n.name| && i < |tag|
      ensures LowerCase(n.name)[i] == LowerCase(tag)[i] <==> SameLetter(n.name[i], tag[i])
    {
      LowerLetter(n.name[i], tag[i]);
      assert LowerCase([n.name[i]])[0] == LowerCase(n.name)[i] && LowerCase([tag[i]])[0] == LowerCase(tag)[i];
    }
    if SameLetters(n.name, tag) {
      assert LowerCase(n.name) == LowerCase(tag);
    }
  }

  // ----- Another case -----

  /** The same nodes with the same links, but for the case of their names. */
  ghost predicate SameNodes(t: Tree, t': Tree) {
    |t| == |t'| && forall k | 0 <= k < |t| :: SameLetters(t[k].name, t'[k].name) && t'[k] == t[k].(name := t'[k].name)
  }

  ghost predicate SameSteps(chain: seq<Step>, chain': seq<Step>) {
    |chain| == |chain'|
    && forall i | 0 <= i < |chain| :: chain[i].c == chain'[i].c && SameLetters(chain[i].tag, chain'[i].tag)
  }

  ghost predicate SameNames(t: Tree, t': Tree, tag: string, tag': string)
    requires |t| == |t'|
  {
    forall k | 0 <= k < |t| :: Named(t[k], tag) == Named(t'[k], tag')
  }

  lemma {:induction false} NamesAgree(t: Tree, t': Tree, tag: string, tag': string)
    requires SameNodes(t, t') && SameLetters(tag, tag')
    ensures SameNames(t, t', tag, tag')
  {
    hide SameLetters;
    NamedIsSameLetters(Node(1, tag, true, -1, -1), tag');
    forall k | 0 <= k < |t|
      ensures Named(t[k], tag) == Named(t'[k], tag')
    {
      NamedIsSameLetters(t[k], t'[k].name);
    }
  }

  lemma {:induction false} TreesAgree(t: Tree, t': Tree)
    requires SameNodes(t, t')
    ensures IsTree(t) == IsTree(t')
  {
    hide SameLetters;
  }

  lemma {:induction false} NearestAgrees(t: Tree, t': Tree, dir: Direction, k: int, tag: string, tag': string)
    requires IsTree(t) && IsTree(t') && SameNodes(t, t') && SameNames(t, t', tag, tag') && -1 <= k < |t|
    ensures Nearest(t, dir, k, tag) == Nearest(t', dir, k, tag')
    decreases k
  {
    hide SameLetters, Named;
    if k < 0 || Named(t[k], tag) {
    } else {
      NearestAgrees(t, t', dir, Link(t, dir, k), tag, tag');
    }
  }

  lemma {:induction false} FirstElementAgrees(t: Tree, t': Tree, k: int)
    requires IsTree(t) && IsTree(t') && SameNodes(t, t') && -1 <= k < |t|
    ensures FirstElement(t, k) == FirstElement(t', k)
    decreases k
  {
    hide SameLetters;
    if k < 0 || t[k].nodeType == ELEMENT {
    } else {
      FirstElementAgrees(t, t', t[k].prev);
    }
  }

  lemma {:induction false} CandidateAgrees(t: Tree, t': Tree, s: Step, s': Step, k: int)
    requires IsTree(t) && IsTree(t') && SameNodes(t, t') && 0 <= k < |t|
    requires s.c == s'.c && SameLetters(s.tag, s'.tag)
    ensures Candidate(t, s, k) == Candidate(t', s', k)
  {
    hide SameLetters, Named;
    NamesAgree(t, t', s.tag, s'.tag);
    NearestAgrees(t, t', ParentNode, t[k].parent, s.tag, s'.tag);
    NearestAgrees(t, t', PreviousSibling, t[k].prev, s.tag, s'.tag);
    FirstElementAgrees(t, t', t[k].prev);
  }

  /** Nothing that Sizzle does depends on the case of tags and names, in any document. */
  lemma {:induction false} KeptInAnyCase(t: Tree, t': Tree, chain: seq<Step>, chain': seq<Step>, k: int)
    requires IsTree(t) && SameNodes(t, t') && SameSteps(chain, chain') && -1 <= k < |t|
    ensures IsTree(t')
    ensures Greedy(t, chain, k) == Greedy(t', chain', k) && Throws(t, chain, k) == Throws(t', chain', k)
    ensures k >= 0 ==> Kept(t, chain, k) == Kept(t', chain', k)
    decreases |chain|
  {
    hide SameLetters;
    TreesAgree(t, t');
    if k < 0 || chain == [] {
    } else {
      CandidateAgrees(t, t', chain[0], chain'[0], k);
      KeptInAnyCase(t, t', chain[1..], chain'[1..], Candidate(t, chain[0], k));
    }
  }

  /** So the results of an evaluation are the same. */
  lemma {:induction false} ResultsInAnyCase(t: Tree, t': Tree, chain: seq<Step>, chain': seq<Step>, found: seq<int>)
    requires IsTree(t) && IsTree(t') && SameNodes(t, t') && SameSteps(chain, chain') && AreNodes(t, found)
    ensures KeptOf(t, chain, found) == KeptOf(t', chain', found)
  {
    if found == [] {
    } else {
      var i := |found| - 1;
      ResultsInAnyCase(t, t', chain, chain', found[..i]);
      KeptInAnyCase(t, t', chain, chain', found[i]);
    }
  }

  // ----- What the selector means -----

  ghost predicate AllFold(t: Tree) {
    forall k | 0 <= k < |t| && t[k].nodeType == ELEMENT :: t[k].folds
  }

  lemma {:induction false} ReachesAgrees(t: Tree, t': Tree, dir: Direction, k: int, m: int)
    requires IsTree(t) && IsTree(t') && SameNodes(t, t') && k < |t|
    ensures Reaches(t, dir, k, m) == Reaches(t', dir, k, m)
    decreases k
  {
    hide SameLetters;
    if k >= 0 {
      ReachesAgrees(t, t', dir, Link(t, dir, k), m);
    }
  }

  lemma {:induction false} RelatesAgrees(t: Tree, t': Tree, c: Combinator, k: int, m: int)
    requires IsTree(t) && IsTree(t') && SameNodes(t, t') && 0 <= k < |t| && 0 <= m < |t|
    ensures Relates(t, c, k, m) == Relates(t', c, k, m)
  {
    hide SameLetters;
    forall dir, i, j | 0 <= i < |t|
      ensures Reaches(t, dir, i, j) == Reaches(t', dir, i, j)
    {
      ReachesAgrees(t, t', dir, i, j);
    }
    hide Reaches;
  }

  /** Where all elements fold, the case of tags and names does not change what a selector means. */
  lemma {:induction false} MatchesInAnyCase(t: Tree, t': Tree, chain: seq<Step>, chain': seq<Step>, k: int)
    requires IsTree(t) && IsTree(t') && SameNodes(t, t') && SameSteps(chain, chain') && 0 <= k < |t| && AllFold(t)
    ensures Matches(t, chain, k) == Matches(t', chain', k)
    decreases |chain|
  {
    hide SameLetters, Relates;
    if chain == [] {
    } else {
      var s, s' := chain[0], chain'[0];
      NamesAgree(t, t', s.tag, s'.tag);
      forall m | 0 <= m < |t|
        ensures (Relates(t, s.c, k, m) && Rightly(t[m], s.tag) && Matches(t, chain[1..], m))
             == (Relates(t', s'.c, k, m) && Rightly(t'[m], s'.tag) && Matches(t', chain'[1..], m))
      {
        RelatesAgrees(t, t', s.c, k, m);
        MatchesInAnyCase(t, t', chain[1..], chain'[1..], m);
      }
    }
  }

  /** On an HTML page, whose names are in capitals, "div p" finds a paragraph in a DIV. */
  lemma {:induction false} CapitalsAreFound()
    ensures var t := [Node(9, "#document", false, -1, -1), Node(1, "DIV", true, 0, -1),
                      Node(1, "P", true, 1, -1)];
            IsTree(t) && Kept(t, [Step(Descendant, "div")], 2) && Matches(t, [Step(Descendant, "div")], 2)
  {
    var t := [Node(9, "#document", false, -1, -1), Node(1, "DIV", true, 0, -1), Node(1, "P", true, 1, -1)];
    var chain := [Step(Descendant, "div")];
    assert Named(t[1], "div");
    assert chain[1..] == [];
    assert Candidate(t, chain[0], 2) == 1;
    assert Relates(t, Descendant, 2, 1) && Rightly(t[1], "div") && Matches(t, chain[1..], 1);
  }
}
