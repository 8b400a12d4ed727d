/** The z-order of the elements on a Raphael paper: a doubly linked list edited in place. */
module ZOrder {
  import opened Sequences

  class Element {
    var prev: Element?
    var next: Element?

    constructor ()
    {
      prev, next := null, null;
    }
  }

  // ----- Orders as sequences, from the bottom to the top -----

  function InsertedAt<T>(s: seq<T>, i: nat, x: T): seq<T>
    requires i <= |s|
  {
    s[..i] + [x] + s[i..]
  }

  /** x taken from its place and put just above y. */
  function MovedAfter<T(==)>(s: seq<T>, x: T, y: T): seq<T> {
    var r := Without(s, x);
    var i := IndexOf(r, y);
    InsertedAt(r, if i < |r| then i + 1 else i, x)
  }

  /** x taken from its place and put just below y. */
  function MovedBefore<T(==)>(s: seq<T>, x: T, y: T): seq<T> {
    var r := Without(s, x);
    InsertedAt(r, IndexOf(r, y), x)
  }

  // ----- Links -----

  function Below(s: seq<Element>, i: int): Element? {
    if 0 < i <= |s| then s[i - 1] else null
  }

  function Above(s: seq<Element>, i: int): Element? {
    if 0 <= i + 1 < |s| then s[i + 1] else null
  }

  ghost predicate LinkedAt(s: seq<Element>, i: int)
    requires 0 <= i < |s|
    reads s
  {
    s[i].prev == Below(s, i) && s[i].next == Above(s, i)
  }

  /** The elements of s are linked in that order and to nothing else. */
  ghost predicate Linked(s: seq<Element>)
    reads s
  {
    Distinct(s) && forall i | 0 <= i < |s| :: LinkedAt(s, i)
  }

  lemma RemovedNeighbours(s: seq<Element>, n: int, i: int)
    requires 0 <= n < |s| && 0 <= i < |s| - 1
    ensures var r, j := RemovedAt(s, n), if i < n then i else i + 1;
            && |r| == |s| - 1 && r[i] == s[j]
            && Below(r, i) == Below(s, if j == n + 1 then n else j)
            && Above(r, i) == Above(s, if j == n - 1 then n else j)
            && Above(r, -1) == Above(s, if n == 0 then 0 else -1)
            && Below(r, |r|) == Below(s, if n == |s| - 1 then n else |s|)
  {
  }

  lemma RemovedLength(s: seq<Element>, n: int)
    requires 0 <= n < |s|
    ensures |RemovedAt(s, n)| == |s| - 1
  {
  }

  lemma InsertedNeighbours(s: seq<Element>, n: int, x: Element, i: int)
    requires 0 <= n <= |s| && 0 <= i <= |s|
    ensures var r, j := InsertedAt(s, n, x), if i < n then i else i - 1;
            && |r| == |s| + 1
            && (i == n ==> r[i] == x && Below(r, i) == Below(s, n) && Above(r, i) == Above(s, n - 1))
            && (i != n ==> r[i] == s[j] && Below(r, i) == (if j == n then x else Below(s, j))
                           && Above(r, i) == (if j == n - 1 then x else Above(s, j)))
            && Above(r, -1) == (if n == 0 then x else Above(s, -1))
            && Below(r, |r|) == (if n == |s| then x else Below(s, |s|))
  {
  }

  class Paper {
    var top: Element?
    var bottom: Element?
    ghost var order: seq<Element>

    ghost predicate Valid()
      reads this, order
    {
      Linked(order) && bottom == Above(order, -1) && top == Below(order, |order|)
    }

    constructor ()
      ensures Valid() && order == []
    {
      top, bottom, order := null, null, [];
    }

    /** The registration of a new element, on top of all others. */
    method Append(el: Element)
      requires Valid() && el !in order
      modifies this, order, el
      ensures Valid() && order == old(order) + [el]
    {
      hide Distinct;
      ghost var s := order;
      if bottom == null {
        bottom := el;
      }
      el.prev := top;
      if top != null {
        assert LinkedAt(s, |s| - 1);
        top.next := el;
      }
      top := el;
      el.next := null;
      order := s + [el];
      DistinctInsert(s, |s|, el);
      forall i | 0 <= i < |order|
        ensures LinkedAt(order, i)
      {
        assert i < |s| ==> old(LinkedAt(s, i)) && s[i] in s;
      }
    }

    /** Unlinks el, whose own links are left as they were. */
    method Tear(el: Element)
      requires Valid() && el in order
      modifies this, order
      ensures Valid() && order == Without(old(order), el) && el !in order
      ensures el.prev == old(el.prev) && el.next == old(el.next)
    {
      hide Distinct, RemovedAt;
      ghost var s: seq<Element>, n: int := order, IndexOf(order, el);
      DistinctRemove(s, n);
      assert Neighbours(s, n);
      if el == top {
        top := el.prev;
      }
      if el == bottom {
        bottom := el.next;
      }
      if el.next != null {
        el.next.prev := el.prev;
      }
      if el.prev != null {
        el.prev.next := el.next;
      }
      order := RemovedAt(s, n);
      if |s| > 1 {
        RemovedNeighbours(s, n, 0);
      }
      RemovedLength(s, n);
      forall i | 0 <= i < |order|
        ensures LinkedAt(order, i)
      {
        var j := if i < n then i else i + 1;
        RemovedNeighbours(s, n, i);
        assert old(LinkedAt(s, j)) && s[j] in s;
        DistinctAt(s, j, n - 1);
        DistinctAt(s, j, n + 1);
      }
    }

    method ToFront(el: Element)
      requires Valid() && el in order
      modifies this, order
      ensures Valid() && order == Without(old(order), el) + [el]
    {
      hide Distinct;
      if top == el {
        LastIndex(order, el);
        return;
      }
      OthersRemain(order, el, top);
      Tear(el);
      LinkOnTop(el);
    }

    method ToBack(el: Element)
      requires Valid() && el in order
      modifies this, order
      ensures Valid() && order == [el] + Without(old(order), el)
    {
      hide Distinct;
      if bottom == el {
        FirstIndex(order, el);
        return;
      }
      OthersRemain(order, el, bottom);
      Tear(el);
      LinkAtBottom(el);
    }

    /** Moves el to just above el2. */
    method InsertAfter(el: Element, el2: Element)
      requires Valid() && el in order && el2 in order && el != el2
      modifies this, order
      ensures Valid() && order == MovedAfter(old(order), el, el2)
    {
      OthersRemain(order, el, el2);
      Tear(el);
      LinkAfter(el, el2);
    }

    /** Moves el to just below el2. */
    method InsertBefore(el: Element, el2: Element)
      requires Valid() && el in order && el2 in order && el != el2
      modifies this, order
      ensures Valid() && order == MovedBefore(old(order), el, el2)
    {
      OthersRemain(order, el, el2);
      Tear(el);
      LinkBefore(el, el2);
    }

    // ----- The second halves of the four moves, for an element that has been torn out -----

    method LinkOnTop(el: Element)
      requires Valid() && el !in order && order != []
      modifies this, order, el
      ensures Valid() && order == old(order) + [el]
    {
      hide Distinct;
      ghost var s := order;
      el.next := null;
      el.prev := top;
      assert LinkedAt(s, |s| - 1);
      top.next := el;
      top := el;
      order := s + [el];
      DistinctInsert(s, |s|, el);
      forall i | 0 <= i < |order|
        ensures LinkedAt(order, i)
      {
        if i < |s| {
          assert old(LinkedAt(s, i)) && s[i] in s;
          DistinctAt(s, i, |s| - 1);
        }
      }
    }

    method LinkAtBottom(el: Element)
      requires Valid() && el !in order && order != []
      modifies this, order, el
      ensures Valid() && order == [el] + old(order)
    {
      hide Distinct;
      ghost var s := order;
      el.next := bottom;
      el.prev := null;
      assert LinkedAt(s, 0);
      bottom.prev := el;
      bottom := el;
      order := [el] + s;
      DistinctInsert(s, 0, el);
      forall i | 0 <= i < |order|
        ensures LinkedAt(order, i)
      {
        if i > 0 {
          assert old(LinkedAt(s, i - 1)) && s[i - 1] in s;
          DistinctAt(s, i - 1, 0);
        }
      }
    }

    method LinkAfter(el: Element, el2: Element)
      requires Valid() && el !in order && el2 in order
      modifies this, order, el
      ensures Valid() && order == InsertedAt(old(order), IndexOf(old(order), el2) + 1, el)
    {
      hide Distinct, InsertedAt;
      ghost var s: seq<Element>, n: int := order, IndexOf(order, el2);
      assert Neighbours(s, n);
      if el2 == top {
        DistinctAt(s, n, |s| - 1);
        top := el;
      }
      if el2.next != null {
        el2.next.prev := el;
      }
      el.next := el2.next;
      el.prev := el2;
      el2.next := el;
      order := InsertedAt(s, n + 1, el);
      InsertedNeighbours(s, n + 1, el, 0);
      DistinctInsert(s, n + 1, el);
      forall i | 0 <= i < |order|
        ensures LinkedAt(order, i)
      {
        InsertedNeighbours(s, n + 1, el, i);
        if i != n + 1 {
          var j := if i <= n then i else i - 1;
          assert old(LinkedAt(s, j)) && s[j] in s;
          DistinctAt(s, j, n);
          DistinctAt(s, j, n + 1);
        }
      }
    }

    method LinkBefore(el: Element, el2: Element)
      requires Valid() && el !in order && el2 in order
      modifies this, order, el
      ensures Valid() && order == InsertedAt(old(order), IndexOf(old(order), el2), el)
    {
      hide Distinct, InsertedAt;
      ghost var s: seq<Element>, n: int := order, IndexOf(order, el2);
      assert Neighbours(s, n);
      if el2 == bottom {
        DistinctAt(s, n, 0);
        bottom := el;
      }
      if el2.prev != null {
        el2.prev.next := el;
      }
      el.prev := el2.prev;
      el2.prev := el;
      el.next := el2;
      order := InsertedAt(s, n, el);
      InsertedNeighbours(s, n, el, 0);
      DistinctInsert(s, n, el);
      forall i | 0 <= i < |order|
        ensures LinkedAt(order, i)
      {
        InsertedNeighbours(s, n, el, i);
        if i != n {
          var j := if i < n then i else i - 1;
          assert old(LinkedAt(s, j)) && s[j] in s;
          DistinctAt(s, j, n - 1);
          DistinctAt(s, j, n);
        }
      }
    }
  }

  lemma OthersRemain<T>(s: seq<T>, x: T, y: T)
    requires x in s && y in s && x != y
    ensures y in Without(s, x)
  {
    var i, j := IndexOf(s, x), IndexOf(s, y);
    assert RemovedAt(s, i)[if j < i then j else j - 1] == y;
  }

  lemma DistinctAt<T>(s: seq<T>, i: int, j: int)
    requires Distinct(s) && 0 <= i < |s|
    ensures 0 <= j < |s| && i != j ==> s[i] != s[j]
  {
  }

  lemma DistinctInsert<T>(s: seq<T>, i: nat, x: T)
    requires Distinct(s) && i <= |s| && x !in s
    ensures Distinct(InsertedAt(s, i, x))
    ensures Distinct(s + [x]) && Distinct([x] + s)
  {
  }

  lemma DistinctRemove<T>(s: seq<T>, i: nat)
    requires Distinct(s) && i < |s|
    ensures Distinct(RemovedAt(s, i)) && s[i] !in RemovedAt(s, i)
  {
  }

  /** The element at n and those it links to are linked in turn. */
  ghost predicate Neighbours(s: seq<Element>, n: int)
    requires 0 <= n < |s|
    reads s
  {
    LinkedAt(s, n) && (n > 0 ==> LinkedAt(s, n - 1)) && (n + 1 < |s| ==> LinkedAt(s, n + 1))
  }

  // ----- What the moves do to the order -----

  lemma FirstIndex<T>(s: seq<T>, x: T)
    requires s != [] && s[0] == x
    ensures s == [x] + Without(s, x)
  {
  }

  lemma {:induction false} LastIndex<T>(s: seq<T>, x: T)
    requires Distinct(s) && s != [] && s[|s| - 1] == x
    ensures s == Without(s, x) + [x]
  {
    assert IndexOf(s, x) == |s| - 1;
  }

  lemma {:induction false} IndexUnique<T>(s: seq<T>, x: T, i: nat)
    requires Distinct(s) && i < |s| && s[i] == x
    ensures IndexOf(s, x) == i
  {
  }

  lemma {:induction false} WithoutInserted<T>(s: seq<T>, i: nat, x: T)
    requires Distinct(s) && i <= |s| && x !in s
    ensures Without(InsertedAt(s, i, x), x) == s
  {
    var r := InsertedAt(s, i, x);
    DistinctInsert(s, i, x);
    IndexUnique(r, x, i);
    assert RemovedAt(r, i) == s;
  }

  /** Every move leaves all other elements in the order they had. */
  lemma {:induction false} MovesKeepOthers<T>(s: seq<T>, x: T, y: T)
    requires Distinct(s) && x in s
    ensures Without(Without(s, x) + [x], x) == Without(s, x)
    ensures Without([x] + Without(s, x), x) == Without(s, x)
    ensures Without(MovedAfter(s, x, y), x) == Without(s, x)
    ensures Without(MovedBefore(s, x, y), x) == Without(s, x)
  {
    hide Distinct, InsertedAt, RemovedAt;
    var r, i := Without(s, x), IndexOf(s, x);
    DistinctRemove(s, i);
    assert r == RemovedAt(s, i);
    hide Without;
    var n := IndexOf(r, y);
    WithoutInserted(r, |r|, x);
    WithoutInserted(r, 0, x);
    WithoutInserted(r, n, x);
    WithoutInserted(r, if n < |r| then n + 1 else n, x);
    InsertedAtEnds(r, x);
  }

  lemma InsertedAtEnds<T>(s: seq<T>, x: T)
    ensures InsertedAt(s, |s|, x) == s + [x] && InsertedAt(s, 0, x) == [x] + s
  {
  }

  /** insertafter and insertbefore put x right next to y. */
  lemma {:induction false} MovedNextTo<T>(s: seq<T>, x: T, y: T)
    requires Distinct(s) && x in s && y in s && x != y
    ensures IndexOf(MovedAfter(s, x, y), x) == IndexOf(MovedAfter(s, x, y), y) + 1
    ensures IndexOf(MovedBefore(s, x, y), x) + 1 == IndexOf(MovedBefore(s, x, y), y)
  {
    hide Distinct, InsertedAt, RemovedAt;
    var r, i := Without(s, x), IndexOf(s, x);
    DistinctRemove(s, i);
    assert r == RemovedAt(s, i);
    OthersRemain(s, x, y);
    hide Without;
    InsertedNextTo(r, x, y);
  }

  lemma {:induction false} InsertedNextTo<T>(r: seq<T>, x: T, y: T)
    requires Distinct(r) && x !in r && y in r
    ensures var n := IndexOf(r, y);
            && IndexOf(InsertedAt(r, n + 1, x), x) == n + 1 && IndexOf(InsertedAt(r, n + 1, x), y) == n
            && IndexOf(InsertedAt(r, n, x), x) == n && IndexOf(InsertedAt(r, n, x), y) == n + 1
  {
    hide Distinct;
    var n := IndexOf(r, y);
    DistinctInsert(r, n, x);
    DistinctInsert(r, n + 1, x);
    IndexUnique(InsertedAt(r, n + 1, x), x, n + 1);
    IndexUnique(InsertedAt(r, n + 1, x), y, n);
    IndexUnique(InsertedAt(r, n, x), x, n);
    IndexUnique(InsertedAt(r, n, x), y, n + 1);
  }

  /** Raising an element to the front is undone by moving it back above the one it was above. */
  lemma {:induction false} ToFrontUndone<T>(s: seq<T>, i: nat)
    requires Distinct(s) && 0 < i < |s|
    ensures MovedAfter(Without(s, s[i]) + [s[i]], s[i], s[i - 1]) == s
  {
    var x, y := s[i], s[i - 1];
    var r := Without(s, x);
    IndexUnique(s, x, i);
    DistinctRemove(s, i);
    assert InsertedAt(r, |r|, x) == r + [x];
    WithoutInserted(r, |r|, x);
    IndexUnique(r, y, i - 1);
    assert InsertedAt(r, i, x) == s;
  }
}
