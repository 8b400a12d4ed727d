/** The bool query that elasticsearch-head's Query builds, with the default clause that it puts in
    when there is no other and takes out again. */
module QueryBuilder {
  import opened Sequences
  import opened Wrappers

  datatype Occur = Must | MustNot | Should

  /** What a clause object says: its properties, and at the bottom a field's name or a caller's value. */
  datatype Json = Value(v: int) | Text(s: string) | Object(fields: map<string, Json>)

  const MATCH_ALL := Object(map["match_all" := Object(map[])])

  /** A clause object: arrays are searched for it by identity, which here is a number of its own,
      negative for an object that a deep copy has made. */
  datatype Clause = Clause(identity: int, content: Json)

  /** Ids are "q-" or "f-" and a number from one counter. */
  datatype Id = Q(n: nat) | F(n: nat)

  datatype Ref = Ref(clause: Clause, occur: Occur)

  lemma {:induction false} RemovedKeeps(s: seq<Clause>, c: Clause, d: Clause)
    requires Distinct(s)
    ensures d in Without(s, c) <==> d in s && d != c
  {
    var i := IndexOf(s, c);
    if i < |s| {
      var front, back := s[..i], s[i + 1..];
      assert s == front + [c] + back;
      assert d in s <==> d in front || d == c || d in back;
      assert c !in front && c !in back;
    }
  }

  lemma {:induction false} RemovedDistinct(s: seq<Clause>, c: Clause)
    requires Distinct(s)
    ensures Distinct(Without(s, c))
    ensures |Without(s, c)| == |s| - if c in s then 1 else 0
    ensures c !in s ==> Without(s, c) == s
  {
  }

  // ----- The bool query -----

  /** search.query.bool. */
  datatype Bool = Bool(must: seq<Clause>, mustNot: seq<Clause>, should: seq<Clause>) {
    function Of(o: Occur): seq<Clause> {
      match o
      case Must => must
      case MustNot => mustNot
      case Should => should
    }

    function With(o: Occur, s: seq<Clause>): Bool {
      match o
      case Must => this.(must := s)
      case MustNot => this.(mustNot := s)
      case Should => this.(should := s)
    }

    function Size(): nat {
      |must| + |should|
    }
  }

  /** The reference under an id is to the clause with its number, and numbers are below the counter. */
  predicate Refs(refmap: map<Id, Ref>, refuid: nat) {
    forall id | id in refmap :: id.Q? && id.n < refuid && refmap[id].clause.identity == id.n
  }

  /** Clause c stands in the array of o by right. */
  predicate Belongs(refmap: map<Id, Ref>, ids: set<Id>, o: Occur, c: Clause) {
    c.identity >= 0 && Q(c.identity) in ids && Q(c.identity) in refmap && refmap[Q(c.identity)] == Ref(c, o)
  }

  /** Besides copies, the three arrays hold exactly the clauses of these ids, each once and where it
      was added. */
  ghost predicate Holds(q: Bool, refmap: map<Id, Ref>, ids: set<Id>) {
    && (forall o: Occur :: Distinct(q.Of(o)))
    && (forall id | id in ids :: id in refmap && refmap[id].clause in q.Of(refmap[id].occur))
    && (forall o: Occur, c | c in q.Of(o) && c.identity >= 0 :: Belongs(refmap, ids, o, c))
  }

  /** No clause is a copy. */
  ghost predicate Own(q: Bool) {
    forall o: Occur, c | c in q.Of(o) :: c.identity >= 0
  }

  lemma {:induction false} AddedElements(q: Bool, refmap: map<Id, Ref>, refuid: nat, ids: set<Id>, ref: Ref,
                                         o: Occur, c: Clause)
    requires Refs(refmap, refuid) && Holds(q, refmap, ids) && ref.clause.identity == refuid
    requires c in q.With(ref.occur, q.Of(ref.occur) + [ref.clause]).Of(o)
    ensures c in q.Of(o) || c == ref.clause
    ensures c.identity >= 0 ==> Belongs(refmap[Q(refuid) := ref], ids + {Q(refuid)}, o, c)
  {
    if c in q.Of(o) && c.identity >= 0 {
      assert Belongs(refmap, ids, o, c);
    }
  }

  lemma {:induction false} HoldsAdded(q: Bool, refmap: map<Id, Ref>, refuid: nat, ids: set<Id>, ref: Ref)
    requires Refs(refmap, refuid) && Holds(q, refmap, ids) && ref.clause.identity == refuid
    ensures Refs(refmap[Q(refuid) := ref], refuid + 1)
    ensures Holds(q.With(ref.occur, q.Of(ref.occur) + [ref.clause]), refmap[Q(refuid) := ref], ids + {Q(refuid)})
    ensures Own(q) ==> Own(q.With(ref.occur, q.Of(ref.occur) + [ref.clause]))
  {
    var o, c := ref.occur, ref.clause;
    var r, next := q.With(o, q.Of(o) + [c]), refmap[Q(refuid) := ref];
    forall o', d | d in r.Of(o')
      ensures d in q.Of(o') || d == c
      ensures d.identity >= 0 ==> Belongs(next, ids + {Q(refuid)}, o', d)
    {
      AddedElements(q, refmap, refuid, ids, ref, o', d);
    }
    assert !Belongs(refmap, ids, o, c);
    hide Belongs;
    forall o': Occur
      ensures Distinct(r.Of(o'))
    {
      assert Distinct(q.Of(o'));
    }
    forall id | id in ids + {Q(refuid)}
      ensures id in next && next[id].clause in r.Of(next[id].occur)
    {
      if id != Q(refuid) {
        assert next[id] == refmap[id];
      }
    }
  }

  lemma IssuedBefore(refmap: map<Id, Ref>, refuid: nat, id: Id)
    requires Refs(refmap, refuid) && id in refmap
    ensures id != Q(refuid)
  {
  }

  lemma HoldsRemoved(q: Bool, refmap: map<Id, Ref>, refuid: nat, ids: set<Id>, id: Id)
    requires Refs(refmap, refuid) && Holds(q, refmap, ids) && id in refmap
    ensures var Ref(c, o) := refmap[id];
            var r := q.With(o, Without(q.Of(o), c));
            && Holds(r, refmap, ids - {id})
            && r.Size() == q.Size() - (if id in ids && o != MustNot then 1 else 0)
            && (id !in ids ==> r == q) && (Own(q) ==> Own(r))
  {
    hide Without;
    var Ref(c, o) := refmap[id];
    var r := q.With(o, Without(q.Of(o), c));
    RemovedDistinct(q.Of(o), c);
    if c in q.Of(o) {
      assert Belongs(refmap, ids, o, c);
    }
    forall id' | id' in ids - {id}
      ensures id' in refmap && refmap[id'].clause in r.Of(refmap[id'].occur)
    {
      assert id'.Q? && id.Q? && id'.n != id.n;
      RemovedKeeps(q.Of(o), c, refmap[id'].clause);
    }
    forall o': Occur
      ensures Distinct(r.Of(o'))
    {
      assert Distinct(q.Of(o'));
      assert r.Of(o') == if o' == o then Without(q.Of(o), c) else q.Of(o');
    }
    forall o', d | d in r.Of(o')
      ensures d in q.Of(o') && (d.identity >= 0 ==> Belongs(refmap, ids - {id}, o', d))
    {
      RemovedKeeps(q.Of(o), c, d);
      if d.identity >= 0 {
        assert Belongs(refmap, ids, o', d);
      }
    }
  }

  // ----- The builder -----

  function Dropped(q: Bool, ref: Ref): Bool {
    q.With(ref.occur, Without(q.Of(ref.occur), ref.clause))
  }

  /** What _setClause makes of its arguments. */
  function ContentOf(value: int, field: string, op: string): Json {
    if op == "match_all" then MATCH_ALL
    else if op == "query_string" then
      Object(map[op := Object(map["default_field" := Text(field), "query" := Value(value)])])
    else if op == "missing" then
      var missing := Object(map["field" := Text(field)]);
      var filter := Object(map["missing" := missing]);
      Object(map["constant_score" := Object(map["filter" := filter])])
    else Object(map[op := Object(map[field := Value(value)])])
  }

  /** What addClause makes of its arguments: an empty one stands for the default. */
  function RefOf(refuid: nat, value: int, field: string, op: string, occur: Option<Occur>): Ref {
    Ref(Clause(refuid, ContentOf(value, if field == "" then "_all" else field, if op == "" then "match_all" else op)),
        if occur.None? then Should else occur.value)
  }

  // ----- What callers ask for -----

  /** The arguments of a caller's addClause; an empty text or None is an absent one. */
  datatype Call = Call(value: int, field: string, op: string, occur: Option<Occur>)

  /** The clause that Elasticsearch takes for what the caller means. */
  predicate Expresses(c: Json, call: Call) {
    var field := if call.field == "" then "_all" else call.field;
    match call.op
    case "" => c == Object(map["match_all" := Object(map[])])
    case "match_all" => c == Object(map["match_all" := Object(map[])])
    case "query_string" =>
      c == Object(map["query_string" := Object(map["default_field" := Text(field), "query" := Value(call.value)])])
    case "missing" =>
      c == Object(map["constant_score" := Object(map["filter" := Object(map["missing" :=
             Object(map["field" := Text(field)])])])])
    case op => c == Object(map[op := Object(map[field := Value(call.value)])])
  }

  predicate Requires(call: Call) {
    call.occur == Some(Must)
  }

  predicate Forbids(call: Call) {
    call.occur == Some(MustNot)
  }

  predicate Files(ref: Ref, call: Call) {
    && Expresses(ref.clause.content, call)
    && (ref.occur == Must <==> Requires(call)) && (ref.occur == MustNot <==> Forbids(call))
  }

  /** addClause makes what its caller asks for. */
  lemma RefIsFiled(refuid: nat, call: Call)
    ensures Files(RefOf(refuid, call.value, call.field, call.op, call.occur), call)
  {
  }

  /** The three arrays after a call: the new clause ends the one that the caller asks for, and the
      default leaves if it stood alone and the new clause is scored. */
  ghost predicate Takes(was: Bool, now: Bool, default: Clause, c: Clause, call: Call) {
    var should := if !Forbids(call) && was.must == [] && was.should == [default] then [] else was.should;
    now == if Requires(call) then Bool(was.must + [c], was.mustNot, should)
           else if Forbids(call) then Bool(was.must, was.mustNot + [c], should)
           else Bool(was.must, was.mustNot, should + [c])
  }

  class Query {
    var must: seq<Clause>
    var mustNot: seq<Clause>
    var should: seq<Clause>
    var refuid: nat
    var refmap: map<Id, Ref>
    var aggs: map<Id, int>
    var sort: seq<Sort>
    var defaultClause: Id

    /** The calls of addClause whose clauses have not been removed. */
    ghost var asked: map<Id, Call>

    function Built(): Bool
      reads this
    {
      Bool(must, mustNot, should)
    }

    /** _setClause: the new clause goes to the end of its array. */
    method SetClause(value: int, field: string, op: string, occur: Occur) returns (clause: Clause)
      modifies this`must, this`mustNot, this`should
      ensures clause == Clause(refuid, ContentOf(value, field, op))
      ensures Built() == old(Built()).With(occur, old(Built()).Of(occur) + [clause])
    {
      clause := Clause(refuid, ContentOf(value, field, op));
      match occur {
        case Must => must := must + [clause];
        case MustNot => mustNot := mustNot + [clause];
        case Should => should := should + [clause];
      }
    }

    /** addClause, in any state whose arrays hold the clauses of `present`: adds the new one and takes
        the default out when there are then two must and should clauses or more. */
    method AddClause(value: int, field0: string, op0: string, occur0: Option<Occur>, ghost present: set<Id>)
      returns (id: Id)
      requires Refs(refmap, refuid) && Holds(Built(), refmap, present)
      requires Built().Size() > 0 ==> defaultClause in refmap
      modifies this`must, this`mustNot, this`should, this`refuid, this`refmap, this`defaultClause
      ensures var ref := RefOf(old(refuid), value, field0, op0, occur0);
              var size := old(Built().Size()) + if ref.occur == MustNot then 0 else 1;
              && id == Q(old(refuid)) && refuid == old(refuid) + 1
              && refmap == old(refmap)[id := ref]
              && Refs(refmap, refuid)
              && Holds(Built(), refmap, present + {id} - if size > 1 then {defaultClause} else {})
              && (size > 0 ==> Built().Size() > 0) && (old(Own(Built())) ==> Own(Built()))
              && (var added := old(Built()).With(ref.occur, old(Built()).Of(ref.occur) + [ref.clause]);
                  Built() == if size > 1 then Dropped(added, old(refmap[defaultClause])) else added)
      ensures defaultClause == old(defaultClause)
      decreases if Built().Size() == 0 then 0 else 2
    {
      hide Holds, Refs, Own, ContentOf, Without;
      var occur := if occur0.None? then Should else occur0.value;
      var op := if op0 == "" then "match_all" else op0;
      var field := if field0 == "" then "_all" else field0;
      var clause := SetClause(value, field, op, occur);
      HoldsAdded(old(Built()), refmap, refuid, present, Ref(clause, occur));
      id := Q(refuid);
      refuid := refuid + 1;
      refmap := refmap[id := Ref(clause, occur)];
      if |must| + |should| > 1 {
        IssuedBefore(old(refmap), old(refuid), defaultClause);
        RemoveClause(defaultClause, present + {id});
      } else {
        assert present + {id} - {} == present + {id};
      }
    }

    /** removeClause: takes the clause out if its array still has it, and puts a new default in when
        no must or should clause is left. */
    method RemoveClause(id: Id, ghost present: set<Id>)
      requires Refs(refmap, refuid) && Holds(Built(), refmap, present) && id in refmap
      modifies this`must, this`mustNot, this`should, this`refuid, this`refmap, this`defaultClause
      ensures var size := old(Built().Size()) - if id in present && old(refmap[id].occur) != MustNot then 1 else 0;
              && Refs(refmap, refuid) && Built().Size() > 0 && (old(Own(Built())) ==> Own(Built()))
              && (id !in present && size > 0 ==> Built() == old(Built()))
              && (var dropped := Dropped(old(Built()), old(refmap[id]));
                  Built() == if size > 0 then dropped
                             else dropped.(should := dropped.should + [Clause(defaultClause.n, MATCH_ALL)]))
              && (if size > 0 then
                    && refuid == old(refuid) && refmap == old(refmap) && defaultClause == old(defaultClause)
                    && Holds(Built(), refmap, present - {id})
                  else
                    && defaultClause == Q(old(refuid)) && refuid == old(refuid) + 1
                    && refmap == old(refmap)[defaultClause := Ref(Clause(defaultClause.n, MATCH_ALL), Should)]
                    && Holds(Built(), refmap, present - {id} + {defaultClause}))
      decreases 1
    {
      hide Holds, Refs, Own, Without;
      HoldsRemoved(Built(), refmap, refuid, present, id);
      var ref := refmap[id];
      match ref.occur {
        case Must => must := Without(must, ref.clause);
        case MustNot => mustNot := Without(mustNot, ref.clause);
        case Should => should := Without(should, ref.clause);
      }
      if |must| + |should| == 0 {
        var added := AddClause(0, "", "", None, present - {id});
        defaultClause := added;
        assert present - {id} + {added} - {} == present - {id} + {added};
      }
    }

    // ----- Runs of calls from outside -----

    ghost predicate Valid()
      reads this
    {
      && Refs(refmap, refuid) && IsDefault(refmap, asked.Keys, defaultClause)
      && Holds(Built(), refmap, Present(refmap, asked.Keys, defaultClause)) && Own(Built())
      && (forall id | id in asked :: id in refmap && Files(refmap[id], asked[id]))
      && (forall id | id in aggs :: id.F? && id.n < refuid)
    }

    /** The new query: no clause but the default. */
    constructor ()
      ensures Valid() && asked == map[] && defaultClause == Q(0)
      ensures Built() == Bool([], [], [Clause(0, Object(map["match_all" := Object(map[])]))])
    {
      must, mustNot, should := [], [], [];
      refuid, refmap, aggs, sort, asked := 0, map[], map[], [], map[];
      defaultClause := F(0);
      new;
      hide Holds, Refs, Own, Present, IsDefault, RefOf, Without, Files;
      NothingHeld();
      var id := AddClause(0, "", "", None, {});
      defaultClause := id;
      FirstDefault();
      assert {} + {id} - {} == {id};
      assert asked.Keys == {};
    }

    /** A caller adds a clause: its id was never issued before, it goes to the end of the array that the
        caller names, and no other clause moves but the default. */
    method Add(value: int, field: string, op: string, occur: Option<Occur>) returns (id: Id)
      requires Valid()
      modifies this
      ensures Valid() && asked == old(asked)[id := Call(value, field, op, occur)]
      ensures id !in old(refmap) && id !in old(aggs) && id == Q(old(refuid)) && refuid > old(refuid)
      ensures var call := Call(value, field, op, occur);
              exists content :: Expresses(content, call)
                && Takes(old(Built()), Built(), old(Clause(defaultClause.n, MATCH_ALL)),
                         Clause(old(refuid), content), call)
      ensures refmap.Keys == old(refmap).Keys + {id} && forall i | i in old(refmap) :: refmap[i] == old(refmap)[i]
      ensures aggs == old(aggs)
    {
      hide Expresses, Takes, Holds, Own, Scored, Without;
      ghost var live, call := asked.Keys, Call(value, field, op, occur);
      ghost var present := Present(refmap, live, defaultClause);
      SizeOfPresent(Built(), refmap, live, defaultClause);
      id := AddClause(value, field, op, occur, present);
      asked := asked[id := call];
      assert asked.Keys == live + {id};
      RefIsFiled(old(refuid), call);
      PresentAfterAdd(old(refmap), refmap, live, id, defaultClause, present, old(Built()));
      TakesAfterAdd(old(Built()), old(refmap), old(refuid), live, defaultClause, refmap[id], call);
      assert Expresses(refmap[id].clause.content, call);
    }

    /** A caller removes a clause by an id that it was given, its own or the default's. */
    method Remove(id: Id) returns (ok: bool)
      requires Valid()
      modifies this
      ensures Valid() && ok == (id in old(refmap)) && refuid >= old(refuid)
      ensures asked == old(asked) - {id} && refmap.Keys >= old(refmap).Keys && aggs == old(aggs)
      ensures forall i | i in old(refmap) :: refmap[i] == old(refmap)[i]
      ensures !ok ==> Built() == old(Built())
      ensures ok ==>
                var c := old(refmap)[id].clause;
                var must', should' := Without(old(must), c), Without(old(should), c);
                && must == must' && mustNot == Without(old(mustNot), c)
                && should == if must' + should' == [] then [Clause(defaultClause.n, MATCH_ALL)] else should'
    {
      hide Holds, Own, Scored, Without, Files;
      ok := id in refmap;
      if ok {
        ghost var live := asked.Keys;
        ghost var present := Present(refmap, live, defaultClause);
        SizeOfPresent(Built(), refmap, live, defaultClause);
        DroppedArrays(Built(), refmap, refuid, present, id);
        HoldsRemoved(Built(), refmap, refuid, present, id);
        RemoveClause(id, present);
        asked := asked - {id};
        assert asked.Keys == live - {id};
        PresentAfterRemove(old(refmap), refmap, old(refuid), live,
                           id, old(defaultClause), defaultClause, old(Built()));
        assert present - {id} + {} == present - {id};
        assert refmap != old(refmap) ==> defaultClause in refmap && defaultClause !in old(refmap);
      } else {
        assert id !in asked;
      }
    }

    /** Aggregations draw their ids from the same counter. */
    method AddAggs(value: int) returns (id: Id)
      requires Valid()
      modifies this
      ensures Valid() && id == F(old(refuid)) && refuid == old(refuid) + 1
      ensures aggs == old(aggs)[id := value] && id !in old(aggs)
      ensures asked == old(asked) && refmap == old(refmap) && Built() == old(Built())
    {
      id := F(refuid);
      refuid := refuid + 1;
      aggs := aggs[id := value];
    }

    /** setSort: the new entry goes to the front, and an older one for the same index out. */
    method SetSort(index: string, desc: bool)
      modifies this`sort
      ensures sort == [Sort(index, if desc then Asc else Desc)] + Unsorted(old(sort), index)
    {
      hide Unsorted;
      ghost var was, first := sort, Sort(index, if desc then Asc else Desc);
      sort := [Sort(index, if desc then Asc else Desc)] + sort;
      var i := 1;
      while i < |sort|
        invariant 1 <= i <= |sort| && sort == [first] + was
        invariant forall e | e in was[..i - 1] :: e.index != index
      {
        if sort[i].index == index {
          sort := sort[..i] + sort[i + 1..];
          UnsortedParts(was[..i - 1], was[i - 1], was[i..], index);
          assert was == was[..i - 1] + [was[i - 1]] + was[i..];
          return;
        }
        assert was[..i] == was[..i - 1] + [was[i - 1]];
        i := i + 1;
      }
      UnsortedParts(was, Sort(index, Asc), [], index);
    }

    /** clone: a new query with copies of the clauses, from which removing the default that the new
        query had been given takes nothing out. */
    method Clone() returns (q: Query)
      requires Valid()
      ensures fresh(q) && q.Built() == Copied(Built()) && q.sort == sort && q.aggs == aggs
      ensures Contents(q.must) == Contents(must) && Contents(q.mustNot) == Contents(mustNot)
      ensures Contents(q.should) == Contents(should)
    {
      hide Copies, Contents, Own, Present, Holds;
      q := new Query();
      q.must, q.mustNot, q.should := Copies(must), Copies(mustNot), Copies(should);
      q.sort, q.aggs := sort, aggs;
      CopiedContents(Built());
      SizeOfPresent(Built(), refmap, asked.Keys, defaultClause);
      CopiedHolds(Built(), q.refmap);
      q.RemoveAll();
    }

    /** The loop of clone: none of the references is to a clause that stands in an array. */
    method RemoveAll()
      requires Refs(refmap, refuid) && Holds(Built(), refmap, {}) && Built().Size() > 0
      modifies this`must, this`mustNot, this`should, this`refuid, this`refmap, this`defaultClause
      ensures Built() == old(Built())
    {
      hide Refs, Holds, Own, Without;
      var ids := refmap.Keys;
      while ids != {}
        invariant ids <= refmap.Keys && Refs(refmap, refuid) && Holds(Built(), refmap, {})
        invariant Built() == old(Built())
      {
        var id :| id in ids;
        ids := ids - {id};
        RemoveClause(id, {});
        assert {} - {id} == {};
      }
    }
  }

  // ----- Sort order -----

  datatype Order = Asc | Desc
  datatype Sort = Sort(index: string, order: Order)

  /** The entries without the first one for the index. */
  function Unsorted(s: seq<Sort>, index: string): seq<Sort> {
    if s == [] then [] else if s[0].index == index then s[1..] else [s[0]] + Unsorted(s[1..], index)
  }

  lemma UnsortedOther(f: Sort, s: seq<Sort>, index: string)
    requires f.index != index
    ensures Unsorted([f] + s, index) == [f] + Unsorted(s, index)
  {
    assert ([f] + s)[1..] == s;
  }

  /** The other entries stay, and stay in order. */
  lemma {:induction false} UnsortedParts(front: seq<Sort>, e: Sort, back: seq<Sort>, index: string)
    requires (forall f | f in front :: f.index != index) && e.index == index
    ensures Unsorted(front + [e] + back, index) == front + back && Unsorted(front, index) == front
  {
    if front == [] {
      assert front + [e] + back == [e] + back && ([e] + back)[1..] == back;
      assert front + back == back;
    } else {
      var f, rest := front[0], front[1..];
      assert front == [f] + rest && f in front && forall g | g in rest :: g in front;
      UnsortedParts(rest, e, back, index);
      UnsortedOther(f, rest + [e] + back, index);
      UnsortedOther(f, rest, index);
      assert front + [e] + back == [f] + (rest + [e] + back);
      assert front + back == [f] + (rest + back);
    }
  }

  /** No index has two entries. */
  predicate SortedOnce(s: seq<Sort>) {
    forall i, j | 0 <= i < j < |s| :: s[i].index != s[j].index
  }

  lemma {:induction false} OnceInFront(e: Sort, s: seq<Sort>)
    requires SortedOnce(s) && forall f | f in s :: f.index != e.index
    ensures SortedOnce([e] + s)
  {
  }

  /** setSort keeps at most one entry per index, and every entry for another index. */
  lemma {:induction false} UnsortedOnce(s: seq<Sort>, index: string, order: Order)
    requires SortedOnce(s)
    ensures SortedOnce([Sort(index, order)] + Unsorted(s, index))
    ensures forall e :: e in Unsorted(s, index) <==> e in s && e.index != index
  {
    if s == [] {
    } else {
      assert s == [s[0]] + s[1..];
      assert forall e | e in s[1..] :: e.index != s[0].index;
      if s[0].index == index {
        OnceInFront(Sort(index, order), s[1..]);
      } else {
        UnsortedOnce(s[1..], index, order);
        assert ([Sort(index, order)] + Unsorted(s[1..], index))[1..] == Unsorted(s[1..], index);
        OnceInFront(s[0], Unsorted(s[1..], index));
        OnceInFront(Sort(index, order), Unsorted(s, index));
      }
    }
  }

  // ----- Copies -----

  function Copies(s: seq<Clause>): seq<Clause> {
    seq(|s|, i requires 0 <= i < |s| => Clause(-1 - i, s[i].content))
  }

  function Contents(s: seq<Clause>): seq<Json> {
    seq(|s|, i requires 0 <= i < |s| => s[i].content)
  }

  lemma CopiedContents(q: Bool)
    ensures Contents(Copies(q.must)) == Contents(q.must) && Contents(Copies(q.mustNot)) == Contents(q.mustNot)
    ensures Contents(Copies(q.should)) == Contents(q.should)
  {
  }

  /** What a deep copy makes of the arrays: the same contents, in objects of their own. */
  function Copied(q: Bool): Bool {
    Bool(Copies(q.must), Copies(q.mustNot), Copies(q.should))
  }

  lemma CopiedHolds(q: Bool, refmap: map<Id, Ref>)
    ensures Holds(Copied(q), refmap, {}) && Copied(q).Size() == q.Size()
  {
  }

  // ----- The invariant -----

  /** Some of the ids belongs to a clause that is not a must_not clause. */
  ghost predicate Scored(refmap: map<Id, Ref>, ids: set<Id>) {
    exists id :: id in ids && id in refmap && refmap[id].occur != MustNot
  }

  predicate IsDefault(refmap: map<Id, Ref>, live: set<Id>, id: Id) {
    id in refmap && id !in live && refmap[id] == Ref(Clause(id.n, MATCH_ALL), Should)
  }

  /** The clauses that stand in the arrays: the callers', and the default if none of theirs is scored. */
  ghost function Present(refmap: map<Id, Ref>, live: set<Id>, defaultClause: Id): set<Id> {
    live + if Scored(refmap, live) then {} else {defaultClause}
  }

  lemma SizeScored(q: Bool, refmap: map<Id, Ref>, ids: set<Id>)
    requires Holds(q, refmap, ids) && Own(q)
    ensures q.Size() > 0 <==> Scored(refmap, ids)
  {
    if q.must != [] {
      assert q.must[0] in q.Of(Must);
      assert Belongs(refmap, ids, Must, q.must[0]);
    } else if q.should != [] {
      assert q.should[0] in q.Of(Should);
      assert Belongs(refmap, ids, Should, q.should[0]);
    }
  }

  lemma OnlyElement(s: seq<Clause>, d: Clause)
    requires Distinct(s) && d in s && forall c | c in s :: c == d
    ensures s == [d]
  {
    FirstTwo(s);
  }

  lemma FirstTwo(s: seq<Clause>)
    ensures |s| > 0 ==> s[0] in s
    ensures |s| > 1 ==> s[1] in s
  {
  }

  /** There is always a must or should clause, and the default stands alone. */
  lemma SizeOfPresent(q: Bool, refmap: map<Id, Ref>, live: set<Id>, defaultClause: Id)
    requires IsDefault(refmap, live, defaultClause) && Holds(q, refmap, Present(refmap, live, defaultClause)) && Own(q)
    ensures q.Size() > 0
    ensures !Scored(refmap, live) ==> q.must == [] && q.should == [Clause(defaultClause.n, MATCH_ALL)]
  {
    var ids := Present(refmap, live, defaultClause);
    var d := Clause(defaultClause.n, MATCH_ALL);
    if !Scored(refmap, live) {
      assert d in q.Of(Should);
      forall o: Occur, c | o != MustNot && c in q.Of(o)
        ensures o == Should && c == d
      {
        assert Belongs(refmap, ids, o, c);
      }
      assert q.Of(Must) == q.must && q.Of(Should) == q.should;
      FirstTwo(q.must);
      OnlyElement(q.should, d);
    } else {
      SizeScored(q, refmap, ids);
    }
  }

  /** The default is there if and only if it is the only must or should clause. */
  lemma DefaultAlone(q: Bool, refmap: map<Id, Ref>, refuid: nat, live: set<Id>, d: Id)
    requires Refs(refmap, refuid) && IsDefault(refmap, live, d) && Holds(q, refmap, Present(refmap, live, d)) && Own(q)
    ensures Clause(d.n, MATCH_ALL) in q.should <==> q.must + q.should == [Clause(d.n, MATCH_ALL)]
    ensures Clause(d.n, MATCH_ALL) in q.should <==> !Scored(refmap, live)
    ensures q.must + q.should != []
  {
    var ids, it := Present(refmap, live, d), Clause(d.n, MATCH_ALL);
    SizeOfPresent(q, refmap, live, d);
    assert q.Of(Should) == q.should && q.Of(Must) == q.must;
    if Scored(refmap, live) {
      assert !Belongs(refmap, ids, Should, it) && !Belongs(refmap, ids, Must, it);
      FirstTwo(q.must);
      FirstTwo(q.should);
      assert it !in q.must && it !in q.should;
      assert it !in q.must + q.should;
      assert it in [it];
    }
  }

  lemma PresentAfterAdd(before: map<Id, Ref>, after: map<Id, Ref>, live: set<Id>,
                        id: Id, d: Id, present: set<Id>, q: Bool)
    requires id !in before && id in after && after == before[id := after[id]] && live <= before.Keys
    requires IsDefault(before, live, d) && present == Present(before, live, d) && Holds(q, before, present) && Own(q)
    ensures IsDefault(after, live + {id}, d)
    ensures present + {id} - (if q.Size() + (if after[id].occur == MustNot then 0 else 1) > 1 then {d} else {})
         == Present(after, live + {id}, d)
  {
    SizeOfPresent(q, before, live, d);
    hide Holds;
    if Scored(before, live) {
      var i :| i in live && i in before && before[i].occur != MustNot;
      assert i in live + {id} && after[i] == before[i];
    } else if after[id].occur == MustNot {
      assert !Scored(after, live + {id});
    } else {
      assert id in live + {id};
    }
  }

  lemma PresentAfterRemove(before: map<Id, Ref>, after: map<Id, Ref>, refuid: nat, live: set<Id>,
                           id: Id, d: Id, d': Id, q: Bool)
    requires Refs(before, refuid) && id in before && live <= before.Keys && IsDefault(before, live, d)
    requires Holds(q, before, Present(before, live, d)) && Own(q)
    requires if q.Size() - (if id in Present(before, live, d) && before[id].occur != MustNot then 1 else 0) > 0
             then d' == d && after == before
             else d' !in before && after == before[d' := Ref(Clause(d'.n, MATCH_ALL), Should)]
    ensures IsDefault(after, live - {id}, d')
    ensures Present(before, live, d) - {id} + (if after == before then {} else {d'}) == Present(after, live - {id}, d')
  {
    var present := Present(before, live, d);
    HoldsRemoved(q, before, refuid, present, id);
    var Ref(c, o) := before[id];
    SizeScored(q.With(o, Without(q.Of(o), c)), before, present - {id});
    hide Holds;
    assert Scored(after, live - {id}) <==> Scored(before, live - {id}) by {
      if Scored(before, live - {id}) {
        var i :| i in live - {id} && i in before && before[i].occur != MustNot;
        assert after[i] == before[i];
      }
    }
    if Scored(before, live) {
      assert present == live;
    } else {
      assert !Scored(before, live - {id});
      if id != d {
        assert d in present - {id};
      } else {
        assert present - {id} == live;
      }
    }
  }

  // ----- What the query selects -----

  /** Whether a document satisfies a clause. */
  type Document = Json -> bool

  /** The bool query of Elasticsearch: all must clauses, no must_not clause and, when there is no
      must clause, one of the should clauses if there are any. */
  predicate Selects(q: Bool, doc: Document) {
    && (forall c | c in q.must :: doc(c.content))
    && (forall c | c in q.mustNot :: !doc(c.content))
    && (q.must == [] && q.should != [] ==> exists c | c in q.should :: doc(c.content))
  }

  /** The same for the clauses that callers have added, where none that is scored means "all". */
  ghost predicate WantedOf(refmap: map<Id, Ref>, live: set<Id>, doc: Document)
    requires live <= refmap.Keys
  {
    && (forall id | id in live && refmap[id].occur == Must :: doc(refmap[id].clause.content))
    && (forall id | id in live && refmap[id].occur == MustNot :: !doc(refmap[id].clause.content))
    && ((forall id | id in live :: refmap[id].occur != Must)
        && (exists id | id in live :: refmap[id].occur == Should) ==>
          exists id | id in live :: refmap[id].occur == Should && doc(refmap[id].clause.content))
  }

  /** The must and must_not arrays, and the should array unless it holds the default, are the live clauses. */
  lemma ArrayIsLive(q: Bool, refmap: map<Id, Ref>, refuid: nat, live: set<Id>, d: Id, o: Occur)
    requires Refs(refmap, refuid) && live <= refmap.Keys && IsDefault(refmap, live, d)
    requires Holds(q, refmap, Present(refmap, live, d)) && Own(q) && (o != Should || Scored(refmap, live))
    ensures forall c | c in q.Of(o) :: Q(c.identity) in live && refmap[Q(c.identity)] == Ref(c, o)
    ensures forall id | id in live && refmap[id].occur == o :: refmap[id].clause in q.Of(o)
  {
    forall c | c in q.Of(o)
      ensures Q(c.identity) in live && refmap[Q(c.identity)] == Ref(c, o)
    {
      assert Belongs(refmap, Present(refmap, live, d), o, c);
    }
  }

  /** The query built selects exactly the documents that the live references ask for. */
  lemma SelectsLive(q: Bool, refmap: map<Id, Ref>, refuid: nat, live: set<Id>, d: Id, doc: Document)
    requires Refs(refmap, refuid) && live <= refmap.Keys && IsDefault(refmap, live, d)
    requires Holds(q, refmap, Present(refmap, live, d)) && Own(q) && doc(MATCH_ALL)
    ensures Selects(q, doc) <==> WantedOf(refmap, live, doc)
  {
    SizeOfPresent(q, refmap, live, d);
    ArrayIsLive(q, refmap, refuid, live, d, Must);
    ArrayIsLive(q, refmap, refuid, live, d, MustNot);
    hide Holds;
    assert q.Of(Must) == q.must && q.Of(MustNot) == q.mustNot && q.Of(Should) == q.should;
    if Scored(refmap, live) {
      ArrayIsLive(q, refmap, refuid, live, d, Should);
      assert q.must == [] || q.must[0] in q.must;
      assert q.should == [] || q.should[0] in q.should;
    } else {
      assert q.should[0] in q.should;
    }
  }

  /** A document is what the caller means by its clause. */
  ghost predicate Meets(doc: Document, call: Call) {
    exists c :: Expresses(c, call) && doc(c)
  }

  /** What the calls that were made ask for, where none that is scored asks for all. */
  ghost predicate Wanted(asked: map<Id, Call>, doc: Document) {
    && (forall id | id in asked && Requires(asked[id]) :: Meets(doc, asked[id]))
    && (forall id | id in asked && Forbids(asked[id]) :: !Meets(doc, asked[id]))
    && ((forall id | id in asked :: !Requires(asked[id]))
        && (exists id :: id in asked && !Forbids(asked[id])) ==>
          exists id :: id in asked && !Forbids(asked[id]) && Meets(doc, asked[id]))
  }

  lemma MeetsFiled(ref: Ref, call: Call, doc: Document)
    requires Files(ref, call)
    ensures Meets(doc, call) <==> doc(ref.clause.content)
  {
  }

  /** At every moment between calls, the query built selects exactly the documents that the calls of
      addClause whose clauses were not removed ask for. */
  lemma SelectsWanted(q: Query, doc: Document)
    requires q.Valid() && doc(MATCH_ALL)
    ensures Selects(q.Built(), doc) <==> Wanted(q.asked, doc)
  {
    hide Selects, Holds, Own, Meets, Expresses;
    var asked := q.asked;
    SelectsLive(q.Built(), q.refmap, q.refuid, asked.Keys, q.defaultClause, doc);
    forall id | id in asked
      ensures id in q.refmap && Files(q.refmap[id], asked[id])
      ensures Meets(doc, asked[id]) <==> doc(q.refmap[id].clause.content)
    {
      MeetsFiled(q.refmap[id], asked[id], doc);
    }
  }

  // ----- The new query -----

  lemma NothingHeld()
    ensures Refs(map[], 0) && Holds(Bool([], [], []), map[], {}) && Own(Bool([], [], []))
  {
  }

  lemma FirstDefault()
    ensures var ref := RefOf(0, 0, "", "", None);
            && ref == Ref(Clause(0, MATCH_ALL), Should)
            && IsDefault(map[Q(0) := ref], {}, Q(0)) && Present(map[Q(0) := ref], {}, Q(0)) == {Q(0)}
  {
  }

  // ----- Exact arrays -----

  lemma WithoutAlone(d: Clause, c: Clause)
    requires c != d
    ensures Without([d], d) == [] && Without([d] + [c], d) == [c]
  {
    assert IndexOf([d], d) == 0 && IndexOf([d] + [c], d) == 0;
  }

  lemma TakesAfterAdd(q: Bool, refmap: map<Id, Ref>, refuid: nat, live: set<Id>, d: Id, ref: Ref, call: Call)
    requires Refs(refmap, refuid) && IsDefault(refmap, live, d) && Holds(q, refmap, Present(refmap, live, d)) && Own(q)
    requires ref.clause.identity == refuid && Files(ref, call)
    ensures var added := q.With(ref.occur, q.Of(ref.occur) + [ref.clause]);
            var size := q.Size() + if ref.occur == MustNot then 0 else 1;
            Takes(q, if size > 1 then Dropped(added, refmap[d]) else added, Clause(d.n, MATCH_ALL), ref.clause, call)
  {
    hide Expresses, Without, Scored;
    var added, dc := q.With(ref.occur, q.Of(ref.occur) + [ref.clause]), Clause(d.n, MATCH_ALL);
    SizeOfPresent(q, refmap, live, d);
    DefaultAlone(q, refmap, refuid, live, d);
    hide Holds, Own;
    WithoutAlone(dc, ref.clause);
    if Scored(refmap, live) {
      assert dc !in added.should;
      NotThere(added.should, dc);
      assert q.should != [dc] by { assert dc in [dc]; }
    } else {
      assert q.must == [] && q.should == [dc];
    }
  }

  lemma NotThere(s: seq<Clause>, c: Clause)
    requires c !in s
    ensures Without(s, c) == s
  {
  }

  /** A clause stands in one array only. */
  lemma DroppedArrays(q: Bool, refmap: map<Id, Ref>, refuid: nat, ids: set<Id>, id: Id)
    requires Refs(refmap, refuid) && Holds(q, refmap, ids) && id in refmap
    ensures var c := refmap[id].clause;
            Dropped(q, refmap[id]) == Bool(Without(q.must, c), Without(q.mustNot, c), Without(q.should, c))
  {
    hide Without;
    var Ref(c, o) := refmap[id];
    forall o': Occur | o' != o
      ensures Without(q.Of(o'), c) == q.Of(o')
    {
      assert !Belongs(refmap, ids, o', c);
      NotThere(q.Of(o'), c);
    }
    assert q.Of(Must) == q.must && q.Of(MustNot) == q.mustNot && q.Of(Should) == q.should;
  }
}
