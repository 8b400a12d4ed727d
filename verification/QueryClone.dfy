/** clone of Query, on the objects themselves: a new query with its default clause, the restored state,
    and the removal of that default. */
module QueryClone {
  import opened DeepCopy
  import opened QueryHistory

  /** An entry of refmap: the clause object and the name of the array that it was added to. */
  datatype Reference = Reference(clause: Obj, occur: string)

  const OCCURS := {"must", "must_not", "should"}

  /** What search says has the three arrays of a bool query. */
  ghost predicate HasBool(j: Json) {
    && j.Node? && "query" in j.fields && j.fields["query"].Node?
    && "bool" in j.fields["query"].fields && j.fields["query"].fields["bool"].Node?
    && forall occur | occur in OCCURS ::
         occur in BoolOf(j).fields && BoolOf(j).fields[occur].Node?
  }

  ghost function BoolOf(j: Json): Json
    requires j.Node? && "query" in j.fields && j.fields["query"].Node? && "bool" in j.fields["query"].fields
  {
    j.fields["query"].fields["bool"]
  }

  /** There is a must or should clause. */
  ghost predicate HasClause(j: Json) {
    HasBool(j) && (BoolOf(j).fields["must"].fields != map[] || BoolOf(j).fields["should"].fields != map[])
  }

  lemma Child(o: Obj, r: set<Obj>, name: string)
    requires Region(r) && o in r && name in JsonOf(o, r).fields && JsonOf(o, r).fields[name].Node?
    ensures name in o.props && o.props[name].Ref? && o.props[name].o in r
    ensures JsonOf(o.props[name].o, r) == JsonOf(o, r).fields[name]
  {
  }

  /** search.query.bool[occur] */
  method ArrayOf(search: Obj, occur: string, ghost r: set<Obj>) returns (a: Obj)
    requires Region(r) && search in r && HasBool(JsonOf(search, r)) && occur in OCCURS
    ensures a in r && JsonOf(a, r) == BoolOf(JsonOf(search, r)).fields[occur]
  {
    hide Region, JsonOf;
    Child(search, r, "query");
    var query := search.props["query"].o;
    Child(query, r, "bool");
    var bool_ := query.props["bool"].o;
    Child(bool_, r, occur);
    a := bool_.props[occur].o;
  }

  lemma NoFieldsLeft(o: Obj, r: set<Obj>)
    requires Region(r) && o in r && o.props == map[]
    ensures JsonOf(o, r).fields == map[]
  {
  }

  lemma NotIn(o: Obj, r: set<Obj>, clause: Obj)
    requires Region(r) && o in r && clause !in r
    ensures forall name | name in o.props :: o.props[name] != Ref(clause)
  {
    forall name | name in o.props
      ensures o.props[name] != Ref(clause)
    {
      assert Below(o, r);
      assert Fits(o.props[name], o.rank, r);
    }
  }

  /** The two tests of removeClause: whether the array has the clause, so that it is spliced out, and
      whether no must or should clause is left, so that a default is added. */
  method Tests(search: Obj, ref: Reference, ghost r: set<Obj>) returns (found: bool, emptied: bool)
    requires Region(r) && search in r && HasClause(JsonOf(search, r)) && ref.occur in OCCURS
    ensures !emptied && (ref.clause !in r ==> !found)
  {
    hide Region, JsonOf;
    var a := ArrayOf(search, ref.occur, r);
    found := exists name | name in a.props :: a.props[name] == Ref(ref.clause);
    if ref.clause !in r {
      NotIn(a, r, ref.clause);
    }
    var must := ArrayOf(search, "must", r);
    var should := ArrayOf(search, "should", r);
    emptied := must.props == map[] && should.props == map[];
    if emptied {
      NoFieldsLeft(must, r);
      NoFieldsLeft(should, r);
    }
  }

  // ----- init -----

  /** Values that are copied as they are stand as numbers. */
  const TRUE := 1

  const EMPTY_ARRAY := Node(true, map[])

  /** What init makes of search. */
  function InitialSearch(size: int): Json {
    Node(false, map["query" := Node(false, map["bool" := InitialBool()]), "from" := Leaf(0), "size" := Leaf(size),
                    "sort" := EMPTY_ARRAY, "aggs" := Node(false, map[]), "version" := Leaf(TRUE)])
  }

  function InitialBool(): Json {
    Node(false, map["must" := EMPTY_ARRAY, "must_not" := EMPTY_ARRAY,
                    "should" := Node(true, map["0" := DefaultClause()])])
  }

  function DefaultClause(): Json {
    Node(false, map["match_all" := Node(false, map[])])
  }

  ghost predicate ValueSays(v: Value, j: Json, rank: nat, r: set<Obj>)
    requires Region(r)
    reads r
  {
    Fits(v, rank, r) && !v.Undefined? && JsonOfValue(v, rank, r) == j
  }

  lemma GrownSays(o: Obj, r: set<Obj>, says: map<string, Json>)
    requires Region(r) && o.props.Keys == says.Keys
    requires forall name | name in o.props :: ValueSays(o.props[name], says[name], o.rank, r)
    ensures Below(o, r) && JsonOf(o, r) == Node(o.isArray, says)
  {
  }

  lemma StillSays(x: Obj, r: set<Obj>, r': set<Obj>)
    requires Region(r) && Region(r') && r <= r' && x in r
    ensures Below(x, r) && Below(x, r') && JsonOf(x, r') == JsonOf(x, r)
  {
    InRegion(x, r);
    InRegion(x, r');
    JsonLocal(x, r, r');
  }

  /** A new object over the region, which it joins. */
  method Grow(isArray: bool, props: map<string, Value>, ghost says: map<string, Json>, ghost rank: nat,
              ghost r: set<Obj>)
    returns (o: Obj, ghost r': set<Obj>)
    requires Region(r) && props.Keys == says.Keys
    requires forall name | name in props :: ValueSays(props[name], says[name], rank, r)
    ensures fresh(o) && r' == r + {o} && Region(r') && o.rank == rank
    ensures JsonOf(o, r') == Node(isArray, says)
    ensures forall x | x in r :: JsonOf(x, r') == JsonOf(x, r)
  {
    hide Region, JsonOf, ValueSays;
    o := new Obj(isArray);
    o.props, o.rank := props, rank;
    EmptyRegion();
    GrownSays(o, r, says);
    Adopt(o, r, {});
    r' := r + {o};
    assert {} + r + {o} == r';
    forall x | x in r
      ensures Below(x, r) && Below(x, r') && JsonOf(x, r') == JsonOf(x, r)
    {
      StillSays(x, r, r');
    }
  }

  method GrowEmpty(isArray: bool, ghost r: set<Obj>) returns (o: Obj, ghost r': set<Obj>)
    requires Region(r)
    ensures fresh(o) && r' == r + {o} && Region(r') && o.rank == 0
    ensures JsonOf(o, r') == Node(isArray, map[])
    ensures forall x | x in r :: JsonOf(x, r') == JsonOf(x, r)
  {
    hide Region, JsonOf, ValueSays;
    o, r' := Grow(isArray, map[], map[], 0, r);
  }

  /** An object with one property, which is another one. */
  method GrowAround(isArray: bool, name: string, part: Obj, ghost rank: nat, ghost r: set<Obj>)
    returns (o: Obj, ghost r': set<Obj>)
    requires Region(r) && part in r && part.rank < rank
    ensures fresh(o) && r' == r + {o} && Region(r') && o.rank == rank
    ensures JsonOf(o, r') == Node(isArray, map[name := JsonOf(part, r)])
    ensures forall x | x in r :: JsonOf(x, r') == JsonOf(x, r)
  {
    hide Region, JsonOf, ValueSays;
    InRegion(part, r);
    SaysOfParts(r, part, rank);
    o, r' := Grow(isArray, map[name := Ref(part)], map[name := JsonOf(part, r)], rank, r);
  }

  lemma SaysOfParts(r: set<Obj>, o: Obj, rank: nat)
    requires Region(r) && o in r && o.rank < rank
    ensures ValueSays(Ref(o), JsonOf(o, r), rank, r)
  {
  }

  lemma SaysOfPlain(r: set<Obj>, v: int, rank: nat)
    requires Region(r)
    ensures ValueSays(Plain(v), Leaf(v), rank, r)
  {
  }

  /** Empty arrays but for the default clause among the should clauses. */
  method NewSearch(size: int) returns (search: Obj, clause: Obj, ghost r: set<Obj>)
    ensures fresh(r) && Region(r) && search in r && clause in r
    ensures JsonOf(search, r) == InitialSearch(size) && JsonOf(clause, r) == DefaultClause()
  {
    hide Region, JsonOf, ValueSays, InitialBool, InitialSearch, DefaultClause;
    var query;
    clause, r := NewDefault();
    query, r := QueryAround(clause, r);
    search, r := SearchAround(query, size, r);
  }

  method NewDefault() returns (clause: Obj, ghost r: set<Obj>)
    ensures fresh(r) && Region(r) && clause in r && clause.rank == 1 && JsonOf(clause, r) == DefaultClause()
  {
    hide Region, JsonOf, ValueSays;
    EmptyRegion();
    var all;
    all, r := GrowEmpty(false, {});
    clause, r := GrowAround(false, "match_all", all, 1, r);
  }

  method QueryAround(clause: Obj, ghost r: set<Obj>) returns (query: Obj, ghost r': set<Obj>)
    requires Region(r) && clause in r && clause.rank == 1 && JsonOf(clause, r) == DefaultClause()
    ensures r <= r' && fresh(r' - r) && Region(r') && query in r' && query.rank == 4 && clause in r'
    ensures JsonOf(query, r') == Node(false, map["bool" := InitialBool()]) && JsonOf(clause, r') == DefaultClause()
  {
    hide Region, JsonOf, ValueSays, InitialBool, DefaultClause;
    var bool_;
    bool_, r' := BoolAround(clause, r);
    query, r' := GrowAround(false, "bool", bool_, 4, r');
  }

  /** The clauses, all but the default in no array. */
  method BoolAround(clause: Obj, ghost r: set<Obj>) returns (bool_: Obj, ghost r': set<Obj>)
    requires Region(r) && clause in r && clause.rank == 1 && JsonOf(clause, r) == DefaultClause()
    ensures r <= r' && fresh(r' - r) && Region(r') && bool_ in r' && bool_.rank == 3
    ensures JsonOf(bool_, r') == InitialBool() && JsonOf(clause, r') == DefaultClause()
  {
    hide Region, JsonOf, ValueSays, DefaultClause, InitialBool;
    var must, mustNot, should;
    must, mustNot, r' := TwoEmpty(r);
    should, r' := GrowAround(true, "0", clause, 2, r');
    bool_, r' := BoolOf3(must, mustNot, should, r');
  }

  method TwoEmpty(ghost r: set<Obj>) returns (a: Obj, b: Obj, ghost r': set<Obj>)
    requires Region(r)
    ensures r <= r' && fresh(r' - r) && a in r' && b in r' && Region(r') && a.rank == b.rank == 0
    ensures JsonOf(a, r') == EMPTY_ARRAY && JsonOf(b, r') == EMPTY_ARRAY
    ensures forall x | x in r :: JsonOf(x, r') == JsonOf(x, r)
  {
    hide Region, JsonOf, ValueSays;
    a, r' := GrowEmpty(true, r);
    b, r' := GrowEmpty(true, r');
  }

  method BoolOf3(must: Obj, mustNot: Obj, should: Obj, ghost r: set<Obj>) returns (bool_: Obj, ghost r': set<Obj>)
    requires Region(r) && must in r && mustNot in r && should in r
    requires must.rank < 3 && mustNot.rank < 3 && should.rank < 3
    requires JsonOf(must, r) == EMPTY_ARRAY && JsonOf(mustNot, r) == EMPTY_ARRAY
    requires JsonOf(should, r) == Node(true, map["0" := DefaultClause()])
    ensures fresh(bool_) && r' == r + {bool_} && Region(r') && bool_.rank == 3 && JsonOf(bool_, r') == InitialBool()
    ensures forall x | x in r :: JsonOf(x, r') == JsonOf(x, r)
  {
    hide Region, JsonOf, ValueSays, DefaultClause;
    BoolParts(r, must, mustNot, should);
    ghost var says := InitialBool().fields;
    hide InitialBool;
    bool_, r' := Grow(false, map["must" := Ref(must), "must_not" := Ref(mustNot), "should" := Ref(should)], says, 3, r);
  }

  lemma BoolParts(r: set<Obj>, must: Obj, mustNot: Obj, should: Obj)
    requires Region(r) && must in r && mustNot in r && should in r
    requires must.rank < 3 && mustNot.rank < 3 && should.rank < 3
    requires JsonOf(must, r) == EMPTY_ARRAY && JsonOf(mustNot, r) == EMPTY_ARRAY
    requires JsonOf(should, r) == Node(true, map["0" := DefaultClause()])
    ensures var props := map["must" := Ref(must), "must_not" := Ref(mustNot), "should" := Ref(should)];
            && props.Keys == InitialBool().fields.Keys
            && forall name | name in props :: ValueSays(props[name], InitialBool().fields[name], 3, r)
  {
    hide Region, JsonOf, ValueSays, DefaultClause;
    SaysOfParts(r, must, 3);
    SaysOfParts(r, mustNot, 3);
    SaysOfParts(r, should, 3);
  }

  lemma SearchParts(r: set<Obj>, query: Obj, sort: Obj, aggs: Obj, size: int)
    requires Region(r) && query in r && sort in r && aggs in r && query.rank < 5 && sort.rank < 5 && aggs.rank < 5
    requires JsonOf(query, r) == Node(false, map["bool" := InitialBool()])
    requires JsonOf(sort, r) == EMPTY_ARRAY && JsonOf(aggs, r) == Node(false, map[])
    ensures var props, says := InitialProps(query, sort, aggs, size), InitialSearch(size).fields;
            && props.Keys == says.Keys && forall name | name in props :: ValueSays(props[name], says[name], 5, r)
  {
    hide Region, JsonOf, ValueSays, InitialBool;
    SaysOfParts(r, query, 5);
    SaysOfParts(r, sort, 5);
    SaysOfParts(r, aggs, 5);
    SaysOfPlain(r, 0, 5);
    SaysOfPlain(r, size, 5);
    SaysOfPlain(r, TRUE, 5);
  }

  function InitialProps(query: Obj, sort: Obj, aggs: Obj, size: int): map<string, Value> {
    map["query" := Ref(query), "from" := Plain(0), "size" := Plain(size), "sort" := Ref(sort), "aggs" := Ref(aggs),
        "version" := Plain(TRUE)]
  }

  method SearchAround(query: Obj, size: int, ghost r: set<Obj>) returns (search: Obj, ghost r': set<Obj>)
    requires Region(r) && query in r && query.rank == 4
    requires JsonOf(query, r) == Node(false, map["bool" := InitialBool()])
    ensures r <= r' && fresh(r' - r) && Region(r') && search in r' && JsonOf(search, r') == InitialSearch(size)
    ensures forall x | x in r :: JsonOf(x, r') == JsonOf(x, r)
  {
    hide Region, JsonOf, ValueSays, InitialBool, InitialSearch, InitialProps;
    var sort, aggs;
    sort, r' := GrowEmpty(true, r);
    aggs, r' := GrowEmpty(false, r');
    search, r' := SearchOf3(query, sort, aggs, size, r');
  }

  method SearchOf3(query: Obj, sort: Obj, aggs: Obj, size: int, ghost r: set<Obj>)
    returns (search: Obj, ghost r': set<Obj>)
    requires Region(r) && query in r && sort in r && aggs in r && query.rank < 5 && sort.rank < 5 && aggs.rank < 5
    requires JsonOf(query, r) == Node(false, map["bool" := InitialBool()])
    requires JsonOf(sort, r) == EMPTY_ARRAY && JsonOf(aggs, r) == Node(false, map[])
    ensures fresh(search) && r' == r + {search} && Region(r') && JsonOf(search, r') == InitialSearch(size)
    ensures forall x | x in r :: JsonOf(x, r') == JsonOf(x, r)
  {
    hide Region, JsonOf, ValueSays, InitialBool, InitialProps;
    SearchParts(r, query, sort, aggs, size);
    ghost var says := InitialSearch(size).fields;
    hide InitialSearch;
    search, r' := Grow(false, InitialProps(query, sort, aggs, size), says, 5, r);
  }

  /** init, with the entry of refmap for the default clause. */
  method NewQuery(size: int) returns (q: Query, refmap: map<string, Reference>)
    ensures fresh(q) && q.Valid() && fresh(q.live) && fresh(q.frozen)
    ensures var none, default := Node(true, map[]), Node(false, map["match_all" := Node(false, map[])]);
            var clauses := map["must" := none, "must_not" := none, "should" := Node(true, map["0" := default])];
            q.Now() == State(
              Node(false, map["query" := Node(false, map["bool" := Node(false, clauses)]),
                              "from" := Leaf(0), "size" := Leaf(size), "sort" := none, "aggs" := Node(false, map[]),
                              "version" := Leaf(TRUE)]),
              none, none)
    ensures q.Value() == Session(q.Now(), [q.Now()], map[], 0)
    ensures refmap.Keys == {"q-0"}
    ensures refmap["q-0"].clause in q.live
    ensures JsonOf(refmap["q-0"].clause, q.live) == Node(false, map["match_all" := Node(false, map[])])
    ensures refmap["q-0"].occur == "should"
  {
    hide Region, JsonOf, Query.Now;
    var search, clause;
    ghost var r;
    search, clause, r := NewSearch(size);
    q := AroundSearch(search, r);
    refmap := map["q-0" := Reference(clause, "should")];
  }

  method AroundSearch(search: Obj, ghost r: set<Obj>) returns (q: Query)
    requires Region(r) && search in r
    ensures fresh(q) && q.Valid() && r <= q.live && fresh(q.live - r) && fresh(q.frozen)
    ensures q.Now() == State(JsonOf(search, r), EMPTY_ARRAY, EMPTY_ARRAY)
    ensures q.Value() == Session(q.Now(), [q.Now()], map[], 0)
    ensures forall x | x in r :: JsonOf(x, q.live) == JsonOf(x, r)
  {
    hide Region, JsonOf, ValueSays, Query.Valid;
    var indices, types;
    ghost var r' := r;
    indices, types, r' := TwoEmpty(r');
    q := new Query(search, indices, types, r');
  }

  /** The loop of clone: no removal takes anything out or adds a default. */
  method RemoveAll(search: Obj, refmap: map<string, Reference>, ghost r: set<Obj>) returns (changed: bool)
    requires Region(r) && search in r && HasClause(JsonOf(search, r))
    requires forall id | id in refmap :: refmap[id].occur in OCCURS && refmap[id].clause !in r
    ensures !changed
  {
    changed := false;
    var ids := refmap.Keys;
    while ids != {}
      invariant ids <= refmap.Keys && !changed
      decreases ids
    {
      var id :| id in ids;
      ids := ids - {id};
      var found, emptied := Tests(search, refmap[id], r);
      changed := changed || found || emptied;
    }
  }

  /** clone: the new query's state is equal to that of the original, in objects of its own; removing
      the default that the new query was given changes nothing. */
  method Clone(original: Query, size: int) returns (q: Query, changed: bool, ghost copied: set<Obj>)
    requires original.Valid() && HasClause(JsonOf(original.search, original.live))
    ensures fresh(q) && q.Valid() && q.Now() == original.Now() && !changed
    ensures fresh(copied) && Region(copied) && {q.search, q.indices, q.types} <= copied
  {
    hide HasClause, Region, JsonOf;
    var refmap;
    q, refmap := NewQuery(size);
    copied := q.RestoreFrom(original);
    SameSearch(q, original, copied);
    changed := RemoveAll(q.search, refmap, copied);
  }

  lemma SameSearch(q: Query, original: Query, copied: set<Obj>)
    requires q.Live() && original.Live() && q.Now() == original.Now()
    requires Region(copied) && copied <= q.live && q.search in copied
    ensures JsonOf(q.search, copied) == JsonOf(original.search, original.live)
  {
    JsonLocal(q.search, copied, q.live);
    assert q.Now().fields["search"] == original.Now().fields["search"];
  }
}
