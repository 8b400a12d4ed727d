/** JavaScript objects and arrays that share structure, and the deep copy that
    jQuery.extend(true, {}, ...) makes of them. */
module DeepCopy {
  /** A property: undefined, a value that is copied as it is (null, a number, a string, and also a
      function or an object that is not plain), or a plain object or array. */
  datatype Value = Undefined | Plain(v: int) | Ref(o: Obj)

  class Obj {
    var isArray: bool
    var props: map<string, Value>
    ghost var rank: nat

    constructor (isArray: bool)
      ensures this.isArray == isArray && props == map[]
    {
      this.isArray, props, rank := isArray, map[], 0;
    }
  }

  /** Value v refers at most to an object of the region below the rank. */
  ghost predicate Fits(v: Value, rank: nat, r: set<Obj>)
    reads r
  {
    v.Ref? ==> v.o in r && v.o.rank < rank
  }

  /** The object refers only to objects of the region, of a lower rank. */
  ghost predicate Below(o: Obj, r: set<Obj>)
    reads o, r
  {
    forall name | name in o.props :: Fits(o.props[name], o.rank, r)
  }

  /** Nothing in the region refers to anything outside of it, or reaches itself. */
  ghost predicate Region(r: set<Obj>)
    reads r
  {
    forall o | o in r :: Below(o, r)
  }

  /** What an object says: the tree that it spans, without properties that are undefined. */
  datatype Json = Leaf(v: int) | Node(isArray: bool, fields: map<string, Json>)

  ghost function JsonOf(o: Obj, r: set<Obj>): (j: Json)
    requires Region(r) && Below(o, r)
    reads o, r
    ensures j.Node? && j.isArray == o.isArray
    decreases o.rank, 1
  {
    Node(o.isArray, map name | name in o.props && !o.props[name].Undefined? :: JsonOfValue(o.props[name], o.rank, r))
  }

  ghost function JsonOfValue(v: Value, rank: nat, r: set<Obj>): Json
    requires Region(r) && Fits(v, rank, r) && !v.Undefined?
    reads r
    decreases rank, 0
  {
    if v.Ref? then JsonOf(v.o, r) else Leaf(v.v)
  }

  /** It does not depend on what else is in the region. */
  lemma {:induction false} JsonLocal(o: Obj, r: set<Obj>, r': set<Obj>)
    requires Region(r) && Region(r') && Below(o, r) && r <= r'
    ensures Below(o, r') && JsonOf(o, r) == JsonOf(o, r')
    decreases o.rank
  {
    forall name | name in o.props
      ensures Fits(o.props[name], o.rank, r')
      ensures !o.props[name].Undefined? ==>
                JsonOfValue(o.props[name], o.rank, r) == JsonOfValue(o.props[name], o.rank, r')
    {
      assert Fits(o.props[name], o.rank, r);
      if o.props[name].Ref? {
        JsonLocal(o.props[name].o, r, r');
      }
    }
  }

  lemma RegionUnion(r: set<Obj>, r': set<Obj>)
    requires Region(r) && Region(r')
    ensures Region(r + r')
  {
    forall o | o in r + r'
      ensures Below(o, r + r')
    {
      assert if o in r then Below(o, r) else Below(o, r');
      forall name | name in o.props
        ensures Fits(o.props[name], o.rank, r + r')
      {
        assert Fits(o.props[name], o.rank, if o in r then r else r');
      }
    }
  }

  /** Fields with one more, unless its value is undefined. */
  ghost function Set(fields: map<string, Json>, name: string, v: Value, rank: nat, r: set<Obj>): map<string, Json>
    requires Region(r) && Fits(v, rank, r)
    reads r
  {
    if v.Undefined? then fields else fields[name := JsonOfValue(v, rank, r)]
  }

  lemma PlainValue(v: Value, rank: nat, r: set<Obj>, r': set<Obj>)
    requires Region(r) && Region(r') && v.Plain?
    ensures Fits(v, rank, r) && Fits(v, rank, r') && JsonOfValue(v, rank, r) == JsonOfValue(v, rank, r')
  {
  }

  lemma {:induction false} NextField(o: Obj, r: set<Obj>, names: set<string>, name: string)
    requires Region(r) && Below(o, r) && name in names && names <= o.props.Keys
    ensures JsonOf(o, r).fields - (names - {name})
         == Set(JsonOf(o, r).fields - names, name, o.props[name], o.rank, r)
  {
  }

  lemma EmptyRegion()
    ensures Region({})
  {
  }

  lemma NoFields(o: Obj, r: set<Obj>, names: set<string>)
    requires Region(r) && Below(o, r) && o.props.Keys <= names
    ensures JsonOf(o, r).fields - names == map[]
  {
  }

  /** extend with a deep flag, for an empty target: plain objects and arrays are never shared with
      the result, which says the same. */
  method Extend(target: Obj, options: Obj, ghost r: set<Obj>) returns (ghost copied: set<Obj>)
    requires Region(r) && Below(options, r) && target !in r && target != options && target.props == map[]
    modifies target
    ensures fresh(copied) && Region(copied) && Below(target, copied)
    ensures target.rank == options.rank && target.isArray == old(target.isArray)
    ensures JsonOf(target, copied).fields == JsonOf(options, r).fields
    decreases options.rank, 2
  {
    hide JsonOf, JsonOfValue, Set, Region;
    target.rank := options.rank;
    copied := {};
    EmptyRegion();
    NoFields(target, copied, {});
    NoFields(options, r, options.props.Keys);
    assert JsonOf(target, copied).fields == JsonOf(target, copied).fields - {};
    var names := options.props.Keys;
    while names != {}
      invariant names <= options.props.Keys
      invariant fresh(copied) && target !in copied && Region(copied) && Below(target, copied)
      invariant target.rank == options.rank && target.isArray == old(target.isArray)
      invariant target.props.Keys <= options.props.Keys - names
      invariant JsonOf(target, copied).fields == JsonOf(options, r).fields - names
      decreases names
    {
      var name :| name in names;
      NextField(options, r, names, name);
      names := names - {name};
      copied := CopyProperty(target, options, name, copied, r);
    }
  }

  /** One round of the loop of extend. */
  method CopyProperty(target: Obj, options: Obj, name: string, ghost copied: set<Obj>, ghost r: set<Obj>)
    returns (ghost copied': set<Obj>)
    requires Region(r) && Below(options, r) && target !in r && target != options
    requires Region(copied) && Below(target, copied) && target !in copied && target.rank == options.rank
    requires name in options.props && name !in target.props
    modifies target
    ensures copied <= copied' && fresh(copied' - copied) && Region(copied')
    ensures Below(target, copied') && target !in copied'
    ensures target.rank == old(target.rank) && target.isArray == old(target.isArray)
    ensures target.props.Keys <= old(target.props).Keys + {name}
    ensures JsonOf(target, copied').fields
         == Set(old(JsonOf(target, copied).fields), name, options.props[name], options.rank, r)
    decreases options.rank, 1
  {
    hide Region, JsonOfValue, JsonOf;
    copied' := copied;
    var copy := options.props[name];
    match copy {
      case Undefined =>
      case Plain(_) =>
        PlainValue(copy, target.rank, copied, r);
        SetProperty(target, name, copy, copied);
      case Ref(o) =>
        var clone;
        clone, copied' := CloneOf(o, options.rank, copied, r);
        JsonLocal(target, copied, copied');
        SetProperty(target, name, Ref(clone), copied');
    }
  }

  method SetProperty(target: Obj, name: string, v: Value, ghost r: set<Obj>)
    requires Region(r) && Below(target, r) && target !in r && Fits(v, target.rank, r) && !v.Undefined?
    modifies target`props
    ensures target.props == old(target.props)[name := v] && Below(target, r)
    ensures JsonOf(target, r).fields == old(JsonOf(target, r).fields)[name := JsonOfValue(v, target.rank, r)]
  {
    hide Region, JsonOfValue;
    target.props := target.props[name := v];
  }

  /** A deep copy of a property's object. */
  method CloneOf(o: Obj, ghost rank: nat, ghost copied: set<Obj>, ghost r: set<Obj>)
    returns (clone: Obj, ghost copied': set<Obj>)
    requires Region(r) && Fits(Ref(o), rank, r) && Region(copied)
    ensures copied <= copied' && fresh(copied' - copied) && fresh(clone)
    ensures Region(copied') && Fits(Ref(clone), rank, copied')
    ensures JsonOfValue(Ref(clone), rank, copied') == JsonOfValue(Ref(o), rank, r)
    decreases o.rank, 3
  {
    clone := new Obj(o.isArray);
    ghost var below := Extend(clone, o, r);
    copied' := copied + below + {clone};
    Adopt(clone, below, copied);
  }

  /** An object joins the region that it refers to, together with another. */
  lemma Adopt(o: Obj, below: set<Obj>, r: set<Obj>)
    requires Region(below) && Below(o, below) && Region(r)
    ensures Region(r + below + {o}) && JsonOf(o, r + below + {o}) == JsonOf(o, below)
  {
    hide JsonOf;
    RegionUnion(r, below);
    JsonLocal(o, below, r + below);
    forall x | x in r + below
      ensures Below(x, r + below + {o})
    {
      assert Below(x, r + below);
      JsonLocal(x, r + below, r + below + {o});
    }
    JsonLocal(o, r + below, r + below + {o});
  }

  lemma FieldSays(o: Obj, r: set<Obj>, name: string)
    requires Region(r) && Below(o, r) && name in o.props && !o.props[name].Undefined?
    ensures Fits(o.props[name], o.rank, r) && name in JsonOf(o, r).fields
    ensures JsonOf(o, r).fields[name]
         == if o.props[name].Ref? then JsonOf(o.props[name].o, r) else Leaf(o.props[name].v)
  {
    var v := o.props[name];
    assert Fits(v, o.rank, r);
    assert JsonOf(o, r).fields[name] == JsonOfValue(v, o.rank, r);
    if v.Ref? {
      assert JsonOfValue(v, o.rank, r) == JsonOf(v.o, r);
    }
  }

  /** The same under this name: a value and itself, or two objects that say the same. */
  ghost predicate SameField(o: Obj, r: set<Obj>, o': Obj, r': set<Obj>, name: string)
    requires Region(r) && Below(o, r) && Region(r') && Below(o', r')
    requires name in o.props && !o.props[name].Undefined? && name in o'.props && !o'.props[name].Undefined?
    reads o, r, o', r'
  {
    var v, v' := o.props[name], o'.props[name];
    assert Fits(v, o.rank, r) && Fits(v', o'.rank, r');
    if v.Ref? then v'.Ref? && JsonOf(v.o, r) == JsonOf(v'.o, r') else v == v'
  }

  /** Two objects say the same if both are arrays or none is, the same names are defined, and the same
      is under them. */
  lemma {:induction false} SayingTheSame(o: Obj, r: set<Obj>, o': Obj, r': set<Obj>)
    requires Region(r) && Below(o, r) && Region(r') && Below(o', r')
    ensures JsonOf(o, r) == JsonOf(o', r') <==>
            && o.isArray == o'.isArray
            && (forall name :: name in o.props && !o.props[name].Undefined? <==>
                               name in o'.props && !o'.props[name].Undefined?)
            && (forall name | name in o.props && !o.props[name].Undefined? :: SameField(o, r, o', r', name))
  {
    var j, j' := JsonOf(o, r), JsonOf(o', r');
    assert forall name :: name in j.fields <==> name in o.props && !o.props[name].Undefined?;
    assert forall name :: name in j'.fields <==> name in o'.props && !o'.props[name].Undefined?;
    forall name | name in j.fields && name in j'.fields
      ensures j.fields[name] == j'.fields[name] <==> SameField(o, r, o', r', name)
    {
      FieldSays(o, r, name);
      FieldSays(o', r', name);
    }
    hide JsonOf, JsonOfValue, SameField;
    assert j == j' <==> j.isArray == j'.isArray && j.fields == j'.fields;
  }
}
