/** jQuery's Deferred: two callback lists, each of which cancels the other when it first fires. */
module Deferred {
  import opened Wrappers

  datatype Side = Done | Fail {
    function Other(): Side {
      if Done? then Fail else Done
    }
  }

  /** What a list calls: a user's callback, or the cancelling of a list. */
  datatype Callback = User(id: nat) | Cancel(side: Side)

  /** An argument of done or fail: a callback, an array of arguments, or anything else. */
  datatype Arg = Function(id: nat) | Array(items: seq<Arg>) | Ignored

  /** The context and arguments of a resolveWith. */
  datatype Settlement = Settlement(context: int, args: seq<int>)

  /** The callbacks among the arguments, nested arrays included, as they are read. */
  function Flatten(args: seq<Arg>): seq<Callback>
    decreases args
  {
    if args == [] then [] else FlattenOne(args[0]) + Flatten(args[1..])
  }

  function FlattenOne(arg: Arg): seq<Callback>
    decreases arg
  {
    match arg
    case Function(id) => [User(id)]
    case Array(items) => Flatten(items)
    case Ignored => []
  }

  lemma {:induction false} FlattenNext(args: seq<Arg>, i: nat)
    requires i < |args|
    ensures Flatten(args[..i + 1]) == Flatten(args[..i]) + FlattenOne(args[i])
  {
    hide FlattenOne;
    var front := args[..i + 1];
    if i == 0 {
      assert front[0] == args[0] && front[1..] == [] && args[..0] == [];
    } else {
      FlattenNext(args[1..], i - 1);
      assert front[1..] == args[1..][..i];
      assert args[..i][1..] == args[1..][..i - 1];
    }
  }

  /** Plain arguments are added one for one, and in order. */
  lemma {:induction false} FlattenPlain(args: seq<Arg>)
    requires forall arg | arg in args :: arg.Function?
    ensures |Flatten(args)| == |args|
    ensures forall i | 0 <= i < |args| :: Flatten(args)[i] == User(args[i].id)
  {
    if args == [] {
    } else {
      assert args == [args[0]] + args[1..];
      FlattenPlain(args[1..]);
    }
  }

  lemma {:induction false} FlattenConcat(args: seq<Arg>, more: seq<Arg>)
    ensures Flatten(args + more) == Flatten(args) + Flatten(more)
  {
    hide FlattenOne;
    if args == [] {
      assert args + more == more;
    } else {
      FlattenConcat(args[1..], more);
      assert (args + more)[1..] == args[1..] + more;
    }
  }

  lemma FlattenSingle(arg: Arg)
    ensures Flatten([arg]) == FlattenOne(arg)
  {
    assert [arg][1..] == [];
  }

  /** An array counts as its items in its place, and whatever is neither that nor a function as nothing. */
  lemma {:induction false} FlattenNested(front: seq<Arg>, items: seq<Arg>, back: seq<Arg>)
    ensures Flatten(front + [Array(items)] + back) == Flatten(front + items + back)
    ensures Flatten(front + [Ignored] + back) == Flatten(front + back)
  {
    FlattenSingle(Array(items));
    FlattenSingle(Ignored);
    hide Flatten;
    forall middle
      ensures Flatten(front + middle + back) == Flatten(front) + Flatten(middle) + Flatten(back)
    {
      FlattenConcat(front + middle, back);
      FlattenConcat(front, middle);
    }
    FlattenConcat(front, back);
  }

  /** How often a callback stands among the arguments, nested arrays included. */
  function Times(args: seq<Arg>, id: nat): nat
    decreases args
  {
    if args == [] then 0 else TimesIn(args[0], id) + Times(args[1..], id)
  }

  function TimesIn(arg: Arg, id: nat): nat
    decreases arg
  {
    match arg
    case Function(i) => if i == id then 1 else 0
    case Array(items) => Times(items, id)
    case Ignored => 0
  }

  /** Every callback is added as often as it stands there. */
  lemma {:induction false} FlattenTimes(args: seq<Arg>, id: nat)
    ensures multiset(Flatten(args))[User(id)] == Times(args, id)
    decreases args
  {
    if args == [] {
    } else {
      FlattenTimes(args[1..], id);
      match args[0] {
        case Function(_) =>
        case Array(items) => FlattenTimes(items, id);
        case Ignored =>
      }
    }
  }

  // ----- One callback list -----

  /** The variables of _Deferred. */
  datatype List = List(callbacks: seq<Callback>, fired: Option<Settlement>, firing: bool, cancelled: bool)

  const EMPTY := List([], None, false, false)

  /** `done` up to its call of resolveWith. */
  function Registered(l: List, args: seq<Arg>): List {
    if l.cancelled then l else l.(callbacks := l.callbacks + Flatten(args), fired := None)
  }

  predicate CanFire(l: List) {
    !l.cancelled && l.fired.None? && !l.firing
  }

  /** isResolved. */
  predicate Resolved(l: List) {
    l.firing || l.fired.Some?
  }

  function Cancelled(l: List): List {
    l.(cancelled := true, callbacks := [])
  }

  /** The same as an object. Its methods are the stretches of code between calls of callbacks. */
  class CallbackList {
    var callbacks: seq<Callback>
    var fired: Option<Settlement>
    var firing: bool
    var cancelled: bool

    function Value(): List
      reads this
    {
      List(callbacks, fired, firing, cancelled)
    }

    constructor ()
      ensures Value() == EMPTY
    {
      callbacks, fired, firing, cancelled := [], None, false, false;
    }

    /** `done`: the result is the settlement that it goes on to fire again. */
    method Register(args: seq<Arg>) returns (again: Option<Settlement>)
      modifies this
      ensures Value() == Registered(old(Value()), args)
      ensures again == if old(cancelled) then None else old(fired)
      decreases args
    {
      again := None;
      if !cancelled {
        if fired.Some? {
          again := fired;
          fired := None;
        }
        assert args[..0] == [];
        for i := 0 to |args|
          invariant !cancelled && fired.None? && firing == old(firing)
          invariant callbacks == old(callbacks) + Flatten(args[..i])
        {
          FlattenNext(args, i);
          match args[i] {
            case Function(id) => callbacks := callbacks + [User(id)];
            case Array(items) => var _ := Register(items);
            case Ignored =>
          }
        }
        assert args[..|args|] == args;
      }
    }

    /** The guard of resolveWith. */
    method StartFiring() returns (ok: bool)
      modifies this
      ensures ok == CanFire(old(Value()))
      ensures Value() == if ok then old(Value()).(firing := true) else old(Value())
    {
      ok := !cancelled && fired.None? && !firing;
      if ok {
        firing := true;
      }
    }

    /** One turn of the loop of resolveWith: the callback to call, or the end of the loop. */
    method Next(s: Settlement) returns (c: Option<Callback>)
      modifies this
      ensures c == if old(callbacks) == [] then None else Some(old(callbacks)[0])
      ensures Value() == if c.Some? then old(Value()).(callbacks := old(callbacks)[1..])
                         else old(Value()).(fired := Some(s), firing := false)
    {
      if callbacks != [] {
        c := Some(callbacks[0]);
        callbacks := callbacks[1..];
      } else {
        c := None;
        fired := Some(s);
        firing := false;
      }
    }

    method CancelAll()
      modifies this
      ensures Value() == Cancelled(old(Value()))
    {
      cancelled := true;
      callbacks := [];
    }

    method IsResolved() returns (b: bool)
      ensures b == Resolved(Value())
    {
      b := firing || fired.Some?;
    }
  }
}
