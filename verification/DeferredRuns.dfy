/** Every run of a Deferred: calls of done, fail, resolveWith and rejectWith in any order, from
    outside and from inside the callbacks that it runs. */
module DeferredRuns {
  import opened Wrappers
  import opened Deferred

  /** What is on the call stack: the loop of a resolveWith, or the user's callback that it called. */
  datatype Frame = Firing(side: Side, s: Settlement) | Running

  /** A user's callback that has been called. */
  datatype Ran = Ran(side: Side, callback: Callback, s: Settlement)

  /** One thing for each side. */
  datatype Both<T> = Both(done: T, fail: T) {
    function Of(side: Side): T {
      if side.Done? then done else fail
    }

    function With(side: Side, t: T): Both<T> {
      if side.Done? then this.(done := t) else this.(fail := t)
    }
  }

  /** The two lists and the call stack; what has run so far; the callbacks that each list accepted. */
  datatype State = State(lists: Both<List>, stack: seq<Frame>, ran: seq<Ran>, accepted: Both<seq<Callback>>)

  /** A step: a call made by user code, its return, or one turn of the loop of resolveWith. */
  datatype Action =
    | Register(side: Side, args: seq<Arg>)
    | Settle(side: Side, s: Settlement)
    | Return
    | Turn

  /** The constructor: `done` registers the cancelling of the fail list and `fail` that of the done list. */
  const INITIAL := State(
    Both(EMPTY.(callbacks := [Cancel(Fail)]), EMPTY.(callbacks := [Cancel(Done)])), [], [], Both([], []))

  /** User code is in control when no loop is on top of the stack. */
  predicate UserInControl(st: State) {
    st.stack == [] || st.stack[|st.stack| - 1].Running?
  }

  /** `resolveWith`. */
  function StartFiring(st: State, side: Side, s: Settlement): (r: State) {
    if CanFire(st.lists.Of(side)) then
      st.(lists := st.lists.With(side, st.lists.Of(side).(firing := true)), stack := st.stack + [Firing(side, s)])
    else st
  }

  /** `done` or `fail`: register, then fire again if the list has fired. */
  function Accept(st: State, side: Side, args: seq<Arg>): (r: State) {
    var l := st.lists.Of(side);
    if l.cancelled then st else
    var st1 := st.(lists := st.lists.With(side, Registered(l, args)),
                   accepted := st.accepted.With(side, st.accepted.Of(side) + Flatten(args)));
    if l.fired.Some? then StartFiring(st1, side, l.fired.value) else st1
  }

  /** One turn of the loop in the frame on top of the stack. */
  function Loop(st: State): (r: State)
    requires !UserInControl(st)
  {
    var n := |st.stack| - 1;
    var Firing(side, s) := st.stack[n];
    var l := st.lists.Of(side);
    if l.callbacks == [] then
      st.(lists := st.lists.With(side, l.(fired := Some(s), firing := false)), stack := st.stack[..n])
    else
      var st1 := st.(lists := st.lists.With(side, l.(callbacks := l.callbacks[1..])));
      match l.callbacks[0]
      case Cancel(other) => st1.(lists := st1.lists.With(other, Cancelled(st1.lists.Of(other))))
      case User(_) => st1.(stack := st1.stack + [Running], ran := st1.ran + [Ran(side, l.callbacks[0], s)])
  }

  /** An action that is not possible in a state leaves it as it is. */
  function Step(st: State, a: Action): (r: State) {
    match a
    case Register(side, args) => if UserInControl(st) then Accept(st, side, args) else st
    case Settle(side, s) => if UserInControl(st) then StartFiring(st, side, s) else st
    case Return => if UserInControl(st) && st.stack != [] then st.(stack := st.stack[..|st.stack| - 1]) else st
    case Turn => if UserInControl(st) then st else Loop(st)
  }

  function Run(actions: seq<Action>): (st: State) {
    if actions == [] then INITIAL
    else Step(Run(actions[..|actions| - 1]), actions[|actions| - 1])
  }

  /** The first settlement of a run. */
  function FirstSettle(actions: seq<Action>): (r: Option<Action>)
    ensures r.Some? ==> r.value.Settle?
  {
    if actions == [] then None
    else
      var r := FirstSettle(actions[..|actions| - 1]);
      var a := actions[|actions| - 1];
      if r.None? && a.Settle? then Some(a) else r
  }

  // ----- The invariant -----

  /** Nothing has settled: each list holds the cancelling of the other and then what it accepted. */
  ghost predicate Pending(st: State) {
    && st.stack == [] && st.ran == []
    && forall side :: st.lists.Of(side) == EMPTY.(callbacks := [Cancel(side.Other())] + st.accepted.Of(side))
  }

  predicate UsersOnly(cs: seq<Callback>) {
    forall c | c in cs :: c.User?
  }

  /** The calls made of the first n callbacks that a list accepted. */
  function Calls(side: Side, cs: seq<Callback>, s: Settlement): (r: seq<Ran>)
    ensures |r| == |cs|
  {
    seq(|cs|, i requires 0 <= i < |cs| => Ran(side, cs[i], s))
  }

  /** The list of `side` has settled with s: what ran is the first callbacks that it accepted, in
      order; the rest wait in the list; and the other list is cancelled, or about to be. */
  ghost predicate Settled(st: State, side: Side, s: Settlement) {
    var l, other := st.lists.Of(side), st.lists.Of(side.Other());
    var accepted := st.accepted.Of(side);
    && UsersOnly(accepted)
    && |st.ran| <= |accepted|
    && st.ran == Calls(side, accepted[..|st.ran|], s)
    && !l.cancelled
    && (if l.firing then
          && l.fired.None?
          && (st.stack == [Firing(side, s)] || st.stack == [Firing(side, s), Running])
        else
          l.fired == Some(s) && st.stack == [] && l.callbacks == [])
    && (if other.cancelled then l.callbacks == accepted[|st.ran|..] && other == EMPTY.(cancelled := true)
        else
          && st.stack == [Firing(side, s)] && l.firing && st.ran == []
          && l.callbacks == [Cancel(side.Other())] + accepted
          && !other.firing && other.fired.None?)
  }

  ghost predicate Inv(st: State, first: Option<Action>) {
    && UsersOnly(st.accepted.Of(Done)) && UsersOnly(st.accepted.Of(Fail))
    && match first
       case None => Pending(st)
       case Some(a) => a.Settle? && Settled(st, a.side, a.s)
  }

  lemma {:induction false} FlattenUsers(args: seq<Arg>)
    ensures UsersOnly(Flatten(args))
    decreases args
  {
    if args == [] {
    } else {
      FlattenUsers(args[1..]);
      match args[0] {
        case Function(_) =>
        case Array(items) => FlattenUsers(items);
        case Ignored =>
      }
    }
  }

  lemma InvInitial()
    ensures Inv(INITIAL, None)
  {
  }

  lemma RegisterKeepsInv(st: State, side: Side, args: seq<Arg>, first: Option<Action>)
    requires Inv(st, first) && UserInControl(st)
    ensures Inv(Accept(st, side, args), first)
  {
    hide Flatten;
    FlattenUsers(args);
    if first.None? {
      RegisterPending(st, side, args);
    } else if first.value.side == side {
      RegisterOnWinner(st, side, args, first.value.s);
    } else {
      assert st.lists.Of(side).cancelled;
    }
  }

  lemma RegisterPending(st: State, side: Side, args: seq<Arg>)
    requires Pending(st)
    ensures Pending(Accept(st, side, args))
  {
    hide Flatten;
  }

  /** A list that has fired fires again for the new callbacks, with the same settlement; one that is
      firing finds them at the end of its list. */
  lemma RegisterOnWinner(st: State, side: Side, args: seq<Arg>, s: Settlement)
    requires Settled(st, side, s) && UserInControl(st) && UsersOnly(Flatten(args))
    ensures Settled(Accept(st, side, args), side, s)
    ensures Accept(st, side, args).accepted.Of(side.Other()) == st.accepted.Of(side.Other())
  {
    hide Flatten;
    var more, n := Flatten(args), |st.ran|;
    var accepted := st.accepted.Of(side);
    assert (accepted + more)[..n] == accepted[..n];
    assert (accepted + more)[n..] == accepted[n..] + more;
    if !st.lists.Of(side).firing {
      assert accepted[n..] == [];
    }
  }

  lemma SettleKeepsInv(st: State, side: Side, s: Settlement, first: Option<Action>)
    requires Inv(st, first) && UserInControl(st)
    ensures Inv(StartFiring(st, side, s), if first.None? then Some(Settle(side, s)) else first)
  {
  }

  lemma ReturnKeepsInv(st: State, first: Option<Action>)
    requires Inv(st, first) && UserInControl(st) && st.stack != []
    ensures Inv(st.(stack := st.stack[..|st.stack| - 1]), first)
  {
  }

  lemma LoopKeepsInv(st: State, first: Option<Action>)
    requires Inv(st, first) && !UserInControl(st)
    ensures Inv(Loop(st), first)
  {
  }

  // ----- Theorems over all runs -----

  lemma {:induction false} RunInv(actions: seq<Action>)
    ensures Inv(Run(actions), FirstSettle(actions))
  {
    hide Inv, Loop, Accept, StartFiring;
    if actions == [] {
      InvInitial();
    } else {
      var before, a := actions[..|actions| - 1], actions[|actions| - 1];
      RunInv(before);
      var st, first := Run(before), FirstSettle(before);
      StepKeepsInv(st, a, first);
    }
  }

  lemma StepKeepsInv(st: State, a: Action, first: Option<Action>)
    requires Inv(st, first)
    ensures Inv(Step(st, a), if first.None? && a.Settle? then Some(a) else first)
  {
    hide Loop, Accept, StartFiring;
    if UserInControl(st) {
      match a {
        case Register(side, args) => RegisterKeepsInv(st, side, args, first);
        case Settle(side, s) => SettleKeepsInv(st, side, s, first);
        case Return => if st.stack != [] { ReturnKeepsInv(st, first); }
        case Turn =>
      }
    } else if a.Turn? {
      LoopKeepsInv(st, first);
    }
  }

  /** The callbacks that user code asked the list of `side` to call, in the order it asked. */
  function Requested(actions: seq<Action>, side: Side): seq<Callback> {
    if actions == [] then []
    else
      var before, a := actions[..|actions| - 1], actions[|actions| - 1];
      Requested(before, side)
      + if a.Register? && a.side == side && UserInControl(Run(before)) then Flatten(a.args) else []
  }

  /** Until the other list settles, a list accepts all it is asked for. */
  lemma {:induction false} AcceptsAll(actions: seq<Action>, side: Side)
    requires FirstSettle(actions).Some? ==> FirstSettle(actions).value.side == side
    ensures Run(actions).accepted.Of(side) == Requested(actions, side)
  {
    if actions == [] {
    } else {
      var before, a := actions[..|actions| - 1], actions[|actions| - 1];
      hide Flatten, Step, Inv;
      AcceptsAll(before, side);
      RunInv(before);
      NotCancelled(Run(before), side, FirstSettle(before));
      AcceptedByStep(Run(before), a, side);
    }
  }

  lemma AcceptedByStep(st: State, a: Action, side: Side)
    requires !st.lists.Of(side).cancelled
    ensures Step(st, a).accepted.Of(side)
         == st.accepted.Of(side) + if a.Register? && a.side == side && UserInControl(st) then Flatten(a.args) else []
  {
    hide Flatten;
  }

  lemma NotCancelled(st: State, side: Side, first: Option<Action>)
    requires Inv(st, first) && (first.Some? ==> first.value.side == side)
    ensures !st.lists.Of(side).cancelled
  {
  }

  /** At every moment of every run: nothing runs before the first settlement; after it, only
      callbacks of the settled list have run, the first of those that were registered with it, each
      once, in the order of registration, all with the first settlement; and when no loop is on the
      stack, all of them have. */
  lemma RunsInOrder(actions: seq<Action>)
    ensures FirstSettle(actions).None? ==> Run(actions).ran == []
    ensures FirstSettle(actions).Some? ==>
              var Settle(side, s) := FirstSettle(actions).value;
              var all := Requested(actions, side);
              && |Run(actions).ran| <= |all|
              && Run(actions).ran == Calls(side, all[..|Run(actions).ran|], s)
              && (Run(actions).stack == [] ==> Run(actions).ran == Calls(side, all, s))
  {
    hide Run, FirstSettle, Requested;
    RunInv(actions);
    if FirstSettle(actions).Some? {
      var side := FirstSettle(actions).value.side;
      AcceptsAll(actions, side);
      var st, all := Run(actions), Requested(actions, side);
      if st.stack == [] {
        assert all[|st.ran|..] == [];
        assert all[..|st.ran|] == all;
      }
    }
  }

  /** How often user code asked the list of `side` to call a callback, nested arrays included. */
  function Asked(actions: seq<Action>, side: Side, id: nat): nat {
    if actions == [] then 0
    else
      var before, a := actions[..|actions| - 1], actions[|actions| - 1];
      Asked(before, side, id)
      + if a.Register? && a.side == side && UserInControl(Run(before)) then Times(a.args, id) else 0
  }

  /** How often it has been called. */
  function RanCount(ran: seq<Ran>, id: nat): nat {
    if ran == [] then 0 else RanCount(ran[..|ran| - 1], id) + if ran[|ran| - 1].callback == User(id) then 1 else 0
  }

  lemma {:induction false} RequestedTimes(actions: seq<Action>, side: Side, id: nat)
    ensures multiset(Requested(actions, side))[User(id)] == Asked(actions, side, id)
  {
    hide Flatten, Times;
    if actions == [] {
    } else {
      RequestedTimes(actions[..|actions| - 1], side, id);
      if actions[|actions| - 1].Register? {
        FlattenTimes(actions[|actions| - 1].args, id);
      }
    }
  }

  lemma {:induction false} RanTimes(side: Side, cs: seq<Callback>, s: Settlement, id: nat)
    ensures RanCount(Calls(side, cs, s), id) == multiset(cs)[User(id)]
  {
    if cs == [] {
    } else {
      var front := cs[..|cs| - 1];
      RanTimes(side, front, s, id);
      assert cs == front + [cs[|cs| - 1]];
      assert Calls(side, cs, s)[..|cs| - 1] == Calls(side, front, s);
    }
  }

  /** At every moment of every run: no callback has been called more often than user code registered it
      with the list that settled first, nothing else has been called, and when no loop is on the stack,
      each has been called exactly that often. */
  lemma {:induction false} CalledAsOftenAsAsked(actions: seq<Action>, id: nat)
    ensures var settled := FirstSettle(actions);
            var asked := if settled.None? then 0 else Asked(actions, settled.value.side, id);
            && RanCount(Run(actions).ran, id) <= asked
            && (settled.None? || Run(actions).stack == [] ==> RanCount(Run(actions).ran, id) == asked)
  {
    hide Run, FirstSettle, Requested, Asked;
    RunsInOrder(actions);
    var st := Run(actions);
    if FirstSettle(actions).Some? {
      var Settle(side, s) := FirstSettle(actions).value;
      var all := Requested(actions, side);
      RequestedTimes(actions, side, id);
      RanTimes(side, all[..|st.ran|], s, id);
      RanTimes(side, all, s, id);
      assert all == all[..|st.ran|] + all[|st.ran|..];
    }
  }

  /** If every callback is registered at most once, none is called twice. */
  lemma {:induction false} CalledOnce(actions: seq<Action>, i: nat, j: nat)
    requires forall side, id :: Asked(actions, side, id) <= 1
    requires i < j < |Run(actions).ran|
    ensures Run(actions).ran[i].callback != Run(actions).ran[j].callback
  {
    hide Run, FirstSettle, Requested, Asked;
    var ran := Run(actions).ran;
    RunsInOrder(actions);
    RunInv(actions);
    assert ran[i].callback.User? && ran[j].callback.User?;
    if ran[i].callback == ran[j].callback {
      CalledAsOftenAsAsked(actions, ran[i].callback.id);
      TwiceRan(ran, i, j);
    }
  }

  lemma {:induction false} TwiceRan(ran: seq<Ran>, i: nat, j: nat)
    requires i < j < |ran| && ran[i].callback == ran[j].callback && ran[i].callback.User?
    ensures RanCount(ran, ran[i].callback.id) >= 2
  {
    var front := ran[..|ran| - 1];
    if j < |front| {
      TwiceRan(front, i, j);
    } else {
      OnceRan(front, i);
    }
  }

  lemma {:induction false} OnceRan(ran: seq<Ran>, i: nat)
    requires i < |ran| && ran[i].callback.User?
    ensures RanCount(ran, ran[i].callback.id) >= 1
  {
    if i < |ran| - 1 {
      OnceRan(ran[..|ran| - 1], i);
    }
  }

  /** isResolved and isRejected, whenever user code can ask: the list that settled first, no other. */
  lemma ResolvedIsFirst(actions: seq<Action>, side: Side)
    requires UserInControl(Run(actions))
    ensures Resolved(Run(actions).lists.Of(side))
            <==> FirstSettle(actions).Some? && FirstSettle(actions).value.side == side
  {
    hide Run, FirstSettle;
    RunInv(actions);
  }

  /** Whatever has happened, if the callbacks from now on only return, the stack empties, and then
      every registered callback has run. */
  lemma {:induction false} Drains(actions: seq<Action>) returns (more: seq<Action>)
    ensures forall a | a in more :: a.Turn? || a.Return?
    ensures Run(actions + more).stack == []
    decreases Work(Run(actions))
  {
    var st := Run(actions);
    RunInv(actions);
    if st.stack == [] {
      more := [];
      assert actions + more == actions;
    } else {
      var a := if UserInControl(st) then Return else Turn;
      var next := actions + [a];
      assert next[..|next| - 1] == actions;
      LessWork(st, FirstSettle(actions));
      var rest := Drains(next);
      more := [a] + rest;
      assert next + rest == actions + more;
    }
  }

  /** The turns and returns that are left. */
  function Work(st: State): nat {
    2 * (|st.lists.done.callbacks| + |st.lists.fail.callbacks|) + |st.stack|
  }

  lemma LessWork(st: State, first: Option<Action>)
    requires Inv(st, first) && st.stack != []
    ensures Work(Step(st, if UserInControl(st) then Return else Turn)) < Work(st)
  {
  }
}
