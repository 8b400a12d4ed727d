/** A Deferred as an object of two callback lists: its methods are the steps of its runs. */
module DeferredObject {
  import opened Deferred
  import opened DeferredRuns

  class Promise {
    const done: CallbackList
    const fail: CallbackList

    /** The loops and callbacks that are on the call stack. */
    var stack: seq<Frame>

    ghost var ran: seq<Ran>
    ghost var accepted: Both<seq<Callback>>

    ghost predicate Valid() {
      done != fail
    }

    ghost function Value(): State
      reads this, done, fail
    {
      State(Both(done.Value(), fail.Value()), stack, ran, accepted)
    }

    function Of(side: Side): CallbackList {
      if side.Done? then done else fail
    }

    constructor ()
      ensures Valid() && fresh(done) && fresh(fail) && Value() == INITIAL
    {
      done := new CallbackList();
      fail := new CallbackList();
      stack, ran, accepted := [], [], Both([], []);
      new;
      done.callbacks := done.callbacks + [Cancel(Fail)];
      fail.callbacks := fail.callbacks + [Cancel(Done)];
      assert done.Value() == EMPTY.(callbacks := [Cancel(Fail)]) && fail.Value() == EMPTY.(callbacks := [Cancel(Done)]);
    }

    method Fire(side: Side, s: Settlement)
      requires Valid()
      modifies this, done, fail
      ensures Value() == StartFiring(old(Value()), side, s)
    {
      var ok := Of(side).StartFiring();
      if ok {
        stack := stack + [Firing(side, s)];
      }
    }

    /** done or fail, called by user code. */
    method Register(side: Side, args: seq<Arg>)
      requires Valid() && UserInControl(Value())
      modifies this, done, fail
      ensures Value() == Step(old(Value()), Action.Register(side, args))
    {
      hide Flatten;
      ghost var listening := !Of(side).cancelled;
      var again := Of(side).Register(args);
      if listening {
        accepted := accepted.With(side, accepted.Of(side) + Flatten(args));
      }
      if again.Some? {
        Fire(side, again.value);
      }
    }

    /** resolveWith or rejectWith, called by user code. */
    method Settle(side: Side, s: Settlement)
      requires Valid() && UserInControl(Value())
      modifies this, done, fail
      ensures Value() == Step(old(Value()), Action.Settle(side, s))
    {
      Fire(side, s);
    }

    /** One turn of the loop on top of the stack. */
    method Turn()
      requires Valid() && !UserInControl(Value())
      modifies this, done, fail
      ensures Value() == Step(old(Value()), Action.Turn)
    {
      var Firing(side, s) := stack[|stack| - 1];
      var c := Of(side).Next(s);
      match c {
        case None => stack := stack[..|stack| - 1];
        case Some(Cancel(other)) => Of(other).CancelAll();
        case Some(User(id)) =>
          stack := stack + [Running];
          ran := ran + [Ran(side, User(id), s)];
      }
    }

    /** A user's callback returns. */
    method Return()
      requires Valid() && UserInControl(Value()) && stack != []
      modifies this`stack
      ensures Value() == Step(old(Value()), Action.Return)
    {
      stack := stack[..|stack| - 1];
    }
  }
}
