/** jQuery.when for two or more inputs. The Deferred that it returns keeps its first settlement. */
module When {
  import opened Wrappers

  /** An argument of when: a plain value, or a promise that has already settled or not yet. */
  datatype Input = Plain(v: int) | Resolved(values: seq<int>) | Rejected(reason: seq<int>) | Waiting

  /** What stands in a position of the result: the argument as given, the one value that its promise
      resolved with (undefined for none), or an array of several. */
  datatype Slot = Given(v: int) | Promise | Undefined | One(v: int) | Many(values: seq<int>)

  datatype Outcome = Success(slots: seq<Slot>) | Failure(reason: seq<int>)

  function Pack(values: seq<int>): Slot {
    if values == [] then Undefined else if |values| == 1 then One(values[0]) else Many(values)
  }

  /** `args`, `count`, and how the returned Deferred has settled. */
  datatype State = State(args: seq<Slot>, count: int, outcome: Option<Outcome>)

  function Settle(st: State, o: Outcome): State {
    if st.outcome.None? then st.(outcome := Some(o)) else st
  }

  /** `resolveFunc(i)` called with values. */
  function OnResolve(st: State, i: nat, values: seq<int>): State
    requires i < |st.args|
  {
    var st1 := st.(args := st.args[i := Pack(values)], count := st.count - 1);
    if st1.count == 0 then Settle(st1, Success(st1.args)) else st1
  }

  /** The turn of the loop for input i. */
  function Subscribe(st: State, input: Input, i: nat): (r: State)
    requires i < |st.args|
    ensures |r.args| == |st.args|
  {
    match input
    case Plain(_) => st.(count := st.count - 1)
    case Resolved(values) => OnResolve(st, i, values)
    case Rejected(reason) => Settle(st, Failure(reason))
    case Waiting => st
  }

  function SlotOf(input: Input): Slot {
    if input.Plain? then Given(input.v) else Promise
  }

  function Slots(inputs: seq<Input>): (r: seq<Slot>)
    ensures |r| == |inputs|
  {
    seq(|inputs|, i requires 0 <= i < |inputs| => SlotOf(inputs[i]))
  }

  /** The state after the first n turns of the loop. */
  function Looped(inputs: seq<Input>, n: nat): (st: State)
    requires n <= |inputs|
    ensures |st.args| == |inputs|
  {
    if n == 0 then State(Slots(inputs), |inputs|, None)
    else Subscribe(Looped(inputs, n - 1), inputs[n - 1], n - 1)
  }

  function Started(inputs: seq<Input>): (st: State)
    ensures |st.args| == |inputs|
  {
    var st := Looped(inputs, |inputs|);
    if st.count == 0 then Settle(st, Success(st.args)) else st
  }

  /** The call of when, and the callbacks that it leaves with the promises. */
  class Call {
    var args: seq<Slot>
    var count: int
    var outcome: Option<Outcome>

    function Value(): State
      reads this
    {
      State(args, count, outcome)
    }

    method SettleWith(o: Outcome)
      modifies this
      ensures Value() == Settle(old(Value()), o)
    {
      if outcome.None? {
        outcome := Some(o);
      }
    }

    method Resolve(i: nat, values: seq<int>)
      requires i < |args|
      modifies this
      ensures Value() == OnResolve(old(Value()), i, values)
    {
      args := args[i := if |values| > 1 then Many(values) else if values == [] then Undefined else One(values[0])];
      count := count - 1;
      if count == 0 {
        SettleWith(Success(args));
      }
    }

    constructor (inputs: seq<Input>)
      requires |inputs| > 1
      ensures Value() == Started(inputs)
    {
      args, count, outcome := Slots(inputs), |inputs|, None;
      new;
      for i := 0 to |inputs|
        invariant Value() == Looped(inputs, i)
      {
        match inputs[i] {
          case Plain(_) => count := count - 1;
          case Resolved(values) => Resolve(i, values);
          case Rejected(reason) => SettleWith(Failure(reason));
          case Waiting =>
        }
      }
      if count == 0 {
        SettleWith(Success(args));
      }
    }
  }

  // ----- Runs: the waiting promises settle in some order -----

  datatype Event = Event(i: nat, input: Input)

  /** Each event settles a different promise that was waiting. */
  ghost predicate IsRun(inputs: seq<Input>, events: seq<Event>) {
    && (forall k | 0 <= k < |events| ::
          && events[k].i < |inputs| && inputs[events[k].i].Waiting?
          && (events[k].input.Resolved? || events[k].input.Rejected?))
    && (forall k, l | 0 <= k < l < |events| :: events[k].i != events[l].i)
  }

  function Run(inputs: seq<Input>, events: seq<Event>): (st: State)
    requires IsRun(inputs, events)
    ensures |st.args| == |inputs|
  {
    if events == [] then Started(inputs)
    else
      var e := events[|events| - 1];
      Subscribe(Run(inputs, events[..|events| - 1]), e.input, e.i)
  }

  // ----- What when promises -----

  /** The inputs as they stand after the events. */
  function Current(inputs: seq<Input>, events: seq<Event>): (r: seq<Input>)
    requires IsRun(inputs, events)
    ensures |r| == |inputs|
  {
    if events == [] then inputs
    else
      var e := events[|events| - 1];
      Current(inputs, events[..|events| - 1])[e.i := e.input]
  }

  /** The reason of the first rejection among the first n inputs. */
  function FirstRejected(inputs: seq<Input>, n: nat): (r: Option<seq<int>>)
    requires n <= |inputs|
  {
    if n == 0 then None
    else
      var r := FirstRejected(inputs, n - 1);
      if r.None? && inputs[n - 1].Rejected? then Some(inputs[n - 1].reason) else r
  }

  /** The reason of the first rejection: of an input that was already rejected, else of an event. */
  function FirstRejection(inputs: seq<Input>, events: seq<Event>): (r: Option<seq<int>>) {
    if events == [] then FirstRejected(inputs, |inputs|)
    else
      var r := FirstRejection(inputs, events[..|events| - 1]);
      var e := events[|events| - 1];
      if r.None? && e.input.Rejected? then Some(e.input.reason) else r
  }

  /** The value of an input, in its own position. */
  function Final(input: Input): Slot {
    match input
    case Plain(v) => Given(v)
    case Resolved(values) => if |values| == 0 then Undefined else if |values| == 1 then One(values[0]) else Many(values)
    case _ => Promise
  }

  function Finals(inputs: seq<Input>): (r: seq<Slot>)
    ensures |r| == |inputs|
  {
    seq(|inputs|, i requires 0 <= i < |inputs| => Final(inputs[i]))
  }

  predicate HasValue(input: Input) {
    input.Plain? || input.Resolved?
  }

  /** How the Deferred of when should stand: rejected by the first rejection; else resolved with
      every value in its place once all inputs have one; else pending. */
  function Expected(inputs: seq<Input>, events: seq<Event>): Option<Outcome>
    requires IsRun(inputs, events)
  {
    var r, now := FirstRejection(inputs, events), Current(inputs, events);
    if r.Some? then Some(Failure(r.value))
    else if forall input | input in now :: HasValue(input) then Some(Success(Finals(now)))
    else None
  }

  // ----- Counting the inputs that have a value -----

  function Values(s: seq<Input>): (n: nat)
    ensures n <= |s|
  {
    if s == [] then 0 else Values(s[..|s| - 1]) + if HasValue(s[|s| - 1]) then 1 else 0
  }

  lemma {:induction false} ValuesFull(s: seq<Input>)
    ensures Values(s) == |s| <==> forall input | input in s :: HasValue(input)
  {
    if s == [] {
    } else {
      var front, last := s[..|s| - 1], s[|s| - 1];
      ValuesFull(front);
      assert s == front + [last];
    }
  }

  lemma {:induction false} ValuesUpdate(s: seq<Input>, i: nat, input: Input)
    requires i < |s| && !HasValue(s[i])
    ensures Values(s[i := input]) == Values(s) + if HasValue(input) then 1 else 0
  {
    var n := |s| - 1;
    if i < n {
      ValuesUpdate(s[..n], i, input);
      assert s[i := input][..n] == s[..n][i := input];
    } else {
      assert s[i := input][..n] == s[..n];
    }
  }

  lemma ValuesOfFront(s: seq<Input>)
    requires s != []
    ensures Values(s) == Values(s[..|s| - 1]) + if HasValue(s[|s| - 1]) then 1 else 0
  {
  }

  // ----- The loop -----

  /** The slots after n turns. */
  function PartFinals(inputs: seq<Input>, n: nat): (r: seq<Slot>)
    ensures |r| == |inputs|
  {
    seq(|inputs|, i requires 0 <= i < |inputs| => if i < n then Final(inputs[i]) else SlotOf(inputs[i]))
  }

  lemma {:induction false} LoopInvariant(inputs: seq<Input>, n: nat)
    requires n <= |inputs| && inputs != []
    ensures var st := Looped(inputs, n);
            && st.args == PartFinals(inputs, n)
            && st.count == |inputs| - Values(inputs[..n])
            && (var r := FirstRejected(inputs, n);
                if r.Some? then st.outcome == Some(Failure(r.value))
                else st.outcome.None? || (st.count == 0 && st.outcome == Some(Success(st.args))))
  {
    hide Values;
    if n > 0 {
      LoopInvariant(inputs, n - 1);
      ValuesOfFront(inputs[..n]);
      assert inputs[..n][..n - 1] == inputs[..n - 1];
      assert PartFinals(inputs, n - 1)[n - 1 := Final(inputs[n - 1])] == PartFinals(inputs, n);
    } else {
      assert Values([]) == 0 && inputs[..0] == [];
    }
  }

  lemma {:induction false} FirstRejectedIsOne(inputs: seq<Input>, n: nat)
    requires n <= |inputs| && FirstRejected(inputs, n).Some?
    ensures AnyRejected(inputs)
  {
    if FirstRejected(inputs, n - 1).Some? {
      FirstRejectedIsOne(inputs, n - 1);
    } else {
      assert inputs[n - 1].Rejected?;
    }
  }

  lemma RejectedHasNoValue(inputs: seq<Input>)
    requires AnyRejected(inputs)
    ensures exists input :: input in inputs && !HasValue(input)
  {
    var j :| 0 <= j < |inputs| && inputs[j].Rejected?;
    assert inputs[j] in inputs;
  }

  /** Count, arguments and outcome after a run. */
  ghost predicate Inv(inputs: seq<Input>, events: seq<Event>, st: State)
    requires IsRun(inputs, events)
  {
    var now := Current(inputs, events);
    && st.args == Finals(now)
    && st.count == |inputs| - Values(now)
    && st.outcome == Expected(inputs, events)
    && (FirstRejection(inputs, events).Some? ==> AnyRejected(now))
  }

  ghost predicate AnyRejected(s: seq<Input>) {
    exists j | 0 <= j < |s| :: s[j].Rejected?
  }

  lemma StartInv(inputs: seq<Input>)
    requires inputs != []
    ensures Inv(inputs, [], Started(inputs))
  {
    LoopInvariant(inputs, |inputs|);
    assert inputs[..|inputs|] == inputs;
    assert PartFinals(inputs, |inputs|) == Finals(inputs);
    ValuesFull(inputs);
    if FirstRejected(inputs, |inputs|).Some? {
      FirstRejectedIsOne(inputs, |inputs|);
      RejectedHasNoValue(inputs);
    }
    hide Looped, PartFinals, Finals, Values, FirstRejected;
  }

  /** Until its event, a waiting promise stays waiting. */
  lemma {:induction false} StillWaiting(inputs: seq<Input>, events: seq<Event>, i: nat)
    requires IsRun(inputs, events) && i < |inputs| && inputs[i].Waiting?
    requires forall k | 0 <= k < |events| :: events[k].i != i
    ensures Current(inputs, events)[i].Waiting?
  {
    if events == [] {
    } else {
      StillWaiting(inputs, events[..|events| - 1], i);
    }
  }

  lemma OneMore(inputs: seq<Input>, events: seq<Event>, e: Event)
    requires IsRun(inputs, events) && IsRun(inputs, events + [e])
    ensures e.i < |inputs| && (e.input.Resolved? || e.input.Rejected?)
    ensures Current(inputs, events)[e.i].Waiting?
    ensures Current(inputs, events + [e]) == Current(inputs, events)[e.i := e.input]
    ensures FirstRejection(inputs, events + [e])
         == var r := FirstRejection(inputs, events);
            if r.None? && e.input.Rejected? then Some(e.input.reason) else r
  {
    var more := events + [e];
    assert more[..|more| - 1] == events && more[|more| - 1] == e;
    StillWaiting(inputs, events, e.i);
  }

  lemma EventInv(inputs: seq<Input>, events: seq<Event>, e: Event, st: State)
    requires IsRun(inputs, events) && IsRun(inputs, events + [e]) && Inv(inputs, events, st)
    requires e.i < |st.args|
    ensures Inv(inputs, events + [e], Subscribe(st, e.input, e.i))
  {
    hide Values, Current, FirstRejection;
    OneMore(inputs, events, e);
    var now, next := Current(inputs, events), Current(inputs, events + [e]);
    ValuesUpdate(now, e.i, e.input);
    ValuesFull(now);
    ValuesFull(next);
    assert now[e.i] in now && next[e.i] in next;
    assert Finals(next) == Finals(now)[e.i := Final(e.input)];
    hide Finals;
    if FirstRejection(inputs, events).Some? {
      var j :| 0 <= j < |now| && now[j].Rejected?;
      assert next[j].Rejected? && next[j] in next;
    } else if e.input.Rejected? {
      assert next[e.i].Rejected?;
    }
  }

  /** For every order in which the waiting promises settle, and at every moment of it, the Deferred
      is exactly as promised: in particular it resolves when the last input gets its value, and
      the first rejection decides it for good. */
  lemma {:induction false} WhenIsExact(inputs: seq<Input>, events: seq<Event>)
    requires |inputs| > 1 && IsRun(inputs, events)
    ensures Run(inputs, events).outcome == Expected(inputs, events)
    ensures Inv(inputs, events, Run(inputs, events))
  {
    hide Inv, Subscribe, Started;
    if events == [] {
      StartInv(inputs);
      InvOutcome(inputs, events, Run(inputs, events));
    } else {
      var before, e := events[..|events| - 1], events[|events| - 1];
      assert events == before + [e];
      WhenIsExact(inputs, before);
      assert events[|events| - 1].i < |inputs|;
      EventInv(inputs, before, e, Run(inputs, before));
      InvOutcome(inputs, events, Run(inputs, events));
    }
  }

  lemma InvOutcome(inputs: seq<Input>, events: seq<Event>, st: State)
    requires IsRun(inputs, events) && Inv(inputs, events, st)
    ensures st.outcome == Expected(inputs, events)
  {
  }

  /** Once settled, the Deferred keeps its outcome: it resolves or rejects at most once. */
  lemma {:induction false} SettlesOnce(inputs: seq<Input>, events: seq<Event>, e: Event)
    requires |inputs| > 1 && IsRun(inputs, events + [e]) && IsRun(inputs, events) && Expected(inputs, events).Some?
    ensures Expected(inputs, events + [e]) == Expected(inputs, events)
  {
    hide Inv, Expected, IsRun, Pack;
    var more := events + [e];
    assert more[..|more| - 1] == events && more[|more| - 1] == e;
    OneMore(inputs, events, e);
    WhenIsExact(inputs, events);
    WhenIsExact(inputs, more);
  }
}
