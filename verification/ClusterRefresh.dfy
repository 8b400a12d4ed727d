/** Overlapping refreshes of ClusterState: every round waits for five responses in variables of its
    own, and publishes them together. */
module ClusterRefresh {
  import opened Wrappers

  datatype Slot = State | Status | NodeStats | Nodes | Health

  /** Five variables, or five fields: None is what is falsy, undefined and null alike. */
  datatype Vars = Vars(clusterState: Option<int>, status: Option<int>, nodeStats: Option<int>,
                       clusterNodes: Option<int>, clusterHealth: Option<int>) {
    function Of(s: Slot): Option<int> {
      match s
      case State => clusterState
      case Status => status
      case NodeStats => nodeStats
      case Nodes => clusterNodes
      case Health => clusterHealth
    }

    function With(s: Slot, d: Option<int>): (v: Vars)
      ensures forall s' :: v.Of(s') == if s' == s then d else Of(s')
    {
      match s
      case State => this.(clusterState := d)
      case Status => this.(status := d)
      case NodeStats => this.(nodeStats := d)
      case Nodes => this.(clusterNodes := d)
      case Health => this.(clusterHealth := d)
    }

    predicate Complete() {
      clusterState.Some? && status.Some? && nodeStats.Some? && clusterNodes.Some? && clusterHealth.Some?
    }
  }

  const NOTHING := Vars(None, None, None, None, None)

  // ----- What happens, on values -----

  /** A call of refresh, a response to one of the five requests of a round, the failure of its request
      for the cluster state, and the response to the request for "_all" that then goes out. */
  datatype Event =
    | Refresh
    | Answer(round: nat, slot: Slot, data: Option<int>)
    | Failed(round: nat)
    | Fallback(round: nat, indices: int)

  /** A "data" event, with the fields that its listeners find. */
  datatype Fired = Fired(round: nat, fields: Vars)

  datatype World = World(rounds: seq<Vars>, fields: Vars, fired: seq<Fired>)

  const START := World([], NOTHING, [])

  function Arrive(w: World, r: nat, s: Slot, d: Option<int>): World {
    if r < |w.rounds| then
      var vars := w.rounds[r].With(s, d);
      var w' := w.(rounds := w.rounds[r := vars]);
      if vars.Complete() then w'.(fields := vars, fired := w.fired + [Fired(r, vars)]) else w'
    else w
  }

  function Step(w: World, e: Event): World {
    match e
    case Refresh => w.(rounds := w.rounds + [NOTHING])
    case Answer(r, s, d) => Arrive(w, r, s, d)
    case Failed(r) => w
    case Fallback(r, v) => Arrive(w, r, State, Some(v))
  }

  function Run(events: seq<Event>): World {
    if events == [] then START
    else Step(Run(events[..|events| - 1]), events[|events| - 1])
  }

  // ----- The program -----

  /** The variables of one call of refresh, which its callbacks share. */
  class Round {
    var vars: Vars

    constructor ()
      ensures vars == NOTHING
    {
      vars := NOTHING;
    }
  }

  class ClusterState {
    var clusterState: Option<int>
    var status: Option<int>
    var nodeStats: Option<int>
    var clusterNodes: Option<int>
    var clusterHealth: Option<int>
    ghost var rounds: seq<Round>
    ghost var fired: seq<Fired>

    ghost predicate Valid()
      reads this
    {
      forall i, j | 0 <= i < j < |rounds| :: rounds[i] != rounds[j]
    }

    ghost function Fields(): Vars
      reads this
    {
      Vars(clusterState, status, nodeStats, clusterNodes, clusterHealth)
    }

    ghost function Value(): World
      reads this, rounds
    {
      World(seq(|rounds|, i requires 0 <= i < |rounds| reads rounds, this => rounds[i].vars), Fields(), fired)
    }

    constructor ()
      ensures Valid() && Value() == START
    {
      clusterState, status, nodeStats, clusterNodes, clusterHealth := None, None, None, None, None;
      rounds, fired := [], [];
    }

    /** refresh, up to its five requests. */
    method Refresh() returns (round: Round)
      requires Valid()
      modifies this`rounds
      ensures Valid() && fresh(round) && rounds == old(rounds) + [round]
      ensures Value() == Step(old(Value()), Event.Refresh)
    {
      round := new Round();
      rounds := rounds + [round];
    }

    /** updateModel, on behalf of the round with number r. */
    method UpdateModel(round: Round, ghost r: nat)
      modifies this`clusterState, this`status, this`nodeStats, this`clusterNodes, this`clusterHealth, this`fired
      ensures if round.vars.Complete() then Fields() == round.vars && fired == old(fired) + [Fired(r, round.vars)]
              else Fields() == old(Fields()) && fired == old(fired)
    {
      if round.vars.Complete() {
        clusterState := round.vars.clusterState;
        status := round.vars.status;
        nodeStats := round.vars.nodeStats;
        clusterNodes := round.vars.clusterNodes;
        clusterHealth := round.vars.clusterHealth;
        fired := fired + [Fired(r, Fields())];
      }
    }

    /** The callback of one of the requests of a round. */
    method Receive(round: Round, s: Slot, d: Option<int>, ghost r: nat)
      requires Valid() && r < |rounds| && rounds[r] == round
      modifies round, this`clusterState, this`status, this`nodeStats, this`clusterNodes, this`clusterHealth, this`fired
      ensures Valid() && Value() == Arrive(old(Value()), r, s, d)
    {
      round.vars := round.vars.With(s, d);
      UpdateModel(round, r);
    }
  }

  // ----- What can happen -----

  predicate Delivers(e: Event, r: nat, s: Slot, v: int) {
    e == Answer(r, s, Some(v)) || (s == State && e == Fallback(r, v))
  }

  /** A response of this round with value v came in for the slot. */
  ghost predicate Arrived(events: seq<Event>, r: nat, s: Slot, v: int) {
    exists e :: e in events && Delivers(e, r, s, v)
  }

  ghost predicate SomeArrived(events: seq<Event>, r: nat, s: Slot) {
    exists v :: Arrived(events, r, s, v)
  }

  function Refreshes(events: seq<Event>): nat {
    if events == [] then 0
    else Refreshes(events[..|events| - 1]) + if events[|events| - 1] == Refresh then 1 else 0
  }

  /** The request of the round for the slot has had its response, or its failure. */
  predicate Closes(e: Event, r: nat, s: Slot) {
    (e.Answer? && e.round == r && e.slot == s) || (s == State && e == Failed(r))
  }

  /** Every request is answered at most once. */
  ghost predicate Possible(before: seq<Event>, e: Event) {
    match e
    case Refresh => true
    case Answer(r, s, d) => r < Refreshes(before) && forall f | f in before :: !Closes(f, r, s)
    case Failed(r) => r < Refreshes(before) && forall f | f in before :: !Closes(f, r, State)
    case Fallback(r, v) => Failed(r) in before && forall f | f in before :: !(f.Fallback? && f.round == r)
  }

  ghost predicate WellBehaved(events: seq<Event>) {
    events == [] || (WellBehaved(events[..|events| - 1]) && Possible(events[..|events| - 1], events[|events| - 1]))
  }

  // ----- Snapshots come from one round -----

  /** Every field has a value, and all of them arrived in round r. */
  ghost predicate FromRound(events: seq<Event>, r: nat, fields: Vars) {
    forall s: Slot :: fields.Of(s).Some? && Arrived(events, r, s, fields.Of(s).value)
  }

  ghost predicate Held(events: seq<Event>, w: World) {
    forall r, s | 0 <= r < |w.rounds| && w.rounds[r].Of(s).Some? :: Arrived(events, r, s, w.rounds[r].Of(s).value)
  }

  lemma {:induction false} ArrivedBefore(events: seq<Event>, e: Event)
    ensures forall r: nat, s, v | Arrived(events, r, s, v) :: Arrived(events + [e], r, s, v)
  {
    forall r: nat, s, v | Arrived(events, r, s, v)
      ensures Arrived(events + [e], r, s, v)
    {
      var f :| f in events && Delivers(f, r, s, v);
      assert f in events + [e];
    }
  }

  lemma {:induction false} FromRoundBefore(events: seq<Event>, e: Event)
    ensures forall r, fields | FromRound(events, r, fields) :: FromRound(events + [e], r, fields)
  {
    ArrivedBefore(events, e);
  }

  lemma {:induction false} Front(events: seq<Event>)
    requires events != []
    ensures events[..|events| - 1] + [events[|events| - 1]] == events
  {
  }

  /** What a run holds, has published and has fired arrived, and arrived in one round together. */
  lemma {:induction false} Atomic(events: seq<Event>)
    ensures Held(events, Run(events))
    ensures forall f | f in Run(events).fired :: FromRound(events, f.round, f.fields)
    ensures Run(events).fields == if Run(events).fired == [] then NOTHING
                                  else Run(events).fired[|Run(events).fired| - 1].fields
  {
    hide FromRound;
    if events == [] {
    } else {
      var k := |events| - 1;
      var before, e := events[..k], events[k];
      Front(events);
      Atomic(before);
      ArrivedBefore(before, e);
      FromRoundBefore(before, e);
      var w := Run(before);
      match e {
        case Refresh =>
        case Failed(r) =>
        case Answer(r, s, d) => AtomicStep(before, e, r, s, d);
        case Fallback(r, v) => AtomicStep(before, e, r, State, Some(v));
      }
    }
  }

  lemma {:induction false} AtomicStep(before: seq<Event>, e: Event, r: nat, s: Slot, d: Option<int>)
    requires Held(before, Run(before)) && (d.Some? ==> Delivers(e, r, s, d.value))
    requires forall f | f in Run(before).fired :: FromRound(before, f.round, f.fields)
    ensures var w := Arrive(Run(before), r, s, d);
            && Held(before + [e], w)
            && forall f | f in w.fired :: FromRound(before + [e], f.round, f.fields)
  {
    ArrivedBefore(before, e);
    var w := Arrive(Run(before), r, s, d);
    assert e in before + [e];
    if r < |w.rounds| {
      assert forall s': Slot | w.rounds[r].Of(s').Some? :: Arrived(before + [e], r, s', w.rounds[r].Of(s').value);
    }
  }

  // ----- A round fires once -----

  function Fires(fired: seq<Fired>, r: nat): nat {
    if fired == [] then 0
    else Fires(fired[..|fired| - 1], r) + if fired[|fired| - 1].round == r then 1 else 0
  }

  lemma FiresMore(fired: seq<Fired>, f: Fired, r: nat)
    ensures Fires(fired + [f], r) == Fires(fired, r) + if f.round == r then 1 else 0
  {
    assert (fired + [f])[..|fired|] == fired;
  }

  /** The request for "_all" goes out only when the other has failed, and then nothing else arrives
      for the cluster state. */
  ghost predicate Ordered(events: seq<Event>) {
    && (forall f | f in events && f.Fallback? :: Failed(f.round) in events)
    && (forall f | f in events && f.Answer? && f.slot == State :: Failed(f.round) !in events)
  }

  lemma {:induction false} WellBehavedOrdered(events: seq<Event>)
    requires WellBehaved(events)
    ensures Ordered(events)
  {
    if events == [] {
    } else {
      var k := |events| - 1;
      Front(events);
      WellBehavedOrdered(events[..k]);
      assert forall f | f in events :: f in events[..k] || f == events[k];
      assert forall f | f in events[..k] :: f in events;
    }
  }

  /** All that has arrived is in the variables of its round, and a round has fired if it has all. */
  ghost predicate Kept(events: seq<Event>, w: World) {
    && (forall r: nat, s, v | Arrived(events, r, s, v) :: r < |w.rounds| && w.rounds[r].Of(s) == Some(v))
    && (forall r: nat :: Fires(w.fired, r) == if r < |w.rounds| && w.rounds[r].Complete() then 1 else 0)
  }

  lemma {:induction false} KeptRefresh(before: seq<Event>, w: World)
    requires Kept(before, w)
    ensures Kept(before + [Refresh], Step(w, Refresh))
  {
    forall r: nat, s, v | Arrived(before + [Refresh], r, s, v)
      ensures Arrived(before, r, s, v)
    {
      var e :| e in before + [Refresh] && Delivers(e, r, s, v);
      assert e in before;
    }
  }

  lemma {:induction false} KeptFailed(before: seq<Event>, w: World, i: nat)
    requires Kept(before, w)
    ensures Kept(before + [Failed(i)], w)
  {
    forall r: nat, s, v | Arrived(before + [Failed(i)], r, s, v)
      ensures Arrived(before, r, s, v)
    {
      var e :| e in before + [Failed(i)] && Delivers(e, r, s, v);
      assert e in before;
    }
  }

  lemma {:induction false} KeptArrive(before: seq<Event>, e: Event, w: World, r: nat, s: Slot, d: Option<int>)
    requires Kept(before, w) && r < |w.rounds| && w.rounds[r].Of(s).None?
    requires e == Answer(r, s, d) || (s == State && d.Some? && e == Fallback(r, d.value))
    ensures Kept(before + [e], Arrive(w, r, s, d))
  {
    var w' := Arrive(w, r, s, d);
    assert !w.rounds[r].Complete();
    forall r': nat, s', v | Arrived(before + [e], r', s', v)
      ensures r' < |w'.rounds| && w'.rounds[r'].Of(s') == Some(v)
    {
      var f :| f in before + [e] && Delivers(f, r', s', v);
      if f in before {
        assert Arrived(before, r', s', v);
      }
    }
    forall r': nat
      ensures Fires(w'.fired, r') == if r' < |w'.rounds| && w'.rounds[r'].Complete() then 1 else 0
    {
      FiresMore(w.fired, Fired(r, w.rounds[r].With(s, d)), r');
    }
  }

  lemma {:induction false} RunKept(events: seq<Event>)
    requires WellBehaved(events)
    ensures |Run(events).rounds| == Refreshes(events)
    ensures Kept(events, Run(events))
  {
    if events == [] {
    } else {
      var k := |events| - 1;
      var before, e := events[..k], events[k];
      Front(events);
      RunKept(before);
      Atomic(before);
      WellBehavedOrdered(before);
      var w := Run(before);
      match e {
        case Refresh => KeptRefresh(before, w);
        case Failed(r) => KeptFailed(before, w, r);
        case Answer(r, s, d) =>
          NothingYet(before, r, s, e);
          KeptArrive(before, e, w, r, s, d);
        case Fallback(r, v) =>
          FailedAfterRefresh(before, r);
          NothingYet(before, r, State, e);
          KeptArrive(before, e, w, r, State, Some(v));
      }
    }
  }

  lemma {:induction false} FailedAfterRefresh(events: seq<Event>, r: nat)
    requires WellBehaved(events) && Failed(r) in events
    ensures r < Refreshes(events)
  {
    var k := |events| - 1;
    if events[k] == Failed(r) {
    } else {
      Front(events);
      FailedAfterRefresh(events[..k], r);
    }
  }

  lemma {:induction false} NothingYet(before: seq<Event>, r: nat, s: Slot, e: Event)
    requires Ordered(before) && Possible(before, e) && Held(before, Run(before)) && r < |Run(before).rounds|
    requires (e.Answer? && e.round == r && e.slot == s) || (e.Fallback? && e.round == r && s == State)
    ensures Run(before).rounds[r].Of(s).None?
  {
  }

  /** If every request is answered at most once, a round fires "data" once if values for all its five
      slots arrive, the cluster state's from either of its requests, and otherwise never. */
  lemma {:induction false} ExactlyOnce(events: seq<Event>, r: nat)
    requires WellBehaved(events)
    ensures Fires(Run(events).fired, r) ==
            if forall s: Slot :: SomeArrived(events, r, s) then 1 else 0
  {
    RunKept(events);
    Atomic(events);
    var w := Run(events);
    if forall s: Slot :: SomeArrived(events, r, s) {
      forall s: Slot
        ensures r < |w.rounds| && w.rounds[r].Of(s).Some?
      {
        assert SomeArrived(events, r, s);
        var v :| Arrived(events, r, s, v);
      }
      assert SomeArrived(events, r, State);
      var vars := w.rounds[r];
      assert vars.Of(State).Some? && vars.Of(Status).Some? && vars.Of(NodeStats).Some?
          && vars.Of(Nodes).Some? && vars.Of(Health).Some?;
    } else if r < |w.rounds| && w.rounds[r].Complete() {
      forall s: Slot
        ensures SomeArrived(events, r, s)
      {
        assert w.rounds[r].Of(s).Some? && Arrived(events, r, s, w.rounds[r].Of(s).value);
      }
    }
  }
}
