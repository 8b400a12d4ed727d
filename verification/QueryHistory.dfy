/** The undo history of Query: snapshots that are deep copies, a response that fails and brings the
    newest of them back, and callers that change the live objects as they like in between. */
module QueryHistory {
  import opened DeepCopy

  // ----- The same on values -----

  /** What the live state says, the snapshots of the answered requests, those of the open ones, which are
      numbered as they go out, and how many have gone out. */
  datatype Session = Session(now: Json, history: seq<Json>, pending: map<nat, Json>, sent: nat)

  /** A response with results puts the snapshot of its request at the end of the history; one that
      failed brings the newest snapshot back. */
  function Responded(s: Session, n: nat, ok: bool): Session
    requires n in s.pending && s.history != []
  {
    var s' := s.(pending := s.pending - {n});
    if ok then s'.(history := s.history + [s.pending[n]]) else s'.(now := s.history[|s.history| - 1])
  }

  function Sent(s: Session): Session {
    s.(pending := s.pending[s.sent := s.now], sent := s.sent + 1)
  }

  /** A caller changes the state, a request goes out, or the response to request n comes in. */
  datatype Event = Change(now: Json) | Send | Respond(n: nat, ok: bool)

  function Step(s: Session, e: Event): Session {
    match e
    case Change(now) => s.(now := now)
    case Send => Sent(s)
    case Respond(n, ok) => if n in s.pending && s.history != [] then Responded(s, n, ok) else s
  }

  function Run(s: Session, events: seq<Event>): Session {
    if events == [] then s
    else
      var k := |events| - 1;
      Step(Run(s, events[..k]), events[k])
  }

  // ----- What a run should come to, by its events alone -----

  function Sends(events: seq<Event>): nat {
    if events == [] then 0
    else Sends(events[..|events| - 1]) + if events[|events| - 1] == Send then 1 else 0
  }

  /** Where request n goes out. */
  function SendOf(events: seq<Event>, n: nat): (k: nat)
    requires n < Sends(events)
    ensures k < |events| && events[k] == Send && Sends(events[..k]) == n
  {
    var before := events[..|events| - 1];
    if n < Sends(before) then
      var k := SendOf(before, n);
      assert before[..k] == events[..k];
      k
    else |events| - 1
  }

  /** Event k is a response to request n, which has gone out. */
  predicate Answers(events: seq<Event>, k: int, n: nat) {
    0 <= k < |events| && events[k].Respond? && events[k].n == n && n < Sends(events[..k])
  }

  /** Request n has gone out and has had no response. */
  ghost predicate IsOpen(events: seq<Event>, n: nat) {
    n < Sends(events) && forall k :: !Answers(events, k, n)
  }

  /** The requests that have succeeded, in the order of their responses. */
  ghost function Succeeded(events: seq<Event>): (r: seq<nat>)
    ensures forall i | 0 <= i < |r| :: r[i] < Sends(events)
  {
    if events == [] then []
    else
      var before, e := events[..|events| - 1], events[|events| - 1];
      Succeeded(before) + if e.Respond? && e.ok && IsOpen(before, e.n) then [e.n] else []
  }

  /** The state at the moment when request n goes out. */
  function StateSent(s: Session, events: seq<Event>, n: nat): Json
    requires n < Sends(events)
  {
    Run(s, events[..SendOf(events, n)]).now
  }

  lemma {:induction false} OneEventMore(s: Session, events: seq<Event>, e: Event)
    ensures var more := events + [e];
            && Run(s, more) == Step(Run(s, events), e)
            && Sends(more) == Sends(events) + (if e == Send then 1 else 0)
            && (forall n | 0 <= n < Sends(events) :: StateSent(s, more, n) == StateSent(s, events, n))
            && (e == Send ==> StateSent(s, more, Sends(events)) == Run(s, events).now)
    ensures forall n: nat ::
              IsOpen(events + [e], n) <==>
              (IsOpen(events, n) && !(e.Respond? && e.n == n)) || (e == Send && n == Sends(events))
  {
    var more := events + [e];
    assert more[..|events|] == events;
    forall n | 0 <= n < Sends(events)
      ensures StateSent(s, more, n) == StateSent(s, events, n)
    {
      var k := SendOf(events, n);
      assert more[..k] == events[..k];
    }
    forall k: int, n: nat | 0 <= k < |events|
      ensures Answers(more, k, n) == Answers(events, k, n)
    {
      assert more[..k] == events[..k];
    }
    forall n: nat
      ensures IsOpen(more, n) <==> (IsOpen(events, n) && !(e.Respond? && e.n == n)) || (e == Send && n == Sends(events))
    {
      OpenOneMore(events, e, n);
    }
  }

  lemma {:induction false} AnswerAfterSend(events: seq<Event>, k: nat)
    requires k <= |events|
    ensures Sends(events[..k]) <= Sends(events)
  {
    if k == |events| {
      assert events[..k] == events;
    } else {
      var before := events[..|events| - 1];
      AnswerAfterSend(before, k);
      assert before[..k] == events[..k];
    }
  }

  lemma {:induction false} OpenOneMore(events: seq<Event>, e: Event, n: nat)
    ensures IsOpen(events + [e], n) <==>
            (IsOpen(events, n) && !(e.Respond? && e.n == n)) || (e == Send && n == Sends(events))
  {
    var more, i := events + [e], |events|;
    assert more[..i] == events;
    forall k: int | 0 <= k < i
      ensures Answers(more, k, n) == Answers(events, k, n)
      ensures n >= Sends(events) ==> !Answers(events, k, n)
    {
      assert more[..k] == events[..k];
      AnswerAfterSend(events, k);
    }
    assert forall k: int | k < 0 || k > i :: !Answers(more, k, n);
    assert Answers(more, i, n) <==> e.Respond? && e.n == n && n < Sends(events);
    if IsOpen(events, n) && !(e.Respond? && e.n == n) {
      assert forall k :: !Answers(more, k, n);
    }
    if e == Send && n == Sends(events) {
      assert forall k :: !Answers(more, k, n);
    }
    if IsOpen(more, n) && n < Sends(events) {
      assert !Answers(more, i, n);
      assert forall k :: !Answers(events, k, n) by {
        forall k
          ensures !Answers(events, k, n)
        {
          assert !Answers(more, k, n);
        }
      }
    }
  }

  // ----- Theorems over all runs -----

  /** At every moment of every run, whatever changed meanwhile and in whatever order the responses came:
      the history is what it was at the start and then, for exactly the requests that have succeeded, in
      the order of their responses, the states at the moments when they went out; and the requests whose
      snapshots are kept are exactly those sent and not answered. */
  lemma {:induction false} HistoryIsAnswered(s: Session, events: seq<Event>)
    requires s.history != [] && s.pending == map[] && s.sent == 0
    ensures var r, done := Run(s, events), Succeeded(events);
            && r.sent == Sends(events)
            && |r.history| == |s.history| + |done| && s.history <= r.history
            && (forall i | 0 <= i < |done| :: r.history[|s.history| + i] == StateSent(s, events, done[i]))
            && (forall n: nat :: n in r.pending <==> IsOpen(events, n))
            && (forall n: nat | n in r.pending :: r.pending[n] == StateSent(s, events, n))
  {
    if events == [] {
    } else {
      var before, e := events[..|events| - 1], events[|events| - 1];
      assert events == before + [e];
      HistoryIsAnswered(s, before);
      OneEventMore(s, before, e);
      hide Run, StateSent, IsOpen, Sends;
      if e.Respond? && e.ok && IsOpen(before, e.n) {
        assert Succeeded(events) == Succeeded(before) + [e.n];
        assert e.n in Run(s, before).pending && e.n < Sends(before);
      } else {
        assert Succeeded(events) == Succeeded(before);
      }
    }
  }

  /** No request succeeds twice. */
  lemma {:induction false} SucceedsOnce(events: seq<Event>, i: nat, j: nat)
    requires i < j < |Succeeded(events)|
    ensures Succeeded(events)[i] != Succeeded(events)[j] && !IsOpen(events, Succeeded(events)[i])
  {
    var before, e := events[..|events| - 1], events[|events| - 1];
    assert events == before + [e];
    hide IsOpen;
    forall n | n in Succeeded(before)
      ensures !IsOpen(before, n) && !IsOpen(events, n)
    {
      SucceededIsClosed(before, n);
      SucceededIsClosed(events, n);
    }
    SucceededIsClosed(events, Succeeded(events)[i]);
    if j < |Succeeded(before)| {
      SucceedsOnce(before, i, j);
    } else {
      assert Succeeded(events)[i] == Succeeded(before)[i] && Succeeded(before)[i] in Succeeded(before);
    }
  }

  lemma {:induction false} SucceededIsClosed(events: seq<Event>, n: nat)
    requires n in Succeeded(events)
    ensures !IsOpen(events, n)
  {
    var before, e := events[..|events| - 1], events[|events| - 1];
    assert events == before + [e];
    OpenOneMore(before, e, n);
    hide IsOpen;
    if n in Succeeded(before) {
      SucceededIsClosed(before, n);
      assert n < Sends(before);
    }
  }

  /** No entry of the history ever changes or goes away. */
  lemma {:induction false} HistoryGrows(s: Session, events: seq<Event>)
    ensures s.history <= Run(s, events).history
  {
    if events == [] {
    } else {
      HistoryGrows(s, events[..|events| - 1]);
    }
  }

  /** The state is what a caller last made it or, after a response that failed to a request that was
      open, the newest entry of the history; nothing else changes it. */
  lemma {:induction false} StateFollows(s: Session, events: seq<Event>, e: Event)
    requires s.history != [] && s.pending == map[] && s.sent == 0
    ensures var before, after := Run(s, events), Run(s, events + [e]);
            && before.history != []
            && after.now == match e
                            case Change(now) => now
                            case Send => before.now
                            case Respond(n, ok) =>
                              if !ok && IsOpen(events, n) then before.history[|before.history| - 1] else before.now
  {
    HistoryIsAnswered(s, events);
    OneEventMore(s, events, e);
  }

  // ----- The program -----

  /** The snapshot says these three things. */
  ghost function State(search: Json, indices: Json, types: Json): Json {
    Node(false, map["search" := search, "indices" := indices, "types" := types])
  }

  ghost predicate IsState(j: Json) {
    && j.Node? && !j.isArray && j.fields.Keys == {"search", "indices", "types"}
    && j.fields["search"].Node? && j.fields["indices"].Node? && j.fields["types"].Node?
  }

  /** Each of them is a snapshot in the region. */
  ghost predicate Snapshots(s: seq<Obj>, r: set<Obj>)
    requires Region(r)
    reads r
  {
    forall o | o in s :: o in r && IsState(JsonOf(o, r))
  }

  ghost function Says(s: seq<Obj>, r: set<Obj>): (j: seq<Json>)
    requires Region(r) && Snapshots(s, r)
    reads r
    ensures |j| == |s| && forall i | 0 <= i < |s| :: j[i] == JsonOf(s[i], r)
  {
    hide Region, JsonOf, IsState;
    if s == [] then [] else [JsonOf(s[0], r)] + Says(s[1..], r)
  }

  /** The same for the open requests. */
  ghost predicate Captured(m: map<nat, Obj>, r: set<Obj>)
    requires Region(r)
    reads r
  {
    forall n | n in m :: m[n] in r && IsState(JsonOf(m[n], r))
  }

  ghost function SaysOpen(m: map<nat, Obj>, r: set<Obj>): (j: map<nat, Json>)
    requires Region(r) && Captured(m, r)
    reads r
  {
    hide Region, JsonOf, IsState;
    map n | n in m :: JsonOf(m[n], r)
  }

  lemma {:induction false} SaysOpenLocal(m: map<nat, Obj>, r: set<Obj>, r': set<Obj>)
    requires Region(r) && Region(r') && r <= r' && Captured(m, r)
    ensures Captured(m, r') && SaysOpen(m, r) == SaysOpen(m, r')
  {
    hide Region, JsonOf, IsState;
    forall n | n in m
      ensures m[n] in r' && Below(m[n], r) && Below(m[n], r') && JsonOf(m[n], r) == JsonOf(m[n], r')
    {
      InRegion(m[n], r);
      InRegion(m[n], r');
      JsonLocal(m[n], r, r');
    }
  }

  lemma SaysOpenOneMore(m: map<nat, Obj>, n: nat, o: Obj, r: set<Obj>)
    requires Region(r) && Captured(m, r) && o in r && IsState(JsonOf(o, r))
    ensures Captured(m[n := o], r) && SaysOpen(m[n := o], r) == SaysOpen(m, r)[n := JsonOf(o, r)]
  {
    hide Region, JsonOf, IsState;
  }

  lemma SaysOpenOneLess(m: map<nat, Obj>, n: nat, r: set<Obj>)
    requires Region(r) && Captured(m, r) && n in m
    ensures Captured(m - {n}, r) && SaysOpen(m - {n}, r) == SaysOpen(m, r) - {n}
    ensures SaysOpen(m, r)[n] == JsonOf(m[n], r)
  {
    hide Region, JsonOf, IsState;
  }

  /** Snapshots say the same when more join the region. */
  lemma {:induction false} SaysLocal(s: seq<Obj>, r: set<Obj>, r': set<Obj>)
    requires Region(r) && Region(r') && r <= r' && Snapshots(s, r)
    ensures Snapshots(s, r') && Says(s, r) == Says(s, r')
  {
    hide Region, JsonOf, IsState;
    forall o | o in s
      ensures o in r' && Below(o, r) && Below(o, r') && JsonOf(o, r) == JsonOf(o, r')
    {
      InRegion(o, r);
      InRegion(o, r');
      JsonLocal(o, r, r');
    }
  }

  lemma InRegion(o: Obj, r: set<Obj>)
    requires Region(r) && o in r
    ensures Below(o, r)
  {
  }

  lemma SaysOneMore(s: seq<Obj>, o: Obj, r: set<Obj>)
    requires Region(r) && Snapshots(s, r) && Snapshots([o], r)
    ensures Snapshots(s + [o], r) && Says(s + [o], r) == Says(s, r) + [JsonOf(o, r)]
  {
    hide Region, JsonOf, IsState;
  }

  lemma WrapperSays(w: Obj, search: Obj, indices: Obj, types: Obj, r: set<Obj>)
    requires Region(r) && search in r && indices in r && types in r && !w.isArray
    requires search.rank < w.rank && indices.rank < w.rank && types.rank < w.rank
    requires w.props == map["search" := Ref(search), "indices" := Ref(indices), "types" := Ref(types)]
    ensures Below(w, r) && JsonOf(w, r) == State(JsonOf(search, r), JsonOf(indices, r), JsonOf(types, r))
    ensures IsState(JsonOf(w, r))
  {
  }

  lemma Unwrapped(w: Obj, r: set<Obj>)
    requires Region(r) && Below(w, r) && IsState(JsonOf(w, r))
    ensures forall name | name in {"search", "indices", "types"} ::
              name in w.props && w.props[name].Ref? && w.props[name].o in r
    ensures JsonOf(w, r)
         == State(JsonOf(w.props["search"].o, r), JsonOf(w.props["indices"].o, r), JsonOf(w.props["types"].o, r))
  {
    forall name | name in JsonOf(w, r).fields
      ensures name in w.props && JsonOf(w, r).fields[name] == JsonOfValue(w.props[name], w.rank, r)
    {
    }
  }

  /** A copy of a snapshot that joins the live objects. */
  lemma Restored(copy: Obj, copied: set<Obj>, live: set<Obj>, j: Json)
    requires Region(live) && Region(copied) && Below(copy, copied) && !copy.isArray
    requires IsState(j) && JsonOf(copy, copied).fields == j.fields
    ensures var r := live + copied;
            && Region(r)
            && (forall name | name in {"search", "indices", "types"} ::
                  name in copy.props && copy.props[name].Ref? && copy.props[name].o in copied)
            && j == State(JsonOf(copy.props["search"].o, r), JsonOf(copy.props["indices"].o, r),
                          JsonOf(copy.props["types"].o, r))
  {
    hide Region, JsonOf;
    RegionUnion(live, copied);
    JsonLocal(copy, copied, live + copied);
    assert JsonOf(copy, copied) == j;
    Unwrapped(copy, copied);
    Unwrapped(copy, live + copied);
  }

  /** These properties refer only to objects that have a lower rank. */
  ghost predicate Descends(props: map<string, Value>, rank: nat, ranks: map<Obj, nat>) {
    forall name | name in props :: props[name].Ref? ==> props[name].o in ranks && ranks[props[name].o] < rank
  }

  lemma Ranked(ranks: map<Obj, nat>)
    requires forall x | x in ranks :: x.rank == ranks[x] && Descends(x.props, ranks[x], ranks)
    ensures Region(ranks.Keys)
  {
    forall x | x in ranks
      ensures Below(x, ranks.Keys)
    {
      assert Descends(x.props, ranks[x], ranks);
    }
  }

  lemma SaysFirst(o: Obj, r: set<Obj>)
    requires Region(r) && o in r && IsState(JsonOf(o, r))
    ensures Snapshots([o], r) && Says([o], r) == [JsonOf(o, r)]
    ensures Captured(map[], r) && SaysOpen(map[], r) == map[]
  {
    hide Region, JsonOf, IsState;
  }

  method Copied(state: Obj, ghost r: set<Obj>) returns (copy: Obj, ghost copied: set<Obj>)
    requires Region(r) && state in r
    ensures fresh(copied) && Region(copied) && fresh(copy) && Below(copy, copied) && !copy.isArray
    ensures JsonOf(copy, copied).fields == JsonOf(state, r).fields
  {
    hide Region, JsonOf, Below;
    InRegion(state, r);
    copy := new Obj(false);
    copied := Extend(copy, state, r);
  }

  class Query {
    var search: Obj
    var indices: Obj
    var types: Obj
    var history: seq<Obj>

    /** The states that the callbacks of the open requests have captured, by the number of the request. */
    var pending: map<nat, Obj>
    var sent: nat

    /** What callers can reach and change, and what they cannot. */
    ghost var live: set<Obj>
    ghost var frozen: set<Obj>

    /** The live objects make a region. */
    ghost predicate Live()
      reads this, live
    {
      Region(live) && search in live && indices in live && types in live
    }

    ghost function Now(): Json
      requires Live()
      reads this, live
    {
      State(JsonOf(search, live), JsonOf(indices, live), JsonOf(types, live))
    }

    ghost predicate Valid()
      reads this, live, frozen
    {
      && Live() && Region(frozen) && live !! frozen && history != []
      && Snapshots(history, frozen) && Captured(pending, frozen)
    }

    ghost function Value(): Session
      requires Valid()
      reads this, live, frozen
    {
      Session(Now(), Says(history, frozen), SaysOpen(pending, frozen), sent)
    }

    /** The last lines of init: the first snapshot is of the state that was just built. */
    constructor (search: Obj, indices: Obj, types: Obj, ghost r: set<Obj>)
      requires Region(r) && search in r && indices in r && types in r
      ensures Valid() && live == r && fresh(frozen)
      ensures this.search == search && this.indices == indices && this.types == types
      ensures Value() == Session(Now(), [Now()], map[], 0)
    {
      hide Region, JsonOf, IsState, Says, Snapshots, Captured, SaysOpen, State;
      this.search, this.indices, this.types := search, indices, types;
      history, pending, sent, live, frozen := [], map[], 0, r, {};
      new;
      var state;
      state, frozen := GetState();
      history := [state];
      SaysFirst(state, frozen);
    }

    /** getState: a copy that shares nothing with the live objects. */
    method GetState() returns (state: Obj, ghost r: set<Obj>)
      requires Live()
      ensures fresh(r) && state in r && Region(r) && JsonOf(state, r) == Now() && IsState(Now())
    {
      hide Region, JsonOf;
      var wrapper := new Obj(false);
      wrapper.props := map["search" := Ref(search), "indices" := Ref(indices), "types" := Ref(types)];
      wrapper.rank := search.rank + indices.rank + types.rank + 1;
      state := new Obj(false);
      WrapperSays(wrapper, search, indices, types, live);
      ghost var copied := Extend(state, wrapper, live);
      EmptyRegion();
      Adopt(state, copied, {});
      r := copied + {state};
      assert {} + copied + {state} == r;
    }

    /** restoreState: the live objects become copies of what a snapshot holds, and share nothing with
        it or with the objects before. */
    method RestoreState(state: Obj, ghost r: set<Obj>) returns (ghost copied: set<Obj>)
      requires Valid() && Region(r) && state in r && IsState(JsonOf(state, r))
      modifies this`search, this`indices, this`types, this`live
      ensures Valid() && Now() == JsonOf(state, r)
      ensures live == old(live) + copied && fresh(copied) && Region(copied) && {search, indices, types} <= copied
    {
      hide Region, JsonOf, JsonOfValue, IsState, Snapshots, Says, Captured, SaysOpen, State, Below;
      var copy;
      copy, copied := Copied(state, r);
      InRegion(state, r);
      Restored(copy, copied, live, JsonOf(state, r));
      live := live + copied;
      search, indices, types := copy.props["search"].o, copy.props["indices"].o, copy.props["types"].o;
    }

    /** What clone makes of a new query: its state is equal to that of the other one, in objects of
        its own. */
    method RestoreFrom(other: Query) returns (ghost copied: set<Obj>)
      requires Valid() && other.Valid() && other != this
      modifies this`search, this`indices, this`types, this`live
      ensures Valid() && Now() == old(other.Now()) && other.Valid() && other.Now() == old(other.Now())
      ensures live == old(live) + copied && fresh(copied) && Region(copied) && {search, indices, types} <= copied
    {
      hide Region, JsonOf, JsonOfValue, IsState, Snapshots, Says, Captured, SaysOpen, State, Below;
      var state, r := other.GetState();
      copied := RestoreState(state, r);
    }

    /** query: the request goes out, and its callback keeps a snapshot. */
    method Send()
      requires Valid()
      modifies this`pending, this`sent, this`frozen
      ensures Valid() && Value() == Sent(old(Value()))
    {
      hide Region, JsonOf, IsState, Says, SaysOpen;
      var state, r := GetState();
      RegionUnion(frozen, r);
      SaysLocal(history, frozen, frozen + r);
      SaysOpenLocal(pending, frozen, frozen + r);
      InRegion(state, r);
      JsonLocal(state, r, frozen + r);
      SaysOpenOneMore(pending, sent, state, frozen + r);
      pending := pending[sent := state];
      sent := sent + 1;
      frozen := frozen + r;
    }

    /** The callback of an open request, with results or with null. */
    method Respond(n: nat, ok: bool)
      requires Valid() && n in pending
      modifies this`pending, this`history, this`search, this`indices, this`types, this`live
      ensures Valid() && live >= old(live) && fresh(live - old(live))
      ensures Value() == Responded(old(Value()), n, ok)
    {
      hide Region, JsonOf, IsState, Says, SaysOpen;
      var state := pending[n];
      SaysOpenOneLess(pending, n, frozen);
      SaysOneMore(history, state, frozen);
      pending := pending - {n};
      if !ok {
        var _ := RestoreState(history[|history| - 1], frozen);
      } else {
        history := history + [state];
      }
    }

    /** A caller gives an object that it can reach other properties, where these may hold objects of
        its own, as long as the live objects do not come to contain themselves. */
    method Change(o: Obj, props: map<string, Value>, ghost ranks: map<Obj, nat>)
      requires Valid() && o in live && live <= ranks.Keys && ranks.Keys !! frozen
      requires forall x | x in ranks :: Descends(if x == o then props else x.props, ranks[x], ranks)
      modifies o, ranks.Keys`rank, this`live
      ensures Valid() && o.props == props && live == ranks.Keys
      ensures forall x | x in live && x != o :: x.props == old(x.props)
      ensures Value().history == old(Value()).history && Value().pending == old(Value()).pending
    {
      hide Region, JsonOf, IsState, Says, Snapshots, Captured, SaysOpen, Descends;
      o.props := props;
      forall x | x in ranks {
        x.rank := ranks[x];
      }
      live := ranks.Keys;
      Ranked(ranks);
    }
  }
}
