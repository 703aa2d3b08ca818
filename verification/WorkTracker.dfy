/**
 The in-flight work of the sockets (src/socket/handlers/shared.ts): events are limited per socket, background work is
 not, and a shutdown drains both. An event of the machine is one synchronous segment.
 */
module WorkTracker {
  import opened Machine
  import opened Redis

  /** One promise handed to `track`; background work has no socket to be counted for. */
  datatype Item = Item(socket: Option<string>, finished: bool)

  /** `drain`: not called, waiting for the promises it has seen, or returned. */
  datatype Drain = Idle | Waiting(seen: set<nat>) | Returned

  /** `items` is the history of all accepted work. */
  datatype State = State(
    maximum: nat,
    accepting: bool,
    active: map<string, nat>,
    work: set<nat>,
    items: map<nat, Item>,
    drain: Drain)

  function Init(maximum: nat): State { State(maximum, true, map[], {}, map[], Idle) }

  datatype Event =
    | RunEvent(id: nat, socket: string)
    | RunBackground(id: nat)
    | Finish(id: nat)           // the work is over, whatever its outcome, and its `finally` has run
    | Forget(id: nat)           // the promise has settled and leaves `active_work`
    | BeginDrain
    | StartDrain
    | ResumeDrain               // everything seen has settled

  function Active(s: State, socket: string): nat { if socket in s.active then s.active[socket] else 0 }

  function Track(s: State, id: nat, item: Item): State
  {
    s.(work := s.work + {id}, items := s.items[id := item])
  }

  predicate Refuses(s: State, socket: string) { !s.accepting || Active(s, socket) >= s.maximum }

  /** The `finally` of an event. */
  function Released(active: map<string, nat>, socket: string): map<string, nat>
  {
    var remaining: int := (if socket in active then active[socket] as int else 1) - 1;
    if remaining <= 0 then active - {socket} else active[socket := remaining]
  }

  function Check(s: State): State
  {
    s.(drain := if s.work == {} then Returned else Waiting(s.work))
  }

  function Step(s: State, e: Event): Option<State>
  {
    match e
    case RunEvent(id, socket) =>
      if id in s.items then None
      else if Refuses(s, socket) then Some(s)
      else Some(Track(s, id, Item(Some(socket), false)).(active := s.active[socket := Active(s, socket) + 1]))
    case RunBackground(id) => if id in s.items then None else Some(Track(s, id, Item(None, false)))
    case Finish(id) =>
      if id !in s.items || s.items[id].finished then None
      else
        var done := s.(items := s.items[id := s.items[id].(finished := true)]);
        Some(match s.items[id].socket
             case None => done
             case Some(socket) => done.(active := Released(s.active, socket)))
    case Forget(id) =>
      if id !in s.items || !s.items[id].finished then None else Some(s.(work := s.work - {id}))
    case BeginDrain => Some(s.(accepting := false))
    case StartDrain => if s.drain != Idle then None else Some(Check(s.(accepting := false)))
    case ResumeDrain =>
      if !s.drain.Waiting? || exists id :: id in s.drain.seen && !(id in s.items && s.items[id].finished) then None
      else Some(Check(s))
  }

  // ---------- invariant ----------

  /** The accepted events of a socket whose `finally` has not run. */
  function Running(s: State, socket: string): set<nat>
  {
    set id | id in s.items && s.items[id] == Item(Some(socket), false)
  }

  ghost predicate SocketOk(s: State, socket: string)
  {
    Active(s, socket) == |Running(s, socket)| <= s.maximum && (socket in s.active ==> s.active[socket] > 0)
  }

  ghost predicate WorkOk(s: State)
  {
    && s.work <= s.items.Keys
    && (forall id :: id in s.items && !s.items[id].finished ==> id in s.work)
    && (s.drain != Idle ==> !s.accepting)
    && (s.drain.Waiting? ==> s.drain.seen <= s.items.Keys)
  }

  ghost predicate Inv(s: State) { WorkOk(s) && forall socket :: SocketOk(s, socket) }

  lemma OneSocketMoves(s: State, t: State, id: nat, socket: string, other: string)
    requires SocketOk(s, other) && t.maximum == s.maximum && Active(s, socket) < s.maximum
    requires id !in s.items && t.items == s.items[id := Item(Some(socket), false)]
    requires t.active == s.active[socket := Active(s, socket) + 1]
    ensures SocketOk(t, other)
  {
    assert Running(t, other) == Running(s, other) + if other == socket then {id} else {};
  }

  lemma OneEventEnds(s: State, t: State, id: nat, socket: string, other: string)
    requires SocketOk(s, other) && SocketOk(s, socket) && t.maximum == s.maximum
    requires id in s.items && s.items[id] == Item(Some(socket), false)
    requires t.items == s.items[id := Item(Some(socket), true)] && t.active == Released(s.active, socket)
    ensures SocketOk(t, other)
  {
    assert id in Running(s, socket);
    RunningWithout(s, t, id, socket, other);
    ReleasedActive(s, t, socket, other);
    hide Running, Released;
  }

  lemma RunningWithout(s: State, t: State, id: nat, socket: string, other: string)
    requires id in s.items && s.items[id] == Item(Some(socket), false)
    requires t.items == s.items[id := Item(Some(socket), true)]
    ensures if other == socket then |Running(t, other)| == |Running(s, other)| - 1 else Running(t, other) == Running(s, other)
  {
    assert id in Running(s, socket);
    assert Running(t, other) == Running(s, other) - if other == socket then {id} else {};
  }

  lemma ReleasedActive(s: State, t: State, socket: string, other: string)
    requires socket in s.active && s.active[socket] > 0 && t.active == Released(s.active, socket)
    requires other in s.active ==> s.active[other] > 0
    ensures Active(t, other) == Active(s, other) - if other == socket then 1 else 0
    ensures other in t.active ==> t.active[other] > 0
  {
  }

  lemma SameRunning(s: State, t: State, socket: string)
    requires SocketOk(s, socket) && t.maximum == s.maximum && t.active == s.active
    requires Running(t, socket) == Running(s, socket)
    ensures SocketOk(t, socket)
  {
  }

  lemma StepKeepsInv(s: State, e: Event)
    requires Inv(s) && Step(s, e).Some?
    ensures Inv(Step(s, e).value)
  {
    var t := Step(s, e).value;
    forall other ensures SocketOk(t, other) {
      assert SocketOk(s, other);
      match e
      case RunEvent(id, socket) =>
        if !Refuses(s, socket) { OneSocketMoves(s, t, id, socket, other); }
      case Finish(id) =>
        if s.items[id].socket.Some? {
          assert SocketOk(s, s.items[id].socket.value);
          OneEventEnds(s, t, id, s.items[id].socket.value, other);
        } else {
          SameRunning(s, t, other);
        }
      case _ => SameRunning(s, t, other);
    }
    hide SocketOk;
  }

  lemma RunKeepsInv(maximum: nat, es: seq<Event>, n: nat)
    requires Run(Step, Init(maximum), es).Some? && n <= |es|
    ensures Inv(At(Step, Init(maximum), es, n))
  {
    assert Inv(Init(maximum)) by {
      forall socket ensures SocketOk(Init(maximum), socket) {
        assert Running(Init(maximum), socket) == {};
      }
    }
    hide Step, Inv;
    AtEnds(Step, Init(maximum), es);
    forall s, e | Inv(s) && Step(s, e).Some? ensures Inv(Step(s, e).value) {
      StepKeepsInv(s, e);
    }
    Always(Step, Inv, Init(maximum), es, 0, n);
  }

  // ---------- theorems ----------

  /** In every state a socket's count is the number of its events under way, and at most the maximum. */
  lemma CountsAreExact(maximum: nat, es: seq<Event>, socket: string)
    requires Run(Step, Init(maximum), es).Some?
    ensures var s := Run(Step, Init(maximum), es).value;
            && Active(s, socket) == |Running(s, socket)| <= maximum
            && (socket in s.active <==> Running(s, socket) != {})
            && forall id :: id in s.items && !s.items[id].finished ==> id in s.work
  {
    RunKeepsInv(maximum, es, |es|);
    AtEnds(Step, Init(maximum), es);
    MaximumStays(maximum, es);
    assert SocketOk(Run(Step, Init(maximum), es).value, socket);
  }

  lemma {:induction false} MaximumStays(maximum: nat, es: seq<Event>)
    requires Run(Step, Init(maximum), es).Some?
    ensures Run(Step, Init(maximum), es).value.maximum == maximum
    decreases |es|
  {
    if es != [] {
      MaximumStays(maximum, es[..|es| - 1]);
    }
  }

  /** An event is accepted exactly when no drain has begun and fewer than the maximum of its socket's events are under way. */
  lemma AcceptedBelowTheMaximum(maximum: nat, es: seq<Event>, n: nat)
    requires Run(Step, Init(maximum), es).Some? && n < |es| && es[n].RunEvent?
    ensures es[n].id !in At(Step, Init(maximum), es, n).items
    ensures es[n].id in At(Step, Init(maximum), es, n + 1).items <==>
              && StartDrain !in es[..n] && BeginDrain !in es[..n]
              && |Running(At(Step, Init(maximum), es, n), es[n].socket)| < maximum
  {
    var s := At(Step, Init(maximum), es, n);
    RunKeepsInv(maximum, es, n);
    StepAt(Step, Init(maximum), es, n);
    AcceptsUntilDrained(maximum, es, n);
    Prefix(Step, Init(maximum), es, n);
    MaximumStays(maximum, es[..n]);
    hide Run, At;
    assert SocketOk(s, es[n].socket);
  }

  lemma {:induction false} AcceptsUntilDrained(maximum: nat, es: seq<Event>, n: nat)
    requires Run(Step, Init(maximum), es).Some? && n <= |es|
    ensures At(Step, Init(maximum), es, n).accepting <==> StartDrain !in es[..n] && BeginDrain !in es[..n]
  {
    hide Run, At, Step;
    AtEnds(Step, Init(maximum), es);
    if n > 0 {
      assert es[..n] == es[..n - 1] + [es[n - 1]];
      AcceptsUntilDrained(maximum, es, n - 1);
      StepAt(Step, Init(maximum), es, n - 1);
      OnlyDrainsStopAccepting(At(Step, Init(maximum), es, n - 1), es[n - 1]);
    }
  }

  lemma OnlyDrainsStopAccepting(s: State, e: Event)
    requires Step(s, e).Some?
    ensures Step(s, e).value.accepting <==> s.accepting && e != StartDrain && e != BeginDrain
  {
  }

  /** When `drain` returns, nothing is under way. */
  lemma DrainReturnsEmpty(maximum: nat, es: seq<Event>, n: nat)
    requires Run(Step, Init(maximum), es).Some? && n < |es|
    requires At(Step, Init(maximum), es, n).drain != Returned && At(Step, Init(maximum), es, n + 1).drain == Returned
    ensures var s := At(Step, Init(maximum), es, n + 1);
            s.work == {} && forall id :: id in s.items ==> s.items[id].finished
  {
    hide Run, At, Step, SocketOk;
    RunKeepsInv(maximum, es, n + 1);
    StepAt(Step, Init(maximum), es, n);
    ReturnsWhenEmpty(At(Step, Init(maximum), es, n), es[n]);
  }

  lemma ReturnsWhenEmpty(s: State, e: Event)
    requires Step(s, e).Some? && s.drain != Returned && Step(s, e).value.drain == Returned
    ensures Step(s, e).value.work == {}
  {
  }

  /** From the start of a drain on, no event of any socket is accepted. */
  lemma {:induction false} NoEventAfterDrain(maximum: nat, es: seq<Event>, n: nat, m: nat, id: nat)
    requires Run(Step, Init(maximum), es).Some? && n <= m <= |es|
    requires !At(Step, Init(maximum), es, n).accepting
    requires id !in At(Step, Init(maximum), es, n).items
    ensures var s := At(Step, Init(maximum), es, m); !s.accepting && (id in s.items ==> s.items[id].socket == None)
    decreases m
  {
    hide Run, At, Step;
    if n < m {
      NoEventAfterDrain(maximum, es, n, m - 1, id);
      StepAt(Step, Init(maximum), es, m - 1);
      StillRefuses(At(Step, Init(maximum), es, m - 1), es[m - 1], id);
    }
  }

  lemma StillRefuses(s: State, e: Event, id: nat)
    requires !s.accepting && (id in s.items ==> s.items[id].socket == None) && Step(s, e).Some?
    ensures var t := Step(s, e).value; !t.accepting && (id in t.items ==> t.items[id].socket == None)
  {
  }

  function Unfinished(s: State): set<nat>
  {
    set id | id in s.items && !s.items[id].finished
  }

  /** The step that brings a waiting drain nearer to its end: some work ends, or is forgotten, or the loop goes round. */
  lemma DrainAdvances(s: State) returns (e: Event)
    requires WorkOk(s) && s.drain.Waiting?
    ensures Step(s, e).Some?
    ensures var t := Step(s, e).value;
            if Unfinished(s) + s.work == {} then e == ResumeDrain && t.drain == Returned
            else (e.Finish? || e.Forget?) && t.drain == s.drain &&
                 |Unfinished(t)| + |t.work| < |Unfinished(s)| + |s.work|
  {
    if id :| id in Unfinished(s) {
      e := Finish(id);
      assert Unfinished(Step(s, e).value) == Unfinished(s) - {id};
    } else if id :| id in s.work {
      e := Forget(id);
      assert id !in Unfinished(s);
      assert Step(s, e).value.work == s.work - {id};
    } else {
      e := ResumeDrain;
      forall id | id in s.drain.seen ensures id in s.items && s.items[id].finished {
        assert id !in Unfinished(s);
      }
    }
  }

  /** Every drain that has begun can end: with no new background work it returns once all work has ended. */
  lemma {:induction false} DrainEnds(maximum: nat, es: seq<Event>) returns (fs: seq<Event>)
    requires Run(Step, Init(maximum), es).Some? && Run(Step, Init(maximum), es).value.drain.Waiting?
    ensures es <= fs && forall i :: |es| <= i < |fs| ==> fs[i].Finish? || fs[i].Forget? || fs[i].ResumeDrain?
    ensures Run(Step, Init(maximum), fs).Some?
    ensures var t := Run(Step, Init(maximum), fs).value; t.drain == Returned && t.work == {} && Unfinished(t) == {}
    decreases var s := Run(Step, Init(maximum), es).value; |Unfinished(s)| + |s.work|
  {
    RunKeepsInv(maximum, es, |es|);
    AtEnds(Step, Init(maximum), es);
    hide Run, Step, SocketOk;
    var s := Run(Step, Init(maximum), es).value;
    var e := DrainAdvances(s);
    var t;
    fs, t := Extend(Step, Init(maximum), es, e);
    if Unfinished(s) + s.work == {} {
      ResumeChangesDrain(s);
    } else {
      fs := DrainEnds(maximum, fs);
    }
  }

  lemma ResumeChangesDrain(s: State)
    requires Step(s, ResumeDrain).Some?
    ensures var t := Step(s, ResumeDrain).value; t == s.(drain := t.drain)
  {
  }

  // ---------- the object ----------

  class SocketWorkTracker {
    const maximumPerSocket: nat
    var acceptingEvents: bool
    var activeBySocket: map<string, nat>
    var activeWork: set<nat>
    ghost var items: map<nat, Item>
    ghost var draining: Drain

    ghost function Model(): State
      reads this
    {
      State(maximumPerSocket, acceptingEvents, activeBySocket, activeWork, items, draining)
    }

    constructor (maximum: nat)
      ensures Model() == Init(maximum)
    {
      maximumPerSocket := maximum;
      acceptingEvents, activeBySocket, activeWork, items, draining := true, map[], {}, map[], Idle;
    }

    /** `accepted` is false when the socket is told that the service is draining or busy. */
    method RunEvent(id: nat, socket: string) returns (accepted: bool)
      requires id !in items
      modifies this
      ensures Some(Model()) == Step(old(Model()), Event.RunEvent(id, socket))
      ensures accepted <==> id in items
      ensures accepted <==>
                && old(acceptingEvents)
                && (if socket in old(activeBySocket) then old(activeBySocket)[socket] else 0) < maximumPerSocket
    {
      if !acceptingEvents {
        return false;
      }
      var count := if socket in activeBySocket then activeBySocket[socket] else 0;
      if count >= maximumPerSocket {
        return false;
      }
      activeBySocket := activeBySocket[socket := count + 1];
      items := items[id := Item(Some(socket), false)];
      activeWork := activeWork + {id};
      return true;
    }

    method RunBackground(id: nat)
      requires id !in items
      modifies this
      ensures Some(Model()) == Step(old(Model()), Event.RunBackground(id))
    {
      items := items[id := Item(None, false)];
      activeWork := activeWork + {id};
    }

    /** The `finally` of an event. */
    method FinishEvent(id: nat, socket: string)
      requires id in items && items[id] == Item(Some(socket), false)
      modifies this
      ensures Some(Model()) == Step(old(Model()), Finish(id))
    {
      items := items[id := Item(Some(socket), true)];
      var remaining: int := (if socket in activeBySocket then activeBySocket[socket] as int else 1) - 1;
      if remaining <= 0 {
        activeBySocket := activeBySocket - {socket};
      } else {
        activeBySocket := activeBySocket[socket := remaining];
      }
    }

    /** `drain` up to its first await, or to its end. */
    method StartDraining() returns (over: bool)
      requires draining == Idle
      modifies this
      ensures Some(Model()) == Step(old(Model()), StartDrain) && (over <==> draining == Returned)
    {
      acceptingEvents := false;
      over := LoopCondition();
    }

    /** The condition of its loop. */
    method LoopCondition() returns (over: bool)
      modifies this`draining
      ensures Model() == Check(old(Model())) && (over <==> draining == Returned)
    {
      over := activeWork == {};
      draining := if over then Returned else Waiting(activeWork);
    }
  }
}
