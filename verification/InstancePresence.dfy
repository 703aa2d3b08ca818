/**
 One instance of the service: its presence tracking together with every socket connected to it, store users
 (src/socket/handlers/store.ts) and customers (src/socket/handlers/customer.ts). When they have all gone, nothing
 about them is left behind.
 */
module InstancePresence {
  import opened Machine
  import opened Redis
  import S = SocketLifecycle
  import T = PresenceTracking

  datatype Client =
    | StoreUser(store: T.Store, socket: S.Socket)
    | Customer(disconnected: bool, observing: bool)

  datatype State = State(tracker: T.Tracker, clients: map<nat, Client>)

  const INIT: State := State(T.EMPTY, map[])

  datatype Event =
    | ConnectStoreUser(id: nat, store: T.Store)
    | ConnectCustomer(id: nat)
    | OnSocket(id: nat, segment: S.Event)
    | CustomerObserves(id: nat, presence: seq<T.Presence>)   // after its bootstrap's last check
    | CustomerDisconnects(id: nat)
    | Tracking(e: T.Event)                                   // Redis answers and heartbeats

  // ---------- steps ----------

  function TrackerEvent(id: nat, store: T.Store, call: S.Call): T.Event
  {
    match call
    case Register => T.Register(store, id)
    case Unregister => T.Unregister(store, id)
    case Observe(presence) => T.SetObserved(id, presence)
    case Clear => T.ClearObserver(id)
  }

  function Perform(t: T.Tracker, id: nat, store: T.Store, calls: seq<S.Call>): Option<T.Tracker>
    decreases |calls|
  {
    if calls == [] then Some(t)
    else
      match T.Step(t, TrackerEvent(id, store, calls[0]))
      case None => None
      case Some(t') => Perform(t', id, store, calls[1..])
  }

  function Put(s: State, tracker: Option<T.Tracker>, id: nat, client: Client): Option<State>
  {
    if tracker.None? then None else Some(State(tracker.value, s.clients[id := client]))
  }

  function Step(s: State, e: Event): Option<State>
  {
    match e
    case ConnectStoreUser(id, store) =>
      if id in s.clients then None else Some(s.(clients := s.clients[id := StoreUser(store, S.CONNECTED)]))
    case ConnectCustomer(id) =>
      if id in s.clients then None else Some(s.(clients := s.clients[id := Customer(false, false)]))
    case OnSocket(id, segment) =>
      if id !in s.clients || !s.clients[id].StoreUser? then None
      else
        var StoreUser(store, socket) := s.clients[id];
        (match S.Segment(socket, segment)
         case None => None
         case Some((socket', calls)) => Put(s, Perform(s.tracker, id, store, calls), id, StoreUser(store, socket')))
    case CustomerObserves(id, presence) =>
      if id !in s.clients || !s.clients[id].Customer? || s.clients[id].disconnected then None
      else Put(s, T.Step(s.tracker, T.SetObserved(id, presence)), id, Customer(false, T.StoresOf(presence) != []))
    case CustomerDisconnects(id) =>
      if id !in s.clients || !s.clients[id].Customer? || s.clients[id].disconnected then None
      else Put(s, T.Step(s.tracker, T.ClearObserver(id)), id, Customer(true, false))
    case Tracking(own) =>
      if own.Register? || own.Unregister? || own.SetObserved? || own.ClearObserver? then None
      else
        match T.Step(s.tracker, own)
        case None => None
        case Some(t) => Some(s.(tracker := t))
  }

  // ---------- what the tracker knows of one client ----------

  datatype View = View(store: Option<T.Store>, observing: bool)

  const NOTHING: View := View(None, false)

  function ViewOf(t: T.Tracker, id: nat): View
  {
    View(if id in t.localSockets then Some(t.localSockets[id]) else None, id in t.observed)
  }

  /** What it should know: the socket is local from its register to its unregister. */
  function Expected(client: Client): View
  {
    match client
    case StoreUser(store, s) => View(if s.registers > s.unregisters then Some(store) else None, s.observing)
    case Customer(_, observing) => View(None, observing)
  }

  function Called(v: View, store: T.Store, call: S.Call): View
  {
    match call
    case Register => v.(store := Some(store))
    case Unregister => v.(store := None)
    case Observe(presence) => v.(observing := T.StoresOf(presence) != [])
    case Clear => v.(observing := false)
  }

  function CalledAll(v: View, store: T.Store, calls: seq<S.Call>): View
    decreases |calls|
  {
    if calls == [] then v else CalledAll(Called(v, store, calls[0]), store, calls[1..])
  }

  ghost predicate TrackerOk(t: T.Tracker) { T.CountsOk(t) && T.SocketsOk(t) }

  ghost predicate OnlyChanges(t: T.Tracker, t': T.Tracker, id: nat, v: View)
  {
    forall k :: ViewOf(t', k) == if k == id then v else ViewOf(t, k)
  }

  lemma TrackerStays(t: T.Tracker, e: T.Event)
    requires TrackerOk(t) && T.Step(t, e).Some?
    ensures TrackerOk(T.Step(t, e).value)
  {
    T.CountsStay(t, e);
    T.SocketsStay(t, e);
  }

  lemma CallEffect(t: T.Tracker, id: nat, store: T.Store, call: S.Call)
    requires TrackerOk(t) && ViewOf(t, id).store in {None, Some(store)}
    ensures var t' := T.Step(t, TrackerEvent(id, store, call));
            && t'.Some? && TrackerOk(t'.value)
            && OnlyChanges(t, t'.value, id, Called(ViewOf(t, id), store, call))
  {
    var e := TrackerEvent(id, store, call);
    assert T.Step(t, e).Some?;
    TrackerStays(t, e);
    match call
    case Register =>
      T.OnlyObserversChangeCounts(t, e);
      assert T.Step(t, e).value.localSockets == t.localSockets[id := store];
    case Unregister =>
      T.OnlyObserversChangeCounts(t, e);
      assert T.Step(t, e).value.localSockets == t.localSockets - {id};
    case Observe(presence) =>
      T.OnlySocketEventsChangeSockets(t, e);
      RewatchKeepsObserved(t, id, T.StoresOf(presence));
    case Clear =>
      T.OnlySocketEventsChangeSockets(t, e);
      T.FoldsFrame(t.(observed := t.observed - {id}), T.Observed(t, id), []);
  }

  lemma RewatchKeepsObserved(t: T.Tracker, id: nat, next: seq<T.Store>)
    requires T.NoZeros(t)
    ensures T.Rewatch(t, id, next).observed == t.observed
  {
    T.FoldsFrame(t, T.Observed(t, id), next);
    T.FoldsFrame(T.RemoveMissing(t, T.Observed(t, id), next), next, T.Observed(t, id));
  }

  lemma {:induction false} CallsEffect(t: T.Tracker, id: nat, store: T.Store, calls: seq<S.Call>)
    requires TrackerOk(t) && ViewOf(t, id).store in {None, Some(store)}
    ensures var t' := Perform(t, id, store, calls);
            && t'.Some? && TrackerOk(t'.value)
            && OnlyChanges(t, t'.value, id, CalledAll(ViewOf(t, id), store, calls))
    decreases |calls|
  {
    hide T.Step, TrackerOk;
    if calls != [] {
      CallEffect(t, id, store, calls[0]);
      var t1 := T.Step(t, TrackerEvent(id, store, calls[0])).value;
      assert ViewOf(t1, id) == Called(ViewOf(t, id), store, calls[0]);
      CallsEffect(t1, id, store, calls[1..]);
    }
  }

  // ---------- the invariant of the instance ----------

  ghost predicate ClientOk(client: Client)
  {
    match client
    case StoreUser(_, socket) => S.Inv(socket)
    case Customer(disconnected, observing) => disconnected ==> !observing
  }

  ghost predicate Agrees(t: T.Tracker, clients: map<nat, Client>)
  {
    forall k :: ViewOf(t, k) == if k in clients then Expected(clients[k]) else NOTHING
  }

  ghost predicate Inv(s: State)
  {
    TrackerOk(s.tracker) && Agrees(s.tracker, s.clients) && forall k :: k in s.clients ==> ClientOk(s.clients[k])
  }

  /** The calls of a segment take the socket's view where the segment says it goes. */
  lemma SegmentCalls(s: S.Socket, e: S.Event, store: T.Store)
    requires S.Inv(s) && S.Segment(s, e).Some?
    ensures var (s', calls) := S.Segment(s, e).value;
            S.Inv(s') && Expected(StoreUser(store, s')) == CalledAll(Expected(StoreUser(store, s)), store, calls)
  {
    S.SegmentKeepsInv(s, e);
    hide S.QueueOk, T.StoresOf;
    var (s', calls) := S.Segment(s, e).value;
    assert calls == [] || |calls| == 1 || calls == [S.Clear, S.Unregister];
  }

  lemma SocketKeepsInv(s: State, id: nat, segment: S.Event)
    requires Inv(s) && Step(s, OnSocket(id, segment)).Some?
    ensures Inv(Step(s, OnSocket(id, segment)).value)
  {
    var StoreUser(store, socket) := s.clients[id];
    hide S.Inv, S.Segment, T.Step, TrackerOk;
    assert ClientOk(s.clients[id]);
    SegmentCalls(socket, segment, store);
    var (socket', calls) := S.Segment(socket, segment).value;
    assert ViewOf(s.tracker, id) == Expected(s.clients[id]);
    CallsEffect(s.tracker, id, store, calls);
    hide Expected, ViewOf, CalledAll, Perform;
    Updated(s, Perform(s.tracker, id, store, calls).value, id, StoreUser(store, socket'));
  }

  lemma Updated(s: State, t': T.Tracker, id: nat, client: Client)
    requires Inv(s) && TrackerOk(t') && ClientOk(client)
    requires OnlyChanges(s.tracker, t', id, Expected(client))
    ensures Inv(State(t', s.clients[id := client]))
  {
    hide Expected, ViewOf, TrackerOk, ClientOk;
  }

  lemma CustomerKeepsInv(s: State, id: nat, call: S.Call, client: Client)
    requires Inv(s) && id in s.clients && s.clients[id].Customer? && client.Customer? && ClientOk(client)
    requires call.Observe? || call.Clear?
    requires Expected(client) == Called(Expected(s.clients[id]), "", call)
    ensures var t' := T.Step(s.tracker, TrackerEvent(id, "", call));
            t'.Some? && Inv(State(t'.value, s.clients[id := client]))
  {
    hide T.Step, TrackerOk;
    assert ViewOf(s.tracker, id) == Expected(s.clients[id]);
    CallEffect(s.tracker, id, "", call);
    Updated(s, T.Step(s.tracker, TrackerEvent(id, "", call)).value, id, client);
  }

  lemma ConnectKeepsInv(s: State, id: nat, client: Client)
    requires Inv(s) && id !in s.clients && ClientOk(client) && Expected(client) == NOTHING
    ensures Inv(s.(clients := s.clients[id := client]))
  {
    hide TrackerOk, Expected, ViewOf, ClientOk;
  }

  lemma StepKeepsInv(s: State, e: Event)
    requires Inv(s) && Step(s, e).Some?
    ensures Inv(Step(s, e).value)
  {
    match e
    case ConnectStoreUser(id, store) => ConnectKeepsInv(s, id, StoreUser(store, S.CONNECTED));
    case ConnectCustomer(id) => ConnectKeepsInv(s, id, Customer(false, false));
    case OnSocket(id, segment) => SocketKeepsInv(s, id, segment);
    case CustomerObserves(id, presence) =>
      CustomerKeepsInv(s, id, S.Observe(presence), Customer(false, T.StoresOf(presence) != []));
    case CustomerDisconnects(id) => CustomerKeepsInv(s, id, S.Clear, Customer(true, false));
    case Tracking(own) => TrackingKeepsInv(s, own);
  }

  lemma TrackingKeepsInv(s: State, own: T.Event)
    requires Inv(s) && Step(s, Tracking(own)).Some?
    ensures Inv(Step(s, Tracking(own)).value)
  {
    TrackerStays(s.tracker, own);
    T.OnlySocketEventsChangeSockets(s.tracker, own);
    T.OnlyObserversChangeCounts(s.tracker, own);
    hide T.Step, TrackerOk, Expected, ClientOk;
    assert forall k :: ViewOf(T.Step(s.tracker, own).value, k) == ViewOf(s.tracker, k);
  }

  lemma RunKeepsInv(es: seq<Event>)
    requires Run(Step, INIT, es).Some?
    ensures Inv(Run(Step, INIT, es).value)
  {
    assert Inv(INIT) by {
      assert forall s :: T.Watchers(T.EMPTY, s) == {};
      assert forall s :: T.MembersOf(T.EMPTY, s) == {};
    }
    hide Step, Inv;
    AtEnds(Step, INIT, es);
    forall s, e | Inv(s) && Step(s, e).Some? ensures Inv(Step(s, e).value) {
      StepKeepsInv(s, e);
    }
    Always(Step, Inv, INIT, es, 0, |es|);
  }

  // ---------- who watches what ----------

  /** Client `id` is shown `presence`: a customer after its bootstrap, or a connected store user that asked for it. */
  predicate Shows(s: State, e: Event, id: nat, presence: seq<T.Presence>)
  {
    || e == CustomerObserves(id, presence)
    || (e == OnSocket(id, S.SyncAnswered(presence)) &&
        id in s.clients && s.clients[id].StoreUser? && !s.clients[id].socket.disconnected)
  }

  ghost predicate WatchesExactly(t: T.Tracker, id: nat, presence: seq<T.Presence>)
  {
    forall store :: T.Watches(t, id, store) <==> T.Listed(presence, store)
  }

  ghost predicate SameWatched(t: T.Tracker, t': T.Tracker, id: nat)
  {
    (id in t'.observed <==> id in t.observed) && T.Observed(t', id) == T.Observed(t, id)
  }

  lemma CallWatches(t: T.Tracker, id: nat, store: T.Store, call: S.Call, o: nat)
    requires TrackerOk(t) && T.Step(t, TrackerEvent(id, store, call)).Some?
    ensures var t' := T.Step(t, TrackerEvent(id, store, call)).value;
            && TrackerOk(t')
            && (o == id && call.Observe? ==> WatchesExactly(t', o, call.presence))
            && (o == id && call.Clear? ==> o !in t'.observed)
            && (o != id || (!call.Observe? && !call.Clear?) ==> SameWatched(t, t', o))
  {
    var e := TrackerEvent(id, store, call);
    TrackerStays(t, e);
    match call
    case Observe(presence) =>
      RewatchKeepsObserved(t, id, T.StoresOf(presence));
      forall st ensures o == id ==> (T.Watches(T.Step(t, e).value, o, st) <==> T.Listed(presence, st)) {
        T.NewWatchList(t, id, presence, st);
      }
    case Clear => T.FoldsFrame(t.(observed := t.observed - {id}), T.Observed(t, id), []);
    case Register => T.OnlyObserversChangeCounts(t, e);
    case Unregister => T.OnlyObserversChangeCounts(t, e);
  }

  /** A segment of another client, or one that shows this one nothing, changes its list only by clearing it. */
  lemma {:induction false} CallsWatch(t: T.Tracker, id: nat, store: T.Store, calls: seq<S.Call>, o: nat)
    requires TrackerOk(t) && Perform(t, id, store, calls).Some?
    requires o == id ==> forall call :: call in calls ==> !call.Observe?
    ensures var t' := Perform(t, id, store, calls).value; TrackerOk(t') && (o !in t'.observed || SameWatched(t, t', o))
    ensures o != id ==> SameWatched(t, Perform(t, id, store, calls).value, o)
    decreases |calls|
  {
    hide T.Step, TrackerOk;
    if calls != [] {
      CallWatches(t, id, store, calls[0], o);
      CallsWatch(T.Step(t, TrackerEvent(id, store, calls[0])).value, id, store, calls[1..], o);
    }
  }

  lemma SegmentObserves(socket: S.Socket, segment: S.Event)
    requires S.Segment(socket, segment).Some?
    ensures var calls := S.Segment(socket, segment).value.1;
            if segment.SyncAnswered? && !socket.disconnected then calls == [S.Observe(segment.presence)]
            else forall call :: call in calls ==> !call.Observe?
  {
    hide T.StoresOf;
  }

  lemma SocketShows(s: State, id: nat, segment: S.Event, o: nat)
    requires Inv(s) && Step(s, OnSocket(id, segment)).Some?
    ensures var (t, t') := (s.tracker, Step(s, OnSocket(id, segment)).value.tracker);
            && (forall presence :: Shows(s, OnSocket(id, segment), o, presence) ==> WatchesExactly(t', o, presence))
            && ((forall presence :: !Shows(s, OnSocket(id, segment), o, presence)) ==>
                  o !in t'.observed || SameWatched(t, t', o))
  {
    var StoreUser(store, socket) := s.clients[id];
    SegmentObserves(socket, segment);
    hide T.Step, TrackerOk, S.Inv, S.Segment, WatchesExactly, SameWatched;
    var calls := S.Segment(socket, segment).value.1;
    if o == id && segment.SyncAnswered? && !socket.disconnected {
      assert Shows(s, OnSocket(id, segment), o, segment.presence);
      CallWatches(s.tracker, id, store, calls[0], o);
      var t' := T.Step(s.tracker, TrackerEvent(id, store, calls[0])).value;
      assert calls[1..] == [] && Perform(t', id, store, []) == Some(t');
      assert Step(s, OnSocket(id, segment)).value.tracker == t';
    } else {
      CallsWatch(s.tracker, id, store, calls, o);
    }
  }

  lemma StepShows(s: State, e: Event, o: nat)
    requires Inv(s) && Step(s, e).Some?
    ensures var (t, t') := (s.tracker, Step(s, e).value.tracker);
            && (forall presence :: Shows(s, e, o, presence) ==> WatchesExactly(t', o, presence))
            && ((forall presence :: !Shows(s, e, o, presence)) ==> o !in t'.observed || SameWatched(t, t', o))
  {
    match e
    case OnSocket(id, segment) => SocketShows(s, id, segment, o);
    case CustomerObserves(id, presence) =>
      hide T.Step, TrackerOk;
      assert Shows(s, e, id, presence);
      CallWatches(s.tracker, id, "", S.Observe(presence), o);
    case CustomerDisconnects(id) =>
      hide T.Step, TrackerOk;
      CallWatches(s.tracker, id, "", S.Clear, o);
    case Tracking(own) => T.OnlyObserversChangeCounts(s.tracker, own);
    case ConnectStoreUser(_, _) =>
    case ConnectCustomer(_) =>
  }

  /** Event `k` showed `presence` to the client, and no later one showed it anything. */
  ghost predicate LastShown(es: seq<Event>, k: nat, n: nat, id: nat, presence: seq<T.Presence>)
    requires Run(Step, INIT, es).Some? && n <= |es|
  {
    && k < n && Shows(At(Step, INIT, es, k), es[k], id, presence)
    && forall l, other :: k < l < n ==> !Shows(At(Step, INIT, es, l), es[l], id, other)
  }

  lemma ShownNow(es: seq<Event>, k: nat, id: nat, presence: seq<T.Presence>)
    requires Run(Step, INIT, es).Some? && k < |es| && Shows(At(Step, INIT, es, k), es[k], id, presence)
    ensures LastShown(es, k, k + 1, id, presence)
  {
    hide Run, At, Step, Shows;
  }

  lemma NotShownSince(es: seq<Event>, k: nat, n: nat, id: nat, presence: seq<T.Presence>)
    requires Run(Step, INIT, es).Some? && n < |es| && LastShown(es, k, n, id, presence)
    requires forall other :: !Shows(At(Step, INIT, es, n), es[n], id, other)
    ensures LastShown(es, k, n + 1, id, presence)
  {
    hide Run, At, Step, Shows;
  }

  /** Whoever watches anything watches exactly the stores of the presence list that it was last shown. */
  lemma {:induction false} WatchingWhatWasShown(es: seq<Event>, n: nat, id: nat)
    returns (k: nat, presence: seq<T.Presence>)
    requires Run(Step, INIT, es).Some? && n <= |es| && id in At(Step, INIT, es, n).tracker.observed
    ensures LastShown(es, k, n, id, presence) && WatchesExactly(At(Step, INIT, es, n).tracker, id, presence)
    decreases n
  {
    AtEnds(Step, INIT, es);
    assert n > 0;
    hide Run, At, Step, Shows, WatchesExactly, LastShown, Inv;
    var s, e := At(Step, INIT, es, n - 1), es[n - 1];
    StepAt(Step, INIT, es, n - 1);
    Prefix(Step, INIT, es, n - 1);
    RunKeepsInv(es[..n - 1]);
    StepShows(s, e, id);
    if p :| Shows(s, e, id, p) {
      k, presence := n - 1, p;
      ShownNow(es, k, id, p);
    } else {
      k, presence := WatchingWhatWasShown(es, n - 1, id);
      NotShownSince(es, k, n - 1, id, presence);
      StillWatches(s.tracker, At(Step, INIT, es, n).tracker, id, presence);
    }
  }

  lemma StillWatches(t: T.Tracker, t': T.Tracker, id: nat, presence: seq<T.Presence>)
    requires SameWatched(t, t', id) && WatchesExactly(t, id, presence)
    ensures WatchesExactly(t', id, presence)
  {
    forall store ensures T.Watches(t', id, store) <==> T.Watches(t, id, store) {
      assert T.Observed(t', id) == T.Observed(t, id);
    }
  }

  /** The client has disconnected, and for a store user the cleanup is over. */
  predicate Gone(client: Client)
  {
    match client
    case StoreUser(_, socket) => socket.cleanup == S.Done
    case Customer(disconnected, _) => disconnected
  }

  /** The local sockets are at every moment the store users between their register and their unregister. */
  lemma LocalSocketsAreRegistered(es: seq<Event>, id: nat, store: T.Store)
    requires Run(Step, INIT, es).Some?
    ensures var s := Run(Step, INIT, es).value;
            id in s.tracker.localSockets && s.tracker.localSockets[id] == store <==>
              && id in s.clients && s.clients[id].StoreUser? && s.clients[id].store == store
              && s.clients[id].socket.registers == 1 && s.clients[id].socket.unregisters == 0
  {
    RunKeepsInv(es);
    var s := Run(Step, INIT, es).value;
    hide Run, TrackerOk, S.QueueOk, S.EndOk;
    assert ViewOf(s.tracker, id) == if id in s.clients then Expected(s.clients[id]) else NOTHING;
    if id in s.clients {
      assert ClientOk(s.clients[id]);
    }
  }

  /** No interleaving leaks presence: once every client is gone there is no local socket, watch list or count left. */
  lemma NothingLeaks(es: seq<Event>)
    requires Run(Step, INIT, es).Some?
    requires forall k :: k in Run(Step, INIT, es).value.clients ==> Gone(Run(Step, INIT, es).value.clients[k])
    ensures var t := Run(Step, INIT, es).value.tracker;
            t.localSockets == map[] && t.byStore == map[] && t.observed == map[] && t.observers == map[]
  {
    RunKeepsInv(es);
    var s := Run(Step, INIT, es).value;
    var t := s.tracker;
    hide Run, Step;
    forall k ensures k !in t.localSockets && k !in t.observed {
      GoneIsForgotten(s, k);
    }
    assert t.localSockets.Keys == {} && t.observed.Keys == {};
    NobodyIsTracked(t);
  }

  lemma GoneIsForgotten(s: State, k: nat)
    requires Inv(s) && (k in s.clients ==> Gone(s.clients[k]))
    ensures ViewOf(s.tracker, k) == NOTHING
  {
    hide S.QueueOk, TrackerOk;
    if k in s.clients {
      assert ClientOk(s.clients[k]);
    }
  }

  lemma NobodyIsTracked(t: T.Tracker)
    requires TrackerOk(t) && t.localSockets == map[] && t.observed == map[]
    ensures t.byStore == map[] && t.observers == map[]
  {
    forall store ensures store !in t.byStore && store !in t.observers {
      assert T.Local(t, store) == T.MembersOf(t, store) == {};
      assert T.CountOk(t, store) && T.Watchers(t, store) == {};
    }
    assert t.byStore.Keys == {} && t.observers.Keys == {};
  }
}
